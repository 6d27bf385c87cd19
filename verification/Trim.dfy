/** The sample loop of the muxer tool: which samples are written when a clip is trimmed, and when. */
module Trim {

  datatype Sample = Sample(track: nat, time: int, sync: bool, data: seq<bv8>)

  // A writeSampleData call.
  datatype Written = Written(track: nat, time: int, sync: bool, data: seq<bv8>)

  datatype Window = Window(enabled: bool, start: int, end: int)

  // A sync sample that turns trimming on.
  predicate Opens(s: Sample, w: Window) { w.enabled && s.sync && w.start < s.time <= w.end }

  predicate Closes(s: Sample, w: Window) { w.enabled && s.time > w.end }

  // trimStarted and trimOffsetTimeUs after these samples.
  function Started(samples: seq<Sample>, w: Window): bool {
    if samples == [] then false
    else
      var s := samples[|samples| - 1];
      !Closes(s, w) && (Opens(s, w) || Started(samples[..|samples| - 1], w))
  }

  function Offset(samples: seq<Sample>, w: Window): int {
    if samples == [] then 0
    else
      var front, s := samples[..|samples| - 1], samples[|samples| - 1];
      if Opens(s, w) && !Started(front, w) then s.time else Offset(front, w)
  }

  function Write(s: Sample, tracks: map<nat, nat>, offset: int): Written
    requires s.track in tracks
  {
    Written(tracks[s.track], s.time - offset, s.sync, s.data)
  }

  predicate AllMapped(samples: seq<Sample>, tracks: map<nat, nat>) {
    forall i :: 0 <= i < |samples| ==> samples[i].track in tracks
  }

  // The samples of the tracks that are muxed.
  function Mapped(samples: seq<Sample>, tracks: map<nat, nat>): (m: seq<Sample>)
    ensures AllMapped(m, tracks)
  {
    if samples == [] then []
    else
      Mapped(samples[..|samples| - 1], tracks)
      + if samples[|samples| - 1].track in tracks then [samples[|samples| - 1]] else []
  }

  // What is written for samples of muxed tracks.
  function Output(samples: seq<Sample>, tracks: map<nat, nat>, w: Window): seq<Written>
    requires AllMapped(samples, tracks)
  {
    if samples == [] then []
    else
      Output(samples[..|samples| - 1], tracks, w)
      + if !w.enabled || Started(samples, w) then [Write(samples[|samples| - 1], tracks, Offset(samples, w))]
        else []
  }

  // ---- samples in any order of time ----

  // Sample j opened the window, and none since lay behind its end.
  ghost predicate OpenSince(samples: seq<Sample>, w: Window, j: nat) {
    j < |samples| && Opens(samples[j], w) && forall k :: j <= k < |samples| ==> samples[k].time <= w.end
  }

  lemma OpenSinceFront(samples: seq<Sample>, w: Window, j: nat)
    requires samples != [] && j < |samples| - 1 && w.enabled
    ensures OpenSince(samples, w, j)
            <==> OpenSince(samples[..|samples| - 1], w, j) && !Closes(samples[|samples| - 1], w)
  {
    var n := |samples| - 1;
    var front := samples[..n];
    if OpenSince(front, w, j) && !Closes(samples[n], w) {
      forall k | j <= k < |samples| ensures samples[k].time <= w.end {
        assert k == n || samples[k] == front[k];
      }
    }
  }

  // A sample is written exactly when a sync sample opened the window at or before it and no sample since
  // lay behind the window's end.
  lemma {:induction false} StartedIff(samples: seq<Sample>, w: Window)
    requires w.enabled
    ensures Started(samples, w) <==> exists j: nat :: OpenSince(samples, w, j)
  {
    if samples != [] {
      var n := |samples| - 1;
      var front := samples[..n];
      StartedIff(front, w);
      if Started(samples, w) {
        if Opens(samples[n], w) {
          assert OpenSince(samples, w, n);
        } else {
          var j: nat :| OpenSince(front, w, j);
          OpenSinceFront(samples, w, j);
        }
      }
      if j: nat :| OpenSince(samples, w, j) {
        assert samples[n].time <= w.end;
        if j < n {
          OpenSinceFront(samples, w, j);
        }
      }
    }
  }

  // What is written is one stretch: sample n - 1 is written if and only if Started(samples[..n]).
  ghost predicate OneStretch(samples: seq<Sample>, w: Window) {
    forall p, q, r :: 0 <= p < q < r <= |samples| && Started(samples[..p], w) && Started(samples[..r], w) ==>
      Started(samples[..q], w)
  }

  // The window closes between two sync samples that open it.
  ghost predicate Reopens(samples: seq<Sample>, w: Window, i: nat, j: nat, k: nat) {
    i < j < k < |samples| && Opens(samples[i], w) && Closes(samples[j], w) && Opens(samples[k], w)
  }

  lemma ReopenedInBetween(samples: seq<Sample>, w: Window, p: nat, q: nat, r: nat)
    returns (i: nat, j: nat, k: nat)
    requires w.enabled && p < q < r <= |samples|
    requires Started(samples[..p], w) && !Started(samples[..q], w) && Started(samples[..r], w)
    ensures Reopens(samples, w, i, j, k)
  {
    StartedIff(samples[..p], w);
    StartedIff(samples[..q], w);
    StartedIff(samples[..r], w);
    i :| OpenSince(samples[..p], w, i);
    k :| OpenSince(samples[..r], w, k);
    assert !OpenSince(samples[..q], w, i) && !OpenSince(samples[..q], w, k);
    j :| i <= j < q && samples[..q][j].time > w.end;
    if k < q {
      forall m | k <= m < q ensures samples[..q][m].time <= w.end {
        assert samples[..q][m] == samples[..r][m];
      }
    }
  }

  lemma {:induction false} StretchesOf(samples: seq<Sample>, w: Window, i: nat, j: nat, k: nat)
    requires w.enabled && Reopens(samples, w, i, j, k)
    ensures Started(samples[..i + 1], w) && !Started(samples[..j + 1], w) && Started(samples[..k + 1], w)
  {
    StartedIff(samples[..i + 1], w);
    StartedIff(samples[..j + 1], w);
    StartedIff(samples[..k + 1], w);
    assert OpenSince(samples[..i + 1], w, i) && OpenSince(samples[..k + 1], w, k);
    assert samples[..j + 1][j].time > w.end;
  }

  // For times in any order, one stretch is written if and only if no sample behind the window's end lies
  // between two sync samples in the window.
  lemma OneStretchIff(samples: seq<Sample>, w: Window)
    requires w.enabled
    ensures OneStretch(samples, w) <==> !exists i: nat, j: nat, k: nat :: Reopens(samples, w, i, j, k)
  {
    if i: nat, j: nat, k: nat :| Reopens(samples, w, i, j, k) {
      StretchesOf(samples, w, i, j, k);
    }
    if !OneStretch(samples, w) {
      var p: nat, q: nat, r: nat :| p < q < r <= |samples| && Started(samples[..p], w) && Started(samples[..r], w)
                                    && !Started(samples[..q], w);
      var i, j, k := ReopenedInBetween(samples, w, p, q, r);
    }
  }

  // The offset is the time of the sync sample that opened the stretch being written.
  lemma {:induction false} OffsetIsTheOpening(samples: seq<Sample>, w: Window) returns (j: nat)
    requires Started(samples, w)
    ensures j < |samples| && Opens(samples[j], w) && Offset(samples, w) == samples[j].time
    ensures !Started(samples[..j], w)
    ensures forall k :: j < k <= |samples| ==> Started(samples[..k], w)
  {
    var n := |samples| - 1;
    var front := samples[..n];
    assert samples[..|samples|] == samples;
    if !Started(front, w) {
      j := n;
    } else {
      j := OffsetIsTheOpening(front, w);
      assert samples[..j] == front[..j];
      forall k | j < k <= n ensures Started(samples[..k], w) {
        assert samples[..k] == front[..k];
      }
    }
  }

  // Without trimming every sample is written as it is.
  function Unchanged(samples: seq<Sample>, tracks: map<nat, nat>, offset: int): (out: seq<Written>)
    requires AllMapped(samples, tracks)
    ensures |out| == |samples|
  {
    seq(|samples|, i requires 0 <= i < |samples| => Write(samples[i], tracks, offset))
  }

  lemma {:induction false} UntrimmedIsUnchanged(samples: seq<Sample>, tracks: map<nat, nat>, w: Window)
    requires AllMapped(samples, tracks) && !w.enabled
    ensures Offset(samples, w) == 0 && Output(samples, tracks, w) == Unchanged(samples, tracks, 0)
  {
    if samples != [] {
      UntrimmedIsUnchanged(samples[..|samples| - 1], tracks, w);
    }
  }

  // Samples j to n - 1 are one stretch: j opens it, and all of them are written.
  ghost predicate Stretch(samples: seq<Sample>, w: Window, j: nat, n: nat) {
    j < n <= |samples| && !Started(samples[..j], w) && forall m :: j < m <= n ==> Started(samples[..m], w)
  }

  lemma {:induction false} OffsetOfStretch(samples: seq<Sample>, w: Window, j: nat, n: nat)
    requires Stretch(samples, w, j, n)
    ensures Opens(samples[j], w) && Offset(samples[..n], w) == samples[j].time
    decreases n
  {
    assert samples[..n][..n - 1] == samples[..n - 1];
    if n > j + 1 {
      OffsetOfStretch(samples, w, j, n - 1);
    }
  }

  // With times in any order, a stretch is written as it is, moved by the time of the sample that opened it.
  lemma {:induction false} StretchIsMoved(samples: seq<Sample>, tracks: map<nat, nat>, w: Window, j: nat, n: nat)
    requires AllMapped(samples, tracks) && w.enabled && Stretch(samples, w, j, n)
    ensures Opens(samples[j], w)
    ensures Output(samples[..n], tracks, w)
         == Output(samples[..j], tracks, w) + Unchanged(samples[j..n], tracks, samples[j].time)
    decreases n
  {
    hide Started, Offset, Write;
    OffsetOfStretch(samples, w, j, n);
    OneMoreOutput(samples, tracks, w, n);
    assert samples[j..n] == samples[j..n - 1] + [samples[n - 1]];
    if n > j + 1 {
      StretchIsMoved(samples, tracks, w, j, n - 1);
    }
  }

  // So a stretch starts at zero and keeps all differences, and an output time is negative exactly when the
  // sample lies before the one that opened its stretch.
  lemma {:induction false} StretchTimes(samples: seq<Sample>, tracks: map<nat, nat>, w: Window, j: nat, n: nat,
                                        i: nat, k: nat)
    requires AllMapped(samples, tracks) && w.enabled && Stretch(samples, w, j, n)
    requires j <= i < n && j <= k < n
    ensures var out, before := Output(samples[..n], tracks, w), |Output(samples[..j], tracks, w)|;
            && |out| == before + (n - j) && out[before].time == 0
            && out[before + (i - j)].time - out[before + (k - j)].time == samples[i].time - samples[k].time
            && (out[before + (i - j)].time < 0 <==> samples[i].time < samples[j].time)
  {
    StretchIsMoved(samples, tracks, w, j, n);
    StretchAt(samples, tracks, j, n, j);
    StretchAt(samples, tracks, j, n, i);
    StretchAt(samples, tracks, j, n, k);
  }

  lemma StretchAt(samples: seq<Sample>, tracks: map<nat, nat>, j: nat, n: nat, i: nat)
    requires AllMapped(samples, tracks) && j <= i < n <= |samples|
    ensures Unchanged(samples[j..n], tracks, samples[j].time)[i - j] == Write(samples[i], tracks, samples[j].time)
  {
    assert samples[j..n][i - j] == samples[i];
  }

  // ---- the records written, field by field ----

  predicate InWindow(s: Sample, w: Window) { s.sync && w.start < s.time <= w.end }

  // A sync sample in the window, and none behind its end since.
  ghost predicate Recording(samples: seq<Sample>, w: Window) {
    exists j :: 0 <= j < |samples| && InWindow(samples[j], w) && !AnyBehind(samples[j..], w)
  }

  predicate AnyBehind(samples: seq<Sample>, w: Window) { exists k :: 0 <= k < |samples| && samples[k].time > w.end }

  lemma {:induction false} RecordingIff(samples: seq<Sample>, w: Window)
    requires w.enabled
    ensures Started(samples, w) <==> Recording(samples, w)
  {
    StartedIff(samples, w);
    if j: nat :| OpenSince(samples, w, j) {
      assert !AnyBehind(samples[j..], w);
    }
    if j: nat :| 0 <= j < |samples| && InWindow(samples[j], w) && !AnyBehind(samples[j..], w) {
      forall k | j <= k < |samples| ensures samples[k].time <= w.end {
        assert samples[j..][k - j] == samples[k];
      }
      assert OpenSince(samples, w, j);
    }
  }

  // What one more sample adds, for times in any order: nothing while the window is closed, otherwise one
  // record on the output track its track is mapped to, at its time less that of the sync sample that opened
  // the stretch (nothing is taken off without trimming).
  lemma {:induction false} RecordInFields(samples: seq<Sample>, tracks: map<nat, nat>, w: Window)
    returns (j: nat, t0: int)
    requires AllMapped(samples, tracks) && samples != []
    ensures var n := |samples| - 1;
            var s := samples[n];
            Output(samples, tracks, w)
            == Output(samples[..n], tracks, w)
               + if !w.enabled || Recording(samples, w) then [Written(tracks[s.track], s.time - t0, s.sync, s.data)]
                 else []
    ensures !w.enabled ==> t0 == 0
    ensures w.enabled && Recording(samples, w) ==>
              && j < |samples| && InWindow(samples[j], w) && t0 == samples[j].time
              && !Recording(samples[..j], w) && forall m :: j < m <= |samples| ==> Recording(samples[..m], w)
  {
    j, t0 := 0, Offset(samples, w);
    if !w.enabled {
      UntrimmedIsUnchanged(samples, tracks, w);
    } else {
      RecordingIff(samples, w);
      if Started(samples, w) {
        j := OffsetIsTheOpening(samples, w);
        RecordingIff(samples[..j], w);
        forall m | j < m <= |samples| ensures Recording(samples[..m], w) {
          RecordingIff(samples[..m], w);
        }
      }
    }
  }

  // A whole stretch, and everything without trimming.
  lemma {:induction false} StretchInFields(
    samples: seq<Sample>, tracks: map<nat, nat>, w: Window, j: nat, n: nat, i: nat)
    requires AllMapped(samples, tracks) && w.enabled && Stretch(samples, w, j, n) && j <= i < n
    ensures var out, before := Output(samples[..n], tracks, w), |Output(samples[..j], tracks, w)|;
            && |out| == before + (n - j)
            && out[before + (i - j)] == Written(tracks[samples[i].track], samples[i].time - samples[j].time,
                                                samples[i].sync, samples[i].data)
  {
    StretchIsMoved(samples, tracks, w, j, n);
    StretchAt(samples, tracks, j, n, i);
  }

  lemma {:induction false} UntrimmedInFields(samples: seq<Sample>, tracks: map<nat, nat>, w: Window, i: nat)
    requires AllMapped(samples, tracks) && !w.enabled && i < |samples|
    ensures var out := Output(samples, tracks, w);
            && |out| == |samples|
            && out[i] == Written(tracks[samples[i].track], samples[i].time, samples[i].sync, samples[i].data)
  {
    UntrimmedIsUnchanged(samples, tracks, w);
  }

  // The samples that reach the trimming are exactly those of mapped tracks, in their order.
  lemma {:induction false} MappedInFields(samples: seq<Sample>, tracks: map<nat, nat>) returns (from: seq<nat>)
    ensures |from| == |Mapped(samples, tracks)|
    ensures forall k :: 0 <= k < |from| ==> from[k] < |samples| && Mapped(samples, tracks)[k] == samples[from[k]]
    ensures forall k, l :: 0 <= k < l < |from| ==> from[k] < from[l]
    ensures forall i: nat :: i in from <==> i < |samples| && samples[i].track in tracks
  {
    from := [];
    if samples != [] {
      var n := |samples| - 1;
      var front := MappedInFields(samples[..n], tracks);
      forall i: nat | i < n ensures samples[..n][i] == samples[i] {
      }
      if samples[n].track in tracks {
        from := front + [n];
        assert from[|front|] == n && forall k :: 0 <= k < |front| ==> from[k] == front[k];
      } else {
        from := front;
      }
    }
  }

  // ---- samples in order of time ----

  ghost predicate InOrder(samples: seq<Sample>) {
    forall i, j :: 0 <= i < j < |samples| ==> samples[i].time <= samples[j].time
  }

  // The first sync sample in the window; the number of samples when there is none.
  function FirstOpen(samples: seq<Sample>, w: Window): (a: nat)
    ensures a <= |samples|
    ensures forall i :: 0 <= i < a ==> !Opens(samples[i], w)
    ensures a < |samples| ==> Opens(samples[a], w)
  {
    if samples == [] || Opens(samples[0], w) then 0 else 1 + FirstOpen(samples[1..], w)
  }

  // The first sample behind the window's end.
  function FirstBehind(samples: seq<Sample>, w: Window): (b: nat)
    ensures b <= |samples|
    ensures forall i :: 0 <= i < b ==> !Closes(samples[i], w)
    ensures b < |samples| ==> Closes(samples[b], w)
  {
    if samples == [] || Closes(samples[0], w) then 0 else 1 + FirstBehind(samples[1..], w)
  }

  lemma {:induction false} InOrderStarted(samples: seq<Sample>, w: Window, n: nat)
    requires InOrder(samples) && w.enabled && n <= |samples|
    ensures var a, b := FirstOpen(samples, w), FirstBehind(samples, w);
            (Started(samples[..n], w) <==> a < n <= b)
            && (a < n <= b ==> Offset(samples[..n], w) == samples[a].time)
  {
    if n > 0 {
      var a, b := FirstOpen(samples, w), FirstBehind(samples, w);
      InOrderStarted(samples, w, n - 1);
      assert samples[..n][..n - 1] == samples[..n - 1];
      var s := samples[n - 1];
      assert b < n ==> samples[b].time <= s.time;
      assert a < n && n <= b ==> samples[a].time <= s.time;
    }
  }

  lemma {:induction false} OneMoreOutput(samples: seq<Sample>, tracks: map<nat, nat>, w: Window, n: nat)
    requires AllMapped(samples, tracks) && w.enabled && 0 < n <= |samples|
    ensures Output(samples[..n], tracks, w)
            == Output(samples[..n - 1], tracks, w)
               + if Started(samples[..n], w) then [Write(samples[n - 1], tracks, Offset(samples[..n], w))] else []
  {
    assert samples[..n][..n - 1] == samples[..n - 1];
  }

  // The run among the first n samples.
  function RunOf(samples: seq<Sample>, tracks: map<nat, nat>, w: Window, n: nat): seq<Written>
    requires AllMapped(samples, tracks) && n <= |samples|
  {
    var a, b := FirstOpen(samples, w), FirstBehind(samples, w);
    var m := if n <= b then n else b;
    if a < m then Unchanged(samples[a..m], tracks, samples[a].time) else []
  }

  lemma {:induction false} NothingYet(samples: seq<Sample>, tracks: map<nat, nat>, w: Window)
    requires AllMapped(samples, tracks)
    ensures Output(samples[..0], tracks, w) == RunOf(samples, tracks, w, 0)
  {
  }

  lemma {:induction false} OneMoreOfRun(samples: seq<Sample>, tracks: map<nat, nat>, w: Window, n: nat)
    requires AllMapped(samples, tracks) && 0 < n <= |samples|
    ensures var a, b := FirstOpen(samples, w), FirstBehind(samples, w);
            RunOf(samples, tracks, w, n)
            == RunOf(samples, tracks, w, n - 1)
               + if a < n <= b then [Write(samples[n - 1], tracks, samples[a].time)] else []
  {
    var a, b := FirstOpen(samples, w), FirstBehind(samples, w);
    if a < n <= b {
      assert samples[a..n] == samples[a..n - 1] + [samples[n - 1]];
    }
  }

  lemma {:induction false} OutputSoFar(samples: seq<Sample>, tracks: map<nat, nat>, w: Window, n: nat)
    requires InOrder(samples) && w.enabled && n <= |samples| && AllMapped(samples, tracks)
    ensures Output(samples[..n], tracks, w) == RunOf(samples, tracks, w, n)
  {
    hide Started, Offset, RunOf, Write;
    if n > 0 {
      OutputSoFar(samples, tracks, w, n - 1);
      InOrderStarted(samples, w, n);
      OneMoreOutput(samples, tracks, w, n);
      OneMoreOfRun(samples, tracks, w, n);
    } else {
      NothingYet(samples, tracks, w);
    }
  }

  // With times in order, what is written is one contiguous run: from the first sync sample in the window
  // to the last sample at or before its end, each moved by the first one's time.
  lemma {:induction false} TrimIsOneRun(samples: seq<Sample>, tracks: map<nat, nat>, w: Window)
    requires InOrder(samples) && w.enabled && AllMapped(samples, tracks)
    ensures var a, b := FirstOpen(samples, w), FirstBehind(samples, w);
            Output(samples, tracks, w)
            == if a < |samples| then Unchanged(samples[a..b], tracks, samples[a].time) else []
    ensures FirstOpen(samples, w) < |samples| ==> FirstOpen(samples, w) < FirstBehind(samples, w)
  {
    var a, b := FirstOpen(samples, w), FirstBehind(samples, w);
    assert samples[..|samples|] == samples;
    OutputSoFar(samples, tracks, w, |samples|);
    forall j | b <= j < |samples| ensures !Opens(samples[j], w) {
      assert samples[b].time <= samples[j].time;
    }
  }

  // Output times start at zero and keep all differences.
  lemma {:induction false} TimesKeepDifferences(samples: seq<Sample>, tracks: map<nat, nat>, w: Window, i: nat, j: nat)
    requires InOrder(samples) && w.enabled && AllMapped(samples, tracks)
    requires i <= j < |Output(samples, tracks, w)|
    ensures var out, a := Output(samples, tracks, w), FirstOpen(samples, w);
            out[0].time == 0 && a + j < |samples|
            && out[j].time - out[i].time == samples[a + j].time - samples[a + i].time
  {
    WrittenAt(samples, tracks, w, 0);
    WrittenAt(samples, tracks, w, i);
    WrittenAt(samples, tracks, w, j);
  }

  lemma {:induction false} WrittenAt(samples: seq<Sample>, tracks: map<nat, nat>, w: Window, k: nat)
    requires InOrder(samples) && w.enabled && AllMapped(samples, tracks)
    requires k < |Output(samples, tracks, w)|
    ensures var a := FirstOpen(samples, w);
            a + k < |samples| && Output(samples, tracks, w)[k] == Write(samples[a + k], tracks, samples[a].time)
  {
    TrimIsOneRun(samples, tracks, w);
    var a, b := FirstOpen(samples, w), FirstBehind(samples, w);
    assert samples[a..b][k] == samples[a + k];
  }

  // Where the window reopens, the second stretch starts at zero again.
  lemma DisorderRestartsTheClock(data: seq<bv8>)
    ensures var w := Window(true, 0, 10);
            var samples := [Sample(0, 5, true, data), Sample(0, 11, false, data), Sample(0, 6, true, data)];
            Output(samples, map[0 := 0], w) == [Written(0, 0, true, data), Written(0, 0, true, data)]
  {
    var w := Window(true, 0, 10);
    var a, b, c := Sample(0, 5, true, data), Sample(0, 11, false, data), Sample(0, 6, true, data);
    assert [a, b, c][..2] == [a, b] && [a, b][..1] == [a] && [a][..0] == [];
    assert Started([a], w) && !Started([a, b], w) && Started([a, b, c], w);
    assert Output([a], map[0 := 0], w) == [Written(0, 0, true, data)];
    assert Output([a, b], map[0 := 0], w) == [Written(0, 0, true, data)];
  }

  // ---- the start of the window ----

  // The start time is reset when a selected track is shorter.
  function AdjustedStart(start: int, durations: seq<nat>): int {
    if durations == [] then start
    else
      var before := AdjustedStart(start, durations[..|durations| - 1]);
      if before > durations[|durations| - 1] then 0 else before
  }

  lemma {:induction false} AdjustedIff(start: int, durations: seq<nat>)
    ensures AdjustedStart(start, durations)
            == if exists i :: 0 <= i < |durations| && start > durations[i] then 0 else start
  {
    if durations != [] {
      var front := durations[..|durations| - 1];
      AdjustedIff(start, front);
      if i :| 0 <= i < |front| && start > front[i] {
        assert start > durations[i];
      }
    }
  }

  // ---- the loop ----

  lemma {:induction false} MappedMore(samples: seq<Sample>, tracks: map<nat, nat>, i: nat)
    requires i < |samples|
    ensures var before, after := Mapped(samples[..i], tracks), Mapped(samples[..i + 1], tracks);
            after == before + if samples[i].track in tracks then [samples[i]] else []
  {
    assert samples[..i + 1][..i] == samples[..i];
  }

  lemma {:induction false} OneMoreSample(m: seq<Sample>, s: Sample, tracks: map<nat, nat>, w: Window)
    requires AllMapped(m, tracks) && s.track in tracks
    ensures AllMapped(m + [s], tracks)
    ensures Started(m + [s], w) == (!Closes(s, w) && (Opens(s, w) || Started(m, w)))
    ensures Offset(m + [s], w) == if Opens(s, w) && !Started(m, w) then s.time else Offset(m, w)
    ensures Output(m + [s], tracks, w)
            == Output(m, tracks, w)
               + if !w.enabled || Started(m + [s], w) then [Write(s, tracks, Offset(m + [s], w))] else []
  {
    assert (m + [s])[..|m|] == m;
  }

  method Muxing(samples: seq<Sample>, tracks: map<nat, nat>, w: Window) returns (out: seq<Written>)
    ensures out == Output(Mapped(samples, tracks), tracks, w)
  {
    out := [];
    var trimStarted, trimOffset := false, 0;
    ghost var m: seq<Sample> := [];
    for i := 0 to |samples|
      invariant m == Mapped(samples[..i], tracks)
      invariant out == Output(m, tracks, w) && trimStarted == Started(m, w) && trimOffset == Offset(m, w)
    {
      var s := samples[i];
      MappedMore(samples, tracks, i);
      if s.track !in tracks {
        continue;
      }
      OneMoreSample(m, s, tracks, w);
      m := m + [s];
      if s.sync {
        if w.enabled && s.time > w.start && s.time <= w.end {
          if !trimStarted {
            trimOffset := s.time;
          }
          trimStarted := true;
        }
      }
      if w.enabled && s.time > w.end {
        trimStarted := false;
      }
      if !w.enabled || trimStarted {
        out := out + [Written(tracks[s.track], s.time - trimOffset, s.sync, s.data)];
      }
    }
    assert samples[..|samples|] == samples;
  }
}
