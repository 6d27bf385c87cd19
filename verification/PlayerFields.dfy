/** What SimplePlayer's messages, its preparation and its pump leave in the fields of the player, its
    tracks and its buffers, in terms of those fields alone. */
module PlayerFields {
  import opened Arithmetic
  import opened Player
  import opened PlayerAudio
  import opened PlayerTrack
  import opened TrackSelection
  import opened Wrappers

  // ---------------------------------------------------------------------------------------------
  // Messages.

  // The messages that leave everything but the state as it is.
  lemma SettersInFields(p: Fields, env: Environment)
    ensures Handle(p, SetDataSource, env)
         == if p.state == UNINITIALIZED then Handled(p.(state := UNPREPARED), None, Unassigned)
            else Handled(p, None, Replied(INVALID_OPERATION))
    ensures Handle(p, SetSurface, env)
         == Handled(p, None, Replied(if p.state == UNPREPARED then OK else INVALID_OPERATION))
  {
  }

  lemma PrepareInFields(p: Fields, env: Environment)
    ensures var h, ready := Handle(p, Prepare, env), p.state == UNPREPARED && env.setup.status == OK;
            && h.Handled? && h.posted == None
            && h.reply == Replied(if p.state == UNPREPARED then env.setup.status else INVALID_OPERATION)
            && (!ready ==> h.fields == p)
            && (ready ==> h.fields.state == STOPPED && h.fields.generation == p.generation
                          && h.fields.startTimeRealUs == p.startTimeRealUs
                          && h.fields.samples == env.setup.samples && h.fields.position == 0)
  {
  }

  // start() prepares where that is still to be done, and starts exactly a player that is then STOPPED.
  lemma StartInFields(p: Fields, env: Environment)
    ensures var h := Handle(p, Start, env);
            var starts := p.state == STOPPED || (p.state == UNPREPARED && env.setup.status == OK);
            && h.Handled?
            && (starts ==> h.fields.state == STARTED && h.fields.generation == p.generation + 1
                           && h.fields.startTimeRealUs == -1
                           && h.posted == Some(DoMoreStuff(p.generation + 1)) && h.reply == Replied(OK))
            && (p.state == STOPPED ==> h.fields.tracks == p.tracks && h.fields.samples == p.samples
                                       && h.fields.position == p.position)
            && (p.state == UNPREPARED && starts ==>
                  h.fields.tracks == Handle(p, Prepare, env).fields.tracks
                  && h.fields.samples == env.setup.samples && h.fields.position == 0)
            && (!starts ==>
                  h.fields == p && h.posted == None
                  && h.reply == Replied(if p.state == UNPREPARED then env.setup.status else INVALID_OPERATION))
  {
  }

  lemma StopInFields(p: Fields, env: Environment)
    ensures Handle(p, Stop, env)
         == if p.state == STARTED
            then Handled(p.(state := STOPPED, generation := p.generation + 1), None, Replied(OK))
            else Handled(p, None, Replied(INVALID_OPERATION))
  {
  }

  // reset() forgets everything of a player that was prepared, and raises the generation of one that runs.
  lemma ResetInFields(p: Fields, env: Environment)
    ensures Handle(p, Reset, env)
         == Handled(if p.state == STARTED then Fields(UNINITIALIZED, p.generation + 1, -1, [], [], 0)
                    else if p.state == STOPPED then Fields(UNINITIALIZED, p.generation, -1, [], [], 0)
                    else p,
                    None, Replied(OK))
  {
  }

  // A pump message of the current generation is posted again and changes neither state nor generation.
  lemma PumpInFields(p: Fields, generation: int, env: Environment)
    ensures var h := Handle(p, DoMoreStuff(generation), env);
            && (generation != p.generation ==> h == Handled(p, None, NoReply))
            && (generation == p.generation && h.Handled? ==>
                  h.posted == Some(DoMoreStuff(generation)) && h.reply == NoReply
                  && h.fields.state == p.state && h.fields.generation == p.generation
                  && h.fields.samples == p.samples && p.position <= h.fields.position
                  && |h.fields.tracks| == |p.tracks|
                  && h.fields.startTimeRealUs
                     == if p.startTimeRealUs < 0 then env.pump.nowUs + 1000000 else p.startTimeRealUs)
  {
  }

  // ---------------------------------------------------------------------------------------------
  // Preparing.

  lemma NewTrackInFields(csd: seq<nat>)
    ensures var t := NewTrack(csd);
            && t.codec.inDequeued == csd && |t.codec.inQueued| == |csd|
            && (forall i :: 0 <= i < |csd| ==> t.codec.inQueued[i] == CodecConfig(csd[i]))
            && t.codec.outDequeued == [] && t.codec.outReturned == [] && t.availIn == [] && t.availOut == []
            && t.audio == None && t.numFramesWritten == 0 && t.pcm == []
  {
  }

  // The tracks are those of the first audio and the first video track of the file, in track order; each
  // has queued its codec-specific data, piece by piece, and holds nothing else.
  lemma PreparedInFields(p: Fields, env: Environment) returns (selected: seq<nat>)
    requires p.state == UNPREPARED && env.setup.status == OK
    ensures forall i, j :: 0 <= i < j < |selected| ==> selected[i] < selected[j]
    ensures forall k :: 0 <= k < |selected| ==> selected[k] < |env.setup.formats|
    ensures forall i: nat :: i in selected <==>
              i < |env.setup.formats| && env.setup.formats[i].kind != Other
              && forall j :: 0 <= j < i ==> env.setup.formats[j].kind != env.setup.formats[i].kind
    ensures var tracks := Handle(p, Prepare, env).fields.tracks;
            |tracks| == |selected|
            && forall k :: 0 <= k < |tracks| ==>
                 var csd := env.setup.formats[selected[k]].csd;
                 && tracks[k].codec.inDequeued == csd && |tracks[k].codec.inQueued| == |csd|
                 && (forall i :: 0 <= i < |csd| ==> tracks[k].codec.inQueued[i] == CodecConfig(csd[i]))
                 && tracks[k].codec.outDequeued == [] && tracks[k].codec.outReturned == []
                 && tracks[k].availIn == [] && tracks[k].availOut == [] && tracks[k].audio == None
                 && tracks[k].numFramesWritten == 0 && tracks[k].pcm == []
  {
    hide NewTrack, Selected, Chosen;
    var kinds := KindsOf(env.setup.formats);
    selected := Selected(kinds, Use(true, true), |kinds|);
    SelectedIff(kinds, Use(true, true));
    forall k | 0 <= k < |selected| ensures selected[k] < |kinds| {
      assert selected[k] in selected;
    }
    forall k | 0 <= k < |selected|
      ensures Handle(p, Prepare, env).fields.tracks[k] == NewTrack(env.setup.formats[selected[k]].csd)
    {
    }
    forall csd: seq<nat> {
      NewTrackInFields(csd);
    }
    assert forall i :: 0 <= i < |kinds| ==> kinds[i] == env.setup.formats[i].kind;
  }

  // ---------------------------------------------------------------------------------------------
  // Draining.

  // The buffers among the answers of dequeueOutputBuffer.
  function BuffersIn(outs: seq<OutputEvent>): seq<BufferInfo> {
    if outs == [] then [] else (if outs[0].Buffer? then [outs[0].info] else []) + BuffersIn(outs[1..])
  }

  // The AudioTrack of the last format change that made one.
  function LastAudio(outs: seq<OutputEvent>): Option<AudioTrack> {
    if outs == [] then None
    else
      var e := outs[|outs| - 1];
      if e.FormatChanged? && e.audio.Some? then e.audio else LastAudio(outs[..|outs| - 1])
  }

  lemma {:induction false} LastAudioFirst(outs: seq<OutputEvent>)
    requires outs != []
    ensures LastAudio(outs)
         == if LastAudio(outs[1..]).Some? then LastAudio(outs[1..])
            else if outs[0].FormatChanged? then outs[0].audio else None
    decreases |outs|
  {
    var n := |outs| - 1;
    if n > 0 {
      assert outs[1..][..n - 1] == outs[..n][1..];
      LastAudioFirst(outs[..n]);
    }
  }

  // Everything the codec answers is kept, behind what is there and in the order of the answers; only an
  // audio format starts a new AudioTrack and with it a new count.
  lemma {:induction false} OutputInFields(t: CodecState, outs: seq<OutputEvent>)
    ensures var t' := DrainOutput(t, outs);
            && t'.availOut == t.availOut + BuffersIn(outs)
            && t'.codec == t.codec.(outDequeued := t.codec.outDequeued + BuffersIn(outs))
            && t'.availIn == t.availIn && t'.pcm == t.pcm
            && t'.audio == (if LastAudio(outs).Some? then LastAudio(outs) else t.audio)
            && t'.numFramesWritten == if LastAudio(outs).Some? then 0 else t.numFramesWritten
    decreases outs
  {
    if outs != [] {
      OutputInFields(OnOutputEvent(t, outs[0]), outs[1..]);
      LastAudioFirst(outs);
    }
  }

  lemma {:induction false} DrainedInFields(t: CodecState, ins: seq<nat>, outs: seq<OutputEvent>)
    ensures var t' := DrainOutput(DrainInput(t, ins), outs);
            && t'.availIn == t.availIn + ins && t'.codec.inDequeued == t.codec.inDequeued + ins
            && t'.availOut == t.availOut + BuffersIn(outs)
            && t'.codec.outDequeued == t.codec.outDequeued + BuffersIn(outs)
            && t'.codec.inQueued == t.codec.inQueued && t'.codec.outReturned == t.codec.outReturned
            && t'.pcm == t.pcm
            && t'.audio == (if LastAudio(outs).Some? then LastAudio(outs) else t.audio)
            && t'.numFramesWritten == if LastAudio(outs).Some? then 0 else t.numFramesWritten
  {
    OutputInFields(DrainInput(t, ins), outs);
  }

  // ---------------------------------------------------------------------------------------------
  // Feeding.

  // Feeding goes on until there is no sample left, or no input buffer for the next one.
  ghost predicate NothingToFeed(p: Fields) {
    p.position == |p.samples|
    || (p.position < |p.samples|
        && (p.samples[p.position].track < |p.tracks| ==> p.tracks[p.samples[p.position].track].availIn == []))
  }

  // A track that was given these samples: each took the oldest input buffer.
  ghost predicate FedTrack(was: CodecState, now: CodecState, samples: seq<Sample>) {
    && |samples| <= |was.availIn| && now.availIn == was.availIn[|samples|..]
    && |now.codec.inQueued| == |was.codec.inQueued| + |samples|
    && now.codec.inQueued[..|was.codec.inQueued|] == was.codec.inQueued
    && (forall k :: 0 <= k < |samples| ==>
          now.codec.inQueued[|was.codec.inQueued| + k] == SampleData(was.availIn[k], samples[k]))
    && now == was.(availIn := now.availIn, codec := was.codec.(inQueued := now.codec.inQueued))
  }

  // The samples of one track, in order.
  function SamplesOf(samples: seq<Sample>, t: nat): seq<Sample> {
    if samples == [] then [] else (if samples[0].track == t then [samples[0]] else []) + SamplesOf(samples[1..], t)
  }

  lemma FedTrackOneMore(was: CodecState, next: CodecState, now: CodecState, sample: Sample, rest: seq<Sample>)
    requires was.availIn != [] && next == QueueInput(was, sample) && FedTrack(next, now, rest)
    ensures FedTrack(was, now, [sample] + rest)
  {
    var n, all := |was.codec.inQueued|, [sample] + rest;
    assert next.codec.inQueued[..n] == was.codec.inQueued;
    assert now.codec.inQueued[..n] == now.codec.inQueued[..n + 1][..n];
    assert now.codec.inQueued[n] == now.codec.inQueued[..n + 1][n] == SampleData(was.availIn[0], sample);
    forall k | 0 <= k < |all| ensures now.codec.inQueued[n + k] == SampleData(was.availIn[k], all[k]) {
      if k > 0 {
        assert now.codec.inQueued[n + 1 + (k - 1)] == SampleData(next.availIn[k - 1], rest[k - 1]);
      }
    }
  }

  lemma FedNothing(t: CodecState)
    ensures FedTrack(t, t, [])
  {
  }

  lemma {:induction false} FedInFields(p: Fields)
    requires p.position <= |p.samples|
    ensures var r := Fed(p);
            && p.position <= r.position <= |r.samples| && r.samples == p.samples && |r.tracks| == |p.tracks|
            && r.state == p.state && r.generation == p.generation && r.startTimeRealUs == p.startTimeRealUs
            && NothingToFeed(r)
            && forall t :: 0 <= t < |p.tracks| ==>
                 FedTrack(p.tracks[t], r.tracks[t], SamplesOf(p.samples[p.position..r.position], t))
    decreases |p.samples| - p.position
  {
    hide FedTrack, QueueInput;
    var r := Fed(p);
    forall t | 0 <= t < |p.tracks| ensures FedTrack(p.tracks[t], p.tracks[t], []) {
      FedNothing(p.tracks[t]);
    }
    if p.position < |p.samples| {
      var s := p.samples[p.position];
      if s.track < |p.tracks| && p.tracks[s.track].availIn != [] {
        var q := p.(tracks := p.tracks[s.track := QueueInput(p.tracks[s.track], s)], position := p.position + 1);
        FedInFields(q);
        assert p.samples[p.position..r.position][1..] == p.samples[q.position..r.position];
        forall t | 0 <= t < |p.tracks|
          ensures FedTrack(p.tracks[t], r.tracks[t], SamplesOf(p.samples[p.position..r.position], t))
        {
          var all, rest := p.samples[p.position..r.position], p.samples[q.position..r.position];
          assert SamplesOf(all, t) == (if t == s.track then [s] else []) + SamplesOf(rest, t);
          if t != s.track {
            assert SamplesOf(all, t) == SamplesOf(rest, t);
          } else {
            FedTrackOneMore(p.tracks[t], q.tracks[t], r.tracks[t], s, SamplesOf(p.samples[q.position..r.position], t));
          }
        }
      }
    }
  }

  // ---------------------------------------------------------------------------------------------
  // Rendering.

  // The room that is left in an AudioTrack, in bytes.
  function Room(a: AudioTrack): int { (a.frameCount - (a.bytes / a.frameSize - a.played)) * a.frameSize }

  // The hardware has played up to `advance` more of the frames it was given.
  function Later(a: AudioTrack, advance: nat): AudioTrack {
    if a.played + advance <= a.bytes / a.frameSize then a.(played := a.played + advance)
    else a.(played := a.bytes / a.frameSize)
  }

  lemma RenderAudioCopies(t: CodecState, advance: nat) returns (a: AudioTrack, copy: nat)
    requires AudioInv(t) && t.availOut != [] && t.audio.Some? && RenderAudio(t, advance).Some?
    ensures a == Later(t.audio.value, advance) && Room(a) >= 0
    ensures copy == if t.availOut[0].size <= Room(a) then t.availOut[0].size else Room(a)
    ensures RenderAudio(t, advance) == Some(if copy == 0 then t.(audio := Some(a)) else Wrote(t, a, copy))
    ensures a.Valid() && t.numFramesWritten < 0x1_0000_0000
  {
    a := Play(t.audio.value, advance);
    assert Counted(a, t.numFramesWritten);
    AvailableIsExact(a, t.numFramesWritten);
    copy := Min(t.availOut[0].size, BytesAvailable(a, t.numFramesWritten));
  }

  // The oldest held buffer lies within its data.
  lemma OldestLiesInData(t: CodecState)
    requires OwnershipInv(t) && t.availOut != []
    ensures t.availOut[0].offset + t.availOut[0].size <= |t.availOut[0].data|
  {
    var m := |t.codec.outReturned|;
    assert Current(t)[m] == t.availOut[0] && RestOf(t.codec.outDequeued[m], Current(t)[m]);
  }

  // renderAudio writes what fits of the oldest buffer, and no less.
  lemma RenderAudioInFields(t: CodecState, advance: nat)
    requires AudioInv(t) && OwnershipInv(t) && t.availOut != [] && t.audio.Some?
    requires RenderAudio(t, advance).Some?
    ensures var a, info, t' := Later(t.audio.value, advance), t.availOut[0], RenderAudio(t, advance).value;
            var copy := if info.size <= Room(a) then info.size else Room(a);
            && 0 <= copy && info.offset + copy <= |info.data|
            && t'.audio == Some(a.(bytes := a.bytes + copy))
            && t'.availOut == [info.(offset := info.offset + copy, size := info.size - copy)] + t.availOut[1..]
            && t'.pcm == t.pcm + info.data[info.offset..info.offset + copy]
            && t'.numFramesWritten == (t.numFramesWritten + copy / a.frameSize) % 0x1_0000_0000
            && t'.availIn == t.availIn && t'.codec == t.codec
  {
    var info := t.availOut[0];
    hide RenderAudio, AudioInv, OwnershipInv, Room, Later;
    OldestLiesInData(t);
    var a, copy := RenderAudioCopies(t, advance);
    if copy == 0 {
      assert 0 / a.frameSize == 0;
      assert t.pcm + info.data[info.offset..info.offset + 0] == t.pcm;
      assert t.availOut == [info] + t.availOut[1..];
    }
  }

  // Rendered buffers go by the AudioTrack exactly where the track has one.
  lemma {:induction false} RenderedByTheTrack(t: CodecState, nowUs: int, startUs: int, advance: seq<nat>)
    requires RenderOutput(t, nowUs, startUs, advance).Some?
    ensures var after := RenderOutput(t, nowUs, startUs, advance).value;
            && after.audio.Some? == t.audio.Some? && t.codec.outReturned <= after.codec.outReturned
            && after.availIn == t.availIn && after.codec.inDequeued == t.codec.inDequeued
            && after.codec.inQueued == t.codec.inQueued && after.codec.outDequeued == t.codec.outDequeued
            && forall how :: how in GivenBack(t, after) && how.Rendered? ==> how.viaAudio == t.audio.Some?
    decreases |t.availOut|
  {
    if t.availOut != [] {
      var lateByUs := LateBy(t.availOut[0], nowUs, startUs);
      if lateByUs <= -10000 {
      } else if lateByUs > 30000 {
        RenderedByTheTrack(Drop(t), nowUs, startUs, advance);
      } else if t.audio.None? {
        RenderedByTheTrack(RenderAndRelease(t), nowUs, startUs, advance);
      } else {
        var t' := RenderAudio(t, if advance == [] then 0 else advance[0]).value;
        if t'.availOut[0].size == 0 {
          var rest := if advance == [] then [] else advance[1..];
          RenderedByTheTrack(RenderAndRelease(t'), nowUs, startUs, rest);
        }
      }
    }
  }

  // ---------------------------------------------------------------------------------------------
  // One pump iteration.

  // Each track is drained, the samples are fed until nothing can be fed, and each track is rendered by
  // the clock that was fixed at the first iteration.
  lemma PumpStages(p: Fields, pump: PumpInput)
    requires p.position <= |p.samples| && Pumped(p, pump).Some?
    ensures var fed, after := DrainedAndFed(p, pump), Pumped(p, pump).value;
            var startUs := if p.startTimeRealUs < 0 then pump.nowUs + 1000000 else p.startTimeRealUs;
            && NothingToFeed(fed) && after.position == fed.position && |after.tracks| == |fed.tracks| == |p.tracks|
            && after.startTimeRealUs == startUs
            && (forall i :: 0 <= i < |p.tracks| ==>
                  RenderOutput(fed.tracks[i], pump.nowUs, startUs, At(pump.advance, i)) == Some(after.tracks[i]))
            && forall i :: 0 <= i < |p.tracks| ==>
                 var ins := if i < |pump.ins| then pump.ins[i] else [];
                 var outs := if i < |pump.outs| then pump.outs[i] else [];
                 FedTrack(DrainOutput(DrainInput(p.tracks[i], ins), outs), fed.tracks[i],
                          SamplesOf(p.samples[p.position..fed.position], i))
  {
    FedInFields(p.(tracks := Drained(p.tracks, pump)));
  }
}
