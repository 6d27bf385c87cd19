/** Which tracks of a file are used: the player and the muxer tool both take the first audio track and
    the first video track, the muxer only those it was asked for. */
module TrackSelection {

  datatype Kind = Audio | Video | Other

  datatype Use = Use(audio: bool, video: bool)

  predicate Asked(k: Kind, use: Use) { (k.Audio? && use.audio) || (k.Video? && use.video) }

  // The first track of a kind that is asked for.
  predicate Chosen(kinds: seq<Kind>, use: Use, i: nat)
    requires i < |kinds|
  {
    Asked(kinds[i], use) && forall j :: 0 <= j < i ==> kinds[j] != kinds[i]
  }

  // The chosen ones among the first n tracks, in order.
  function Selected(kinds: seq<Kind>, use: Use, n: nat): (s: seq<nat>)
    requires n <= |kinds|
    ensures forall k :: 0 <= k < |s| ==> s[k] < n && Chosen(kinds, use, s[k])
    ensures forall j, k :: 0 <= j < k < |s| ==> s[j] < s[k]
  {
    if n == 0 then []
    else Selected(kinds, use, n - 1) + if Chosen(kinds, use, n - 1) then [n - 1] else []
  }

  lemma {:induction false} ChosenIsSelected(kinds: seq<Kind>, use: Use, n: nat, i: nat)
    requires i < n <= |kinds| && Chosen(kinds, use, i)
    ensures i in Selected(kinds, use, n)
  {
    if i < n - 1 {
      ChosenIsSelected(kinds, use, n - 1, i);
    }
  }

  // In track order, exactly the audio and video tracks asked for that no track of their kind precedes.
  lemma {:induction false} SelectedIff(kinds: seq<Kind>, use: Use)
    ensures var s := Selected(kinds, use, |kinds|);
            && (forall j, k :: 0 <= j < k < |s| ==> s[j] < s[k])
            && forall i: nat :: i in s <==>
                 && i < |kinds|
                 && ((kinds[i] == Audio && use.audio) || (kinds[i] == Video && use.video))
                 && forall j :: 0 <= j < i ==> kinds[j] != kinds[i]
  {
    forall i: nat | i < |kinds| && Chosen(kinds, use, i) ensures i in Selected(kinds, use, |kinds|) {
      ChosenIsSelected(kinds, use, |kinds|, i);
    }
  }

  // One track of each kind that is asked for and there, and no more.
  lemma {:induction false} OneOfEachKind(kinds: seq<Kind>, use: Use, k: Kind)
    requires Asked(k, use)
    ensures var s := Selected(kinds, use, |kinds|);
            (k in kinds <==> exists i :: 0 <= i < |s| && kinds[s[i]] == k)
            && forall i, j :: 0 <= i < |s| && 0 <= j < |s| && kinds[s[i]] == kinds[s[j]] == k ==> s[i] == s[j]
  {
    var s := Selected(kinds, use, |kinds|);
    if k in kinds {
      var i := First(kinds, k);
      ChosenIsSelected(kinds, use, |kinds|, i);
      var m :| 0 <= m < |s| && s[m] == i;
      assert kinds[s[m]] == k;
    }
    forall i, j | 0 <= i < |s| && 0 <= j < |s| && kinds[s[i]] == kinds[s[j]] == k ensures s[i] == s[j] {
      assert Chosen(kinds, use, s[i]) && Chosen(kinds, use, s[j]);
    }
  }

  function First(kinds: seq<Kind>, k: Kind): (i: nat)
    requires k in kinds
    ensures i < |kinds| && kinds[i] == k && forall j :: 0 <= j < i ==> kinds[j] != k
  {
    if kinds[0] == k then 0 else 1 + First(kinds[1..], k)
  }

  // The loop over the tracks.
  method SelectTracks(kinds: seq<Kind>, use: Use) returns (selected: seq<nat>)
    ensures selected == Selected(kinds, use, |kinds|)
  {
    selected := [];
    var haveAudio, haveVideo := false, false;
    for i := 0 to |kinds|
      invariant selected == Selected(kinds, use, i)
      invariant haveAudio <==> use.audio && exists j :: 0 <= j < i && kinds[j] == Audio
      invariant haveVideo <==> use.video && exists j :: 0 <= j < i && kinds[j] == Video
    {
      if use.audio && !haveAudio && kinds[i] == Audio {
        haveAudio := true;
      } else if use.video && !haveVideo && kinds[i] == Video {
        haveVideo := true;
      } else {
        continue;
      }
      selected := selected + [i];
    }
  }
}
