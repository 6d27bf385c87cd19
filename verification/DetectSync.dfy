/** DetectSyncSource: an AVC stream is passed on from its first IDR frame. */
module DetectSync {
  import opened Sequences
  import opened Wrappers

  predicate StartCodeAt(data: seq<Byte>, i: nat)
    requires i + 3 < |data|
  {
    data[i] == 0 && data[i + 1] == 0 && data[i + 2] == 1
  }

  // A NAL unit of type 5 behind a three-byte start code, at any place in the buffer.
  predicate IsIdr(data: seq<Byte>) {
    exists i :: 0 <= i < |data| - 3 && StartCodeAt(data, i) && data[i + 3] % 32 == 5
  }

  method IsIdrFrame(data: seq<Byte>) returns (idr: bool)
    ensures idr == IsIdr(data)
  {
    var i := 0;
    while i + 3 < |data|
      invariant forall k :: 0 <= k < i && k < |data| - 3 ==> !(StartCodeAt(data, k) && data[k + 3] % 32 == 5)
    {
      if StartCodeAt(data, i) && data[i + 3] % 32 == 5 {
        return true;
      }
      i := i + 1;
    }
    return false;
  }

  // A buffer with the sync flag it is given.
  datatype Flagged = Flagged(data: seq<Byte>, sync: bool)

  // What a source hands over before it fails: all of it, or for AVC all from the first IDR frame on.
  function Passed(frames: seq<seq<Byte>>, avc: bool): seq<seq<Byte>> {
    if !avc || frames == [] || IsIdr(frames[0]) then frames else Passed(frames[1..], avc)
  }

  lemma {:induction false} PassedIsFromTheFirstIdr(frames: seq<seq<Byte>>)
    ensures var n := |frames| - |Passed(frames, true)|;
            0 <= n && Passed(frames, true) == frames[n..]
            && (forall i :: 0 <= i < n ==> !IsIdr(frames[i]))
            && (n < |frames| ==> IsIdr(frames[n]))
    decreases frames
  {
    if frames != [] && !IsIdr(frames[0]) {
      PassedIsFromTheFirstIdr(frames[1..]);
      var n := |frames[1..]| - |Passed(frames[1..], true)|;
      assert frames[1..][n..] == frames[n + 1..];
      forall i | 0 <= i < n + 1 ensures !IsIdr(frames[i]) {
        assert i == 0 || frames[i] == frames[1..][i - 1];
      }
    }
  }

  // Any other stream passes as it is.
  lemma {:induction false} OthersPass(frames: seq<seq<Byte>>)
    ensures Passed(frames, false) == frames
  {
  }

  class DetectSyncSource {
    const avc: bool
    var left: seq<seq<Byte>>
    var sawFirstIdr: bool
    var released: nat

    constructor (frames: seq<seq<Byte>>, isAvc: bool)
      ensures avc == isAvc && left == frames && !sawFirstIdr && released == 0
      ensures Rest() == Passed(frames, isAvc)
    {
      avc, left, sawFirstIdr, released := isAvc, frames, false, 0;
    }

    // What the reads from here on hand over.
    function Rest(): seq<seq<Byte>>
      reads this
    {
      if sawFirstIdr then left else Passed(left, avc)
    }

    // None stands for the source's error.
    method Read() returns (r: Option<Flagged>)
      modifies this
      ensures r.None? <==> old(Rest()) == []
      ensures r.None? ==> left == [] && Rest() == []
      ensures r.Some? ==>
                old(Rest()) == [r.value.data] + Rest()
                && r.value.sync == (!avc || IsIdr(r.value.data))
      ensures released + |left| + (if r.Some? then 1 else 0) == old(released + |left|)
      ensures HandedOver(avc, old(sawFirstIdr), old(left), r, left)
    {
      hide IsIdr;
      ghost var saw, was, n := sawFirstIdr, left, 0;
      while true
        invariant Rest() == old(Rest()) && released + |left| == old(released + |left|)
        invariant sawFirstIdr == saw && n <= |was| && left == was[n..] && Skipped(avc, saw, was, n)
        decreases |left|
      {
        if left == [] {
          return None;
        }
        var data := left[0];
        assert data == was[n] && left[1..] == was[n + 1..];
        assert left == [data] + left[1..];
        left := left[1..];
        var sync := true;
        if avc {
          sync := IsIdrFrame(data);
          if sync {
            sawFirstIdr := true;
          }
        }
        n := n + 1;
        if !avc || sawFirstIdr {
          return Some(Flagged(data, sync));
        }
        released := released + 1;
      }
    }
  }

  // The first n frames are skipped: of an AVC stream that has not come to an IDR frame, and they are none.
  ghost predicate Skipped(avc: bool, saw: bool, frames: seq<seq<Byte>>, n: nat)
    requires n <= |frames|
  {
    n > 0 ==> avc && !saw && forall i :: 0 <= i < n ==> !IsIdr(frames[i])
  }

  // One read of `was` leaves `left`: the frame before that is handed over, and those before it are skipped.
  ghost predicate HandedOver(avc: bool, saw: bool, was: seq<seq<Byte>>, r: Option<Flagged>, left: seq<seq<Byte>>) {
    match r
    case None => left == [] && Skipped(avc, saw, was, |was|)
    case Some(f) =>
      var n := |was| - |left|;
      && 0 < n && left == was[n..] && f.data == was[n - 1] && Skipped(avc, saw, was, n - 1)
      && (!avc || saw || IsIdr(f.data))
  }

  // ---- literals ----

  // An IDR unit behind a start code of three or four bytes; a parameter set and a unit without one are none.
  lemma UnitsInBytes()
    ensures IsIdr([0, 0, 1, 101, 8]) && IsIdr([0, 0, 0, 1, 37]) && IsIdr([0, 0, 1, 103, 0, 0, 1, 5])
    ensures !IsIdr([0, 0, 1, 103, 8]) && !IsIdr([101, 0, 0, 1]) && !IsIdr([0, 0, 2, 101])
    ensures !IsIdr([0, 3, 1, 101]) && !IsIdr([3, 0, 1, 101])
  {
    var a, b, c := [0, 0, 1, 101, 8], [0, 0, 0, 1, 37], [0, 0, 1, 103, 0, 0, 1, 5];
    assert StartCodeAt(a, 0) && StartCodeAt(b, 1) && StartCodeAt(c, 4);
  }
}
