/** The overlay's count of dropped frames. */
module DroppedFrames {

  // mLastFrameNumber and mTotalDroppedFrames.
  datatype Meter = Meter(last: int, total: nat)

  const FRESH := Meter(-1, 0)

  function Process(m: Meter, frame: nat): Meter
    requires m.last < frame
  {
    Meter(frame, if m.last > 0 then m.total + (frame - m.last - 1) else m.total)
  }

  // A consumer hands frames over in the order of their numbers.
  ghost predicate Increasing(frames: seq<nat>) {
    forall i, j :: 0 <= i < j < |frames| ==> frames[i] < frames[j]
  }

  ghost function After(frames: seq<nat>): (m: Meter)
    requires Increasing(frames)
    ensures m.last == if frames == [] then -1 else frames[|frames| - 1]
  {
    if frames == [] then FRESH
    else
      var n := |frames| - 1;
      assert n > 0 ==> frames[n - 1] < frames[n];
      Process(After(frames[..n]), frames[n])
  }

  // The numbers between the first and the last frame that were not seen.
  function Missing(frames: seq<nat>): int {
    if frames == [] then 0 else frames[|frames| - 1] - frames[0] - (|frames| - 1)
  }

  lemma {:induction false} TotalFrom(frames: seq<nat>)
    requires Increasing(frames)
    ensures var n := |frames|;
            After(frames).total
            == if n == 0 || frames[0] > 0 then Missing(frames)
               else if n == 1 then 0
               else Missing(frames[1..])
  {
    if frames != [] {
      var n := |frames| - 1;
      var front := frames[..n];
      TotalFrom(front);
      if n > 0 {
        assert frames[0] < frames[n];
      }
      if n > 1 {
        assert front[1..][n - 2] == frames[n - 1] && front[1..][0] == frames[1];
        assert frames[0] < frames[n - 1];
      }
    }
  }

  // The total is the number of frames missing between the first and the last, except that frames
  // missing right after a first frame numbered zero are not counted.
  lemma {:induction false} TotalIsMissingIff(frames: seq<nat>)
    requires Increasing(frames)
    ensures After(frames).total == Missing(frames)
            <==> |frames| <= 1 || frames[0] > 0 || frames[1] == 1
  {
    TotalFrom(frames);
    if |frames| > 1 {
      assert frames[1..][|frames| - 2] == frames[|frames| - 1];
    }
  }

  // Frames 1 to 4 are lost, and none of them is counted.
  lemma ZeroHidesDrops()
    ensures Increasing([0, 5]) && After([0, 5]).total == 0 && Missing([0, 5]) == 4
  {
    TotalFrom([0, 5]);
    TotalIsMissingIff([0, 5]);
    assert [0, 5][1..] == [5];
  }

  class FrameCounter {
    var lastFrameNumber: int
    var totalDroppedFrames: nat

    function Value(): Meter
      reads this
    {
      Meter(lastFrameNumber, totalDroppedFrames)
    }

    constructor ()
      ensures Value() == FRESH
    {
      lastFrameNumber, totalDroppedFrames := -1, 0;
    }

    method ProcessFrame(frameNumber: nat)
      requires lastFrameNumber < frameNumber
      modifies this
      ensures Value() == Process(old(Value()), frameNumber)
    {
      if lastFrameNumber > 0 {
        totalDroppedFrames := totalDroppedFrames + (frameNumber - lastFrameNumber) - 1;
      }
      lastFrameNumber := frameNumber;
    }
  }
}
