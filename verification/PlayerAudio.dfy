/** What SimplePlayer's rendering (renderAudio and the loop around it) keeps: the AudioTrack never
    holds more frames than fit, although all counters wrap at 2^32, and the bytes it is given are a
    gapless prefix of each output buffer, in order. */
module PlayerAudio {
  import opened Arithmetic
  import opened Sequences
  import opened PlayerTrack

  // ---------------------------------------------------------------------------------------------
  // The bytes handed to the AudioTrack.

  // What has been written of the buffers `was`, given their present state `now`.
  function Written(was: seq<BufferInfo>, now: seq<BufferInfo>): seq<bv8>
    requires |was| == |now|
    decreases was
  {
    if was == [] then []
    else
      var n := |was| - 1;
      Written(was[..n], now[..n]) + Between(was[n], now[n])
  }

  function Between(was: BufferInfo, now: BufferInfo): seq<bv8> {
    if was.offset <= now.offset then Slice(was.data, was.offset, now.offset - was.offset) else []
  }

  ghost predicate PcmInv(t: CodecState) {
    && OwnershipInv(t)
    && t.pcm == Written(t.codec.outDequeued, Current(t))
    && (forall k :: |t.codec.outReturned| < k < |Current(t)| ==> Current(t)[k] == t.codec.outDequeued[k])
    && (forall o <- t.codec.outReturned :: o.Rendered? && o.viaAudio ==> o.info.size == 0)
  }

  lemma {:induction false} WrittenOfUntouched(was: seq<BufferInfo>, now: seq<BufferInfo>, m: nat)
    requires m <= |was| == |now|
    requires forall k :: m <= k < |was| ==> now[k] == was[k]
    ensures Written(was, now) == Written(was[..m], now[..m])
    decreases was
  {
    if m == |was| {
      assert was[..m] == was && now[..m] == now;
    } else {
      var n := |was| - 1;
      assert was[..n][..m] == was[..m] && now[..n][..m] == now[..m];
      WrittenOfUntouched(was[..n], now[..n], m);
    }
  }

  lemma {:induction false} WrittenAt(was: seq<BufferInfo>, now: seq<BufferInfo>, m: nat)
    requires m < |was| == |now|
    requires forall k :: m < k < |was| ==> now[k] == was[k]
    ensures Written(was, now) == Written(was[..m], now[..m]) + Between(was[m], now[m])
  {
    WrittenOfUntouched(was, now, m + 1);
    assert was[..m + 1][..m] == was[..m] && now[..m + 1][..m] == now[..m];
  }

  lemma PcmOfDrainInput(t: CodecState, ins: seq<nat>)
    requires PcmInv(t) && HandsOutOwned(t.codec, ins)
    ensures PcmInv(DrainInput(t, ins))
  {
    DrainInputKeeps(t, ins);
    assert Current(DrainInput(t, ins)) == Current(t);
  }

  lemma PcmOfBuffer(t: CodecState, info: BufferInfo)
    requires PcmInv(t) && OwnedEvent(t.codec, Buffer(info))
    ensures PcmInv(OnOutputEvent(t, Buffer(info)))
  {
    OutputEventKeeps(t, Buffer(info));
    assert Current(OnOutputEvent(t, Buffer(info))) == Current(t) + [info];
  }

  lemma PcmOfOutputEvent(t: CodecState, e: OutputEvent)
    requires PcmInv(t) && OwnedEvent(t.codec, e)
    ensures PcmInv(OnOutputEvent(t, e))
  {
    if e.Buffer? {
      PcmOfBuffer(t, e.info);
    } else {
      OutputEventKeeps(t, e);
      assert Current(OnOutputEvent(t, e)) == Current(t);
    }
  }

  lemma {:induction false} PcmOfDrainOutput(t: CodecState, outs: seq<OutputEvent>)
    requires PcmInv(t) && OwnedEvents(t, outs)
    ensures PcmInv(DrainOutput(t, outs))
    decreases outs
  {
    if outs != [] {
      PcmOfOutputEvent(t, outs[0]);
      PcmOfDrainOutput(OnOutputEvent(t, outs[0]), outs[1..]);
    }
  }

  lemma PcmOfQueueInput(t: CodecState, sample: Sample)
    requires PcmInv(t) && t.availIn != []
    ensures PcmInv(QueueInput(t, sample))
  {
  }

  lemma PcmOfGiveBack(t: CodecState, how: Outcome)
    requires PcmInv(t) && t.availOut != [] && how.info == t.availOut[0]
    requires how.Rendered? && how.viaAudio ==> how.info.size == 0
    ensures PcmInv(GiveBack(t, how))
  {
    GiveBackKeeps(t, how);
  }

  lemma BetweenGrows(was: BufferInfo, now: BufferInfo, more: nat)
    requires RestOf(was, now) && more <= now.size
    ensures Between(was, Advance(now, more)) == Between(was, now) + Slice(was.data, now.offset, more)
  {
  }

  // `more` further bytes of the buffer at position m.
  lemma WrittenGrows(was: seq<BufferInfo>, now: seq<BufferInfo>, m: nat, more: nat)
    requires m < |was| == |now| && RestOf(was[m], now[m]) && more <= now[m].size
    requires forall k :: m < k < |was| ==> now[k] == was[k]
    ensures Written(was, now[m := Advance(now[m], more)])
         == Written(was, now) + Slice(was[m].data, now[m].offset, more)
  {
    var now' := now[m := Advance(now[m], more)];
    assert now'[..m] == now[..m];
    WrittenAt(was, now, m);
    WrittenAt(was, now', m);
    BetweenGrows(was[m], now[m], more);
    Regroup(Written(was[..m], now[..m]), Between(was[m], now[m]), Slice(was[m].data, now[m].offset, more));
  }

  lemma PcmOfWrite(t: CodecState, a: AudioTrack, copy: nat)
    requires PcmInv(t) && t.availOut != [] && copy <= t.availOut[0].size
    ensures PcmInv(Wrote(t, a, copy))
  {
    WriteKeeps(t, a, copy);
    var m, was, now := |t.codec.outReturned|, t.codec.outDequeued, Current(t);
    assert now[m] == t.availOut[0] && RestOf(was[m], now[m]);
    WrittenGrows(was, now, m, copy);
  }

  lemma PcmOfRenderAudio(t: CodecState, advance: nat)
    requires PcmInv(t) && t.availOut != [] && t.audio.Some?
    requires RenderAudio(t, advance).Some?
    ensures PcmInv(RenderAudio(t, advance).value)
  {
    var a := Play(t.audio.value, advance);
    var copy := Min(t.availOut[0].size, BytesAvailable(a, t.numFramesWritten));
    if copy == 0 {
      RenderAudioKeeps(t, advance);
      assert Current(RenderAudio(t, advance).value) == Current(t);
    } else {
      PcmOfWrite(t, a, copy);
    }
  }

  lemma {:induction false} PcmOfRenderOutput(t: CodecState, nowUs: int, startUs: int, advance: seq<nat>)
    requires PcmInv(t) && RenderOutput(t, nowUs, startUs, advance).Some?
    ensures PcmInv(RenderOutput(t, nowUs, startUs, advance).value)
    decreases |t.availOut|
  {
    if t.availOut != [] {
      var lateByUs := nowUs - (t.availOut[0].presentationTimeUs + startUs);
      if lateByUs <= -10000 {
      } else if lateByUs > 30000 {
        PcmOfGiveBack(t, Dropped(t.availOut[0]));
        PcmOfRenderOutput(Drop(t), nowUs, startUs, advance);
      } else if t.audio.None? {
        PcmOfGiveBack(t, Rendered(t.availOut[0], false));
        PcmOfRenderOutput(RenderAndRelease(t), nowUs, startUs, advance);
      } else {
        var t' := RenderAudio(t, if advance == [] then 0 else advance[0]).value;
        PcmOfRenderAudio(t, if advance == [] then 0 else advance[0]);
        if t'.availOut[0].size == 0 {
          PcmOfGiveBack(t', Rendered(t'.availOut[0], true));
          PcmOfRenderOutput(RenderAndRelease(t'), nowUs, startUs, if advance == [] then [] else advance[1..]);
        }
      }
    }
  }

  // ---------------------------------------------------------------------------------------------
  // Frame accounting.

  // Whole frames the AudioTrack has been given.
  function FramesWritten(a: AudioTrack): nat {
    a.bytes / a.frameSize
  }

  // The player's counter is the true count modulo 2^32, and the frames that wait to be played fit
  // the track.
  ghost predicate Counted(a: AudioTrack, numFramesWritten: nat) {
    && a.Valid()
    && numFramesWritten == FramesWritten(a) % UINT32
    && FramesWritten(a) - a.played <= a.frameCount
  }

  ghost predicate AudioInv(t: CodecState) {
    t.audio.Some? ==> Counted(t.audio.value, t.numFramesWritten)
  }

  // The wrapping subtraction recovers the true number of waiting frames.
  lemma WrapAround(written: nat, played: nat)
    requires played <= written < played + UINT32
    ensures (written % UINT32 - played % UINT32) % UINT32 == written - played
  {
  }

  // What renderAudio computes as writable is the room that is really left.
  lemma AvailableIsExact(a: AudioTrack, numFramesWritten: nat)
    requires Counted(a, numFramesWritten)
    ensures BytesAvailable(a, numFramesWritten) == (a.frameCount - (FramesWritten(a) - a.played)) * a.frameSize
  {
    WrapAround(FramesWritten(a), a.played);
  }

  lemma AddModulo(w: nat, n: nat)
    ensures (w % UINT32 + n) % UINT32 == (w + n) % UINT32
  {
  }

  // A write of whole frames that fit keeps the count; the rest of the buffer need not be whole frames.
  lemma CountedWrite(a: AudioTrack, numFramesWritten: nat, copy: nat)
    requires Counted(a, numFramesWritten) && copy <= BytesAvailable(a, numFramesWritten)
    requires Taken(a, copy) == copy
    ensures Counted(a.(bytes := a.bytes + copy), (numFramesWritten + copy / a.frameSize) % UINT32)
  {
    var room := a.frameCount - (FramesWritten(a) - a.played);
    AvailableIsExact(a, numFramesWritten);
    assert (a.bytes + copy) / a.frameSize == FramesWritten(a) + copy / a.frameSize by {
      WholeFits(copy, room, a.frameSize);
      DivideWhole(a.bytes, copy, a.frameSize);
    }
    WholeFits(copy, room, a.frameSize);
    AddModulo(FramesWritten(a), copy / a.frameSize);
  }

  // renderAudio aborts the process if and only if the buffer ends in a part of a frame and the track
  // has room for all of its whole frames and one more.
  lemma RenderAudioAbortsIff(t: CodecState, advance: nat)
    requires AudioInv(t) && t.availOut != [] && t.audio.Some?
    ensures var a, size := Play(t.audio.value, advance), t.availOut[0].size;
            RenderAudio(t, advance).None? <==>
              size % a.frameSize != 0 && size / a.frameSize < a.frameCount - (FramesWritten(a) - a.played)
  {
    var a, size := Play(t.audio.value, advance), t.availOut[0].size;
    var room := a.frameCount - (FramesWritten(a) - a.played);
    assert Counted(a, t.numFramesWritten);
    AvailableIsExact(a, t.numFramesWritten);
    assert RenderAudio(t, advance).None? <==> Taken(a, Min(size, room * a.frameSize)) != Min(size, room * a.frameSize);
    PartOfUnit(size, room, a.frameSize);
  }

  lemma AudioOfRenderAudio(t: CodecState, advance: nat)
    requires AudioInv(t) && t.availOut != [] && t.audio.Some?
    requires RenderAudio(t, advance).Some?
    ensures AudioInv(RenderAudio(t, advance).value)
  {
    var a := Play(t.audio.value, advance);
    assert Counted(a, t.numFramesWritten);
    var copy := Min(t.availOut[0].size, BytesAvailable(a, t.numFramesWritten));
    if copy != 0 {
      CountedWrite(a, t.numFramesWritten, copy);
    }
  }

  lemma {:induction false} AudioOfDrainOutput(t: CodecState, outs: seq<OutputEvent>)
    requires AudioInv(t) && OwnedEvents(t, outs)
    ensures AudioInv(DrainOutput(t, outs))
    decreases outs
  {
    if outs != [] {
      AudioOfDrainOutput(OnOutputEvent(t, outs[0]), outs[1..]);
    }
  }

  lemma {:induction false} AudioOfRenderOutput(t: CodecState, nowUs: int, startUs: int, advance: seq<nat>)
    requires AudioInv(t) && RenderOutput(t, nowUs, startUs, advance).Some?
    ensures AudioInv(RenderOutput(t, nowUs, startUs, advance).value)
    decreases |t.availOut|
  {
    if t.availOut != [] {
      var lateByUs := nowUs - (t.availOut[0].presentationTimeUs + startUs);
      if lateByUs <= -10000 {
      } else if lateByUs > 30000 {
        AudioOfRenderOutput(Drop(t), nowUs, startUs, advance);
      } else if t.audio.None? {
        AudioOfRenderOutput(RenderAndRelease(t), nowUs, startUs, advance);
      } else {
        var t' := RenderAudio(t, if advance == [] then 0 else advance[0]).value;
        AudioOfRenderAudio(t, if advance == [] then 0 else advance[0]);
        if t'.availOut[0].size == 0 {
          AudioOfRenderOutput(RenderAndRelease(t'), nowUs, startUs, if advance == [] then [] else advance[1..]);
        }
      }
    }
  }

  // ---------------------------------------------------------------------------------------------
  // Whole frames: output that comes in whole frames never aborts the process.

  ghost predicate AlignedBy(infos: seq<BufferInfo>, frameSize: Positive) {
    forall info <- infos :: info.size % frameSize == 0
  }

  ghost predicate WholeInv(t: CodecState) {
    AudioInv(t) && (t.audio.Some? ==> AlignedBy(t.availOut, t.audio.value.frameSize))
  }

  // Codec output comes in whole frames of the AudioTrack in use.
  ghost predicate AlignedEvent(t: CodecState, e: OutputEvent) {
    match e
    case Buffer(info) => t.audio.Some? ==> info.size % t.audio.value.frameSize == 0
    case FormatChanged(Some(audio)) => AlignedBy(t.availOut, audio.frameSize)
    case _ => true
  }

  ghost predicate AlignedEvents(t: CodecState, outs: seq<OutputEvent>)
    decreases outs
  {
    outs == [] || (AlignedEvent(t, outs[0]) && AlignedEvents(OnOutputEvent(t, outs[0]), outs[1..]))
  }

  lemma WholeOfOutputEvent(t: CodecState, e: OutputEvent)
    requires WholeInv(t) && OwnedEvent(t.codec, e) && AlignedEvent(t, e)
    ensures WholeInv(OnOutputEvent(t, e))
  {
    var t' := OnOutputEvent(t, e);
    if e.Buffer? && t.audio.Some? {
      assert t'.audio == t.audio && t'.availOut == t.availOut + [e.info];
    }
  }

  lemma {:induction false} WholeOfDrainOutput(t: CodecState, outs: seq<OutputEvent>)
    requires WholeInv(t) && OwnedEvents(t, outs) && AlignedEvents(t, outs)
    ensures WholeInv(DrainOutput(t, outs))
    decreases outs
  {
    if outs != [] {
      WholeOfOutputEvent(t, outs[0]);
      WholeOfDrainOutput(OnOutputEvent(t, outs[0]), outs[1..]);
    }
  }

  lemma WholeOfRenderAudio(t: CodecState, advance: nat)
    requires WholeInv(t) && t.availOut != [] && t.audio.Some?
    ensures RenderAudio(t, advance).Some? && WholeInv(RenderAudio(t, advance).value)
  {
    RenderAudioAbortsIff(t, advance);
    AudioOfRenderAudio(t, advance);
    var a, size := Play(t.audio.value, advance), t.availOut[0].size;
    var copy := Min(size, BytesAvailable(a, t.numFramesWritten));
    if copy != 0 {
      WholeMultiple(copy / a.frameSize, a.frameSize);
      DivideWhole(size, copy, a.frameSize);
    }
  }

  lemma {:induction false} WholeFramesNeverAbort(t: CodecState, nowUs: int, startUs: int, advance: seq<nat>)
    requires WholeInv(t)
    ensures RenderOutput(t, nowUs, startUs, advance).Some?
    ensures WholeInv(RenderOutput(t, nowUs, startUs, advance).value)
    decreases |t.availOut|
  {
    if t.availOut != [] {
      var lateByUs := nowUs - (t.availOut[0].presentationTimeUs + startUs);
      if lateByUs <= -10000 {
      } else if lateByUs > 30000 {
        WholeFramesNeverAbort(Drop(t), nowUs, startUs, advance);
      } else if t.audio.None? {
        WholeFramesNeverAbort(RenderAndRelease(t), nowUs, startUs, advance);
      } else {
        WholeOfRenderAudio(t, if advance == [] then 0 else advance[0]);
        var t' := RenderAudio(t, if advance == [] then 0 else advance[0]).value;
        if t'.availOut[0].size == 0 {
          WholeFramesNeverAbort(RenderAndRelease(t'), nowUs, startUs, if advance == [] then [] else advance[1..]);
        }
      }
    }
  }
}
