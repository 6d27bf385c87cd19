/** One track of SimplePlayer (cmds/stagefright/SimplePlayer.h, `CodecState`): the codec buffers the
    player holds and the audio track it feeds. The codec and the AudioTrack are libraries; they are
    modelled by the calls they have seen, and by what they may answer. */
module PlayerTrack {
  import opened Arithmetic
  import opened Wrappers

  const UINT32: nat := 0x1_0000_0000

  // A dequeued output buffer. `data` is the content of the codec's buffer while the player holds it.
  datatype BufferInfo = BufferInfo(index: nat, offset: nat, size: nat, presentationTimeUs: int, data: seq<bv8>)

  datatype Sample = Sample(track: nat, timeUs: int)

  datatype InputCall = CodecConfig(index: nat) | SampleData(index: nat, sample: Sample)

  // How an output buffer went back to the codec, and what was left of it at that moment.
  datatype Outcome = Dropped(info: BufferInfo) | Rendered(info: BufferInfo, viaAudio: bool)

  // The calls one MediaCodec has seen, in order, on its input and on its output side.
  datatype Codec = Codec(inDequeued: seq<nat>, inQueued: seq<InputCall>,
                         outDequeued: seq<BufferInfo>, outReturned: seq<Outcome>)

  type Positive = n: nat | 0 < n witness 1

  // `bytes` have been written to the AudioTrack, of which it has played `played` whole frames.
  datatype AudioTrack = AudioTrack(frameCount: nat, frameSize: Positive, bytes: nat, played: nat)
  {
    ghost predicate Valid() {
      frameCount < UINT32 && played <= bytes / frameSize
    }
  }

  datatype CodecState = CodecState(
    availIn: seq<nat>, availOut: seq<BufferInfo>, audio: Option<AudioTrack>, numFramesWritten: nat,
    codec: Codec, pcm: seq<bv8>)

  // What dequeueOutputBuffer can answer before it reports that nothing is left. A format change
  // creates a new AudioTrack when the new format is an audio format.
  datatype OutputEvent =
    | Buffer(info: BufferInfo)
    | FormatChanged(audio: Option<AudioTrack>)
    | BuffersChanged

  // ---------------------------------------------------------------------------------------------
  // The steps of one track.

  // The dequeueInputBuffer loop: `ins` are the indices the codec hands out before its first error.
  function DrainInput(t: CodecState, ins: seq<nat>): CodecState {
    t.(availIn := t.availIn + ins, codec := t.codec.(inDequeued := t.codec.inDequeued + ins))
  }

  function OnOutputEvent(t: CodecState, e: OutputEvent): CodecState {
    match e
    case Buffer(info) =>
      t.(availOut := t.availOut + [info], codec := t.codec.(outDequeued := t.codec.outDequeued + [info]))
    case FormatChanged(audio) => if audio.Some? then t.(audio := audio, numFramesWritten := 0) else t
    case BuffersChanged => t
  }

  // The dequeueOutputBuffer loop.
  function DrainOutput(t: CodecState, outs: seq<OutputEvent>): CodecState
    decreases outs
  {
    if outs == [] then t else DrainOutput(OnOutputEvent(t, outs[0]), outs[1..])
  }

  // The oldest input buffer carries a sample to the codec.
  function QueueInput(t: CodecState, sample: Sample): CodecState
    requires t.availIn != []
  {
    t.(availIn := t.availIn[1..],
       codec := t.codec.(inQueued := t.codec.inQueued + [SampleData(t.availIn[0], sample)]))
  }

  // getPosition(): the hardware has meanwhile played up to `advance` more of the frames it was given.
  function Play(a: AudioTrack, advance: nat): AudioTrack {
    if a.played + advance <= a.bytes / a.frameSize then a.(played := a.played + advance)
    else a.(played := a.bytes / a.frameSize)
  }

  // numBytesAvailableToWrite, with the source's uint32 arithmetic.
  function BytesAvailable(a: AudioTrack, numFramesWritten: nat): nat {
    (a.frameCount - (numFramesWritten - a.played % UINT32) % UINT32) % UINT32 * a.frameSize
  }

  // renderAudio on the oldest output buffer. None: a check has failed, which aborts the process.
  function RenderAudio(t: CodecState, advance: nat): Option<CodecState>
    requires t.availOut != [] && t.audio.Some?
  {
    var a := Play(t.audio.value, advance);
    var info := t.availOut[0];
    var copy := Min(info.size, BytesAvailable(a, t.numFramesWritten));
    if copy == 0 then Some(t.(audio := Some(a))) else Write(t, a, copy)
  }

  // AudioTrack::write takes whole frames, and answers with the number of bytes it took.
  function Taken(a: AudioTrack, count: nat): nat {
    count / a.frameSize * a.frameSize
  }

  // AudioTrack::write of the next `copy` bytes of the oldest output buffer, and the check that all
  // of them were taken.
  function Write(t: CodecState, a: AudioTrack, copy: nat): Option<CodecState>
    requires t.availOut != [] && copy <= t.availOut[0].size
  {
    if Taken(a, copy) != copy then None else Some(Wrote(t, a, copy))
  }

  function Wrote(t: CodecState, a: AudioTrack, copy: nat): CodecState
    requires t.availOut != [] && copy <= t.availOut[0].size
  {
    var info := t.availOut[0];
    t.(audio := Some(a.(bytes := a.bytes + copy)),
       numFramesWritten := (t.numFramesWritten + copy / a.frameSize) % UINT32,
       availOut := [Advance(info, copy)] + t.availOut[1..],
       pcm := t.pcm + Slice(info.data, info.offset, copy))
  }

  // `count` bytes of a buffer have been written.
  function Advance(info: BufferInfo, count: nat): BufferInfo
    requires count <= info.size
  {
    info.(offset := info.offset + count, size := info.size - count)
  }

  function Slice(s: seq<bv8>, from: nat, count: nat): seq<bv8> {
    if from + count <= |s| then s[from..from + count] else []
  }

  // releaseOutputBuffer and renderOutputBufferAndRelease on the oldest output buffer.
  function Drop(t: CodecState): CodecState
    requires t.availOut != []
  {
    GiveBack(t, Dropped(t.availOut[0]))
  }

  function RenderAndRelease(t: CodecState): CodecState
    requires t.availOut != []
  {
    GiveBack(t, Rendered(t.availOut[0], t.audio.Some?))
  }

  function GiveBack(t: CodecState, how: Outcome): CodecState
    requires t.availOut != []
  {
    t.(availOut := t.availOut[1..], codec := t.codec.(outReturned := t.codec.outReturned + [how]))
  }

  // The while loop over the held output buffers. `advance` holds how far the hardware gets before
  // each getPosition call.
  function RenderOutput(t: CodecState, nowUs: int, startUs: int, advance: seq<nat>): Option<CodecState>
    decreases |t.availOut|
  {
    if t.availOut == [] then Some(t)
    else
      var lateByUs := nowUs - (t.availOut[0].presentationTimeUs + startUs);
      if lateByUs <= -10000 then Some(t)
      else if lateByUs > 30000 then RenderOutput(Drop(t), nowUs, startUs, advance)
      else if t.audio.None? then RenderOutput(RenderAndRelease(t), nowUs, startUs, advance)
      else
        var t' := RenderAudio(t, if advance == [] then 0 else advance[0]);
        if t'.None? || t'.value.availOut[0].size > 0 then t'
        else RenderOutput(RenderAndRelease(t'.value), nowUs, startUs, if advance == [] then [] else advance[1..])
  }

  // ---------------------------------------------------------------------------------------------
  // What the libraries promise.

  ghost predicate NoDuplicates(s: seq<nat>) {
    forall i, j :: 0 <= i < j < |s| ==> s[i] != s[j]
  }

  function QueuedIndices(calls: seq<InputCall>): seq<nat> {
    seq(|calls|, i requires 0 <= i < |calls| => calls[i].index)
  }

  function ReturnedInfos(outcomes: seq<Outcome>): seq<BufferInfo> {
    seq(|outcomes|, i requires 0 <= i < |outcomes| => outcomes[i].info)
  }

  function InfoIndices(infos: seq<BufferInfo>): seq<nat> {
    seq(|infos|, i requires 0 <= i < |infos| => infos[i].index)
  }

  // The indices the codec has handed out and not got back.
  function InputOutstanding(c: Codec): multiset<nat> {
    multiset(c.inDequeued) - multiset(QueuedIndices(c.inQueued))
  }

  function OutputOutstanding(c: Codec): multiset<nat> {
    multiset(InfoIndices(c.outDequeued)) - multiset(InfoIndices(ReturnedInfos(c.outReturned)))
  }

  // A codec only hands out an input buffer that it owns at that moment.
  ghost predicate HandsOutOwned(c: Codec, ins: seq<nat>) {
    NoDuplicates(ins) && forall i <- ins :: i !in InputOutstanding(c)
  }

  ghost predicate OwnedEvent(c: Codec, e: OutputEvent) {
    match e
    case Buffer(info) => info.index !in OutputOutstanding(c) && info.offset + info.size <= |info.data|
    case FormatChanged(Some(audio)) => audio.Valid() && audio.bytes == 0
    case _ => true
  }

  ghost predicate OwnedEvents(t: CodecState, outs: seq<OutputEvent>)
    decreases outs
  {
    outs == [] || (OwnedEvent(t.codec, outs[0]) && OwnedEvents(OnOutputEvent(t, outs[0]), outs[1..]))
  }

  // ---------------------------------------------------------------------------------------------
  // Ownership: what the player holds is exactly what it has dequeued and not yet given back, and it
  // gives buffers back in the order in which it got them.

  // Every dequeued output buffer in its present state: first the returned ones, then the held ones.
  function Current(t: CodecState): seq<BufferInfo> {
    ReturnedInfos(t.codec.outReturned) + t.availOut
  }

  // `now` is what is left of `was` after a prefix of it has been written.
  predicate RestOf(was: BufferInfo, now: BufferInfo) {
    && now.index == was.index && now.data == was.data && now.presentationTimeUs == was.presentationTimeUs
    && was.offset <= now.offset && now.offset + now.size == was.offset + was.size
    && was.offset + was.size <= |was.data|
  }

  ghost predicate OwnershipInv(t: CodecState) {
    && t.codec.inDequeued == QueuedIndices(t.codec.inQueued) + t.availIn
    && NoDuplicates(t.availIn)
    && |Current(t)| == |t.codec.outDequeued|
    && (forall k :: 0 <= k < |Current(t)| ==> RestOf(t.codec.outDequeued[k], Current(t)[k]))
    && NoDuplicates(InfoIndices(t.availOut))
  }

  lemma InOrder(t: CodecState)
    requires OwnershipInv(t)
    ensures InfoIndices(t.codec.outDequeued)
         == InfoIndices(ReturnedInfos(t.codec.outReturned)) + InfoIndices(t.availOut)
  {
  }

  lemma Outstanding(t: CodecState)
    requires OwnershipInv(t)
    ensures InputOutstanding(t.codec) == multiset(t.availIn)
    ensures OutputOutstanding(t.codec) == multiset(InfoIndices(t.availOut))
  {
    InOrder(t);
  }

  lemma StillDistinct(held: seq<nat>, more: seq<nat>)
    requires NoDuplicates(held) && NoDuplicates(more)
    requires forall i <- more :: i !in multiset(held)
    ensures NoDuplicates(held + more)
  {
    forall i, j | 0 <= i < j < |held + more| ensures (held + more)[i] != (held + more)[j] {
      if i < |held| <= j {
        assert held[i] in multiset(held);
        assert (held + more)[j] in more;
      }
    }
  }

  lemma DrainInputKeeps(t: CodecState, ins: seq<nat>)
    requires OwnershipInv(t) && HandsOutOwned(t.codec, ins)
    ensures OwnershipInv(DrainInput(t, ins))
  {
    var t' := DrainInput(t, ins);
    Outstanding(t);
    StillDistinct(t.availIn, ins);
    assert t'.codec.inDequeued == QueuedIndices(t.codec.inQueued) + t'.availIn;
    assert Current(t') == Current(t);
  }

  lemma OutputEventKeeps(t: CodecState, e: OutputEvent)
    requires OwnershipInv(t) && OwnedEvent(t.codec, e)
    ensures OwnershipInv(OnOutputEvent(t, e))
  {
    var t' := OnOutputEvent(t, e);
    if e.Buffer? {
      Outstanding(t);
      assert Current(t') == Current(t) + [e.info];
      assert InfoIndices(t'.availOut) == InfoIndices(t.availOut) + [e.info.index];
    } else {
      assert Current(t') == Current(t);
    }
  }

  lemma {:induction false} DrainOutputKeeps(t: CodecState, outs: seq<OutputEvent>)
    requires OwnershipInv(t) && OwnedEvents(t, outs)
    ensures OwnershipInv(DrainOutput(t, outs))
    decreases outs
  {
    if outs != [] {
      OutputEventKeeps(t, outs[0]);
      DrainOutputKeeps(OnOutputEvent(t, outs[0]), outs[1..]);
    }
  }

  lemma GiveBackKeeps(t: CodecState, how: Outcome)
    requires OwnershipInv(t) && t.availOut != [] && how.info == t.availOut[0]
    ensures OwnershipInv(GiveBack(t, how))
    ensures Current(GiveBack(t, how)) == Current(t)
  {
    var t' := GiveBack(t, how);
    assert ReturnedInfos(t'.codec.outReturned) == ReturnedInfos(t.codec.outReturned) + [t.availOut[0]];
    assert t.availOut == [t.availOut[0]] + t'.availOut;
    assert Current(t') == Current(t);
    assert InfoIndices(t'.availOut) == InfoIndices(t.availOut)[1..];
  }

  lemma WriteKeeps(t: CodecState, a: AudioTrack, copy: nat)
    requires OwnershipInv(t) && t.availOut != [] && copy <= t.availOut[0].size
    ensures OwnershipInv(Wrote(t, a, copy))
    ensures var m := |t.codec.outReturned|;
            Current(Wrote(t, a, copy)) == Current(t)[m := Advance(Current(t)[m], copy)]
  {
    var t' := Wrote(t, a, copy);
    var m := |t.codec.outReturned|;
    assert Current(t)[m] == t.availOut[0];
    assert RestOf(t.codec.outDequeued[m], Current(t)[m]);
    assert Current(t') == Current(t)[m := Advance(Current(t)[m], copy)];
    assert InfoIndices(t'.availOut) == InfoIndices(t.availOut);
  }

  lemma RenderAudioKeeps(t: CodecState, advance: nat)
    requires OwnershipInv(t) && t.availOut != [] && t.audio.Some?
    requires RenderAudio(t, advance).Some?
    ensures OwnershipInv(RenderAudio(t, advance).value)
  {
    var a := Play(t.audio.value, advance);
    var copy := Min(t.availOut[0].size, BytesAvailable(a, t.numFramesWritten));
    if copy == 0 {
      assert Current(RenderAudio(t, advance).value) == Current(t);
    } else {
      WriteKeeps(t, a, copy);
    }
  }

  lemma {:induction false} RenderOutputKeeps(t: CodecState, nowUs: int, startUs: int, advance: seq<nat>)
    requires OwnershipInv(t) && RenderOutput(t, nowUs, startUs, advance).Some?
    ensures OwnershipInv(RenderOutput(t, nowUs, startUs, advance).value)
    decreases |t.availOut|
  {
    if t.availOut != [] {
      var lateByUs := nowUs - (t.availOut[0].presentationTimeUs + startUs);
      if lateByUs <= -10000 {
      } else if lateByUs > 30000 {
        GiveBackKeeps(t, Dropped(t.availOut[0]));
        RenderOutputKeeps(Drop(t), nowUs, startUs, advance);
      } else if t.audio.None? {
        GiveBackKeeps(t, Rendered(t.availOut[0], false));
        RenderOutputKeeps(RenderAndRelease(t), nowUs, startUs, advance);
      } else {
        var t' := RenderAudio(t, if advance == [] then 0 else advance[0]).value;
        RenderAudioKeeps(t, if advance == [] then 0 else advance[0]);
        if t'.availOut[0].size == 0 {
          GiveBackKeeps(t', Rendered(t'.availOut[0], true));
          RenderOutputKeeps(RenderAndRelease(t'), nowUs, startUs, if advance == [] then [] else advance[1..]);
        }
      }
    }
  }

  // ---------------------------------------------------------------------------------------------
  // The clock.

  function LateBy(info: BufferInfo, nowUs: int, startUs: int): int {
    nowUs - (info.presentationTimeUs + startUs)
  }

  // Dropped when more than 30 ms late, rendered when less than 10 ms early and not that late.
  predicate InTime(how: Outcome, nowUs: int, startUs: int) {
    match how
    case Dropped(info) => LateBy(info, nowUs, startUs) > 30000
    case Rendered(info, _) => -10000 < LateBy(info, nowUs, startUs) <= 30000
  }

  // The buffers given back by one pass over a track, in order.
  function GivenBack(t: CodecState, after: CodecState): seq<Outcome> {
    if |t.codec.outReturned| <= |after.codec.outReturned|
    then after.codec.outReturned[|t.codec.outReturned|..]
    else []
  }

  // One pass gives back each buffer the way its lateness calls for, and stops only where no buffer is
  // left, the next one is early, or the audio track took only a part of it.
  lemma {:induction false} RenderFollowsTheClock(t: CodecState, nowUs: int, startUs: int, advance: seq<nat>)
    requires RenderOutput(t, nowUs, startUs, advance).Some?
    ensures var after := RenderOutput(t, nowUs, startUs, advance).value;
            t.codec.outReturned <= after.codec.outReturned
            && (forall how :: how in GivenBack(t, after) ==> InTime(how, nowUs, startUs))
            && (after.availOut == []
                || LateBy(after.availOut[0], nowUs, startUs) <= -10000
                || (after.audio.Some? && after.availOut[0].size > 0
                    && LateBy(after.availOut[0], nowUs, startUs) <= 30000))
    decreases |t.availOut|
  {
    if t.availOut != [] {
      var lateByUs := LateBy(t.availOut[0], nowUs, startUs);
      if lateByUs <= -10000 {
      } else if lateByUs > 30000 {
        RenderFollowsTheClock(Drop(t), nowUs, startUs, advance);
      } else if t.audio.None? {
        RenderFollowsTheClock(RenderAndRelease(t), nowUs, startUs, advance);
      } else {
        var t' := RenderAudio(t, if advance == [] then 0 else advance[0]).value;
        if t'.availOut[0].size == 0 {
          var rest := if advance == [] then [] else advance[1..];
          RenderFollowsTheClock(RenderAndRelease(t'), nowUs, startUs, rest);
        }
      }
    }
  }

}
