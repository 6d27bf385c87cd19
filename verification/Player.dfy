/** SimplePlayer (cmds/stagefright/SimplePlayer.cpp): what each message does, first as functions on
    the fields, then as the class whose methods change them. */
module Player {
  import opened Arithmetic
  import opened Wrappers
  import opened PlayerTrack
  import opened TrackSelection

  datatype State = UNINITIALIZED | UNPREPARED | STOPPED | STARTED

  datatype Status = OK | INVALID_OPERATION | SourceError(code: int)

  datatype Message = SetDataSource | SetSurface | Prepare | Start | Stop | Reset | DoMoreStuff(generation: int)

  // What the client is told. On success setDataSource answers with a variable nobody assigned.
  datatype Reply = NoReply | Unassigned | Replied(status: Status)

  // A track as the extractor describes it, with the indices that would be dequeued for its
  // codec-specific data.
  datatype Format = Format(kind: Kind, csd: seq<nat>)

  // What NuMediaExtractor and the codecs answer while preparing: the status of setDataSource, the
  // tracks, and all samples of the selected tracks in extraction order, each naming its track by
  // position in mStateByTrackIndex.
  datatype Setup = Setup(status: Status, formats: seq<Format>, samples: seq<Sample>)

  // What the libraries answer while the pump runs, track by track.
  datatype PumpInput = PumpInput(ins: seq<seq<nat>>, outs: seq<seq<OutputEvent>>, advance: seq<seq<nat>>, nowUs: int)

  datatype Environment = Environment(setup: Setup, pump: PumpInput)

  datatype Fields = Fields(state: State, generation: int, startTimeRealUs: int,
                           tracks: seq<CodecState>, samples: seq<Sample>, position: nat)

  const CONSTRUCTED := Fields(UNINITIALIZED, 0, -1, [], [], 0)

  function At<T>(s: seq<seq<T>>, i: nat): seq<T> { if i < |s| then s[i] else [] }

  // ---------------------------------------------------------------------------------------------
  // onPrepare, onStart, onStop, onReset.

  function NewTrack(csd: seq<nat>): CodecState {
    CodecState([], [], None, 0, Codec(csd, seq(|csd|, i requires 0 <= i < |csd| => CodecConfig(csd[i])), [], []), [])
  }

  function KindsOf(formats: seq<Format>): (kinds: seq<Kind>)
    ensures |kinds| == |formats|
  {
    seq(|formats|, i requires 0 <= i < |formats| => formats[i].kind)
  }

  // The codec-specific data of the first audio and the first video track, in track order.
  function SelectedCsd(setup: Setup): seq<seq<nat>> {
    var s := Selected(KindsOf(setup.formats), Use(true, true), |setup.formats|);
    seq(|s|, i requires 0 <= i < |s| => setup.formats[s[i]].csd)
  }

  function NewTracks(csd: seq<seq<nat>>): (tracks: seq<CodecState>)
    ensures |tracks| == |csd|
  {
    seq(|csd|, i requires 0 <= i < |csd| => NewTrack(csd[i]))
  }

  function Prepared(p: Fields, setup: Setup): Fields {
    if setup.status != OK then p
    else p.(tracks := NewTracks(SelectedCsd(setup)), samples := setup.samples, position := 0, state := STOPPED)
  }

  function Started(p: Fields): Fields {
    p.(startTimeRealUs := -1, generation := p.generation + 1, state := STARTED)
  }

  function Stopped(p: Fields): Fields {
    p.(generation := p.generation + 1, state := STOPPED)
  }

  function Forgotten(p: Fields): Fields {
    p.(startTimeRealUs := -1, tracks := [], samples := [], position := 0, state := UNINITIALIZED)
  }

  // ---------------------------------------------------------------------------------------------
  // onDoMoreStuff.

  function Drained(tracks: seq<CodecState>, pump: PumpInput): seq<CodecState> {
    seq(|tracks|, i requires 0 <= i < |tracks| =>
      DrainOutput(DrainInput(tracks[i], At(pump.ins, i)), At(pump.outs, i)))
  }

  // Moves samples from the extractor to their codecs until the samples or the input buffers of the
  // next sample's track run out. The extractor never names a track that was not selected (there
  // editValueFor would abort); the function then stops.
  function Fed(p: Fields): (r: Fields)
    ensures r == p.(tracks := r.tracks, position := r.position)
    ensures |r.tracks| == |p.tracks| && p.position <= r.position
    decreases |p.samples| - p.position
  {
    if |p.samples| <= p.position then p
    else
      var s := p.samples[p.position];
      if |p.tracks| <= s.track || p.tracks[s.track].availIn == [] then p
      else Fed(p.(tracks := p.tracks[s.track := QueueInput(p.tracks[s.track], s)], position := p.position + 1))
  }

  // One track that aborts the process is enough.
  predicate ShowAborts(tracks: seq<CodecState>, nowUs: int, startUs: int, advance: seq<seq<nat>>) {
    exists i :: 0 <= i < |tracks| && RenderOutput(tracks[i], nowUs, startUs, At(advance, i)).None?
  }

  function Shown(tracks: seq<CodecState>, nowUs: int, startUs: int, advance: seq<seq<nat>>): seq<CodecState>
    requires !ShowAborts(tracks, nowUs, startUs, advance)
  {
    seq(|tracks|, i requires 0 <= i < |tracks| && RenderOutput(tracks[i], nowUs, startUs, At(advance, i)).Some? =>
      RenderOutput(tracks[i], nowUs, startUs, At(advance, i)).value)
  }

  function StartTime(p: Fields, nowUs: int): int {
    if p.startTimeRealUs < 0 then nowUs + 1000000 else p.startTimeRealUs
  }

  function DrainedAndFed(p: Fields, pump: PumpInput): Fields {
    Fed(p.(tracks := Drained(p.tracks, pump)))
  }

  // None: the process was aborted.
  function Pumped(p: Fields, pump: PumpInput): Option<Fields> {
    var fed := DrainedAndFed(p, pump);
    var startUs := StartTime(p, pump.nowUs);
    if ShowAborts(fed.tracks, pump.nowUs, startUs, pump.advance) then None
    else Some(fed.(startTimeRealUs := startUs, tracks := Shown(fed.tracks, pump.nowUs, startUs, pump.advance)))
  }

  // ---------------------------------------------------------------------------------------------
  // onMessageReceived.

  datatype Handled = Handled(fields: Fields, posted: Option<Message>, reply: Reply) | Aborted

  function Handle(p: Fields, msg: Message, env: Environment): Handled
  {
    match msg
    case SetDataSource =>
      if p.state != UNINITIALIZED then Handled(p, None, Replied(INVALID_OPERATION))
      else Handled(p.(state := UNPREPARED), None, Unassigned)
    case SetSurface =>
      Handled(p, None, Replied(if p.state != UNPREPARED then INVALID_OPERATION else OK))
    case Prepare =>
      if p.state != UNPREPARED then Handled(p, None, Replied(INVALID_OPERATION))
      else Handled(Prepared(p, env.setup), None, Replied(env.setup.status))
    case Start =>
      var ready := if p.state == UNPREPARED then Prepared(p, env.setup) else p;
      if p.state == UNPREPARED && env.setup.status != OK then Handled(ready, None, Replied(env.setup.status))
      else if ready.state != STOPPED then Handled(ready, None, Replied(INVALID_OPERATION))
      else Handled(Started(ready), Some(DoMoreStuff(ready.generation + 1)), Replied(OK))
    case Stop =>
      if p.state != STARTED then Handled(p, None, Replied(INVALID_OPERATION))
      else Handled(Stopped(p), None, Replied(OK))
    case Reset =>
      var halted := if p.state == STARTED then Stopped(p) else p;
      Handled(if halted.state == STOPPED then Forgotten(halted) else halted, None, Replied(OK))
    case DoMoreStuff(generation) =>
      if generation != p.generation then Handled(p, None, NoReply)
      else
        match Pumped(p, env.pump)
        case None => Aborted
        case Some(after) => Handled(after, Some(msg), NoReply)
  }

  // ---------------------------------------------------------------------------------------------
  // The class.

  class SimplePlayer {
    var mState: State
    var mDoMoreStuffGeneration: int
    var mStartTimeRealUs: int
    var mStateByTrackIndex: seq<CodecState>
    var mSamples: seq<Sample>
    var mPosition: nat

    function View(): Fields
      reads this
    {
      Fields(mState, mDoMoreStuffGeneration, mStartTimeRealUs, mStateByTrackIndex, mSamples, mPosition)
    }

    constructor ()
      ensures View() == CONSTRUCTED
    {
      mState, mDoMoreStuffGeneration, mStartTimeRealUs := UNINITIALIZED, 0, -1;
      mStateByTrackIndex, mSamples, mPosition := [], [], 0;
    }

    method OnMessageReceived(msg: Message, env: Environment)
      returns (aborted: bool, posted: Option<Message>, reply: Reply)
      modifies this
      ensures Handle(old(View()), msg, env) == if aborted then Aborted else Handled(View(), posted, reply)
    {
      aborted, posted, reply := false, None, NoReply;
      match msg
      case SetDataSource =>
        if mState != UNINITIALIZED {
          reply := Replied(INVALID_OPERATION);
        } else {
          mState := UNPREPARED;
          reply := Unassigned;
        }
      case SetSurface =>
        reply := Replied(if mState != UNPREPARED then INVALID_OPERATION else OK);
      case Prepare =>
        if mState != UNPREPARED {
          reply := Replied(INVALID_OPERATION);
        } else {
          var err := OnPrepare(env.setup);
          if err == OK {
            mState := STOPPED;
          }
          reply := Replied(err);
        }
      case Start =>
        var err := OK;
        if mState == UNPREPARED {
          err := OnPrepare(env.setup);
          if err == OK {
            mState := STOPPED;
          }
        }
        if err == OK {
          if mState != STOPPED {
            err := INVALID_OPERATION;
          } else {
            posted := OnStart();
            mState := STARTED;
          }
        }
        reply := Replied(err);
      case Stop =>
        if mState != STARTED {
          reply := Replied(INVALID_OPERATION);
        } else {
          OnStop();
          mState := STOPPED;
          reply := Replied(OK);
        }
      case Reset =>
        if mState == STARTED {
          OnStop();
          mState := STOPPED;
        }
        if mState == STOPPED {
          OnReset();
          mState := UNINITIALIZED;
        }
        reply := Replied(OK);
      case DoMoreStuff(generation) =>
        if generation == mDoMoreStuffGeneration {
          aborted := OnDoMoreStuff(env.pump);
          posted := Some(msg);
        }
    }

    method OnPrepare(setup: Setup) returns (err: Status)
      requires mState == UNPREPARED
      modifies this
      ensures err == setup.status
      ensures View() == if err == OK then Prepared(old(View()), setup).(state := UNPREPARED) else old(View())
    {
      err := setup.status;
      if err != OK {
        return;
      }
      var selected := SelectTracks(KindsOf(setup.formats), Use(true, true));
      mSamples, mPosition := setup.samples, 0;
      mStateByTrackIndex := [];
      ghost var csd := SelectedCsd(setup);
      var i := 0;
      while i < |selected|
        invariant i <= |selected| == |csd|
        invariant mStateByTrackIndex == NewTracks(csd)[..i]
        invariant View() == Prepared(old(View()), setup).(state := UNPREPARED, tracks := mStateByTrackIndex)
      {
        var state := QueueCsd(setup.formats[selected[i]].csd);
        mStateByTrackIndex := mStateByTrackIndex + [state];
        i := i + 1;
      }
    }

    // Codec-specific data is queued at once, each piece in a buffer of its own.
    static method QueueCsd(csd: seq<nat>) returns (state: CodecState)
      ensures state == NewTrack(csd)
    {
      state := CodecState([], [], None, 0, Codec([], [], [], []), []);
      var j := 0;
      while j < |csd|
        invariant j <= |csd| && state == NewTrack(csd[..j])
      {
        state := state.(codec := state.codec.(inDequeued := state.codec.inDequeued + [csd[j]],
                                              inQueued := state.codec.inQueued + [CodecConfig(csd[j])]));
        assert csd[..j + 1] == csd[..j] + [csd[j]];
        j := j + 1;
      }
      assert csd[..j] == csd;
    }

    method OnStart() returns (posted: Option<Message>)
      requires mState == STOPPED
      modifies this
      ensures View() == Started(old(View())).(state := STOPPED)
      ensures posted == Some(DoMoreStuff(mDoMoreStuffGeneration))
    {
      mStartTimeRealUs := -1;
      mDoMoreStuffGeneration := mDoMoreStuffGeneration + 1;
      posted := Some(DoMoreStuff(mDoMoreStuffGeneration));
    }

    method OnStop()
      requires mState == STARTED
      modifies this
      ensures View() == Stopped(old(View())).(state := STARTED)
    {
      mDoMoreStuffGeneration := mDoMoreStuffGeneration + 1;
    }

    method OnReset()
      requires mState == STOPPED
      modifies this
      ensures View() == Forgotten(old(View())).(state := STOPPED)
    {
      mStartTimeRealUs := -1;
      mStateByTrackIndex, mSamples, mPosition := [], [], 0;
    }

    method OnDoMoreStuff(pump: PumpInput) returns (aborted: bool)
      modifies this
      ensures Pumped(old(View()), pump) == if aborted then None else Some(View())
    {
      DrainAll(pump);
      Feed();
      if mStartTimeRealUs < 0 {
        mStartTimeRealUs := pump.nowUs + 1000000;
      }
      aborted := RenderAll(pump);
    }

    // The first for loop of onDoMoreStuff.
    method DrainAll(pump: PumpInput)
      modifies this
      ensures View() == old(View()).(tracks := Drained(old(View()).tracks, pump))
    {
      ghost var before := mStateByTrackIndex;
      var i := 0;
      while i < |mStateByTrackIndex|
        invariant i <= |mStateByTrackIndex| == |before|
        invariant View() == old(View()).(tracks := mStateByTrackIndex)
        invariant mStateByTrackIndex[..i] == Drained(before, pump)[..i]
        invariant mStateByTrackIndex[i..] == before[i..]
      {
        var state := DrainTrack(mStateByTrackIndex[i], At(pump.ins, i), At(pump.outs, i));
        mStateByTrackIndex := mStateByTrackIndex[i := state];
        i := i + 1;
      }
      assert mStateByTrackIndex == mStateByTrackIndex[..i];
    }

    // The two do-while loops: the codec answers `ins`, then an error; `outs`, then an error.
    static method DrainTrack(t: CodecState, ins: seq<nat>, outs: seq<OutputEvent>) returns (state: CodecState)
      ensures state == DrainOutput(DrainInput(t, ins), outs)
    {
      state := t;
      var i := 0;
      while i < |ins|
        invariant i <= |ins| && state == DrainInput(t, ins[..i])
      {
        state := state.(availIn := state.availIn + [ins[i]],
                        codec := state.codec.(inDequeued := state.codec.inDequeued + [ins[i]]));
        assert ins[..i + 1] == ins[..i] + [ins[i]];
        i := i + 1;
      }
      assert ins[..i] == ins;
      i := 0;
      assert outs[0..] == outs;
      while i < |outs|
        invariant i <= |outs|
        invariant DrainOutput(state, outs[i..]) == DrainOutput(DrainInput(t, ins), outs)
      {
        match outs[i] {
          case Buffer(info) =>
            state := state.(availOut := state.availOut + [info],
                            codec := state.codec.(outDequeued := state.codec.outDequeued + [info]));
          case FormatChanged(audio) =>
            if audio.Some? {
              state := state.(audio := audio, numFramesWritten := 0);
            }
          case BuffersChanged =>
        }
        assert outs[i..][1..] == outs[i + 1..];
        i := i + 1;
      }
    }

    // The for (;;) loop of onDoMoreStuff.
    method Feed()
      modifies this
      ensures View() == Fed(old(View()))
      ensures mState == old(mState) && mDoMoreStuffGeneration == old(mDoMoreStuffGeneration)
      ensures mSamples == old(mSamples) && old(mPosition) <= mPosition
      ensures mPosition < |mSamples| && mSamples[mPosition].track < |mStateByTrackIndex| ==>
                mStateByTrackIndex[mSamples[mPosition].track].availIn == []
    {
      while mPosition < |mSamples|
        invariant Fed(View()) == Fed(old(View())) && old(mPosition) <= mPosition
        invariant mState == old(mState) && mDoMoreStuffGeneration == old(mDoMoreStuffGeneration)
        invariant mSamples == old(mSamples)
        decreases |mSamples| - mPosition
      {
        var sample := mSamples[mPosition];
        if |mStateByTrackIndex| <= sample.track {
          break;
        }
        var state := mStateByTrackIndex[sample.track];
        if state.availIn == [] {
          break;
        }
        var index := state.availIn[0];
        state := state.(availIn := state.availIn[1..]);
        state := state.(codec := state.codec.(inQueued := state.codec.inQueued + [SampleData(index, sample)]));
        mStateByTrackIndex := mStateByTrackIndex[sample.track := state];
        mPosition := mPosition + 1;
      }
    }

    // The last for loop of onDoMoreStuff.
    method RenderAll(pump: PumpInput) returns (aborted: bool)
      modifies this
      ensures aborted <==> ShowAborts(old(View()).tracks, pump.nowUs, old(mStartTimeRealUs), pump.advance)
      ensures !aborted ==> View() == old(View()).(
                tracks := Shown(old(View()).tracks, pump.nowUs, old(mStartTimeRealUs), pump.advance))
    {
      ghost var before := mStateByTrackIndex;
      var i := 0;
      while i < |mStateByTrackIndex|
        invariant i <= |mStateByTrackIndex| == |before|
        invariant View() == old(View()).(tracks := mStateByTrackIndex)
        invariant forall k :: 0 <= k < i ==>
          RenderOutput(before[k], pump.nowUs, mStartTimeRealUs, At(pump.advance, k)) == Some(mStateByTrackIndex[k])
        invariant mStateByTrackIndex[i..] == before[i..]
      {
        assert mStateByTrackIndex[i..][0] == before[i..][0];
        var state := RenderTrack(mStateByTrackIndex[i], pump.nowUs, mStartTimeRealUs, At(pump.advance, i));
        if state.None? {
          return true;
        }
        mStateByTrackIndex := mStateByTrackIndex[i := state.value];
        i := i + 1;
      }
      return false;
    }

    // The while loop over mAvailOutputBufferInfos. None: the process was aborted.
    static method RenderTrack(t: CodecState, nowUs: int, startUs: int, advances: seq<nat>)
      returns (shown: Option<CodecState>)
      ensures shown == RenderOutput(t, nowUs, startUs, advances)
    {
      var state, advance := t, advances;
      while state.availOut != []
        invariant RenderOutput(state, nowUs, startUs, advance) == RenderOutput(t, nowUs, startUs, advances)
        decreases |state.availOut|
      {
        var whenRealUs := state.availOut[0].presentationTimeUs + startUs;
        var lateByUs := nowUs - whenRealUs;
        if lateByUs <= -10000 {
          break;
        }
        if lateByUs > 30000 {
          state := GiveBack(state, Dropped(state.availOut[0]));
        } else {
          if state.audio.Some? {
            var rendered := RenderAudioBuffer(state, if advance == [] then 0 else advance[0]);
            if rendered.None? {
              return None;
            }
            if rendered.value.availOut[0].size > 0 {
              return rendered;
            }
            state := rendered.value;
            advance := if advance == [] then [] else advance[1..];
          }
          state := GiveBack(state, Rendered(state.availOut[0], state.audio.Some?));
        }
      }
      return Some(state);
    }

    static method RenderAudioBuffer(t: CodecState, advance: nat) returns (rendered: Option<CodecState>)
      requires t.availOut != [] && t.audio.Some?
      ensures rendered == RenderAudio(t, advance)
    {
      var track := Play(t.audio.value, advance);
      var numFramesPlayed := track.played % UINT32;
      var numFramesAvailableToWrite := (track.frameCount - (t.numFramesWritten - numFramesPlayed) % UINT32) % UINT32;
      var numBytesAvailableToWrite := numFramesAvailableToWrite * track.frameSize;
      var state := t.(audio := Some(track));
      var info := t.availOut[0];
      var copy := info.size;
      if copy > numBytesAvailableToWrite {
        copy := numBytesAvailableToWrite;
      }
      if copy == 0 {
        return Some(state);
      }
      var nbytes := WriteFrames(track, copy);
      if nbytes != copy {
        return None;
      }
      var numFramesWritten := nbytes / track.frameSize;
      return Some(state.(audio := Some(track.(bytes := track.bytes + nbytes)),
                         pcm := state.pcm + Slice(info.data, info.offset, nbytes),
                         availOut := [Advance(info, nbytes)] + t.availOut[1..],
                         numFramesWritten := (t.numFramesWritten + numFramesWritten) % UINT32));
    }

    // AudioTrack::write, which blocks: each obtainBuffer grants some of the frames asked for.
    static method WriteFrames(a: AudioTrack, count: nat) returns (written: nat)
      ensures written == Taken(a, count)
    {
      written := 0;
      var userSize: nat, frames: nat := count, 0;
      while userSize >= a.frameSize
        invariant written + userSize == count && written == frames * a.frameSize
      {
        OneUnitFits(userSize, a.frameSize);
        var granted: nat :| 1 <= granted <= userSize / a.frameSize;
        GrantFits(granted, userSize, a.frameSize);
        DistributeLeft(frames, granted, a.frameSize);
        var toWrite := granted * a.frameSize;
        userSize, written, frames := userSize - toWrite, written + toWrite, frames + granted;
      }
      QuotientUnique(count, frames, userSize, a.frameSize);
    }
  }
}
