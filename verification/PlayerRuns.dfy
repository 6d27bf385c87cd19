/** SimplePlayer under its looper: clients post messages at any time, and any message in flight may
    be the next one delivered, however long it has been delayed. */
module PlayerRuns {
  import opened Wrappers
  import opened PlayerTrack
  import opened PlayerAudio
  import opened Player
  import opened TrackSelection

  // Dead: a failed check has aborted the process.
  datatype System = Alive(fields: Fields, inFlight: multiset<Message>) | Dead

  datatype Step = Post(msg: Message) | Deliver(msg: Message, env: Environment)

  const INITIAL := Alive(CONSTRUCTED, multiset{})

  // ---------------------------------------------------------------------------------------------
  // What the environment may do.

  ghost predicate GoodSetup(setup: Setup) {
    forall s <- setup.samples :: s.track < |SelectedCsd(setup)|
  }

  // Every codec hands out buffers it owns.
  ghost predicate GoodPump(tracks: seq<CodecState>, pump: PumpInput) {
    forall i :: 0 <= i < |tracks| ==>
      && HandsOutOwned(tracks[i].codec, At(pump.ins, i))
      && OwnedEvents(DrainInput(tracks[i], At(pump.ins, i)), At(pump.outs, i))
  }

  // Audio output comes in whole frames.
  ghost predicate AlignedPump(tracks: seq<CodecState>, pump: PumpInput) {
    forall i :: 0 <= i < |tracks| ==>
      AlignedEvents(DrainInput(tracks[i], At(pump.ins, i)), At(pump.outs, i))
  }

  ghost predicate Allowed(s: System, step: Step) {
    s.Alive? &&
    match step
    case Post(msg) => !msg.DoMoreStuff?
    case Deliver(msg, env) => msg in s.inFlight && GoodSetup(env.setup) && GoodPump(s.fields.tracks, env.pump)
  }

  function PostedBy(h: Handled): multiset<Message>
    requires h.Handled?
  {
    if h.posted.Some? then multiset{h.posted.value} else multiset{}
  }

  function Apply(s: System, step: Step): System
    requires s.Alive?
  {
    match step
    case Post(msg) => s.(inFlight := s.inFlight + multiset{msg})
    case Deliver(msg, env) =>
      var h := Handle(s.fields, msg, env);
      if h.Aborted? then Dead else Alive(h.fields, s.inFlight - multiset{msg} + PostedBy(h))
  }

  // ---------------------------------------------------------------------------------------------
  // The generation counter.

  // While STARTED exactly one message of the current generation is in flight, otherwise none; no
  // message is ahead of the counter.
  ghost predicate PumpInv(s: System) {
    && s.Alive?
    && s.inFlight[DoMoreStuff(s.fields.generation)] == (if s.fields.state == STARTED then 1 else 0)
    && (forall g :: DoMoreStuff(g) in s.inFlight ==> g <= s.fields.generation)
  }

  lemma PumpInvPost(s: System, msg: Message)
    requires PumpInv(s) && !msg.DoMoreStuff?
    ensures PumpInv(s.(inFlight := s.inFlight + multiset{msg}))
  {
  }

  // What a control message can do to state and counter, and what it posts.
  lemma ControlEffect(p: Fields, msg: Message, env: Environment)
    requires !msg.DoMoreStuff?
    ensures Handle(p, msg, env).Handled?
    ensures var h := Handle(p, msg, env);
            || (h.posted == None && h.fields.generation == p.generation
                && (h.fields.state == STARTED <==> p.state == STARTED))
            || (h.posted == None && h.fields.generation == p.generation + 1
                && p.state == STARTED && h.fields.state != STARTED)
            || (h.posted == Some(DoMoreStuff(p.generation + 1)) && h.fields.generation == p.generation + 1
                && p.state != STARTED && h.fields.state == STARTED)
  {
  }

  lemma PumpInvControl(s: System, msg: Message, env: Environment)
    requires PumpInv(s) && !msg.DoMoreStuff? && msg in s.inFlight
    ensures PumpInv(Apply(s, Deliver(msg, env)))
  {
    ControlEffect(s.fields, msg, env);
    var h := Handle(s.fields, msg, env);
    assert s.inFlight[DoMoreStuff(s.fields.generation + 1)] == 0;
  }

  // A message of an old generation is dropped when it arrives: it changes nothing, it is not posted
  // again, and no other step creates a new one.
  lemma StaleMessagesDrain(s: System, step: Step, generation: int)
    requires PumpInv(s) && Allowed(s, step) && generation < s.fields.generation
    requires Apply(s, step).Alive?
    ensures var s', stale := Apply(s, step), DoMoreStuff(generation);
            && generation < s'.fields.generation
            && s'.inFlight[stale] == s.inFlight[stale] - (if step.Deliver? && step.msg == stale then 1 else 0)
            && (step.Deliver? && step.msg == stale ==> s'.fields == s.fields)
  {
    if step.Deliver? && !step.msg.DoMoreStuff? {
      ControlEffect(s.fields, step.msg, step.env);
    }
  }

  // ---------------------------------------------------------------------------------------------
  // The tracks.

  ghost predicate AllPcm(tracks: seq<CodecState>) {
    forall i :: 0 <= i < |tracks| ==> PcmInv(tracks[i])
  }

  ghost predicate AllAudio(tracks: seq<CodecState>) {
    forall i :: 0 <= i < |tracks| ==> AudioInv(tracks[i])
  }

  ghost predicate AllWhole(tracks: seq<CodecState>) {
    forall i :: 0 <= i < |tracks| ==> WholeInv(tracks[i])
  }

  // Samples a codec has been given, and samples of one track.
  function SamplesGiven(calls: seq<InputCall>): seq<Sample>
    decreases |calls|
  {
    if calls == [] then []
    else
      var n := |calls| - 1;
      SamplesGiven(calls[..n]) + (if calls[n].SampleData? then [calls[n].sample] else [])
  }

  function OfTrack(samples: seq<Sample>, track: nat): seq<Sample>
    decreases |samples|
  {
    if samples == [] then []
    else
      var n := |samples| - 1;
      OfTrack(samples[..n], track) + (if samples[n].track == track then [samples[n]] else [])
  }

  // Each codec has been given exactly the extracted samples of its track, each once and in order.
  ghost predicate FeedInv(p: Fields) {
    && p.position <= |p.samples|
    && (forall s <- p.samples :: s.track < |p.tracks|)
    && (forall t :: 0 <= t < |p.tracks| ==>
          SamplesGiven(p.tracks[t].codec.inQueued) == OfTrack(p.samples[..p.position], t))
  }

  ghost predicate TracksInv(p: Fields) {
    && (p.state == UNINITIALIZED || p.state == UNPREPARED ==> p.tracks == [])
    && AllPcm(p.tracks)
    && AllAudio(p.tracks)
    && FeedInv(p)
  }

  lemma NewTrackIsGood(csd: seq<nat>)
    ensures PcmInv(NewTrack(csd)) && WholeInv(NewTrack(csd))
    ensures SamplesGiven(NewTrack(csd).codec.inQueued) == []
  {
    var t := NewTrack(csd);
    assert t.codec.inDequeued == QueuedIndices(t.codec.inQueued) + t.availIn;
    NoSamplesGiven(t.codec.inQueued);
  }

  lemma {:induction false} NoSamplesGiven(calls: seq<InputCall>)
    requires forall c <- calls :: c.CodecConfig?
    ensures SamplesGiven(calls) == []
    decreases |calls|
  {
    if calls != [] {
      assert calls[|calls| - 1] in calls;
      NoSamplesGiven(calls[..|calls| - 1]);
    }
  }

  lemma PreparedKeeps(p: Fields, setup: Setup)
    requires TracksInv(p) && p.state == UNPREPARED && GoodSetup(setup)
    ensures TracksInv(Prepared(p, setup))
    ensures AllWhole(p.tracks) ==> AllWhole(Prepared(p, setup).tracks)
  {
    var p' := Prepared(p, setup);
    if setup.status == OK {
      forall i | 0 <= i < |SelectedCsd(setup)|
        ensures PcmInv(p'.tracks[i]) && WholeInv(p'.tracks[i]) && SamplesGiven(p'.tracks[i].codec.inQueued) == []
      {
        NewTrackIsGood(SelectedCsd(setup)[i]);
      }
    }
  }

  lemma ControlKeepsTracks(p: Fields, msg: Message, env: Environment)
    requires TracksInv(p) && !msg.DoMoreStuff? && GoodSetup(env.setup)
    ensures Handle(p, msg, env).Handled? && TracksInv(Handle(p, msg, env).fields)
    ensures AllWhole(p.tracks) ==> AllWhole(Handle(p, msg, env).fields.tracks)
  {
    if p.state == UNPREPARED {
      PreparedKeeps(p, env.setup);
    }
  }

  lemma {:induction false} DrainOutputFrame(t: CodecState, outs: seq<OutputEvent>)
    ensures DrainOutput(t, outs).availIn == t.availIn
    ensures DrainOutput(t, outs).codec.inQueued == t.codec.inQueued
    decreases outs
  {
    if outs != [] {
      DrainOutputFrame(OnOutputEvent(t, outs[0]), outs[1..]);
    }
  }

  lemma {:induction false} RenderOutputFrame(t: CodecState, nowUs: int, startUs: int, advance: seq<nat>)
    requires RenderOutput(t, nowUs, startUs, advance).Some?
    ensures RenderOutput(t, nowUs, startUs, advance).value.codec.inQueued == t.codec.inQueued
    decreases |t.availOut|
  {
    if t.availOut != [] {
      var lateByUs := nowUs - (t.availOut[0].presentationTimeUs + startUs);
      if lateByUs > 30000 {
        RenderOutputFrame(Drop(t), nowUs, startUs, advance);
      } else if lateByUs > -10000 {
        if t.audio.None? {
          RenderOutputFrame(RenderAndRelease(t), nowUs, startUs, advance);
        } else {
          var t' := RenderAudio(t, if advance == [] then 0 else advance[0]).value;
          if t'.availOut[0].size == 0 {
            RenderOutputFrame(RenderAndRelease(t'), nowUs, startUs, if advance == [] then [] else advance[1..]);
          }
        }
      }
    }
  }

  lemma DrainedKeeps(p: Fields, pump: PumpInput)
    requires TracksInv(p) && GoodPump(p.tracks, pump)
    ensures TracksInv(p.(tracks := Drained(p.tracks, pump)))
  {
    var tracks' := Drained(p.tracks, pump);
    forall i | 0 <= i < |p.tracks|
      ensures PcmInv(tracks'[i]) && AudioInv(tracks'[i])
      ensures tracks'[i].codec.inQueued == p.tracks[i].codec.inQueued
    {
      var t := DrainInput(p.tracks[i], At(pump.ins, i));
      PcmOfDrainInput(p.tracks[i], At(pump.ins, i));
      PcmOfDrainOutput(t, At(pump.outs, i));
      AudioOfDrainOutput(t, At(pump.outs, i));
      DrainOutputFrame(t, At(pump.outs, i));
    }
  }

  lemma DrainedIsWhole(p: Fields, pump: PumpInput)
    requires AllWhole(p.tracks) && GoodPump(p.tracks, pump) && AlignedPump(p.tracks, pump)
    ensures AllWhole(Drained(p.tracks, pump))
  {
    forall i | 0 <= i < |p.tracks| ensures WholeInv(Drained(p.tracks, pump)[i]) {
      WholeOfDrainOutput(DrainInput(p.tracks[i], At(pump.ins, i)), At(pump.outs, i));
    }
  }

  // One sample moves to its codec.
  function FedOne(p: Fields): Fields
    requires p.position < |p.samples| && p.samples[p.position].track < |p.tracks|
    requires p.tracks[p.samples[p.position].track].availIn != []
  {
    var s := p.samples[p.position];
    p.(tracks := p.tracks[s.track := QueueInput(p.tracks[s.track], s)], position := p.position + 1)
  }

  lemma GivenOneMore(t: CodecState, sample: Sample)
    requires t.availIn != []
    ensures SamplesGiven(QueueInput(t, sample).codec.inQueued) == SamplesGiven(t.codec.inQueued) + [sample]
  {
    var calls := t.codec.inQueued;
    assert QueueInput(t, sample).codec.inQueued[..|calls|] == calls;
  }

  lemma {:induction false} OfTrackOneMore(samples: seq<Sample>, n: nat, track: nat)
    requires n < |samples|
    ensures OfTrack(samples[..n + 1], track)
         == OfTrack(samples[..n], track) + (if samples[n].track == track then [samples[n]] else [])
  {
    assert samples[..n + 1][..n] == samples[..n];
  }

  lemma QueueInputKeeps(t: CodecState, sample: Sample)
    requires PcmInv(t) && AudioInv(t) && t.availIn != []
    ensures PcmInv(QueueInput(t, sample)) && AudioInv(QueueInput(t, sample))
    ensures WholeInv(t) ==> WholeInv(QueueInput(t, sample))
  {
    PcmOfQueueInput(t, sample);
  }

  lemma {:induction false} FedOneIsGiven(p: Fields, t: nat)
    requires FeedInv(p) && p.position < |p.samples| && t < |p.tracks|
    requires p.tracks[p.samples[p.position].track].availIn != []
    ensures SamplesGiven(FedOne(p).tracks[t].codec.inQueued) == OfTrack(p.samples[..p.position + 1], t)
  {
    var s := p.samples[p.position];
    OfTrackOneMore(p.samples, p.position, t);
    if t == s.track {
      GivenOneMore(p.tracks[t], s);
    } else {
      assert FedOne(p).tracks[t] == p.tracks[t];
    }
  }

  lemma FeedStep(p: Fields)
    requires TracksInv(p) && p.position < |p.samples|
    requires p.tracks[p.samples[p.position].track].availIn != []
    ensures TracksInv(FedOne(p))
    ensures AllWhole(p.tracks) ==> AllWhole(FedOne(p).tracks)
  {
    hide PcmInv, AudioInv, WholeInv, QueueInput, SamplesGiven, OfTrack;
    var s := p.samples[p.position];
    QueueInputKeeps(p.tracks[s.track], s);
    assert FedOne(p).tracks == p.tracks[s.track := QueueInput(p.tracks[s.track], s)];
    forall t | 0 <= t < |p.tracks|
      ensures SamplesGiven(FedOne(p).tracks[t].codec.inQueued) == OfTrack(p.samples[..p.position + 1], t)
    {
      FedOneIsGiven(p, t);
    }
    assert FeedInv(FedOne(p));
  }

  lemma {:induction false} FedKeeps(p: Fields)
    requires TracksInv(p)
    ensures TracksInv(Fed(p))
    ensures AllWhole(p.tracks) ==> AllWhole(Fed(p).tracks)
    decreases |p.samples| - p.position
  {
    if p.position < |p.samples| {
      var s := p.samples[p.position];
      if p.tracks[s.track].availIn != [] {
        FeedStep(p);
        FedKeeps(FedOne(p));
      }
    }
  }

  lemma ShownKeeps(p: Fields, nowUs: int, startUs: int, advance: seq<seq<nat>>)
    requires TracksInv(p) && !ShowAborts(p.tracks, nowUs, startUs, advance)
    ensures TracksInv(p.(startTimeRealUs := startUs, tracks := Shown(p.tracks, nowUs, startUs, advance)))
  {
    var tracks' := Shown(p.tracks, nowUs, startUs, advance);
    forall i | 0 <= i < |p.tracks|
      ensures PcmInv(tracks'[i]) && AudioInv(tracks'[i])
      ensures tracks'[i].codec.inQueued == p.tracks[i].codec.inQueued
    {
      PcmOfRenderOutput(p.tracks[i], nowUs, startUs, At(advance, i));
      AudioOfRenderOutput(p.tracks[i], nowUs, startUs, At(advance, i));
      RenderOutputFrame(p.tracks[i], nowUs, startUs, At(advance, i));
    }
  }

  lemma ShownIsWhole(tracks: seq<CodecState>, nowUs: int, startUs: int, advance: seq<seq<nat>>)
    requires AllWhole(tracks)
    ensures !ShowAborts(tracks, nowUs, startUs, advance)
    ensures AllWhole(Shown(tracks, nowUs, startUs, advance))
  {
    forall i | 0 <= i < |tracks|
      ensures var shown := RenderOutput(tracks[i], nowUs, startUs, At(advance, i));
              shown.Some? && WholeInv(shown.value)
    {
      WholeFramesNeverAbort(tracks[i], nowUs, startUs, At(advance, i));
    }
  }

  lemma DrainedAndFedKeeps(p: Fields, pump: PumpInput)
    requires TracksInv(p) && GoodPump(p.tracks, pump)
    ensures TracksInv(DrainedAndFed(p, pump))
    ensures AllWhole(p.tracks) && AlignedPump(p.tracks, pump) ==> AllWhole(DrainedAndFed(p, pump).tracks)
  {
    DrainedKeeps(p, pump);
    FedKeeps(p.(tracks := Drained(p.tracks, pump)));
    if AllWhole(p.tracks) && AlignedPump(p.tracks, pump) {
      DrainedIsWhole(p, pump);
    }
  }

  lemma PumpedKeeps(p: Fields, pump: PumpInput)
    requires TracksInv(p) && GoodPump(p.tracks, pump) && Pumped(p, pump).Some?
    ensures TracksInv(Pumped(p, pump).value)
  {
    DrainedAndFedKeeps(p, pump);
    ShownKeeps(DrainedAndFed(p, pump), pump.nowUs, StartTime(p, pump.nowUs), pump.advance);
  }

  lemma PumpedIsWhole(p: Fields, pump: PumpInput)
    requires TracksInv(p) && AllWhole(p.tracks) && GoodPump(p.tracks, pump) && AlignedPump(p.tracks, pump)
    ensures Pumped(p, pump).Some? && AllWhole(Pumped(p, pump).value.tracks)
  {
    DrainedAndFedKeeps(p, pump);
    ShownIsWhole(DrainedAndFed(p, pump).tracks, pump.nowUs, StartTime(p, pump.nowUs), pump.advance);
  }

  // ---------------------------------------------------------------------------------------------
  // All runs.

  ghost predicate SystemInv(s: System) {
    PumpInv(s) && TracksInv(s.fields)
  }

  lemma DeliverPump(s: System, msg: Message, env: Environment)
    requires SystemInv(s) && Allowed(s, Deliver(msg, env)) && msg.DoMoreStuff?
    requires Apply(s, Deliver(msg, env)).Alive?
    ensures SystemInv(Apply(s, Deliver(msg, env)))
  {
    if msg.generation == s.fields.generation {
      PumpedKeeps(s.fields, env.pump);
    }
  }

  lemma DeliverControl(s: System, msg: Message, env: Environment)
    requires SystemInv(s) && Allowed(s, Deliver(msg, env)) && !msg.DoMoreStuff?
    ensures SystemInv(Apply(s, Deliver(msg, env)))
  {
    PumpInvControl(s, msg, env);
    ControlKeepsTracks(s.fields, msg, env);
  }

  lemma SystemInvStep(s: System, step: Step)
    requires SystemInv(s) && Allowed(s, step) && Apply(s, step).Alive?
    ensures SystemInv(Apply(s, step))
  {
    match step
    case Post(msg) => PumpInvPost(s, msg);
    case Deliver(msg, env) =>
      if msg.DoMoreStuff? {
        DeliverPump(s, msg, env);
      } else {
        DeliverControl(s, msg, env);
      }
  }

  ghost predicate AlignedStep(s: System, step: Step)
    requires s.Alive?
  {
    step.Deliver? ==> AlignedPump(s.fields.tracks, step.env.pump)
  }

  lemma WholeStep(s: System, step: Step)
    requires SystemInv(s) && AllWhole(s.fields.tracks) && Allowed(s, step) && AlignedStep(s, step)
    ensures Apply(s, step).Alive? && AllWhole(Apply(s, step).fields.tracks)
  {
    if step.Deliver? {
      if step.msg.DoMoreStuff? {
        PumpedIsWhole(s.fields, step.env.pump);
      } else {
        ControlKeepsTracks(s.fields, step.msg, step.env);
      }
    }
  }

  ghost predicate AllowedRun(s: System, run: seq<Step>)
    decreases run
  {
    run == []
    || (Allowed(s, run[0]) && AllowedRun(Apply(s, run[0]), run[1..]))
  }

  ghost predicate AlignedRun(s: System, run: seq<Step>)
    requires AllowedRun(s, run)
    decreases run
  {
    run == [] || (AlignedStep(s, run[0]) && AlignedRun(Apply(s, run[0]), run[1..]))
  }

  ghost function Exec(s: System, run: seq<Step>): System
    requires AllowedRun(s, run)
    decreases run
  {
    if run == [] then s else Exec(Apply(s, run[0]), run[1..])
  }

  lemma {:induction false} RunKeeps(s: System, run: seq<Step>)
    requires SystemInv(s) && AllowedRun(s, run) && Exec(s, run).Alive?
    ensures SystemInv(Exec(s, run))
    decreases run
  {
    if run != [] {
      SystemInvStep(s, run[0]);
      RunKeeps(Apply(s, run[0]), run[1..]);
    }
  }

  lemma {:induction false} WholeRun(s: System, run: seq<Step>)
    requires SystemInv(s) && AllWhole(s.fields.tracks) && AllowedRun(s, run) && AlignedRun(s, run)
    ensures Exec(s, run).Alive?
    decreases run
  {
    if run != [] {
      WholeStep(s, run[0]);
      SystemInvStep(s, run[0]);
      WholeRun(Apply(s, run[0]), run[1..]);
    }
  }

  // A player whose codecs deliver whole frames is never aborted.
  lemma {:induction false} WholeFramesKeepAlive(run: seq<Step>)
    requires AllowedRun(INITIAL, run) && AlignedRun(INITIAL, run)
    ensures Exec(INITIAL, run).Alive?
  {
    WholeRun(INITIAL, run);
  }

  // A part of a frame does abort it: one audio track, and an output buffer of three bytes that is due.
  const ODD_BUFFER := BufferInfo(0, 0, 3, -1000000, [0, 0, 0])

  const ODD_OUTPUT := [FormatChanged(Some(AudioTrack(10, 4, 0, 0))), Buffer(ODD_BUFFER)]

  const ODD_ENVIRONMENT := Environment(Setup(OK, [Format(Audio, [])], []), PumpInput([], [ODD_OUTPUT], [], 0))

  // The track after its output was drained.
  const ODD_TRACK := CodecState([], [ODD_BUFFER], Some(AudioTrack(10, 4, 0, 0)), 0,
                                Codec([], [], [ODD_BUFFER], []), [])

  const AUDIO_STARTED := Fields(STARTED, 1, -1, [NewTrack([])], [], 0)

  lemma AudioStarts()
    ensures GoodSetup(ODD_ENVIRONMENT.setup)
    ensures Handle(CONSTRUCTED.(state := UNPREPARED), Start, ODD_ENVIRONMENT)
         == Handled(AUDIO_STARTED, Some(DoMoreStuff(1)), Replied(OK))
  {
    var setup := ODD_ENVIRONMENT.setup;
    assert KindsOf(setup.formats) == [Audio];
    assert Chosen([Audio], Use(true, true), 0);
    assert Selected([Audio], Use(true, true), 0) == [];
    assert Selected([Audio], Use(true, true), 1) == [0];
    assert SelectedCsd(setup) == [[]];
    assert NewTracks([[]]) == [NewTrack([])];
  }

  lemma OddTrackIsDrained()
    ensures DrainInput(NewTrack([]), []) == NewTrack([])
    ensures DrainOutput(NewTrack([]), ODD_OUTPUT) == ODD_TRACK
    ensures OwnedEvents(NewTrack([]), ODD_OUTPUT)
  {
    var t := NewTrack([]);
    var t1, t2 := OnOutputEvent(t, ODD_OUTPUT[0]), ODD_TRACK;
    assert t.codec == Codec([], [], [], []);
    assert ODD_OUTPUT[1..] == [Buffer(ODD_BUFFER)] && ODD_OUTPUT[1..][1..] == [];
    assert OnOutputEvent(t1, Buffer(ODD_BUFFER)) == t2;
    assert DrainOutput(t1, [Buffer(ODD_BUFFER)]) == DrainOutput(t2, []) == t2;
    assert OwnedEvents(t2, []) && OwnedEvents(t1, [Buffer(ODD_BUFFER)]);
  }

  lemma OddTrackAborts()
    ensures RenderOutput(ODD_TRACK, 0, 1000000, []) == None
  {
    assert BytesAvailable(AudioTrack(10, 4, 0, 0), 0) == 40;
    assert RenderAudio(ODD_TRACK, 0) == None;
  }

  lemma OddPumpAborts()
    ensures GoodPump(AUDIO_STARTED.tracks, ODD_ENVIRONMENT.pump)
    ensures Handle(AUDIO_STARTED, DoMoreStuff(1), ODD_ENVIRONMENT) == Aborted
  {
    hide DrainInput, DrainOutput, RenderOutput, OwnedEvents;
    OddTrackIsDrained();
    OddTrackAborts();
    assert Drained(AUDIO_STARTED.tracks, ODD_ENVIRONMENT.pump) == [ODD_TRACK];
    var fed := DrainedAndFed(AUDIO_STARTED, ODD_ENVIRONMENT.pump);
    assert fed.tracks[0] == ODD_TRACK;
  }

  lemma {:induction false} RunThen(s: System, step: Step, run: seq<Step>)
    requires Allowed(s, step) && AllowedRun(Apply(s, step), run)
    ensures AllowedRun(s, [step] + run) && Exec(s, [step] + run) == Exec(Apply(s, step), run)
  {
    assert ([step] + run)[1..] == run;
  }

  lemma OddSteps(unprepared: Fields, env: Environment)
    requires unprepared == CONSTRUCTED.(state := UNPREPARED) && env == ODD_ENVIRONMENT
    ensures var s := Alive(CONSTRUCTED, multiset{SetDataSource});
            Allowed(s, Deliver(SetDataSource, env))
            && Apply(s, Deliver(SetDataSource, env)) == Alive(unprepared, multiset{})
    ensures var s := Alive(unprepared, multiset{Start});
            Allowed(s, Deliver(Start, env))
            && Apply(s, Deliver(Start, env)) == Alive(AUDIO_STARTED, multiset{DoMoreStuff(1)})
    ensures var s := Alive(AUDIO_STARTED, multiset{DoMoreStuff(1)});
            Allowed(s, Deliver(DoMoreStuff(1), env)) && Apply(s, Deliver(DoMoreStuff(1), env)) == Dead
  {
    AudioStarts();
    OddPumpAborts();
  }

  lemma OddBytesAbort() returns (run: seq<Step>)
    ensures AllowedRun(INITIAL, run) && Exec(INITIAL, run) == Dead
  {
    hide Handle, GoodSetup, GoodPump;
    var unprepared, env := CONSTRUCTED.(state := UNPREPARED), ODD_ENVIRONMENT;
    OddSteps(unprepared, env);
    run := [];
    assert Exec(Dead, run) == Dead;
    var s := Alive(AUDIO_STARTED, multiset{DoMoreStuff(1)});
    RunThen(s, Deliver(DoMoreStuff(1), env), run);
    run := [Deliver(DoMoreStuff(1), env)] + run;
    s := Alive(unprepared, multiset{Start});
    RunThen(s, Deliver(Start, env), run);
    run := [Deliver(Start, env)] + run;
    s := Alive(unprepared, multiset{});
    assert multiset{} + multiset{Start} == multiset{Start};
    RunThen(s, Post(Start), run);
    run := [Post(Start)] + run;
    s := Alive(CONSTRUCTED, multiset{SetDataSource});
    RunThen(s, Deliver(SetDataSource, env), run);
    run := [Deliver(SetDataSource, env)] + run;
    RunThen(INITIAL, Post(SetDataSource), run);
    run := [Post(SetDataSource)] + run;
  }

  // In every reachable state exactly one pump message of the current generation is in flight when
  // the player is STARTED, and none otherwise.
  lemma {:induction false} OneLivePump(run: seq<Step>)
    requires AllowedRun(INITIAL, run) && Exec(INITIAL, run).Alive?
    ensures var s := Exec(INITIAL, run);
            && s.inFlight[DoMoreStuff(s.fields.generation)] == (if s.fields.state == STARTED then 1 else 0)
            && (forall g :: DoMoreStuff(g) in s.inFlight ==> g <= s.fields.generation)
  {
    RunKeeps(INITIAL, run);
  }

  // onDoMoreStuff therefore only runs while STARTED.
  lemma {:induction false} PumpRunsOnlyWhileStarted(run: seq<Step>)
    requires AllowedRun(INITIAL, run) && Exec(INITIAL, run).Alive?
    ensures var s := Exec(INITIAL, run);
            DoMoreStuff(s.fields.generation) in s.inFlight ==> s.fields.state == STARTED
  {
    OneLivePump(run);
  }

  // In every reachable state, for each track: the input indices held are those dequeued and not yet
  // queued, without duplicates, and buffers are queued in the order they were dequeued; the same on
  // the output side; and the codec has been given exactly its track's extracted samples, in order.
  lemma {:induction false} BuffersAreOwnedOnce(run: seq<Step>, i: nat)
    requires AllowedRun(INITIAL, run) && Exec(INITIAL, run).Alive?
    requires i < |Exec(INITIAL, run).fields.tracks|
    ensures var p := Exec(INITIAL, run).fields;
            var t := p.tracks[i];
            && t.codec.inDequeued == QueuedIndices(t.codec.inQueued) + t.availIn
            && NoDuplicates(t.availIn)
            && InfoIndices(t.codec.outDequeued)
               == InfoIndices(ReturnedInfos(t.codec.outReturned)) + InfoIndices(t.availOut)
            && NoDuplicates(InfoIndices(t.availOut))
            && p.position <= |p.samples|
            && SamplesGiven(t.codec.inQueued) == OfTrack(p.samples[..p.position], i)
  {
    RunKeeps(INITIAL, run);
    InOrder(Exec(INITIAL, run).fields.tracks[i]);
  }

  // In every reachable state, for each track: the bytes given to its AudioTracks are, buffer after
  // buffer in dequeue order, the part of the buffer that lies before its present offset; only the
  // oldest held buffer can be partly written; and one that left through an AudioTrack is complete.
  lemma {:induction false} BytesAreWrittenOnce(run: seq<Step>, i: nat)
    requires AllowedRun(INITIAL, run) && Exec(INITIAL, run).Alive?
    requires i < |Exec(INITIAL, run).fields.tracks|
    ensures var t := Exec(INITIAL, run).fields.tracks[i];
            && |Current(t)| == |t.codec.outDequeued|
            && t.pcm == Written(t.codec.outDequeued, Current(t))
            && (forall k :: 0 <= k < |Current(t)| ==> RestOf(t.codec.outDequeued[k], Current(t)[k]))
            && (forall k :: |t.codec.outReturned| < k < |Current(t)| ==> Current(t)[k] == t.codec.outDequeued[k])
            && (forall o <- t.codec.outReturned :: o.Rendered? && o.viaAudio ==> o.info.size == 0)
  {
    RunKeeps(INITIAL, run);
  }

  // In every reachable state the frames an AudioTrack still has to play do not exceed its capacity,
  // and the wrapped counter of the player has not lost track of them.
  lemma {:induction false} AudioNeverOverflows(run: seq<Step>, i: nat)
    requires AllowedRun(INITIAL, run) && Exec(INITIAL, run).Alive?
    requires i < |Exec(INITIAL, run).fields.tracks|
    requires Exec(INITIAL, run).fields.tracks[i].audio.Some?
    ensures var t := Exec(INITIAL, run).fields.tracks[i];
            var a := t.audio.value;
            && a.played <= FramesWritten(a) <= a.played + a.frameCount
            && t.numFramesWritten == FramesWritten(a) % UINT32
  {
    RunKeeps(INITIAL, run);
  }
}
