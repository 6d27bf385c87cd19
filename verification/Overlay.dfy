/** The start/stop/frame handshake of the screen-recorder overlay
    (cmds/screenrecord/Overlay.cpp): one mutex, two condition variables, the thread that
    calls `start`, the overlay thread it creates, and any number of threads that call
    `onFrameAvailable` and `stop`.

    Every statement that touches a guarded field is one action, so every interleaving the
    mutex allows, and every spurious wakeup, is a run of this machine. */
module OverlayProtocol {

  // Declared in Overlay.h as states that "advance from left to right".
  datatype OverlayState = UNINITIALIZED | INIT | RUNNING | STOPPING | STOPPED

  function Rank(st: OverlayState): nat {
    match st
    case UNINITIALIZED => 0
    case INIT => 1
    case RUNNING => 2
    case STOPPING => 3
    case STOPPED => 4
  }

  // Who holds mMutex. The callback and the stopper remember whether they have written their field
  // yet; both then still owe mEventCond a signal.
  datatype Holder = Free | ByStarter | ByWorker | ByCallback(flagged: bool) | ByStopper(written: bool)

  datatype StarterPc =
    | NotCalled | WantsLock | RunsThread | SetsInit | TestsInit | Sleeping | Woken | ChecksResult
    | Returned(ok: bool)

  datatype WorkerPc =
    | NoThread | WantsEntry | SetsUp | Aborts | AbortBroadcasts | SetsRunning | Announces
    | TestsLoop | Asleep | Awake | ChecksFrame | Leaves | Done

  // `stops` counts how often `stop` has written mState: bookkeeping, read by no transition.
  datatype Overlay = Overlay(
    state: OverlayState, threadOk: bool, frameAvailable: bool, listening: bool, holder: Holder,
    starter: StarterPc, worker: WorkerPc, stops: nat)

  const CONSTRUCTED := Overlay(UNINITIALIZED, false, false, false, Free, NotCalled, NoThread, 0)

  datatype Action =
    | CallStart | StarterLock | StarterRun | StarterInit | StarterTest | StarterWake | StarterRelock
    | StarterCheck
    | WorkerLock | WorkerSetup(ok: bool) | WorkerAbort | WorkerAbortBroadcast | WorkerRunning
    | WorkerAnnounce | WorkerTest | WorkerWake | WorkerRelock | WorkerFrame | WorkerLeave
    | CallbackLock | CallbackFlag | CallbackSignal
    | StopLock | StopSet | StopSignal

  predicate Enabled(s: Overlay, a: Action) {
    match a
    case CallStart => s.starter == NotCalled
    case StarterLock => s.starter == WantsLock && s.holder == Free
    case StarterRun => s.starter == RunsThread
    case StarterInit => s.starter == SetsInit
    case StarterTest => s.starter == TestsInit
    case StarterWake => s.starter == Sleeping
    case StarterRelock => s.starter == Woken && s.holder == Free
    case StarterCheck => s.starter == ChecksResult
    case WorkerLock => s.worker == WantsEntry && s.holder == Free
    case WorkerSetup(_) => s.worker == SetsUp
    case WorkerAbort => s.worker == Aborts
    case WorkerAbortBroadcast => s.worker == AbortBroadcasts
    case WorkerRunning => s.worker == SetsRunning
    case WorkerAnnounce => s.worker == Announces
    case WorkerTest => s.worker == TestsLoop
    case WorkerWake => s.worker == Asleep
    case WorkerRelock => s.worker == Awake && s.holder == Free
    case WorkerFrame => s.worker == ChecksFrame
    case WorkerLeave => s.worker == Leaves
    // setup_l registers the listener, so no callback exists before that.
    case CallbackLock => s.listening && s.holder == Free
    case CallbackFlag => s.holder == ByCallback(false)
    case CallbackSignal => s.holder == ByCallback(true)
    case StopLock => s.holder == Free
    case StopSet => s.holder == ByStopper(false)
    case StopSignal => s.holder == ByStopper(true)
  }

  // mStartCond.broadcast(): only the starter ever waits there.
  function Broadcast(s: Overlay): Overlay {
    if s.starter == Sleeping then s.(starter := Woken) else s
  }

  // mEventCond.signal(): only the worker ever waits there; without a waiter the signal is lost.
  function Signal(s: Overlay): Overlay {
    if s.worker == Asleep then s.(worker := Awake) else s
  }

  function Apply(s: Overlay, a: Action): Overlay
    requires Enabled(s, a)
  {
    match a
    // Overlay::start
    case CallStart => s.(starter := WantsLock)
    case StarterLock => s.(starter := RunsThread, holder := ByStarter)
    case StarterRun => s.(starter := SetsInit, worker := WantsEntry)
    case StarterInit => s.(starter := TestsInit, state := INIT)
    case StarterTest =>
      if s.state == INIT then s.(starter := Sleeping, holder := Free) else s.(starter := ChecksResult)
    case StarterWake => s.(starter := Woken)
    case StarterRelock => s.(starter := TestsInit, holder := ByStarter)
    case StarterCheck => s.(starter := Returned(s.threadOk), holder := Free)
    // Overlay::threadLoop
    case WorkerLock => s.(worker := SetsUp, holder := ByWorker)
    case WorkerSetup(ok) =>
      s.(threadOk := ok, listening := s.listening || ok, worker := if ok then SetsRunning else Aborts)
    case WorkerAbort => s.(state := STOPPED, worker := AbortBroadcasts)
    case WorkerAbortBroadcast => Broadcast(s.(worker := Done, holder := Free))
    case WorkerRunning => s.(state := RUNNING, worker := Announces)
    case WorkerAnnounce => Broadcast(s.(worker := TestsLoop))
    case WorkerTest =>
      if s.state == RUNNING then s.(worker := Asleep, holder := Free) else s.(worker := Leaves)
    case WorkerWake => s.(worker := Awake)
    case WorkerRelock => s.(worker := ChecksFrame, holder := ByWorker)
    case WorkerFrame =>
      // processFrame_l, when the flag is set
      s.(frameAvailable := false, worker := TestsLoop)
    case WorkerLeave => s.(state := STOPPED, worker := Done, holder := Free)
    // Overlay::onFrameAvailable
    case CallbackLock => s.(holder := ByCallback(false))
    case CallbackFlag => s.(holder := ByCallback(true), frameAvailable := true)
    case CallbackSignal => Signal(s.(holder := Free))
    // Overlay::stop
    case StopLock => s.(holder := ByStopper(false))
    case StopSet => s.(holder := ByStopper(true), state := STOPPING, stops := s.stops + 1)
    case StopSignal => Signal(s.(holder := Free))
  }

  // Nothing else holds an action back: calls and callbacks come whenever the mutex is free, wakeups at any
  // time, and set-up may turn out either way.
  lemma CallsAreFree(s: Overlay)
    ensures s.starter == NotCalled ==> Enabled(s, CallStart)
    ensures s.holder == Free ==> Enabled(s, StopLock) && (s.listening ==> Enabled(s, CallbackLock))
    ensures (s.starter == Sleeping ==> Enabled(s, StarterWake)) && (s.worker == Asleep ==> Enabled(s, WorkerWake))
    ensures s.worker == SetsUp ==> Enabled(s, WorkerSetup(true)) && Enabled(s, WorkerSetup(false))
  {
  }

  // Whoever waits for the mutex can take it when it is free.
  lemma MutexIsFree(s: Overlay)
    requires s.holder == Free
    ensures s.starter == WantsLock ==> Enabled(s, StarterLock)
    ensures s.starter == Woken ==> Enabled(s, StarterRelock)
    ensures s.worker == WantsEntry ==> Enabled(s, WorkerLock)
    ensures s.worker == Awake ==> Enabled(s, WorkerRelock)
  {
  }

  // Whoever holds it can go on.
  function Next(s: Overlay): Action {
    match s.holder
    case ByStarter =>
      (match s.starter
       case RunsThread => StarterRun
       case SetsInit => StarterInit
       case TestsInit => StarterTest
       case _ => StarterCheck)
    case ByWorker =>
      (match s.worker
       case SetsUp => WorkerSetup(true)
       case Aborts => WorkerAbort
       case AbortBroadcasts => WorkerAbortBroadcast
       case SetsRunning => WorkerRunning
       case Announces => WorkerAnnounce
       case TestsLoop => WorkerTest
       case ChecksFrame => WorkerFrame
       case _ => WorkerLeave)
    case ByCallback(flagged) => if flagged then CallbackSignal else CallbackFlag
    case ByStopper(written) => if written then StopSignal else StopSet
    case Free => StopLock
  }

  lemma HolderCanGoOn(s: Overlay)
    requires MutexInv(s)
    ensures Enabled(s, Next(s))
  {
  }

  // The client's side of the contract: stop() only after start() has returned, with success or an error.
  predicate Disciplined(s: Overlay, a: Action) {
    a == StopLock ==> s.starter.Returned?
  }

  predicate Runnable(s: Overlay, run: seq<Action>)
    decreases run
  {
    run == [] || (Enabled(s, run[0]) && Runnable(Apply(s, run[0]), run[1..]))
  }

  predicate DisciplinedRun(s: Overlay, run: seq<Action>)
    decreases run
  {
    run == []
    || (Enabled(s, run[0]) && Disciplined(s, run[0]) && DisciplinedRun(Apply(s, run[0]), run[1..]))
  }

  function Exec(s: Overlay, run: seq<Action>): Overlay
    requires Runnable(s, run)
    decreases run
  {
    if run == [] then s else Exec(Apply(s, run[0]), run[1..])
  }

  // ---------------------------------------------------------------------------------------------
  // The invariant, one clause per thread.

  predicate StarterHolds(pc: StarterPc) {
    pc.RunsThread? || pc.SetsInit? || pc.TestsInit? || pc.ChecksResult?
  }

  predicate WorkerHolds(pc: WorkerPc) {
    match pc
    case NoThread | WantsEntry | Asleep | Awake | Done => false
    case _ => true
  }

  predicate MutexInv(s: Overlay) {
    && (s.holder == ByStarter <==> StarterHolds(s.starter))
    && (s.holder == ByWorker <==> WorkerHolds(s.worker))
  }

  predicate StarterInv(s: Overlay) {
    match s.starter
    case NotCalled | WantsLock | RunsThread => s.worker == NoThread && s.state == UNINITIALIZED
    case SetsInit => s.worker == WantsEntry && s.state == UNINITIALIZED
    case TestsInit | Woken => s.worker != NoThread && s.state != UNINITIALIZED
    case Sleeping =>
      StartingUp(s.worker) && (s.state == INIT <==> !(s.worker.AbortBroadcasts? || s.worker.Announces?))
    case ChecksResult => (s.worker.Asleep? || s.worker.Awake? || s.worker.Done?) && s.state != INIT
    case Returned(ok) => ok == s.threadOk && (if ok then Serving(s.worker) else s.worker.Done?)
  }

  // Created, and not yet past the broadcast that wakes the starter.
  predicate StartingUp(pc: WorkerPc) {
    match pc
    case WantsEntry | SetsUp | Aborts | SetsRunning | AbortBroadcasts | Announces => true
    case _ => false
  }

  predicate Serving(pc: WorkerPc) {
    match pc
    case TestsLoop | Asleep | Awake | ChecksFrame | Leaves | Done => true
    case _ => false
  }

  predicate WorkerInv(s: Overlay) {
    match s.worker
    case NoThread => s.state == UNINITIALIZED
    case WantsEntry => (s.state.UNINITIALIZED? || s.state.INIT?) && !s.frameAvailable
    case SetsUp => s.state == INIT
    case Aborts => s.state == INIT && !s.threadOk
    case AbortBroadcasts => s.state == STOPPED && !s.threadOk
    case SetsRunning => s.state == INIT && s.threadOk
    case Announces => s.state == RUNNING && s.threadOk
    case Asleep | Awake | ChecksFrame | TestsLoop => (s.state.RUNNING? || s.state.STOPPING?) && s.threadOk
    case Leaves => s.state == STOPPING && s.threadOk
    case Done => (s.state.STOPPING? || s.state.STOPPED?) && (s.threadOk ==> s.starter == Returned(true))
  }

  // A wakeup is due: the lock holder has written its field and still has to signal.
  predicate SignalDue(s: Overlay) {
    (s.holder == ByCallback(true) || s.holder == ByStopper(true))
  }

  predicate NoLostWakeup(s: Overlay) {
    s.worker == Asleep && (s.state == STOPPING || s.frameAvailable) ==> SignalDue(s)
  }

  predicate FrameInv(s: Overlay) {
    && (!s.listening ==> !s.frameAvailable && !s.holder.ByCallback?)
    && (match s.worker
        case NoThread | WantsEntry | SetsUp | Aborts | AbortBroadcasts => !s.listening
        case SetsRunning | Announces | TestsLoop | Leaves => !s.frameAvailable
        case _ => true)
    && (!s.threadOk ==> !s.listening)
  }

  predicate StopInv(s: Overlay) {
    && (s.holder.ByStopper? || s.stops > 0 || s.state == STOPPING ==> s.starter.Returned?)
    && (s.holder == ByStopper(true) ==> s.state == STOPPING)
    && (s.state == STOPPING || (s.state == STOPPED && s.threadOk) ==> s.stops > 0)
    && (s.stops > 0 ==> s.state.STOPPING? || s.state.STOPPED?)
  }

  predicate Inv(s: Overlay) {
    MutexInv(s) && StarterInv(s) && WorkerInv(s) && NoLostWakeup(s) && FrameInv(s) && StopInv(s)
  }

  lemma MutexInvStep(s: Overlay, a: Action)
    requires Inv(s) && Enabled(s, a) && Disciplined(s, a)
    ensures MutexInv(Apply(s, a))
  {
    hide WorkerInv, NoLostWakeup, FrameInv, StopInv;
  }

  lemma StarterInvStep(s: Overlay, a: Action)
    requires Inv(s) && Enabled(s, a) && Disciplined(s, a)
    ensures StarterInv(Apply(s, a))
  {
    hide NoLostWakeup, FrameInv;
  }

  lemma WorkerInvStep(s: Overlay, a: Action)
    requires Inv(s) && Enabled(s, a) && Disciplined(s, a)
    ensures WorkerInv(Apply(s, a))
  {
    hide NoLostWakeup;
  }

  lemma NoLostWakeupStep(s: Overlay, a: Action)
    requires Inv(s) && Enabled(s, a) && Disciplined(s, a)
    ensures NoLostWakeup(Apply(s, a))
  {
  }

  lemma FrameInvStep(s: Overlay, a: Action)
    requires Inv(s) && Enabled(s, a) && Disciplined(s, a)
    ensures FrameInv(Apply(s, a))
  {
    hide NoLostWakeup, StopInv;
  }

  lemma StopInvStep(s: Overlay, a: Action)
    requires Inv(s) && Enabled(s, a) && Disciplined(s, a)
    ensures StopInv(Apply(s, a))
  {
    hide NoLostWakeup, FrameInv;
  }

  lemma InvStep(s: Overlay, a: Action)
    requires Inv(s) && Enabled(s, a) && Disciplined(s, a)
    ensures Inv(Apply(s, a))
  {
    MutexInvStep(s, a);
    StarterInvStep(s, a);
    WorkerInvStep(s, a);
    NoLostWakeupStep(s, a);
    FrameInvStep(s, a);
    StopInvStep(s, a);
  }

  // Every state of every disciplined run satisfies the invariant; in particular the worker never
  // sleeps through a stop or a flagged frame, and when it leaves its loop no flag is set.
  lemma {:induction false} InvHolds(s: Overlay, run: seq<Action>)
    requires Inv(s) && DisciplinedRun(s, run)
    ensures Runnable(s, run) && Inv(Exec(s, run))
    decreases run
  {
    if run != [] {
      InvStep(s, run[0]);
      InvHolds(Apply(s, run[0]), run[1..]);
    }
  }

  lemma {:induction false} HandshakeIsSafe(run: seq<Action>)
    requires DisciplinedRun(CONSTRUCTED, run)
    ensures Runnable(CONSTRUCTED, run)
    ensures var s := Exec(CONSTRUCTED, run);
            && (s.worker == Asleep && (s.state == STOPPING || s.frameAvailable) ==> SignalDue(s))
            && (s.worker == Leaves ==> !s.frameAvailable)
            && (s.starter == Sleeping && s.state != INIT ==> s.worker.AbortBroadcasts? || s.worker.Announces?)
  {
    InvHolds(CONSTRUCTED, run);
  }

  // A flag that is gone was taken down by a worker action that found it set, and so processed a frame.
  lemma {:induction false} OnlyTheWorkerClears(s: Overlay, run: seq<Action>) returns (k: nat)
    requires DisciplinedRun(s, run) && Runnable(s, run)
    requires s.frameAvailable && !Exec(s, run).frameAvailable
    ensures k < |run| && run[k] == WorkerFrame
    ensures Runnable(s, run[..k]) && Exec(s, run[..k]).frameAvailable
    decreases run
  {
    var s' := Apply(s, run[0]);
    if !s'.frameAvailable {
      k := 0;
    } else {
      k := OnlyTheWorkerClears(s', run[1..]);
      assert run[..k + 1][1..] == run[1..][..k];
      k := k + 1;
    }
  }

  // Whenever the worker leaves its loop, each frame that was announced before has been followed by the
  // processing of a frame.
  lemma AnnouncedFrameIsProcessed(s: Overlay, after: seq<Action>) returns (k: nat)
    requires Inv(s) && Enabled(s, CallbackFlag)
    requires DisciplinedRun(s, [CallbackFlag] + after) && Runnable(s, [CallbackFlag] + after)
    requires Exec(s, [CallbackFlag] + after).worker == Leaves
    ensures k < |after| && after[k] == WorkerFrame
    ensures var s' := Apply(s, CallbackFlag);
            Runnable(s', after[..k]) && Exec(s', after[..k]).frameAvailable
  {
    InvStep(s, CallbackFlag);
    assert ([CallbackFlag] + after)[1..] == after;
    InvHolds(Apply(s, CallbackFlag), after);
    k := OnlyTheWorkerClears(Apply(s, CallbackFlag), after);
  }

  // start() returns with RUNNING and success, or with STOPPED and an error, and nothing else.
  lemma {:induction false} StartReturns(run: seq<Action>)
    requires DisciplinedRun(CONSTRUCTED, run + [StarterCheck])
    ensures Runnable(CONSTRUCTED, run)
    ensures var s := Exec(CONSTRUCTED, run);
            && Enabled(s, StarterCheck)
            && var s' := Apply(s, StarterCheck);
               s'.starter.Returned? && s'.state == if s'.starter.ok then RUNNING else STOPPED
  {
    hide Inv, Enabled, Disciplined, Apply;
    RunPrefix(CONSTRUCTED, run, [StarterCheck]);
    ConstructedIsGood();
    InvHolds(CONSTRUCTED, run);
    assert DisciplinedRun(Exec(CONSTRUCTED, run), [StarterCheck]);
    CheckReturns(Exec(CONSTRUCTED, run));
  }

  lemma CheckReturns(s: Overlay)
    requires Inv(s) && Enabled(s, StarterCheck)
    ensures var s' := Apply(s, StarterCheck);
            s'.starter.Returned? && s'.state == if s'.starter.ok then RUNNING else STOPPED
  {
  }

  lemma ConstructedIsGood()
    ensures Inv(CONSTRUCTED)
  {
  }

  lemma {:induction false} RunPrefix(s: Overlay, run: seq<Action>, more: seq<Action>)
    requires DisciplinedRun(s, run + more)
    ensures DisciplinedRun(s, run) && Runnable(s, run) && DisciplinedRun(Exec(s, run), more)
    decreases run
  {
    if run == [] {
      assert run + more == more;
    } else {
      assert (run + more)[1..] == run[1..] + more;
      RunPrefix(Apply(s, run[0]), run[1..], more);
    }
  }

  // ---------------------------------------------------------------------------------------------
  // "States advance from left to right".

  // In a reachable state the only write that moves mState to the left is a stop() that comes after
  // the overlay thread has already finished.
  lemma LeftMove(s: Overlay, a: Action)
    requires Inv(s) && Enabled(s, a) && Disciplined(s, a)
    ensures Rank(Apply(s, a).state) < Rank(s.state) <==> a == StopSet && s.state == STOPPED
  {
  }

  predicate NeverMovesLeft(s: Overlay, run: seq<Action>)
    requires Runnable(s, run)
    decreases run
  {
    run == []
    || (Rank(s.state) <= Rank(Apply(s, run[0]).state) && NeverMovesLeft(Apply(s, run[0]), run[1..]))
  }

  predicate NoStopAfterStopped(s: Overlay, run: seq<Action>)
    requires Runnable(s, run)
    decreases run
  {
    run == []
    || (!(run[0] == StopSet && s.state == STOPPED) && NoStopAfterStopped(Apply(s, run[0]), run[1..]))
  }

  lemma {:induction false} StatesAdvanceIff(s: Overlay, run: seq<Action>)
    requires Inv(s) && DisciplinedRun(s, run) && Runnable(s, run)
    ensures NeverMovesLeft(s, run) <==> NoStopAfterStopped(s, run)
    decreases run
  {
    if run != [] {
      InvStep(s, run[0]);
      LeftMove(s, run[0]);
      StatesAdvanceIff(Apply(s, run[0]), run[1..]);
    }
  }

  function StopCount(run: seq<Action>): nat {
    if run == [] then 0 else (if run[0] == StopSet then 1 else 0) + StopCount(run[1..])
  }

  lemma {:induction false} ResultStays(s: Overlay, run: seq<Action>)
    requires Inv(s) && s.starter.Returned? && DisciplinedRun(s, run) && Runnable(s, run)
    ensures Exec(s, run).threadOk == s.threadOk
    decreases run
  {
    hide Inv, Enabled, Disciplined, Apply;
    if run != [] {
      InvStep(s, run[0]);
      ResultStaysStep(s, run[0]);
      ResultStays(Apply(s, run[0]), run[1..]);
    }
  }

  lemma ResultStaysStep(s: Overlay, a: Action)
    requires Inv(s) && s.starter.Returned? && Enabled(s, a)
    ensures Apply(s, a).starter == s.starter && Apply(s, a).threadOk == s.threadOk
  {
  }

  // The first stop() finds STOPPED only when start() has failed.
  lemma FirstStop(s: Overlay)
    requires Inv(s) && Enabled(s, StopSet) && s.stops == 0
    ensures s.starter.Returned? && (s.state == STOPPED <==> !s.threadOk)
  {
  }

  lemma StopsAreCounted(s: Overlay, a: Action)
    requires Enabled(s, a)
    ensures Apply(s, a).stops == s.stops + if a == StopSet then 1 else 0
  {
  }

  // A client that calls stop() at most once sees the state move left if and only if it does so after a
  // start() that failed.
  lemma {:induction false} OneStopAdvancesIff(s: Overlay, run: seq<Action>)
    requires Inv(s) && DisciplinedRun(s, run) && Runnable(s, run)
    requires s.stops + StopCount(run) <= 1
    ensures NeverMovesLeft(s, run) <==> StopCount(run) == 0 || Exec(s, run).threadOk
    decreases run
  {
    hide Inv, Enabled, Disciplined, Apply;
    if run != [] {
      InvStep(s, run[0]);
      LeftMove(s, run[0]);
      StopsAreCounted(s, run[0]);
      OneStopAdvancesIff(Apply(s, run[0]), run[1..]);
      if run[0] == StopSet {
        FirstStop(s);
        ResultStays(s, run);
      }
    }
  }

  // ---------------------------------------------------------------------------------------------
  // What the header promises and the code does not keep.

  // ~Overlay() asserts this.
  predicate MayBeDestroyed(s: Overlay) { s.state.UNINITIALIZED? || s.state.STOPPED? }

  // The header allows a stop() without a start(). An overlay that is never started may be destroyed
  // if and only if stop() was never called on it.
  lemma {:induction false} NeverStartedIff(run: seq<Action>)
    requires Runnable(CONSTRUCTED, run) && CallStart !in run
    ensures MayBeDestroyed(Exec(CONSTRUCTED, run)) <==> StopCount(run) == 0
  {
    OnlyStopsRun(CONSTRUCTED, run);
  }

  predicate NeverStarted(s: Overlay) {
    s.starter == NotCalled && s.worker == NoThread && !s.listening && !s.holder.ByCallback?
  }

  lemma {:induction false} OnlyStopsRun(s: Overlay, run: seq<Action>)
    requires NeverStarted(s) && Runnable(s, run) && CallStart !in run
    ensures Exec(s, run).state == if StopCount(run) == 0 then s.state else STOPPING
    decreases run
  {
    if run != [] {
      assert run[0] in run;
      OnlyStopsRun(Apply(s, run[0]), run[1..]);
    }
  }

  lemma {:induction false} StopsAfterDone(s: Overlay, run: seq<Action>)
    requires Inv(s) && s.worker == Done
    requires DisciplinedRun(s, run) && Runnable(s, run)
    ensures Exec(s, run).worker == Done
    ensures Exec(s, run).state == if StopCount(run) == 0 then s.state else STOPPING
    decreases run
  {
    if run != [] {
      InvStep(s, run[0]);
      assert Apply(s, run[0]).worker == Done;
      StopsAfterDone(Apply(s, run[0]), run[1..]);
    }
  }

  lemma DoneIsStoppedStep(s: Overlay, a: Action)
    requires Inv(s) && Enabled(s, a) && Disciplined(s, a) && (s.worker == Done ==> s.state == STOPPED)
    ensures a == StopSet && s.state == STOPPED ==> s.worker == Done
    ensures !(a == StopSet && s.state == STOPPED) && Apply(s, a).worker == Done ==> Apply(s, a).state == STOPPED
  {
    hide NoLostWakeup, FrameInv;
  }

  lemma {:induction false} DoneIsStoppedIff(s: Overlay, run: seq<Action>)
    requires Inv(s) && (s.worker == Done ==> s.state == STOPPED)
    requires DisciplinedRun(s, run) && Runnable(s, run) && Exec(s, run).worker == Done
    ensures Exec(s, run).state == STOPPED <==> NoStopAfterStopped(s, run)
    decreases run
  {
    hide Inv, Enabled, Disciplined, Apply;
    if run != [] {
      InvStep(s, run[0]);
      DoneIsStoppedStep(s, run[0]);
      if run[0] == StopSet && s.state == STOPPED {
        StopsAfterDone(s, run);
      } else {
        DoneIsStoppedIff(Apply(s, run[0]), run[1..]);
      }
    }
  }

  // Once the overlay thread has ended, the destructor's assertion holds exactly when no stop() has written
  // STOPPING over STOPPED, which is when the state has never moved left.
  lemma {:induction false} DestructorIff(run: seq<Action>)
    requires DisciplinedRun(CONSTRUCTED, run) && Runnable(CONSTRUCTED, run)
    requires Exec(CONSTRUCTED, run).worker == Done
    ensures MayBeDestroyed(Exec(CONSTRUCTED, run)) <==> NoStopAfterStopped(CONSTRUCTED, run)
    ensures MayBeDestroyed(Exec(CONSTRUCTED, run)) <==> NeverMovesLeft(CONSTRUCTED, run)
  {
    InvHolds(CONSTRUCTED, run);
    DoneIsStoppedIff(CONSTRUCTED, run);
    StatesAdvanceIff(CONSTRUCTED, run);
  }

  lemma {:induction false} RunAppend(s: Overlay, run: seq<Action>, a: Action)
    requires DisciplinedRun(s, run) && Runnable(s, run)
    requires Enabled(Exec(s, run), a) && Disciplined(Exec(s, run), a)
    ensures DisciplinedRun(s, run + [a]) && Runnable(s, run + [a])
    ensures Exec(s, run + [a]) == Apply(Exec(s, run), a)
    decreases run
  {
    if run == [] {
      assert Exec(Apply(s, a), []) == Apply(s, a);
    } else {
      assert (run + [a])[1..] == run[1..] + [a];
      RunAppend(Apply(s, run[0]), run[1..], a);
    }
  }

  ghost predicate Reachable(s: Overlay) {
    exists run :: DisciplinedRun(CONSTRUCTED, run) && Runnable(CONSTRUCTED, run) && Exec(CONSTRUCTED, run) == s
  }

  lemma Follow(s: Overlay, a: Action) returns (after: Overlay)
    requires Reachable(s) && Enabled(s, a) && Disciplined(s, a)
    ensures after == Apply(s, a) && Reachable(after)
  {
    var run :| DisciplinedRun(CONSTRUCTED, run) && Runnable(CONSTRUCTED, run) && Exec(CONSTRUCTED, run) == s;
    RunAppend(CONSTRUCTED, run, a);
    after := Apply(s, a);
  }

  const SERVED := CONSTRUCTED.(state := RUNNING, threadOk := true, listening := true,
                               starter := Returned(true), worker := Asleep)

  lemma ConstructedIsReachable()
    ensures Reachable(CONSTRUCTED)
  {
    assert Exec(CONSTRUCTED, []) == CONSTRUCTED;
  }

  const STARTING := CONSTRUCTED.(state := INIT, starter := Sleeping, worker := WantsEntry)

  lemma StartingIsReachable()
    ensures Reachable(STARTING)
  {
    ConstructedIsReachable();
    var s := CONSTRUCTED;
    s := Follow(s, CallStart);
    s := Follow(s, StarterLock);
    s := Follow(s, StarterRun);
    s := Follow(s, StarterInit);
    s := Follow(s, StarterTest);
  }

  const ANNOUNCED := STARTING.(state := RUNNING, threadOk := true, listening := true, holder := ByWorker,
                               starter := Woken, worker := TestsLoop)

  lemma AnnouncedIsReachable()
    ensures Reachable(ANNOUNCED)
  {
    StartingIsReachable();
    var s := STARTING;
    s := Follow(s, WorkerLock);
    s := Follow(s, WorkerSetup(true));
    s := Follow(s, WorkerRunning);
    s := Follow(s, WorkerAnnounce);
  }

  lemma ServedIsReachable()
    ensures Reachable(SERVED)
  {
    AnnouncedIsReachable();
    var s := ANNOUNCED;
    s := Follow(s, WorkerTest);
    s := Follow(s, StarterRelock);
    s := Follow(s, StarterTest);
    s := Follow(s, StarterCheck);
  }

  // A whole life of an overlay (start, one stop, the thread ends) followed by a second stop(): the
  // discipline allows it, and it moves the state from STOPPED back to STOPPING.
  lemma SecondStopMovesLeft()
    ensures exists s ::
              Reachable(s) && Enabled(s, StopSet) && Disciplined(s, StopSet)
              && s.state == STOPPED && Apply(s, StopSet).state == STOPPING
  {
    ServedIsReachable();
    var s := SERVED;
    s := Follow(s, StopLock);
    s := Follow(s, StopSet);
    s := Follow(s, StopSignal);
    s := Follow(s, WorkerRelock);
    s := Follow(s, WorkerFrame);
    s := Follow(s, WorkerTest);
    s := Follow(s, WorkerLeave);
    s := Follow(s, StopLock);
  }

  // ---------------------------------------------------------------------------------------------
  // Progress after stop().

  // Number of its own actions the worker still has to take once STOPPING is set.
  function Distance(pc: WorkerPc): nat {
    match pc
    case Asleep => 5
    case Awake => 4
    case ChecksFrame => 3
    case TestsLoop => 2
    case Leaves => 1
    case _ => 0
  }

  predicate IsWorkerAction(a: Action) {
    a.WorkerTest? || a.WorkerWake? || a.WorkerRelock? || a.WorkerFrame? || a.WorkerLeave?
  }

  // After a stop() of a running overlay: each action of the worker brings it closer to its end, no
  // other action takes it back, and unless it is done or a signal is due it can act as soon as the
  // mutex is free.
  lemma StopIsAnswered(s: Overlay, a: Action)
    requires Inv(s) && s.state == STOPPING && s.worker != Done
    requires Enabled(s, a) && Disciplined(s, a)
    ensures var s' := Apply(s, a);
            && (s'.state == STOPPING || s'.worker == Done)
            && Distance(s'.worker) <= Distance(s.worker)
            && (IsWorkerAction(a) ==> Distance(s'.worker) < Distance(s.worker))
    ensures !SignalDue(s) && (s.holder.Free? || s.holder.ByWorker?) ==>
              exists b | IsWorkerAction(b) && b != WorkerWake :: Enabled(s, b)
  {
    if !SignalDue(s) && (s.holder.Free? || s.holder.ByWorker?) {
      assert s.worker.TestsLoop? || s.worker.Awake? || s.worker.ChecksFrame? || s.worker.Leaves?;
      assert Enabled(s, WorkerTest) || Enabled(s, WorkerRelock) || Enabled(s, WorkerFrame)
          || Enabled(s, WorkerLeave);
    }
  }

  // Actions of the worker in a run.
  function WorkerActions(run: seq<Action>): nat {
    if run == [] then 0 else (if IsWorkerAction(run[0]) then 1 else 0) + WorkerActions(run[1..])
  }

  lemma DoneStays(s: Overlay, a: Action)
    requires Inv(s) && s.worker == Done && Enabled(s, a)
    ensures Apply(s, a).worker == Done && !IsWorkerAction(a)
  {
  }

  lemma OnTheWay(s: Overlay)
    requires Inv(s) && s.state == STOPPING && s.worker != Done
    ensures Distance(s.worker) > 0
  {
  }

  // From a stop() on, whatever else happens, the worker acts at most Distance times, and when it has
  // acted that often it is done.
  lemma {:induction false} StopEndsTheWorker(s: Overlay, run: seq<Action>)
    requires Inv(s) && (s.state == STOPPING || s.worker == Done)
    requires DisciplinedRun(s, run) && Runnable(s, run)
    ensures WorkerActions(run) + Distance(Exec(s, run).worker) <= Distance(s.worker) <= 5
    ensures WorkerActions(run) == Distance(s.worker) ==> Exec(s, run).worker == Done
    decreases run
  {
    hide Inv, Enabled, Disciplined, Apply;
    if s.worker != Done {
      OnTheWay(s);
    }
    if run != [] {
      var s' := Apply(s, run[0]);
      InvStep(s, run[0]);
      if s.worker != Done {
        StopIsAnswered(s, run[0]);
      } else {
        DoneStays(s, run[0]);
      }
      StopEndsTheWorker(s', run[1..]);
    }
  }

  // What a callback or a stopper that holds the mutex still has to do.
  function Owed(h: Holder): nat {
    match h
    case ByCallback(flagged) => if flagged then 1 else 2
    case ByStopper(written) => if written then 1 else 2
    case _ => 0
  }

  // The next action on the way to the worker's end.
  function Onward(s: Overlay): Action {
    match s.holder
    case ByCallback(flagged) => if flagged then CallbackSignal else CallbackFlag
    case ByStopper(written) => if written then StopSignal else StopSet
    case _ =>
      if s.worker.Awake? then WorkerRelock
      else if s.worker.ChecksFrame? then WorkerFrame
      else if s.worker.TestsLoop? then WorkerTest
      else WorkerLeave
  }

  lemma OnwardIsEnabled(s: Overlay)
    requires Inv(s) && s.state == STOPPING && s.worker != Done
    ensures Enabled(s, Onward(s)) && Disciplined(s, Onward(s))
    ensures var s' := Apply(s, Onward(s));
            && (s'.state == STOPPING || s'.worker == Done)
            && (Distance(s'.worker) < Distance(s.worker)
                || (Distance(s'.worker) == Distance(s.worker) && Owed(s'.holder) < Owed(s.holder)))
  {
  }

  // And it can get there from every state after a stop(), without any spurious wakeup.
  lemma {:induction false} StopCanEnd(s: Overlay) returns (run: seq<Action>)
    requires Inv(s) && s.state == STOPPING
    ensures DisciplinedRun(s, run) && Runnable(s, run) && WorkerWake !in run
    ensures Exec(s, run).worker == Done
    decreases Distance(s.worker), Owed(s.holder)
  {
    if s.worker == Done {
      run := [];
    } else {
      OnwardIsEnabled(s);
      InvStep(s, Onward(s));
      var s' := Apply(s, Onward(s));
      var rest := [];
      if s'.worker != Done {
        rest := StopCanEnd(s');
      }
      run := [Onward(s)] + rest;
      assert run[1..] == rest;
    }
  }
}
