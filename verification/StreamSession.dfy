/**
 Waiting for a job whose logs are streamed. Two worker goroutines each make one call, send
 its result and close their channel; a timer goroutine closes its channel when it ends; the
 main goroutine selects the first channel that is ready and then runs its deferred calls.
 The scheduler may interleave all of them with signals and cancellations in any order.
 */
module StreamSession {
  import opened Wrappers

  datatype Options = Options(waitTimeout: int, removeObject: bool)

  datatype WorkerName = PodWatcher | JobVerifier

  /** How far a worker is; its call's result is an error or None. */
  datatype Phase =
    | Working
    | Computed(result: Option<string>)
    | Sent(result: Option<string>)
    | Exited(result: Option<string>)

  /** A worker with its channel, which buffers `BUFFER` results. */
  datatype Worker = Worker(phase: Phase, buffer: seq<Option<string>>, closed: bool)

  const BUFFER := 1

  datatype Timer = NoTimer | Waiting | Ended

  datatype Case = OnSignal | OnTimeout | OnWorker(name: WorkerName)

  datatype Outcome =
    | Interrupted(signal: string, removed: bool)
    | TimedOut(removed: bool)
    | WatchFailed(error: string)
    | WatchEnded
    | VerifyFailed(error: string)
    | Finished

  /** The main goroutine; on its way out it has `deferred` calls left: stop signals, close their channel, cancel. */
  datatype Main = Selecting | Returning(source: Case, outcome: Outcome, deferred: nat)

  /** The channel of the signals; they are delivered while it is registered. */
  datatype SignalChannel = SignalChannel(registered: bool, buffer: seq<string>, closed: bool)

  /** What has happened outside: signals sent to the process, the deadline, the caller's cancellation. */
  datatype World = World(arrived: set<string>, deadlinePassed: bool, parentCancelled: bool)

  datatype State = State(
    main: Main,
    watcher: Worker,
    verifier: Worker,
    timer: Timer,
    signals: SignalChannel,
    world: World,
    cancelled: bool,          // by the main goroutine
    panicked: bool)           // a send on, or a second close of, a closed channel

  function Init(o: Options): State {
    var idle := Worker(Working, [], false);
    State(Selecting, idle, idle, if o.waitTimeout > 0 then Waiting else NoTimer,
          SignalChannel(true, [], false), World({}, false, false), false, false)
  }

  function Get(s: State, w: WorkerName): Worker {
    match w case PodWatcher => s.watcher case JobVerifier => s.verifier
  }

  // ---- steps ----

  datatype Step =
    | SignalArrives(signal: string)
    | ParentCancels
    | DeadlinePasses
    | CallReturns(name: WorkerName, result: Option<string>)
    | Send(name: WorkerName)
    | Close(name: WorkerName)
    | EndTimer
    | Receive(source: Case)
    | Defer

  /** Steps the code takes by itself; the others come from outside. */
  predicate IsOwn(step: Step) {
    step.Send? || step.Close? || step.EndTimer? || step.Receive? || step.Defer?
  }

  predicate Ready(s: State, source: Case) {
    match source
    case OnSignal => s.signals.buffer != [] || s.signals.closed
    case OnTimeout => s.timer == Ended
    case OnWorker(w) => Get(s, w).buffer != [] || Get(s, w).closed
  }

  predicate Enabled(s: State, step: Step) {
    match step
    case SignalArrives(_) => true
    case ParentCancels => true
    case DeadlinePasses => s.timer == Waiting
    case CallReturns(w, _) => Get(s, w).phase == Working
    case Send(w) => Get(s, w).phase.Computed? && (|Get(s, w).buffer| < BUFFER || Get(s, w).closed)
    case Close(w) => Get(s, w).phase.Sent?
    case EndTimer => s.timer == Waiting && (s.world.deadlinePassed || s.world.parentCancelled || s.cancelled)
    case Receive(source) => s.main == Selecting && Ready(s, source)
    case Defer => s.main.Returning? && s.main.deferred > 0
  }

  /** The first buffered value, or nil from a closed channel. */
  function Received(worker: Worker): Option<string> {
    if worker.buffer != [] then worker.buffer[0] else None
  }

  function WorkerOutcome(w: WorkerName, result: Option<string>): Outcome {
    match (w, result)
    case (PodWatcher, Some(error)) => WatchFailed(error)
    case (PodWatcher, None) => WatchEnded
    case (JobVerifier, Some(error)) => VerifyFailed(error)
    case (JobVerifier, None) => Finished
  }

  function OutcomeOf(o: Options, s: State, source: Case): Outcome {
    match source
    case OnSignal => Interrupted(if s.signals.buffer != [] then s.signals.buffer[0] else "", o.removeObject)
    case OnTimeout => TimedOut(o.removeObject)
    case OnWorker(w) => WorkerOutcome(w, Received(Get(s, w)))
  }

  function Taken<T>(buffer: seq<T>): seq<T> {
    if buffer == [] then [] else buffer[1..]
  }

  function NextMain(o: Options, s: State, step: Step): Main
    requires Enabled(s, step)
  {
    match step
    case Receive(source) => Returning(source, OutcomeOf(o, s, source), 3)
    case Defer => s.main.(deferred := s.main.deferred - 1)
    case _ => s.main
  }

  function NextWorker(w: WorkerName, worker: Worker, step: Step): Worker
    requires step == Send(w) ==> worker.phase.Computed?
    requires step == Close(w) ==> worker.phase.Sent?
  {
    match step
    case CallReturns(v, result) => if v == w then worker.(phase := Computed(result)) else worker
    case Send(v) =>
      if v == w && !worker.closed then
        worker.(phase := Sent(worker.phase.result), buffer := worker.buffer + [worker.phase.result])
      else worker
    case Close(v) => if v == w then worker.(phase := Exited(worker.phase.result), closed := true) else worker
    case Receive(source) => if source == OnWorker(w) then worker.(buffer := Taken(worker.buffer)) else worker
    case _ => worker
  }

  /** Signals are sent without blocking: one that finds the buffer full is dropped. */
  function NextSignals(main: Main, signals: SignalChannel, step: Step): SignalChannel {
    match step
    case SignalArrives(signal) =>
      if signals.registered && !signals.closed && |signals.buffer| < BUFFER then
        signals.(buffer := signals.buffer + [signal])
      else signals
    case Receive(source) => if source == OnSignal then signals.(buffer := Taken(signals.buffer)) else signals
    case Defer =>
      if main.Returning? && main.deferred == 3 then signals.(registered := false)
      else if main.Returning? && main.deferred == 2 then signals.(closed := true)
      else signals
    case _ => signals
  }

  function NextWorld(world: World, step: Step): World {
    match step
    case SignalArrives(signal) => world.(arrived := world.arrived + {signal})
    case ParentCancels => world.(parentCancelled := true)
    case DeadlinePasses => world.(deadlinePassed := true)
    case _ => world
  }

  /** A send on a closed channel, or closing it again. */
  predicate Panics(s: State, step: Step) {
    match step
    case SignalArrives(_) => s.signals.registered && s.signals.closed
    case Send(w) => Get(s, w).closed
    case Close(w) => Get(s, w).closed
    case Defer => s.main.Returning? && s.main.deferred == 2 && s.signals.closed
    case _ => false
  }

  /** One atomic action: what it does to each goroutine and its channel. */
  function Apply(o: Options, s: State, step: Step): State
    requires Enabled(s, step)
  {
    State(NextMain(o, s, step),
          NextWorker(PodWatcher, s.watcher, step),
          NextWorker(JobVerifier, s.verifier, step),
          if step == EndTimer then Ended else s.timer,
          NextSignals(s.main, s.signals, step),
          NextWorld(s.world, step),
          s.cancelled || (step == Defer && s.main.deferred == 1),
          s.panicked || Panics(s, step))
  }

  ghost predicate Runs(o: Options, s: State, steps: seq<Step>, end: State)
    decreases |steps|
  {
    if steps == [] then s == end
    else Enabled(s, steps[0]) && Runs(o, Apply(o, s, steps[0]), steps[1..], end)
  }

  // ---- the invariant ----

  /** The main goroutine has taken the worker's result. */
  predicate IsTaken(main: Main, w: WorkerName) {
    main.Returning? && main.source == OnWorker(w)
  }

  predicate HasSent(worker: Worker) {
    worker.phase.Sent? || worker.phase.Exited?
  }

  /** A worker's channel holds its result from the send until it is taken, and is closed at the end only. */
  predicate ChannelHolds(main: Main, w: WorkerName, worker: Worker) {
    && (worker.closed <==> worker.phase.Exited?)
    && worker.buffer == (if HasSent(worker) && !IsTaken(main, w) then [worker.phase.result] else [])
    && (IsTaken(main, w) ==> HasSent(worker) && main.outcome == WorkerOutcome(w, worker.phase.result))
  }

  predicate ChannelsHold(s: State) {
    ChannelHolds(s.main, PodWatcher, s.watcher) && ChannelHolds(s.main, JobVerifier, s.verifier)
  }

  predicate SignalsHold(o: Options, main: Main, signals: SignalChannel, arrived: set<string>) {
    && (signals.registered <==> main == Selecting || main.deferred == 3)
    && (signals.closed <==> main.Returning? && main.deferred <= 1)
    && |signals.buffer| <= BUFFER
    && (main == Selecting ==> (signals.buffer == [] <==> arrived == {}))
    && (forall signal :: signal in signals.buffer ==> signal in arrived)
    && (main.Returning? && main.source == OnSignal ==>
          main.outcome.Interrupted? && main.outcome.signal in arrived && main.outcome.removed == o.removeObject)
  }

  predicate TimerHolds(o: Options, s: State) {
    && (s.timer == NoTimer <==> o.waitTimeout <= 0)
    && (s.timer == Ended ==> s.world.deadlinePassed || s.world.parentCancelled || s.cancelled)
    && (s.main.Returning? && s.main.source == OnTimeout ==>
          && s.main.outcome == TimedOut(o.removeObject)
          && s.timer == Ended && (s.world.deadlinePassed || s.world.parentCancelled))
  }

  predicate DeferredHold(s: State) {
    && (s.main.Returning? ==> s.main.deferred <= 3)
    && (s.cancelled <==> s.main.Returning? && s.main.deferred == 0)
  }

  predicate Inv(o: Options, s: State) {
    && !s.panicked
    && DeferredHold(s)
    && ChannelsHold(s)
    && SignalsHold(o, s.main, s.signals, s.world.arrived)
    && TimerHolds(o, s)
  }

  lemma InitInv(o: Options)
    ensures Inv(o, Init(o))
  {
  }

  lemma StepChannel(o: Options, s: State, step: Step, w: WorkerName)
    requires ChannelHolds(s.main, w, Get(s, w)) && Enabled(s, step)
    ensures ChannelHolds(NextMain(o, s, step), w, NextWorker(w, Get(s, w), step))
  {
  }

  lemma StepSignals(o: Options, s: State, step: Step)
    requires SignalsHold(o, s.main, s.signals, s.world.arrived) && DeferredHold(s) && Enabled(s, step)
    ensures SignalsHold(o, NextMain(o, s, step), NextSignals(s.main, s.signals, step), NextWorld(s.world, step).arrived)
  {
  }

  lemma StepTimer(o: Options, s: State, step: Step)
    requires TimerHolds(o, s) && DeferredHold(s) && Enabled(s, step)
    ensures TimerHolds(o, Apply(o, s, step))
  {
  }

  lemma StepDeferred(o: Options, s: State, step: Step)
    requires DeferredHold(s) && Enabled(s, step)
    ensures DeferredHold(Apply(o, s, step))
  {
  }

  lemma StepNoPanic(o: Options, s: State, step: Step)
    requires Inv(o, s) && Enabled(s, step)
    ensures !Panics(s, step)
  {
  }

  lemma StepInv(o: Options, s: State, step: Step)
    requires Inv(o, s) && Enabled(s, step)
    ensures Inv(o, Apply(o, s, step))
  {
    StepChannel(o, s, step, PodWatcher);
    StepChannel(o, s, step, JobVerifier);
    StepSignals(o, s, step);
    StepTimer(o, s, step);
    StepDeferred(o, s, step);
    StepNoPanic(o, s, step);
  }

  lemma {:induction false} RunsInv(o: Options, s: State, steps: seq<Step>, end: State)
    requires Inv(o, s) && Runs(o, s, steps, end)
    ensures Inv(o, end)
    decreases |steps|
  {
    if steps != [] {
      StepInv(o, s, steps[0]);
      RunsInv(o, Apply(o, s, steps[0]), steps[1..], end);
    }
  }

  // ---- what the invariant gives ----

  /** The worker's call has returned `result`. */
  predicate CallResult(s: State, w: WorkerName, result: Option<string>) {
    Get(s, w).phase != Working && Get(s, w).phase.result == result
  }

  /** What a report says has happened. */
  predicate IsTrue(o: Options, s: State, outcome: Outcome) {
    match outcome
    case Interrupted(signal, removed) => signal in s.world.arrived && removed == o.removeObject
    case TimedOut(removed) =>
      o.waitTimeout > 0 && (s.world.deadlinePassed || s.world.parentCancelled) && removed == o.removeObject
    case WatchFailed(error) => CallResult(s, PodWatcher, Some(error))
    case WatchEnded => CallResult(s, PodWatcher, None)
    case VerifyFailed(error) => CallResult(s, JobVerifier, Some(error))
    case Finished => CallResult(s, JobVerifier, None)
  }

  /** Over every schedule the report is true: a closed channel is never mistaken for a result. */
  lemma ReportIsTrue(o: Options, steps: seq<Step>, end: State)
    requires Runs(o, Init(o), steps, end)
    ensures end.main.Returning? ==> IsTrue(o, end, end.main.outcome)
    ensures !end.panicked
  {
    InitInv(o);
    RunsInv(o, Init(o), steps, end);
    if end.main.Returning? && end.main.source.OnWorker? {
      var w := end.main.source.name;
      assert ChannelHolds(end.main, w, Get(end, w));
    }
  }

  /** A run reports a timeout before the deadline. */
  ghost predicate EarlyTimeout(o: Options, steps: seq<Step>, end: State) {
    && Runs(o, Init(o), steps, end)
    && end.main.Returning? && end.main.outcome.TimedOut? && !end.world.deadlinePassed
  }

  /** A timeout can be reported before the deadline exactly when the caller may cancel and there is a timer. */
  lemma TimeoutBeforeDeadline(o: Options, callerCancels: bool)
    ensures (exists steps, end :: EarlyTimeout(o, steps, end) && end.world.parentCancelled == callerCancels)
            <==> callerCancels && o.waitTimeout > 0
  {
    forall steps, end | EarlyTimeout(o, steps, end) ensures end.world.parentCancelled && o.waitTimeout > 0 {
      ReportIsTrue(o, steps, end);
    }
    if callerCancels && o.waitTimeout > 0 {
      CancelledRun(o);
    }
  }

  lemma CancelledRun(o: Options)
    requires o.waitTimeout > 0
    ensures exists steps, end :: EarlyTimeout(o, steps, end) && end.world.parentCancelled
  {
    var s0 := Init(o);
    var s1 := Apply(o, s0, ParentCancels);
    var s2 := Apply(o, s1, EndTimer);
    var s3 := Apply(o, s2, Receive(OnTimeout));
    assert Runs(o, s3, [], s3);
    RunsCons(o, s2, Receive(OnTimeout), [], s3);
    RunsCons(o, s1, EndTimer, [Receive(OnTimeout)], s3);
    RunsCons(o, s0, ParentCancels, [EndTimer] + [Receive(OnTimeout)], s3);
    assert EarlyTimeout(o, [ParentCancels] + ([EndTimer] + [Receive(OnTimeout)]), s3);
  }

  lemma RunsCons(o: Options, s: State, step: Step, rest: seq<Step>, end: State)
    requires Enabled(s, step) && Runs(o, Apply(o, s, step), rest, end)
    ensures Runs(o, s, [step] + rest, end)
  {
    assert ([step] + rest)[1..] == rest;
  }

  /** Both workers still wait for their calls, no signal has arrived, and no timer has a reason to end. */
  predicate NothingHappened(s: State) {
    && s.watcher.phase == Working && s.verifier.phase == Working
    && s.world.arrived == {}
    && (s.timer == NoTimer || (s.timer == Waiting && !s.world.deadlinePassed && !s.world.parentCancelled))
  }

  predicate IsOver(s: State, w: WorkerName) {
    Get(s, w).phase == Working || Get(s, w).phase.Exited?
  }

  /** The main goroutine is out, and no goroutine is left but one still in its call. */
  predicate AllOver(s: State) {
    && s.main.Returning? && s.main.deferred == 0
    && s.timer != Waiting && IsOver(s, PodWatcher) && IsOver(s, JobVerifier)
  }

  /**
   Nobody is stuck and nothing leaks: when the code can take no step of its own, either
   nothing has happened yet, or everything is over.
   */
  lemma StuckOnlyWhenWaiting(o: Options, s: State)
    requires Inv(o, s)
    requires forall step :: IsOwn(step) ==> !Enabled(s, step)
    ensures (s.main == Selecting && NothingHappened(s)) || AllOver(s)
  {
    assert !Enabled(s, Receive(OnSignal)) && !Enabled(s, Receive(OnTimeout));
    assert !Enabled(s, Receive(OnWorker(PodWatcher))) && !Enabled(s, Receive(OnWorker(JobVerifier)));
    assert !Enabled(s, Defer) && !Enabled(s, EndTimer);
    StuckWorker(s, PodWatcher);
    StuckWorker(s, JobVerifier);
  }

  lemma StuckWorker(s: State, w: WorkerName)
    requires ChannelHolds(s.main, w, Get(s, w))
    requires !Enabled(s, Send(w)) && !Enabled(s, Close(w))
    ensures IsOver(s, w)
    ensures s.main == Selecting && !Ready(s, OnWorker(w)) ==> Get(s, w).phase == Working
  {
  }

  // ---- the code's own steps are bounded ----

  function PhaseSteps(phase: Phase): nat {
    match phase case Working => 2 case Computed(_) => 2 case Sent(_) => 1 case Exited(_) => 0
  }

  function OwnSteps(s: State): nat {
    (match s.main case Selecting => 4 case Returning(_, _, deferred) => deferred)
    + PhaseSteps(s.watcher.phase) + PhaseSteps(s.verifier.phase)
    + if s.timer == Waiting then 1 else 0
  }

  function CountOwn(steps: seq<Step>): nat {
    if steps == [] then 0 else (if IsOwn(steps[0]) then 1 else 0) + CountOwn(steps[1..])
  }

  lemma StepBudget(o: Options, s: State, step: Step)
    requires DeferredHold(s) && Enabled(s, step) && !Apply(o, s, step).panicked
    ensures OwnSteps(Apply(o, s, step)) + (if IsOwn(step) then 1 else 0) <= OwnSteps(s)
  {
  }

  /** However many signals and cancellations arrive, the code takes at most nine steps of its own. */
  lemma {:induction false} OwnStepsBounded(o: Options, s: State, steps: seq<Step>, end: State)
    requires Inv(o, s) && Runs(o, s, steps, end)
    ensures CountOwn(steps) + OwnSteps(end) <= OwnSteps(s) <= 9
    decreases |steps|
  {
    if steps != [] {
      StepInv(o, s, steps[0]);
      StepBudget(o, s, steps[0]);
      OwnStepsBounded(o, Apply(o, s, steps[0]), steps[1..], end);
    }
  }
}
