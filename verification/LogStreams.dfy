/**
 Streaming the logs of a job's pods. The watch loop starts a goroutine per qualifying pod
 event; the goroutines race for the pod's name in a shared map, and the one that stores it
 starts a goroutine per container. The scheduler may interleave all of them in any order.
 */
module LogStreams {
  import opened Wrappers

  const INIT_CONTAINER := "slurm-init-env"

  datatype Phase = Pending | Running | Succeeded | Failed | Unknown
  datatype EventKind = Added | Modified | Deleted | Bookmark | Error

  datatype Pod = Pod(name: string, phase: Phase, containers: seq<string>)

  /** A watch event; the object is a pod or something else. */
  datatype Event = Event(kind: EventKind, pod: Option<Pod>)

  /** What the watch delivers, and the containers the user asked for. */
  datatype Watch = Watch(events: seq<Event>, streamContainers: seq<string>)

  predicate Qualifies(e: Event) {
    && e.pod.Some?
    && (e.kind == Added || e.kind == Modified)
    && (e.pod.value.phase == Running || e.pod.value.phase == Succeeded || e.pod.value.phase == Failed)
  }

  predicate IsEligible(w: Watch, container: string) {
    container != INIT_CONTAINER && (w.streamContainers != [] ==> container in w.streamContainers)
  }

  // ---- states ----

  /** A goroutine of streamLogsFromPod: not yet run, in its loop, or done. */
  datatype Status = Created | Looping(index: nat) | Done(winner: bool)

  /** A container stream: the event with the pod snapshot, and the container's position in it. */
  datatype Stream = Stream(event: nat, index: nat)

  datatype State = State(
    next: nat,                   // events delivered so far
    routines: map<nat, Status>,  // the goroutine started for an event
    active: set<string>,         // activeStreams
    waiting: multiset<Stream>,   // container goroutines that have not run yet
    started: seq<Stream>)        // container streams, in the order they started

  const INIT := State(0, map[], {}, multiset{}, [])

  predicate IsServed(w: Watch, e: nat) {
    e < |w.events| && Qualifies(w.events[e])
  }

  function PodOf(w: Watch, e: nat): Pod
    requires IsServed(w, e)
  {
    w.events[e].pod.value
  }

  // ---- steps ----

  datatype Step = Deliver | Claim(event: nat) | Iterate(event: nat) | Start(stream: Stream)

  predicate Enabled(w: Watch, s: State, step: Step) {
    match step
    case Deliver => s.next < |w.events|
    case Claim(e) => IsServed(w, e) && e in s.routines && s.routines[e] == Created
    case Iterate(e) => IsServed(w, e) && e in s.routines && s.routines[e].Looping?
    case Start(stream) => stream in s.waiting
  }

  /** One atomic action; `LoadOrStore` is the whole of a Claim. */
  function Apply(w: Watch, s: State, step: Step): State
    requires Enabled(w, s, step)
  {
    match step
    case Deliver =>
      s.(next := s.next + 1,
         routines := if Qualifies(w.events[s.next]) then s.routines[s.next := Created] else s.routines)
    case Claim(e) =>
      var name := PodOf(w, e).name;
      if name in s.active then s.(routines := s.routines[e := Done(false)])
      else s.(routines := s.routines[e := Looping(0)], active := s.active + {name})
    case Iterate(e) =>
      var i, containers := s.routines[e].index, PodOf(w, e).containers;
      if i >= |containers| then s.(routines := s.routines[e := Done(true)])
      else
        s.(routines := s.routines[e := Looping(i + 1)],
           waiting := if IsEligible(w, containers[i]) then s.waiting + multiset{Stream(e, i)} else s.waiting)
    case Start(stream) =>
      s.(waiting := s.waiting - multiset{stream}, started := s.started + [stream])
  }

  /** A schedule: the steps taken one after the other from `s`. */
  ghost predicate Runs(w: Watch, s: State, steps: seq<Step>, end: State)
    decreases |steps|
  {
    if steps == [] then s == end
    else Enabled(w, s, steps[0]) && Runs(w, Apply(w, s, steps[0]), steps[1..], end)
  }

  /** Nothing is left to do. */
  ghost predicate Quiescent(w: Watch, s: State) {
    && s.next >= |w.events|
    && (forall e :: e in s.routines ==> s.routines[e].Done?)
    && s.waiting == multiset{}
  }

  // ---- the invariant ----

  predicate IsWinner(status: Status) {
    status.Looping? || (status.Done? && status.winner)
  }

  /** The goroutine of event `e` has passed position `i` of its loop. */
  predicate Passed(w: Watch, e: nat, status: Status, i: nat)
    requires IsServed(w, e)
  {
    match status
    case Created => false
    case Looping(j) => i < j
    case Done(winner) => winner && i < |PodOf(w, e).containers|
  }

  predicate EligibleAt(w: Watch, stream: Stream) {
    && IsServed(w, stream.event)
    && stream.index < |PodOf(w, stream.event).containers|
    && IsEligible(w, PodOf(w, stream.event).containers[stream.index])
  }

  /** Every qualifying event delivered so far has its goroutine, and no other has. */
  ghost predicate Served(w: Watch, s: State) {
    && s.next <= |w.events|
    && (forall e: nat :: e in s.routines <==> e < s.next && IsServed(w, e))
    && (forall e: nat :: e in s.routines && s.routines[e].Looping? ==>
          s.routines[e].index <= |PodOf(w, e).containers|)
  }

  ghost predicate Wins(w: Watch, s: State, e: nat, name: string) {
    e in s.routines && IsServed(w, e) && IsWinner(s.routines[e]) && PodOf(w, e).name == name
  }

  ghost predicate WinnersActive(w: Watch, s: State) {
    forall e, name :: Wins(w, s, e, name) ==> name in s.active
  }

  ghost predicate ActiveWon(w: Watch, s: State) {
    forall name :: name in s.active ==> exists e :: Wins(w, s, e, name)
  }

  ghost predicate OneWinner(w: Watch, s: State) {
    forall e, f, name :: Wins(w, s, e, name) && Wins(w, s, f, name) ==> e == f
  }

  ghost predicate DoneActive(w: Watch, s: State) {
    forall e: nat :: e in s.routines && IsServed(w, e) && s.routines[e].Done? ==> PodOf(w, e).name in s.active
  }

  /** A pod name is in the map exactly when one goroutine has won it. */
  ghost predicate NamesWon(w: Watch, s: State) {
    WinnersActive(w, s) && ActiveWon(w, s) && OneWinner(w, s) && DoneActive(w, s)
  }

  /** The stream's container goroutine has been started by the goroutine of its event. */
  ghost predicate Spawned(w: Watch, s: State, stream: Stream) {
    && EligibleAt(w, stream)
    && stream.event in s.routines
    && Passed(w, stream.event, s.routines[stream.event], stream.index)
  }

  /** How often the stream is waiting or has started. */
  ghost function Count(s: State, stream: Stream): nat {
    s.waiting[stream] + multiset(s.started)[stream]
  }

  /** Waiting and started streams together are the spawned ones, each once. */
  ghost predicate StreamsCounted(w: Watch, s: State) {
    forall stream: Stream :: Count(s, stream) == if Spawned(w, s, stream) then 1 else 0
  }

  ghost predicate Inv(w: Watch, s: State) {
    Served(w, s) && NamesWon(w, s) && StreamsCounted(w, s)
  }

  lemma InitInv(w: Watch)
    ensures Inv(w, INIT)
  {
  }

  // ---- every step keeps the invariant ----

  lemma StepServed(w: Watch, s: State, step: Step)
    requires Served(w, s) && Enabled(w, s, step)
    ensures Served(w, Apply(w, s, step))
  {
  }

  /** Steps that neither claim nor finish leave the winners as they are. */
  lemma WinsSame(w: Watch, s: State, step: Step, e: nat, name: string)
    requires Served(w, s) && Enabled(w, s, step)
    ensures Wins(w, Apply(w, s, step), e, name) <==>
            || Wins(w, s, e, name)
            || (step == Claim(e) && PodOf(w, e).name == name && name !in s.active)
  {
  }

  lemma StepWinners(w: Watch, s: State, step: Step)
    requires Served(w, s) && WinnersActive(w, s) && OneWinner(w, s) && Enabled(w, s, step)
    ensures WinnersActive(w, Apply(w, s, step)) && OneWinner(w, Apply(w, s, step))
  {
    var t := Apply(w, s, step);
    forall e, name | Wins(w, t, e, name) ensures name in t.active {
      WinsSame(w, s, step, e, name);
    }
    forall e, f, name | Wins(w, t, e, name) && Wins(w, t, f, name) ensures e == f {
      WinsSame(w, s, step, e, name);
      WinsSame(w, s, step, f, name);
    }
  }

  lemma StepActive(w: Watch, s: State, step: Step)
    requires Served(w, s) && ActiveWon(w, s) && Enabled(w, s, step)
    ensures ActiveWon(w, Apply(w, s, step))
  {
    var t := Apply(w, s, step);
    forall name | name in t.active ensures exists e :: Wins(w, t, e, name) {
      if name in s.active {
        var e :| Wins(w, s, e, name);
        WinsSame(w, s, step, e, name);
      } else {
        assert step.Claim? && Wins(w, t, step.event, name);
      }
    }
  }

  lemma StepDone(w: Watch, s: State, step: Step)
    requires Served(w, s) && WinnersActive(w, s) && DoneActive(w, s) && Enabled(w, s, step)
    ensures DoneActive(w, Apply(w, s, step))
  {
    if step.Iterate? {
      assert Wins(w, s, step.event, PodOf(w, step.event).name);
    }
  }

  lemma StepNamesWon(w: Watch, s: State, step: Step)
    requires Served(w, s) && NamesWon(w, s) && Enabled(w, s, step)
    ensures NamesWon(w, Apply(w, s, step))
  {
    StepWinners(w, s, step);
    StepActive(w, s, step);
    StepDone(w, s, step);
  }

  lemma StepSpawned(w: Watch, s: State, step: Step, stream: Stream)
    requires Served(w, s) && Enabled(w, s, step)
    ensures Spawned(w, Apply(w, s, step), stream) <==>
            || Spawned(w, s, stream)
            || (step == Iterate(stream.event) && s.routines[stream.event] == Looping(stream.index) && EligibleAt(w, stream))
  {
  }

  lemma StepStreamsCounted(w: Watch, s: State, step: Step)
    requires Served(w, s) && StreamsCounted(w, s) && Enabled(w, s, step)
    ensures StreamsCounted(w, Apply(w, s, step))
  {
    var t := Apply(w, s, step);
    forall stream: Stream ensures Count(t, stream) == if Spawned(w, t, stream) then 1 else 0 {
      StepSpawned(w, s, step, stream);
      assert Count(s, stream) == if Spawned(w, s, stream) then 1 else 0;
      StepCount(w, s, step, stream);
    }
  }

  /** A step adds a stream only when a loop passes it, and starting a stream only moves it. */
  lemma StepCount(w: Watch, s: State, step: Step, stream: Stream)
    requires Enabled(w, s, step)
    ensures Count(Apply(w, s, step), stream) == Count(s, stream) +
            if step == Iterate(stream.event) && s.routines[stream.event] == Looping(stream.index) && EligibleAt(w, stream)
            then 1 else 0
  {
  }

  lemma StepInv(w: Watch, s: State, step: Step)
    requires Inv(w, s) && Enabled(w, s, step)
    ensures Inv(w, Apply(w, s, step))
  {
    StepServed(w, s, step);
    StepNamesWon(w, s, step);
    StepStreamsCounted(w, s, step);
  }

  lemma {:induction false} RunsInv(w: Watch, s: State, steps: seq<Step>, end: State)
    requires Inv(w, s) && Runs(w, s, steps, end)
    ensures Inv(w, end)
    decreases |steps|
  {
    if steps != [] {
      StepInv(w, s, steps[0]);
      RunsInv(w, Apply(w, s, steps[0]), steps[1..], end);
    }
  }

  // ---- what the invariant gives ----

  function PodName(w: Watch, stream: Stream): string
    requires IsServed(w, stream.event)
  {
    PodOf(w, stream.event).name
  }

  /**
   At most once, over every schedule: two started streams never share a pod name and a
   container position, and no stream is for the init container or an unselected one.
   */
  lemma AtMostOnce(w: Watch, steps: seq<Step>, end: State, i: nat, j: nat)
    requires Runs(w, INIT, steps, end) && i < j < |end.started|
    ensures EligibleAt(w, end.started[i]) && EligibleAt(w, end.started[j])
    ensures PodName(w, end.started[i]) != PodName(w, end.started[j]) || end.started[i].index != end.started[j].index
  {
    InitInv(w);
    RunsInv(w, INIT, steps, end);
    var a, b := end.started[i], end.started[j];
    StartedSpawned(w, end, i);
    StartedSpawned(w, end, j);
    assert Wins(w, end, a.event, PodName(w, a)) && Wins(w, end, b.event, PodName(w, b));
    if a == b {
      CountTwice(end.started, i, j);
    }
  }

  lemma StartedSpawned(w: Watch, s: State, i: nat)
    requires Inv(w, s) && i < |s.started|
    ensures Spawned(w, s, s.started[i])
  {
    var stream := s.started[i];
    assert stream in multiset(s.started);
    assert Count(s, stream) == if Spawned(w, s, stream) then 1 else 0;
  }

  lemma CountTwice(s: seq<Stream>, i: nat, j: nat)
    requires i < j < |s| && s[i] == s[j]
    ensures multiset(s)[s[i]] >= 2
  {
    assert s == s[..j] + s[j..];
    assert s[i] in s[..j] && s[j] in s[j..];
    assert s[i] in multiset(s[..j]) && s[j] in multiset(s[j..]);
  }

  /** The streams of one event that are due: its eligible containers. */
  ghost predicate StreamsOf(w: Watch, s: State, e: nat)
    requires IsServed(w, e)
  {
    forall i: nat :: Stream(e, i) in s.started <==> EligibleAt(w, Stream(e, i))
  }

  /** The pod is streamed from the snapshot of event `winner`, and from no other. */
  ghost predicate StreamedFrom(w: Watch, s: State, name: string, winner: nat) {
    && IsServed(w, winner) && PodOf(w, winner).name == name
    && StreamsOf(w, s, winner)
    && forall stream: Stream ::
         stream in s.started && IsServed(w, stream.event) && PodName(w, stream) == name ==> stream.event == winner
  }

  /**
   Exactly once, when everything has run: each pod with a qualifying event has one event
   whose snapshot it is streamed from, every eligible container of that snapshot has been
   started, and nothing else has been started for that pod name.
   */
  lemma ExactlyOnce(w: Watch, steps: seq<Step>, end: State, e: nat)
    requires Runs(w, INIT, steps, end) && Quiescent(w, end)
    requires IsServed(w, e)
    ensures exists winner :: StreamedFrom(w, end, PodOf(w, e).name, winner)
  {
    InitInv(w);
    RunsInv(w, INIT, steps, end);
    var name := PodOf(w, e).name;
    assert e in end.routines && end.routines[e].Done?;
    var winner :| Wins(w, end, winner, name);
    forall i: nat ensures Stream(winner, i) in end.started <==> EligibleAt(w, Stream(winner, i)) {
      QuiescentStarted(w, end, Stream(winner, i));
    }
    forall stream | stream in end.started && IsServed(w, stream.event) && PodName(w, stream) == name
      ensures stream.event == winner
    {
      var i :| 0 <= i < |end.started| && end.started[i] == stream;
      StartedSpawned(w, end, i);
      assert Wins(w, end, stream.event, name);
    }
    assert StreamedFrom(w, end, name, winner);
  }

  /** An event that shows a pod with logs. */
  predicate ShowsLogs(e: Event) {
    && e.pod.Some?
    && (e.kind == Added || e.kind == Modified)
    && (e.pod.value.phase == Running || e.pod.value.phase == Succeeded || e.pod.value.phase == Failed)
  }

  /** The streams of the pod `name` are those of event `f`: every container the user asked for. */
  ghost predicate StreamedAsAsked(w: Watch, s: State, name: string, f: nat) {
    && f < |w.events| && ShowsLogs(w.events[f]) && w.events[f].pod.value.name == name
    && (forall i: nat :: Stream(f, i) in s.started <==>
          var containers := w.events[f].pod.value.containers;
          && i < |containers| && containers[i] != "slurm-init-env"
          && (w.streamContainers == [] || containers[i] in w.streamContainers))
    && (forall stream :: stream in s.started ==> stream.event < |w.events| && ShowsLogs(w.events[stream.event]))
    && (forall stream :: stream in s.started && w.events[stream.event].pod.value.name == name ==> stream.event == f)
  }

  /**
   What the user sees, once everything has run: a pod that was added or modified while it was
   running or had ended is streamed from one of its events. Without a selection that is every
   container but the init container, with one every selected container.
   */
  lemma StreamedContainers(w: Watch, steps: seq<Step>, end: State, e: nat)
    requires Runs(w, INIT, steps, end) && Quiescent(w, end)
    requires e < |w.events| && ShowsLogs(w.events[e])
    ensures exists f :: StreamedAsAsked(w, end, w.events[e].pod.value.name, f)
  {
    ExactlyOnce(w, steps, end, e);
    var name := w.events[e].pod.value.name;
    var f :| StreamedFrom(w, end, name, f);
    InitInv(w);
    RunsInv(w, INIT, steps, end);
    forall stream | stream in end.started ensures IsServed(w, stream.event) {
      var i :| 0 <= i < |end.started| && end.started[i] == stream;
      StartedSpawned(w, end, i);
    }
    assert StreamedAsAsked(w, end, name, f);
  }

  lemma QuiescentStarted(w: Watch, s: State, stream: Stream)
    requires Inv(w, s) && Quiescent(w, s)
    requires stream.event in s.routines && s.routines[stream.event] == Done(true)
    ensures stream in s.started <==> EligibleAt(w, stream)
  {
    assert Count(s, stream) == if Spawned(w, s, stream) then 1 else 0;
    assert stream in s.started <==> stream in multiset(s.started);
  }

  /** No schedule gets stuck: until everything has run some step is possible. */
  lemma NoDeadlock(w: Watch, s: State)
    requires Inv(w, s) && !Quiescent(w, s)
    ensures exists step :: Enabled(w, s, step)
  {
    if s.next < |w.events| {
      assert Enabled(w, s, Deliver);
    } else if s.waiting != multiset{} {
      var stream :| stream in s.waiting;
      assert Enabled(w, s, Start(stream));
    } else {
      var e :| e in s.routines && !s.routines[e].Done?;
      assert Enabled(w, s, if s.routines[e] == Created then Claim(e) else Iterate(e));
    }
  }

  // ---- every schedule ends ----

  /** Steps that event `e` can still cause, counting two per loop position. */
  function Remaining(w: Watch, s: State, e: nat): nat
    requires e < |w.events|
  {
    if e >= s.next then if Qualifies(w.events[e]) then 2 * |PodOf(w, e).containers| + 3 else 1
    else if e in s.routines && IsServed(w, e) then
      var n := |PodOf(w, e).containers|;
      match s.routines[e]
      case Created => 2 * n + 2
      case Looping(i) => if i <= n then 2 * (n - i) + 1 else 0
      case Done(_) => 0
    else 0
  }

  function RemainingUpTo(w: Watch, s: State, k: nat): nat
    requires k <= |w.events|
  {
    if k == 0 then 0 else RemainingUpTo(w, s, k - 1) + Remaining(w, s, k - 1)
  }

  ghost function Measure(w: Watch, s: State): nat {
    RemainingUpTo(w, s, |w.events|) + |s.waiting|
  }

  lemma {:induction false} RemainingChange(w: Watch, s: State, t: State, e: nat, k: nat)
    requires k <= |w.events| && e < |w.events|
    requires forall f: nat :: f < |w.events| && f != e ==> Remaining(w, t, f) == Remaining(w, s, f)
    ensures RemainingUpTo(w, t, k) - RemainingUpTo(w, s, k) ==
            if e < k then Remaining(w, t, e) - Remaining(w, s, e) else 0
  {
    if k > 0 {
      RemainingChange(w, s, t, e, k - 1);
    }
  }

  lemma StepDecreases(w: Watch, s: State, step: Step)
    requires Served(w, s) && Enabled(w, s, step)
    ensures Measure(w, Apply(w, s, step)) < Measure(w, s)
  {
    var t := Apply(w, s, step);
    if step.Start? {
      forall k: nat | k <= |w.events| ensures RemainingUpTo(w, t, k) == RemainingUpTo(w, s, k) {
        SameRemaining(w, s, t, k);
      }
    } else {
      var e := match step case Deliver => s.next case Claim(e) => e case Iterate(e) => e case Start(stream) => 0;
      RemainingChange(w, s, t, e, |w.events|);
    }
  }

  lemma {:induction false} SameRemaining(w: Watch, s: State, t: State, k: nat)
    requires k <= |w.events| && s.next == t.next && s.routines == t.routines
    ensures RemainingUpTo(w, t, k) == RemainingUpTo(w, s, k)
  {
    if k > 0 {
      SameRemaining(w, s, t, k - 1);
    }
  }

  /** No schedule is longer than the measure of the state it starts from. */
  lemma {:induction false} SchedulesEnd(w: Watch, s: State, steps: seq<Step>, end: State)
    requires Served(w, s) && Runs(w, s, steps, end)
    ensures |steps| + Measure(w, end) <= Measure(w, s)
    decreases |steps|
  {
    if steps != [] {
      StepDecreases(w, s, steps[0]);
      StepServed(w, s, steps[0]);
      SchedulesEnd(w, Apply(w, s, steps[0]), steps[1..], end);
    }
  }
}
