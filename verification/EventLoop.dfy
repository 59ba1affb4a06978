/** Stopping the event loop: every interleaving of the loop, the ticker, posters and the caller of `QF_stop`. */
module EventLoop {

  // Who runs the code: an event handler in the loop thread, the tick callback, or some other thread.
  datatype Caller = InDispatch | InTick | Outside

  // Where the loop thread is. It holds the mutex at Testing, Choosing, Retiring and Checking.
  datatype LoopAt =
    | Testing             // about to test the running flag
    | Choosing            // the flag was set: about to look at the ready set
    | Fetching(p: nat)    // p was chosen, mutex released, about to take an event from its queue
    | Dispatching(p: nat) // an event of p is being handled, mutex released
    | Relocking(p: nat)   // the handler returned, mutex wanted
    | Retiring(p: nat)    // about to drop p if its queue is empty
    | Checking            // about to test for an empty ready set before waiting
    | Waiting             // in the condition wait, mutex released
    | Waking              // woken, mutex wanted
    | Left                // out of the loop, about to join the ticker
    | Ended               // mutex and condition variable destroyed

  datatype TickerAt = TickTesting | Ticking | TickerEnded

  // `QF_stop`: not called, flag cleared, marker inserted and signalled.
  datatype StopAt = NotCalled | FlagCleared(who: Caller) | Stopped

  const MARKER := 1

  datatype State = State(
    running: bool, ready: set<nat>, queues: map<nat, nat>, signalled: bool,
    loop: LoopAt, ticker: TickerAt, stop: StopAt,
    usedAfterDestroy: bool)

  datatype Step =
    | LoopStep
    | SpuriousWake
    | Post(p: nat, who: Caller)
    | TickerStep
    | StopStore(who: Caller)
    | StopInsert

  function Queued(s: State, p: nat): nat {
    if p in s.queues then s.queues[p] else 0
  }

  // The loop thread owns the mutex.
  predicate Held(s: State) {
    s.loop.Testing? || s.loop.Choosing? || s.loop.Retiring? || s.loop.Checking?
  }

  predicate MayRun(s: State, who: Caller) {
    match who
    case InDispatch => s.loop.Dispatching?
    case InTick => s.ticker.Ticking?
    case Outside => true
  }

  // The highest priority that is ready.
  ghost predicate IsMax(ready: set<nat>, p: nat) {
    p in ready && forall q | q in ready :: q <= p
  }

  lemma {:induction false} MaxExists(ready: set<nat>) returns (p: nat)
    requires ready != {}
    ensures IsMax(ready, p)
    decreases |ready|
  {
    p :| p in ready;
    if ready == {p} {
      return;
    }
    var q := MaxExists(ready - {p});
    assert forall r | r in ready :: r == p || r in ready - {p};
    if q > p {
      p := q;
    }
  }

  lemma MaxIsThere(ready: set<nat>)
    requires ready != {}
    ensures exists p: nat :: IsMax(ready, p)
  {
    var p := MaxExists(ready);
  }

  ghost function FindMax(ready: set<nat>): (p: nat)
    requires ready != {}
    ensures IsMax(ready, p)
  {
    MaxIsThere(ready);
    var p: nat :| IsMax(ready, p);
    p
  }

  // Any critical section of another thread.
  function Locked(s: State): State {
    s.(usedAfterDestroy := s.usedAfterDestroy || s.loop.Ended?)
  }

  // Inserting p into the ready set and signalling, inside a critical section.
  function Signal(s: State, p: nat): State {
    Locked(s).(ready := s.ready + {p}, signalled := s.signalled || s.loop.Waiting?)
  }

  // The loop thread up to its next scheduling point.
  ghost function LoopNext(s: State): State {
    match s.loop
    case Testing => s.(loop := if s.running then Choosing else Left)
    case Choosing =>
      if s.ready == {} then s.(loop := Checking) else s.(loop := Fetching(FindMax(s.ready)))
    case Fetching(p) =>
      s.(loop := Dispatching(p), queues := s.queues[p := if Queued(s, p) > 0 then Queued(s, p) - 1 else 0])
    case Dispatching(p) => if s.stop == FlagCleared(InDispatch) then s else s.(loop := Relocking(p))
    case Relocking(p) => s.(loop := Retiring(p))
    case Retiring(p) => s.(loop := Testing, ready := if Queued(s, p) == 0 then s.ready - {p} else s.ready)
    case Checking => if s.ready == {} then s.(loop := Waiting, signalled := false) else s.(loop := Testing)
    case Waiting => if s.signalled then s.(loop := Waking, signalled := false) else s
    case Waking => s.(loop := Checking)
    case Left => if s.ticker.TickerEnded? then s.(loop := Ended) else s
    case Ended => s
  }

  /** One step of some thread; a step that cannot be taken changes nothing. */
  ghost function Next(s: State, step: Step): State {
    match step
    case LoopStep => LoopNext(s)
    case SpuriousWake => if s.loop.Waiting? then s.(loop := Waking, signalled := false) else s
    case Post(p, who) =>
      if Held(s) || !MayRun(s, who) then s
      else
        var s1 := if Queued(s, p) == 0 then Signal(s, p) else Locked(s);
        s1.(queues := s.queues[p := Queued(s, p) + 1])
    case TickerStep =>
      (match s.ticker
       case TickTesting => s.(ticker := if s.running then Ticking else TickerEnded)
       case Ticking => if s.stop == FlagCleared(InTick) then s else s.(ticker := TickTesting)
       case TickerEnded => s)
    case StopStore(who) =>
      if s.stop.NotCalled? && MayRun(s, who) then s.(running := false, stop := FlagCleared(who)) else s
    case StopInsert =>
      if s.stop.FlagCleared? && !Held(s) then Signal(s, MARKER).(stop := Stopped) else s
  }

  // The state in which `QF_run` enters its loop, with or without a ticker; start-up may have posted events.
  ghost predicate Initial(s: State) {
    && s.running && !s.signalled && s.loop == Testing
    && (forall p: nat :: p in s.ready <==> Queued(s, p) > 0)
    && !s.ticker.Ticking? && s.stop == NotCalled && !s.usedAfterDestroy
  }

  // ----- The invariant -----

  // The loop is busy with p: its bit stays set until the queue has been looked at.
  predicate BusyWith(s: State, p: nat) {
    s.loop == Dispatching(p) || s.loop == Relocking(p) || s.loop == Retiring(p)
  }

  // The chosen queue still holds the event the loop is about to take.
  predicate FetchFindsAnEvent(s: State) {
    s.loop.Fetching? ==> Queued(s, s.loop.p) > 0
  }

  ghost predicate ReadyMeansQueued(s: State) {
    && (forall p: nat :: Queued(s, p) > 0 ==> p in s.ready)
    && (forall p: nat :: p in s.ready ==> Queued(s, p) > 0 || (p == MARKER && s.stop.Stopped?) || BusyWith(s, p))
  }

  /** No wake-up is lost: a loop waiting without a pending signal has nothing to do. */
  ghost predicate NoLostWakeUp(s: State) {
    s.loop.Waiting? && !s.signalled ==> s.ready == {}
  }

  /** Once stopped, the loop is on its way out: never choosing, never waiting on an empty set. */
  ghost predicate StopIsSeen(s: State) {
    && (s.running <==> s.stop.NotCalled?)
    && (s.stop.Stopped? ==> !s.loop.Choosing?)
    && (s.stop.Stopped? && (s.loop.Checking? || s.loop.Waiting? || s.loop.Waking?) ==> s.ready != {})
    && (s.stop.FlagCleared? && s.stop.who.InDispatch? ==> s.loop.Dispatching?)
    && (s.stop.FlagCleared? && s.stop.who.InTick? ==> s.ticker.Ticking?)
  }

  /** The mutex and the condition variable are destroyed only after the ticker has ended. */
  ghost predicate DestroyedInOrder(s: State) {
    && (s.loop.Left? || s.loop.Ended? ==> !s.running)
    && (s.loop.Ended? ==> s.ticker.TickerEnded?)
  }

  ghost predicate Inv(s: State) {
    ReadyMeansQueued(s) && FetchFindsAnEvent(s) && NoLostWakeUp(s) && StopIsSeen(s) && DestroyedInOrder(s)
  }

  lemma LoopKeepsReady(s: State)
    requires ReadyMeansQueued(s) && FetchFindsAnEvent(s)
    ensures ReadyMeansQueued(LoopNext(s))
  {
    if s.loop.Fetching? {
      FetchingKeepsReady(s);
    } else if s.loop.Retiring? {
      RetiringKeepsReady(s);
    } else {
      var s' := LoopNext(s);
      assert s'.queues == s.queues && s'.ready == s.ready && s'.stop == s.stop;
      forall p: nat ensures Queued(s', p) == Queued(s, p) && (BusyWith(s, p) ==> BusyWith(s', p)) {}
    }
  }

  lemma RetiringKeepsReady(s: State)
    requires ReadyMeansQueued(s) && s.loop.Retiring?
    ensures ReadyMeansQueued(LoopNext(s))
  {
    forall p: nat ensures Queued(LoopNext(s), p) == Queued(s, p) {}
  }

  lemma FetchingKeepsReady(s: State)
    requires ReadyMeansQueued(s) && FetchFindsAnEvent(s) && s.loop.Fetching?
    ensures ReadyMeansQueued(LoopNext(s))
  {
    var c := s.loop.p;
    var s' := LoopNext(s);
    forall p: nat
      ensures Queued(s', p) > 0 ==> p in s'.ready
      ensures p in s'.ready ==> Queued(s', p) > 0 || (p == MARKER && s'.stop.Stopped?) || BusyWith(s', p)
    {
      if p == c {
        assert BusyWith(s', p);
      } else {
        assert Queued(s', p) == Queued(s, p) && !BusyWith(s, p);
      }
    }
  }

  lemma PostKeepsReady(s: State, p: nat, who: Caller)
    requires Inv(s)
    ensures ReadyMeansQueued(Next(s, Post(p, who)))
  {
  }

  lemma StepKeepsReady(s: State, step: Step)
    requires Inv(s)
    ensures ReadyMeansQueued(Next(s, step))
  {
    hide LoopNext;
    match step {
      case LoopStep => LoopKeepsReady(s);
      case Post(p, who) => PostKeepsReady(s, p, who);
      case _ =>
    }
  }

  lemma StepKeepsFetch(s: State, step: Step)
    requires Inv(s)
    ensures FetchFindsAnEvent(Next(s, step))
  {
    if step.LoopStep? && s.loop.Choosing? && s.ready != {} {
      assert FindMax(s.ready) in s.ready;
    }
  }

  lemma StepKeepsWakeUps(s: State, step: Step)
    requires Inv(s)
    ensures NoLostWakeUp(Next(s, step))
  {
  }

  lemma StepKeepsStop(s: State, step: Step)
    requires Inv(s)
    ensures StopIsSeen(Next(s, step)) && DestroyedInOrder(Next(s, step))
  {
    hide ReadyMeansQueued, NoLostWakeUp, Queued;
  }

  lemma StepKeepsInv(s: State, step: Step)
    requires Inv(s)
    ensures Inv(Next(s, step))
  {
    hide Next, ReadyMeansQueued, FetchFindsAnEvent, NoLostWakeUp, StopIsSeen, DestroyedInOrder;
    StepKeepsReady(s, step);
    StepKeepsFetch(s, step);
    StepKeepsWakeUps(s, step);
    StepKeepsStop(s, step);
  }

  ghost function Run(s: State, steps: seq<Step>): State
    decreases |steps|
  {
    if steps == [] then s else Run(Next(s, steps[0]), steps[1..])
  }

  lemma {:induction false} RunKeepsInv(s: State, steps: seq<Step>)
    requires Inv(s)
    ensures Inv(Run(s, steps))
    decreases |steps|
  {
    if steps != [] {
      hide Next;
      StepKeepsInv(s, steps[0]);
      RunKeepsInv(Next(s, steps[0]), steps[1..]);
    }
  }

  // ----- What every interleaving guarantees -----

  /** Once `QF_stop` is complete the loop is never left waiting on an empty ready set, even if the marker bit was dropped
      after a dispatch; a waiting loop has a wake-up pending. */
  lemma StoppedLoopNeverHangs(s0: State, steps: seq<Step>)
    requires Initial(s0)
    ensures var s := Run(s0, steps);
      s.stop.Stopped? && s.loop.Waiting? ==> s.ready != {} && s.signalled
  {
    RunKeepsInv(s0, steps);
  }

  /** Whoever runs between the choice and the fetch, the chosen queue holds an event: the stop marker is never
      dispatched. */
  lemma DispatchFindsAnEvent(s0: State, steps: seq<Step>)
    requires Initial(s0)
    ensures var s := Run(s0, steps); s.loop.Fetching? ==> Queued(s, s.loop.p) > 0
  {
    RunKeepsInv(s0, steps);
  }

  /** Destruction comes last: by then the loop has left and the ticker has ended. */
  lemma DestroyedAfterTicker(s0: State, steps: seq<Step>)
    requires Initial(s0)
    ensures var s := Run(s0, steps); s.loop.Ended? ==> s.ticker.TickerEnded? && !s.running
  {
    RunKeepsInv(s0, steps);
  }

  // ----- Events -----

  // Whether this step posts to p, and whether it takes from p.
  predicate PostsTo(s: State, step: Step, p: nat) {
    step.Post? && step.p == p && !Held(s) && MayRun(s, step.who)
  }

  predicate TakesFrom(s: State, step: Step, p: nat) {
    step.LoopStep? && s.loop == Fetching(p)
  }

  function One(b: bool): nat {
    if b then 1 else 0
  }

  ghost function PostedTo(s: State, steps: seq<Step>, p: nat): nat
    decreases |steps|
  {
    if steps == [] then 0 else One(PostsTo(s, steps[0], p)) + PostedTo(Next(s, steps[0]), steps[1..], p)
  }

  ghost function TakenFrom(s: State, steps: seq<Step>, p: nat): nat
    decreases |steps|
  {
    if steps == [] then 0 else One(TakesFrom(s, steps[0], p)) + TakenFrom(Next(s, steps[0]), steps[1..], p)
  }

  lemma StepBalances(s: State, step: Step, p: nat)
    requires FetchFindsAnEvent(s)
    ensures Queued(s, p) + One(PostsTo(s, step, p)) == Queued(Next(s, step), p) + One(TakesFrom(s, step, p))
  {
    hide IsMax;
  }

  lemma {:induction false} RunBalances(s: State, steps: seq<Step>, p: nat)
    requires Inv(s)
    ensures Queued(s, p) + PostedTo(s, steps, p) == Queued(Run(s, steps), p) + TakenFrom(s, steps, p)
    decreases |steps|
  {
    hide *;
    NothingMoves(s, p);
    if steps != [] {
      FetchIsSound(s);
      StepBalances(s, steps[0], p);
      StepKeepsInv(s, steps[0]);
      RunBalances(Next(s, steps[0]), steps[1..], p);
      CountsStep(s, steps, p);
    }
  }

  lemma NothingMoves(s: State, p: nat)
    ensures Run(s, []) == s && PostedTo(s, [], p) == 0 == TakenFrom(s, [], p)
  {
  }

  lemma FetchIsSound(s: State)
    requires Inv(s)
    ensures FetchFindsAnEvent(s)
  {
  }

  lemma CountsStep(s: State, steps: seq<Step>, p: nat)
    requires steps != []
    ensures var s1, rest := Next(s, steps[0]), steps[1..];
      && Run(s, steps) == Run(s1, rest)
      && PostedTo(s, steps, p) == One(PostsTo(s, steps[0], p)) + PostedTo(s1, rest, p)
      && TakenFrom(s, steps, p) == One(TakesFrom(s, steps[0], p)) + TakenFrom(s1, rest, p)
  {
    hide Next, PostsTo, TakesFrom;
  }

  /** No event is lost and none is handled twice: what was queued at the start and posted since is taken or queued, for
      every queue and in every run. */
  lemma NoEventIsLost(s0: State, steps: seq<Step>, p: nat)
    requires Initial(s0)
    ensures Queued(s0, p) + PostedTo(s0, steps, p) == Queued(Run(s0, steps), p) + TakenFrom(s0, steps, p)
  {
    assert Inv(s0);
    hide *;
    RunBalances(s0, steps, p);
  }

  /** The loop takes from the highest queue that holds an event. */
  lemma HighestGoesFirst(s: State)
    requires ReadyMeansQueued(s) && s.loop.Choosing? && !s.stop.Stopped? && Next(s, LoopStep).loop.Fetching?
    ensures var p := Next(s, LoopStep).loop.p; Queued(s, p) > 0 && forall q: nat | Queued(s, q) > 0 :: q <= p
  {
  }

  // Steps the loop thread needs to take an event that is queued.
  function ToTake(s: State): nat {
    match s.loop
    case Fetching(_) => 1
    case Choosing => 2
    case Testing => 3
    case Retiring(_) => 4
    case Checking => 4
    case Relocking(_) => 5
    case Waking => 5
    case Dispatching(_) => 6
    case Waiting => 6
    case Left => 7
    case Ended => 7
  }

  // While the loop runs, each of its steps brings it nearer to a queued event, and no other step takes it back.
  lemma LoopNears(s: State, p: nat)
    requires ReadyMeansQueued(s) && NoLostWakeUp(s) && s.running && Queued(s, p) > 0 && !s.loop.Fetching?
    requires ToTake(s) <= 6 && (s.loop.Dispatching? ==> !s.stop.FlagCleared?)
    ensures var s' := LoopNext(s); s'.running && Queued(s', p) > 0 && ToTake(s') < ToTake(s)
  {
    assert p in s.ready;
    hide IsMax;
  }

  lemma OthersLeave(s: State, step: Step, p: nat)
    requires s.running && Queued(s, p) > 0 && !step.LoopStep? && !step.StopStore?
    ensures var s' := Next(s, step); s'.running && Queued(s', p) > 0 && ToTake(s') <= ToTake(s)
  {
    hide LoopNext;
  }

  lemma RunningIs(s: State)
    requires Inv(s) && s.running
    ensures ReadyMeansQueued(s) && NoLostWakeUp(s) && 0 < ToTake(s) <= 6 && s.stop.NotCalled?
  {
  }

  lemma {:induction false} EventIsTaken(s: State, steps: seq<Step>, p: nat) returns (q: nat)
    requires Inv(s) && s.running && Queued(s, p) > 0 && forall i | 0 <= i < |steps| :: !steps[i].StopStore?
    requires LoopSteps(steps) >= ToTake(s)
    ensures TakenFrom(s, steps, q) > 0
    decreases |steps|
  {
    hide *;
    RunningIs(s);
    LoopStepsStep(steps);
    var s1, rest := Next(s, steps[0]), steps[1..];
    StepKeepsInv(s, steps[0]);
    if steps[0].LoopStep? && s.loop.Fetching? {
      q := s.loop.p;
      Fetches(s, steps);
    } else {
      if steps[0].LoopStep? {
        LoopNears(s, p);
        LoopStepIs(s);
      } else {
        OthersLeave(s, steps[0], p);
      }
      q := EventIsTaken(s1, rest, p);
      CountsStep(s, steps, q);
    }
  }

  lemma LoopStepIs(s: State)
    ensures Next(s, LoopStep) == LoopNext(s)
  {
    hide LoopNext;
  }

  lemma LoopStepsStep(steps: seq<Step>)
    ensures LoopSteps(steps) == if steps == [] then 0 else (if steps[0].LoopStep? then 1 else 0) + LoopSteps(steps[1..])
  {
  }

  lemma Fetches(s: State, steps: seq<Step>)
    requires steps != [] && steps[0].LoopStep? && s.loop.Fetching?
    ensures TakenFrom(s, steps, s.loop.p) > 0
  {
    hide Next;
  }

  /** Six steps of a running loop take an event if one is queued, whatever the other threads do in between but stop. */
  lemma QueuedEventIsTaken(s: State, steps: seq<Step>, p: nat)
    requires Inv(s) && s.running && Queued(s, p) > 0 && forall i | 0 <= i < |steps| :: !steps[i].StopStore?
    requires LoopSteps(steps) >= 6
    ensures exists q: nat :: TakenFrom(s, steps, q) > 0
  {
    hide *;
    RunningIs(s);
    var q := EventIsTaken(s, steps, p);
  }

  // ----- The loop gets out -----

  // Steps the loop thread still needs before it has left, once stopped.
  function Distance(s: State): nat {
    match s.loop
    case Ended => 0
    case Left => 1
    case Testing => 2
    case Retiring(_) => 3
    case Checking => 3
    case Relocking(_) => 4
    case Waking => 4
    case Dispatching(_) => 5
    case Waiting => 5
    case Fetching(_) => 6
    case Choosing => 7
  }

  lemma StoppedStepAdvances(s: State, step: Step)
    requires Inv(s) && s.stop.Stopped?
    ensures var s' := Next(s, step);
      && s'.stop.Stopped? && Distance(s') <= Distance(s)
      && (step.LoopStep? && !s.loop.Left? && !s.loop.Ended? ==> Distance(s') < Distance(s))
  {
  }

  function LoopSteps(steps: seq<Step>): nat
    decreases |steps|
  {
    if steps == [] then 0 else (if steps[0].LoopStep? then 1 else 0) + LoopSteps(steps[1..])
  }

  /** After a complete `QF_stop`, five steps of the loop thread, whatever the others do in between, take it out. */
  lemma {:induction false} StoppedLoopLeaves(s: State, steps: seq<Step>)
    requires Inv(s) && s.stop.Stopped?
    ensures LoopSteps(steps) + 1 >= Distance(s) ==> Run(s, steps).loop.Left? || Run(s, steps).loop.Ended?
    ensures Distance(s) <= 6
    decreases |steps|
  {
    if steps != [] {
      StoppedStepAdvances(s, steps[0]);
      StepKeepsInv(s, steps[0]);
      hide Next;
      StoppedLoopLeaves(Next(s, steps[0]), steps[1..]);
    }
  }

  // ----- Who may still use the mutex -----

  // Whether other threads than the loop and the ticker may post and stop.
  predicate Allowed(step: Step, posts: bool, stops: bool) {
    (step.Post? && step.who.Outside? ==> posts) && (step.StopStore? && step.who.Outside? ==> stops)
  }

  ghost predicate AllAllowed(steps: seq<Step>, posts: bool, stops: bool) {
    forall i | 0 <= i < |steps| :: Allowed(steps[i], posts, stops)
  }

  lemma InsiderStep(s: State, step: Step)
    requires Inv(s) && !s.usedAfterDestroy && s.stop != FlagCleared(Outside) && Allowed(step, false, false)
    ensures !Next(s, step).usedAfterDestroy && Next(s, step).stop != FlagCleared(Outside)
  {
  }

  lemma {:induction false} InsidersNeverTouchIt(s: State, steps: seq<Step>)
    requires Inv(s) && !s.usedAfterDestroy && s.stop != FlagCleared(Outside)
    requires AllAllowed(steps, false, false)
    ensures !Run(s, steps).usedAfterDestroy
    decreases |steps|
  {
    if steps != [] {
      assert Allowed(steps[0], false, false);
      InsiderStep(s, steps[0]);
      StepKeepsInv(s, steps[0]);
      hide Next;
      InsidersNeverTouchIt(Next(s, steps[0]), steps[1..]);
    }
  }

  /** While all posts and the stop come from event handlers and the tick callback, nothing touches the mutex after it is
      destroyed. */
  lemma InsideCallersAreSafe(s0: State, steps: seq<Step>)
    requires Initial(s0) && AllAllowed(steps, false, false)
    ensures !Run(s0, steps).usedAfterDestroy
  {
    InsidersNeverTouchIt(s0, steps);
  }

  // A stop from another thread can clear the flag, lose the processor, and enter its critical section after the loop
  // has destroyed the mutex.
  lemma OutsideStopCanComeTooLate(s0: State)
    requires Initial(s0)
    ensures Run(s0, [StopStore(Outside), TickerStep, LoopStep, LoopStep, StopInsert]).usedAfterDestroy
  {
    var s1 := Next(s0, StopStore(Outside));
    var s2 := Next(s1, TickerStep);
    var s3 := Next(s2, LoopStep);
    var s4 := Next(s3, LoopStep);
    assert s4.loop.Ended?;
    assert Run(s4, [StopInsert]) == Next(s4, StopInsert);
    assert Run(s3, [LoopStep, StopInsert]) == Run(s4, [StopInsert]);
    assert Run(s2, [LoopStep, LoopStep, StopInsert]) == Run(s3, [LoopStep, StopInsert]);
    assert Run(s1, [TickerStep, LoopStep, LoopStep, StopInsert]) == Run(s2, [LoopStep, LoopStep, StopInsert]);
  }

  // One more step behind a run.
  lemma {:induction false} OneMoreStep(s: State, steps: seq<Step>, step: Step)
    requires AllAllowed(steps, true, false) && Allowed(step, true, false)
    ensures Run(s, steps + [step]) == Next(Run(s, steps), step) && AllAllowed(steps + [step], true, false)
    decreases |steps|
  {
    hide Next, Allowed;
    if steps == [] {
      assert steps + [step] == [step] && [step][1..] == [];
    } else {
      assert (steps + [step])[0] == steps[0] && (steps + [step])[1..] == steps[1..] + [step];
      OneMoreStep(Next(s, steps[0]), steps[1..], step);
    }
  }

  lemma NoSteps(s: State)
    ensures Run(s, []) == s && AllAllowed([], true, false)
  {
  }

  // Not stopped yet, and the tick callback is not running.
  predicate Going(s: State) {
    s.running && s.stop == NotCalled && !s.ticker.Ticking?
  }

  // From its start the loop comes to handle an event, or to wait for one.
  lemma LoopSettles(s0: State) returns (steps: seq<Step>)
    requires Initial(s0)
    ensures AllAllowed(steps, true, false)
    ensures var s := Run(s0, steps); Going(s) && (s.loop.Dispatching? || s.loop.Waiting?)
  {
    hide Run, IsMax, Queued, AllAllowed;
    NoSteps(s0);
    steps := [];
    for n := 0 to 3
      invariant AllAllowed(steps, true, false)
      invariant Going(Run(s0, steps))
      invariant var s := Run(s0, steps);
        if n == 0 then s.loop.Testing?
        else if n == 1 then s.loop.Choosing?
        else if n == 2 then s.loop.Fetching? || (s.loop.Checking? && s.ready == {})
        else s.loop.Dispatching? || s.loop.Waiting?
    {
      OneMoreStep(s0, steps, LoopStep);
      steps := steps + [LoopStep];
    }
  }

  // A post from outside wakes a waiting loop.
  lemma LoopHandlesAnEvent(s0: State) returns (steps: seq<Step>)
    requires Initial(s0)
    ensures AllAllowed(steps, true, false)
    ensures var s := Run(s0, steps); Going(s) && s.loop.Dispatching?
  {
    hide Run, IsMax, AllAllowed;
    steps := LoopSettles(s0);
    if Run(s0, steps).loop.Waiting? {
      RunKeepsInv(s0, steps);
      OneMoreStep(s0, steps, Post(MARKER, Outside));
      steps := steps + [Post(MARKER, Outside)];
      for n := 0 to 6
        invariant AllAllowed(steps, true, false)
        invariant Going(Run(s0, steps)) && Run(s0, steps).ready != {}
        invariant var s := Run(s0, steps);
          if n == 0 then s.loop.Waiting? && s.signalled
          else if n == 1 then s.loop.Waking?
          else if n == 2 then s.loop.Checking?
          else if n == 3 then s.loop.Testing?
          else if n == 4 then s.loop.Choosing?
          else if n == 5 then s.loop.Fetching?
          else s.loop.Dispatching?
      {
        OneMoreStep(s0, steps, LoopStep);
        steps := steps + [LoopStep];
      }
    }
  }

  // The handler stops the loop and the loop ends, all within the loop thread and the ticker.
  lemma LoopEnds(s0: State) returns (steps: seq<Step>)
    requires Initial(s0)
    ensures AllAllowed(steps, true, false) && Run(s0, steps).loop.Ended?
  {
    hide Run, IsMax, Queued, AllAllowed, Initial;
    steps := LoopHandlesAnEvent(s0);
    var last := [StopStore(InDispatch), StopInsert, LoopStep, LoopStep, LoopStep, TickerStep, LoopStep, LoopStep];
    for n := 0 to 7
      invariant AllAllowed(steps, true, false)
      invariant var s := Run(s0, steps);
        && (n == 0 ==> Going(s))
        && (n > 0 ==> !s.running && !s.ticker.Ticking?)
        && (n == 1 ==> s.stop == FlagCleared(InDispatch))
        && (n > 1 ==> s.stop == Stopped)
        && (n > 5 ==> s.ticker.TickerEnded?)
        && if n <= 2 then s.loop.Dispatching?
           else if n == 3 then s.loop.Relocking?
           else if n == 4 then s.loop.Retiring?
           else if n <= 6 then s.loop.Testing?
           else s.loop.Left?
    {
      OneMoreStep(s0, steps, last[n]);
      steps := steps + [last[n]];
    }
    OneMoreStep(s0, steps, LoopStep);
    steps := steps + [LoopStep];
  }

  // A thread outside that merely posts can enter its critical section after the loop has destroyed the mutex, even if
  // the stop comes from inside.
  lemma OutsidePostCanComeTooLate(s0: State) returns (steps: seq<Step>)
    requires Initial(s0)
    ensures AllAllowed(steps, true, false) && Run(s0, steps).usedAfterDestroy
  {
    hide Run, Queued, AllAllowed, Initial;
    steps := LoopEnds(s0);
    OneMoreStep(s0, steps, Post(MARKER, Outside));
    steps := steps + [Post(MARKER, Outside)];
  }

  /** From every start, the mutex can be used after its destruction exactly when threads other than the loop and the
      ticker may post, or may stop: either is enough. */
  lemma UsedAfterDestroyIff(s0: State, posts: bool, stops: bool)
    requires Initial(s0)
    ensures posts || stops <==> exists steps: seq<Step> :: AllAllowed(steps, posts, stops) && Run(s0, steps).usedAfterDestroy
  {
    hide Run, Initial;
    if posts {
      var steps := OutsidePostCanComeTooLate(s0);
      assert AllAllowed(steps, posts, stops);
    } else if stops {
      OutsideStopCanComeTooLate(s0);
      assert AllAllowed([StopStore(Outside), TickerStep, LoopStep, LoopStep, StopInsert], posts, stops);
    } else {
      forall steps: seq<Step> | AllAllowed(steps, posts, stops)
        ensures !Run(s0, steps).usedAfterDestroy
      {
        InsideCallersAreSafe(s0, steps);
      }
    }
  }
}
