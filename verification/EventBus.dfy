/**
 The event bus as a step machine: one serialized publisher runs a program of
 publications, drains and ticks while every consumer works off its own bounded queue.
 A step is what happens between two awaits; any enabled step may come next.
 */
module EventBus {
  import opened Common
  import opened QueueOrder
  import opened Timeline
  import D = FeatureDriver

  datatype Consumer = Consumer(capacity: nat, queue: seq<MarketEvent>, inFlight: Option<MarketEvent>,
                               processed: seq<MarketEvent>, failed: bool)
  {
    /** What `queue.join()` waits for. */
    function Unfinished(): nat {
      |queue| + if inFlight.Some? then 1 else 0
    }

    function Pending(): seq<MarketEvent> {
      (if inFlight.Some? then [inFlight.value] else []) + queue
    }

    function Full(): bool {
      |queue| >= capacity
    }
  }

  /** Where the publisher stands inside the operation at `pc`. */
  datatype Phase =
    | Ready
    | Putting(next: nat)          // about to hand the event to the next consumer
    | Waiting(next: nat)          // its queue was full: waiting for room or for its failure
    | Handing(next: nat)          // there was room, but the publisher has not gone on yet
    | Draining(waiting: set<nat>)
    | Raised(handedTo: nat)
  {
    predicate Publishing() {
      Putting? || Waiting? || Handing?
    }

    /** How many consumers already have the event being published. */
    function HandedTo(): nat {
      match this
      case Putting(next) => next
      case Waiting(next) => next
      case Handing(next) => next + 1
      case Raised(n) => n
      case _ => 0
    }
  }

  datatype Bus = Bus(consumers: seq<Consumer>, pc: nat, phase: Phase)

  datatype Step =
    | Begin             // start the next operation
    | Put               // hand the event to the next consumer's queue
    | Block             // that queue is full
    | Enqueue           // the blocked put completed
    | Resume            // the publisher goes on behind a blocked put
    | EndPublish        // every consumer has the event
    | Joined(k: nat)    // one consumer's join completed
    | EndDrain          // every join completed
    | Raise             // a consumer failure surfaces to the publisher
    | Take(k: nat)      // consumer: get an item
    | Finish(k: nat)    // consumer: handler returned
    | Fail(k: nat)      // consumer: handler raised

  function Indices(n: nat): (r: set<nat>)
    ensures forall k: nat :: k in r <==> k < n
    ensures |r| == n
  {
    if n == 0 then {} else Indices(n - 1) + {n - 1}
  }

  predicate AnyFailed(s: Bus) {
    exists k :: 0 <= k < |s.consumers| && s.consumers[k].failed
  }

  predicate Enabled(program: seq<Output>, s: Bus, step: Step) {
    match step
    case Begin => s.phase.Ready? && s.pc < |program| && (program[s.pc].Consumed? || !AnyFailed(s))
    case Put => s.phase.Putting? && s.phase.next < |s.consumers| && !s.consumers[s.phase.next].Full()
    case Block => s.phase.Putting? && s.phase.next < |s.consumers| && s.consumers[s.phase.next].Full()
    case Enqueue => s.phase.Waiting? && s.phase.next < |s.consumers| && !s.consumers[s.phase.next].Full()
    case Resume => s.phase.Handing? && s.phase.next < |s.consumers| && !s.consumers[s.phase.next].failed
    case EndPublish => s.phase.Putting? && s.phase.next == |s.consumers|
    case Joined(k) => s.phase.Draining? && k in s.phase.waiting && k < |s.consumers| && s.consumers[k].Unfinished() == 0
    case EndDrain => s.phase.Draining? && s.phase.waiting == {} && !AnyFailed(s)
    case Raise =>
      || (s.phase.Ready? && s.pc < |program| && !program[s.pc].Consumed? && AnyFailed(s))
      || ((s.phase.Waiting? || s.phase.Handing?) && s.phase.next < |s.consumers| && s.consumers[s.phase.next].failed)
      || (s.phase.Draining? && AnyFailed(s))
    case Take(k) =>
      k < |s.consumers| && !s.consumers[k].failed && s.consumers[k].inFlight.None? && s.consumers[k].queue != []
    case Finish(k) => k < |s.consumers| && s.consumers[k].inFlight.Some?
    case Fail(k) => k < |s.consumers| && s.consumers[k].inFlight.Some?
  }

  function Apply(program: seq<Output>, s: Bus, step: Step): Bus
    requires Enabled(program, s, step) && s.pc <= |program|
    requires s.phase.Publishing() ==> s.pc < |program| && program[s.pc].Published?
  {
    match step
    case Begin =>
      if program[s.pc].Published? then s.(phase := Putting(0))
      else if program[s.pc].Drained? then s.(phase := Draining(Indices(|s.consumers|)))
      else s.(pc := s.pc + 1)
    case Put =>
      var c := s.consumers[s.phase.next];
      s.(consumers := s.consumers[s.phase.next := c.(queue := c.queue + [program[s.pc].event])],
         phase := Putting(s.phase.next + 1))
    case Block => s.(phase := Waiting(s.phase.next))
    case Enqueue =>
      var c := s.consumers[s.phase.next];
      s.(consumers := s.consumers[s.phase.next := c.(queue := c.queue + [program[s.pc].event])],
         phase := Handing(s.phase.next))
    case Resume => s.(phase := Putting(s.phase.next + 1))
    case EndPublish => s.(phase := Ready, pc := s.pc + 1)
    case Joined(k) => s.(phase := Draining(s.phase.waiting - {k}))
    case EndDrain => s.(phase := Ready, pc := s.pc + 1)
    case Raise => s.(phase := Raised(s.phase.HandedTo()))
    case Take(k) =>
      var c := s.consumers[k];
      s.(consumers := s.consumers[k := c.(inFlight := Some(c.queue[0]), queue := c.queue[1..])])
    case Finish(k) =>
      var c := s.consumers[k];
      s.(consumers := s.consumers[k := c.(inFlight := None, processed := c.processed + [c.inFlight.value])])
    case Fail(k) =>
      var c := s.consumers[k];
      s.(consumers := s.consumers[k := c.(inFlight := None, failed := true)])
  }

  // ---------- The invariant ----------

  /** What consumer `k` has been handed so far. */
  function Handed(program: seq<Output>, s: Bus, k: nat): seq<MarketEvent>
    requires s.pc <= |program|
  {
    EventsOf(program[..s.pc])
    + (if k < s.phase.HandedTo() && s.pc < |program| && program[s.pc].Published?
       then [program[s.pc].event] else [])
  }

  ghost predicate ConsumerOk(program: seq<Output>, s: Bus, k: nat)
    requires k < |s.consumers| && s.pc <= |program|
  {
    var c := s.consumers[k];
    && c.capacity >= 1 && |c.queue| <= c.capacity
    && (c.failed ==> c.inFlight.None? && c.processed <= EventsOf(program))
    && (!c.failed ==> c.processed + c.Pending() == Handed(program, s, k))
  }

  ghost predicate Idle(c: Consumer) {
    !c.failed && c.Unfinished() == 0
  }

  ghost predicate Inv(program: seq<Output>, s: Bus) {
    && s.pc <= |program|
    && (s.phase.Publishing() ==>
          && s.pc < |program| && program[s.pc].Published? && s.phase.next <= |s.consumers|
          && (!s.phase.Putting? ==> s.phase.next < |s.consumers|))
    && (s.phase.Draining? ==>
          && s.pc < |program| && program[s.pc].Drained?
          && (forall k :: k in s.phase.waiting ==> k < |s.consumers|)
          && forall k :: 0 <= k < |s.consumers| && k !in s.phase.waiting ==> s.consumers[k].Unfinished() == 0)
    && (forall k :: 0 <= k < |s.consumers| ==> ConsumerOk(program, s, k))
    && (s.phase.Ready? && Quiesced(program[..s.pc]) ==> forall k :: 0 <= k < |s.consumers| ==> Idle(s.consumers[k]))
  }

  ghost predicate Initial(s: Bus) {
    && s.pc == 0 && s.phase.Ready?
    && forall k :: 0 <= k < |s.consumers| ==>
         s.consumers[k].capacity >= 1 && s.consumers[k] == Consumer(s.consumers[k].capacity, [], None, [], false)
  }

  lemma {:induction false} EventsPrefix(program: seq<Output>, n: nat)
    requires n <= |program|
    ensures EventsOf(program[..n]) <= EventsOf(program)
  {
    EventsAppend(program[..n], program[n..]);
    assert program == program[..n] + program[n..];
  }

  lemma {:induction false} NextOperation(program: seq<Output>, n: nat)
    requires n < |program|
    ensures EventsOf(program[..n + 1])
         == EventsOf(program[..n]) + (if program[n].Published? then [program[n].event] else [])
    ensures Quiesced(program[..n + 1]) <==>
              program[n].Drained? || (program[n].Consumed? && Quiesced(program[..n]))
  {
    assert program[..n + 1][..n] == program[..n];
  }

  lemma {:induction false} HandedIsPrefix(program: seq<Output>, s: Bus, k: nat)
    requires s.pc <= |program|
    ensures Handed(program, s, k) <= EventsOf(program)
  {
    EventsPrefix(program, s.pc);
    if k < s.phase.HandedTo() && s.pc < |program| && program[s.pc].Published? {
      NextOperation(program, s.pc);
      EventsPrefix(program, s.pc + 1);
    }
  }

  /** Every step keeps the invariant: FIFO hand-over, bounded depth, nothing lost before a failure. */
  lemma {:induction false} StepKeeps(program: seq<Output>, s: Bus, step: Step)
    requires Inv(program, s) && Enabled(program, s, step)
    ensures Inv(program, Apply(program, s, step))
  {
    hide Inv, Enabled, Apply;
    match step
    case Take(j) => ConsumerStepKeeps(program, s, step, j);
    case Finish(j) => ConsumerStepKeeps(program, s, step, j);
    case Fail(j) => ConsumerStepKeeps(program, s, step, j);
    case Put => PutKeeps(program, s, step);
    case Enqueue => PutKeeps(program, s, step);
    case _ => PublisherStepKeeps(program, s, step);
  }

  lemma {:induction false} PublisherStepKeeps(program: seq<Output>, s: Bus, step: Step)
    requires Inv(program, s) && Enabled(program, s, step)
    requires !step.Put? && !step.Enqueue? && !step.Take? && !step.Finish? && !step.Fail?
    ensures Inv(program, Apply(program, s, step))
  {
    hide EventsOf, Quiesced, Indices;
    var s' := Apply(program, s, step);
    if s.pc < |program| {
      NextOperation(program, s.pc);
    }
    forall k | 0 <= k < |s.consumers| ensures ConsumerOk(program, s', k) {
      assert ConsumerOk(program, s, k);
    }
  }

  lemma {:induction false} PutKeeps(program: seq<Output>, s: Bus, step: Step)
    requires Inv(program, s) && Enabled(program, s, step) && (step.Put? || step.Enqueue?)
    ensures Inv(program, Apply(program, s, step))
  {
    var c, e := s.consumers[s.phase.next], [program[s.pc].event];
    assert c.(queue := c.queue + e).Pending() == c.Pending() + e;
    assert c.processed + (c.Pending() + e) == (c.processed + c.Pending()) + e;
    forall k | 0 <= k < |s.consumers| ensures ConsumerOk(program, Apply(program, s, step), k) {
      assert ConsumerOk(program, s, k);
    }
  }

  lemma {:induction false} ConsumerStepKeeps(program: seq<Output>, s: Bus, step: Step, j: nat)
    requires Inv(program, s) && Enabled(program, s, step) && step in {Take(j), Finish(j), Fail(j)}
    ensures Inv(program, Apply(program, s, step))
  {
    hide EventsOf, Quiesced, AnyFailed;
    var s' := Apply(program, s, step);
    assert ConsumerOk(program, s, j);
    HandedIsPrefix(program, s, j);
    assert forall k: nat :: Handed(program, s', k) == Handed(program, s, k);
    hide Handed;
    forall k | 0 <= k < |s.consumers| ensures ConsumerOk(program, s', k) {
      assert ConsumerOk(program, s, k);
    }
  }

  // ---------- Every interleaving ----------

  /** The bus after some steps, each enabled when it was taken. */
  ghost predicate Reaches(program: seq<Output>, start: Bus, steps: seq<Step>, end: Bus)
    decreases |steps|
  {
    if |steps| == 0 then start == end
    else Inv(program, start) && Enabled(program, start, steps[0])
         && Reaches(program, Apply(program, start, steps[0]), steps[1..], end)
  }

  lemma {:induction false} ReachableKeeps(program: seq<Output>, start: Bus, steps: seq<Step>, end: Bus)
    requires Inv(program, start) && Reaches(program, start, steps, end)
    ensures Inv(program, end)
    decreases |steps|
  {
    if |steps| > 0 {
      StepKeeps(program, start, steps[0]);
      ReachableKeeps(program, Apply(program, start, steps[0]), steps[1..], end);
    }
  }

  lemma {:induction false} InitialInv(program: seq<Output>, s: Bus)
    requires Initial(s)
    ensures Inv(program, s)
  {
  }

  lemma {:induction false} GuardedTick(program: seq<Output>, i: nat)
    requires Guarded(program) && i < |program| && program[i].Consumed?
    ensures Quiesced(program[..i])
    decreases |program|
  {
    var n := |program| - 1;
    if i < n {
      GuardedTick(program[..n], i);
      assert program[..n][..i] == program[..i];
    }
  }

  /**
   Under every interleaving, when the publisher is about to consume a tick each consumer has
   processed exactly what was published before it, in order, and nothing is queued.
   */
  lemma {:induction false} TickFindsConsumersCaughtUp(program: seq<Output>, start: Bus, steps: seq<Step>, s: Bus,
                                                      k: nat)
    requires Guarded(program) && Initial(start) && Reaches(program, start, steps, s)
    requires s.phase.Ready? && s.pc < |program| && program[s.pc].Consumed? && k < |s.consumers|
    ensures s.consumers[k].processed == EventsOf(program[..s.pc])
    ensures s.consumers[k].Unfinished() == 0 && !s.consumers[k].failed
  {
    InitialInv(program, start);
    ReachableKeeps(program, start, steps, s);
    GuardedTick(program, s.pc);
    var c := s.consumers[k];
    assert ConsumerOk(program, s, k) && Idle(c);
    assert c.Pending() == [] && c.processed + [] == c.processed;
  }

  /** At any moment a consumer has processed a prefix of the publications, within its queue bound. */
  lemma {:induction false} ConsumersAreFifoAndBounded(program: seq<Output>, start: Bus, steps: seq<Step>, s: Bus,
                                                      k: nat)
    requires Initial(start) && Reaches(program, start, steps, s) && k < |s.consumers|
    ensures s.consumers[k].processed <= EventsOf(program)
    ensures |s.consumers[k].queue| <= s.consumers[k].capacity
  {
    InitialInv(program, start);
    ReachableKeeps(program, start, steps, s);
    assert ConsumerOk(program, s, k);
    HandedIsPrefix(program, s, k);
    var c := s.consumers[k];
    assert !c.failed ==> c.processed <= Handed(program, s, k) <= EventsOf(program);
  }

  /**
   Driver and bus together: when the tick at boundary `b` is consumed, every consumer has
   processed exactly the accepted events received by `b`.
   */
  lemma {:induction false} TickConsumersKnowExactlyThePast(d: D.ReceiveTimeDriver, start: Bus, steps: seq<Step>,
                                                           s: Bus, k: nat)
    requires d.Valid() && Initial(start) && Reaches(d.trace, start, steps, s)
    requires s.phase.Ready? && s.pc < |d.trace| && d.trace[s.pc].Consumed? && k < |s.consumers|
    ensures multiset(s.consumers[k].processed)
         == multiset(EventsThrough(Events(d.accepted), d.trace[s.pc].tick.at))
  {
    TickFindsConsumersCaughtUp(d.trace, start, steps, s, k);
    VisiblePrefix(d.trace, s.pc);
    D.TickFollowsExactlyItsPast(d, |Visible(d.trace[..s.pc])|);
    EventsOfVisible(d.trace[..s.pc]);
  }

  /** An output keeps its place in the visible trace behind the visible outputs before it. */
  lemma {:induction false} VisiblePrefix(trace: seq<Output>, i: nat)
    requires i < |trace| && !trace[i].Drained?
    ensures var n := |Visible(trace[..i])|;
            n < |Visible(trace)| && Visible(trace)[n] == trace[i] && Visible(trace)[..n] == Visible(trace[..i])
  {
    VisibleAppend(trace[..i + 1], trace[i + 1..]);
    assert trace == trace[..i + 1] + trace[i + 1..];
    assert trace[..i + 1][..i] == trace[..i];
  }

  // ---------- A failed consumer stops the publisher ----------

  lemma {:induction false} FailureStays(program: seq<Output>, s: Bus, step: Step)
    requires Inv(program, s) && Enabled(program, s, step) && AnyFailed(s)
    ensures AnyFailed(Apply(program, s, step))
  {
    hide EventsOf, Quiesced, Handed;
    var k :| 0 <= k < |s.consumers| && s.consumers[k].failed;
    assert Apply(program, s, step).consumers[k].failed;
  }

  /** Between operations, with a failed consumer: nothing is published or drained any more. */
  lemma {:induction false} FailureStopsPublishing(program: seq<Output>, start: Bus, steps: seq<Step>, end: Bus)
    requires Inv(program, start) && Reaches(program, start, steps, end)
    requires AnyFailed(start) && (start.phase.Ready? || start.phase.Raised?)
    ensures AnyFailed(end) && (end.phase.Ready? || end.phase.Raised?) && start.pc <= end.pc <= |program|
    ensures forall i :: start.pc <= i < end.pc ==> program[i].Consumed?
    decreases |steps|
  {
    if |steps| > 0 {
      var next := Apply(program, start, steps[0]);
      StepKeeps(program, start, steps[0]);
      FailureStays(program, start, steps[0]);
      hide Inv, AnyFailed, EventsOf;
      FailureStopsPublishing(program, next, steps[1..], end);
    }
  }

  /** How many of the steps let consumer `k` finish an event. */
  function Finishes(steps: seq<Step>, k: nat): nat {
    if |steps| == 0 then 0 else (if steps[0] == Finish(k) then 1 else 0) + Finishes(steps[1..], k)
  }

  /** How many of the steps let consumer `k` fail over an event. */
  function Fails(steps: seq<Step>, k: nat): nat {
    if |steps| == 0 then 0 else (if steps[0] == Fail(k) then 1 else 0) + Fails(steps[1..], k)
  }

  /** How many events a consumer has been handed and not lost. */
  function Held(c: Consumer): nat {
    |c.queue| + (if c.inFlight.Some? then 1 else 0) + |c.processed|
  }

  /**
   An event counts as processed only when its handler returned, and a consumer loses no event but
   the one over which it failed; it fails at most once.
   */
  lemma {:induction false} OnlyFinishedCount(program: seq<Output>, start: Bus, steps: seq<Step>, end: Bus, k: nat)
    requires Inv(program, start) && Reaches(program, start, steps, end) && k < |start.consumers|
    ensures |end.consumers| == |start.consumers|
    ensures |end.consumers[k].processed| == |start.consumers[k].processed| + Finishes(steps, k)
    ensures Held(end.consumers[k]) + Fails(steps, k) >= Held(start.consumers[k])
    ensures start.consumers[k].failed ==> end.consumers[k].failed
    ensures Fails(steps, k) == if end.consumers[k].failed && !start.consumers[k].failed then 1 else 0
    decreases |steps|
  {
    hide EventsOf, Quiesced, ConsumerOk, Idle, AnyFailed, Indices;
    if |steps| > 0 {
      StepKeeps(program, start, steps[0]);
      OneStepCounts(program, start, steps[0], k);
      OnlyFinishedCount(program, Apply(program, start, steps[0]), steps[1..], end, k);
    }
  }

  lemma {:induction false} OneStepCounts(program: seq<Output>, s: Bus, step: Step, k: nat)
    requires Inv(program, s) && Enabled(program, s, step) && k < |s.consumers|
    ensures var s' := Apply(program, s, step);
            && |s'.consumers| == |s.consumers|
            && |s'.consumers[k].processed| == |s.consumers[k].processed| + (if step == Finish(k) then 1 else 0)
            && Held(s'.consumers[k]) + (if step == Fail(k) then 1 else 0) >= Held(s.consumers[k])
            && (s'.consumers[k].failed <==> s.consumers[k].failed || step == Fail(k))
            && (step == Fail(k) ==> !s.consumers[k].failed)
  {
    hide EventsOf, Quiesced, Idle, AnyFailed, Indices, Handed;
    assert ConsumerOk(program, s, k);
  }

  /** The publisher has raised, or stands at the full queue of consumer `next`, which has failed. */
  ghost predicate FailedHandover(s: Bus, next: nat) {
    || s.phase.Raised?
    || ((s.phase.Waiting? || s.phase.Handing?)
        && s.phase.next == next < |s.consumers| && s.consumers[next].failed)
  }

  /** A publication that met a full queue never gets past a consumer that failed meanwhile, room or no room. */
  lemma {:induction false} FailedHandoverNeverEnds(program: seq<Output>, start: Bus, steps: seq<Step>, end: Bus,
                                                   next: nat)
    requires Reaches(program, start, steps, end) && FailedHandover(start, next)
    ensures FailedHandover(end, next) && end.pc == start.pc
    decreases |steps|
  {
    hide EventsOf, Quiesced, ConsumerOk, Idle, AnyFailed, Indices;
    if |steps| > 0 {
      FailedHandoverNeverEnds(program, Apply(program, start, steps[0]), steps[1..], end, next);
    }
  }

  // ---------- The bus never deadlocks and never spins ----------

  /** Consumer work still to do: two units a queued event, one an event in flight. */
  function Backlog(consumers: seq<Consumer>): nat {
    if |consumers| == 0 then 0
    else Backlog(consumers[..|consumers| - 1])
         + 2 * |consumers[|consumers| - 1].queue| + (if consumers[|consumers| - 1].inFlight.Some? then 1 else 0)
  }

  /** Publisher work still to do at operation `pc`. */
  function OperationWork(o: Output, n: nat): nat {
    match o
    case Published(_) => 5 * n + 2
    case Drained => n + 2
    case Consumed(_) => 1
  }

  function ProgramWork(program: seq<Output>, pc: nat, n: nat): nat
    decreases |program| - pc
  {
    if pc >= |program| then 0 else OperationWork(program[pc], n) + ProgramWork(program, pc + 1, n)
  }

  function Work(program: seq<Output>, s: Bus): nat
    requires Inv(program, s)
  {
    var n := |s.consumers|;
    Backlog(s.consumers)
    + match s.phase
      case Ready => 1 + ProgramWork(program, s.pc, n)
      case Putting(next) => 2 + 5 * (n - next) + ProgramWork(program, s.pc + 1, n)
      case Waiting(next) => 1 + 5 * (n - next) + ProgramWork(program, s.pc + 1, n)
      case Handing(next) => 5 * (n - next) - 2 + ProgramWork(program, s.pc + 1, n)
      case Draining(waiting) => 2 + |waiting| + ProgramWork(program, s.pc + 1, n)
      case Raised(_) => 0
  }

  lemma {:induction false} BacklogUpdate(consumers: seq<Consumer>, k: nat, c: Consumer)
    requires k < |consumers|
    ensures Backlog(consumers[k := c])
         == Backlog(consumers) - 2 * |consumers[k].queue| - (if consumers[k].inFlight.Some? then 1 else 0)
            + 2 * |c.queue| + (if c.inFlight.Some? then 1 else 0)
    decreases |consumers|
  {
    var n := |consumers| - 1;
    if k < n {
      BacklogUpdate(consumers[..n], k, c);
      assert consumers[k := c][..n] == consumers[..n][k := c];
    } else {
      assert consumers[k := c][..n] == consumers[..n];
    }
  }

  /** Each step uses up work, so every execution ends. */
  lemma {:induction false} StepsUseUpWork(program: seq<Output>, s: Bus, step: Step)
    requires Inv(program, s) && Enabled(program, s, step)
    ensures Inv(program, Apply(program, s, step))
    ensures Work(program, Apply(program, s, step)) < Work(program, s)
  {
    StepKeeps(program, s, step);
    hide Inv, Enabled, Apply, Work;
    if step.Put? || step.Enqueue? || step.Take? || step.Finish? || step.Fail? {
      ConsumerStepsUseUpWork(program, s, step);
    } else {
      PhaseStepsUseUpWork(program, s, step);
    }
  }

  lemma {:induction false} ConsumerStepsUseUpWork(program: seq<Output>, s: Bus, step: Step)
    requires Inv(program, s) && Enabled(program, s, step) && Inv(program, Apply(program, s, step))
    requires step.Put? || step.Enqueue? || step.Take? || step.Finish? || step.Fail?
    ensures Work(program, Apply(program, s, step)) < Work(program, s)
  {
    hide EventsOf, Quiesced, ConsumerOk, Idle, AnyFailed, Backlog, ProgramWork;
    match step
    case Put | Enqueue =>
      BacklogUpdate(s.consumers, s.phase.next, Apply(program, s, step).consumers[s.phase.next]);
    case Take(k) => BacklogUpdate(s.consumers, k, Apply(program, s, step).consumers[k]);
    case Finish(k) => BacklogUpdate(s.consumers, k, Apply(program, s, step).consumers[k]);
    case Fail(k) => BacklogUpdate(s.consumers, k, Apply(program, s, step).consumers[k]);
    case _ =>
  }

  lemma {:induction false} PhaseStepsUseUpWork(program: seq<Output>, s: Bus, step: Step)
    requires Inv(program, s) && Enabled(program, s, step) && Inv(program, Apply(program, s, step))
    requires !(step.Put? || step.Enqueue? || step.Take? || step.Finish? || step.Fail?)
    ensures Work(program, Apply(program, s, step)) < Work(program, s)
  {
    hide EventsOf, Quiesced, ConsumerOk, Idle, Indices, AnyFailed, Backlog;
  }

  /** Unless the program is done or a failure was raised, some step is enabled: no deadlock. */
  lemma {:induction false} NeverStuck(program: seq<Output>, s: Bus) returns (step: Step)
    requires Inv(program, s) && !s.phase.Raised? && (s.phase.Ready? ==> s.pc < |program|)
    ensures Enabled(program, s, step)
  {
    match s.phase
    case Ready =>
      step := if program[s.pc].Consumed? || !AnyFailed(s) then Begin else Raise;
    case Putting(next) =>
      if next == |s.consumers| {
        step := EndPublish;
      } else {
        step := if s.consumers[next].Full() then Block else Put;
      }
    case Waiting(next) =>
      var c := s.consumers[next];
      assert ConsumerOk(program, s, next);
      step := if c.failed then Raise
              else if !c.Full() then Enqueue
              else if c.inFlight.Some? then Finish(next)
              else Take(next);
    case Handing(next) =>
      step := if s.consumers[next].failed then Raise else Resume;
    case Draining(waiting) =>
      if AnyFailed(s) {
        step := Raise;
      } else if waiting == {} {
        step := EndDrain;
      } else {
        var k :| k in waiting;
        if k < |s.consumers| {
          var c := s.consumers[k];
          step := if c.Unfinished() == 0 then Joined(k) else if c.inFlight.Some? then Finish(k) else Take(k);
        }
      }
  }
}
