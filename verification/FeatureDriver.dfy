/**
 The receive-time driver: a bounded reorder heap, a watermark and a decision scheduler
 turn late, out-of-order arrivals and clock polls into the canonical timeline.

 The heap is a sequence with extraction of the least key. The lock makes every public
 call atomic, so calls are methods; bus and runtime calls are recorded in `trace`.
 */
module FeatureDriver {
  import opened Common
  import opened QueueOrder
  import opened Timeline
  import S = Scheduler

  class ReceiveTimeDriver {
    const lateness: int
    const capacity: nat
    const feature: int
    const signal: int
    const identity: Identity
    var scheduler: S.DecisionScheduler?
    var events: seq<Queued>
    var ordinal: nat
    var watermark: Option<int>
    var maximumSeen: Option<int>
    var sealed: bool
    var failed: bool
    ghost var accepted: seq<Queued>
    ghost var trace: seq<Output>

    ghost predicate Scheduling()
      reads this, scheduler
    {
      && feature > 0 && signal > 0
      && (scheduler != null ==>
            scheduler.Valid() && scheduler.featureInterval == feature && scheduler.signalInterval == signal)
    }

    /** What holds at any point of a call. */
    ghost predicate Shape()
      reads this, scheduler
    {
      && lateness > 0 && capacity >= 1
      && Scheduling()
      && ordinal == |accepted| && Arrivals(accepted, identity)
      && SeenUpTo(accepted, maximumSeen)
      && Guarded(trace)
    }

    /** The trace is the canonical timeline through `f`, but for the ticks the scheduler still owes. */
    ghost predicate Reached(f: int)
      reads this, scheduler
    {
      && Shape()
      && HoldsAfter(events, accepted, f)
      && (if scheduler == null then NotStarted(Visible(trace), accepted, f)
          else Owes(Visible(trace), accepted, scheduler.cursor, f, feature, signal))
    }

    ghost predicate Valid()
      reads this, scheduler
    {
      && Shape()
      && (watermark.None? ==> accepted == [] && events == [] && Visible(trace) == [] && scheduler == null)
      && (watermark.Some? ==>
            && Reached(watermark.value)
            && Visible(trace) == Canonical(accepted, watermark.value, feature, signal))
    }

    constructor (lateness: int, capacity: nat, feature: int, signal: int, identity: Identity)
      requires lateness > 0 && capacity >= 1 && feature > 0 && signal > 0
      ensures Valid() && accepted == [] && trace == [] && watermark == None && !sealed && !failed
      ensures this.lateness == lateness && this.capacity == capacity
      ensures this.feature == feature && this.signal == signal && this.identity == identity
      ensures fresh(scheduler) || scheduler == null
    {
      this.lateness, this.capacity, this.feature, this.signal := lateness, capacity, feature, signal;
      this.identity := identity;
      scheduler, events, ordinal, watermark, maximumSeen := null, [], 0, None, None;
      sealed, failed := false, false;
      accepted, trace := [], [];
    }

    method Earliest() returns (k: nat)
      requires |events| > 0 && DistinctOrdinals(events)
      ensures k < |events| && IsLeast(events, events[k])
    {
      k := 0;
      for i := 1 to |events|
        invariant 0 <= k < i
        invariant forall j :: 0 <= j < i && j != k ==> KeyLess(events[k], events[j])
      {
        KeyOrder(events[k], events[i], events[k]);
        if KeyLess(events[i], events[k]) {
          forall j | 0 <= j < i ensures KeyLess(events[i], events[j]) {
            KeyOrder(events[i], events[k], events[j]);
          }
          k := i;
        }
      }
    }

    method Pop(k: nat) returns (q: Queued)
      requires k < |events| && DistinctOrdinals(events)
      modifies this`events
      ensures q == old(events)[k] && Removed(old(events), q, events) && |events| == |old(events)| - 1
    {
      q := events[k];
      events := events[..k] + events[k + 1..];
      assert forall x :: x in old(events) ==> x == q || x in old(events)[..k] || x in old(events)[k + 1..];
    }

    /** Emit the due ticks behind a drain of the bus; a target behind the cursor is ignored. */
    method EmitTicksThrough(target: int)
      requires Scheduling() && Guarded(trace)
      modifies this`trace, scheduler
      ensures Scheduling() && Guarded(trace) && old(trace) <= trace
      ensures scheduler == null || target < old(scheduler.cursor) ==>
                trace == old(trace) && (scheduler != null ==> scheduler.cursor == old(scheduler.cursor))
      ensures scheduler != null && target >= old(scheduler.cursor) ==>
                var ticks := S.Ticks(old(scheduler.cursor), target, feature, signal);
                && old(scheduler.cursor) <= scheduler.cursor <= target
                && S.Ticks(scheduler.cursor, target, feature, signal) == []
                && Visible(trace) == Visible(old(trace)) + Consumptions(ticks)
    {
      if scheduler == null || target < scheduler.cursor {
        return;
      }
      var due := scheduler.HasDueTick(target);
      if !due.value {
        return;
      }
      hide Visible, Quiesced;
      ghost var before := trace;
      AfterDrain(trace);
      trace := trace + [Drained];
      var advanced := scheduler.AdvanceTo(target);
      ConsumeTicks(advanced.value);
      VisibleAppend(before + [Drained], Consumptions(advanced.value));
      VisibleTicks(advanced.value);
    }

    method ConsumeTicks(ticks: seq<S.Tick>)
      requires Guarded(trace) && Quiesced(trace)
      modifies this`trace
      ensures Guarded(trace) && Quiesced(trace) && trace == old(trace) + Consumptions(ticks)
    {
      var i := 0;
      while i < |ticks|
        invariant i <= |ticks|
        invariant trace == old(trace) + Consumptions(ticks[..i])
        invariant Guarded(trace) && Quiesced(trace)
      {
        trace := trace + [Consumed(ticks[i])];
        assert Consumptions(ticks[..i + 1]) == Consumptions(ticks[..i]) + [Consumed(ticks[i])];
        i := i + 1;
      }
      assert ticks[..i] == ticks;
    }

    /** Publish the events received at instant `at`, the next one behind `f`. */
    method PublishAll(at: int, ghost f: int)
      requires HoldsAfter(events, accepted, f) && NextInstant(accepted, f, at) && DistinctOrdinals(accepted)
      requires Guarded(trace)
      modifies this`events, this`trace
      ensures HoldsAfter(events, accepted, at) && Guarded(trace)
      ensures trace == old(trace) + At(accepted, at)
    {
      hide Popping, IsLeast, Removed, HoldsAfter, NextInstant, ReceivedAt, Sort;
      PopStart(events, accepted, f, at);
      ghost var popped: seq<Queued> := [];
      while true
        invariant Popping(popped, events, accepted, f, at) && DistinctOrdinals(events) && Guarded(trace)
        invariant trace == old(trace) + Publications(popped)
        decreases |events|
      {
        if |events| == 0 {
          break;
        }
        var k := Earliest();
        if events[k].receive != at {
          break;
        }
        ghost var heap := events;
        var q := Pop(k);
        PopStep(popped, heap, accepted, f, at, q, events);
        trace := trace + [Published(q.event)];
        assert Publications(popped + [q]) == Publications(popped) + [Published(q.event)];
        popped := popped + [q];
      }
      AllPopped(popped, events, accepted, f, at);
    }

    /** One round of the outer loop: ticks due before `at`, then every event of `at`. */
    method ProcessInstant(at: int, ghost f: int)
      requires Reached(f) && NextInstant(accepted, f, at)
      modifies this`trace, this`events, this`scheduler, scheduler
      ensures Reached(at) && old(trace) <= trace
      ensures scheduler == old(scheduler) || fresh(scheduler)
    {
      hide HoldsAfter, NextInstant, Quiet, DistinctOrdinals, Canonical, Guarded, SeenUpTo;
      NextInstantIsQuietBefore(accepted, f, at);
      if scheduler == null {
        scheduler := new S.DecisionScheduler(at, feature, signal);
      } else {
        QuietTicksComplete(accepted, scheduler.cursor, f, at - 1, feature, signal, Visible(trace));
      }
      EmitTicksThrough(at - 1);
      ghost var before := trace;
      PublishAll(at, f);
      InstantOwesTicks(accepted, scheduler.cursor, at, feature, signal, before);
    }

    /** Emit the ticks owed through `target` when no accepted event lies in between. */
    method CatchUp(target: int, ghost f: int)
      requires Reached(f) && f <= target
      requires Quiet(accepted, f, target)
      modifies this`trace, scheduler
      ensures Reached(target) && old(trace) <= trace
      ensures Visible(trace) == Canonical(accepted, target, feature, signal)
    {
      if scheduler != null {
        QuietTicksComplete(accepted, scheduler.cursor, f, target, feature, signal, Visible(trace));
      } else if |accepted| > 0 {
        FirstIsEarliest(accepted);
      }
      EmitTicksThrough(target);
    }

    method AdvanceLocked(target: int)
      requires Valid()
      modifies this`trace, this`events, this`scheduler, this`watermark, scheduler
      ensures Valid() && (scheduler == old(scheduler) || fresh(scheduler)) && old(trace) <= trace
      ensures watermark == Advanced(old(watermark), target)
    {
      if watermark.Some? && target <= watermark.value {
        return;
      }
      ghost var f := if watermark.Some? then watermark.value else target;
      AdvanceHeap(target, f);
      watermark := Some(target);
    }

    method AdvanceHeap(target: int, ghost f: int)
      requires Reached(f) && f <= target
      modifies this`trace, this`events, this`scheduler, scheduler
      ensures Reached(target) && old(trace) <= trace
      ensures Visible(trace) == Canonical(accepted, target, feature, signal)
      ensures scheduler == old(scheduler) || fresh(scheduler)
    {
      ghost var reached := f;
      while true
        invariant Reached(reached) && reached <= target
        invariant scheduler == old(scheduler) || fresh(scheduler)
        invariant old(trace) <= trace
        decreases target - reached
      {
        if |events| == 0 {
          break;
        }
        var k := Earliest();
        var at := events[k].receive;
        if at > target {
          break;
        }
        LeastIsNextInstant(events, accepted, reached, events[k]);
        ProcessInstant(at, reached);
        reached := at;
      }
      HeapBehindTargetIsQuiet(events, accepted, reached, target);
      CatchUp(target, reached);
    }

    /** Buffer an event received behind the watermark, and advance to its reorder bound. */
    method Publish(event: MarketEvent) returns (r: Result<()>)
      requires Valid()
      modifies this, scheduler
      ensures Valid() && (scheduler == old(scheduler) || fresh(scheduler)) && old(trace) <= trace
      ensures sealed == old(sealed)
      ensures old(failed) || old(sealed) || (old(watermark).Some? && event.receive <= old(watermark).value) ==>
                r.Failure? && unchanged(this)
      ensures !(old(failed) || old(sealed) || (old(watermark).Some? && event.receive <= old(watermark).value)) ==>
                && watermark == Advanced(old(watermark), event.receive - lateness)
                && (r.Success? ==> failed == old(failed) && |events| <= capacity
                                   && accepted == old(accepted) + [QueueItem(event, old(ordinal) + 1, identity)])
                && (r.Failure? ==> failed && |events| >= capacity && accepted == old(accepted))
    {
      if failed {
        return Failure("feature timeline previously failed");
      }
      if sealed {
        return Failure("cannot publish after feature timeline finish");
      }
      if watermark.Some? && event.receive <= watermark.value {
        return Failure("normalized event arrived behind the receive-time watermark");
      }
      r := PublishLocked(event);
    }

    method PublishLocked(event: MarketEvent) returns (r: Result<()>)
      requires Valid() && lateness > 0 && (watermark.Some? ==> event.receive > watermark.value)
      modifies this, scheduler
      ensures Valid() && (scheduler == old(scheduler) || fresh(scheduler)) && old(trace) <= trace
      ensures sealed == old(sealed) && watermark == Advanced(old(watermark), event.receive - lateness)
      ensures r.Success? ==> failed == old(failed) && |events| <= capacity
                             && accepted == old(accepted) + [QueueItem(event, old(ordinal) + 1, identity)]
      ensures r.Failure? ==> failed && |events| >= capacity && accepted == old(accepted)
    {
      hide Valid, Shape, Reached, QueueItem;
      AdvanceLocked(event.receive - lateness);
      if |events| >= capacity {
        RecordFailure();
        return Failure("feature timeline reorder buffer is full");
      }
      Accept(event);
      return Success(());
    }

    method RecordFailure()
      requires Valid()
      modifies this`failed
      ensures Valid() && failed
    {
      hide Canonical, Visible, Guarded, HoldsAfter, SeenUpTo, Arrivals, NotStarted, Owes;
      failed := true;
    }

    method Accept(event: MarketEvent)
      requires Valid() && watermark.Some? && event.receive > watermark.value
      modifies this`ordinal, this`events, this`accepted, this`maximumSeen
      ensures Valid() && |events| == |old(events)| + 1
      ensures accepted == old(accepted) + [QueueItem(event, old(ordinal) + 1, identity)]
    {
      hide Canonical, Visible, Guarded, HoldsAfter, SeenUpTo, Arrivals, NotStarted, First, DistinctOrdinals;
      hide Consumptions, S.Ticks, Fields;
      ordinal := ordinal + 1;
      var item := QueueItem(event, ordinal, identity);
      AcceptLater(accepted, events, item, watermark.value, feature, signal, identity);
      SeesLater(accepted, maximumSeen, item);
      events := events + [item];
      accepted := accepted + [item];
      maximumSeen := Latest(maximumSeen, Some(event.receive));
    }

    /** Move the watermark without an event. */
    method AdvanceTo(timestamp: int) returns (r: Result<()>)
      requires Valid()
      modifies this, scheduler
      ensures Valid() && (scheduler == old(scheduler) || fresh(scheduler)) && old(trace) <= trace
      ensures accepted == old(accepted) && sealed == old(sealed) && failed == old(failed)
      ensures r.Failure? <==> old(failed)
      ensures watermark == if old(failed) || old(sealed) then old(watermark) else Advanced(old(watermark), timestamp)
      ensures old(failed) || old(sealed) ==> trace == old(trace)
    {
      if failed {
        return Failure("feature timeline previously failed");
      }
      if !sealed {
        AdvanceLocked(timestamp);
      }
      return Success(());
    }

    /** Flush every buffered event, emit the final boundaries and seal the timeline. */
    method Finish(through: Option<int>) returns (r: Result<()>)
      requires Valid()
      modifies this, scheduler
      ensures Valid() && (scheduler == old(scheduler) || fresh(scheduler)) && old(trace) <= trace
      ensures accepted == old(accepted) && failed == old(failed)
      ensures r.Failure? <==> old(failed)
      ensures r.Success? ==> sealed
      ensures r.Failure? || old(sealed) ==> trace == old(trace)
      ensures r.Success? && !old(sealed) ==> |trace| > |old(trace)| && trace[|trace| - 1] == Drained
      ensures r.Success? && !old(sealed) ==>
                && events == []
                && watermark == (match Latest(old(maximumSeen), through)
                                 case None => old(watermark)
                                 case Some(target) => Advanced(old(watermark), target))
    {
      if failed {
        return Failure("feature timeline previously failed");
      }
      if sealed {
        return Success(());
      }
      FinishLocked(through);
      return Success(());
    }

    method FinishLocked(through: Option<int>)
      requires Valid()
      modifies this, scheduler
      ensures Valid() && (scheduler == old(scheduler) || fresh(scheduler)) && old(trace) <= trace
      ensures accepted == old(accepted) && failed == old(failed) && sealed && events == []
      ensures |trace| > |old(trace)| && trace[|trace| - 1] == Drained
      ensures watermark == (match Latest(old(maximumSeen), through)
                            case None => old(watermark)
                            case Some(target) => Advanced(old(watermark), target))
    {
      hide Valid, Shape, Reached;
      var target := Latest(maximumSeen, through);
      if target.Some? {
        AdvanceLocked(target.value);
      }
      EverythingEmitted();
      Seal();
    }

    lemma {:induction false} EverythingEmitted()
      requires Valid() && (maximumSeen.Some? ==> watermark.Some? && maximumSeen.value <= watermark.value)
      ensures events == []
    {
      if watermark.Some? {
        NothingLeft(events, accepted, maximumSeen, watermark.value);
      }
    }

    /** Drain the bus and refuse further events. */
    method Seal()
      requires Valid()
      modifies this`trace, this`sealed
      ensures Valid() && sealed && trace == old(trace) + [Drained]
    {
      hide Canonical, Visible, Guarded, HoldsAfter, SeenUpTo, Arrivals, NotStarted, Owes;
      AfterDrain(trace);
      trace := trace + [Drained];
      sealed := true;
    }
  }

  function Advanced(watermark: Option<int>, target: int): Option<int> {
    if watermark.Some? && target <= watermark.value then watermark else Some(target)
  }

  /**
   Live and replay agree: two drivers that accepted the same events, in any arrival order and
   under any polling of the clock, and stand at the same watermark have shown the same
   timeline, up to swapping events whose queue keys are equal.
   */
  lemma {:induction false} LiveAndReplayAgree(live: ReceiveTimeDriver, replay: ReceiveTimeDriver)
    requires live.Valid() && replay.Valid() && live.watermark == replay.watermark
    requires live.feature == replay.feature && live.signal == replay.signal && live.identity == replay.identity
    requires multiset(Events(live.accepted)) == multiset(Events(replay.accepted))
    ensures Labels(Visible(live.trace), live.identity) == Labels(Visible(replay.trace), live.identity)
    ensures (forall x, y :: live.identity(x) == live.identity(y) ==> x == y) ==>
              Visible(live.trace) == Visible(replay.trace)
  {
    if live.watermark.Some? {
      ArrivalsAreKeyed(live.accepted, live.identity);
      ArrivalsAreKeyed(replay.accepted, live.identity);
      CanonicalDependsOnEventsOnly(live.accepted, replay.accepted, live.watermark.value,
                                   live.feature, live.signal, live.identity);
    }
    if forall x, y :: live.identity(x) == live.identity(y) ==> x == y {
      InjectiveIdentityFixesTrace(Visible(live.trace), Visible(replay.trace), live.identity);
    }
  }

  /** No lookahead and nothing missing: a tick at `b` follows exactly the accepted events received by `b`. */
  lemma {:induction false} TickFollowsExactlyItsPast(d: ReceiveTimeDriver, i: nat)
    requires d.Valid() && i < |Visible(d.trace)| && Visible(d.trace)[i].Consumed?
    ensures var shown := Visible(d.trace);
            multiset(EventsOf(shown[..i])) == multiset(EventsThrough(Events(d.accepted), shown[i].tick.at))
  {
    ArrivalsAreKeyed(d.accepted, d.identity);
    TickSeesExactlyItsPast(d.accepted, d.watermark.value, d.feature, d.signal, i);
  }

  /**
   Every driver has published in the order of the events' own fields, and consumed exactly the
   ticks due behind the first event through its watermark.
   */
  lemma {:induction false} TraceInEventOrder(d: ReceiveTimeDriver)
    requires d.Valid()
    ensures InEventOrder(EventsOf(Visible(d.trace)), d.identity)
    ensures TicksOf(Visible(d.trace))
         == if d.accepted == [] || d.watermark.None? then []
            else S.Ticks(First(d.accepted), d.watermark.value, d.feature, d.signal)
  {
    hide EventLess, Canonical;
    if d.watermark.Some? {
      ArrivalsAreKeyed(d.accepted, d.identity);
      CanonicalInEventOrder(d.accepted, d.watermark.value, d.feature, d.signal, d.identity);
      CanonicalTicks(d.accepted, d.watermark.value, d.feature, d.signal);
    }
  }
}
