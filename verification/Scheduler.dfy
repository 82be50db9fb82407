/**
 Fixed UTC decision boundaries. Timestamps and intervals are integer microseconds
 since the epoch.
 */
module Scheduler {
  import opened Common

  datatype Kind = FEATURE | SIGNAL

  datatype Tick = Tick(at: int, kind: Kind)

  // ---------- Reference: the ticks of an interval of time ----------

  /** The ticks at one instant: the feature tick comes before the signal tick. */
  function TicksAt(t: int, feature: int, signal: int): seq<Tick>
    requires feature > 0 && signal > 0
  {
    (if t % feature == 0 then [Tick(t, FEATURE)] else []) + (if t % signal == 0 then [Tick(t, SIGNAL)] else [])
  }

  /** Every multiple of either interval in `(after, through]`, instant by instant. */
  function Ticks(after: int, through: int, feature: int, signal: int): seq<Tick>
    requires feature > 0 && signal > 0
    decreases through - after
  {
    if through <= after then [] else Ticks(after, through - 1, feature, signal) + TicksAt(through, feature, signal)
  }

  /** Advancing in several steps gives the same ticks as one advance. */
  lemma {:induction false} TicksSplit(a: int, b: int, c: int, feature: int, signal: int)
    requires feature > 0 && signal > 0 && a <= b <= c
    ensures Ticks(a, c, feature, signal) == Ticks(a, b, feature, signal) + Ticks(b, c, feature, signal)
    decreases c - b
  {
    if b < c {
      TicksSplit(a, b, c - 1, feature, signal);
    }
  }

  /** A tick is listed exactly when its instant is a multiple of its interval inside `(after, through]`. */
  lemma {:induction false} TicksAreTheMultiples(after: int, through: int, feature: int, signal: int, tick: Tick)
    requires feature > 0 && signal > 0
    ensures tick in Ticks(after, through, feature, signal) <==>
              after < tick.at <= through && tick.at % (if tick.kind == FEATURE then feature else signal) == 0
    decreases through - after
  {
    if through > after {
      TicksAreTheMultiples(after, through - 1, feature, signal, tick);
      assert tick in TicksAt(through, feature, signal) <==>
          tick.at == through && through % (if tick.kind == FEATURE then feature else signal) == 0;
    }
  }

  predicate Before(a: Tick, b: Tick) {
    a.at < b.at || (a.at == b.at && a.kind == FEATURE && b.kind == SIGNAL)
  }

  predicate Ordered(ticks: seq<Tick>) {
    forall i, j :: 0 <= i < j < |ticks| ==> Before(ticks[i], ticks[j])
  }

  /** Ticks come strictly in time order, feature before signal on a tie; so none is repeated. */
  lemma {:induction false} TicksAreOrdered(after: int, through: int, feature: int, signal: int)
    requires feature > 0 && signal > 0
    ensures Ordered(Ticks(after, through, feature, signal))
    decreases through - after
  {
    if through > after {
      TicksAreOrdered(after, through - 1, feature, signal);
      var init := Ticks(after, through - 1, feature, signal);
      forall i | 0 <= i < |init| ensures init[i].at < through {
        TicksAreTheMultiples(after, through - 1, feature, signal, init[i]);
        assert init[i] in init;
      }
      var ticks := Ticks(after, through, feature, signal);
      assert ticks == init + TicksAt(through, feature, signal);
      forall i, j | 0 <= i < j < |ticks| ensures Before(ticks[i], ticks[j]) {
        if j < |init| {
          assert Before(init[i], init[j]);
        } else if i < |init| {
          assert ticks[i] == init[i] && ticks[j] == TicksAt(through, feature, signal)[j - |init|];
        }
      }
    }
  }

  // ---------- Boundaries ----------

  function NextBoundary(after: int, interval: int): (next: int)
    requires interval > 0
    ensures next % interval == 0 && after < next <= after + interval
  {
    BoundaryIsMultiple(after / interval + 1, interval);
    (after / interval + 1) * interval
  }

  lemma {:induction false} BoundaryIsMultiple(n: int, interval: int)
    requires interval > 0
    ensures (n * interval) % interval == 0
  {
    var q, r := (n * interval) / interval, (n * interval) % interval;
    assert (n - q) * interval == r;
    if n - q >= 1 {
      ProductAtLeast(n - q, interval);
    } else if n - q <= -1 {
      ProductAtLeast(q - n, interval);
    }
  }

  lemma {:induction false} ProductAtLeast(n: int, d: int)
    requires n >= 1 && d > 0
    ensures n * d >= d && -n * d <= -d
  {
    assert n * d == (n - 1) * d + d && (n - 1) * d >= 0;
  }

  /** `next` is the first multiple of the interval behind `at`. */
  predicate Pending(next: int, interval: int, at: int)
    requires interval > 0
  {
    next % interval == 0 && next - interval <= at < next
  }

  /** Between neighbouring multiples there is no multiple. */
  lemma {:induction false} NoMultipleBetween(next: int, interval: int, at: int, t: int)
    requires interval > 0 && Pending(next, interval, at) && at < t < next
    ensures t % interval != 0
  {
    if t % interval == 0 {
      var a, b := next / interval, t / interval;
      assert next == a * interval && t == b * interval;
      assert next - t == (a - b) * interval;
      if a - b >= 1 {
        ProductAtLeast(a - b, interval);
      } else if a - b <= -1 {
        ProductAtLeast(b - a, interval);
      }
    }
  }

  lemma {:induction false} PendingAdvances(next: int, interval: int, at: int, boundary: int)
    requires interval > 0 && Pending(next, interval, at) && at < boundary <= next
    ensures Pending(if next == boundary then next + interval else next, interval, boundary)
  {
    var a := next / interval;
    assert next + interval == (a + 1) * interval;
    BoundaryIsMultiple(a + 1, interval);
  }

  /** No tick falls in a stretch free of both kinds of boundary. */
  lemma {:induction false} NoTicks(after: int, through: int, feature: int, signal: int, f: int, s: int)
    requires feature > 0 && signal > 0 && Pending(f, feature, after) && Pending(s, signal, after)
    requires through < f && through < s
    ensures Ticks(after, through, feature, signal) == []
    decreases through - after
  {
    if through > after {
      NoMultipleBetween(f, feature, after, through);
      NoMultipleBetween(s, signal, after, through);
      NoTicks(after, through - 1, feature, signal, f, s);
    }
  }

  /** The next boundary contributes its own ticks and nothing before it does. */
  lemma {:induction false} TicksToBoundary(start: int, reached: int, boundary: int, feature: int, signal: int,
                                           f: int, s: int)
    requires feature > 0 && signal > 0 && start <= reached
    requires Pending(f, feature, reached) && Pending(s, signal, reached)
    requires boundary == if f <= s then f else s
    ensures Ticks(start, boundary, feature, signal)
         == Ticks(start, reached, feature, signal)
            + (if f == boundary then [Tick(boundary, FEATURE)] else [])
            + (if s == boundary then [Tick(boundary, SIGNAL)] else [])
  {
    NoTicks(reached, boundary - 1, feature, signal, f, s);
    TicksSplit(start, reached, boundary - 1, feature, signal);
    if boundary < f {
      NoMultipleBetween(f, feature, reached, boundary);
    }
    if boundary < s {
      NoMultipleBetween(s, signal, reached, boundary);
    }
  }

  lemma {:induction false} NoMoreTicks(start: int, reached: int, target: int, feature: int, signal: int, f: int, s: int)
    requires feature > 0 && signal > 0 && start <= reached <= target < f && target < s
    requires Pending(f, feature, reached) && Pending(s, signal, reached)
    ensures Ticks(start, target, feature, signal) == Ticks(start, reached, feature, signal)
    ensures Pending(f, feature, target) && Pending(s, signal, target)
  {
    NoTicks(reached, target, feature, signal, f, s);
    TicksSplit(start, reached, target, feature, signal);
  }

  // ---------- The scheduler ----------

  class DecisionScheduler {
    const featureInterval: int
    const signalInterval: int
    var cursor: int
    var nextFeature: int
    var nextSignal: int

    /** Both pending boundaries are the first ones behind the cursor. */
    ghost predicate Valid()
      reads this
    {
      && featureInterval > 0 && signalInterval > 0
      && Pending(nextFeature, featureInterval, cursor) && Pending(nextSignal, signalInterval, cursor)
    }

    constructor (start: int, featureInterval: int, signalInterval: int)
      requires featureInterval > 0 && signalInterval > 0
      ensures Valid() && cursor == start
      ensures this.featureInterval == featureInterval && this.signalInterval == signalInterval
    {
      this.featureInterval, this.signalInterval := featureInterval, signalInterval;
      cursor := start;
      nextFeature := NextBoundary(start, featureInterval);
      nextSignal := NextBoundary(start, signalInterval);
    }

    function NextDue(): int
      reads this
    {
      if nextFeature <= nextSignal then nextFeature else nextSignal
    }

    /** True exactly when an advance to `target` would produce a tick. */
    method HasDueTick(target: int) returns (r: Result<bool>)
      requires Valid()
      ensures target < cursor <==> r.Failure?
      ensures r.Success? ==> (r.value <==> Ticks(cursor, target, featureInterval, signalInterval) != [])
    {
      if target < cursor {
        return Failure("decision scheduler cannot move backwards");
      }
      if NextDue() <= target {
        var due := if NextDue() == nextFeature then Tick(nextFeature, FEATURE) else Tick(nextSignal, SIGNAL);
        TicksAreTheMultiples(cursor, target, featureInterval, signalInterval, due);
      } else {
        NoTicks(cursor, target, featureInterval, signalInterval, nextFeature, nextSignal);
      }
      return Success(NextDue() <= target);
    }

    method AdvanceTo(target: int) returns (r: Result<seq<Tick>>)
      requires Valid()
      modifies this
      ensures Valid()
      ensures target < old(cursor) ==> r.Failure? && unchanged(this)
      ensures target >= old(cursor) ==>
                r == Success(Ticks(old(cursor), target, featureInterval, signalInterval)) && cursor == target
    {
      if target < cursor {
        return Failure("decision scheduler cannot move backwards");
      }
      var ticks := [];
      ghost var reached := cursor;
      while NextDue() <= target
        invariant cursor == old(cursor) <= reached <= target
        invariant Pending(nextFeature, featureInterval, reached) && Pending(nextSignal, signalInterval, reached)
        invariant ticks == Ticks(cursor, reached, featureInterval, signalInterval)
        decreases target - reached
      {
        var boundary := NextDue();
        TicksToBoundary(cursor, reached, boundary, featureInterval, signalInterval, nextFeature, nextSignal);
        PendingAdvances(nextFeature, featureInterval, reached, boundary);
        PendingAdvances(nextSignal, signalInterval, reached, boundary);
        if nextFeature == boundary {
          ticks := ticks + [Tick(boundary, FEATURE)];
          nextFeature := nextFeature + featureInterval;
        }
        if nextSignal == boundary {
          ticks := ticks + [Tick(boundary, SIGNAL)];
          nextSignal := nextSignal + signalInterval;
        }
        reached := boundary;
      }
      NoMoreTicks(cursor, reached, target, featureInterval, signalInterval, nextFeature, nextSignal);
      cursor := target;
      return Success(ticks);
    }
  }
}
