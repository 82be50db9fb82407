/**
 The canonical receive-time timeline: at every instant first the events received then,
 in key order, and after them the decision ticks due then. Ticks start behind the first
 event. It depends on the accepted events only, not on when they arrived.
 */
module Timeline {
  import opened Common
  import opened QueueOrder
  import opened Sequences
  import S = Scheduler

  /** What the driver hands on: bus publications, bus drains and consumed ticks. */
  datatype Output = Published(event: MarketEvent) | Drained | Consumed(tick: S.Tick)

  // ---------- Definition ----------

  function Publications(items: seq<Queued>): seq<Output> {
    seq(|items|, i requires 0 <= i < |items| => Published(items[i].event))
  }

  function Consumptions(ticks: seq<S.Tick>): seq<Output> {
    seq(|ticks|, i requires 0 <= i < |ticks| => Consumed(ticks[i]))
  }

  /** The accepted items received at instant `t`, in arrival order. */
  function ReceivedAt(items: seq<Queued>, t: int): seq<Queued> {
    Filter((q: Queued) => q.receive == t, items)
  }

  function First(items: seq<Queued>): int
    requires |items| > 0
  {
    var last := items[|items| - 1].receive;
    if |items| == 1 then last
    else
      var first := First(items[..|items| - 1]);
      if last < first then last else first
  }

  function At(items: seq<Queued>, t: int): seq<Output> {
    Publications(Sort(ReceivedAt(items, t)))
  }

  /** The canonical merge of events and ticks through instant `t`. */
  function Canonical(items: seq<Queued>, t: int, feature: int, signal: int): seq<Output>
    requires feature > 0 && signal > 0
    decreases if |items| > 0 then t - First(items) else 0
  {
    if |items| == 0 || t < First(items) then []
    else
      (if t == First(items) then [] else Canonical(items, t - 1, feature, signal))
      + At(items, t)
      + (if t == First(items) then [] else Consumptions(S.TicksAt(t, feature, signal)))
  }

  /** The trace without its drain markers. */
  function Visible(trace: seq<Output>): seq<Output> {
    if |trace| == 0 then []
    else Visible(trace[..|trace| - 1]) + (if trace[|trace| - 1].Drained? then [] else [trace[|trace| - 1]])
  }

  function EventsOf(trace: seq<Output>): seq<MarketEvent> {
    if |trace| == 0 then []
    else EventsOf(trace[..|trace| - 1])
         + (if trace[|trace| - 1].Published? then [trace[|trace| - 1].event] else [])
  }

  /** Since the last drain of the bus nothing was published. */
  predicate Quiesced(trace: seq<Output>) {
    |trace| > 0 &&
    match trace[|trace| - 1]
    case Published(_) => false
    case Drained => true
    case Consumed(_) => Quiesced(trace[..|trace| - 1])
  }

  /** Every tick is consumed on a quiesced bus. */
  predicate Guarded(trace: seq<Output>) {
    |trace| == 0 ||
    (Guarded(trace[..|trace| - 1]) && (trace[|trace| - 1].Consumed? ==> Quiesced(trace[..|trace| - 1])))
  }

  // ---------- Value invariants of the driver ----------

  /** The accepted items in arrival order: keyed by their event and numbered from one. */
  ghost predicate Arrivals(items: seq<Queued>, identity: Identity) {
    && DistinctOrdinals(items)
    && forall i :: 0 <= i < |items| ==> items[i] == QueueItem(items[i].event, i + 1, identity)
  }

  ghost predicate SeenUpTo(items: seq<Queued>, maximum: Option<int>) {
    if maximum.None? then items == []
    else (exists q :: q in items && q.receive == maximum.value) && forall q :: q in items ==> q.receive <= maximum.value
  }

  /** The heap holds exactly what was received after `f`. */
  ghost predicate HoldsAfter(heap: seq<Queued>, items: seq<Queued>, f: int) {
    DistinctOrdinals(heap) && forall q :: q in heap <==> q in items && q.receive > f
  }

  /** Nothing was shown and nothing accepted has been received by `f`. */
  ghost predicate NotStarted(shown: seq<Output>, items: seq<Queued>, f: int) {
    shown == [] && forall q :: q in items ==> q.receive > f
  }

  /** What was shown is the timeline through `f`, but for the ticks owed behind `cursor`. */
  ghost predicate Owes(shown: seq<Output>, items: seq<Queued>, cursor: int, f: int, feature: int, signal: int)
    requires feature > 0 && signal > 0
  {
    && |items| > 0 && First(items) <= f && cursor <= f
    && shown + Consumptions(S.Ticks(cursor, f, feature, signal)) == Canonical(items, f, feature, signal)
  }

  // ---------- The reorder heap ----------

  ghost predicate IsLeast(heap: seq<Queued>, q: Queued) {
    q in heap && forall x :: x in heap ==> x == q || KeyLess(q, x)
  }

  ghost predicate Removed(heap: seq<Queued>, q: Queued, rest: seq<Queued>) {
    DistinctOrdinals(rest) && |rest| == |heap| - 1 && forall x :: x in rest <==> x in heap && x != q
  }

  /** Part of the heap behind `f` has been popped, least keys first, all received at `at`. */
  ghost predicate Popping(popped: seq<Queued>, heap: seq<Queued>, items: seq<Queued>, f: int, at: int) {
    && DistinctOrdinals(heap) && Sorted(popped)
    && (forall q :: q in heap <==> q in items && q.receive > f && q !in popped)
    && (forall q :: q in popped ==> q in items && q.receive == at)
    && (forall p, q :: p in popped && q in heap ==> KeyLess(p, q))
  }

  lemma {:induction false} PopStep(popped: seq<Queued>, heap: seq<Queued>, items: seq<Queued>, f: int, at: int,
                                   q: Queued, rest: seq<Queued>)
    requires Popping(popped, heap, items, f, at) && IsLeast(heap, q) && q.receive == at && Removed(heap, q, rest)
    ensures Popping(popped + [q], rest, items, f, at) && DistinctOrdinals(rest)
  {
    forall p | p in popped ensures KeyLess(p, q) {
    }
  }

  /** The instant `at` is the next one with events behind `f`. */
  ghost predicate NextInstant(items: seq<Queued>, f: int, at: int) {
    && f < at
    && (exists q :: q in items && q.receive == at)
    && (forall q :: q in items && q.receive > f ==> q.receive >= at)
  }

  lemma {:induction false} PopStart(heap: seq<Queued>, items: seq<Queued>, f: int, at: int)
    requires HoldsAfter(heap, items, f)
    ensures Popping([], heap, items, f, at) && DistinctOrdinals(heap)
  {
  }

  lemma {:induction false} AllPopped(popped: seq<Queued>, heap: seq<Queued>, items: seq<Queued>, f: int, at: int)
    requires Popping(popped, heap, items, f, at) && DistinctOrdinals(items) && NextInstant(items, f, at)
    requires heap == [] || exists q :: IsLeast(heap, q) && q.receive != at
    ensures popped == Sort(ReceivedAt(items, at)) && HoldsAfter(heap, items, at)
  {
    ReceivedAtMembers(items, at);
    SortSorts(ReceivedAt(items, at));
    SortedUnique(popped, Sort(ReceivedAt(items, at)));
  }

  /** No accepted event lies in `(f, target]`. */
  ghost predicate Quiet(items: seq<Queued>, f: int, target: int) {
    forall q :: q in items ==> !(f < q.receive <= target)
  }

  lemma {:induction false} HeapBehindTargetIsQuiet(heap: seq<Queued>, items: seq<Queued>, f: int, target: int)
    requires HoldsAfter(heap, items, f)
    requires heap == [] || exists q :: IsLeast(heap, q) && q.receive > target
    ensures Quiet(items, f, target)
  {
  }

  lemma {:induction false} NextInstantIsQuietBefore(items: seq<Queued>, f: int, at: int)
    requires NextInstant(items, f, at)
    ensures f < at && |items| > 0 && First(items) <= at && Quiet(items, f, at - 1)
    ensures (forall q :: q in items ==> q.receive > f) ==> First(items) == at
  {
    FirstIsEarliest(items);
  }

  lemma {:induction false} LeastIsNextInstant(heap: seq<Queued>, items: seq<Queued>, f: int, q: Queued)
    requires HoldsAfter(heap, items, f) && IsLeast(heap, q)
    ensures NextInstant(items, f, q.receive)
  {
  }

  // ---------- Basic lemmas ----------

  lemma {:induction false} FirstIsEarliest(items: seq<Queued>)
    requires |items| > 0
    ensures forall q :: q in items ==> First(items) <= q.receive
    ensures exists q :: q in items && q.receive == First(items)
  {
    var n := |items| - 1;
    assert items[n] in items;
    if n > 0 {
      FirstIsEarliest(items[..n]);
      var q :| q in items[..n] && q.receive == First(items[..n]);
      assert q in items;
      assert forall q :: q in items ==> q in items[..n] || q == items[n];
    }
  }

  lemma {:induction false} ReceivedAtMembers(items: seq<Queued>, t: int)
    ensures forall q :: q in ReceivedAt(items, t) <==> q in items && q.receive == t
    ensures DistinctOrdinals(items) ==> DistinctOrdinals(ReceivedAt(items, t))
  {
    FilterMembers((q: Queued) => q.receive == t, items);
    if DistinctOrdinals(items) {
      FilterKeepsDistinct(OrdinalOf, (q: Queued) => q.receive == t, items);
    }
  }

  lemma {:induction false} VisibleAppend(a: seq<Output>, b: seq<Output>)
    ensures Visible(a + b) == Visible(a) + Visible(b)
    decreases |b|
  {
    if |b| == 0 {
      assert a + b == a;
    } else {
      VisibleAppend(a, b[..|b| - 1]);
      assert (a + b)[..|a + b| - 1] == a + b[..|b| - 1];
    }
  }

  lemma {:induction false} AfterDrain(trace: seq<Output>)
    requires Guarded(trace)
    ensures Guarded(trace + [Drained]) && Quiesced(trace + [Drained])
    ensures Visible(trace + [Drained]) == Visible(trace)
  {
  }

  lemma {:induction false} VisibleTicks(ticks: seq<S.Tick>)
    ensures Visible(Consumptions(ticks)) == Consumptions(ticks)
    decreases |ticks|
  {
    if |ticks| > 0 {
      VisibleTicks(ticks[..|ticks| - 1]);
      assert Consumptions(ticks)[..|ticks| - 1] == Consumptions(ticks[..|ticks| - 1]);
    }
  }

  lemma {:induction false} VisiblePublications(items: seq<Queued>)
    ensures Visible(Publications(items)) == Publications(items)
    decreases |items|
  {
    if |items| > 0 {
      VisiblePublications(items[..|items| - 1]);
      assert Publications(items)[..|items| - 1] == Publications(items[..|items| - 1]);
    }
  }

  lemma {:induction false} EventsAppend(a: seq<Output>, b: seq<Output>)
    ensures EventsOf(a + b) == EventsOf(a) + EventsOf(b)
    decreases |b|
  {
    if |b| == 0 {
      assert a + b == a;
    } else {
      EventsAppend(a, b[..|b| - 1]);
      assert (a + b)[..|a + b| - 1] == a + b[..|b| - 1];
    }
  }

  lemma {:induction false} EventsOfVisible(trace: seq<Output>)
    ensures EventsOf(Visible(trace)) == EventsOf(trace)
  {
    if |trace| > 0 {
      var n := |trace| - 1;
      EventsOfVisible(trace[..n]);
      EventsAppend(Visible(trace[..n]), if trace[n].Drained? then [] else [trace[n]]);
    }
  }

  // ---------- The timeline stretches over quiet time and ignores later arrivals ----------

  lemma {:induction false} NothingAt(items: seq<Queued>, t: int)
    requires forall q :: q in items ==> q.receive != t
    ensures At(items, t) == []
  {
    FilterNone((q: Queued) => q.receive == t, items);
  }

  /** Without events in `(start, through]`, only ticks are added. */
  lemma {:induction false} CanonicalQuiet(items: seq<Queued>, start: int, through: int, feature: int, signal: int)
    requires feature > 0 && signal > 0 && |items| > 0 && First(items) <= start <= through
    requires forall q :: q in items ==> !(start < q.receive <= through)
    ensures Canonical(items, through, feature, signal)
         == Canonical(items, start, feature, signal) + Consumptions(S.Ticks(start, through, feature, signal))
    decreases through - start
  {
    hide At, First, S.TicksAt;
    if start < through {
      CanonicalQuiet(items, start, through - 1, feature, signal);
      NothingAt(items, through);
      var before, last := S.Ticks(start, through - 1, feature, signal), S.TicksAt(through, feature, signal);
      ConsumptionsAppend(before, last);
      TicksFollow(Canonical(items, start, feature, signal), Consumptions(before), Consumptions(last));
    }
  }

  lemma {:induction false} Associates(a: seq<Output>, b: seq<Output>, c: seq<Output>)
    ensures a + (b + c) == (a + b) + c
  {
  }

  /** Ticks owed at `start` plus the ticks of the quiet time behind it complete the timeline. */
  lemma {:induction false} QuietTicksComplete(items: seq<Queued>, cursor: int, start: int, target: int, feature: int,
                                              signal: int,
                           shown: seq<Output>)
    requires feature > 0 && signal > 0 && Owes(shown, items, cursor, start, feature, signal) && start <= target
    requires Quiet(items, start, target)
    ensures Owes(shown, items, cursor, target, feature, signal)
  {
    var owed, quiet := S.Ticks(cursor, start, feature, signal), S.Ticks(start, target, feature, signal);
    CanonicalQuiet(items, start, target, feature, signal);
    S.TicksSplit(cursor, start, target, feature, signal);
    ConsumptionsAppend(owed, quiet);
    Associates(shown, Consumptions(owed), Consumptions(quiet));
  }

  /** Publishing an instant behind its past leaves only its own ticks owed. */
  lemma {:induction false} InstantOwesTicks(items: seq<Queued>, cursor: int, at: int, feature: int, signal: int,
                                            before: seq<Output>)
    requires feature > 0 && signal > 0 && |items| > 0 && First(items) <= at
    requires if at == First(items) then cursor == at && Visible(before) == []
             else cursor < at && Visible(before) == Canonical(items, at - 1, feature, signal)
                  && S.Ticks(cursor, at - 1, feature, signal) == []
    ensures Owes(Visible(before + At(items, at)), items, cursor, at, feature, signal)
  {
    VisibleAppend(before, At(items, at));
    VisiblePublications(Sort(ReceivedAt(items, at)));
    if at > First(items) {
      assert S.Ticks(cursor, at, feature, signal) == S.TicksAt(at, feature, signal);
    }
  }

  lemma {:induction false} TicksFollow(a: seq<Output>, b: seq<Output>, c: seq<Output>)
    ensures (a + b) + [] + c == a + (b + c)
  {
  }

  lemma {:induction false} LaterArrival(items: seq<Queued>, q: Queued, t: int)
    requires |items| > 0 && q.receive > t >= First(items)
    ensures First(items + [q]) == First(items) && At(items + [q], t) == At(items, t)
  {
    assert (items + [q])[..|items|] == items;
  }

  /** A later arrival does not rewrite the timeline. */
  lemma {:induction false} CanonicalIgnoresLater(items: seq<Queued>, q: Queued, t: int, feature: int, signal: int)
    requires feature > 0 && signal > 0 && q.receive > t
    ensures Canonical(items + [q], t, feature, signal) == Canonical(items, t, feature, signal)
    decreases if |items| > 0 then t - First(items) else 0
  {
    assert (items + [q])[..|items|] == items;
    if |items| > 0 && t >= First(items) {
      LaterArrival(items, q, t);
      hide At, First;
      if t > First(items) {
        CanonicalIgnoresLater(items, q, t - 1, feature, signal);
      }
    }
  }

  /** Accepting an item received behind `f` keeps everything shown through `f`. */
  lemma {:induction false} AcceptLater(items: seq<Queued>, heap: seq<Queued>, q: Queued, f: int,
                                       feature: int, signal: int, identity: Identity)
    requires feature > 0 && signal > 0
    requires Arrivals(items, identity) && HoldsAfter(heap, items, f)
    requires q == QueueItem(q.event, |items| + 1, identity) && q.receive > f
    ensures Arrivals(items + [q], identity)
    ensures HoldsAfter(heap + [q], items + [q], f)
    ensures Canonical(items + [q], f, feature, signal) == Canonical(items, f, feature, signal)
    ensures |items| > 0 && First(items) <= f ==> First(items + [q]) == First(items)
    ensures forall shown :: NotStarted(shown, items, f) ==> NotStarted(shown, items + [q], f)
  {
    CanonicalIgnoresLater(items, q, f, feature, signal);
    assert (items + [q])[..|items|] == items;
    forall x | x in heap ensures x.ordinal != q.ordinal {
      assert x in items;
    }
  }

  function Latest(a: Option<int>, b: Option<int>): Option<int> {
    if a.None? then b else if b.None? || a.value >= b.value then a else b
  }

  lemma {:induction false} SeesLater(items: seq<Queued>, maximum: Option<int>, q: Queued)
    requires SeenUpTo(items, maximum)
    ensures SeenUpTo(items + [q], Latest(maximum, Some(q.receive)))
  {
    assert q in items + [q];
    assert forall x :: x in items + [q] <==> x in items || x == q;
  }

  /** Once everything seen has been received, the heap is empty. */
  lemma {:induction false} NothingLeft(heap: seq<Queued>, items: seq<Queued>, maximum: Option<int>, f: int)
    requires HoldsAfter(heap, items, f) && SeenUpTo(items, maximum) && (maximum.Some? ==> maximum.value <= f)
    ensures heap == []
  {
    NonEmptyHasMember(heap);
  }

  lemma {:induction false} ArrivalsAreKeyed(items: seq<Queued>, identity: Identity)
    requires Arrivals(items, identity)
    ensures Keyed(items, identity) && Stamped(items)
  {
  }

  lemma {:induction false} ConsumptionsAppend(a: seq<S.Tick>, b: seq<S.Tick>)
    ensures Consumptions(a + b) == Consumptions(a) + Consumptions(b)
  {
  }

  // ---------- Arrival order does not matter ----------

  function Events(items: seq<Queued>): seq<MarketEvent> {
    Map((q: Queued) => q.event, items)
  }

  function Keys(items: seq<Queued>): seq<seq<string>> {
    Map((q: Queued) => q.fields, items)
  }

  /** An output up to the identity of its event: what the queue key can see of it. */
  datatype Label = EventLabel(receive: int, fields: seq<string>) | DrainLabel | TickLabel(tick: S.Tick)

  function LabelOf(o: Output, identity: Identity): Label {
    match o
    case Published(e) => EventLabel(e.receive, Fields(e, identity))
    case Drained => DrainLabel
    case Consumed(tick) => TickLabel(tick)
  }

  function Labels(trace: seq<Output>, identity: Identity): seq<Label> {
    seq(|trace|, i requires 0 <= i < |trace| => LabelOf(trace[i], identity))
  }

  ghost predicate Keyed(items: seq<Queued>, identity: Identity) {
    && DistinctOrdinals(items)
    && forall i :: 0 <= i < |items| ==> items[i] == QueueItem(items[i].event, items[i].ordinal, identity)
  }

  /** The events received at instant `t`, in arrival order. */
  function EventsAt(events: seq<MarketEvent>, t: int): seq<MarketEvent> {
    Filter((e: MarketEvent) => e.receive == t, events)
  }

  lemma {:induction false} EventsReceivedAt(items: seq<Queued>, t: int)
    requires Stamped(items)
    ensures Events(ReceivedAt(items, t)) == EventsAt(Events(items), t)
  {
    if |items| > 0 {
      var n := |items| - 1;
      EventsReceivedAt(items[..n], t);
      assert Events(items)[..n] == Events(items[..n]);
    }
  }

  /** Items carry their event's receive time. */
  ghost predicate Stamped(items: seq<Queued>) {
    forall i :: 0 <= i < |items| ==> items[i].receive == items[i].event.receive
  }

  lemma {:induction false} KeysAreFields(items: seq<Queued>, identity: Identity)
    requires forall q :: q in items ==> q.fields == Fields(q.event, identity)
    ensures Keys(items) == Map((e: MarketEvent) => Fields(e, identity), Events(items))
  {
    hide Fields;
    var fields := Map((e: MarketEvent) => Fields(e, identity), Events(items));
    forall i | 0 <= i < |items| ensures Keys(items)[i] == fields[i] {
      assert items[i] in items;
    }
  }

  lemma {:induction false} KeysReceivedAt(items: seq<Queued>, t: int, identity: Identity)
    requires Keyed(items, identity)
    ensures Keys(ReceivedAt(items, t)) == Map((e: MarketEvent) => Fields(e, identity), EventsAt(Events(items), t))
  {
    EventsReceivedAt(items, t);
    ReceivedAtMembers(items, t);
    KeysAreFields(ReceivedAt(items, t), identity);
  }

  /** At one instant the emitted keys depend on the events only. */
  lemma {:induction false} SortedKeysAgree(a: seq<Queued>, b: seq<Queued>, t: int, identity: Identity)
    requires Keyed(a, identity) && Keyed(b, identity) && multiset(Events(a)) == multiset(Events(b))
    ensures Keys(Sort(ReceivedAt(a, t))) == Keys(Sort(ReceivedAt(b, t)))
  {
    var fields := (e: MarketEvent) => Fields(e, identity);
    KeysReceivedAt(a, t, identity);
    KeysReceivedAt(b, t, identity);
    FilterPermutation((e: MarketEvent) => e.receive == t, Events(a), Events(b));
    MapPermutation(fields, EventsAt(Events(a), t), EventsAt(Events(b), t));
    SortedKeysAscend(a, t);
    SortedKeysAscend(b, t);
    MapPermutation((q: Queued) => q.fields, Sort(ReceivedAt(a, t)), ReceivedAt(a, t));
    MapPermutation((q: Queued) => q.fields, Sort(ReceivedAt(b, t)), ReceivedAt(b, t));
    SortedKeysUnique(Keys(Sort(ReceivedAt(a, t))), Keys(Sort(ReceivedAt(b, t))));
  }

  lemma {:induction false} SortedKeysAscend(items: seq<Queued>, t: int)
    requires DistinctOrdinals(items)
    ensures Ascending(Keys(Sort(ReceivedAt(items, t))))
    ensures multiset(Sort(ReceivedAt(items, t))) == multiset(ReceivedAt(items, t))
    ensures SameItems(Sort(ReceivedAt(items, t)), ReceivedAt(items, t))
  {
    ReceivedAtMembers(items, t);
    SortSorts(ReceivedAt(items, t));
    var s := Sort(ReceivedAt(items, t));
    forall i, j | 0 <= i < j < |s| ensures FieldsLeq(s[i].fields, s[j].fields) {
      assert KeyLess(s[i], s[j]) && s[i] in s && s[j] in s;
    }
  }

  lemma {:induction false} FirstAgrees(a: seq<Queued>, b: seq<Queued>, identity: Identity)
    requires Keyed(a, identity) && Keyed(b, identity) && multiset(Events(a)) == multiset(Events(b)) && |a| > 0
    ensures |b| > 0 && First(a) == First(b)
  {
    SameLength(Events(a), Events(b));
    FirstIsEarliest(a);
    FirstIsEarliest(b);
    EarliestAgree(a, b, identity);
    EarliestAgree(b, a, identity);
  }

  lemma {:induction false} EarliestAgree(a: seq<Queued>, b: seq<Queued>, identity: Identity)
    requires Keyed(a, identity) && Keyed(b, identity) && multiset(Events(a)) == multiset(Events(b))
    requires |a| > 0 && |b| > 0
    ensures First(b) <= First(a)
  {
    FirstIsEarliest(a);
    FirstIsEarliest(b);
    var q :| q in a && q.receive == First(a);
    var i :| 0 <= i < |a| && a[i] == q;
    assert Events(a)[i] in multiset(Events(b));
    var j :| 0 <= j < |b| && Events(b)[j] == a[i].event;
    assert b[j] in b;
  }

  /**
   Live and replay agree: the same accepted events give the same timeline, whatever the
   arrival order, up to swapping events whose queue keys are equal.
   */
  lemma {:induction false} CanonicalDependsOnEventsOnly(a: seq<Queued>, b: seq<Queued>, t: int,
                                                       feature: int, signal: int, identity: Identity)
    requires feature > 0 && signal > 0
    requires Keyed(a, identity) && Keyed(b, identity) && multiset(Events(a)) == multiset(Events(b))
    ensures Labels(Canonical(a, t, feature, signal), identity) == Labels(Canonical(b, t, feature, signal), identity)
    decreases if |a| > 0 then t - First(a) else 0
  {
    hide Canonical, Labels, Keyed, First, At, Map;
    SameLength(Events(a), Events(b));
    if |a| == 0 {
      NothingYet(a, t, feature, signal);
      NothingYet(b, t, feature, signal);
    } else {
      FirstAgrees(a, b, identity);
      if t < First(a) {
        NothingYet(a, t, feature, signal);
        NothingYet(b, t, feature, signal);
      } else {
        if t > First(a) {
          CanonicalDependsOnEventsOnly(a, b, t - 1, feature, signal, identity);
        }
        hide Events;
        AtAgrees(a, b, t, identity);
        LabelsSplit(a, t, feature, signal, identity);
        LabelsSplit(b, t, feature, signal, identity);
      }
    }
  }

  lemma {:induction false} NothingYet(items: seq<Queued>, t: int, feature: int, signal: int)
    requires feature > 0 && signal > 0 && (|items| > 0 ==> t < First(items))
    ensures Canonical(items, t, feature, signal) == []
  {
  }

  lemma {:induction false} LabelsAppend(a: seq<Output>, b: seq<Output>, identity: Identity)
    ensures Labels(a + b, identity) == Labels(a, identity) + Labels(b, identity)
  {
  }

  lemma {:induction false} LabelsSplit(items: seq<Queued>, t: int, feature: int, signal: int, identity: Identity)
    requires feature > 0 && signal > 0 && |items| > 0 && t >= First(items)
    ensures Labels(Canonical(items, t, feature, signal), identity)
         == (if t == First(items) then [] else Labels(Canonical(items, t - 1, feature, signal), identity))
            + Labels(At(items, t), identity)
            + (if t == First(items) then [] else Labels(Consumptions(S.TicksAt(t, feature, signal)), identity))
  {
    var before := if t == First(items) then [] else Canonical(items, t - 1, feature, signal);
    var ticks := if t == First(items) then [] else Consumptions(S.TicksAt(t, feature, signal));
    LabelsAppend(before + At(items, t), ticks, identity);
    LabelsAppend(before, At(items, t), identity);
  }

  lemma {:induction false} AtAgrees(a: seq<Queued>, b: seq<Queued>, t: int, identity: Identity)
    requires Keyed(a, identity) && Keyed(b, identity) && multiset(Events(a)) == multiset(Events(b))
    ensures Labels(At(a, t), identity) == Labels(At(b, t), identity)
  {
    SortedKeysAgree(a, b, t, identity);
    AtLabels(a, t, identity);
    AtLabels(b, t, identity);
  }

  lemma {:induction false} AtLabels(items: seq<Queued>, t: int, identity: Identity)
    requires Keyed(items, identity)
    ensures var keys := Keys(Sort(ReceivedAt(items, t)));
            Labels(At(items, t), identity) == seq(|keys|, i requires 0 <= i < |keys| => EventLabel(t, keys[i]))
  {
    SortedKeysAscend(items, t);
    ReceivedAtMembers(items, t);
    var s := Sort(ReceivedAt(items, t));
    forall i | 0 <= i < |s| ensures LabelOf(Published(s[i].event), identity) == EventLabel(t, s[i].fields) {
      assert s[i] in s;
      var k :| 0 <= k < |items| && items[k] == s[i];
    }
  }

  /** With an identity that tells events apart, the timelines are equal outright. */
  lemma {:induction false} InjectiveIdentityFixesTrace(a: seq<Output>, b: seq<Output>, identity: Identity)
    requires forall x, y :: identity(x) == identity(y) ==> x == y
    requires Labels(a, identity) == Labels(b, identity)
    ensures a == b
  {
    assert |a| == |Labels(a, identity)| == |b|;
    forall i | 0 <= i < |a| ensures a[i] == b[i] {
      assert Labels(a, identity)[i] == Labels(b, identity)[i];
      if a[i].Published? {
        assert Fields(a[i].event, identity)[5] == Fields(b[i].event, identity)[5];
      }
    }
  }

  // ---------- A tick sees exactly its past ----------

  /** The events received by instant `t`. */
  function EventsThrough(events: seq<MarketEvent>, t: int): seq<MarketEvent> {
    Filter((e: MarketEvent) => e.receive <= t, events)
  }

  lemma {:induction false} EventsOfTicks(ticks: seq<S.Tick>)
    ensures EventsOf(Consumptions(ticks)) == []
    decreases |ticks|
  {
    if |ticks| > 0 {
      EventsOfTicks(ticks[..|ticks| - 1]);
      assert Consumptions(ticks)[..|ticks| - 1] == Consumptions(ticks[..|ticks| - 1]);
    }
  }

  lemma {:induction false} EventsOfPublications(items: seq<Queued>)
    ensures EventsOf(Publications(items)) == Events(items)
    decreases |items|
  {
    if |items| > 0 {
      EventsOfPublications(items[..|items| - 1]);
      assert Publications(items)[..|items| - 1] == Publications(items[..|items| - 1]);
    }
  }

  lemma {:induction false} CanonicalEvents(items: seq<Queued>, t: int, feature: int, signal: int)
    requires feature > 0 && signal > 0 && |items| > 0 && t >= First(items)
    ensures EventsOf(Canonical(items, t, feature, signal))
         == (if t == First(items) then [] else EventsOf(Canonical(items, t - 1, feature, signal)))
            + Events(Sort(ReceivedAt(items, t)))
  {
    var before := if t == First(items) then [] else Canonical(items, t - 1, feature, signal);
    var ticks := if t == First(items) then [] else Consumptions(S.TicksAt(t, feature, signal));
    EventsAppend(before + At(items, t), ticks);
    EventsAppend(before, At(items, t));
    EventsOfTicks(S.TicksAt(t, feature, signal));
    EventsOfPublications(Sort(ReceivedAt(items, t)));
  }

  // ---------- The order of publication ----------

  /** No event precedes, in the order of its own fields, one that was published before it. */
  ghost predicate InEventOrder(events: seq<MarketEvent>, identity: Identity) {
    forall i, j :: 0 <= i < j < |events| ==> !EventLess(events[j], events[i], identity)
  }

  lemma {:induction false} SortedInEventOrder(items: seq<Queued>, identity: Identity)
    requires Sorted(items)
    requires forall q :: q in items ==> q == QueueItem(q.event, q.ordinal, identity)
    ensures InEventOrder(Events(items), identity)
  {
    hide EventLess, KeyLess;
    forall i, j | 0 <= i < j < |items| ensures !EventLess(Events(items)[j], Events(items)[i], identity) {
      assert items[i] in items && items[j] in items && KeyLess(items[i], items[j]);
      KeyLessIff(items[i].event, items[i].ordinal, items[j].event, items[j].ordinal, identity);
    }
  }

  lemma {:induction false} LaterInEventOrder(a: seq<MarketEvent>, b: seq<MarketEvent>, t: int, identity: Identity)
    requires InEventOrder(a, identity) && InEventOrder(b, identity)
    requires (forall e :: e in a ==> e.receive < t) && forall e :: e in b ==> e.receive == t
    ensures InEventOrder(a + b, identity)
    ensures forall e :: e in a + b ==> e.receive <= t
  {
    var all := a + b;
    forall i, j | 0 <= i < j < |all| ensures !EventLess(all[j], all[i], identity) {
      if i < |a| <= j {
        assert all[i] in a && all[j] in b;
      }
    }
  }

  /** The timeline publishes in the order of the events' own fields. */
  lemma {:induction false} CanonicalInEventOrder(items: seq<Queued>, t: int, feature: int, signal: int,
                                                 identity: Identity)
    requires feature > 0 && signal > 0 && Keyed(items, identity)
    ensures InEventOrder(EventsOf(Canonical(items, t, feature, signal)), identity)
    ensures forall e :: e in EventsOf(Canonical(items, t, feature, signal)) ==> e.receive <= t
    decreases if |items| > 0 then t - First(items) else 0
  {
    hide EventLess, First, Canonical, Sort;
    if |items| == 0 || t < First(items) {
      NothingYet(items, t, feature, signal);
    } else {
      var before := if t == First(items) then [] else EventsOf(Canonical(items, t - 1, feature, signal));
      if t > First(items) {
        CanonicalInEventOrder(items, t - 1, feature, signal, identity);
      }
      CanonicalEvents(items, t, feature, signal);
      InstantInEventOrder(items, t, identity);
      LaterInEventOrder(before, Events(Sort(ReceivedAt(items, t))), t, identity);
    }
  }

  lemma {:induction false} InstantInEventOrder(items: seq<Queued>, t: int, identity: Identity)
    requires Keyed(items, identity)
    ensures InEventOrder(Events(Sort(ReceivedAt(items, t))), identity)
    ensures forall e :: e in Events(Sort(ReceivedAt(items, t))) ==> e.receive == t
  {
    hide KeyLess, Sort, EventLess, Fields;
    var s := Sort(ReceivedAt(items, t));
    ReceivedAtMembers(items, t);
    SortSorts(ReceivedAt(items, t));
    forall q | q in s ensures q == QueueItem(q.event, q.ordinal, identity) && q.receive == t {
      assert q in ReceivedAt(items, t);
      assert q in items;
    }
    SortedInEventOrder(s, identity);
    forall e | e in Events(s) ensures e.receive == t {
      var i :| 0 <= i < |s| && Events(s)[i] == e;
      assert s[i] in s;
    }
  }

  function TicksOf(trace: seq<Output>): seq<S.Tick> {
    if |trace| == 0 then []
    else TicksOf(trace[..|trace| - 1])
         + (if trace[|trace| - 1].Consumed? then [trace[|trace| - 1].tick] else [])
  }

  lemma {:induction false} TicksAppend(a: seq<Output>, b: seq<Output>)
    ensures TicksOf(a + b) == TicksOf(a) + TicksOf(b)
    decreases |b|
  {
    if |b| == 0 {
      assert a + b == a;
    } else {
      TicksAppend(a, b[..|b| - 1]);
      assert (a + b)[..|a + b| - 1] == a + b[..|b| - 1];
    }
  }

  lemma {:induction false} TicksOfParts(items: seq<Queued>, ticks: seq<S.Tick>)
    ensures TicksOf(Publications(items)) == [] && TicksOf(Consumptions(ticks)) == ticks
    decreases |items| + |ticks|
  {
    if |items| > 0 {
      TicksOfParts(items[..|items| - 1], ticks);
      assert Publications(items)[..|items| - 1] == Publications(items[..|items| - 1]);
    } else if |ticks| > 0 {
      TicksOfParts(items, ticks[..|ticks| - 1]);
      assert Consumptions(ticks)[..|ticks| - 1] == Consumptions(ticks[..|ticks| - 1]);
    }
  }

  /** Through `t` it consumes exactly the ticks due behind the first event. */
  lemma {:induction false} CanonicalTicks(items: seq<Queued>, t: int, feature: int, signal: int)
    requires feature > 0 && signal > 0
    ensures TicksOf(Canonical(items, t, feature, signal))
         == if |items| == 0 then [] else S.Ticks(First(items), t, feature, signal)
    decreases if |items| > 0 then t - First(items) else 0
  {
    hide First, Sort, S.TicksAt, Publications, Consumptions;
    if |items| > 0 && t >= First(items) {
      var before := if t == First(items) then [] else Canonical(items, t - 1, feature, signal);
      var due := if t == First(items) then [] else S.TicksAt(t, feature, signal);
      if t > First(items) {
        CanonicalTicks(items, t - 1, feature, signal);
      }
      TicksOfParts(Sort(ReceivedAt(items, t)), due);
      TicksAppend(before + At(items, t), Consumptions(due));
      TicksAppend(before, At(items, t));
      NoConsumptions();
    }
  }

  lemma {:induction false} NoConsumptions()
    ensures Consumptions([]) == []
  {
  }

  /** Through `t` the timeline publishes each event received by `t`, once per acceptance. */
  lemma {:induction false} CanonicalIsComplete(items: seq<Queued>, t: int, feature: int, signal: int)
    requires feature > 0 && signal > 0 && DistinctOrdinals(items) && Stamped(items)
    ensures multiset(EventsOf(Canonical(items, t, feature, signal))) == multiset(EventsThrough(Events(items), t))
    decreases if |items| > 0 then t - First(items) else 0
  {
    if |items| > 0 {
      if t < First(items) {
        NothingBefore(items, t);
      } else {
        if t == First(items) {
          NothingBefore(items, t - 1);
        } else {
          CanonicalIsComplete(items, t - 1, feature, signal);
        }
        CanonicalEvents(items, t, feature, signal);
        FilterSplit((e: MarketEvent) => e.receive <= t - 1, (e: MarketEvent) => e.receive == t,
                    (e: MarketEvent) => e.receive <= t, Events(items));
        EventsReceivedAt(items, t);
        SortedKeysAscend(items, t);
        MapPermutation((q: Queued) => q.event, Sort(ReceivedAt(items, t)), ReceivedAt(items, t));
      }
    }
  }

  lemma {:induction false} NothingBefore(items: seq<Queued>, t: int)
    requires |items| > 0 && t < First(items) && Stamped(items)
    ensures EventsThrough(Events(items), t) == []
  {
    FirstIsEarliest(items);
    forall e | e in Events(items) ensures e.receive > t {
      var i :| 0 <= i < |items| && Events(items)[i] == e;
      assert items[i] in items;
    }
    FilterNone((e: MarketEvent) => e.receive <= t, Events(items));
  }

  lemma {:induction false} PublicationsArePublished(before: seq<Output>, items: seq<Queued>, rest: seq<Output>, i: nat)
    requires |before| <= i < |before| + |items|
    ensures (before + Publications(items) + rest)[i].Published?
  {
    assert (before + Publications(items) + rest)[i] == Publications(items)[i - |before|];
  }

  /** Behind the publications of an instant come its ticks, and no event is among them. */
  lemma {:induction false} TickAfterPublications(trace: seq<Output>, before: seq<Output>, items: seq<Queued>,
                                                 ticks: seq<S.Tick>, i: nat)
    requires trace == before + Publications(items) + Consumptions(ticks)
    requires |before| <= i < |trace| && trace[i].Consumed?
    ensures trace[i].tick in ticks
    ensures EventsOf(trace[..i]) == EventsOf(trace)
  {
    if i < |before| + |items| {
      PublicationsArePublished(before, items, Consumptions(ticks), i);
    }
    var m := i - |before| - |items|;
    assert trace[i] == Consumptions(ticks)[m];
    assert trace[..i] == before + Publications(items) + Consumptions(ticks[..m]);
    EventsAppend(before + Publications(items), Consumptions(ticks[..m]));
    EventsAppend(before + Publications(items), Consumptions(ticks));
    EventsOfTicks(ticks[..m]);
    EventsOfTicks(ticks);
  }

  /** Before a tick at `b` exactly the events received by `b` have been published, in timeline order. */
  lemma {:induction false} TickFollowsItsPast(items: seq<Queued>, through: int, feature: int, signal: int,
                                              trace: seq<Output>, i: nat)
    requires feature > 0 && signal > 0 && trace == Canonical(items, through, feature, signal)
    requires i < |trace| && trace[i].Consumed?
    ensures trace[i].tick.at <= through
    ensures EventsOf(trace[..i]) == EventsOf(Canonical(items, trace[i].tick.at, feature, signal))
    decreases if |items| > 0 then through - First(items) else 0
  {
    var before := if through == First(items) then [] else Canonical(items, through - 1, feature, signal);
    var ticks := if through == First(items) then [] else S.TicksAt(through, feature, signal);
    if i < |before| {
      assert trace[..i] == before[..i];
      TickFollowsItsPast(items, through - 1, feature, signal, before, i);
    } else {
      TickAfterPublications(trace, before, Sort(ReceivedAt(items, through)), ticks, i);
    }
  }

  /** No lookahead and nothing missing: a tick at `b` sees each event received by `b`, and no other. */
  lemma {:induction false} TickSeesExactlyItsPast(items: seq<Queued>, through: int, feature: int, signal: int, i: nat)
    requires feature > 0 && signal > 0 && DistinctOrdinals(items) && Stamped(items)
    requires i < |Canonical(items, through, feature, signal)| && Canonical(items, through, feature, signal)[i].Consumed?
    ensures var trace := Canonical(items, through, feature, signal);
            multiset(EventsOf(trace[..i])) == multiset(EventsThrough(Events(items), trace[i].tick.at))
  {
    var trace := Canonical(items, through, feature, signal);
    TickFollowsItsPast(items, through, feature, signal, trace, i);
    CanonicalIsComplete(items, trace[i].tick.at, feature, signal);
  }
}
