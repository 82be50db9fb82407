/**
 A window `(watermark - retention, watermark]` over timed values with a hard item cap and
 explicit treatment of late events. Timestamps are integer microseconds.
 */
module RollingWindow {
  import opened Common
  import opened Sequences

  datatype LatePolicy = DROP | INSERT

  datatype AppendStatus = ACCEPTED | LATE_DROPPED | EXPIRED_DROPPED

  datatype TimedValue<T> = TimedValue(timestamp: int, value: T, ordinal: nat)

  // ---------- The order of items ----------

  predicate Less<T(!new)>(a: TimedValue<T>, b: TimedValue<T>) {
    a.timestamp < b.timestamp || (a.timestamp == b.timestamp && a.ordinal < b.ordinal)
  }

  ghost predicate Sorted<T(!new)>(s: seq<TimedValue<T>>) {
    forall i, j :: 0 <= i < j < |s| ==> Less(s[i], s[j])
  }

  /** Where `bisect_right` puts `x`: behind everything not greater. */
  function Position<T(!new)>(s: seq<TimedValue<T>>, x: TimedValue<T>): (p: nat)
    ensures p <= |s|
    ensures p < |s| ==> Less(x, s[p])
    ensures p > 0 ==> !Less(x, s[p - 1])
  {
    if |s| == 0 || !Less(x, s[|s| - 1]) then |s| else Position(s[..|s| - 1], x)
  }

  function Insert<T(!new)>(s: seq<TimedValue<T>>, x: TimedValue<T>): seq<TimedValue<T>> {
    s[..Position(s, x)] + [x] + s[Position(s, x)..]
  }

  /** All items ever accepted, by timestamp and then ordinal. */
  function Ordered<T(!new)>(accepted: seq<TimedValue<T>>): seq<TimedValue<T>> {
    if |accepted| == 0 then [] else Insert(Ordered(accepted[..|accepted| - 1]), accepted[|accepted| - 1])
  }

  // ---------- The window as a function of everything accepted ----------

  function Watermark<T(!new)>(accepted: seq<TimedValue<T>>): int
    requires |accepted| > 0
  {
    var last := accepted[|accepted| - 1].timestamp;
    if |accepted| == 1 then last
    else
      var before := Watermark(accepted[..|accepted| - 1]);
      if last > before then last else before
  }

  function Newer<T(!new)>(s: seq<TimedValue<T>>, cutoff: int): seq<TimedValue<T>> {
    if |s| > 0 && s[0].timestamp <= cutoff then Newer(s[1..], cutoff) else s
  }

  function Last<T(!new)>(s: seq<TimedValue<T>>, n: nat): seq<TimedValue<T>> {
    if |s| > n then s[|s| - n..] else s
  }

  function Pruned<T(!new)>(s: seq<TimedValue<T>>, cutoff: int, maximum: nat): seq<TimedValue<T>> {
    Last(Newer(s, cutoff), maximum)
  }

  /** The last `maximum` accepted items newer than the watermark minus the retention. */
  function Window<T(!new)>(accepted: seq<TimedValue<T>>, retention: int, maximum: nat): seq<TimedValue<T>> {
    if |accepted| == 0 then [] else Pruned(Ordered(accepted), Watermark(accepted) - retention, maximum)
  }

  // ---------- Lemmas on order ----------

  lemma {:induction false} InsertMembers<T(!new)>(s: seq<TimedValue<T>>, x: TimedValue<T>)
    ensures multiset(Insert(s, x)) == multiset(s) + multiset{x}
    ensures |Insert(s, x)| == |s| + 1
  {
    var p := Position(s, x);
    assert s == s[..p] + s[p..];
  }

  lemma {:induction false} InsertKeepsSorted<T(!new)>(s: seq<TimedValue<T>>, x: TimedValue<T>)
    requires Sorted(s) && forall y :: y in s ==> y.ordinal != x.ordinal
    ensures Sorted(Insert(s, x))
  {
    var p := Position(s, x);
    assert forall i :: 0 <= i < p ==> s[i] in s && Less(s[i], x);
  }

  /** `x` splits a sorted sequence at one place only. */
  lemma {:induction false} SplitsAt<T(!new)>(s: seq<TimedValue<T>>, x: TimedValue<T>, p: nat)
    requires Sorted(s) && p <= |s|
    requires p < |s| ==> Less(x, s[p])
    requires p > 0 ==> !Less(x, s[p - 1])
    ensures forall i :: 0 <= i < |s| ==> (Less(x, s[i]) <==> p <= i)
  {
    forall i | 0 <= i < |s| ensures Less(x, s[i]) <==> p <= i {
      if p < i {
        assert Less(s[p], s[i]);
      } else if i < p - 1 {
        assert Less(s[i], s[p - 1]);
      }
    }
  }

  lemma {:induction false} PositionUnique<T(!new)>(s: seq<TimedValue<T>>, x: TimedValue<T>, p: nat)
    requires Sorted(s) && p <= |s|
    requires p < |s| ==> Less(x, s[p])
    requires p > 0 ==> !Less(x, s[p - 1])
    ensures Position(s, x) == p
  {
    SplitsAt(s, x, p);
    SplitsAt(s, x, Position(s, x));
  }

  /** Items are numbered consecutively behind `base`. */
  ghost predicate NumberedFrom<T(!new)>(accepted: seq<TimedValue<T>>, base: int) {
    Numbered(accepted) && forall i :: 0 <= i < |accepted| ==> accepted[i].ordinal == base + i + 1
  }

  lemma {:induction false} NumberedPrefix<T(!new)>(accepted: seq<TimedValue<T>>)
    requires Numbered(accepted) && |accepted| > 0
    ensures Numbered(accepted[..|accepted| - 1])
    ensures forall y :: y in accepted[..|accepted| - 1] ==> y.ordinal < accepted[|accepted| - 1].ordinal
  {
  }

  lemma {:induction false} OrderedKeepsItems<T(!new)>(accepted: seq<TimedValue<T>>)
    ensures multiset(Ordered(accepted)) == multiset(accepted)
    ensures |Ordered(accepted)| == |accepted|
  {
    hide Insert;
    if |accepted| > 0 {
      var n := |accepted| - 1;
      OrderedKeepsItems(accepted[..n]);
      InsertMembers(Ordered(accepted[..n]), accepted[n]);
      assert accepted == accepted[..n] + [accepted[n]];
    }
  }

  lemma {:induction false} OrderedMember<T(!new)>(accepted: seq<TimedValue<T>>, x: TimedValue<T>)
    ensures x in Ordered(accepted) <==> x in accepted
  {
    OrderedKeepsItems(accepted);
    assert x in Ordered(accepted) <==> x in multiset(Ordered(accepted));
  }

  lemma {:induction false} OrderedIsSorted<T(!new)>(accepted: seq<TimedValue<T>>)
    requires Numbered(accepted)
    ensures Sorted(Ordered(accepted))
  {
    if |accepted| > 0 {
      var n := |accepted| - 1;
      NumberedPrefix(accepted);
      OrderedIsSorted(accepted[..n]);
      forall y | y in Ordered(accepted[..n]) ensures y.ordinal != accepted[n].ordinal {
        OrderedMember(accepted[..n], y);
      }
      InsertKeepsSorted(Ordered(accepted[..n]), accepted[n]);
    }
  }

  /** Items are numbered in append order, without repetition. */
  ghost predicate Numbered<T(!new)>(accepted: seq<TimedValue<T>>) {
    forall i, j :: 0 <= i < j < |accepted| ==> accepted[i].ordinal < accepted[j].ordinal
  }

  // ---------- Lemmas on pruning ----------

  lemma {:induction false} NewerIsSuffix<T(!new)>(s: seq<TimedValue<T>>, cutoff: int) returns (k: nat)
    requires Sorted(s)
    ensures k <= |s| && Newer(s, cutoff) == s[k..]
    ensures forall i :: 0 <= i < k ==> s[i].timestamp <= cutoff
    ensures forall i :: k <= i < |s| ==> s[i].timestamp > cutoff
    ensures (k > 0 ==> s[k - 1].timestamp <= cutoff) && (k < |s| ==> s[k].timestamp > cutoff)
    decreases |s|
  {
    k := 0;
    if |s| > 0 && s[0].timestamp <= cutoff {
      k := NewerIsSuffix(s[1..], cutoff);
      k := k + 1;
      assert forall i :: 1 <= i < |s| ==> s[i] == s[1..][i - 1];
    } else {
      assert forall i :: 0 < i < |s| ==> Less(s[0], s[i]);
    }
  }

  /** Any split of a sorted sequence at the cutoff is the suffix of newer items. */
  lemma {:induction false} NewerUnique<T(!new)>(s: seq<TimedValue<T>>, cutoff: int, k: nat)
    requires Sorted(s) && k <= |s|
    requires forall i :: 0 <= i < k ==> s[i].timestamp <= cutoff
    requires k < |s| ==> s[k].timestamp > cutoff
    ensures Newer(s, cutoff) == s[k..]
  {
    var j := NewerIsSuffix(s, cutoff);
  }

  /** A raised cutoff subsumes the lower one. */
  lemma {:induction false} NewerTwice<T(!new)>(s: seq<TimedValue<T>>, low: int, high: int)
    requires Sorted(s) && low <= high
    ensures Newer(Newer(s, low), high) == Newer(s, high)
  {
    var k := NewerIsSuffix(s, low);
    var j := NewerIsSuffix(s, high);
    NewerUnique(s[k..], high, j - k);
    assert s[k..][j - k..] == s[j..];
  }

  /** Expiry and the item cap commute on sorted items. */
  lemma {:induction false} NewerOfLast<T(!new)>(s: seq<TimedValue<T>>, cutoff: int, n: nat)
    requires Sorted(s)
    ensures Newer(Last(s, n), cutoff) == Last(Newer(s, cutoff), n)
  {
    var k := NewerIsSuffix(s, cutoff);
    hide Newer;
    if |s| > n {
      var d := |s| - n;
      if k > d {
        NewerUnique(s[d..], cutoff, k - d);
        assert s[d..][k - d..] == s[k..];
      } else {
        NewerUnique(s[d..], cutoff, 0);
        assert s[k..][d - k..] == s[d..];
      }
    }
  }

  /** Dropping a prefix that `x` does not fall into, before or after the insertion. */
  lemma {:induction false} InsertBehind<T(!new)>(s: seq<TimedValue<T>>, x: TimedValue<T>, k: nat)
    requires Sorted(s) && k <= Position(s, x)
    ensures Insert(s, x)[k..] == Insert(s[k..], x)
  {
    var p := Position(s, x);
    PositionUnique(s[k..], x, p - k);
    assert s[k..][..p - k] == s[k..p] && s[k..][p - k..] == s[p..];
  }

  /** An item newer than the cutoff can be inserted before or after expiry. */
  lemma {:induction false} NewerOfInsert<T(!new)>(s: seq<TimedValue<T>>, x: TimedValue<T>, cutoff: int)
    requires Sorted(s) && x.timestamp > cutoff && forall y :: y in s ==> y.ordinal != x.ordinal
    ensures Newer(Insert(s, x), cutoff) == Insert(Newer(s, cutoff), x)
  {
    var k := NewerIsSuffix(s, cutoff);
    InsertKeepsSorted(s, x);
    InsertBehind(s, x, k);
    NewerUnique(Insert(s, x), cutoff, k);
  }

  /** An insertion in front of a suffix leaves the suffix alone. */
  lemma {:induction false} InsertBefore<T(!new)>(s: seq<TimedValue<T>>, x: TimedValue<T>, d: nat)
    requires Sorted(s) && Position(s, x) < d <= |s|
    ensures Insert(s, x)[d + 1..] == s[d..] && Insert(s[d..], x) == [x] + s[d..]
  {
    SplitsAt(s, x, Position(s, x));
    PositionUnique(s[d..], x, 0);
  }

  lemma {:induction false} DropTwice<T(!new)>(s: seq<T>, d: nat)
    requires d < |s|
    ensures s[d..][1..] == s[d + 1..]
  {
  }

  /** The last `n` after an insertion depend only on the last `n` before it. */
  lemma {:induction false} LastOfInsert<T(!new)>(s: seq<TimedValue<T>>, x: TimedValue<T>, n: nat)
    requires Sorted(s)
    ensures Last(Insert(Last(s, n), x), n) == Last(Insert(s, x), n)
  {
    if |s| > n {
      var d := |s| - n;
      var tail := s[d..];
      assert Last(s, n) == tail;
      InsertMembers(s, x);
      InsertMembers(tail, x);
      assert Last(Insert(tail, x), n) == Insert(tail, x)[1..];
      assert Last(Insert(s, x), n) == Insert(s, x)[d + 1..];
      hide Last, Insert, Position, Sorted;
      if Position(s, x) >= d {
        InsertBehind(s, x, d);
        DropTwice(Insert(s, x), d);
      } else {
        InsertBefore(s, x, d);
      }
    }
  }

  /** One append on the window gives the window of one more accepted item. */
  lemma {:induction false} PrunedInsert<T(!new)>(s: seq<TimedValue<T>>, x: TimedValue<T>, low: int, high: int, n: nat)
    requires Sorted(s) && low <= high < x.timestamp && forall y :: y in s ==> y.ordinal != x.ordinal
    ensures Pruned(Insert(Pruned(s, low, n), x), high, n) == Pruned(Insert(s, x), high, n)
  {
    var k := NewerIsSuffix(s, low);
    var newer := Newer(s, low);
    var window := Last(newer, n);
    var j := NewerIsSuffix(s, high);
    assert Sorted(newer) && Sorted(window) && Sorted(Newer(s, high));
    NewerOfInsert(window, x, high);
    NewerOfLast(newer, high, n);
    NewerTwice(s, low, high);
    LastOfInsert(Newer(s, high), x, n);
    NewerOfInsert(s, x, high);
  }

  // ---------- What the window contains ----------

  lemma {:induction false} WatermarkIsMaximum<T(!new)>(accepted: seq<TimedValue<T>>)
    requires |accepted| > 0
    ensures forall x :: x in accepted ==> x.timestamp <= Watermark(accepted)
    ensures exists x :: x in accepted && x.timestamp == Watermark(accepted)
  {
    var n := |accepted| - 1;
    assert accepted == accepted[..n] + [accepted[n]];
    if n > 0 {
      WatermarkIsMaximum(accepted[..n]);
      var x :| x in accepted[..n] && x.timestamp == Watermark(accepted[..n]);
      assert x in accepted && accepted[n] in accepted;
    } else {
      assert accepted[0] in accepted;
    }
  }

  /** Items strictly newer than the cutoff. */
  ghost predicate Live<T(!new)>(accepted: seq<TimedValue<T>>, retention: int, x: TimedValue<T>) {
    |accepted| > 0 && x in accepted && x.timestamp > Watermark(accepted) - retention
  }

  lemma {:induction false} PrunedIsSuffix<T(!new)>(s: seq<TimedValue<T>>, cutoff: int, maximum: nat) returns (d: nat)
    requires Sorted(s)
    ensures d <= |s| && Pruned(s, cutoff, maximum) == s[d..] && |s| - d <= maximum
    ensures forall i :: d <= i < |s| ==> s[i].timestamp > cutoff
    ensures |s| - d < maximum ==> forall i :: 0 <= i < d ==> s[i].timestamp <= cutoff
  {
    d := NewerIsSuffix(s, cutoff);
    hide Newer, Sorted;
    if |s| - d > maximum {
      d := |s| - maximum;
    }
  }

  /** The window is a suffix of all accepted items in order. */
  lemma {:induction false} WindowIsSuffix<T(!new)>(accepted: seq<TimedValue<T>>, retention: int, maximum: nat)
    returns (d: nat)
    requires Numbered(accepted) && |accepted| > 0
    ensures d <= |Ordered(accepted)| && Window(accepted, retention, maximum) == Ordered(accepted)[d..]
    ensures |Ordered(accepted)| - d <= maximum
    ensures forall i :: d <= i < |Ordered(accepted)| ==>
              Ordered(accepted)[i].timestamp > Watermark(accepted) - retention
    ensures |Ordered(accepted)| - d < maximum ==>
              forall i :: 0 <= i < d ==> Ordered(accepted)[i].timestamp <= Watermark(accepted) - retention
  {
    hide Pruned, Ordered, Sorted, Numbered, Watermark;
    OrderedIsSorted(accepted);
    d := PrunedIsSuffix(Ordered(accepted), Watermark(accepted) - retention, maximum);
  }

  /**
   The window holds exactly the newest live items: sorted, all live, closed upwards, and
   complete unless it is full.
   */
  lemma {:induction false} WindowIsNewestItems<T(!new)>(accepted: seq<TimedValue<T>>, retention: int, maximum: nat)
    requires Numbered(accepted)
    ensures var w := Window(accepted, retention, maximum);
            && Sorted(w) && |w| <= maximum
            && (forall x :: x in w ==> Live(accepted, retention, x))
            && (forall x, y :: x in w && y in accepted && Less(x, y) ==> y in w)
            && (|w| < maximum ==> forall x :: Live(accepted, retention, x) ==> x in w)
  {
    if |accepted| > 0 {
      OrderedIsSorted(accepted);
      var s, w := Ordered(accepted), Window(accepted, retention, maximum);
      var d := WindowIsSuffix(accepted, retention, maximum);
      forall x | x in w ensures Live(accepted, retention, x) {
        OrderedMember(accepted, x);
      }
      forall x, y | x in w && y in accepted && Less(x, y) ensures y in w {
        OrderedMember(accepted, y);
        SuffixIsUpwardClosed(s, d, x, y);
      }
      if |w| < maximum {
        forall x | Live(accepted, retention, x) ensures x in w {
          OrderedMember(accepted, x);
          var j :| 0 <= j < |s| && s[j] == x;
          assert w[j - d] == x;
        }
      }
    }
  }

  lemma {:induction false} SortedPair<T(!new)>(s: seq<TimedValue<T>>, i: nat, j: nat)
    requires Sorted(s) && i < |s| && j < |s|
    ensures i < j ==> Less(s[i], s[j])
  {
  }

  lemma {:induction false} SuffixIsUpwardClosed<T(!new)>(s: seq<TimedValue<T>>, d: nat, x: TimedValue<T>,
                                                         y: TimedValue<T>)
    requires Sorted(s) && d <= |s| && x in s[d..] && y in s && Less(x, y)
    ensures y in s[d..]
  {
    var i :| d <= i < |s| && s[i] == x;
    var j :| 0 <= j < |s| && s[j] == y;
    SortedPair(s, j, i);
    assert s[d..][j - d] == y;
  }

  // ---------- One append ----------

  function Raised(watermark: Option<int>, timestamp: int): int {
    if watermark.Some? && watermark.value > timestamp then watermark.value else timestamp
  }

  function WatermarkOf<T(!new)>(accepted: seq<TimedValue<T>>): Option<int> {
    if |accepted| == 0 then None else Some(Watermark(accepted))
  }

  lemma {:induction false} OrderedAppend<T(!new)>(accepted: seq<TimedValue<T>>, x: TimedValue<T>)
    ensures Ordered(accepted + [x]) == Insert(Ordered(accepted), x)
    ensures WatermarkOf(accepted + [x]) == Some(Raised(WatermarkOf(accepted), x.timestamp))
  {
    assert (accepted + [x])[..|accepted|] == accepted;
  }

  /** The window after one more accepted item is the old window with the item inserted and pruned. */
  lemma {:induction false} WindowAfterAppend<T(!new)>(accepted: seq<TimedValue<T>>, x: TimedValue<T>, retention: int,
                                                      maximum: nat)
    requires NumberedFrom(accepted + [x], x.ordinal - |accepted| - 1) && retention > 0
    requires |accepted| > 0 ==> x.timestamp > Watermark(accepted) - retention
    ensures WatermarkOf(accepted + [x]) == Some(Raised(WatermarkOf(accepted), x.timestamp))
    ensures Window(accepted + [x], retention, maximum)
         == Pruned(Insert(Window(accepted, retention, maximum), x),
                   Raised(WatermarkOf(accepted), x.timestamp) - retention, maximum)
  {
    OrderedAppend(accepted, x);
    if |accepted| > 0 {
      var ordered, low := Ordered(accepted), Watermark(accepted) - retention;
      assert Window(accepted, retention, maximum) == Pruned(ordered, low, maximum);
      FreshInOrder(accepted, x);
      hide *;
      PrunedInsert(ordered, x, low, Raised(WatermarkOf(accepted), x.timestamp) - retention, maximum);
    }
  }

  lemma {:induction false} FreshInOrder<T(!new)>(accepted: seq<TimedValue<T>>, x: TimedValue<T>)
    requires Numbered(accepted + [x])
    ensures Numbered(accepted) && Sorted(Ordered(accepted))
    ensures forall y :: y in Ordered(accepted) ==> y.ordinal != x.ordinal
  {
    assert (accepted + [x])[..|accepted|] == accepted;
    NumberedPrefix(accepted + [x]);
    OrderedIsSorted(accepted);
    forall y | y in Ordered(accepted) ensures y.ordinal != x.ordinal {
      OrderedMember(accepted, y);
    }
  }

  /** An item at or behind the watermark goes to the end. */
  lemma {:induction false} NewestGoesLast<T(!new)>(accepted: seq<TimedValue<T>>, x: TimedValue<T>, retention: int,
                                                   maximum: nat)
    requires NumberedFrom(accepted + [x], x.ordinal - |accepted| - 1)
    requires |accepted| > 0 ==> x.timestamp >= Watermark(accepted)
    ensures Insert(Window(accepted, retention, maximum), x) == Window(accepted, retention, maximum) + [x]
  {
    var w := Window(accepted, retention, maximum);
    if |w| > 0 {
      NumberedPrefix(accepted + [x]);
      assert (accepted + [x])[..|accepted|] == accepted;
      WindowIsNewestItems(accepted, retention, maximum);
      WatermarkIsMaximum(accepted);
      assert w[|w| - 1] in w;
    }
  }

  /** The state of a window that has accepted `accepted` since ordinal `cleared`. */
  ghost predicate Represents<T(!new)>(items: seq<TimedValue<T>>, watermark: Option<int>, ordinal: nat,
                                      accepted: seq<TimedValue<T>>, cleared: nat,
                                      retention: int, maximum: nat, policy: LatePolicy)
  {
    && NumberedFrom(accepted, cleared) && ordinal == cleared + |accepted|
    && (policy == DROP ==> InTimeOrder(accepted))
    && watermark == WatermarkOf(accepted)
    && items == Window(accepted, retention, maximum)
  }

  lemma {:induction false} AcceptStep<T(!new)>(items: seq<TimedValue<T>>, watermark: Option<int>, ordinal: nat,
                                               accepted: seq<TimedValue<T>>, cleared: nat,
                                               retention: int, maximum: nat, policy: LatePolicy, x: TimedValue<T>)
    requires Represents(items, watermark, ordinal, accepted, cleared, retention, maximum, policy)
    requires x.ordinal == ordinal + 1 && retention > 0
    requires watermark.Some? ==> x.timestamp > watermark.value - retention
    requires policy == DROP && watermark.Some? ==> x.timestamp >= watermark.value
    ensures watermark.None? || x.timestamp >= watermark.value ==> Insert(items, x) == items + [x]
    ensures var raised := Raised(watermark, x.timestamp);
            Represents(Pruned(Insert(items, x), raised - retention, maximum), Some(raised), ordinal + 1,
                       accepted + [x], cleared, retention, maximum, policy)
  {
    hide NumberedFrom, InTimeOrder, Insert, Window, Pruned, Watermark;
    NumberedAppend(accepted, x, cleared);
    InTimeOrderAppend(accepted, x);
    WindowAfterAppend(accepted, x, retention, maximum);
    if watermark.None? || x.timestamp >= watermark.value {
      NewestGoesLast(accepted, x, retention, maximum);
    }
  }

  // ---------- The window itself ----------

  class BoundedTimeWindow<T(!new)> {
    const retention: int
    const maximumItems: nat
    const policy: LatePolicy
    const maximumLateness: int
    var items: seq<TimedValue<T>>
    var watermark: Option<int>
    var ordinal: nat
    var acceptedCount: nat
    var lateDropped: nat
    var expiredDropped: nat
    var capacityEvictions: nat
    /** Everything accepted since the last clear, in append order, and the ordinal before it. */
    ghost var accepted: seq<TimedValue<T>>
    ghost var cleared: nat

    ghost predicate Valid()
      reads this
    {
      && retention > 0 && maximumItems >= 1 && maximumLateness >= 0
      && Represents(items, watermark, ordinal, accepted, cleared, retention, maximumItems, policy)
    }

    constructor (retention: int, maximumItems: nat, policy: LatePolicy, maximumLateness: int)
      requires retention > 0 && maximumItems >= 1 && maximumLateness >= 0
      ensures Valid() && accepted == [] && cleared == 0
      ensures this.retention == retention && this.maximumItems == maximumItems
      ensures this.policy == policy && this.maximumLateness == maximumLateness
    {
      this.retention, this.maximumItems, this.policy, this.maximumLateness :=
        retention, maximumItems, policy, maximumLateness;
      items, watermark, ordinal := [], None, 0;
      acceptedCount, lateDropped, expiredDropped, capacityEvictions := 0, 0, 0, 0;
      accepted, cleared := [], 0;
    }

    /** Drops as the code's two loops do: first expiry, then the item cap. */
    method Prune()
      requires watermark.Some?
      modifies this`items, this`capacityEvictions
      ensures items == Pruned(old(items), watermark.value - retention, maximumItems)
      ensures capacityEvictions
           == old(capacityEvictions) + |Newer(old(items), watermark.value - retention)| - |items|
    {
      var cutoff := watermark.value - retention;
      while |items| > 0 && items[0].timestamp <= cutoff
        invariant Newer(items, cutoff) == Newer(old(items), cutoff)
        invariant capacityEvictions == old(capacityEvictions)
        decreases |items|
      {
        items := items[1..];
      }
      ghost var newer := items;
      while |items| > maximumItems
        invariant |items| <= |newer| && items == newer[|newer| - |items|..]
        invariant |items| >= maximumItems || items == newer
        invariant capacityEvictions == old(capacityEvictions) + |newer| - |items|
        decreases |items|
      {
        items := items[1..];
        capacityEvictions := capacityEvictions + 1;
      }
    }

    function Admissibility(timestamp: int): (status: AppendStatus)
      reads this
      ensures status == ACCEPTED <==>
                watermark.None? || timestamp >= watermark.value
                || (timestamp > watermark.value - retention && policy != DROP
                    && watermark.value - timestamp <= maximumLateness)
      ensures status == EXPIRED_DROPPED <==>
                watermark.Some? && timestamp < watermark.value && timestamp <= watermark.value - retention
    {
      if watermark.Some? && timestamp < watermark.value then
        if timestamp <= watermark.value - retention then EXPIRED_DROPPED
        else if policy == DROP || watermark.value - timestamp > maximumLateness then LATE_DROPPED
        else ACCEPTED
      else ACCEPTED
    }

    method Append(timestamp: int, value: T) returns (status: AppendStatus)
      requires Valid()
      modifies this
      ensures Valid() && cleared == old(cleared)
      ensures status == old(Admissibility(timestamp))
      ensures accepted == if status == ACCEPTED then old(accepted) + [TimedValue(timestamp, value, old(ordinal) + 1)]
                          else old(accepted)
      ensures acceptedCount == old(acceptedCount) + (if status == ACCEPTED then 1 else 0)
      ensures lateDropped == old(lateDropped) + (if status == LATE_DROPPED then 1 else 0)
      ensures expiredDropped == old(expiredDropped) + (if status == EXPIRED_DROPPED then 1 else 0)
    {
      hide Represents;
      status := Admissibility(timestamp);
      if status == EXPIRED_DROPPED {
        expiredDropped := expiredDropped + 1;
      } else if status == LATE_DROPPED {
        lateDropped := lateDropped + 1;
      } else {
        Accept(timestamp, value);
      }
    }

    method Accept(timestamp: int, value: T)
      requires Valid() && Admissibility(timestamp) == ACCEPTED
      modifies this`items, this`watermark, this`accepted, this`capacityEvictions, this`ordinal, this`acceptedCount
      ensures Valid() && acceptedCount == old(acceptedCount) + 1
      ensures accepted == old(accepted) + [TimedValue(timestamp, value, old(ordinal) + 1)]
    {
      hide Represents;
      var item := TimedValue(timestamp, value, ordinal + 1);
      AcceptStep(items, watermark, ordinal, accepted, cleared, retention, maximumItems, policy, item);
      ordinal := ordinal + 1;
      acceptedCount := acceptedCount + 1;
      Place(item);
      accepted := accepted + [item];
    }

    /** Put an accepted item in its place, raise the watermark and prune. */
    method Place(item: TimedValue<T>)
      requires watermark.None? || item.timestamp >= watermark.value ==> Insert(items, item) == items + [item]
      modifies this`items, this`watermark, this`capacityEvictions
      ensures watermark == Some(Raised(old(watermark), item.timestamp))
      ensures items == Pruned(Insert(old(items), item), watermark.value - retention, maximumItems)
    {
      if watermark.None? || item.timestamp >= watermark.value {
        items := items + [item];
        watermark := Some(item.timestamp);
      } else {
        items := InsertItem(items, item);
      }
      Prune();
    }

    /** The items in `(start, end]`, found from the newest backwards. */
    method ItemsBetween(start: int, end: int) returns (r: Result<seq<TimedValue<T>>>)
      requires Valid()
      ensures r.Failure? <==> end < start
      ensures r.Success? ==> r.value == Filter(Between(start, end), items)
    {
      if end < start {
        return Failure("window end cannot precede start");
      }
      WindowIsSorted();
      var result := ScanBetween(items, start, end);
      return Success(result);
    }

    /** The newest item at or before a decision boundary. */
    method LatestAtOrBefore(boundary: int) returns (r: Option<TimedValue<T>>)
      requires Valid()
      ensures r.None? ==> forall x :: x in items ==> x.timestamp > boundary
      ensures r.Some? ==>
                && r.value in items && r.value.timestamp <= boundary
                && forall x :: x in items && x.timestamp <= boundary ==> x == r.value || Less(x, r.value)
    {
      hide Represents, Window, NumberedFrom, Less;
      WindowIsSorted();
      var i := |items|;
      while i > 0
        invariant 0 <= i <= |items|
        invariant forall j :: i <= j < |items| ==> items[j].timestamp > boundary
      {
        if items[i - 1].timestamp <= boundary {
          forall x | x in items && x.timestamp <= boundary ensures x == items[i - 1] || Less(x, items[i - 1]) {
            var j :| 0 <= j < |items| && items[j] == x;
          }
          return Some(items[i - 1]);
        }
        i := i - 1;
      }
      return None;
    }

    /** The retained items appended after `after`, in append order. */
    method ItemsAppendedAfter(after: int) returns (r: Result<seq<TimedValue<T>>>)
      requires Valid()
      ensures r.Failure? <==> after < 0
      ensures r.Success? ==> r.value == AppendedAfter(accepted, items, after)
    {
      if after < 0 {
        return Failure("window ordinal cannot be negative");
      }
      WindowIsSorted();
      if after >= ordinal {
        FilterNone(Retained(items, after), accepted);
        return Success([]);
      }
      if policy == DROP {
        var result := ScanBack(after);
        return Success(result);
      }
      SortedAnswer(accepted, items, after);
      return Success(SortByKey(OrdinalOf, Filter(AppendedLater(after), items)));
    }

    method ScanBack(after: int) returns (result: seq<TimedValue<T>>)
      requires Valid() && policy == DROP
      ensures result == AppendedAfter(accepted, items, after)
    {
      ghost var d := InOrderWindow(accepted, cleared, retention, maximumItems);
      result := ScanLater(accepted, d, items, after);
    }

    lemma {:induction false} WindowIsSorted()
      requires Valid()
      ensures Sorted(items) && Within(items, accepted)
      ensures forall x :: x in accepted ==> x.ordinal <= ordinal
    {
      WindowIsNewestItems(accepted, retention, maximumItems);
      forall x | x in items ensures x in accepted {
        assert Live(accepted, retention, x);
      }
    }

    method Clear()
      requires Valid()
      modifies this
      ensures Valid() && accepted == [] && items == [] && ordinal == old(ordinal) && cleared == ordinal
    {
      items, watermark := [], None;
      accepted, cleared := [], ordinal;
    }
  }

  // ---------- Queries ----------

  function Between<T(!new)>(start: int, end: int): TimedValue<T> -> bool {
    (x: TimedValue<T>) => start < x.timestamp <= end
  }

  function AppendedLater<T(!new)>(after: int): TimedValue<T> -> bool {
    (x: TimedValue<T>) => x.ordinal > after
  }

  ghost function Retained<T(!new)>(items: seq<TimedValue<T>>, after: int): TimedValue<T> -> bool {
    (x: TimedValue<T>) => x.ordinal > after && x in items
  }

  /** Of everything accepted, in append order, what was appended later and is still retained. */
  ghost function AppendedAfter<T(!new)>(accepted: seq<TimedValue<T>>, items: seq<TimedValue<T>>, after: int)
    : seq<TimedValue<T>>
  {
    Filter(Retained(items, after), accepted)
  }

  lemma {:induction false} OlderIsNotBetween<T(!new)>(items: seq<TimedValue<T>>, i: nat, start: int, end: int)
    requires Sorted(items) && i <= |items| && (i > 0 ==> items[i - 1].timestamp <= start)
    ensures Filter(Between(start, end), items[..i]) == []
  {
    forall x | x in items[..i] ensures !Between(start, end)(x) {
      var j :| 0 <= j < i && items[j] == x;
      assert j < i - 1 ==> Less(items[j], items[i - 1]);
    }
    FilterNone(Between(start, end), items[..i]);
  }

  method ScanBetween<T(!new)>(items: seq<TimedValue<T>>, start: int, end: int) returns (result: seq<TimedValue<T>>)
    requires Sorted(items)
    ensures result == Filter(Between(start, end), items)
  {
    hide Sorted, Filter;
    result := [];
    var i := |items|;
    assert items[i..] == [];
    FilterNone(Between(start, end), items[i..]);
    while i > 0 && items[i - 1].timestamp > start
      invariant 0 <= i <= |items|
      invariant result == Filter(Between(start, end), items[i..])
    {
      i := i - 1;
      FilterHead(Between(start, end), items, i);
      if items[i].timestamp <= end {
        result := [items[i]] + result;
      }
    }
    OlderIsNotBetween(items, i, start, end);
    assert items == items[..i] + items[i..];
    FilterAppend(Between(start, end), items[..i], items[i..]);
  }

  method ScanLater<T(!new)>(ghost accepted: seq<TimedValue<T>>, ghost d: nat, items: seq<TimedValue<T>>, after: int)
    returns (result: seq<TimedValue<T>>)
    requires Numbered(accepted) && d <= |accepted| && items == accepted[d..]
    ensures result == AppendedAfter(accepted, items, after)
  {
    hide Numbered, AppendedAfter;
    result := [];
    var i := |items|;
    while i > 0 && items[i - 1].ordinal > after
      invariant 0 <= i <= |items|
      invariant result == items[i..]
      invariant forall j :: i <= j < |items| ==> items[j].ordinal > after
    {
      i := i - 1;
      result := [items[i]] + result;
    }
    ScannedAnswer(accepted, d, after, i);
  }

  predicate EarlierOrdinal<T(!new)>(a: TimedValue<T>, b: TimedValue<T>) {
    a.ordinal < b.ordinal
  }

  lemma {:induction false} NumberedWithLast<T(!new)>(s: seq<TimedValue<T>>, x: TimedValue<T>)
    requires Numbered(s) && forall y :: y in s ==> y.ordinal < x.ordinal
    ensures Numbered(s + [x])
  {
    assert forall i :: 0 <= i < |s| ==> s[i] in s;
  }

  lemma {:induction false} FilterKeepsNumbered<T(!new)>(p: TimedValue<T> -> bool, s: seq<TimedValue<T>>)
    requires Numbered(s)
    ensures Numbered(Filter(p, s))
  {
    if |s| > 0 {
      var n := |s| - 1;
      NumberedPrefix(s);
      FilterKeepsNumbered(p, s[..n]);
      FilterMembers(p, s[..n]);
      forall y | y in Filter(p, s[..n]) ensures y.ordinal < s[n].ordinal {
        assert y in s[..n];
      }
      NumberedWithLast(Filter(p, s[..n]), s[n]);
    }
  }

  lemma {:induction false} NumberedAscends<T(!new)>(s: seq<TimedValue<T>>)
    requires Numbered(s)
    ensures Ascends(EarlierOrdinal, s) && OneWay(EarlierOrdinal, s)
  {
    forall i, j | 0 <= i < j < |s| ensures EarlierOrdinal(s[i], s[j]) {
    }
  }

  /** Whatever is numbered and has the right members is the answer. */
  lemma {:induction false} AppendedAfterIs<T(!new)>(accepted: seq<TimedValue<T>>, items: seq<TimedValue<T>>, after: int,
                                              result: seq<TimedValue<T>>)
    requires Numbered(accepted) && Numbered(result)
    requires Within(items, accepted)
    requires forall x :: x in result <==> x in items && x.ordinal > after
    ensures result == AppendedAfter(accepted, items, after)
  {
    FilterMembers(Retained(items, after), accepted);
    FilterKeepsNumbered(Retained(items, after), accepted);
    NumberedAscends(result);
    NumberedAscends(AppendedAfter(accepted, items, after));
    forall x | x in result ensures x in AppendedAfter(accepted, items, after) {
      assert x in accepted && Retained(items, after)(x);
    }
    forall x | x in AppendedAfter(accepted, items, after) ensures x in result {
      assert Retained(items, after)(x);
    }
    AscendingUnique(EarlierOrdinal, result, AppendedAfter(accepted, items, after));
  }

  function OrdinalOf<T(!new)>(x: TimedValue<T>): int {
    x.ordinal
  }

  lemma {:induction false} SortByOrdinalSorts<T(!new)>(s: seq<TimedValue<T>>)
    requires KeysDiffer(OrdinalOf, s)
    ensures Numbered(SortByKey(OrdinalOf, s))
    ensures forall y :: y in SortByKey(OrdinalOf, s) <==> y in s
  {
    SortByKeySorts(OrdinalOf, s);
    SortByKeyMembers(OrdinalOf, s);
    var sorted := SortByKey(OrdinalOf, s);
    forall i, j | 0 <= i < j < |sorted| ensures sorted[i].ordinal < sorted[j].ordinal {
      assert OrdinalOf(sorted[i]) <= OrdinalOf(sorted[j]) && OrdinalOf(sorted[i]) != OrdinalOf(sorted[j]);
    }
  }

  /** Late inserts: sort the retained later items by ordinal. */
  lemma {:induction false} SortedAnswer<T(!new)>(accepted: seq<TimedValue<T>>, items: seq<TimedValue<T>>, after: int)
    requires Numbered(accepted) && Within(items, accepted) && Sorted(items)
    ensures SortByKey(OrdinalOf, Filter(AppendedLater(after), items)) == AppendedAfter(accepted, items, after)
  {
    FilterMembers(AppendedLater(after), items);
    assert forall x :: x in Filter(AppendedLater(after), items) <==> x in items && x.ordinal > after by {
      forall x: TimedValue<T> ensures x in Filter(AppendedLater(after), items) <==> x in items && x.ordinal > after {
        assert AppendedLater(after)(x) <==> x.ordinal > after;
      }
    }
    SortedDistinct(accepted, items);
    FilterKeepsDistinct(OrdinalOf, AppendedLater(after), items);
    SortByOrdinalSorts(Filter(AppendedLater(after), items));
    AppendedAfterIs(accepted, items, after, SortByKey(OrdinalOf, Filter(AppendedLater(after), items)));
  }

  lemma {:induction false} SortedDistinct<T(!new)>(accepted: seq<TimedValue<T>>, items: seq<TimedValue<T>>)
    requires Numbered(accepted) && Within(items, accepted) && Sorted(items)
    ensures KeysDiffer(OrdinalOf, items)
  {
    forall i, j | 0 <= i < j < |items| ensures OrdinalOf(items[i]) != OrdinalOf(items[j]) {
      assert items[i] in items && items[j] in items && Less(items[i], items[j]);
      var k :| 0 <= k < |accepted| && accepted[k] == items[i];
      var l :| 0 <= l < |accepted| && accepted[l] == items[j];
    }
  }

  /** No late inserts: the scan from the end may stop at the first old ordinal. */
  lemma {:induction false} ScannedAnswer<T(!new)>(accepted: seq<TimedValue<T>>, d: nat, after: int, i: nat)
    requires Numbered(accepted) && d <= |accepted| && i <= |accepted| - d
    requires forall j :: i <= j < |accepted| - d ==> accepted[d..][j].ordinal > after
    requires i > 0 ==> accepted[d..][i - 1].ordinal <= after
    ensures accepted[d..][i..] == AppendedAfter(accepted, accepted[d..], after)
  {
    var items := accepted[d..];
    assert forall j :: 0 <= j < i ==> items[j].ordinal <= items[i - 1].ordinal;
    forall x | x in items && x.ordinal > after ensures x in items[i..] {
      var j :| 0 <= j < |items| && items[j] == x;
      assert items[i..][j - i] == x;
    }
    AppendedAfterIs(accepted, items, after, items[i..]);
  }

  /** Without late inserts the order of time is the order of arrival, and the window a suffix of it. */
  lemma {:induction false} InOrderWindow<T(!new)>(accepted: seq<TimedValue<T>>, base: int, retention: int, maximum: nat)
    returns (d: nat)
    requires NumberedFrom(accepted, base) && InTimeOrder(accepted)
    ensures d <= |accepted| && Window(accepted, retention, maximum) == accepted[d..]
  {
    d := 0;
    if |accepted| > 0 {
      InOrderIsOrdered(accepted);
      d := WindowIsSuffix(accepted, retention, maximum);
    }
  }

  lemma {:induction false} InOrderPrefix<T(!new)>(accepted: seq<TimedValue<T>>)
    requires Numbered(accepted) && InTimeOrder(accepted) && |accepted| > 0
    ensures var n := |accepted| - 1;
            && Numbered(accepted[..n]) && InTimeOrder(accepted[..n])
            && Insert(accepted[..n], accepted[n]) == accepted
  {
    var n := |accepted| - 1;
    assert n > 0 ==> !Less(accepted[n], accepted[..n][n - 1]);
    assert Position(accepted[..n], accepted[n]) == n;
  }

  lemma {:induction false} InOrderIsOrdered<T(!new)>(accepted: seq<TimedValue<T>>)
    requires Numbered(accepted) && InTimeOrder(accepted)
    ensures Ordered(accepted) == accepted
  {
    if |accepted| > 0 {
      hide Insert, Numbered, InTimeOrder;
      InOrderPrefix(accepted);
      InOrderIsOrdered(accepted[..|accepted| - 1]);
    }
  }

  method InsertItem<T(!new)>(items: seq<TimedValue<T>>, item: TimedValue<T>) returns (result: seq<TimedValue<T>>)
    ensures result == Insert(items, item)
  {
    var p := Position(items, item);
    result := items[..p] + [item] + items[p..];
  }

  lemma {:induction false} NumberedAppend<T(!new)>(accepted: seq<TimedValue<T>>, x: TimedValue<T>, base: int)
    requires NumberedFrom(accepted, base) && x.ordinal == base + |accepted| + 1
    ensures NumberedFrom(accepted + [x], base)
  {
  }

  /** Timestamps never decrease in append order. */
  ghost predicate InTimeOrder<T(!new)>(accepted: seq<TimedValue<T>>) {
    forall i, j :: 0 <= i < j < |accepted| ==> accepted[i].timestamp <= accepted[j].timestamp
  }

  lemma {:induction false} InTimeOrderAppend<T(!new)>(accepted: seq<TimedValue<T>>, x: TimedValue<T>)
    ensures InTimeOrder(accepted) && (|accepted| > 0 ==> x.timestamp >= Watermark(accepted)) ==>
              InTimeOrder(accepted + [x])
  {
    if |accepted| > 0 {
      WatermarkIsMaximum(accepted);
      assert forall i :: 0 <= i < |accepted| ==> accepted[i] in accepted;
    }
  }
}
