/**
 Incremental exact queries over one append-mostly price stream. The cache follows a bounded
 time window by prefix sums and per-second bars and trims lazily. Counts, returns and lineage are
 those of a plain scan of the window; what the bars answer is in PriceAnswers.
 */
module PriceCache {
  import opened Common
  import opened Sequences
  import opened RollingWindow
  import opened WindowGrowth
  import opened PriceBars
  import opened PricePoints
  import opened PriceAnswers
  import L = Lineage

  const TRIM_BATCH: nat := 4_096

  // ---------- Bisection ----------

  /** The first position from `lo` on that is not below `x`. */
  function BisectLeft(s: seq<int>, x: int, lo: nat): (r: nat)
    requires lo <= |s|
    ensures lo <= r <= |s|
    ensures r > lo ==> s[r - 1] < x
    ensures r < |s| ==> s[r] >= x
    decreases |s| - lo
  {
    if lo == |s| || s[lo] >= x then lo else BisectLeft(s, x, lo + 1)
  }

  function BisectRight(s: seq<int>, x: int, lo: nat): nat
    requires lo <= |s|
  {
    BisectLeft(s, x + 1, lo)
  }

  ghost predicate NonDecreasing(s: seq<int>) {
    forall i, j :: 0 <= i < j < |s| ==> s[i] <= s[j]
  }

  lemma {:induction false} BisectSplits(s: seq<int>, x: int, lo: nat)
    requires NonDecreasing(s) && lo <= |s|
    ensures forall i :: lo <= i < |s| ==> (s[i] < x <==> i < BisectLeft(s, x, lo))
  {
    var r := BisectLeft(s, x, lo);
    assert forall i :: lo <= i < r - 1 ==> s[i] <= s[r - 1];
    assert forall i :: r < i < |s| ==> s[r] <= s[i];
  }

  // ---------- What the cache keeps ----------

  ghost predicate PointsAgree(points: seq<Point>, timestamps: seq<int>, base: Base, m: Model) {
    && |timestamps| == |points|
    && (forall i :: 0 <= i < |points| ==> timestamps[i] == points[i].timestamp)
    && Sorted(Items(points))
    && Chained(points, base, m)
  }

  function SamplesOf(points: seq<Point>): seq<Sample> {
    Samples(Items(points))
  }

  /** The bars are the same but for the values of the first one. */
  ghost predicate BarsBehindFirst(bars: seq<Bar>, expected: seq<Bar>) {
    && |bars| == |expected|
    && (|bars| > 0 ==> bars[0].second == expected[0].second && bars[1..] == expected[1..])
  }

  /**
   The bars are those of the points. A trim may leave a first bar that no query looks at and
   that need only be right when all points lie in their seconds.
   */
  ghost predicate BarsAgree(points: seq<Point>, bucketSeconds: seq<int>, buckets: seq<Bar>) {
    && SecondsOfBars(bucketSeconds, buckets)
    && BarsBehindFirst(buckets, Bars(SamplesOf(points)))
    && (AllCutCleanly(Items(points)) ==> buckets == Bars(SamplesOf(points)))
  }

  lemma {:induction false} SampleAt(points: seq<Point>, i: nat)
    requires i < |points|
    ensures |SamplesOf(points)| == |points|
    ensures SamplesOf(points)[i].second == SecondOf(points[i].timestamp)
    ensures points[i].price == ReferencePrice(points[i].source) ==> SamplesOf(points)[i].price == points[i].price
  {
    assert Items(points)[i] == ItemOf(points[i]);
  }

  lemma {:induction false} SortedRises(items: seq<Item>)
    requires Sorted(items)
    ensures TimesRise(items)
  {
    forall i, j | 0 <= i < j < |items| ensures items[i].timestamp <= items[j].timestamp {
      assert Less(items[i], items[j]);
    }
  }

  lemma {:induction false} PointsAreSorted(points: seq<Point>, timestamps: seq<int>, base: Base, m: Model)
    requires PointsAgree(points, timestamps, base, m)
    ensures Sorted(Items(points))
  {
  }

  lemma {:induction false} TimestampsRise(points: seq<Point>, timestamps: seq<int>, base: Base, m: Model)
    requires PointsAgree(points, timestamps, base, m)
    ensures NonDecreasing(timestamps)
  {
    hide Chained;
    forall i, j | 0 <= i < j < |points| ensures timestamps[i] <= timestamps[j] {
      assert Less(Items(points)[i], Items(points)[j]);
    }
  }

  /** Bisecting the timestamps at the start of a second counts the items that lie before it. */
  lemma {:induction false} TimeCut(points: seq<Point>, timestamps: seq<int>, base: Base, m: Model, second: int)
    requires PointsAgree(points, timestamps, base, m)
    ensures LiesBefore(Items(points), second, BisectLeft(timestamps, second * SECOND, 0))
  {
    TimestampsRise(points, timestamps, base, m);
    BisectSplits(timestamps, second * SECOND, 0);
    hide Chained, Sorted, BisectLeft, NonDecreasing;
    var c := BisectLeft(timestamps, second * SECOND, 0);
    forall i | 0 <= i < |points| ensures Items(points)[i].timestamp / SECOND < second <==> i < c {
      assert Items(points)[i] == ItemOf(points[i]) && timestamps[i] == points[i].timestamp;
    }
  }

  /** Bisecting the bar seconds counts the bars of the samples before the cut. */
  lemma {:induction false} BarCut(points: seq<Point>, bucketSeconds: seq<int>, buckets: seq<Bar>, t: int, c: nat)
    requires BarsAgree(points, bucketSeconds, buckets) && Rising(SamplesOf(points)) && CutsAt(SamplesOf(points), t, c)
    ensures BisectLeft(bucketSeconds, t, 0) == |Bars(SamplesOf(points)[..c])| <= |buckets|
  {
    BarIndex(SamplesOf(points), t, c);
    SameSeconds(buckets, Bars(SamplesOf(points)));
    hide Bars, Rising, CutsAt, BarsBehindFirst, AllCutCleanly, SamplesOf;
  }

  lemma {:induction false} SameSeconds(bars: seq<Bar>, expected: seq<Bar>)
    requires BarsBehindFirst(bars, expected)
    ensures |bars| == |expected| && forall j :: 0 <= j < |bars| ==> bars[j].second == expected[j].second
  {
    forall j | 0 < j < |bars| ensures bars[j].second == expected[j].second {
      assert bars[1..][j - 1] == expected[1..][j - 1];
    }
  }

  // ---------- Appending ----------

  lemma {:induction false} AppendKeepsPoints(points: seq<Point>, timestamps: seq<int>, base: Base, m: Model, x: Item)
    requires PointsAgree(points, timestamps, base, m)
    requires Sorted(Items(points) + [x])
    ensures Items(points + [NextPoint(points, base, x, m)]) == Items(points) + [x]
    ensures PointsAgree(points + [NextPoint(points, base, x, m)], timestamps + [x.timestamp], base, m)
  {
    ChainedAppend(points, base, x, m);
    hide Chained, Sorted;
  }

  ghost predicate SecondsOfBars(bucketSeconds: seq<int>, buckets: seq<Bar>) {
    |bucketSeconds| == |buckets| && forall j :: 0 <= j < |buckets| ==> bucketSeconds[j] == buckets[j].second
  }

  function AddSecond(bucketSeconds: seq<int>, second: int): seq<int> {
    if |bucketSeconds| > 0 && bucketSeconds[|bucketSeconds| - 1] == second then bucketSeconds
    else bucketSeconds + [second]
  }

  lemma {:induction false} AppendKeepsBars(points: seq<Point>, bucketSeconds: seq<int>, buckets: seq<Bar>,
                                           more: seq<Point>, x: Item)
    requires BarsAgree(points, bucketSeconds, buckets) && Items(more) == Items(points) + [x]
    ensures BarsAgree(more, AddSecond(bucketSeconds, SecondOf(x.timestamp)), AddSample(buckets, SampleOf(x)))
  {
    SamplesAppend(Items(points), x);
    hide Map, SampleOf, SecondOf;
    BarsStep(SamplesOf(points), SamplesOf(more), SampleOf(x));
    hide Bars;
    AddedSecond(bucketSeconds, buckets, SampleOf(x));
    AddedBehindFirst(buckets, Bars(SamplesOf(points)), SampleOf(x));
    hide AddSample, BarsBehindFirst, SecondsOfBars, AddSecond;
    assert AllCutCleanly(Items(more)) ==> AllCutCleanly(Items(points)) by {
      CleanPrefix(Items(points), x);
    }
    assert SampleOf(x).second == SecondOf(x.timestamp) by {
      SampleSecond(x);
    }
  }

  lemma {:induction false} SampleSecond(x: Item)
    ensures SampleOf(x).second == SecondOf(x.timestamp)
  {
  }

  lemma {:induction false} AddedSecond(bucketSeconds: seq<int>, buckets: seq<Bar>, x: Sample)
    requires SecondsOfBars(bucketSeconds, buckets)
    ensures SecondsOfBars(AddSecond(bucketSeconds, x.second), AddSample(buckets, x))
  {
  }

  lemma {:induction false} AddedBehindFirst(bars: seq<Bar>, expected: seq<Bar>, x: Sample)
    requires BarsBehindFirst(bars, expected)
    ensures BarsBehindFirst(AddSample(bars, x), AddSample(expected, x))
  {
    SameSeconds(bars, expected);
    var n := |bars| - 1;
    assert n > 0 ==> bars[1..][n - 1] == bars[n] && expected[1..][n - 1] == expected[n];
    assert n > 0 ==> bars[..n][1..] == bars[1..][..n - 1] && expected[..n][1..] == expected[1..][..n - 1];
  }

  lemma {:induction false} CleanPrefix(items: seq<Item>, x: Item)
    ensures AllCutCleanly(items + [x]) ==> AllCutCleanly(items)
  {
    assert forall i :: 0 <= i < |items| ==> (items + [x])[i] == items[i];
  }

  lemma {:induction false} SamplesAppend(items: seq<Item>, x: Item)
    ensures Samples(items + [x]) == Samples(items) + [SampleOf(x)]
  {
    assert (items + [x])[..|items|] == items;
  }

  lemma {:induction false} BarsStep(s: seq<Sample>, more: seq<Sample>, x: Sample)
    requires more == s + [x]
    ensures Bars(more) == AddSample(Bars(s), x)
  {
    assert more[..|more| - 1] == s;
  }

  // ---------- Trimming ----------

  lemma {:induction false} DropKeepsPoints(points: seq<Point>, timestamps: seq<int>, base: Base, m: Model, k: nat)
    requires PointsAgree(points, timestamps, base, m) && 0 < k <= |points|
    ensures var p := points[k - 1];
            PointsAgree(points[k..], timestamps[k..], Base(p.prefixSquared, p.prefixSum, p.prefixXor), m)
    ensures Items(points[k..]) == Items(points)[k..]
  {
    ChainedDrop(points, base, k, m);
    hide Chained;
  }

  /** Dropping points: whole bars go, and the first one left is made again. */
  lemma {:induction false} DropKeepsBars(s: seq<Sample>, k: nat, f: int, a: nat, b: nat)
    requires Rising(s) && k < |s| && s[k].second == f && CutsAt(s, f, a) && CutsAt(s, f + 1, b)
    ensures a <= k < b && |Bars(s[..a])| < |Bars(s)| && Bars(s)[|Bars(s[..a])|].second == f
    ensures Bars(s[k..]) == [OneBar(s[k..b])] + Bars(s)[|Bars(s[..a])|..][1..] && OneBar(s[k..b]).second == f
  {
    assert a <= k < b;
    StretchInOneSecond(s, k, k + 1, f, a, b);
    BarsCut(s, f, a);
    LeadingBar(s, a, f, a, b);
    LeadingBar(s, k, f, a, b);
  }

  lemma {:induction false} LeadingBar(s: seq<Sample>, i: nat, f: int, a: nat, b: nat)
    requires Rising(s) && CutsAt(s, f, a) && CutsAt(s, f + 1, b) && a <= i < b
    ensures Bars(s[i..]) == [OneBar(s[i..b])] + Bars(s[b..])
  {
    hide Bars, OneBar, Rising, CutsAt;
    CutInside(s, f + 1, b);
    OneSecondStretch(s, f, a, b, i, b);
    WholeTail(s, i);
    RisingSlice(s, i, |s|);
    CutsAtSlice(s, f + 1, b, i, |s|);
    BarsCut(s[i..], f + 1, b - i);
    SliceOfSlice(s, i, |s|, b - i);
    WholeTail(s, b);
  }

  lemma {:induction false} WholeTail<T>(s: seq<T>, i: nat)
    requires i <= |s|
    ensures s[i..|s|] == s[i..]
  {
  }

  /** Bisection to the earliest retained item can only pass items of the same timestamp. */
  lemma {:induction false} TrimPosition(points: seq<Point>, timestamps: seq<int>, base: Base, m: Model, lo: nat, p: nat)
    requires PointsAgree(points, timestamps, base, m) && lo <= p < |points|
    ensures var t := BisectLeft(timestamps, timestamps[p], lo);
            && t <= p
            && forall i :: t <= i < p ==> timestamps[i] == timestamps[p] && points[i].ordinal != points[p].ordinal
  {
    TimestampsRise(points, timestamps, base, m);
    hide Chained, Map;
    BisectSplits(timestamps, timestamps[p], lo);
    var t := BisectLeft(timestamps, timestamps[p], lo);
    forall i | t <= i < p ensures timestamps[i] == timestamps[p] && points[i].ordinal != points[p].ordinal {
      assert Less(Items(points)[i], Items(points)[p]);
    }
  }

  // ---------- What a query selects ----------

  lemma {:induction false} SelectionIsStretch(points: seq<Point>, timestamps: seq<int>, base: Base, m: Model,
                                              lo: nat, start: int, end: int)
    requires PointsAgree(points, timestamps, base, m) && lo <= |points| && start <= end
    ensures var left, right := BisectRight(timestamps, start, lo), BisectRight(timestamps, end, lo);
            && lo <= left <= right <= |points|
            && Filter(Between(start, end), Items(points)[lo..]) == Items(points)[left..right]
  {
    TimestampsRise(points, timestamps, base, m);
    BisectSplits(timestamps, start + 1, lo);
    BisectSplits(timestamps, end + 1, lo);
    hide Chained, Map, Sorted, BisectLeft;
    var left, right := BisectRight(timestamps, start, lo), BisectRight(timestamps, end, lo);
    assert left <= right;
    var items := Items(points);
    forall i | lo <= i < |items| ensures Between(start, end)(items[i]) <==> left <= i < right {
      assert items[i] == ItemOf(points[i]) && timestamps[i] == points[i].timestamp;
    }
    hide *;
    FilterStretch(Between(start, end), items, lo, left, right);
  }

  // ---------- The cache ----------

  datatype PriceRange = PriceRange(count: nat, first: Option<real>, last: Option<real>, squaredReturns: Option<real>)

  ghost predicate OrdinalsUpTo(items: seq<Item>, ordinal: nat) {
    forall x :: x in items ==> x.ordinal <= ordinal
  }

  class PriceHistoryCache {
    const model: Model
    var points: seq<Point>
    var timestamps: seq<int>
    var bucketSeconds: seq<int>
    var buckets: seq<Bar>
    var activeStart: nat
    var lastOrdinal: nat
    var base: Base

    ghost predicate Consistent()
      reads this
    {
      && model.Valid() && activeStart <= |points|
      && PointsAgree(points, timestamps, base, model) && BarsAgree(points, bucketSeconds, buckets)
    }

    ghost predicate Valid()
      reads this
    {
      Consistent() && OrdinalsUpTo(Items(points), lastOrdinal)
    }

    /** The cached items that are still in the window. */
    ghost function Active(): seq<Item>
      reads this
      requires activeStart <= |points|
    {
      Items(points)[activeStart..]
    }

    /** The cache shows the window as it was when it had accepted `lastOrdinal` items. */
    ghost predicate Follows(window: BoundedTimeWindow<PriceEvent>)
      reads this, window
    {
      && Valid() && window.Valid() && window.cleared == 0
      && lastOrdinal <= |window.accepted|
      && Active() == Window(window.accepted[..lastOrdinal], window.retention, window.maximumItems)
    }

    constructor (model: Model)
      requires model.Valid()
      ensures Valid() && points == [] && activeStart == 0 && lastOrdinal == 0 && this.model == model
    {
      this.model := model;
      points, timestamps, bucketSeconds, buckets := [], [], [], [];
      activeStart, lastOrdinal, base := 0, 0, NO_BASE;
    }

    method Append(item: Item)
      requires Consistent() && Sorted(Items(points) + [item])
      modifies this`points, this`timestamps, this`bucketSeconds, this`buckets
      ensures Consistent() && Items(points) == old(Items(points)) + [item]
    {
      hide Sorted, AllCutCleanly, BarsBehindFirst, Map, Chained, Bars, NextPoint, AddSample, AddSecond, SecondOf,
        ReferencePrice;
      AppendKeepsPoints(points, timestamps, base, model, item);
      AppendKeepsBars(points, bucketSeconds, buckets, points + [NextPoint(points, base, item, model)], item);
      assert SampleOf(item) == Sample(SecondOf(item.timestamp), ReferencePrice(item.value));
      points := points + [NextPoint(points, base, item, model)];
      timestamps := timestamps + [item.timestamp];
      AppendPrice(SecondOf(item.timestamp), ReferencePrice(item.value));
    }

    /** The incremental half of an append: the last bar grows, or a new one starts. */
    method AppendPrice(second: int, price: real)
      requires SecondsOfBars(bucketSeconds, buckets)
      modifies this`bucketSeconds, this`buckets
      ensures bucketSeconds == AddSecond(old(bucketSeconds), second)
      ensures buckets == AddSample(old(buckets), Sample(second, price))
    {
      if |bucketSeconds| > 0 && bucketSeconds[|bucketSeconds| - 1] == second {
        buckets := buckets[|buckets| - 1 := buckets[|buckets| - 1].Append(price)];
      } else {
        bucketSeconds := bucketSeconds + [second];
        buckets := buckets + [Bar(second, price, price, price)];
      }
    }

    method AppendAll(items: seq<Item>)
      requires Consistent() && Sorted(Items(points) + items)
      modifies this`points, this`timestamps, this`bucketSeconds, this`buckets
      ensures Consistent() && Items(points) == old(Items(points)) + items
    {
      ghost var before := Items(points);
      assert before + items[..0] == before;
      for i := 0 to |items|
        invariant Consistent() && Items(points) == before + items[..i]
      {
        SortedStep(before, items, i);
        hide *;
        Append(items[i]);
      }
      assert items[..|items|] == items;
    }

    method Rebuild(items: seq<Item>, latestOrdinal: nat)
      requires model.Valid() && Sorted(items) && OrdinalsUpTo(items, latestOrdinal)
      modifies this
      ensures Valid() && Items(points) == items && activeStart == 0 && lastOrdinal == latestOrdinal
    {
      hide PointsAgree, BarsAgree, Sorted, Map, OrdinalsUpTo;
      Clear();
      assert Items(points) + items == items;
      AppendAll(items);
      lastOrdinal := latestOrdinal;
    }

    method Clear()
      requires model.Valid()
      modifies this
      ensures Consistent() && Items(points) == [] && activeStart == 0
    {
      EmptyAgrees(NO_BASE, model);
      hide PointsAgree, BarsAgree;
      points, timestamps, bucketSeconds, buckets := [], [], [], [];
      activeStart, base := 0, NO_BASE;
    }

    /** Make the first bar again, of the points whose timestamps end before its second does. */
    method RebuildFirstBucket()
      requires PointsAgree(points, timestamps, base, model) && FirstBarStale(points, bucketSeconds, buckets)
      modifies this`buckets
      ensures BarsAgree(points, bucketSeconds, buckets)
      ensures FirstBarRemade(Items(points), old(buckets), buckets)
    {
      hide Bars, MaxOf, MinOf, BisectLeft, PointsAgree, SecondOf, AllCutCleanly, Map, BarOf;
      TimestampCount(points, timestamps, base, model);
      var firstSecond := SecondOf(points[0].timestamp);
      assert bucketSeconds[0] == firstSecond by {  // the code raises otherwise
        FirstBarSecond(points, bucketSeconds, buckets);
      }
      var end := BisectLeft(timestamps, (firstSecond + 1) * SECOND, 0);
      FirstBarMade(points, timestamps, base, model, firstSecond, end);
      var bar := BarOf(firstSecond, SamplesOf(points[..end]));
      MadeBar(points, firstSecond, end, bar, buckets);
      BarRemade(points, bucketSeconds, buckets, bar);
      hide FirstBarRemade, FirstBarStale, BarsAgree;
      buckets := buckets[0 := bar];
    }

    /** Forget the points in front of the active ones, and the bars of seconds before them. */
    method DropInactive()
      requires Consistent() && 0 < activeStart < |points|
      modifies this`points, this`timestamps, this`bucketSeconds, this`buckets, this`activeStart, this`base
      ensures Consistent() && activeStart == 0 && Items(points) == old(Items(points))[old(activeStart)..]
    {
      hide PointsAgree, BarsAgree, Map, FirstBarStale, BisectLeft, SecondOf, EndsBefore, Filter, BarOf;
      TimestampCount(points, timestamps, base, model);
      DropKeepsPoints(points, timestamps, base, model, activeStart);
      DropKeepsOtherBars(points, timestamps, base, model, bucketSeconds, buckets, activeStart);
      DropPoints();
      DropBars();
      RebuildFirstBucket();
    }

    method DropPoints()
      requires 0 < activeStart < |points| == |timestamps|
      modifies this`points, this`timestamps, this`activeStart, this`base
      ensures points == old(points[activeStart..]) && timestamps == old(timestamps[activeStart..]) && activeStart == 0
      ensures var removed := old(points[activeStart - 1]);
              base == Base(removed.prefixSquared, removed.prefixSum, removed.prefixXor)
    {
      var removed := points[activeStart - 1];
      base := Base(removed.prefixSquared, removed.prefixSum, removed.prefixXor);
      points := points[activeStart..];
      timestamps := timestamps[activeStart..];
      activeStart := 0;
    }

    method DropBars()
      requires |points| > 0 && |buckets| == |bucketSeconds|
      modifies this`bucketSeconds, this`buckets
      ensures var trim := BisectLeft(old(bucketSeconds), SecondOf(points[0].timestamp), 0);
              bucketSeconds == old(bucketSeconds)[trim..] && buckets == old(buckets)[trim..]
    {
      var firstSecond := SecondOf(points[0].timestamp);
      var bucketTrim := BisectLeft(bucketSeconds, firstSecond, 0);
      bucketSeconds := bucketSeconds[bucketTrim..];
      buckets := buckets[bucketTrim..];
    }

    /**
     Move the active boundary to the earliest retained item, and forget the inactive points
     once there are many. `p` is where the retained items start.
     */
    method TrimToRetainedWindow(window: BoundedTimeWindow<PriceEvent>, ghost p: nat)
      requires Valid() && activeStart <= p <= |points| && Items(points)[p..] == window.items
      requires model.Valid() && lastOrdinal == window.ordinal
      modifies this
      ensures Valid() && Active() == window.items && lastOrdinal == old(lastOrdinal)
      ensures |points| <= window.maximumItems + TRIM_BATCH || |points| == |window.items|
    {
      hide PointsAgree, BarsAgree, OrdinalsUpTo, Map;
      if |window.items| == 0 {
        if |points| > 0 {
          EmptyIsFine(window.ordinal);
          Rebuild([], window.ordinal);
        }
        return;
      }
      activeStart := TrimIndex(window.items[0], p);
      if activeStart < TRIM_BATCH && |points| <= window.maximumItems + TRIM_BATCH {
        return;
      }
      if activeStart <= 0 {
        return;
      }
      SuffixOrdinals(Items(points), activeStart, lastOrdinal);
      DropInactive();
    }

    /** Bisect to the earliest timestamp, then step over older items of the same timestamp. */
    method TrimIndex(earliest: Item, ghost p: nat) returns (trim: nat)
      requires Consistent() && activeStart <= p < |points| && Items(points)[p] == earliest
      ensures trim == p
    {
      hide Sorted, Chained, Map, BarsAgree, BisectLeft;
      TrimPosition(points, timestamps, base, model, activeStart, p);
      assert ItemOf(points[p]) == earliest;
      trim := BisectLeft(timestamps, earliest.timestamp, activeStart);
      while trim < |points| && points[trim].timestamp == earliest.timestamp && points[trim].ordinal != earliest.ordinal
        invariant BisectLeft(timestamps, earliest.timestamp, activeStart) <= trim <= p
        decreases p - trim
      {
        trim := trim + 1;
      }
      assert trim < |points| && points[trim].ordinal == earliest.ordinal;  // the code rebuilds otherwise
      assert trim >= activeStart;                                          // the code raises otherwise
    }

    /** Whether the new items continue the cached ones in the order of time. */
    method InOrder(newItems: seq<Item>) returns (inOrder: bool)
      requires Sorted(Items(points)) && FreshOrdinals(Items(points), newItems)
      ensures inOrder <==> Sorted(Items(points) + newItems)
    {
      hide Sorted, Map, FreshOrdinals;
      ghost var cached := Items(points);
      var previous := if |points| == 0 then None else Some(ItemOf(points[|points| - 1]));
      assert cached + newItems[..0] == cached;
      for i := 0 to |newItems|
        invariant Sorted(cached + newItems[..i]) && previous == LastItem(cached + newItems[..i])
      {
        OrderStep(cached, newItems, i);
        if previous.Some? && Less(newItems[i], previous.value) {
          return false;
        }
        previous := Some(newItems[i]);
      }
      assert newItems[..|newItems|] == newItems;
      return true;
    }

    /** After any appends to the window, the active points are exactly its items. */
    method Update(window: BoundedTimeWindow<PriceEvent>)
      requires Follows(window)
      modifies this
      ensures Follows(window) && Active() == window.items && lastOrdinal == window.ordinal
      ensures |points| <= window.maximumItems + TRIM_BATCH
    {
      hide PointsAgree, BarsAgree, Window, NumberedFrom, Map;
      var answer := window.ItemsAppendedAfter(lastOrdinal);
      var newItems := answer.value;
      ghost var cached, start := Items(points), activeStart;
      assert window.accepted[..|window.accepted|] == window.accepted;
      WindowFacts(window);
      PointsAreSorted(points, timestamps, base, model);
      NewItemFacts(cached, window.accepted, window.items, lastOrdinal);
      var inOrder := InOrder(newItems);
      if !inOrder {
        Rebuild(window.items, window.ordinal);
        return;
      }
      ghost var p := GrownActive(cached, start, window.accepted, lastOrdinal, window.retention, window.maximumItems);
      AppendAll(newItems);
      lastOrdinal := window.ordinal;
      TrimToRetainedWindow(window, p);
    }

    /** Any run of window appends, late, expired and evicting ones included, and an update. */
    method UpdateAfter(window: BoundedTimeWindow<PriceEvent>, arrivals: seq<(int, PriceEvent)>)
      requires Follows(window)
      modifies this, window
      ensures Follows(window) && Active() == window.items && lastOrdinal == window.ordinal
      ensures old(window.accepted) <= window.accepted
    {
      hide PointsAgree, BarsAgree, Window, NumberedFrom, Map, OrdinalsUpTo, Represents;
      for i := 0 to |arrivals|
        invariant Follows(window) && lastOrdinal == old(lastOrdinal) && old(window.accepted) <= window.accepted
      {
        Arrive(window, arrivals[i].0, arrivals[i].1);
      }
      Update(window);
    }

    /** The window moves on, and the cache still shows an earlier state of it. */
    method Arrive(window: BoundedTimeWindow<PriceEvent>, timestamp: int, value: PriceEvent)
      requires Follows(window)
      modifies window
      ensures Follows(window) && old(window.accepted) <= window.accepted
    {
      hide PointsAgree, BarsAgree, Window, NumberedFrom, Map, OrdinalsUpTo, Represents;
      ghost var before := window.accepted;
      var status := window.Append(timestamp, value);
      assert window.accepted[..lastOrdinal] == before[..lastOrdinal];
    }

    // ---------- Queries ----------

    /** The active items in `(start, end]`. */
    ghost function Selected(start: int, end: int): seq<Item>
      reads this
      requires activeStart <= |points|
    {
      Chosen(Active(), start, end)
    }

    /** Bisection finds the positions of the selected items. */
    method Bounds(start: int, end: int) returns (r: Result<(nat, nat)>)
      requires Consistent()
      ensures r.Failure? <==> end < start
      ensures r.Success? ==>
                && activeStart <= r.value.0 <= r.value.1 <= |points|
                && Selected(start, end) == Items(points)[r.value.0..r.value.1]
    {
      hide PointsAgree, BarsAgree, BisectLeft, Filter, Map;
      if end < start {
        return Failure("price query end cannot precede start");
      }
      TimestampCount(points, timestamps, base, model);
      SelectionIsStretch(points, timestamps, base, model, activeStart, start, end);
      return Success((BisectRight(timestamps, start, activeStart), BisectRight(timestamps, end, activeStart)));
    }

    /** Count, first and last price, and the sum of squared returns when there are two or more. */
    method Range(start: int, end: int) returns (r: Result<PriceRange>)
      requires Consistent()
      ensures r.Failure? <==> end < start
      ensures r.Success? ==>
                var s := Selected(start, end);
                && r.value.count == |s|
                && r.value.first == (if |s| == 0 then None else Some(ReferencePrice(s[0].value)))
                && r.value.last == (if |s| == 0 then None else Some(ReferencePrice(s[|s| - 1].value)))
                && r.value.squaredReturns
                   == (if |ReturnPositions(s)| < 2 then None else Some(Total(SquaredAt(s, model), |s|)))
    {
      hide PointsAgree, BarsAgree, Filter, Map, SquaredSum, ValidReturns, ReturnPositions, SquaredAt, Total;
      NoReturns();
      var bounds := Bounds(start, end);
      if bounds.Failure? {
        return Failure(bounds.error);
      }
      var (left, right) := bounds.value;
      if left >= right {
        return Success(PriceRange(0, None, None, None));
      }
      RangeByDifference(points, timestamps, base, model, left, right);
      FoldsOverPositions(Items(points)[left..right], model);
      var first, last := points[left], points[right - 1];
      var difference := last.prefixSquared - first.prefixSquared;
      var squared := if difference > 0.0 then difference else 0.0;
      var validLogReturns := last.prefixValid - first.prefixValid;
      return Success(PriceRange(right - left, Some(first.price), Some(last.price),
                                if validLogReturns < 2 then None else Some(squared)));
    }

    /** The commitment to the selected items, by subtraction of prefixes. */
    method Lineage(start: int, end: int) returns (r: Result<L.SourceLineage>)
      requires Consistent()
      ensures r.Failure? <==> end < start
      ensures r.Success? ==> r.value == L.LineageOf(Leaves(Selected(start, end), model))
    {
      hide PointsAgree, BarsAgree, Filter, L.Plus, L.Minus, L.Xor, L.NoBits, L.Bits;
      var bounds := Bounds(start, end);
      if bounds.Failure? {
        return Failure(bounds.error);
      }
      var (left, right) := bounds.value;
      if left >= right {
        return Success(L.EMPTY);
      }
      PointsAreChained(points, timestamps, base, model);
      LineageByDifference(points, base, left, right, model);
      var first, last := points[left], points[right - 1];
      var beforeSum := if left == 0 then base.digestSum else points[left - 1].prefixSum;
      var beforeXor := if left == 0 then base.digestXor else points[left - 1].prefixXor;
      return Success(L.SourceLineage(right - left, L.Minus(last.prefixSum, beforeSum), L.Xor(last.prefixXor, beforeXor),
                                     Some(first.timestamp), Some(last.timestamp)));
    }

    /** A bar of those selected points that lie in a second, if there are any. */
    method PartialBucket(second: int, left: nat, right: nat) returns (r: Option<Bar>)
      requires Consistent() && left <= right <= |points|
      ensures AsSeq(r) == PartialBars(Items(points)[left..right], second)
    {
      hide BisectLeft, MaxOf, MinOf, PointsAgree, BarsAgree, Map, PartialBars;
      TimestampCount(points, timestamps, base, model);
      var cutLeft := BisectLeft(timestamps, second * SECOND, 0);
      var cutRight := BisectLeft(timestamps, (second + 1) * SECOND, 0);
      PartialByCuts(points, timestamps, base, model, second, left, right);
      var bucketLeft := if cutLeft > left then cutLeft else left;
      var bucketRight := if cutRight < right then cutRight else right;
      if bucketLeft >= bucketRight {
        return None;
      }
      return Some(BarOf(second, SamplesOf(points[bucketLeft..bucketRight])));
    }

    /**
     The bars of the selected items: cached ones inside, partial ones at the ends. They are those
     of a plain scan when the ends cut cleanly.
     */
    method Buckets(start: int, end: int) returns (r: Result<seq<Bar>>)
      requires Consistent()
      ensures r.Failure? <==> end < start
      ensures r.Success? ==> r.value == Answered(Selected(start, end))
      ensures r.Success? && EndsCutCleanly(Selected(start, end)) ==> r.value == Bars(Samples(Selected(start, end)))
    {
      hide PointsAgree, BarsAgree, Chosen, Map, Bars, BisectLeft, SecondOf, EndsCutCleanly, PartialBars, Answered,
        Located;
      var bounds := Bounds(start, end);
      if bounds.Failure? {
        return Failure(bounds.error);
      }
      SelectionRises(points, timestamps, base, model, activeStart, start, end);
      var (left, right) := bounds.value;
      if left >= right {
        NothingAnswered();
        return Success([]);
      }
      var firstSecond, lastSecond := SecondOf(points[left].timestamp), SecondOf(points[right - 1].timestamp);
      LocateBars(points, timestamps, base, model, bucketSeconds, buckets, left, right);
      var bucketLeft := BisectLeft(bucketSeconds, firstSecond, 0);
      var bucketRight := BisectRight(bucketSeconds, lastSecond, 0);
      var selected := SelectBars(left, right, bucketLeft, bucketRight);
      return Success(selected);
    }

    /** The loop over the cached bars that the selection touches. */
    method SelectBars(left: nat, right: nat, bucketLeft: nat, bucketRight: nat) returns (selected: seq<Bar>)
      requires Consistent() && left < right <= |points|
      requires Located(buckets, bucketLeft, bucketRight, SecondOf(points[left].timestamp),
                       SecondOf(points[right - 1].timestamp))
      ensures var items := Items(points)[left..right];
              var f, l := SecondOf(points[left].timestamp), SecondOf(points[right - 1].timestamp);
              selected == if f == l then PartialBars(items, f)
                          else PartialBars(items, f) + buckets[bucketLeft + 1..bucketRight - 1] + PartialBars(items, l)
    {
      hide PointsAgree, BarsAgree, Map, PartialBars, SecondOf;
      var firstSecond, lastSecond := SecondOf(points[left].timestamp), SecondOf(points[right - 1].timestamp);
      ghost var n := bucketRight - bucketLeft;
      ghost var first := PartialBars(Items(points)[left..right], firstSecond);
      ghost var last := PartialBars(Items(points)[left..right], lastSecond);
      ghost var middle := if n == 1 then [] else buckets[bucketLeft + 1..bucketRight - 1];
      selected := [];
      for index := bucketLeft to bucketRight
        invariant selected == Gathered(first, middle, last, index - bucketLeft, n)
      {
        var bucket := buckets[index];
        GatherStep(first, middle, last, index - bucketLeft, n);
        hide Gathered;
        if bucket.second in {firstSecond, lastSecond} {
          var partial := PartialBucket(bucket.second, left, right);
          if partial.Some? {
            selected := selected + [partial.value];
          }
        } else {
          selected := selected + [bucket];
        }
      }
    }

    /** Highest and lowest selected price, right when no selected item is lost. */
    method HighLow(start: int, end: int) returns (r: Result<(Option<real>, Option<real>)>)
      requires Consistent()
      ensures r.Failure? <==> end < start
      ensures r.Success? ==> r.value == ExtremesOfBars(Answered(Selected(start, end)))
      ensures r.Success? && NoneLost(Selected(start, end)) ==> r.value == Extremes(Samples(Selected(start, end)))
    {
      hide PointsAgree, BarsAgree, Chosen, Map, HighOf, LowOf, Extremes, NoneLost, EndsCutCleanly, Answered, Bars;
      var bars := Buckets(start, end);
      if bars.Failure? {
        return Failure(bars.error);
      }
      SelectionRises(points, timestamps, base, model, activeStart, start, end);
      if |bars.value| == 0 {
        return Success((None, None));
      }
      return Success((Some(HighOf(bars.value)), Some(LowOf(bars.value))));
    }

    /** The average true range over the bars of the query. */
    method AverageTrueRange(start: int, end: int) returns (r: Result<Option<real>>)
      requires Consistent()
      ensures r.Failure? <==> end < start
      ensures r.Success? ==> r.value == AtrOfBars(|Selected(start, end)|, Answered(Selected(start, end)))
      ensures r.Success? && AtrCutsCleanly(Selected(start, end)) ==> r.value == Atr(Samples(Selected(start, end)))
    {
      hide PointsAgree, BarsAgree, Chosen, Map, Bars, RangeSum, Atr, AtrCutsCleanly, EndsCutCleanly, Answered;
      var bounds := Bounds(start, end);
      if bounds.Failure? {
        return Failure(bounds.error);
      }
      SelectionRises(points, timestamps, base, model, activeStart, start, end);
      var (left, right) := bounds.value;
      if right - left < 2 {
        return Success(None);
      }
      var bars := Buckets(start, end);
      if |bars.value| == 0 {
        return Success(None);
      }
      var average := AverageRange(bars.value);
      return Success(Some(average));
    }

    /**
     The cache against the naive grouping, whatever was trimmed and however the window ran: they
     agree when the selection cuts cleanly.
     */
    method AtrAgreesWithReference(window: BoundedTimeWindow<PriceEvent>, start: int, end: int)
      returns (fast: Option<real>, naive: Option<real>)
      requires Follows(window) && start <= end
      modifies this
      ensures Follows(window) && naive == Atr(Samples(Chosen(window.items, start, end)))
      ensures AtrCutsCleanly(Chosen(window.items, start, end)) ==> fast == naive
    {
      hide PointsAgree, BarsAgree, Map, Bars, RangeSum, Window, Represents, Sorted, Rising, Atr, Answered,
        AtrCutsCleanly;
      Update(window);
      var cached := AverageTrueRange(start, end);
      var answer := window.ItemsBetween(start, end);
      window.WindowIsSorted();
      SortedRises(window.items);
      ghost var p, q := ChosenStretch(window.items, start, end);
      CleanStretch(window.items, p, q);
      SamplesRise(answer.value);
      naive := OneSecondAtr(Samples(answer.value));
      fast := cached.value;
    }
  }

  /** What is right about the answers to a query over the active items. */
  lemma {:induction false} SelectionRises(points: seq<Point>, timestamps: seq<int>, base: Base, m: Model, lo: nat,
                                          start: int, end: int)
    requires PointsAgree(points, timestamps, base, m) && lo <= |points| && start <= end
    ensures var s := Chosen(Items(points)[lo..], start, end);
            && (EndsCutCleanly(s) ==> Answered(s) == Bars(Samples(s)))
            && (NoneLost(s) ==> ExtremesOfBars(Answered(s)) == Extremes(Samples(s)))
            && (AtrCutsCleanly(s) ==> AtrOfBars(|s|, Answered(s)) == Atr(Samples(s)))
  {
    PointsAreSorted(points, timestamps, base, m);
    hide PointsAgree, Sorted, Chosen, Answered, Bars, Map, EndsCutCleanly, NoneLost, AtrCutsCleanly, Extremes, Atr,
      ExtremesOfBars, AtrOfBars, Samples, TimesRise;
    SortedRises(Items(points));
    CleanStretch(Items(points), lo, |points|);
    WholeTail(Items(points), lo);
    var active := Items(points)[lo..];
    var p, q := ChosenStretch(active, start, end);
    CleanStretch(active, p, q);
    var s := active[p..q];
    if EndsCutCleanly(s) {
      BarsRight(s);
    }
    if NoneLost(s) {
      ExtremesRight(s);
    }
    if AtrCutsCleanly(s) {
      AtrRight(s);
    }
  }

  function AsSeq(bar: Option<Bar>): seq<Bar> {
    if bar.None? then [] else [bar.value]
  }

  /** Cutting a stretch of the points by the start and the end of a second. */
  lemma {:induction false} PartialByCuts(points: seq<Point>, timestamps: seq<int>, base: Base, m: Model,
                                         second: int, left: nat, right: nat)
    requires PointsAgree(points, timestamps, base, m) && left <= right <= |points|
    ensures var cutLeft := BisectLeft(timestamps, second * SECOND, 0);
            var cutRight := BisectLeft(timestamps, (second + 1) * SECOND, 0);
            var lo: nat := if cutLeft > left then cutLeft else left;
            var hi: nat := if cutRight < right then cutRight else right;
            PartialBars(Items(points)[left..right], second)
            == if lo >= hi then [] else [BarOf(second, SamplesOf(points[lo..hi]))]
  {
    hide PointsAgree, BisectLeft, LiesBefore, PartialBars, PartBars, BarOf, Map, Samples;
    TimeCut(points, timestamps, base, m, second);
    TimeCut(points, timestamps, base, m, second + 1);
    var cutLeft := BisectLeft(timestamps, second * SECOND, 0);
    var cutRight := BisectLeft(timestamps, (second + 1) * SECOND, 0);
    CutsRise(Items(points), second, cutLeft, second + 1, cutRight);
    var c := LiesInSlice(Items(points), second, cutLeft, left, right);
    var d := LiesInSlice(Items(points), second + 1, cutRight, left, right);
    PartialIs(Items(points)[left..right], second, c, d);
    var lo: nat := if cutLeft > left then cutLeft else left;
    var hi: nat := if cutRight < right then cutRight else right;
    ClampedCuts(cutLeft, cutRight, left, right, c, d, lo, hi);
    PartOfStretch(points, second, left, right, c, d, lo, hi);
  }

  lemma {:induction false} PartOfStretch(points: seq<Point>, second: int, left: nat, right: nat, c: nat, d: nat,
                                         lo: nat, hi: nat)
    requires left <= right <= |points| && c <= d <= right - left
    requires (c == d <==> lo >= hi) && (lo < hi ==> lo == left + c && hi == left + d)
    ensures |Samples(Items(points)[left..right])| == right - left
    ensures PartBars(second, Samples(Items(points)[left..right]), c, d)
            == if lo >= hi then [] else [BarOf(second, SamplesOf(points[lo..hi]))]
  {
    hide BarOf, Map;
    SamplesCut(Items(points), left, right);
    if lo < hi {
      SamplesSlice(points, lo, hi);
      SliceInThree(SamplesOf(points), left, lo, hi, right);
    }
  }

  lemma {:induction false} ClampedCuts(cutLeft: nat, cutRight: nat, left: nat, right: nat, c: nat, d: nat, lo: nat,
                                       hi: nat)
    requires cutLeft <= cutRight && left <= right
    requires c == if cutLeft < left then 0 else if cutLeft > right then right - left else cutLeft - left
    requires d == if cutRight < left then 0 else if cutRight > right then right - left else cutRight - left
    requires lo == (if cutLeft > left then cutLeft else left) && hi == if cutRight < right then cutRight else right
    ensures c <= d && (c == d <==> lo >= hi) && (lo < hi ==> lo == left + c && hi == left + d)
  {
  }

  lemma {:induction false} LiesInSlice(items: seq<Item>, t: int, c: nat, left: nat, right: nat) returns (d: nat)
    requires LiesBefore(items, t, c) && left <= right <= |items|
    ensures LiesBefore(items[left..right], t, d)
    ensures d == if c < left then 0 else if c > right then right - left else c - left
  {
    d := if c < left then 0 else if c > right then right - left else c - left;
    assert forall i :: 0 <= i < right - left ==> items[left..right][i] == items[left + i];
  }

  /** The cached bars from the first to the last second of a selection. */
  ghost predicate Located(buckets: seq<Bar>, i: nat, j: nat, f: int, l: int) {
    && i < j <= |buckets| && buckets[i].second == f && buckets[j - 1].second == l
    && (f == l <==> j == i + 1)
    && forall n :: i < n < j - 1 ==> f < buckets[n].second < l
  }

  /** The bars gathered from the first `i` of `n` cached ones. */
  ghost function Gathered(first: seq<Bar>, middle: seq<Bar>, last: seq<Bar>, i: nat, n: nat): seq<Bar>
    requires i <= n && |middle| == if n <= 1 then 0 else n - 2
  {
    if i == 0 then [] else if i < n || n == 1 then first + middle[..i - 1] else first + middle + last
  }

  lemma {:induction false} GatherStep(first: seq<Bar>, middle: seq<Bar>, last: seq<Bar>, i: nat, n: nat)
    requires i < n && |middle| == if n <= 1 then 0 else n - 2
    ensures Gathered(first, middle, last, i + 1, n)
            == Gathered(first, middle, last, i, n)
               + (if i == 0 then first else if i == n - 1 then last else [middle[i - 1]])
  {
  }

  /** The cached bars strictly inside a selection are those of its inner seconds. */
  lemma {:induction false} LocateBars(points: seq<Point>, timestamps: seq<int>, base: Base, m: Model,
                                      bucketSeconds: seq<int>, buckets: seq<Bar>, left: nat, right: nat)
    requires PointsAgree(points, timestamps, base, m) && BarsAgree(points, bucketSeconds, buckets)
    requires left < right <= |points|
    ensures var f, l := SecondOf(points[left].timestamp), SecondOf(points[right - 1].timestamp);
            var i, j := BisectLeft(bucketSeconds, f, 0), BisectRight(bucketSeconds, l, 0);
            && Located(buckets, i, j, f, l)
            && var items := Items(points)[left..right];
               Answered(items) == if f == l then PartialBars(items, f)
                                  else PartialBars(items, f) + buckets[i + 1..j - 1] + PartialBars(items, l)
  {
    hide PointsAgree, BarsAgree, Bars, SamplesOf, BisectLeft, SecondOf, Filter, Rising, CutsAt, TimesRise, PartialBars,
      Samples;
    var f, l := SecondOf(points[left].timestamp), SecondOf(points[right - 1].timestamp);
    PointsRise(points, timestamps, base, m);
    SecondsRise(points[left].timestamp, points[right - 1].timestamp);
    if f == l {
      LocateOne(points, bucketSeconds, buckets, left, right, f);
    } else {
      LocateMany(points, bucketSeconds, buckets, left, right, f, l);
    }
  }

  lemma {:induction false} NoReturns()
    ensures ReturnPositions([]) == {}
  {
  }

  lemma {:induction false} NothingAnswered()
    ensures Answered([]) == []
  {
  }

  lemma {:induction false} PointsRise(points: seq<Point>, timestamps: seq<int>, base: Base, m: Model)
    requires PointsAgree(points, timestamps, base, m)
    ensures TimesRise(Items(points))
    ensures forall i, j :: 0 <= i <= j < |points| ==> points[i].timestamp <= points[j].timestamp
  {
    PointsAreSorted(points, timestamps, base, m);
    SortedRises(Items(points));
    assert forall i :: 0 <= i < |points| ==> Items(points)[i] == ItemOf(points[i]);
  }

  lemma {:induction false} LocateOne(points: seq<Point>, bucketSeconds: seq<int>, buckets: seq<Bar>,
                                     left: nat, right: nat, f: int)
    requires TimesRise(Items(points)) && BarsAgree(points, bucketSeconds, buckets) && left < right <= |points|
    requires SecondOf(points[left].timestamp) == f == SecondOf(points[right - 1].timestamp)
    ensures Located(buckets, BisectLeft(bucketSeconds, f, 0), BisectRight(bucketSeconds, f, 0), f, f)
  {
    hide Bars, SamplesOf, BisectLeft, Rising, CutsAt, OneBar, SecondOf, TimesRise, BarsAgree;
    var s := SamplesOf(points);
    var a, b := SecondBounds(points, left, f);
    SampleAt(points, right - 1);
    StretchInOneSecond(s, left, right, f, a, b);
    BarCut(points, bucketSeconds, buckets, f, a);
    BarCut(points, bucketSeconds, buckets, f + 1, b);
    AgreeOnSeconds(points, bucketSeconds, buckets);
  }

  lemma {:induction false} AgreeOnSeconds(points: seq<Point>, bucketSeconds: seq<int>, buckets: seq<Bar>)
    requires BarsAgree(points, bucketSeconds, buckets)
    ensures var whole := Bars(SamplesOf(points));
            && |buckets| == |bucketSeconds| == |whole|
            && (forall j :: 0 <= j < |whole| ==> buckets[j].second == whole[j].second)
            && (|whole| > 0 ==> buckets[1..] == whole[1..])
  {
    SameSeconds(buckets, Bars(SamplesOf(points)));
  }

  lemma {:induction false} LocateMany(points: seq<Point>, bucketSeconds: seq<int>, buckets: seq<Bar>,
                                      left: nat, right: nat, f: int, l: int)
    requires TimesRise(Items(points)) && BarsAgree(points, bucketSeconds, buckets) && left < right <= |points|
    requires SecondOf(points[left].timestamp) == f < l == SecondOf(points[right - 1].timestamp)
    ensures var i, j := BisectLeft(bucketSeconds, f, 0), BisectRight(bucketSeconds, l, 0);
            && Located(buckets, i, j, f, l)
            && buckets[i + 1..j - 1] == Bars(Samples(Filter(FiledBetween(f, l), Items(points)[left..right])))
  {
    hide Bars, SamplesOf, BisectLeft, Rising, CutsAt, OneBar, SecondOf, TimesRise, BarsAgree, Map, Filter, Samples;
    var s := SamplesOf(points);
    var a, b := SecondBounds(points, left, f);
    var c, d := SecondBounds(points, right - 1, l);
    StretchOverSeconds(s, left, right, f, l, a, b, c, d);
    BarCut(points, bucketSeconds, buckets, f, a);
    BarCut(points, bucketSeconds, buckets, l + 1, d);
    AgreeOnSeconds(points, bucketSeconds, buckets);
    InnerItems(points, left, right, f, l, b, c);
    hide *;
    PlaceBars(buckets, Bars(s), |Bars(s[..a])|, Bars(s[b..c]), f, l);
  }

  lemma {:induction false} PlaceBars(buckets: seq<Bar>, whole: seq<Bar>, i: nat, middle: seq<Bar>, f: int, l: int)
    requires |buckets| == |whole| >= i + |middle| + 2 && f < l && buckets[1..] == whole[1..]
    requires forall j :: 0 <= j < |whole| ==> buckets[j].second == whole[j].second
    requires whole[i].second == f && whole[i + |middle| + 1].second == l
    requires whole[i + 1..i + 1 + |middle|] == middle && forall j :: 0 <= j < |middle| ==> f < middle[j].second < l
    ensures Located(buckets, i, i + |middle| + 2, f, l) && buckets[i + 1..i + 1 + |middle|] == middle
  {
    forall j | 0 <= j < |middle| ensures buckets[i + 1 + j] == middle[j] {
      assert buckets[1..][i + j] == whole[1..][i + j];
    }
  }

  lemma {:induction false} InnerItems(points: seq<Point>, left: nat, right: nat, f: int, l: int, b: nat, c: nat)
    requires left <= b <= c <= right <= |points| == |SamplesOf(points)| && f < l
    requires CutsAt(SamplesOf(points), f + 1, b) && CutsAt(SamplesOf(points), l, c)
    ensures Samples(Filter(FiledBetween(f, l), Items(points)[left..right])) == SamplesOf(points)[b..c]
  {
    FiledCuts(Items(points), f + 1, b);
    FiledCuts(Items(points), l, c);
    hide Map, Filter, CutsAt, SecondOf;
    FiledInSlice(Items(points), f + 1, b, left, right);
    FiledInSlice(Items(points), l, c, left, right);
    hide FiledBefore;
    MiddleIs(Items(points)[left..right], f, l, b - left, c - left);
    SamplesCut(Items(points), left, right);
    SliceInThree(SamplesOf(points), left, b, c, right);
  }

  lemma {:induction false} FiledInSlice(items: seq<Item>, t: int, c: nat, left: nat, right: nat)
    requires FiledBefore(items, t, c) && left <= c <= right <= |items|
    ensures FiledBefore(items[left..right], t, c - left)
  {
    assert forall i :: 0 <= i < right - left ==> items[left..right][i] == items[left + i];
  }

  lemma {:induction false} SamplesCut(items: seq<Item>, left: nat, right: nat)
    requires left <= right <= |items|
    ensures |Samples(items)| == |items| && Samples(items[left..right]) == Samples(items)[left..right]
  {
    MapSlice(SampleOf, items, left, right);
  }

  lemma {:induction false} TimestampCount(points: seq<Point>, timestamps: seq<int>, base: Base, m: Model)
    requires PointsAgree(points, timestamps, base, m)
    ensures |timestamps| == |points|
  {
  }

  lemma {:induction false} PointsAreChained(points: seq<Point>, timestamps: seq<int>, base: Base, m: Model)
    requires PointsAgree(points, timestamps, base, m)
    ensures Chained(points, base, m) && Sorted(Items(points))
  {
  }

  lemma {:induction false} RangeByDifference(points: seq<Point>, timestamps: seq<int>, base: Base, m: Model,
                                             left: nat, right: nat)
    requires PointsAgree(points, timestamps, base, m) && m.Valid() && left < right <= |points|
    ensures var s := Items(points)[left..right];
            && points[left].price == ReferencePrice(s[0].value)
            && points[right - 1].price == ReferencePrice(s[|s| - 1].value)
            && points[right - 1].prefixSquared - points[left].prefixSquared == SquaredSum(s, m) >= 0.0
            && points[right - 1].prefixValid - points[left].prefixValid == ValidReturns(s)
  {
    hide Sorted, SquaredSum, ValidReturns, Map;
    ReturnDifferences(points, base, left, right, m);
    SquaredSumIsNonNegative(Items(points)[left..right], m);
    assert Items(points)[left] == ItemOf(points[left]) && Items(points)[right - 1] == ItemOf(points[right - 1]);
  }

  /** The new items carry later ordinals, each once. */
  ghost predicate FreshOrdinals(cached: seq<Item>, newItems: seq<Item>) {
    forall i :: 0 <= i < |newItems| ==> forall y :: y in cached + newItems[..i] ==> y.ordinal != newItems[i].ordinal
  }

  ghost function LastItem(items: seq<Item>): Option<Item> {
    if |items| == 0 then None else Some(items[|items| - 1])
  }

  lemma {:induction false} OrderStep(cached: seq<Item>, newItems: seq<Item>, i: nat)
    requires i < |newItems| && Sorted(cached + newItems[..i]) && FreshOrdinals(cached, newItems)
    ensures var last := LastItem(cached + newItems[..i]);
            && (last.Some? && Less(newItems[i], last.value) ==> !Sorted(cached + newItems))
            && (last.None? || !Less(newItems[i], last.value) ==> Sorted(cached + newItems[..i + 1]))
    ensures LastItem(cached + newItems[..i + 1]) == Some(newItems[i])
  {
    var before, x, whole := cached + newItems[..i], newItems[i], cached + newItems;
    assert cached + newItems[..i + 1] == before + [x];
    if |before| > 0 {
      var last := before[|before| - 1];
      assert last in before && last.ordinal != x.ordinal;
      assert whole[|before| - 1] == last && whole[|before|] == x;
      if !Less(x, last) {
        forall j | 0 <= j < |before| ensures Less(before[j], x) {
          assert j < |before| - 1 ==> Less(before[j], before[|before| - 1]);
        }
      }
    }
  }

  lemma {:induction false} WindowFacts(window: BoundedTimeWindow<PriceEvent>)
    requires window.Valid() && window.cleared == 0
    ensures NumberedFrom(window.accepted, 0) && window.ordinal == |window.accepted|
    ensures window.retention > 0 && window.maximumItems >= 1 && |window.items| <= window.maximumItems
    ensures window.items == Window(window.accepted, window.retention, window.maximumItems)
    ensures Sorted(window.items) && Within(window.items, window.accepted)
    ensures OrdinalsUpTo(window.items, window.ordinal)
  {
    window.WindowIsSorted();
    WindowIsNewestItems(window.accepted, window.retention, window.maximumItems);
  }

  lemma {:induction false} NewItemFacts(cached: seq<Item>, accepted: seq<Item>, items: seq<Item>, last: nat)
    requires NumberedFrom(accepted, 0) && OrdinalsUpTo(cached, last) && last <= |accepted|
    ensures var newItems := AppendedAfter(accepted, items, last);
            && FreshOrdinals(cached, newItems)
            && OrdinalsUpTo(cached + newItems, |accepted|)
  {
    var newItems := AppendedAfter(accepted, items, last);
    FilterMembers(Retained(items, last), accepted);
    FilterKeepsNumbered(Retained(items, last), accepted);
    assert forall x :: x in newItems ==> Retained(items, last)(x) && x in accepted;
    hide AppendedAfter;
    forall i | 0 <= i < |newItems|
      ensures forall y :: y in cached + newItems[..i] ==> y.ordinal != newItems[i].ordinal
    {
      assert newItems[i] in newItems;
    }
  }

  /** Cached items in front of the active ones, the active ones, and the new ones: the window is the tail. */
  lemma {:induction false} GrownActive(cached: seq<Item>, start: nat, accepted: seq<Item>, n: nat,
                                       retention: int, maximum: nat)
    returns (p: nat)
    requires NumberedFrom(accepted, 0) && n <= |accepted| && retention > 0 && maximum >= 1 && start <= |cached|
    requires cached[start..] == Window(accepted[..n], retention, maximum)
    requires Sorted(cached + AppendedAfter(accepted, Window(accepted, retention, maximum), n))
    ensures var whole := cached + AppendedAfter(accepted, Window(accepted, retention, maximum), n);
            start <= p <= |whole| && whole[p..] == Window(accepted, retention, maximum)
  {
    hide Window, AppendedAfter, NumberedFrom;
    var newItems := AppendedAfter(accepted, Window(accepted, retention, maximum), n);
    var whole := cached + newItems;
    assert whole[start..] == cached[start..] + newItems;
    var k := GrownWindowIsSuffix(accepted, n, retention, maximum);
    p := start + k;
    SliceOfSlice(whole, start, |whole|, k);
    WholeTail(whole, start);
    WholeTail(whole, p);
  }

  lemma {:induction false} EmptyIsFine(ordinal: nat)
    ensures Sorted<PriceEvent>([]) && OrdinalsUpTo([], ordinal)
  {
  }

  lemma {:induction false} SuffixOrdinals(items: seq<Item>, k: nat, ordinal: nat)
    requires OrdinalsUpTo(items, ordinal) && k <= |items|
    ensures OrdinalsUpTo(items[k..], ordinal)
  {
  }

  /** Dropping points and the bars of earlier seconds leaves only the first bar to make again. */
  lemma {:induction false} DropKeepsOtherBars(points: seq<Point>, timestamps: seq<int>, base: Base, m: Model,
                                              bucketSeconds: seq<int>, buckets: seq<Bar>, k: nat)
    requires PointsAgree(points, timestamps, base, m) && BarsAgree(points, bucketSeconds, buckets) && 0 < k < |points|
    ensures var trim := BisectLeft(bucketSeconds, SecondOf(points[k].timestamp), 0);
            |buckets| == |bucketSeconds| && FirstBarStale(points[k..], bucketSeconds[trim..], buckets[trim..])
  {
    hide PointsAgree, Bars, SamplesOf, BisectLeft, Rising, CutsAt, OneBar, SecondOf, TimesRise, BarsBehindFirst,
      AllCutCleanly;
    PointsRise(points, timestamps, base, m);
    var s, f := SamplesOf(points), SecondOf(points[k].timestamp);
    var a, b := SecondBounds(points, k, f);
    DropKeepsBars(s, k, f, a, b);
    BarCut(points, bucketSeconds, buckets, f, a);
    SamplesDrop(points, k);
    DropSeconds(bucketSeconds, buckets, |Bars(s[..a])|);
    DropBehindFirst(buckets, Bars(s), |Bars(s[..a])|, Bars(s[k..]));
  }

  lemma {:induction false} DropBehindFirst(bars: seq<Bar>, expected: seq<Bar>, k: nat, dropped: seq<Bar>)
    requires BarsBehindFirst(bars, expected) && k < |expected| && |dropped| > 0
    requires dropped[0].second == expected[k].second && dropped[1..] == expected[k..][1..]
    ensures BarsBehindFirst(bars[k..], dropped)
  {
    SameSeconds(bars, expected);
    assert bars[k..][1..] == bars[1..][k..] && expected[k..][1..] == expected[1..][k..];
  }

  lemma {:induction false} DropSeconds(bucketSeconds: seq<int>, buckets: seq<Bar>, trim: nat)
    requires SecondsOfBars(bucketSeconds, buckets) && trim <= |buckets|
    ensures SecondsOfBars(bucketSeconds[trim..], buckets[trim..])
  {
  }

  lemma {:induction false} SamplesDrop(points: seq<Point>, k: nat)
    requires k <= |points|
    ensures |SamplesOf(points)| == |points| && SamplesOf(points[k..]) == SamplesOf(points)[k..]
  {
    SamplesSlice(points, k, |points|);
    WholeTail(points, k);
    WholeTail(SamplesOf(points), k);
  }

  /** The samples of the second of point `k` lie between two cuts. */
  lemma {:induction false} SecondBounds(points: seq<Point>, k: nat, f: int) returns (a: nat, b: nat)
    requires TimesRise(Items(points)) && k < |points| && f == SecondOf(points[k].timestamp)
    ensures var s := SamplesOf(points);
            |s| == |points| && Rising(s) && s[k].second == f && CutsAt(s, f, a) && CutsAt(s, f + 1, b)
  {
    a := CutFiled(Items(points), f);
    b := CutFiled(Items(points), f + 1);
    FiledCuts(Items(points), f, a);
    FiledCuts(Items(points), f + 1, b);
    SampleAt(points, k);
    SamplesRise(Items(points));
  }

  /** All bars but the first are those of the points. */
  ghost predicate FirstBarStale(points: seq<Point>, bucketSeconds: seq<int>, buckets: seq<Bar>) {
    |points| > 0 && SecondsOfBars(bucketSeconds, buckets) && BarsBehindFirst(buckets, Bars(SamplesOf(points)))
  }

  lemma {:induction false} FirstBarSecond(points: seq<Point>, bucketSeconds: seq<int>, buckets: seq<Bar>)
    requires FirstBarStale(points, bucketSeconds, buckets)
    ensures |bucketSeconds| == |buckets| > 0 && bucketSeconds[0] == SecondOf(points[0].timestamp)
  {
    BarsEnds(SamplesOf(points));
    SampleAt(points, 0);
  }

  function EndsBefore(second: int): Item -> bool {
    (x: Item) => x.timestamp < second * SECOND
  }

  /** The first bar is made of the items that lie before the end of the first second. */
  ghost predicate FirstBarRemade(items: seq<Item>, before: seq<Bar>, after: seq<Bar>) {
    && |items| > 0 && |before| > 0
    && var f := SecondOf(items[0].timestamp);
       var early := Filter(EndsBefore(f + 1), items);
       |early| > 0 && after == [BarOf(f, Samples(early))] + before[1..]
  }

  lemma {:induction false} MadeBar(points: seq<Point>, f: int, end: nat, bar: Bar, before: seq<Bar>)
    requires |points| > 0 && f == SecondOf(points[0].timestamp) && 0 < end <= |points| && |before| > 0
    requires Samples(Filter(EndsBefore(f + 1), Items(points))) == SamplesOf(points[..end])
    requires bar == BarOf(f, SamplesOf(points[..end]))
    ensures bar.second == f && FirstBarRemade(Items(points), before, before[0 := bar])
  {
    hide MaxOf, MinOf, SecondOf;
    assert Items(points)[0] == ItemOf(points[0]);
    assert before[0 := bar] == [bar] + before[1..];
  }

  /** The points that lie before the end of the first second, and the bar they make if all lie where they are filed. */
  lemma {:induction false} FirstBarMade(points: seq<Point>, timestamps: seq<int>, base: Base, m: Model, f: int,
                                        end: nat)
    requires PointsAgree(points, timestamps, base, m) && |points| > 0 && f == SecondOf(points[0].timestamp)
    requires end == BisectLeft(timestamps, (f + 1) * SECOND, 0)
    ensures 0 < end <= |points| && Samples(Filter(EndsBefore(f + 1), Items(points))) == SamplesOf(points[..end])
    ensures AllCutCleanly(Items(points)) ==>
              && |Bars(SamplesOf(points))| > 0
              && Bars(SamplesOf(points))[0] == BarOf(f, SamplesOf(points[..end]))
  {
    hide BisectLeft, BarOf, PointsAgree, AllCutCleanly, Bars, Map, SecondOf;
    TimeCut(points, timestamps, base, m, f + 1);
    var items := Items(points);
    assert items[0] == ItemOf(points[0]);
    SecondIsNear(points[0].timestamp);
    FilterStretch(EndsBefore(f + 1), items, 0, 0, end);
    assert items[0..] == items;
    SamplesPrefix(points, end);
    SamplesCut(items, 0, end);
    if AllCutCleanly(items) {
      PointsRise(points, timestamps, base, m);
      FirstBarClean(points, f, end);
    }
  }

  lemma {:induction false} FirstBarClean(points: seq<Point>, f: int, end: nat)
    requires TimesRise(Items(points)) && AllCutCleanly(Items(points)) && LiesBefore(Items(points), f + 1, end)
    requires |points| > 0 && f == SecondOf(points[0].timestamp) && 0 < end <= |points|
    ensures |SamplesOf(points)[..end]| > 0 && SamplesOf(points[..end]) == SamplesOf(points)[..end]
    ensures |Bars(SamplesOf(points))| > 0 && Bars(SamplesOf(points))[0] == BarOf(f, SamplesOf(points)[..end])
  {
    hide Bars, BarOf, LiesBefore, CutsAt, TimesRise, Map, OneBar, SecondOf, AllCutCleanly, Rising;
    CleanCut(Items(points), f + 1, end);
    SamplesPrefix(points, end);
    var a, b := SecondBounds(points, 0, f);
    FirstOfCut(SamplesOf(points), f, a, b, end);
  }

  lemma {:induction false} CleanCut(items: seq<Item>, t: int, c: nat)
    requires LiesBefore(items, t, c) && AllCutCleanly(items)
    ensures CutsAt(Samples(items), t, c)
  {
    FiledCuts(items, t, c);
    hide SecondOf;
    assert forall i :: 0 <= i < |items| ==> CutsCleanly(items[i].timestamp);
  }

  lemma {:induction false} FirstOfCut(s: seq<Sample>, f: int, a: nat, b: nat, end: nat)
    requires Rising(s) && |s| > 0 && s[0].second == f && CutsAt(s, f, a) && CutsAt(s, f + 1, b)
    requires CutsAt(s, f + 1, end) && 0 < end
    ensures |Bars(s)| > 0 && Bars(s)[0] == BarOf(f, s[..end])
  {
    OneCut(s, f + 1, b, end);
    assert a == 0;
    hide Bars, OneBar, BarOf;
    LeadingBar(s, 0, f, 0, end);
    assert s[0..] == s && s[0..end] == s[..end];
    OneIsOf(s[..end], f) by {
      assert OneBar(s[..end]).second == f;
    }
  }

  lemma {:induction false} BarRemade(points: seq<Point>, bucketSeconds: seq<int>, buckets: seq<Bar>, bar: Bar)
    requires FirstBarStale(points, bucketSeconds, buckets) && bar.second == SecondOf(points[0].timestamp)
    requires AllCutCleanly(Items(points)) ==>
               |Bars(SamplesOf(points))| > 0 && Bars(SamplesOf(points))[0] == bar
    ensures |buckets| > 0 && BarsAgree(points, bucketSeconds, buckets[0 := bar])
  {
    FirstBarSecond(points, bucketSeconds, buckets);
    hide Bars, AllCutCleanly, SamplesOf, SecondOf;
    var whole, made := Bars(SamplesOf(points)), buckets[0 := bar];
    assert made[1..] == buckets[1..];
    assert whole == [whole[0]] + whole[1..] && made == [bar] + buckets[1..];
  }

  lemma {:induction false} OneCut(s: seq<Sample>, second: int, c: nat, d: nat)
    requires CutsAt(s, second, c) && CutsAt(s, second, d)
    ensures c == d
  {
    assert c < |s| ==> s[c].second >= second;
    assert d < |s| ==> s[d].second >= second;
  }

  lemma {:induction false} EmptyAgrees(base: Base, m: Model)
    ensures PointsAgree([], [], base, m) && BarsAgree([], [], []) && Items([]) == []
  {
  }

  lemma {:induction false} SamplesSlice(points: seq<Point>, i: nat, j: nat)
    requires i <= j <= |points|
    ensures |SamplesOf(points)| == |points| && SamplesOf(points[i..j]) == SamplesOf(points)[i..j]
  {
    MapSlice(ItemOf, points, i, j);
    SamplesCut(Items(points), i, j);
  }

  lemma {:induction false} SamplesPrefix(points: seq<Point>, j: nat)
    requires j <= |points|
    ensures |SamplesOf(points)| == |points| && SamplesOf(points[..j]) == SamplesOf(points)[..j]
  {
    SamplesSlice(points, 0, j);
    assert points[0..j] == points[..j];
  }

  lemma {:induction false} SortedStep(before: seq<Item>, items: seq<Item>, i: nat)
    requires Sorted(before + items) && i < |items|
    ensures Sorted(before + items[..i] + [items[i]])
    ensures before + items[..i] + [items[i]] == before + items[..i + 1]
  {
    var whole := before + items;
    assert before + items[..i] + [items[i]] == whole[..|before| + i + 1];
  }
}
