/**
 The cached price points: prefix sums over one append-mostly price stream, and the bars
 kept beside them. Everything here is about values; the cache is in PriceCache.

 The squared log return of two prices and the digest of a source are left uninterpreted.
 */
module PricePoints {
  import opened Common
  import opened Sequences
  import opened RollingWindow
  import opened PriceBars
  import L = Lineage

  datatype PriceEvent = Trade(price: real) | BestBidAsk(bid: real, ask: real) | MarkPrice(mark: real)

  type Item = TimedValue<PriceEvent>

  const SECOND := 1_000_000

  function ReferencePrice(e: PriceEvent): real {
    match e
    case Trade(price) => price
    case BestBidAsk(bid, ask) => (bid + ask) / 2.0
    case MarkPrice(mark) => mark
  }

  /** What the cache computes per source and per pair of neighbouring prices. */
  datatype Model = Model(squaredReturn: (real, real) -> real, digest: (int, PriceEvent) -> L.Digest)
  {
    /** Exact additivity is the claim, so the squared return is any non-negative function. */
    ghost predicate Valid() {
      forall a, b :: squaredReturn(a, b) >= 0.0
    }
  }

  datatype Point = Point(timestamp: int, ordinal: nat, price: real, source: PriceEvent,
                         prefixSquared: real, prefixValid: nat, prefixSum: L.Digest, prefixXor: L.Mask)

  /** Prefix values in front of the first point kept. */
  datatype Base = Base(squared: real, digestSum: L.Digest, digestXor: L.Mask)

  const NO_BASE := Base(0.0, 0, L.NoBits())

  // ---------- Seconds ----------

  /**
   How many microseconds a time of so many seconds may lack to the next whole second and still
   be rounded up to it: a binary64 float of 2^34 seconds or more steps by 2^-18 seconds, and by
   twice as much from each further power of two on. The calendar ends below 2^38 seconds.
   */
  function Reach(seconds: nat): nat {
    if seconds < 0x4_0000_0000 then 0
    else if seconds < 0x8_0000_0000 then 1
    else if seconds < 0x10_0000_0000 then 3
    else if seconds < 0x20_0000_0000 then 7
    else 15
  }

  function WholeSeconds(magnitude: nat): int {
    (magnitude + Reach(magnitude / SECOND)) / SECOND
  }

  /** Python's `int` of the float `timestamp()`: rounded to a float, then truncated toward zero. */
  function SecondOf(timestamp: int): int {
    if timestamp >= 0 then WholeSeconds(timestamp) else -WholeSeconds(-timestamp)
  }

  /** The time lies in the second it is filed under. */
  predicate CutsCleanly(timestamp: int) {
    SecondOf(timestamp) == timestamp / SECOND
  }

  ghost predicate AllCutCleanly(items: seq<Item>) {
    forall i :: 0 <= i < |items| ==> CutsCleanly(items[i].timestamp)
  }

  /**
   What the reach stands for: if `n` steps of the binary64 format, of which `step` make one second,
   lie nearest to the time, then the whole seconds of that float are those it is filed under.
   */
  lemma {:induction false} WholeSecondsOfNearestFloat(magnitude: nat, exponent: nat, n: nat)
    requires exponent <= 37 && L.PowerOfTwo(exponent) <= magnitude / SECOND < L.PowerOfTwo(exponent + 1)
    requires var step := L.PowerOfTwo(52 - exponent);
             -SECOND <= 2 * (magnitude * step - n * SECOND) <= SECOND
    ensures WholeSeconds(magnitude) == n / L.PowerOfTwo(52 - exponent)
  {
    var q, r := magnitude / SECOND, magnitude % SECOND;
    var step, g := L.PowerOfTwo(52 - exponent), Reach(q);
    ReachBy(exponent, q);
    hide Reach, L.PowerOfTwo;
    assert magnitude * step == (q * SECOND + r) * step;
    NearestStep(q, r, step, g, n);
  }

  /** The largest number of microseconds that fall short of half a step. */
  lemma {:induction false} ReachBy(exponent: nat, seconds: nat)
    requires exponent <= 37 && L.PowerOfTwo(exponent) <= seconds < L.PowerOfTwo(exponent + 1)
    ensures var step, g := L.PowerOfTwo(52 - exponent), Reach(seconds);
            2 * g * step < SECOND < 2 * (g + 1) * step
  {
    hide L.PowerOfTwo;
    LargePowers();
    if exponent < 34 {
      PowersRise(exponent + 1, 34);
      PowersRise(19, 52 - exponent);
    }
  }

  lemma {:induction false} LargePowers()
    ensures L.PowerOfTwo(34) == 0x4_0000_0000 && L.PowerOfTwo(35) == 0x8_0000_0000
    ensures L.PowerOfTwo(36) == 0x10_0000_0000 && L.PowerOfTwo(37) == 0x20_0000_0000
    ensures L.PowerOfTwo(38) == 0x40_0000_0000
    ensures L.PowerOfTwo(15) == 0x8000 && L.PowerOfTwo(16) == 0x1_0000 && L.PowerOfTwo(17) == 0x2_0000
    ensures L.PowerOfTwo(18) == 0x4_0000 && L.PowerOfTwo(19) == 0x8_0000
  {
    L.SixteenBits();
    L.PowerOfSum(16, 16);
  }

  lemma {:induction false} PowersRise(a: nat, b: nat)
    requires a <= b
    ensures L.PowerOfTwo(a) <= L.PowerOfTwo(b)
    decreases b - a
  {
    if a < b {
      PowersRise(a, b - 1);
    }
  }

  lemma {:induction false} NearestStep(q: nat, r: nat, step: nat, g: nat, n: nat)
    requires r < SECOND && step > 0 && 2 * g * step < SECOND < 2 * (g + 1) * step
    requires -SECOND <= 2 * ((q * SECOND + r) * step - n * SECOND) <= SECOND
    ensures n / step == if r + g < SECOND then q else q + 1
  {
    var k, lack := n - q * step, SECOND - r;
    Lacking(q, r, step, n);
    L.ProductRises(0, lack, step);
    L.ProductRises(lack, SECOND, step);
    NearestOf(lack * step, step, k);
    if r + g < SECOND {
      L.ProductRises(g + 1, lack, step);
      L.QuotientIs(n, q, step, k);
    } else {
      L.ProductRises(lack, g, step);
      L.QuotientIs(n, q + 1, step, 0);
    }
  }

  lemma {:induction false} Lacking(q: int, r: int, step: int, n: int)
    ensures (q * SECOND + r) * step - n * SECOND == SECOND * step - (SECOND - r) * step - (n - q * step) * SECOND
  {
  }

  lemma {:induction false} NearestOf(lacking: int, step: nat, k: int)
    requires 0 <= lacking <= SECOND * step && step > 0
    requires -SECOND <= 2 * (SECOND * step - lacking - k * SECOND) <= SECOND
    ensures 2 * lacking > SECOND ==> 0 <= k < step
    ensures 2 * lacking < SECOND ==> k == step
  {
  }

  /** A time is filed under its own second or the one behind it. */
  lemma {:induction false} SecondIsNear(t: int)
    ensures t / SECOND <= SecondOf(t) <= t / SECOND + 1
  {
  }

  lemma {:induction false} SecondsRise(t: int, u: int)
    requires t <= u
    ensures SecondOf(t) <= SecondOf(u)
  {
    if 0 <= t {
      WholeSecondsRise(t, u);
    } else if u < 0 {
      WholeSecondsRise(-u, -t);
    }
  }

  lemma {:induction false} WholeSecondsRise(m: nat, n: nat)
    requires m <= n
    ensures WholeSeconds(m) <= WholeSeconds(n)
  {
    assert m / SECOND <= n / SECOND;
  }

  /**
   The cache mixes these seconds with timestamp boundaries. They cut a time alike at every
   second exactly if it lies in its own second, ...
   */
  lemma {:induction false} SecondsCutLikeTimestampsIff(t: int)
    ensures (forall s :: t < s * SECOND <==> SecondOf(t) < s) <==> CutsCleanly(t)
  {
    SecondIsNear(t);
    hide SecondOf;
    if CutsCleanly(t) {
      forall s ensures t < s * SECOND <==> SecondOf(t) < s {
      }
    } else {
      assert t < SecondOf(t) * SECOND && !(SecondOf(t) < SecondOf(t));
    }
  }

  /**
   ... that is: a whole second, a time since the epoch that is not rounded up to the next one,
   or a time before it that is rounded down.
   */
  lemma {:induction false} CutsCleanlyIff(t: int)
    ensures CutsCleanly(t) <==>
              || t % SECOND == 0
              || (t > 0 && t % SECOND + Reach(t / SECOND) < SECOND)
              || (t < 0 && -t % SECOND + Reach(-t / SECOND) >= SECOND)
  {
    var m := if t >= 0 then t else -t;
    assert WholeSeconds(m) == if m % SECOND + Reach(m / SECOND) < SECOND then m / SECOND else m / SECOND + 1;
    hide WholeSeconds, Reach;
    assert m % SECOND == 0 ==> WholeSeconds(m) == m / SECOND;
  }

  function SampleOf(x: Item): Sample {
    Sample(SecondOf(x.timestamp), ReferencePrice(x.value))
  }

  function Samples(items: seq<Item>): seq<Sample> {
    Map(SampleOf, items)
  }

  function ItemOf(p: Point): Item {
    TimedValue(p.timestamp, p.source, p.ordinal)
  }

  function Items(points: seq<Point>): seq<Item> {
    Map(ItemOf, points)
  }

  // ---------- Prefix values ----------

  predicate BothPositive(a: real, b: real) {
    a > 0.0 && b > 0.0
  }

  /** The point of an item behind the points so far. */
  function NextPoint(points: seq<Point>, base: Base, x: Item, m: Model): Point {
    var price := ReferencePrice(x.value);
    var d := m.digest(x.timestamp, x.value);
    var mask := L.Bits(d);
    if |points| == 0 then
      Point(x.timestamp, x.ordinal, price, x.value, base.squared, 0,
            L.Plus(base.digestSum, d), L.Xor(base.digestXor, mask))
    else
      var p := points[|points| - 1];
      var counts := BothPositive(p.price, price);
      Point(x.timestamp, x.ordinal, price, x.value,
            p.prefixSquared + (if counts then m.squaredReturn(p.price, price) else 0.0),
            p.prefixValid + (if counts then 1 else 0),
            L.Plus(p.prefixSum, d), L.Xor(p.prefixXor, mask))
  }

  /** Consecutive points continue each other's prefix values. */
  ghost predicate Continues(p: Point, q: Point, m: Model) {
    var counts := BothPositive(p.price, q.price);
    && q.prefixSquared == p.prefixSquared + (if counts then m.squaredReturn(p.price, q.price) else 0.0)
    && q.prefixValid == p.prefixValid + (if counts then 1 else 0)
    && q.prefixSum == L.Plus(p.prefixSum, m.digest(q.timestamp, q.source))
    && q.prefixXor == L.Xor(p.prefixXor, L.Bits(m.digest(q.timestamp, q.source)))
  }

  ghost predicate ContinuesAt(points: seq<Point>, i: nat, m: Model)
    requires i + 1 < |points|
  {
    Continues(points[i], points[i + 1], m)
  }

  ghost predicate Chained(points: seq<Point>, base: Base, m: Model) {
    && (forall i :: 0 <= i < |points| ==> points[i].price == ReferencePrice(points[i].source))
    && (forall i :: 0 <= i < |points| - 1 ==> ContinuesAt(points, i, m))
    && (|points| > 0 ==>
          && points[0].prefixSum == L.Plus(base.digestSum, m.digest(points[0].timestamp, points[0].source))
          && points[0].prefixXor
             == L.Xor(base.digestXor, L.Bits(m.digest(points[0].timestamp, points[0].source))))
  }

  lemma {:induction false} ChainedAppend(points: seq<Point>, base: Base, x: Item, m: Model)
    requires Chained(points, base, m)
    ensures Chained(points + [NextPoint(points, base, x, m)], base, m)
    ensures Items(points + [NextPoint(points, base, x, m)]) == Items(points) + [x]
  {
    hide L.Plus, L.Xor, L.Bits;
    var more := points + [NextPoint(points, base, x, m)];
    forall i | 0 <= i < |more| - 1 ensures ContinuesAt(more, i, m) {
      assert i < |points| - 1 ==> ContinuesAt(points, i, m);
    }
  }

  /** Dropping leading points moves the base to the last one dropped. */
  lemma {:induction false} ChainedDrop(points: seq<Point>, base: Base, k: nat, m: Model)
    requires Chained(points, base, m) && 0 < k <= |points|
    ensures var p := points[k - 1];
            Chained(points[k..], Base(p.prefixSquared, p.prefixSum, p.prefixXor), m)
    ensures Items(points[k..]) == Items(points)[k..]
  {
    hide L.Plus, L.Xor, L.Bits;
    assert k < |points| ==> ContinuesAt(points, k - 1, m);
    forall i | 0 <= i < |points[k..]| - 1 ensures ContinuesAt(points[k..], i, m) {
      assert ContinuesAt(points, k + i, m);
    }
  }

  // ---------- Direct folds, the reference of the prefix differences ----------

  /** Sum of the squared returns of neighbouring positive prices. */
  function SquaredSum(items: seq<Item>, m: Model): real {
    if |items| < 2 then 0.0
    else
      var a, b := ReferencePrice(items[|items| - 2].value), ReferencePrice(items[|items| - 1].value);
      SquaredSum(items[..|items| - 1], m) + (if BothPositive(a, b) then m.squaredReturn(a, b) else 0.0)
  }

  function ValidReturns(items: seq<Item>): nat {
    if |items| < 2 then 0
    else
      var a, b := ReferencePrice(items[|items| - 2].value), ReferencePrice(items[|items| - 1].value);
      ValidReturns(items[..|items| - 1]) + (if BothPositive(a, b) then 1 else 0)
  }

  function LeafOf(x: Item, m: Model): L.Leaf {
    L.Leaf(x.timestamp, m.digest(x.timestamp, x.value))
  }

  function Leaves(items: seq<Item>, m: Model): seq<L.Leaf> {
    Map((x: Item) => LeafOf(x, m), items)
  }

  lemma {:induction false} SquaredSumIsNonNegative(items: seq<Item>, m: Model)
    requires m.Valid()
    ensures SquaredSum(items, m) >= 0.0
  {
    if |items| >= 2 {
      SquaredSumIsNonNegative(items[..|items| - 1], m);
    }
  }

  /** The price at `i` and the one before it are positive. */
  predicate ReturnsAt(items: seq<Item>, i: int) {
    0 < i < |items| && ReferencePrice(items[i - 1].value) > 0.0 && ReferencePrice(items[i].value) > 0.0
  }

  ghost function ReturnPositions(items: seq<Item>): set<int> {
    set i | 0 < i < |items| && ReturnsAt(items, i)
  }

  /** What position `i` adds to the sum of squared returns. */
  ghost function SquaredAt(items: seq<Item>, m: Model): int -> real {
    (i: int) =>
      if ReturnsAt(items, i)
      then m.squaredReturn(ReferencePrice(items[i - 1].value), ReferencePrice(items[i].value)) else 0.0
  }

  /** The folds count the neighbouring positive prices and add the squared return of each pair. */
  lemma {:induction false} FoldsOverPositions(items: seq<Item>, m: Model)
    ensures ValidReturns(items) == |ReturnPositions(items)|
    ensures SquaredSum(items, m) == Total(SquaredAt(items, m), |items|)
  {
    if |items| == 0 {
    } else {
      var n := |items| - 1;
      FoldsOverPositions(items[..n], m);
      PositionsStep(items);
      forall i | 0 <= i < n ensures SquaredAt(items, m)(i) == SquaredAt(items[..n], m)(i) {
        assert SameReturn(items, i);
      }
      SameTotal(SquaredAt(items, m), SquaredAt(items[..n], m), n);
      if n == 0 {
        assert SquaredSum(items[..n], m) == 0.0 && ValidReturns(items[..n]) == 0;
      } else {
        SquaredSumStep(items, m);
        hide SquaredSum, ValidReturns;
      }
    }
  }

  lemma {:induction false} PositionsStep(items: seq<Item>)
    requires |items| > 0
    ensures var n := |items| - 1;
            && n !in ReturnPositions(items[..n])
            && ReturnPositions(items)
               == ReturnPositions(items[..n]) + (if ReturnsAt(items, n) then {n} else {})
    ensures forall i :: 0 <= i < |items| - 1 ==> SameReturn(items, i)
  {
    var n := |items| - 1;
    forall i | 0 <= i < n ensures SameReturn(items, i) && (ReturnsAt(items, i) <==> ReturnsAt(items[..n], i)) {
      assert items[..n][i] == items[i] && (i > 0 ==> items[..n][i - 1] == items[i - 1]);
    }
  }

  ghost predicate SameReturn(items: seq<Item>, i: nat)
    requires i < |items| - 1
  {
    && (ReturnsAt(items, i) <==> ReturnsAt(items[..|items| - 1], i))
    && items[..|items| - 1][i] == items[i] && (i > 0 ==> items[..|items| - 1][i - 1] == items[i - 1])
  }

  /** Positive prices all the way give one return less than there are prices. */
  lemma {:induction false} PositivePricesReturn(items: seq<Item>)
    requires |items| > 0 && forall i :: 0 <= i < |items| ==> ReferencePrice(items[i].value) > 0.0
    ensures ValidReturns(items) == |items| - 1
  {
    if |items| > 1 {
      PositivePricesReturn(items[..|items| - 1]);
    }
  }

  /** The reference price of a quote is as far above the bid as below the ask. */
  lemma {:induction false} ReferencePriceIsMid(bid: real, ask: real, price: real)
    ensures ReferencePrice(BestBidAsk(bid, ask)) - bid == ask - ReferencePrice(BestBidAsk(bid, ask))
    ensures ReferencePrice(Trade(price)) == price == ReferencePrice(MarkPrice(price))
  {
  }

  /** Differences of prefix values are the direct folds over the points in between. */
  lemma {:induction false} ReturnDifferences(points: seq<Point>, base: Base, left: nat, right: nat, m: Model)
    requires Chained(points, base, m) && left < right <= |points|
    ensures points[right - 1].prefixSquared - points[left].prefixSquared == SquaredSum(Items(points)[left..right], m)
    ensures points[right - 1].prefixValid - points[left].prefixValid == ValidReturns(Items(points)[left..right])
    decreases right
  {
    if left < right - 1 {
      ReturnDifferences(points, base, left, right - 1, m);
      assert ContinuesAt(points, right - 2, m);
      hide L.Plus, L.Xor, L.Bits, Chained;
      SquaredSumStep(Items(points)[left..right], m);
      SliceLast(Items(points), left, right);
    }
  }

  lemma {:induction false} SquaredSumStep(s: seq<Item>, m: Model)
    requires |s| >= 2
    ensures var a, b := ReferencePrice(s[|s| - 2].value), ReferencePrice(s[|s| - 1].value);
            && SquaredSum(s, m)
               == SquaredSum(s[..|s| - 1], m) + (if BothPositive(a, b) then m.squaredReturn(a, b) else 0.0)
            && ValidReturns(s) == ValidReturns(s[..|s| - 1]) + (if BothPositive(a, b) then 1 else 0)
  {
  }

  function SumBefore(points: seq<Point>, base: Base, i: nat): L.Digest
    requires i <= |points|
  {
    if i == 0 then base.digestSum else points[i - 1].prefixSum
  }

  function XorBefore(points: seq<Point>, base: Base, i: nat): L.Mask
    requires i <= |points|
  {
    if i == 0 then base.digestXor else points[i - 1].prefixXor
  }

  lemma {:induction false} DigestStep(points: seq<Point>, base: Base, i: nat, m: Model)
    requires Chained(points, base, m) && i < |points|
    ensures var d := m.digest(points[i].timestamp, points[i].source);
            && SumBefore(points, base, i + 1) == L.Plus(SumBefore(points, base, i), d)
            && XorBefore(points, base, i + 1)
               == L.Xor(XorBefore(points, base, i), L.Bits(d))
  {
    hide L.Plus, L.Xor, L.Bits;
    assert i > 0 ==> ContinuesAt(points, i - 1, m);
  }

  lemma {:induction false} LeavesStep(items: seq<Item>, m: Model)
    requires |items| > 0
    ensures var x := items[|items| - 1];
            L.LineageOf(Leaves(items, m))
            == L.Join(L.LineageOf(Leaves(items[..|items| - 1], m)),
                      L.FromDigest(x.timestamp, m.digest(x.timestamp, x.value)))
  {
    hide L.Join, L.FromDigest;
    assert Leaves(items, m)[..|items| - 1] == Leaves(items[..|items| - 1], m);
  }

  lemma {:induction false} DigestPrefixes(points: seq<Point>, base: Base, left: nat, right: nat, m: Model)
    requires Chained(points, base, m) && left <= right <= |points|
    ensures var r := L.LineageOf(Leaves(Items(points)[left..right], m));
            && SumBefore(points, base, right) == L.Plus(SumBefore(points, base, left), r.digestSum)
            && XorBefore(points, base, right) == L.Xor(XorBefore(points, base, left), r.digestXor)
    decreases right
  {
    hide L.Plus, L.Xor, L.Bits, L.NoBits, Chained, SumBefore, XorBefore, Map;
    if left == right {
      L.SumUndone(SumBefore(points, base, left), 0);
      L.XorUndone(XorBefore(points, base, left), L.NoBits());
    } else {
      DigestPrefixes(points, base, left, right - 1, m);
      DigestStep(points, base, right - 1, m);
      var p := points[right - 1];
      SliceLeaves(Items(points), left, right, m);
      hide L.LineageOf, Leaves;
      var r := L.LineageOf(Leaves(Items(points)[left..right - 1], m));
      var d := m.digest(p.timestamp, p.source);
      L.SumOrder(SumBefore(points, base, left), r.digestSum, d);
      L.XorOrder(XorBefore(points, base, left), r.digestXor, L.Bits(d));
    }
  }

  lemma {:induction false} SliceLeaves(items: seq<Item>, left: nat, right: nat, m: Model)
    requires left < right <= |items|
    ensures var x := items[right - 1];
            L.LineageOf(Leaves(items[left..right], m))
            == L.Join(L.LineageOf(Leaves(items[left..right - 1], m)),
                      L.FromDigest(x.timestamp, m.digest(x.timestamp, x.value)))
  {
    hide L.LineageOf, L.Join, L.FromDigest, Leaves;
    SliceLast(items, left, right);
    LeavesStep(items[left..right], m);
  }

  /** The lineage by subtraction is the combination of the per-item commitments. */
  lemma {:induction false} LineageByDifference(points: seq<Point>, base: Base, left: nat, right: nat, m: Model)
    requires Chained(points, base, m) && left < right <= |points| && Sorted(Items(points))
    ensures L.LineageOf(Leaves(Items(points)[left..right], m))
         == L.SourceLineage(right - left,
                            L.Minus(points[right - 1].prefixSum, SumBefore(points, base, left)),
                            L.Xor(points[right - 1].prefixXor, XorBefore(points, base, left)),
                            Some(points[left].timestamp), Some(points[right - 1].timestamp))
  {
    hide L.Plus, L.Xor, L.Minus, L.Bits, L.NoBits, Chained;
    var r := L.LineageOf(Leaves(Items(points)[left..right], m));
    DigestPrefixes(points, base, left, right, m);
    L.SumUndone(SumBefore(points, base, left), r.digestSum);
    L.XorUndone(XorBefore(points, base, left), r.digestXor);
    LineageExtent(Items(points)[left..right], m);
  }

  lemma {:induction false} LineageExtent(items: seq<Item>, m: Model)
    requires Sorted(items) && |items| > 0
    ensures var r := L.LineageOf(Leaves(items, m));
            && r.count == |items|
            && r.oldest == Some(items[0].timestamp) && r.newest == Some(items[|items| - 1].timestamp)
  {
    hide L.Plus, L.Xor, L.NoBits, L.Bits;
    var n := |items| - 1;
    LeavesStep(items, m);
    if n > 0 {
      hide L.LineageOf;
      LineageExtent(items[..n], m);
      assert Less(items[0], items[n]) && Less(items[n - 1], items[n]);
    }
  }
}
