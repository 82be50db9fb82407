/**
 What the bar queries answer for a selection of items in the order of time, and exactly when
 that is what a plain scan of the selection would answer.

 A query files every item under the second that Python's `int(timestamp())` names, but makes
 its first and last bar of the items whose timestamps lie in those two seconds.
 */
module PriceAnswers {
  import opened Common
  import opened Sequences
  import opened RollingWindow
  import opened PriceBars
  import opened PricePoints

  ghost predicate TimesRise(items: seq<Item>) {
    forall i, j :: 0 <= i < j < |items| ==> items[i].timestamp <= items[j].timestamp
  }

  lemma {:induction false} SamplesRise(items: seq<Item>)
    requires TimesRise(items)
    ensures Rising(Samples(items))
  {
    forall i, j | 0 <= i < j < |items| ensures Samples(items)[i].second <= Samples(items)[j].second {
      SecondsRise(items[i].timestamp, items[j].timestamp);
    }
  }

  // ---------- The answers ----------

  function LiesIn(second: int): Item -> bool {
    (x: Item) => x.timestamp / SECOND == second
  }

  function FiledBetween(f: int, l: int): Item -> bool {
    (x: Item) => f < SecondOf(x.timestamp) < l
  }

  /** The bar made of the items that lie in a second, if there are any. */
  function PartialBars(items: seq<Item>, second: int): seq<Bar> {
    var inside := Filter(LiesIn(second), items);
    if |inside| == 0 then [] else [BarOf(second, Samples(inside))]
  }

  /** The bars a query returns for its selection. */
  function Answered(items: seq<Item>): seq<Bar> {
    if |items| == 0 then []
    else
      var f, l := SecondOf(items[0].timestamp), SecondOf(items[|items| - 1].timestamp);
      if f == l then PartialBars(items, f)
      else PartialBars(items, f) + Bars(Samples(Filter(FiledBetween(f, l), items))) + PartialBars(items, l)
  }

  /** The highest and the lowest price of a scan. */
  function Extremes(s: seq<Sample>): (Option<real>, Option<real>) {
    if |s| == 0 then (None, None) else (Some(MaxOf(s)), Some(MinOf(s)))
  }

  function ExtremesOfBars(bars: seq<Bar>): (Option<real>, Option<real>) {
    if |bars| == 0 then (None, None) else (Some(HighOf(bars)), Some(LowOf(bars)))
  }

  /** The average true range over the given bars of a number of items. */
  function AtrOfBars(count: nat, bars: seq<Bar>): Option<real> {
    if count < 2 || |bars| == 0 then None else Some(RangeSum(bars) / (|bars| as real))
  }

  lemma {:induction false} AtrIsOfBars(items: seq<Item>)
    ensures Atr(Samples(items)) == AtrOfBars(|items|, Bars(Samples(items)))
  {
  }

  // ---------- When they are right ----------

  /** The items filed under a second lie in it. */
  ghost predicate SecondCutsCleanly(items: seq<Item>, second: int) {
    forall i :: 0 <= i < |items| && SecondOf(items[i].timestamp) == second ==> CutsCleanly(items[i].timestamp)
  }

  /** The items of the first two seconds and of the last one lie in their seconds. */
  ghost predicate EndsCutCleanly(items: seq<Item>) {
    |items| > 0 ==>
      var f, l := SecondOf(items[0].timestamp), SecondOf(items[|items| - 1].timestamp);
      SecondCutsCleanly(items, f) && SecondCutsCleanly(items, f + 1) && SecondCutsCleanly(items, l)
  }

  /** No item falls out of the answer: an early one of second `f + 1` still shows in the bar of `f`. */
  ghost predicate NoneLost(items: seq<Item>) {
    |items| > 0 ==>
      var f, l := SecondOf(items[0].timestamp), SecondOf(items[|items| - 1].timestamp);
      SecondCutsCleanly(items, f) && (l > f + 1 ==> SecondCutsCleanly(items, l))
  }

  /** One item in each of the first two seconds: moving the second one over keeps every true range. */
  ghost predicate LonePair(items: seq<Item>) {
    && |items| >= 3
    && SecondOf(items[0].timestamp) + 1 == SecondOf(items[1].timestamp) < SecondOf(items[2].timestamp)
    && CutsCleanly(items[0].timestamp) && SecondCutsCleanly(items, SecondOf(items[|items| - 1].timestamp))
  }

  ghost predicate AtrCutsCleanly(items: seq<Item>) {
    |items| < 2 || EndsCutCleanly(items) || LonePair(items)
  }

  /** The same timestamps under any prices. */
  ghost predicate SameTimes(items: seq<Item>, other: seq<Item>) {
    |items| == |other| && forall i :: 0 <= i < |items| ==> other[i].timestamp == items[i].timestamp
  }

  // ---------- Where the parts of an answer begin and end ----------

  /** How many leading items lie before second `t`. */
  ghost predicate LiesBefore(items: seq<Item>, t: int, c: nat) {
    c <= |items| && forall i :: 0 <= i < |items| ==> (items[i].timestamp / SECOND < t <==> i < c)
  }

  /** How many leading items are filed before second `t`. */
  ghost predicate FiledBefore(items: seq<Item>, t: int, c: nat) {
    c <= |items| && forall i :: 0 <= i < |items| ==> (SecondOf(items[i].timestamp) < t <==> i < c)
  }

  lemma {:induction false} FiledCuts(items: seq<Item>, t: int, c: nat)
    ensures FiledBefore(items, t, c) <==> CutsAt(Samples(items), t, c)
  {
    assert forall i :: 0 <= i < |items| ==> Samples(items)[i].second == SecondOf(items[i].timestamp);
  }

  /** A selection from second `f` to `l`, cut by the times in it and by the seconds they are filed under. */
  datatype Cuts = Cuts(f: int, l: int, u: nat, v: nat, w: nat, b: nat, c: nat)

  ghost predicate Laid(items: seq<Item>, k: Cuts) {
    && |items| > 0 && TimesRise(items)
    && k.f == SecondOf(items[0].timestamp) && k.l == SecondOf(items[|items| - 1].timestamp)
    && LiesBefore(items, k.f, k.u) && LiesBefore(items, k.f + 1, k.v) && LiesBefore(items, k.l, k.w)
    && FiledBefore(items, k.f + 1, k.b) && FiledBefore(items, k.l, k.c)
  }

  lemma {:induction false} CutLies(items: seq<Item>, t: int) returns (c: nat)
    requires TimesRise(items)
    ensures LiesBefore(items, t, c)
  {
    c := 0;
    if |items| > 0 {
      var n := |items| - 1;
      c := CutLies(items[..n], t);
      assert forall i :: 0 <= i < n ==> items[..n][i] == items[i];
      if c < n {
        assert items[c].timestamp / SECOND <= items[n].timestamp / SECOND;
      } else if items[n].timestamp / SECOND < t {
        c := n + 1;
      }
    }
  }

  lemma {:induction false} CutFiled(items: seq<Item>, t: int) returns (c: nat)
    requires TimesRise(items)
    ensures FiledBefore(items, t, c)
  {
    c := 0;
    if |items| > 0 {
      var n := |items| - 1;
      c := CutFiled(items[..n], t);
      assert forall i :: 0 <= i < n ==> items[..n][i] == items[i];
      if c < n {
        SecondsRise(items[c].timestamp, items[n].timestamp);
      } else if SecondOf(items[n].timestamp) < t {
        c := n + 1;
      }
    }
  }

  lemma {:induction false} Lay(items: seq<Item>) returns (k: Cuts)
    requires TimesRise(items) && |items| > 0
    ensures Laid(items, k)
  {
    hide LiesBefore, FiledBefore;
    var f, l := SecondOf(items[0].timestamp), SecondOf(items[|items| - 1].timestamp);
    var u := CutLies(items, f);
    var v := CutLies(items, f + 1);
    var w := CutLies(items, l);
    var b := CutFiled(items, f + 1);
    var c := CutFiled(items, l);
    k := Cuts(f, l, u, v, w, b, c);
  }

  lemma {:induction false} LaidOther(items: seq<Item>, other: seq<Item>, k: Cuts)
    requires Laid(items, k) && SameTimes(items, other)
    ensures Laid(other, k)
  {
  }

  /** An item lies in the second it is filed under or in the one before. */
  lemma {:induction false} LiesThenFiled(items: seq<Item>, t: int, c: nat, s: int, d: nat)
    requires LiesBefore(items, t, c) && FiledBefore(items, s, d)
    ensures t < s ==> c <= d
    ensures s <= t ==> d <= c
  {
    if d < c {
      SecondIsNear(items[d].timestamp);
    } else if c < d {
      SecondIsNear(items[c].timestamp);
    }
  }

  lemma {:induction false} CutsRise(items: seq<Item>, t: int, c: nat, s: int, d: nat)
    requires t <= s
    ensures LiesBefore(items, t, c) && LiesBefore(items, s, d) ==> c <= d
    ensures FiledBefore(items, t, c) && FiledBefore(items, s, d) ==> c <= d
  {
    if LiesBefore(items, t, c) && LiesBefore(items, s, d) {
      assert d < |items| ==> items[d].timestamp / SECOND >= s;
    }
    if FiledBefore(items, t, c) && FiledBefore(items, s, d) {
      assert d < |items| ==> SecondOf(items[d].timestamp) >= s;
    }
  }

  /** How the cuts lie to each other. */
  ghost predicate Placed(k: Cuts, n: nat) {
    && k.u <= k.b <= k.v <= n && 0 < k.b && k.f <= k.l
    && (k.f == k.l ==> k.b == k.v == n)
    && (k.f < k.l ==> k.b <= k.c < n && k.c <= k.w <= n)
    && (k.l > k.f + 1 ==> k.v <= k.c)
    && (k.l == k.f + 1 ==> k.v == k.w && k.b == k.c)
  }

  lemma {:induction false} CutOrder(items: seq<Item>, k: Cuts)
    requires Laid(items, k)
    ensures Placed(k, |items|)
  {
    SecondsRise(items[0].timestamp, items[|items| - 1].timestamp);
    LiesThenFiled(items, k.f, k.u, k.f + 1, k.b);
    LiesThenFiled(items, k.f + 1, k.v, k.f + 1, k.b);
    LiesThenFiled(items, k.l, k.w, k.l, k.c);
    LiesThenFiled(items, k.f + 1, k.v, k.l, k.c);
    if k.f < k.l {
      CutsRise(items, k.f + 1, k.b, k.l, k.c);
    }
    if k.f + 1 == k.l {
      CutsRise(items, k.l, k.v, k.l, k.w);
      CutsRise(items, k.l, k.w, k.l, k.v);
      CutsRise(items, k.l, k.c, k.l, k.b);
    }
    EndCuts(items, k);
    hide SecondOf, TimesRise, LiesBefore, FiledBefore;
  }

  lemma {:induction false} EndCuts(items: seq<Item>, k: Cuts)
    requires Laid(items, k)
    ensures 0 < k.b <= |items| && k.u <= |items| && k.v <= |items| && k.w <= |items| && k.c < |items|
    ensures k.f == k.l ==> k.b == |items|
  {
    hide SecondOf, TimesRise;
    assert SecondOf(items[|items| - 1].timestamp) == k.l && SecondOf(items[0].timestamp) == k.f;
  }

  /** The bar of the samples from `i` to `j`, if any. */
  function PartBars(second: int, s: seq<Sample>, i: nat, j: nat): seq<Bar>
    requires i <= j <= |s|
  {
    if i == j then [] else [BarOf(second, s[i..j])]
  }

  /** The answer in terms of the cuts. */
  ghost function Shown(s: seq<Sample>, k: Cuts): seq<Bar>
    requires Placed(k, |s|)
  {
    if k.f == k.l then PartBars(k.f, s, k.u, |s|)
    else PartBars(k.f, s, k.u, k.v) + Bars(s[k.b..k.c]) + PartBars(k.l, s, k.w, |s|)
  }

  /** The plain scan in terms of the cuts. */
  ghost function Scanned(s: seq<Sample>, k: Cuts): seq<Bar>
    requires Placed(k, |s|)
  {
    if k.f == k.l then [BarOf(k.f, s)]
    else [BarOf(k.f, s[..k.b])] + Bars(s[k.b..k.c]) + [BarOf(k.l, s[k.c..])]
  }

  lemma {:induction false} PartialIs(items: seq<Item>, t: int, c: nat, d: nat)
    requires LiesBefore(items, t, c) && LiesBefore(items, t + 1, d)
    ensures c <= d <= |Samples(items)|
    ensures PartialBars(items, t) == PartBars(t, Samples(items), c, d)
  {
    CutsRise(items, t, c, t + 1, d);
    forall i | 0 <= i < |items| ensures LiesIn(t)(items[i]) <==> c <= i < d {
    }
    hide LiesBefore, BarOf;
    FilterStretch(LiesIn(t), items, 0, c, d);
    assert items[0..] == items;
    MapSlice(SampleOf, items, c, d);
  }

  lemma {:induction false} MiddleIs(items: seq<Item>, f: int, l: int, b: nat, c: nat)
    requires FiledBefore(items, f + 1, b) && FiledBefore(items, l, c) && f < l
    ensures b <= c <= |Samples(items)|
    ensures Samples(Filter(FiledBetween(f, l), items)) == Samples(items)[b..c]
  {
    CutsRise(items, f + 1, b, l, c);
    forall i | 0 <= i < |items| ensures FiledBetween(f, l)(items[i]) <==> b <= i < c {
    }
    hide FiledBefore;
    FilterStretch(FiledBetween(f, l), items, 0, b, c);
    assert items[0..] == items;
    MapSlice(SampleOf, items, b, c);
  }

  lemma {:induction false} AllLieBefore(items: seq<Item>, k: Cuts)
    requires Laid(items, k)
    ensures LiesBefore(items, k.l + 1, |items|)
  {
    forall i | 0 <= i < |items| ensures items[i].timestamp / SECOND < k.l + 1 {
      SecondIsNear(items[i].timestamp);
      SecondsRise(items[i].timestamp, items[|items| - 1].timestamp);
    }
  }

  lemma {:induction false} AnsweredIsShown(items: seq<Item>, k: Cuts)
    requires Laid(items, k)
    ensures Placed(k, |Samples(items)|) && Answered(items) == Shown(Samples(items), k)
  {
    CutOrder(items, k);
    AllLieBefore(items, k);
    hide Placed, LiesBefore, FiledBefore, SecondOf, PartialBars, Bars, Map, Filter, PartBars;
    PartialIs(items, k.f, k.u, k.v);
    PartialIs(items, k.l, k.w, |items|);
    if k.f == k.l {
      PartialIs(items, k.f, k.u, |items|);
    } else {
      SecondsRise(items[0].timestamp, items[|items| - 1].timestamp);
      MiddleIs(items, k.f, k.l, k.b, k.c);
    }
  }

  lemma {:induction false} BarsAreScanned(items: seq<Item>, k: Cuts)
    requires Laid(items, k)
    ensures Placed(k, |Samples(items)|) && Bars(Samples(items)) == Scanned(Samples(items), k)
  {
    CutOrder(items, k);
    SamplesRise(items);
    var s, n := Samples(items), |items|;
    FiledCuts(items, k.f + 1, k.b);
    FiledCuts(items, k.l, k.c);
    assert s[0].second == k.f && s[n - 1].second == k.l;
    hide LiesBefore, FiledBefore, SecondOf, Map, Bars, MaxOf, MinOf;
    assert CutsAt(s, k.f, 0) && CutsAt(s, k.l + 1, n);
    assert s[0..n] == s && s[k.c..n] == s[k.c..] && s[0..k.b] == s[..k.b];
    if k.f == k.l {
      OneSecondStretch(s, k.f, 0, n, 0, n);
    } else {
      SelectedParts(s, 0, n, k.f, k.l, 0, k.b, k.c, n);
    }
  }

  // ---------- The conditions in terms of the cuts ----------

  lemma {:induction false} SecondCleanIff(items: seq<Item>, t: int, c: nat, d: nat)
    requires FiledBefore(items, t, c) && LiesBefore(items, t, d)
    ensures SecondCutsCleanly(items, t) <==> c == d
  {
    LiesThenFiled(items, t, d, t, c);
    forall i | 0 <= i < |items|
      ensures SecondOf(items[i].timestamp) == t && !CutsCleanly(items[i].timestamp) <==> c <= i < d
    {
      SecondIsNear(items[i].timestamp);
    }
    if c < d {
      assert !CutsCleanly(items[c].timestamp);
    }
  }

  lemma {:induction false} NoneBefore(items: seq<Item>, k: Cuts)
    requires Laid(items, k)
    ensures FiledBefore(items, k.f, 0) && (k.f == k.l ==> SecondCutsCleanly(items, k.f + 1))
  {
    forall i | 0 <= i < |items| ensures k.f <= SecondOf(items[i].timestamp) <= k.l {
      SecondsRise(items[0].timestamp, items[i].timestamp);
      SecondsRise(items[i].timestamp, items[|items| - 1].timestamp);
    }
  }

  lemma {:induction false} EndsCleanIff(items: seq<Item>, k: Cuts)
    requires Laid(items, k)
    ensures EndsCutCleanly(items) <==> k.u == 0 && (k.f < k.l ==> k.v == k.b && k.w == k.c)
    ensures NoneLost(items) <==> k.u == 0 && (k.l > k.f + 1 ==> k.w == k.c)
  {
    NoneBefore(items, k);
    CutOrder(items, k);
    SecondCleanIff(items, k.f, 0, k.u);
    SecondCleanIff(items, k.f + 1, k.b, k.v);
    SecondCleanIff(items, k.l, k.c, k.w);
    hide SecondCutsCleanly, LiesBefore, FiledBefore, SecondOf, TimesRise;
  }

  // ---------- Prices that show what is lost ----------

  function Sized(high: set<int>, i: int): real {
    if i in high then 2.0 else 1.0
  }

  /** The same timestamps, with price 2 at some positions and price 1 elsewhere. */
  function Priced(items: seq<Item>, high: set<int>): (r: seq<Item>)
    ensures |r| == |items|
  {
    seq(|items|, i requires 0 <= i < |items| =>
      TimedValue(items[i].timestamp, Trade(Sized(high, i)), items[i].ordinal))
  }

  lemma {:induction false} PricedSamples(items: seq<Item>, high: set<int>)
    ensures SameTimes(items, Priced(items, high))
    ensures |Samples(Priced(items, high))| == |items| && PricedAs(Samples(Priced(items, high)), high)
  {
  }

  ghost predicate PricedAs(s: seq<Sample>, high: set<int>) {
    forall i :: 0 <= i < |s| ==> s[i].price == Sized(high, i)
  }

  lemma {:induction false} OnesAside(s: seq<Sample>, high: set<int>, i: nat, j: nat)
    requires PricedAs(s, high) && i <= j <= |s| && forall n :: i <= n < j ==> n !in high
    ensures AllOnes(s[i..j])
  {
  }

  ghost predicate AllOnes(s: seq<Sample>) {
    forall i :: 0 <= i < |s| ==> s[i].price == 1.0
  }

  ghost predicate Flat(bars: seq<Bar>) {
    forall i :: 0 <= i < |bars| ==> bars[i].high == bars[i].low == bars[i].close == 1.0
  }

  lemma {:induction false} OnesAreFlat(s: seq<Sample>, second: int)
    requires AllOnes(s)
    ensures Flat(Bars(s)) && (|s| > 0 ==> Flat([BarOf(second, s)]))
  {
    if |s| > 0 {
      OnesAreFlat(s[..|s| - 1], second);
    }
  }

  lemma {:induction false} FlatHigh(bars: seq<Bar>)
    requires Flat(bars) && |bars| > 0
    ensures HighOf(bars) == 1.0
  {
    if |bars| > 1 {
      FlatHigh(bars[..|bars| - 1]);
    }
  }

  lemma {:induction false} FlatRange(bars: seq<Bar>)
    requires Flat(bars)
    ensures RangeSum(bars) == 0.0
  {
    if |bars| > 0 {
      FlatRange(bars[..|bars| - 1]);
    }
  }

  lemma {:induction false} FlatParts(s: seq<Sample>, k: Cuts)
    requires Placed(k, |s|)
    requires AllOnes(s[k.u..k.v]) && (k.f < k.l ==> AllOnes(s[k.b..k.c]) && AllOnes(s[k.w..]))
    ensures Flat(Shown(s, k))
  {
    OnesAreFlat(s[k.u..k.v], k.f);
    if k.f < k.l {
      OnesAreFlat(s[k.b..k.c], k.l);
      OnesAreFlat(s[k.w..], k.l);
      assert s[k.w..|s|] == s[k.w..];
    }
    hide Bars, BarOf, AllOnes;
  }

  /** An item in no part of the answer. */
  ghost predicate Lost(k: Cuts, n: nat, j: nat) {
    && j < n && !(k.u <= j < k.v)
    && (k.f < k.l ==> !(k.b <= j < k.c) && j < k.w)
  }

  lemma {:induction false} LostIsFlat(items: seq<Item>, k: Cuts, j: nat)
    requires Laid(items, k) && Lost(k, |items|, j)
    ensures SameTimes(items, Priced(items, {j})) && Flat(Answered(Priced(items, {j})))
  {
    hide Laid, Shown, Answered, Map, SameTimes, Flat, Priced, PricedAs, AllOnes, Samples;
    var other := Priced(items, {j});
    PricedSamples(items, {j});
    LaidOther(items, other, k);
    AnsweredIsShown(other, k);
    var s := Samples(other);
    OnesAside(s, {j}, k.u, k.v);
    if k.f < k.l {
      OnesAside(s, {j}, k.b, k.c);
      OnesAside(s, {j}, k.w, |s|);
      assert s[k.w..|s|] == s[k.w..];
    }
    FlatParts(s, k);
  }

  ghost predicate Proper(bars: seq<Bar>) {
    forall i :: 0 <= i < |bars| ==> bars[i].low <= bars[i].close <= bars[i].high
  }

  lemma {:induction false} BarsAreProper(s: seq<Sample>)
    ensures Proper(Bars(s))
  {
    if |s| > 0 {
      BarsAreProper(s[..|s| - 1]);
    }
  }

  /** The true ranges walk the whole way between the extremes. */
  lemma {:induction false} RangeCovers(bars: seq<Bar>)
    requires Proper(bars) && |bars| > 0
    ensures LowOf(bars) <= bars[|bars| - 1].close <= HighOf(bars)
    ensures RangeSum(bars) >= HighOf(bars) - LowOf(bars)
  {
    var n := |bars| - 1;
    if n > 0 {
      RangeCovers(bars[..n]);
      TrueRangeSpansClose(bars[n], bars[n - 1].close);
    } else {
      assert bars[..0] == [];
    }
  }

  /** Bars that show only price 1 are wrong for samples with a price of 2. */
  lemma {:induction false} FlatIsWrong(s: seq<Sample>, bars: seq<Bar>, j: nat)
    requires Flat(bars) && PricedAs(s, {j as int}) && j < |s|
    ensures bars != Bars(s) && ExtremesOfBars(bars) != Extremes(s)
    ensures |s| >= 2 ==> AtrOfBars(|s|, bars) != AtrOfBars(|s|, Bars(s))
  {
    hide Bars, RangeSum, HighOf, LowOf, MaxOf, MinOf, Flat, Proper;
    assert s[j].price == 2.0;
    ExtremesBound(s);
    BarExtremes(s);
    if |bars| > 0 {
      FlatHigh(bars);
      FlatRange(bars);
    }
    if |s| >= 2 {
      var i := if j == 0 then 1 else 0;
      assert s[i].price == 1.0;
      BarsAreProper(s);
      RangeCovers(Bars(s));
      assert RangeSum(Bars(s)) / (|Bars(s)| as real) != 0.0;
    }
  }

  lemma {:induction false} LostIsWrong(items: seq<Item>, k: Cuts, j: nat) returns (other: seq<Item>)
    requires Laid(items, k) && Lost(k, |items|, j)
    ensures SameTimes(items, other) && |other| == |items|
    ensures Answered(other) != Bars(Samples(other))
    ensures ExtremesOfBars(Answered(other)) != Extremes(Samples(other))
    ensures |items| >= 2 ==> AtrOfBars(|items|, Answered(other)) != Atr(Samples(other))
  {
    hide Laid, Shown, Answered, Map, SameTimes, Flat, Priced, PricedAs, Samples, Bars, ExtremesOfBars, Extremes, Atr;
    other := Priced(items, {j});
    LostIsFlat(items, k, j);
    PricedSamples(items, {j});
    FlatIsWrong(Samples(other), Answered(other), j);
    AtrIsOfBars(other);
  }

  /** The early items of the second behind the first one raise the first bar. */
  lemma {:induction false} MovedIsWrong(items: seq<Item>, k: Cuts) returns (other: seq<Item>)
    requires Laid(items, k) && k.u == 0 && k.f < k.l && k.b < k.v
    ensures SameTimes(items, other) && Answered(other) != Bars(Samples(other))
  {
    hide Laid, Answered, Map, SameTimes, Priced, PricedAs, Samples, Bars, MaxOf, MinOf, HighOf, AllOnes, Placed;
    other := Priced(items, {k.v - 1});
    PricedSamples(items, {k.v - 1});
    LaidOther(items, other, k);
    AnsweredIsShown(other, k);
    BarsAreScanned(other, k);
    var s := Samples(other);
    FirstBarsDiffer(s, k);
  }

  lemma {:induction false} FirstBarsDiffer(s: seq<Sample>, k: Cuts)
    requires Placed(k, |s|) && PricedAs(s, {k.v - 1}) && k.u == 0 && k.f < k.l && k.b < k.v
    ensures Shown(s, k) != Scanned(s, k)
  {
    OnesAside(s, {k.v - 1}, 0, k.b);
    OnesAreFlat(s[0..k.b], k.f);
    ExtremesBound(s[0..k.v]);
    assert s[0..k.v][k.v - 1].price == 2.0;
    assert s[..k.b] == s[0..k.b];
    hide Bars, MaxOf, MinOf;
    assert Shown(s, k)[0].high >= 2.0 && Scanned(s, k)[0].high == 1.0;
  }

  // ---------- Exactly when the bars are right ----------

  lemma {:induction false} ShownWhenClean(s: seq<Sample>, k: Cuts)
    requires Placed(k, |s|) && k.u == 0 && (k.f < k.l ==> k.v == k.b && k.w == k.c)
    ensures Shown(s, k) == Scanned(s, k)
  {
    hide Bars, BarOf;
    assert s[0..|s|] == s && s[0..k.b] == s[..k.b];
    if k.f < k.l {
      assert s[k.c..|s|] == s[k.c..];
    }
  }

  lemma {:induction false} BarsRight(items: seq<Item>)
    requires TimesRise(items) && EndsCutCleanly(items)
    ensures Answered(items) == Bars(Samples(items))
  {
    if |items| > 0 {
      var k := Lay(items);
      EndsCleanIff(items, k);
      AnsweredIsShown(items, k);
      BarsAreScanned(items, k);
      ShownWhenClean(Samples(items), k);
    }
  }

  lemma {:induction false} CleanForOther(items: seq<Item>, other: seq<Item>)
    requires SameTimes(items, other)
    ensures TimesRise(items) ==> TimesRise(other)
    ensures EndsCutCleanly(items) ==> EndsCutCleanly(other)
    ensures NoneLost(items) ==> NoneLost(other)
    ensures LonePair(items) ==> LonePair(other)
  {
    hide SecondOf, CutsCleanly;
    forall second ensures SecondCutsCleanly(items, second) ==> SecondCutsCleanly(other, second) {
    }
  }

  /** The bars are right under any prices exactly if the ends of the selection cut cleanly. */
  lemma {:induction false} BarsRightIff(items: seq<Item>)
    requires TimesRise(items)
    ensures EndsCutCleanly(items)
            <==> forall other: seq<Item> :: SameTimes(items, other) ==> Answered(other) == Bars(Samples(other))
  {
    hide SameTimes, Answered, Bars, Map, EndsCutCleanly, TimesRise, Samples;
    if EndsCutCleanly(items) {
      forall other: seq<Item> | SameTimes(items, other) ensures Answered(other) == Bars(Samples(other)) {
        CleanForOther(items, other);
        BarsRight(other);
      }
    } else {
      var other := SomeBarsWrong(items);
    }
  }

  lemma {:induction false} SomeBarsWrong(items: seq<Item>) returns (other: seq<Item>)
    requires TimesRise(items) && !EndsCutCleanly(items)
    ensures SameTimes(items, other) && Answered(other) != Bars(Samples(other))
  {
    hide SameTimes, Answered, Bars, Map, TimesRise, Samples, Laid, SecondCutsCleanly;
    var k := Lay(items);
    EndsCleanIff(items, k);
    CutOrder(items, k);
    if k.u > 0 {
      other := LostIsWrong(items, k, 0);
    } else if k.b < k.v {
      other := MovedIsWrong(items, k);
    } else {
      other := LostIsWrong(items, k, k.c);
    }
  }

  // ---------- Exactly when the extremes are right ----------

  function Min(x: real, y: real): real {
    if y < x then y else x
  }

  /** The bars show exactly the extremes of the samples from `i` to `j`. */
  ghost predicate BarsSpan(bars: seq<Bar>, s: seq<Sample>, i: nat, j: nat) {
    i < j <= |s| && |bars| > 0 && HighOf(bars) == MaxOf(s[i..j]) && LowOf(bars) == MinOf(s[i..j])
  }

  lemma {:induction false} ExtremesOfConcat(a: seq<Bar>, b: seq<Bar>)
    requires |a| > 0 && |b| > 0
    ensures HighOf(a + b) == Max(HighOf(a), HighOf(b)) && LowOf(a + b) == Min(LowOf(a), LowOf(b))
    decreases |b|
  {
    var n := |b| - 1;
    assert (a + b)[..|a + b| - 1] == a + b[..n];
    if n > 0 {
      ExtremesOfConcat(a, b[..n]);
    } else {
      assert a + b[..n] == a;
    }
  }

  lemma {:induction false} SpanOf(s: seq<Sample>, i: nat, j: nat, x: real, y: real)
    requires i < j <= |s|
    requires forall n :: i <= n < j ==> y <= s[n].price <= x
    requires (exists n :: i <= n < j && s[n].price == x) && exists n :: i <= n < j && s[n].price == y
    ensures MaxOf(s[i..j]) == x && MinOf(s[i..j]) == y
  {
    hide MaxOf, MinOf;
    var part := s[i..j];
    ExtremesBound(part);
    var n :| i <= n < j && s[n].price == x;
    var m :| i <= m < j && s[m].price == y;
    assert part[n - i].price == x && part[m - i].price == y;
    assert forall o :: 0 <= o < |part| ==> part[o] == s[i + o];
  }

  lemma {:induction false} InSpan(s: seq<Sample>, i: nat, j: nat)
    requires i < j <= |s|
    ensures forall n :: i <= n < j ==> MinOf(s[i..j]) <= s[n].price <= MaxOf(s[i..j])
    ensures exists n :: i <= n < j && s[n].price == MaxOf(s[i..j])
    ensures exists n :: i <= n < j && s[n].price == MinOf(s[i..j])
  {
    hide MaxOf, MinOf;
    var part := s[i..j];
    ExtremesBound(part);
    var n :| 0 <= n < |part| && part[n].price == MaxOf(part);
    var m :| 0 <= m < |part| && part[m].price == MinOf(part);
    assert s[i + n] == part[n] && s[i + m] == part[m];
    forall o | i <= o < j ensures MinOf(part) <= s[o].price <= MaxOf(part) {
      assert part[o - i] == s[o];
    }
  }

  lemma {:induction false} JoinSpans(a: seq<Bar>, b: seq<Bar>, s: seq<Sample>, i: nat, j: nat, m: nat, n: nat)
    requires BarsSpan(a, s, i, j) && BarsSpan(b, s, m, n) && i <= m <= j <= n
    ensures BarsSpan(a + b, s, i, n)
  {
    ExtremesOfConcat(a, b);
    InSpan(s, i, j);
    InSpan(s, m, n);
    hide MaxOf, MinOf, HighOf, LowOf;
    SpanOf(s, i, n, Max(MaxOf(s[i..j]), MaxOf(s[m..n])), Min(MinOf(s[i..j]), MinOf(s[m..n])));
  }

  lemma {:induction false} PartSpans(second: int, s: seq<Sample>, i: nat, j: nat)
    requires i < j <= |s|
    ensures BarsSpan(PartBars(second, s, i, j), s, i, j) && BarsSpan(Bars(s[i..j]), s, i, j)
  {
    BarExtremes(s[i..j]);
  }

  lemma {:induction false} ShownSpans(s: seq<Sample>, k: Cuts)
    requires Placed(k, |s|) && k.u == 0 && (k.l > k.f + 1 ==> k.w == k.c)
    ensures BarsSpan(Shown(s, k), s, 0, |s|)
  {
    hide Bars, BarOf, BarsSpan, PartBars;
    var n := |s|;
    PartSpans(k.f, s, 0, k.v);
    if k.f < k.l {
      var first, middle, last := PartBars(k.f, s, 0, k.v), Bars(s[k.b..k.c]), PartBars(k.l, s, k.w, n);
      if k.b < k.c {
        PartSpans(k.f, s, k.b, k.c);
        JoinSpans(first, middle, s, 0, k.v, k.b, k.c);
      } else {
        NoPart(k.f, s, k.b);
        assert first + middle == first;
      }
      if k.w < n {
        PartSpans(k.l, s, k.w, n);
        JoinSpans(first + middle, last, s, 0, if k.b < k.c then k.c else k.v, k.w, n);
      } else {
        NoPart(k.l, s, n);
        assert first + middle + last == first + middle;
      }
    }
  }

  lemma {:induction false} NoPart(second: int, s: seq<Sample>, i: nat)
    requires i <= |s|
    ensures PartBars(second, s, i, i) == [] && Bars(s[i..i]) == []
  {
  }

  lemma {:induction false} ExtremesRight(items: seq<Item>)
    requires TimesRise(items) && NoneLost(items)
    ensures ExtremesOfBars(Answered(items)) == Extremes(Samples(items))
  {
    hide Shown, Bars, HighOf, LowOf, MaxOf, MinOf, Laid, NoneLost, TimesRise, Filter, SecondOf, PartialBars;
    if |items| > 0 {
      var k := Lay(items);
      EndsCleanIff(items, k);
      AnsweredIsShown(items, k);
      ShownSpans(Samples(items), k);
      hide Answered;
      assert Samples(items)[0..|items|] == Samples(items);
    }
  }

  /** The extremes are right under any prices exactly if no item is lost. */
  lemma {:induction false} ExtremesRightIff(items: seq<Item>)
    requires TimesRise(items)
    ensures NoneLost(items)
            <==> forall other: seq<Item> :: SameTimes(items, other)
                   ==> ExtremesOfBars(Answered(other)) == Extremes(Samples(other))
  {
    hide SameTimes, Answered, Extremes, ExtremesOfBars, Map, NoneLost, TimesRise, Samples;
    if NoneLost(items) {
      forall other: seq<Item> | SameTimes(items, other)
        ensures ExtremesOfBars(Answered(other)) == Extremes(Samples(other))
      {
        CleanForOther(items, other);
        ExtremesRight(other);
      }
    } else {
      var other := SomeExtremesWrong(items);
    }
  }

  lemma {:induction false} SomeExtremesWrong(items: seq<Item>) returns (other: seq<Item>)
    requires TimesRise(items) && !NoneLost(items)
    ensures SameTimes(items, other) && ExtremesOfBars(Answered(other)) != Extremes(Samples(other))
  {
    hide SameTimes, Answered, Extremes, ExtremesOfBars, Map, TimesRise, Samples, Laid, SecondCutsCleanly;
    var k := Lay(items);
    EndsCleanIff(items, k);
    CutOrder(items, k);
    other := LostIsWrong(items, k, if k.u > 0 then 0 else k.c);
  }

  // ---------- Exactly when the average true range is right ----------

  lemma {:induction false} TwoRanges(x: Bar, y: Bar)
    ensures RangeSum([x, y]) == x.high - x.low + TrueRange(y, Some(x.close)) && LastClose([x, y]) == Some(y.close)
  {
    var bars := [x, y];
    RangeStep(bars, 0);
    RangeStep(bars, 1);
    assert bars[..0] == [] && bars[..1] == [x] && bars[..2] == bars;
  }

  /** Bars behind two starts with the same close add the same ranges. */
  lemma {:induction false} SamePath(a: seq<Bar>, b: seq<Bar>, rest: seq<Bar>)
    requires |a| == |b| && LastClose(a) == LastClose(b)
    ensures RangeSum(a + rest) - RangeSum(a) == RangeSum(b + rest) - RangeSum(b)
    ensures LastClose(a + rest) == LastClose(b + rest)
  {
    if |rest| == 0 {
      assert a + rest == a && b + rest == b;
    } else {
      var n := |rest| - 1;
      SamePath(a, b, rest[..n]);
      assert (a + rest)[..|a| + n] == a + rest[..n] && (b + rest)[..|b| + n] == b + rest[..n];
    }
  }

  lemma {:induction false} MiddleApart(s: seq<Sample>, second: int, b: nat, g: nat, c: nat)
    requires Rising(s) && b < g <= c <= |s| && CutsAt(s, second, b) && CutsAt(s, second + 1, g)
    ensures Bars(s[b..c]) == [BarOf(second, s[b..g])] + Bars(s[g..c])
  {
    hide BarOf, MaxOf, MinOf, Bars, OneBar, Rising, CutsAt;
    OneSecondStretch(s, second, b, g, b, g);
    RisingSlice(s, b, c);
    CutsAtSlice(s, second + 1, g, b, c);
    BarsCut(s[b..c], second + 1, g - b);
    SliceOfSlice(s, b, c, g - b);
    OneIsOf(s[b..g], second);
  }

  lemma {:induction false} OneIsOf(s: seq<Sample>, second: int)
    requires |s| > 0 && OneBar(s).second == second
    ensures OneBar(s) == BarOf(second, s)
  {
  }

  /** The parts of a selection whose second second starts early: the first two bars, and the same rest. */
  lemma {:induction false} SecondBarApart(s: seq<Sample>, k: Cuts, g: nat)
    requires Placed(k, |s|) && Rising(s) && k.u == 0 && k.f + 1 < k.l && k.w == k.c
    requires k.b < g <= k.c && CutsAt(s, k.f + 1, k.b) && CutsAt(s, k.f + 2, g)
    ensures var rest := Bars(s[g..k.c]) + PartBars(k.l, s, k.c, |s|);
            && Shown(s, k) == [BarOf(k.f, s[0..k.v]), BarOf(k.f + 1, s[k.b..g])] + rest
            && Scanned(s, k) == [BarOf(k.f, s[0..k.b]), BarOf(k.f + 1, s[k.b..g])] + rest
  {
    hide BarOf, Bars, Rising, CutsAt;
    MiddleApart(s, k.f + 1, k.b, g, k.c);
    assert s[0..k.b] == s[..k.b] && s[k.c..|s|] == s[k.c..];
  }

  lemma {:induction false} PricesOf(s: seq<Sample>, high: set<int>, i: nat, j: nat)
    requires PricedAs(s, high) && i < j <= |s|
    ensures MaxOf(s[i..j]) == if exists n :: i <= n < j && n in high then 2.0 else 1.0
    ensures MinOf(s[i..j]) == if exists n :: i <= n < j && n !in high then 1.0 else 2.0
    ensures s[i..j][j - i - 1].price == Sized(high, j - 1)
  {
    hide MaxOf, MinOf;
    assert s[j - 1].price == Sized(high, j - 1);
    var x := if exists n :: i <= n < j && n in high then 2.0 else 1.0;
    var y := if exists n :: i <= n < j && n !in high then 1.0 else 2.0;
    if x == 2.0 {
      var n :| i <= n < j && n in high;
      assert s[n].price == x;
    } else {
      assert s[i].price == x;
    }
    if y == 1.0 {
      var n :| i <= n < j && n !in high;
      assert s[n].price == y;
    } else {
      assert s[i].price == y;
    }
    SpanOf(s, i, j, x, y);
  }

  /** Positions whose prices tell the two paths apart. */
  function Telling(k: Cuts, g: nat): set<int> {
    if g - k.b >= 2 then {k.v - 1} else {0, k.v - 1}
  }

  lemma {:induction false} PathsDiffer(s: seq<Sample>, k: Cuts, g: nat)
    requires PricedAs(s, Telling(k, g)) && 0 < k.b < k.v <= g <= |s| && (g - k.b >= 2 || k.b >= 2)
    ensures var b := BarOf(k.f + 1, s[k.b..g]);
            RangeSum([BarOf(k.f, s[0..k.v]), b]) != RangeSum([BarOf(k.f, s[0..k.b]), b])
  {
    hide MaxOf, MinOf, RangeSum;
    var high := Telling(k, g);
    PricesOf(s, high, 0, k.v);
    PricesOf(s, high, 0, k.b);
    PricesOf(s, high, k.b, g);
    assert k.v - 1 in high && (k.b >= 2 ==> k.b - 1 !in high);
    if g - k.b >= 2 {
      var other := if k.v - 1 == k.b then k.b + 1 else k.b;
      assert k.b <= other < g && other !in high && 0 !in high;
    } else {
      assert 0 in high && 1 <= k.b - 1 < k.b;
    }
    TwoRanges(BarOf(k.f, s[0..k.v]), BarOf(k.f + 1, s[k.b..g]));
    TwoRanges(BarOf(k.f, s[0..k.b]), BarOf(k.f + 1, s[k.b..g]));
  }

  lemma {:induction false} SameQuotient(x: real, y: real, n: real)
    requires n > 0.0
    ensures x / n == y / n <==> x == y
  {
    assert x == (x / n) * n && y == (y / n) * n;
  }

  lemma {:induction false} AveragesDiffer(a: seq<Bar>, b: seq<Bar>, rest: seq<Bar>, count: nat)
    requires |a| == |b| > 0 && LastClose(a) == LastClose(b) && count >= 2
    ensures AtrOfBars(count, a + rest) == AtrOfBars(count, b + rest) <==> RangeSum(a) == RangeSum(b)
  {
    SamePath(a, b, rest);
    hide RangeSum, LastClose;
    SameQuotient(RangeSum(a + rest), RangeSum(b + rest), |a + rest| as real);
  }

  /** The cut behind the second second, when its first item starts early. */
  lemma {:induction false} SecondSecond(items: seq<Item>, k: Cuts) returns (g: nat)
    requires Laid(items, k) && k.b < k.v && k.f + 1 < k.l
    ensures FiledBefore(items, k.f + 2, g) && k.v <= g <= k.c
  {
    g := CutFiled(items, k.f + 2);
    LiesThenFiled(items, k.f + 1, k.v, k.f + 2, g);
    CutsRise(items, k.f + 2, g, k.l, k.c);
  }

  /** The first two bars of what is shown and of the plain scan, and the rest they share. */
  lemma {:induction false} FirstTwoBars(items: seq<Item>, k: Cuts, g: nat) returns (rest: seq<Bar>)
    requires Laid(items, k) && Placed(k, |items|) && k.u == 0 && k.w == k.c && k.b < k.v && k.f + 1 < k.l
    requires FiledBefore(items, k.f + 2, g) && k.v <= g <= k.c
    ensures var s := Samples(items);
            && |s| == |items|
            && Answered(items) == [BarOf(k.f, s[0..k.v]), BarOf(k.f + 1, s[k.b..g])] + rest
            && Bars(s) == [BarOf(k.f, s[0..k.b]), BarOf(k.f + 1, s[k.b..g])] + rest
  {
    AnsweredIsShown(items, k);
    BarsAreScanned(items, k);
    SamplesRise(items);
    FiledCuts(items, k.f + 1, k.b);
    FiledCuts(items, k.f + 2, g);
    hide Laid, Answered, Bars, BarOf, Shown, Scanned, PartBars, Map, FiledBefore, CutsAt, Rising, TimesRise;
    var s := Samples(items);
    SecondBarApart(s, k, g);
    rest := Bars(s[g..k.c]) + PartBars(k.l, s, k.c, |s|);
  }

  lemma {:induction false} TwoCloses(x: Bar, y: Bar, z: Bar)
    ensures LastClose([x, z]) == LastClose([y, z])
  {
  }

  /** The averages agree exactly if the first two bars walk equally far. */
  lemma {:induction false} AtrByFirstTwo(items: seq<Item>, k: Cuts, g: nat)
    requires Laid(items, k) && Placed(k, |items|) && k.u == 0 && k.w == k.c && k.b < k.v && k.f + 1 < k.l
    requires FiledBefore(items, k.f + 2, g) && k.v <= g <= k.c
    ensures var s := Samples(items);
            && |s| == |items|
            && (AtrOfBars(|items|, Answered(items)) == Atr(s)
                <==> RangeSum([BarOf(k.f, s[0..k.v]), BarOf(k.f + 1, s[k.b..g])])
                     == RangeSum([BarOf(k.f, s[0..k.b]), BarOf(k.f + 1, s[k.b..g])]))
  {
    hide Laid, Answered, Bars, BarOf, RangeSum, Map, FiledBefore, Atr, LastClose, AtrOfBars;
    var rest := FirstTwoBars(items, k, g);
    AtrIsOfBars(items);
    var s := Samples(items);
    var z := BarOf(k.f + 1, s[k.b..g]);
    TwoCloses(BarOf(k.f, s[0..k.v]), BarOf(k.f, s[0..k.b]), z);
    AveragesDiffer([BarOf(k.f, s[0..k.v]), z], [BarOf(k.f, s[0..k.b]), z], rest, |items|);
  }

  /** Early items of the second second, and the averages it spoils. */
  lemma {:induction false} MovedAtrIsWrong(items: seq<Item>, k: Cuts, g: nat) returns (other: seq<Item>)
    requires Laid(items, k) && Placed(k, |items|) && k.u == 0 && k.w == k.c && k.b < k.v && k.f + 1 < k.l
    requires FiledBefore(items, k.f + 2, g) && k.v <= g <= k.c && (k.b > 1 || g > 2)
    ensures SameTimes(items, other) && AtrOfBars(|items|, Answered(other)) != Atr(Samples(other))
  {
    hide Laid, Answered, Bars, BarOf, RangeSum, Map, Atr, AtrOfBars, SameTimes, Priced, PricedAs, FiledBefore, Samples,
      Telling;
    other := Priced(items, Telling(k, g));
    PricedSamples(items, Telling(k, g));
    LaidOther(items, other, k);
    FiledOther(items, other, k.f + 2, g);
    AtrByFirstTwo(other, k, g);
    PathsDiffer(Samples(other), k, g);
  }

  lemma {:induction false} FiledOther(items: seq<Item>, other: seq<Item>, t: int, c: nat)
    requires FiledBefore(items, t, c) && SameTimes(items, other)
    ensures FiledBefore(other, t, c)
  {
  }

  /** Two seconds only: the early items of the second one join the bar of the first. */
  lemma {:induction false} MovedPairIsWrong(items: seq<Item>, k: Cuts) returns (other: seq<Item>)
    requires Laid(items, k) && k.u == 0 && k.b < k.v && k.f + 1 == k.l
    ensures SameTimes(items, other) && AtrOfBars(|items|, Answered(other)) != Atr(Samples(other))
  {
    hide Laid, Answered, Bars, Map, Atr, AtrOfBars, SameTimes, Priced, PricedAs, Samples, Shown, Scanned;
    other := Priced(items, {k.v - 1});
    PricedSamples(items, {k.v - 1});
    LaidOther(items, other, k);
    AnsweredIsShown(other, k);
    BarsAreScanned(other, k);
    AtrIsOfBars(other);
    PairOfSeconds(Samples(other), k);
  }

  lemma {:induction false} PairOfSeconds(s: seq<Sample>, k: Cuts)
    requires Placed(k, |s|) && PricedAs(s, {k.v - 1}) && k.u == 0 && k.b < k.v && k.f + 1 == k.l
    ensures |s| >= 2 && AtrOfBars(|s|, Shown(s, k)) != AtrOfBars(|s|, Scanned(s, k))
  {
    hide MaxOf, MinOf, RangeSum;
    var n, high := |s|, {k.v - 1};
    assert s[0..k.b] == s[..k.b] && s[k.c..n] == s[k.c..] && s[k.b..k.c] == [];
    assert 0 !in high && k.v - 1 in high;
    PricesOf(s, high, 0, k.b);
    PricesOf(s, high, k.b, n);
    PricesOf(s, high, 0, k.v);
    var x, y := BarOf(k.f, s[..k.b]), BarOf(k.l, s[k.c..]);
    TwoRanges(x, y);
    assert Scanned(s, k) == [x, y] && RangeSum([x, y]) == 1.0;
    var p := BarOf(k.f, s[0..k.v]);
    if k.v < n {
      PricesOf(s, high, k.v, n);
      var q := BarOf(k.l, s[k.v..n]);
      TwoRanges(p, q);
      assert Shown(s, k) == [p, q] && RangeSum([p, q]) == 2.0;
    } else {
      OneRange(p);
      assert Shown(s, k) == [p] && RangeSum([p]) == 1.0;
    }
  }

  lemma {:induction false} OneRange(x: Bar)
    ensures RangeSum([x]) == x.high - x.low
  {
    RangeStep([x], 0);
    assert [x][..0] == [] && [x][..1] == [x];
  }

  lemma {:induction false} LonePaths(s: seq<Sample>, f: int)
    requires |s| >= 2
    ensures RangeSum([BarOf(f, s[0..2]), BarOf(f + 1, s[1..2])]) == RangeSum([BarOf(f, s[0..1]), BarOf(f + 1, s[1..2])])
  {
    var x, y, z := BarOf(f, s[0..2]), BarOf(f, s[0..1]), BarOf(f + 1, s[1..2]);
    assert s[0..2][..1] == s[0..1];
    TwoRanges(x, z);
    TwoRanges(y, z);
  }

  lemma {:induction false} LonePairCuts(items: seq<Item>, k: Cuts, g: nat)
    requires Laid(items, k) && FiledBefore(items, k.f + 2, g)
    ensures LonePair(items) <==> k.u == 0 && k.b == 1 && g == 2 && k.f + 1 < k.l && k.w == k.c
  {
    SecondCleanIff(items, k.l, k.c, k.w);
    hide SecondCutsCleanly, TimesRise;
    var n := |items| - 1;
    assert SecondOf(items[0].timestamp) == k.f && SecondOf(items[n].timestamp) == k.l;
    assert n >= 1 ==> SecondOf(items[1].timestamp) == SecondOf(items[1].timestamp);
    assert n >= 2 ==> SecondOf(items[2].timestamp) == SecondOf(items[2].timestamp);
    SecondIsNear(items[0].timestamp);
  }

  lemma {:induction false} AtrRight(items: seq<Item>)
    requires TimesRise(items) && AtrCutsCleanly(items)
    ensures AtrOfBars(|items|, Answered(items)) == Atr(Samples(items))
  {
    hide Answered, Bars, BarOf, RangeSum, Map, LonePair, Samples, TimesRise, Laid;
    AtrIsOfBars(items);
    if |items| >= 2 {
      if EndsCutCleanly(items) {
        BarsRight(items);
      } else {
        var k := Lay(items);
        CutOrder(items, k);
        var g := CutFiled(items, k.f + 2);
        LonePairCuts(items, k, g);
        EndsCleanIff(items, k);
        g := SecondSecond(items, k);
        LonePairCuts(items, k, g);
        AtrByFirstTwo(items, k, g);
        LonePaths(Samples(items), k.f);
      }
    }
  }

  lemma {:induction false} SomeAtrWrong(items: seq<Item>) returns (other: seq<Item>)
    requires TimesRise(items) && !AtrCutsCleanly(items)
    ensures SameTimes(items, other) && AtrOfBars(|other|, Answered(other)) != Atr(Samples(other))
  {
    hide SameTimes, Answered, Atr, AtrOfBars, Map, TimesRise, Samples, Laid, LonePair, EndsCutCleanly;
    var k := Lay(items);
    EndsCleanIff(items, k);
    CutOrder(items, k);
    if k.u > 0 {
      other := LostIsWrong(items, k, 0);
    } else if k.w > k.c && k.v <= k.c {
      other := LostIsWrong(items, k, k.c);
    } else if k.f + 1 == k.l {
      other := MovedPairIsWrong(items, k);
    } else {
      var g := SecondSecond(items, k);
      LonePairCuts(items, k, g);
      other := MovedAtrIsWrong(items, k, g);
    }
    SameCount(items, other);
  }

  lemma {:induction false} SameCount(items: seq<Item>, other: seq<Item>)
    requires SameTimes(items, other)
    ensures |items| == |other|
  {
  }

  /**
   The average true range is right under any prices exactly for fewer than two items, for ends
   that cut cleanly, and for a lone item in each of the first two seconds.
   */
  lemma {:induction false} AtrRightIff(items: seq<Item>)
    requires TimesRise(items)
    ensures AtrCutsCleanly(items)
            <==> forall other: seq<Item> :: SameTimes(items, other)
                   ==> AtrOfBars(|other|, Answered(other)) == Atr(Samples(other))
  {
    hide SameTimes, Answered, Atr, AtrOfBars, Map, TimesRise, Samples, LonePair, EndsCutCleanly;
    if AtrCutsCleanly(items) {
      forall other: seq<Item> | SameTimes(items, other)
        ensures AtrOfBars(|other|, Answered(other)) == Atr(Samples(other))
      {
        CleanForOther(items, other);
        SameCount(items, other);
        AtrRight(other);
      }
    } else {
      var other := SomeAtrWrong(items);
    }
  }

  // ---------- Every query of a stream ----------

  function Chosen(items: seq<Item>, start: int, end: int): seq<Item> {
    Filter(Between(start, end), items)
  }

  ghost predicate BarsRightFor(items: seq<Item>, start: int, end: int) {
    Answered(Chosen(items, start, end)) == Bars(Samples(Chosen(items, start, end)))
  }

  ghost predicate ExtremesRightFor(items: seq<Item>, start: int, end: int) {
    ExtremesOfBars(Answered(Chosen(items, start, end))) == Extremes(Samples(Chosen(items, start, end)))
  }

  ghost predicate AtrRightFor(items: seq<Item>, start: int, end: int) {
    var s := Chosen(items, start, end);
    AtrOfBars(|s|, Answered(s)) == Atr(Samples(s))
  }

  /** A query selects a stretch. */
  lemma {:induction false} ChosenStretch(items: seq<Item>, start: int, end: int) returns (p: nat, q: nat)
    requires TimesRise(items) && start <= end
    ensures p <= q <= |items| && Chosen(items, start, end) == items[p..q]
    ensures forall i :: 0 <= i < |items| ==> (start < items[i].timestamp <= end <==> p <= i < q)
  {
    p := CutTime(items, start + 1);
    q := CutTime(items, end + 1);
    assert q < |items| ==> items[q].timestamp >= end + 1;
    ChosenIs(items, start, end, p, q);
  }

  lemma {:induction false} CutTime(items: seq<Item>, t: int) returns (c: nat)
    requires TimesRise(items)
    ensures c <= |items| && forall i :: 0 <= i < |items| ==> (items[i].timestamp < t <==> i < c)
  {
    c := 0;
    if |items| > 0 {
      var n := |items| - 1;
      c := CutTime(items[..n], t);
      assert forall i :: 0 <= i < n ==> items[..n][i] == items[i];
      if c < n {
        assert items[c].timestamp <= items[n].timestamp;
      } else if items[n].timestamp < t {
        c := n + 1;
      }
    }
  }

  lemma {:induction false} CleanStretch(items: seq<Item>, p: nat, q: nat)
    requires TimesRise(items) && p <= q <= |items|
    ensures TimesRise(items[p..q])
    ensures AllCutCleanly(items) ==> EndsCutCleanly(items[p..q]) && NoneLost(items[p..q])
  {
    hide SecondOf, CutsCleanly;
    if AllCutCleanly(items) {
      forall second ensures SecondCutsCleanly(items[p..q], second) {
      }
    }
  }

  /** A selection of one time that does not lie in its second has no bar at all. */
  lemma {:induction false} UncleanIsSilent(items: seq<Item>, t: int)
    requires |items| > 0 && forall i :: 0 <= i < |items| ==> items[i].timestamp == t
    ensures Answered(items) == [] <==> !CutsCleanly(t)
    ensures ExtremesOfBars(Answered(items)) == (None, None) <==> !CutsCleanly(t)
  {
    hide SecondOf;
    var f := SecondOf(t);
    assert items[0].timestamp == t == items[|items| - 1].timestamp;
    if CutsCleanly(t) {
      FilterAll(LiesIn(f), items);
    } else {
      FilterNone(LiesIn(f), items);
    }
  }

  /** The query for the time of one item. */
  lemma {:induction false} QueryOneTime(items: seq<Item>, i: nat)
    requires TimesRise(items) && i < |items|
    ensures var t := items[i].timestamp;
            var s := Chosen(items, t - 1, t);
            && |s| > 0
            && (Answered(s) == [] <==> !CutsCleanly(t))
            && (ExtremesOfBars(Answered(s)) == (None, None) <==> !CutsCleanly(t))
  {
    hide Answered, CutsCleanly, ExtremesOfBars, Chosen;
    var t := items[i].timestamp;
    var p, q := ChosenStretch(items, t - 1, t);
    assert forall j :: 0 <= j < q - p ==> items[p..q][j] == items[p + j];
    UncleanIsSilent(items[p..q], t);
  }

  /** A query around the epoch: half a second before it is filed under second 0, and lost behind it. */
  lemma {:induction false} StraddledEpoch(p: Item, q: Item)
    requires p.timestamp == -500_000 && p.value == Trade(1.0) && q.timestamp == 500_000 && q.value == Trade(2.0)
    ensures Chosen([p, q], -1_000_000, 500_000) == [p, q]
    ensures Bars(Samples([p, q])) == [Bar(0, 2.0, 1.0, 2.0)] && Answered([p, q]) == [Bar(0, 2.0, 2.0, 2.0)]
  {
    hide Filter, Bars, Map, CutsAt, Chosen;
    ChosenIs([p, q], -1_000_000, 500_000, 0, 2);
    FilterStretch(LiesIn(0), [p, q], 0, 1, 2);
    assert [p, q][0..] == [p, q] && [p, q][1..2] == [q] && [p, q][0..2] == [p, q];
    var s := Samples([p, q]);
    assert s == [Sample(0, 1.0), Sample(0, 2.0)];
    BarsOfOneSecond(s);
    assert |s| - 1 == 1 && s[..1] == [s[0]];
    assert MaxOf(s[..1]) == 1.0 == MinOf(s[..1]);
    assert OneBar(s) == Bar(0, 2.0, 1.0, 2.0);
    assert Answered([p, q]) == PartialBars([p, q], 0);
    assert BarOf(0, Samples([q])) == Bar(0, 2.0, 2.0, 2.0);
  }

  /** The last microsecond of the year 2514 is filed under the year 2515: the query for it has no bar. */
  lemma {:induction false} LateMicrosecond(x: Item)
    requires x.timestamp == 17_198_524_799_999_999
    ensures var s := Chosen([x], x.timestamp - 1, x.timestamp);
            s == [x] && |Bars(Samples(s))| > 0 && Answered(s) == []
  {
    hide Answered, Bars, Map, Chosen;
    ChosenIs([x], x.timestamp - 1, x.timestamp, 0, 1);
    assert [x][0..1] == [x];
    assert !CutsCleanly(x.timestamp);
    QueryOneTime([x], 0);
    BarsOfSome([x]);
  }

  /** Every query for bars or extremes is right exactly if every item lies in its second. */
  lemma {:induction false} EveryQueryRightIff(items: seq<Item>)
    requires TimesRise(items)
    ensures AllCutCleanly(items) <==> forall start, end :: start <= end ==> BarsRightFor(items, start, end)
    ensures AllCutCleanly(items) <==> forall start, end :: start <= end ==> ExtremesRightFor(items, start, end)
  {
    hide Answered, CutsCleanly, ExtremesOfBars, Chosen, Bars, Map, TimesRise, EndsCutCleanly, NoneLost, Samples;
    if AllCutCleanly(items) {
      forall start, end | start <= end
        ensures BarsRightFor(items, start, end) && ExtremesRightFor(items, start, end)
      {
        var p, q := ChosenStretch(items, start, end);
        CleanStretch(items, p, q);
        BarsRight(items[p..q]);
        ExtremesRight(items[p..q]);
      }
    } else {
      var i :| 0 <= i < |items| && !CutsCleanly(items[i].timestamp);
      var t := items[i].timestamp;
      QueryOneTime(items, i);
      BarsOfSome(Chosen(items, t - 1, t));
      assert !BarsRightFor(items, t - 1, t) && !ExtremesRightFor(items, t - 1, t);
    }
  }

  lemma {:induction false} BarsOfSome(items: seq<Item>)
    requires |items| > 0
    ensures |Bars(Samples(items))| > 0 && Extremes(Samples(items)) != (None, None)
  {
    BarsEnds(Samples(items));
  }

  /** An unclean item and a neighbour select a stretch whose average some prices spoil. */
  lemma {:induction false} SpoiltPair(items: seq<Item>, i: nat) returns (start: int, end: int)
    requires TimesRise(items) && |items| >= 2 && i < |items| && !CutsCleanly(items[i].timestamp)
    ensures start <= end && !AtrCutsCleanly(Chosen(items, start, end))
  {
    hide CutsCleanly, Chosen, SecondOf;
    var first, last := if i + 1 < |items| then i else i - 1, if i + 1 < |items| then i + 1 else i;
    start, end := items[first].timestamp - 1, items[last].timestamp;
    var p, q := ChosenStretch(items, start, end);
    var s := items[p..q];
    assert p <= first && last < q;
    assert s[0] == items[p] && s[|s| - 1] == items[q - 1];
    assert items[p].timestamp == items[first].timestamp && items[q - 1].timestamp == items[last].timestamp;
    assert CutsCleanly(s[0].timestamp) ==> first != i && !CutsCleanly(s[|s| - 1].timestamp);
  }

  /** Putting a selection back among the other items. */
  lemma {:induction false} PutBack(items: seq<Item>, start: int, end: int, part: seq<Item>) returns (other: seq<Item>)
    requires TimesRise(items) && start <= end && SameTimes(Chosen(items, start, end), part)
    ensures SameTimes(items, other) && Chosen(other, start, end) == part
  {
    var p, q := ChosenStretch(items, start, end);
    hide Chosen, TimesRise;
    other := items[..p] + part + items[q..];
    forall i | 0 <= i < |items| ensures other[i].timestamp == items[i].timestamp {
      if p <= i < q {
        assert other[i] == part[i - p] && items[p..q][i - p] == items[i];
      }
    }
    ChosenIs(other, start, end, p, q);
    assert other[p..q] == part;
  }

  lemma {:induction false} ChosenIs(items: seq<Item>, start: int, end: int, p: nat, q: nat)
    requires p <= q <= |items|
    requires forall i :: 0 <= i < |items| ==> (start < items[i].timestamp <= end <==> p <= i < q)
    ensures Chosen(items, start, end) == items[p..q]
  {
    FilterStretch(Between(start, end), items, 0, p, q);
    assert items[0..] == items;
  }

  /** Every average true range is right under any prices exactly if every item lies in its second. */
  lemma {:induction false} EveryAtrRightIff(items: seq<Item>)
    requires TimesRise(items)
    ensures AllCutCleanly(items) || |items| < 2
            <==> forall other: seq<Item>, start: int, end: int ::
                   SameTimes(items, other) && start <= end ==> AtrRightFor(other, start, end)
  {
    hide Answered, CutsCleanly, Chosen, Bars, Map, Samples, Atr, AtrOfBars, EndsCutCleanly, LonePair, NoneLost;
    if AllCutCleanly(items) || |items| < 2 {
      forall other: seq<Item>, start: int, end: int | SameTimes(items, other) && start <= end
        ensures AtrRightFor(other, start, end)
      {
        var p, q := ChosenStretch(other, start, end);
        CleanStretch(other, p, q);
        AtrRight(other[p..q]);
      }
    } else {
      var i :| 0 <= i < |items| && !CutsCleanly(items[i].timestamp);
      var start, end := SpoiltPair(items, i);
      var p, q := ChosenStretch(items, start, end);
      CleanStretch(items, p, q);
      var part := SomeAtrWrong(Chosen(items, start, end));
      var other := PutBack(items, start, end, part);
      assert !AtrRightFor(other, start, end);
    }
  }
}
