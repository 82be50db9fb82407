/**
 One-second price bars and the average true range over them, with the plain grouping
 loop that serves as their reference.
 */
module PriceBars {
  import opened Common
  import opened Sequences

  /** A price with the second it was seen in. */
  datatype Sample = Sample(second: int, price: real)

  datatype Bar = Bar(second: int, high: real, low: real, close: real)
  {
    function Append(price: real): Bar {
      Bar(second, if price > high then price else high, if price < low then price else low, price)
    }
  }

  // ---------- Bars of samples in time order ----------

  ghost predicate Rising(s: seq<Sample>) {
    forall i, j :: 0 <= i < j < |s| ==> s[i].second <= s[j].second
  }

  function AddSample(bars: seq<Bar>, x: Sample): seq<Bar> {
    if |bars| > 0 && bars[|bars| - 1].second == x.second
    then bars[..|bars| - 1] + [bars[|bars| - 1].Append(x.price)]
    else bars + [Bar(x.second, x.price, x.price, x.price)]
  }

  function Bars(s: seq<Sample>): seq<Bar> {
    if |s| == 0 then [] else AddSample(Bars(s[..|s| - 1]), s[|s| - 1])
  }

  lemma {:induction false} BarsEnds(s: seq<Sample>)
    requires |s| > 0
    ensures |Bars(s)| > 0
    ensures Bars(s)[0].second == s[0].second
    ensures Bars(s)[|Bars(s)| - 1].second == s[|s| - 1].second
  {
    if |s| > 1 {
      BarsEnds(s[..|s| - 1]);
    }
  }

  /** Samples of later seconds start bars of their own. */
  lemma {:induction false} BarsConcat(a: seq<Sample>, b: seq<Sample>)
    requires |a| > 0 && |b| > 0 ==> a[|a| - 1].second < b[0].second
    requires Rising(b)
    ensures Bars(a + b) == Bars(a) + Bars(b)
    decreases |b|
  {
    hide Bars, AddSample, Rising;
    NoBars();
    if |b| == 0 {
      assert a + b == a;
    } else if |a| == 0 {
      assert a + b == b;
    } else {
      var n := |b| - 1;
      RisingSlice(b, 0, n);
      BarsConcat(a, b[..n]);
      assert (a + b)[..|a + b| - 1] == a + b[..n];
      LastAdded(a + b);
      LastAdded(b);
      if n > 0 {
        BarsEnds(b[..n]);
        AddToRight(Bars(a), Bars(b[..n]), b[n]);
      } else {
        BarsEnds(a);
        AddBehind(Bars(a), b[n]);
      }
    }
  }

  lemma {:induction false} NoBars()
    ensures Bars([]) == []
  {
  }

  lemma {:induction false} LastAdded(s: seq<Sample>)
    requires |s| > 0
    ensures Bars(s) == AddSample(Bars(s[..|s| - 1]), s[|s| - 1])
  {
    hide AddSample;
  }

  lemma {:induction false} AddBehind(bars: seq<Bar>, x: Sample)
    requires |bars| > 0 && bars[|bars| - 1].second != x.second
    ensures AddSample(bars, x) == bars + AddSample([], x)
  {
  }

  lemma {:induction false} AddToRight(a: seq<Bar>, b: seq<Bar>, x: Sample)
    requires |b| > 0
    ensures AddSample(a + b, x) == a + AddSample(b, x)
  {
    assert (a + b)[..|a + b| - 1] == a + b[..|b| - 1];
  }

  lemma {:induction false} RisingSlice(s: seq<Sample>, i: nat, j: nat)
    requires Rising(s) && i <= j <= |s|
    ensures Rising(s[i..j])
  {
  }

  /** How many leading samples are earlier than second `t`. */
  ghost predicate CutsAt(s: seq<Sample>, t: int, c: nat) {
    && c <= |s|
    && (forall i :: 0 <= i < c ==> s[i].second < t)
    && (forall i :: c <= i < |s| ==> s[i].second >= t)
  }

  lemma {:induction false} CutInside(s: seq<Sample>, t: int, c: nat)
    requires CutsAt(s, t, c)
    ensures c <= |s|
  {
  }

  /** Cutting the samples at a second cuts the bars. */
  lemma {:induction false} BarsCut(s: seq<Sample>, t: int, c: nat)
    requires Rising(s) && CutsAt(s, t, c)
    ensures Bars(s) == Bars(s[..c]) + Bars(s[c..])
  {
    RisingSlice(s, c, |s|);
    assert s[..c] + s[c..] == s;
    BarsConcat(s[..c], s[c..]);
  }

  ghost predicate Ascending(bars: seq<Bar>) {
    forall i, j :: 0 <= i < j < |bars| ==> bars[i].second < bars[j].second
  }

  lemma {:induction false} AddAscends(bars: seq<Bar>, x: Sample)
    requires Ascending(bars) && (|bars| > 0 ==> bars[|bars| - 1].second <= x.second)
    ensures Ascending(AddSample(bars, x))
  {
    var more := AddSample(bars, x);
    forall i, j | 0 <= i < j < |more| ensures more[i].second < more[j].second {
      assert more[i].second == bars[i].second;
    }
  }

  /** Bars come in strictly ascending seconds. */
  lemma {:induction false} BarsAscend(s: seq<Sample>)
    requires Rising(s)
    ensures Ascending(Bars(s))
  {
    if |s| > 0 {
      var n := |s| - 1;
      RisingSlice(s, 0, n);
      BarsAscend(s[..n]);
      if n > 0 {
        BarsEnds(s[..n]);
      }
      AddAscends(Bars(s[..n]), s[n]);
    }
  }

  // ---------- Bars of a stretch inside a longer stream ----------

  /** A cut of the samples is a cut of the bars at the same second. */
  lemma {:induction false} BarIndex(s: seq<Sample>, t: int, c: nat)
    requires Rising(s) && CutsAt(s, t, c)
    ensures |Bars(s[..c])| <= |Bars(s)|
    ensures forall j :: 0 <= j < |Bars(s)| ==> (Bars(s)[j].second < t <==> j < |Bars(s[..c])|)
  {
    BarsCut(s, t, c);
    RisingSlice(s, 0, c);
    RisingSlice(s, c, |s|);
    CutSeconds(s, t, c);
    hide Bars, Rising, CutsAt, AddSample;
    var early, late := Bars(s[..c]), Bars(s[c..]);
    var joined := early + late;
    forall j | 0 <= j < |joined| ensures joined[j].second < t <==> j < |early| {
      assert joined[j] == if j < |early| then early[j] else late[j - |early|];
    }
  }

  /** Bars on either side of a cut lie on that side. */
  lemma {:induction false} CutSeconds(s: seq<Sample>, t: int, c: nat)
    requires Rising(s) && CutsAt(s, t, c)
    ensures forall j :: 0 <= j < |Bars(s[..c])| ==> Bars(s[..c])[j].second < t
    ensures forall j :: 0 <= j < |Bars(s[c..])| ==> Bars(s[c..])[j].second >= t
  {
    hide Rising, AddSample;
    RisingSlice(s, 0, c);
    RisingSlice(s, c, |s|);
    assert s[0..c] == s[..c] && s[c..|s|] == s[c..];
    BarsAscend(s[..c]);
    BarsAscend(s[c..]);
    if c > 0 {
      BarsEnds(s[..c]);
    }
    if c < |s| {
      BarsEnds(s[c..]);
    }
    hide Bars;
    var early, late := Bars(s[..c]), Bars(s[c..]);
    assert forall j :: 0 <= j < |early| ==> early[j].second <= early[|early| - 1].second;
    assert forall j :: 0 <= j < |late| ==> late[0].second <= late[j].second;
  }

  /** A stretch of one second within a sequence cut there. */
  lemma {:induction false} OneSecondStretch(s: seq<Sample>, second: int, a: nat, b: nat, i: nat, j: nat)
    requires Rising(s) && CutsAt(s, second, a) && CutsAt(s, second + 1, b) && a <= i < j <= b
    ensures Bars(s[i..j]) == [OneBar(s[i..j])] && OneBar(s[i..j]).second == second
  {
    assert forall k :: i <= k < j ==> s[k].second == second;
    BarsOfOneSecond(s[i..j]);
  }

  /** Three consecutive cuts of the samples cut the bars in three. */
  lemma {:induction false} BarsCutTwice(s: seq<Sample>, t: int, u: int, c: nat, d: nat)
    requires Rising(s) && t <= u && CutsAt(s, t, c) && CutsAt(s, u, d) && c <= d
    ensures Bars(s) == Bars(s[..c]) + Bars(s[c..d]) + Bars(s[d..])
  {
    BarsCut(s, u, d);
    RisingSlice(s, 0, d);
    assert CutsAt(s[..d], t, c);
    BarsCut(s[..d], t, c);
    SliceOfSlice(s, 0, d, c);
    assert s[0..d] == s[..d] && s[0..c] == s[..c];
  }

  lemma {:induction false} CutsAtSlice(s: seq<Sample>, t: int, c: nat, i: nat, j: nat)
    requires CutsAt(s, t, c) && i <= c <= j <= |s|
    ensures CutsAt(s[i..j], t, c - i)
  {
  }

  /** All samples between two cuts of the same second make one bar. */
  lemma {:induction false} StretchInOneSecond(s: seq<Sample>, left: nat, right: nat, f: int, a: nat, b: nat)
    requires Rising(s) && left < right <= |s| && s[left].second == f == s[right - 1].second
    requires CutsAt(s, f, a) && CutsAt(s, f + 1, b)
    ensures a <= left && right <= b
    ensures Bars(s[left..right]) == [OneBar(s[left..right])]
    ensures |Bars(s[..b])| == |Bars(s[..a])| + 1
    ensures |Bars(s)| >= |Bars(s[..b])| && Bars(s)[|Bars(s[..a])|].second == f
  {
    assert a <= left && right <= b;
    OneSecondStretch(s, f, a, b, left, right);
    HeadPart(s, f, a, b);
    BarsCut(s, f + 1, b);
  }

  /** A stretch over several seconds: a partial first bar, whole bars, a partial last bar. */
  lemma {:induction false} StretchOverSeconds(s: seq<Sample>, left: nat, right: nat, f: int, l: int,
                                              a: nat, b: nat, c: nat, d: nat)
    requires Rising(s) && left < right <= |s| && s[left].second == f < l == s[right - 1].second
    requires CutsAt(s, f, a) && CutsAt(s, f + 1, b) && CutsAt(s, l, c) && CutsAt(s, l + 1, d)
    ensures a <= left < b <= c < right <= d
    ensures Bars(s[left..right]) == [OneBar(s[left..b])] + Bars(s[b..c]) + [OneBar(s[c..right])]
    ensures OneBar(s[left..b]).second == f && OneBar(s[c..right]).second == l
    ensures var i, n := |Bars(s[..a])|, |Bars(s[b..c])|;
            && |Bars(s[..d])| == i + n + 2 <= |Bars(s)|
            && Bars(s)[i].second == f && Bars(s)[i + n + 1].second == l
            && Bars(s)[i + 1..i + 1 + n] == Bars(s[b..c])
    ensures forall j :: 0 <= j < |Bars(s[b..c])| ==> f < Bars(s[b..c])[j].second < l
  {
    CutPositions(s, left, right, f, l, a, b, c, d);
    SelectedParts(s, left, right, f, l, a, b, c, d);
    WholeParts(s, f, l, a, b, c, d);
    MiddleSeconds(s, f, l, b, c);
  }

  lemma {:induction false} CutPositions(s: seq<Sample>, left: nat, right: nat, f: int, l: int, a: nat, b: nat,
                                        c: nat, d: nat)
    requires Rising(s) && left < right <= |s| && s[left].second == f < l == s[right - 1].second
    requires CutsAt(s, f, a) && CutsAt(s, f + 1, b) && CutsAt(s, l, c) && CutsAt(s, l + 1, d)
    ensures a <= left < b <= c < right <= d
  {
    assert c <= right - 1 && b > left;
    assert c < |s| && s[c].second >= l;
  }

  lemma {:induction false} SelectedParts(s: seq<Sample>, left: nat, right: nat, f: int, l: int,
                                         a: nat, b: nat, c: nat, d: nat)
    requires Rising(s) && f < l && a <= left < b <= c < right <= d
    requires CutsAt(s, f, a) && CutsAt(s, f + 1, b) && CutsAt(s, l, c) && CutsAt(s, l + 1, d)
    ensures Bars(s[left..right]) == [OneBar(s[left..b])] + Bars(s[b..c]) + [OneBar(s[c..right])]
    ensures OneBar(s[left..b]).second == f && OneBar(s[c..right]).second == l
  {
    OneSecondStretch(s, f, a, b, left, b);
    OneSecondStretch(s, l, c, d, c, right);
    MiddleStretch(s, f, l, left, b, c, right);
  }

  lemma {:induction false} MiddleStretch(s: seq<Sample>, f: int, l: int, i: nat, b: nat, c: nat, j: nat)
    requires Rising(s) && f < l && i <= b <= c <= j <= |s| && CutsAt(s, f + 1, b) && CutsAt(s, l, c)
    ensures Bars(s[i..j]) == Bars(s[i..b]) + Bars(s[b..c]) + Bars(s[c..j])
  {
    hide Rising, CutsAt, Bars;
    RisingSlice(s, i, j);
    CutsAtSlice(s, f + 1, b, i, j);
    CutsAtSlice(s, l, c, i, j);
    var part := s[i..j];
    BarsCutTwice(part, f + 1, l, b - i, c - i);
    SliceInThree(s, i, b, c, j);
  }

  /** The whole first second is one bar behind the bars before it. */
  lemma {:induction false} HeadPart(s: seq<Sample>, f: int, a: nat, b: nat)
    requires Rising(s) && a < b && CutsAt(s, f, a) && CutsAt(s, f + 1, b)
    ensures Bars(s[..b]) == Bars(s[..a]) + [OneBar(s[a..b])] && OneBar(s[a..b]).second == f
  {
    OneSecondStretch(s, f, a, b, a, b);
    RisingSlice(s, 0, b);
    CutsAtSlice(s, f, a, 0, b);
    assert s[0..b] == s[..b];
    hide Rising, CutsAt, Bars;
    BarsCut(s[..b], f, a);
    SliceOfSlice(s, 0, b, a);
    assert s[0..b] == s[..b] && s[0..a] == s[..a];
  }

  lemma {:induction false} WholeParts(s: seq<Sample>, f: int, l: int, a: nat, b: nat, c: nat, d: nat)
    requires Rising(s) && f < l && a < b <= c < d
    requires CutsAt(s, f, a) && CutsAt(s, f + 1, b) && CutsAt(s, l, c) && CutsAt(s, l + 1, d)
    ensures var whole, i, n := Bars(s), |Bars(s[..a])|, |Bars(s[b..c])|;
            && |Bars(s[..d])| == i + n + 2 <= |whole|
            && whole[i].second == f && whole[i + n + 1].second == l
            && whole[i + 1..i + 1 + n] == Bars(s[b..c])
  {
    hide Bars, OneBar, Rising, CutsAt;
    CutInside(s, l + 1, d);
    UpToLastSecond(s, f, l, a, b, c, d);
    BarsCut(s, l + 1, d);
    OneSecondStretch(s, l, c, d, c, d);
    OneSecondStretch(s, f, a, b, a, b);
    Assemble(Bars(s), Bars(s[..a]), OneBar(s[a..b]), Bars(s[b..c]), OneBar(s[c..d]), Bars(s[d..]));
  }

  /** The bars up to and including the last second of a stretch. */
  lemma {:induction false} UpToLastSecond(s: seq<Sample>, f: int, l: int, a: nat, b: nat, c: nat, d: nat)
    requires Rising(s) && f < l && a < b <= c < d
    requires CutsAt(s, f, a) && CutsAt(s, f + 1, b) && CutsAt(s, l, c) && CutsAt(s, l + 1, d)
    ensures Bars(s[..d]) == Bars(s[..a]) + [OneBar(s[a..b])] + Bars(s[b..c]) + [OneBar(s[c..d])]
  {
    assert d <= |s|;
    hide *;
    OneSecondStretch(s, l, c, d, c, d);
    HeadPart(s, f, a, b);
    MiddleStretch(s, f, l, 0, b, c, d);
    assert s[0..d] == s[..d] && s[0..b] == s[..b];
  }

  lemma {:induction false} Assemble(whole: seq<Bar>, head: seq<Bar>, first: Bar, middle: seq<Bar>, last: Bar,
                                    tail: seq<Bar>)
    requires whole == head + [first] + middle + [last] + tail
    ensures |whole| >= |head| + |middle| + 2
    ensures whole[|head|] == first && whole[|head| + |middle| + 1] == last
    ensures whole[|head| + 1..|head| + 1 + |middle|] == middle
  {
  }

  lemma {:induction false} MiddleSeconds(s: seq<Sample>, f: int, l: int, b: nat, c: nat)
    requires Rising(s) && CutsAt(s, f + 1, b) && CutsAt(s, l, c) && b <= c
    ensures forall j :: 0 <= j < |Bars(s[b..c])| ==> f < Bars(s[b..c])[j].second < l
  {
    if b < c {
      RisingSlice(s, b, c);
      BarsAscend(s[b..c]);
      BarsEnds(s[b..c]);
      hide Bars;
      var middle := Bars(s[b..c]);
      forall j | 0 <= j < |middle| ensures f < middle[j].second < l {
        assert middle[0].second <= middle[j].second <= middle[|middle| - 1].second;
      }
    }
  }

  // ---------- Extremes ----------

  function MaxOf(s: seq<Sample>): real
    requires |s| > 0
  {
    if |s| == 1 then s[0].price
    else if s[|s| - 1].price > MaxOf(s[..|s| - 1]) then s[|s| - 1].price else MaxOf(s[..|s| - 1])
  }

  function MinOf(s: seq<Sample>): real
    requires |s| > 0
  {
    if |s| == 1 then s[0].price
    else if s[|s| - 1].price < MinOf(s[..|s| - 1]) then s[|s| - 1].price else MinOf(s[..|s| - 1])
  }

  /** The bar of samples that all fall into one second. */
  function OneBar(s: seq<Sample>): Bar
    requires |s| > 0
  {
    Bar(s[0].second, MaxOf(s), MinOf(s), s[|s| - 1].price)
  }

  /** The bar made for a second from whatever samples are counted to it. */
  function BarOf(second: int, prices: seq<Sample>): Bar
    requires |prices| > 0
  {
    Bar(second, MaxOf(prices), MinOf(prices), prices[|prices| - 1].price)
  }

  lemma {:induction false} BarsOfOneSecond(s: seq<Sample>)
    requires |s| > 0 && forall i :: 0 <= i < |s| ==> s[i].second == s[0].second
    ensures Bars(s) == [OneBar(s)]
  {
    if |s| > 1 {
      BarsOfOneSecond(s[..|s| - 1]);
    } else {
      assert s[..0] == [];
    }
  }

  function HighOf(bars: seq<Bar>): real
    requires |bars| > 0
  {
    if |bars| == 1 then bars[0].high
    else if bars[|bars| - 1].high > HighOf(bars[..|bars| - 1]) then bars[|bars| - 1].high
    else HighOf(bars[..|bars| - 1])
  }

  function LowOf(bars: seq<Bar>): real
    requires |bars| > 0
  {
    if |bars| == 1 then bars[0].low
    else if bars[|bars| - 1].low < LowOf(bars[..|bars| - 1]) then bars[|bars| - 1].low
    else LowOf(bars[..|bars| - 1])
  }

  lemma {:induction false} AddExtremes(bars: seq<Bar>, x: Sample)
    requires |bars| > 0
    ensures |AddSample(bars, x)| > 0
    ensures HighOf(AddSample(bars, x)) == if x.price > HighOf(bars) then x.price else HighOf(bars)
    ensures LowOf(AddSample(bars, x)) == if x.price < LowOf(bars) then x.price else LowOf(bars)
  {
    var more := AddSample(bars, x);
    assert more[..|more| - 1] == if |more| == |bars| then bars[..|bars| - 1] else bars;
  }

  /** The extremes of the bars are the extremes of the prices. */
  lemma {:induction false} BarExtremes(s: seq<Sample>)
    requires |s| > 0
    ensures |Bars(s)| > 0 && HighOf(Bars(s)) == MaxOf(s) && LowOf(Bars(s)) == MinOf(s)
  {
    if |s| > 1 {
      var n := |s| - 1;
      BarExtremes(s[..n]);
      AddExtremes(Bars(s[..n]), s[n]);
      hide HighOf, LowOf, AddSample;
    } else {
      assert s[..0] == [];
    }
  }

  lemma {:induction false} ExtremesBound(s: seq<Sample>)
    requires |s| > 0
    ensures forall i :: 0 <= i < |s| ==> MinOf(s) <= s[i].price <= MaxOf(s)
    ensures exists i :: 0 <= i < |s| && s[i].price == MaxOf(s)
    ensures exists i :: 0 <= i < |s| && s[i].price == MinOf(s)
  {
    var n := |s| - 1;
    if n > 0 {
      ExtremesBound(s[..n]);
      var i :| 0 <= i < n && s[..n][i].price == MaxOf(s[..n]);
      var j :| 0 <= j < n && s[..n][j].price == MinOf(s[..n]);
      assert s[i] == s[..n][i] && s[j] == s[..n][j] && s[n].price == s[n].price;
      forall k | 0 <= k < |s| ensures MinOf(s) <= s[k].price <= MaxOf(s) {
        assert k < n ==> s[..n][k] == s[k];
      }
    } else {
      assert s[0].price == MaxOf(s) == MinOf(s);
    }
  }

  // ---------- Average true range ----------

  function Abs(x: real): real {
    if x < 0.0 then -x else x
  }

  function Max(x: real, y: real): real {
    if y > x then y else x
  }

  function TrueRange(bar: Bar, previousClose: Option<real>): real {
    if previousClose.None? then bar.high - bar.low
    else Max(Max(bar.high - bar.low, Abs(bar.high - previousClose.value)), Abs(bar.low - previousClose.value))
  }

  /** The true range is the length of the least interval holding the bar and the previous close. */
  lemma {:induction false} TrueRangeSpansClose(bar: Bar, close: real)
    requires bar.low <= bar.high
    ensures TrueRange(bar, Some(close))
         == (if close > bar.high then close else bar.high) - (if close < bar.low then close else bar.low)
  {
  }

  function LastClose(bars: seq<Bar>): Option<real> {
    if |bars| == 0 then None else Some(bars[|bars| - 1].close)
  }

  function RangeSum(bars: seq<Bar>): real {
    if |bars| == 0 then 0.0
    else RangeSum(bars[..|bars| - 1]) + TrueRange(bars[|bars| - 1], LastClose(bars[..|bars| - 1]))
  }

  /** The average true range of at least two samples. */
  function Atr(s: seq<Sample>): Option<real> {
    if |s| < 2 || |Bars(s)| == 0 then None else Some(RangeSum(Bars(s)) / (|Bars(s)| as real))
  }

  lemma {:induction false} RangeStep(bars: seq<Bar>, i: nat)
    requires i < |bars|
    ensures RangeSum(bars[..i + 1]) == RangeSum(bars[..i]) + TrueRange(bars[i], LastClose(bars[..i]))
    ensures LastClose(bars[..i + 1]) == Some(bars[i].close)
  {
    assert bars[..i + 1][..i] == bars[..i];
  }

  /** How far bar `i` and the close before it reach. */
  ghost function ReachOf(bars: seq<Bar>): int -> real {
    (i: int) =>
      if 0 < i < |bars| then
        (if bars[i - 1].close > bars[i].high then bars[i - 1].close else bars[i].high)
        - (if bars[i - 1].close < bars[i].low then bars[i - 1].close else bars[i].low)
      else if i == 0 && |bars| > 0 then bars[0].high - bars[0].low
      else 0.0
  }

  /** The range sum adds up, bar by bar, the least interval holding the bar and the previous close. */
  lemma {:induction false} RangeSumIsTotal(bars: seq<Bar>)
    requires forall i :: 0 <= i < |bars| ==> bars[i].low <= bars[i].high
    ensures RangeSum(bars) == Total(ReachOf(bars), |bars|)
  {
    hide TrueRange, ReachOf;
    if |bars| > 0 {
      var n := |bars| - 1;
      RangeSumIsTotal(bars[..n]);
      ReachOfPrefix(bars, n);
      SameTotal(ReachOf(bars), ReachOf(bars[..n]), n);
      LastReach(bars);
    }
  }

  lemma {:induction false} ReachOfPrefix(bars: seq<Bar>, n: nat)
    requires n <= |bars|
    ensures forall i :: 0 <= i < n ==> ReachOf(bars)(i) == ReachOf(bars[..n])(i)
  {
  }

  lemma {:induction false} LastReach(bars: seq<Bar>)
    requires |bars| > 0 && bars[|bars| - 1].low <= bars[|bars| - 1].high
    ensures TrueRange(bars[|bars| - 1], LastClose(bars[..|bars| - 1])) == ReachOf(bars)(|bars| - 1)
  {
    hide TrueRange;
    var n := |bars| - 1;
    if n > 0 {
      TrueRangeSpansClose(bars[n], bars[n - 1].close);
    } else {
      RangeOfFirst(bars[n]);
    }
  }

  lemma {:induction false} RangeOfFirst(bar: Bar)
    ensures TrueRange(bar, None) == bar.high - bar.low
  {
  }

  /** The average true range of at least two samples is the mean of these reaches over their bars. */
  lemma {:induction false} AtrIsMeanReach(s: seq<Sample>)
    ensures Atr(s).Some? <==> |s| >= 2
    ensures |s| >= 2 ==> Atr(s).value * (|Bars(s)| as real) == Total(ReachOf(Bars(s)), |Bars(s)|)
  {
    hide Bars, RangeSum, Total, ReachOf;
    if |s| >= 2 {
      BarsEnds(s);
      BarsHoldPrices(s);
      RangeSumIsTotal(Bars(s));
      TimesQuotient(RangeSum(Bars(s)), |Bars(s)| as real);
    }
  }

  lemma {:induction false} TimesQuotient(x: real, n: real)
    requires n != 0.0
    ensures (x / n) * n == x
  {
  }

  lemma {:induction false} BarsHoldPrices(s: seq<Sample>)
    ensures forall i :: 0 <= i < |Bars(s)| ==> Bars(s)[i].low <= Bars(s)[i].high
  {
    if |s| > 0 {
      BarsHoldPrices(s[..|s| - 1]);
    }
  }

  lemma {:induction false} NoRanges()
    ensures RangeSum([]) == 0.0 && LastClose([]) == None
  {
  }

  method AverageRange(bars: seq<Bar>) returns (r: real)
    requires |bars| > 0
    ensures r == RangeSum(bars) / (|bars| as real)
  {
    var previousClose: Option<real> := None;
    var total := 0.0;
    for i := 0 to |bars|
      invariant total == RangeSum(bars[..i]) && previousClose == LastClose(bars[..i])
    {
      RangeStep(bars, i);
      hide RangeSum, TrueRange;
      total := total + TrueRange(bars[i], previousClose);
      previousClose := Some(bars[i].close);
    }
    assert bars[..|bars|] == bars;
    r := total / (|bars| as real);
  }

  // ---------- The reference: group by second, then sort the seconds ----------

  function PricesToBar(second: int, prices: seq<real>): Bar
    requires |prices| > 0
  {
    if |prices| == 1 then Bar(second, prices[0], prices[0], prices[0])
    else PricesToBar(second, prices[..|prices| - 1]).Append(prices[|prices| - 1])
  }

  /** Python's dict of groups: its keys in insertion order, and the prices by second. */
  datatype Groups = Groups(order: seq<int>, prices: map<int, seq<real>>)
  {
    function Get(second: int): seq<real> {
      if second in prices then prices[second] else []
    }

    function Add(x: Sample): Groups {
      Groups(if x.second in prices then order else order + [x.second], prices[x.second := Get(x.second) + [x.price]])
    }
  }

  /** The groups hold, second by second, exactly the prices the bars were made of. */
  ghost predicate GroupsMatch(groups: Groups, bars: seq<Bar>) {
    && |groups.order| == |bars|
    && (forall k :: k in groups.prices ==> k in groups.order)
    && (forall j :: 0 <= j < |bars| ==>
          && groups.order[j] == bars[j].second && bars[j].second in groups.prices
          && |groups.prices[bars[j].second]| > 0
          && PricesToBar(bars[j].second, groups.prices[bars[j].second]) == bars[j])
  }

  function Second(second: int): int {
    second
  }

  /** The naive computation agrees with the incremental bars on samples in time order. */
  method OneSecondAtr(samples: seq<Sample>) returns (r: Option<real>)
    requires Rising(samples)
    ensures r == Atr(samples)
  {
    if |samples| < 2 {
      return None;
    }
    var groups := Group(samples);
    BarsAscend(samples);
    BarsEnds(samples);
    var average := AverageOfGroups(groups, Bars(samples));
    return Some(average);
  }

  /** The second loop of the reference: over the groups in the order of their seconds. */
  method AverageOfGroups(groups: Groups, ghost bars: seq<Bar>) returns (r: real)
    requires GroupsMatch(groups, bars) && Ascending(bars) && |bars| > 0
    ensures r == RangeSum(bars) / (|bars| as real)
  {
    hide Ascending, GroupsMatch, RangeSum, TrueRange, LastClose, PricesToBar, SortByKey;
    KeysAreSorted(groups, bars);
    NoRanges();
    var seconds := SortByKey(Second, groups.order);
    assert bars[..0] == [];
    var previousClose: Option<real> := None;
    var total := 0.0;
    for i := 0 to |seconds|
      invariant total == RangeSum(bars[..i]) && previousClose == LastClose(bars[..i])
    {
      RangeStep(bars, i);
      GroupAt(groups, bars, i);
      var bar := PricesToBar(seconds[i], groups.prices[seconds[i]]);
      total := total + TrueRange(bar, previousClose);
      previousClose := Some(bar.close);
    }
    assert bars[..|bars|] == bars;
    r := total / (|seconds| as real);
  }

  lemma {:induction false} KeysAreSorted(groups: Groups, bars: seq<Bar>)
    requires GroupsMatch(groups, bars) && Ascending(bars)
    ensures SortByKey(Second, groups.order) == groups.order && |groups.order| == |bars|
  {
    SortByKeyStays(Second, groups.order);
  }

  lemma {:induction false} GroupAt(groups: Groups, bars: seq<Bar>, i: nat)
    requires GroupsMatch(groups, bars) && i < |bars|
    ensures i < |groups.order| && groups.order[i] in groups.prices
    ensures |groups.prices[groups.order[i]]| > 0
    ensures PricesToBar(groups.order[i], groups.prices[groups.order[i]]) == bars[i]
  {
  }

  method Group(samples: seq<Sample>) returns (groups: Groups)
    requires Rising(samples)
    ensures GroupsMatch(groups, Bars(samples))
  {
    groups := Groups([], map[]);
    for i := 0 to |samples|
      invariant GroupsMatch(groups, Bars(samples[..i]))
    {
      GroupSample(groups, samples, i);
      hide GroupsMatch, Bars;
      groups := groups.Add(samples[i]);
    }
    assert samples[..|samples|] == samples;
  }

  lemma {:induction false} GroupSample(groups: Groups, samples: seq<Sample>, i: nat)
    requires i < |samples| && Rising(samples) && GroupsMatch(groups, Bars(samples[..i]))
    ensures GroupsMatch(groups.Add(samples[i]), Bars(samples[..i + 1]))
  {
    assert i > 0 ==> samples[i - 1].second <= samples[i].second;
    hide GroupsMatch, AddSample, Rising, Ascending;
    RisingSlice(samples, 0, i);
    assert samples[0..i] == samples[..i];
    BarsAscend(samples[..i]);
    if i > 0 {
      BarsEnds(samples[..i]);
    }
    assert samples[..i + 1][..i] == samples[..i];
    GroupStep(groups, Bars(samples[..i]), samples[i]);
  }

  /** A known second can only be that of the last bar. */
  lemma {:induction false} SecondIsLast(groups: Groups, bars: seq<Bar>, x: Sample)
    requires GroupsMatch(groups, bars) && Ascending(bars)
    requires |bars| > 0 ==> bars[|bars| - 1].second <= x.second
    ensures x.second in groups.prices <==> |bars| > 0 && bars[|bars| - 1].second == x.second
    ensures forall j :: 0 <= j < |bars| - 1 ==> bars[j].second != x.second
  {
    if x.second in groups.prices {
      var j :| 0 <= j < |groups.order| && groups.order[j] == x.second;
    }
  }

  lemma {:induction false} GroupStep(groups: Groups, bars: seq<Bar>, x: Sample)
    requires GroupsMatch(groups, bars) && Ascending(bars)
    requires |bars| > 0 ==> bars[|bars| - 1].second <= x.second
    ensures GroupsMatch(groups.Add(x), AddSample(bars, x))
  {
    SecondIsLast(groups, bars, x);
    hide Ascending;
    var more, added := AddSample(bars, x), groups.Add(x);
    LastGroup(groups, bars, x);
    forall j | 0 <= j < |more| - 1
      ensures added.order[j] == more[j].second && more[j].second in added.prices
      ensures |added.prices[more[j].second]| > 0
      ensures PricesToBar(more[j].second, added.prices[more[j].second]) == more[j]
    {
      hide PricesToBar;
      assert more[j] == bars[j];
    }
  }

  /** The bar of the group that received the sample. */
  lemma {:induction false} LastGroup(groups: Groups, bars: seq<Bar>, x: Sample)
    requires GroupsMatch(groups, bars)
    requires x.second in groups.prices <==> |bars| > 0 && bars[|bars| - 1].second == x.second
    ensures PricesToBar(x.second, groups.Get(x.second) + [x.price]) == AddSample(bars, x)[|AddSample(bars, x)| - 1]
  {
    var prices := groups.Get(x.second) + [x.price];
    assert prices[..|prices| - 1] == groups.Get(x.second);
  }
}
