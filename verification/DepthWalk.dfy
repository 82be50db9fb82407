/**
 Walking one side of a book for a target notional, over exact reals: what is spent and
 acquired, and the slippage of the average price against the mid price.
 */
module DepthWalk {
  import opened Common
  import opened Levels

  datatype Fill = Fill(acquired: real, spent: real, remaining: real)

  function Worth(level: Level): real {
    level.price * level.quantity
  }

  function Share(used: real, price: real): real
    requires price != 0.0
  {
    used / price
  }

  function Used(level: Level, remaining: real): real {
    if Worth(level) < remaining then Worth(level) else remaining
  }

  /** One iteration; nothing is used once nothing remains. */
  function Take(fill: Fill, level: Level): Fill {
    var used := Used(level, fill.remaining);
    if used > 0.0 then
      assert level.price != 0.0;
      Fill(fill.acquired + Share(used, level.price), fill.spent + used, fill.remaining - used)
    else fill
  }

  function Walk(levels: seq<Level>, target: real): Fill {
    if |levels| == 0 then Fill(0.0, 0.0, target)
    else Take(Walk(levels[..|levels| - 1], target), levels[|levels| - 1])
  }

  function Slippage(levels: seq<Level>, target: real, mid: real, buy: bool): Option<real>
    requires mid != 0.0
  {
    var fill := Walk(levels, target);
    if fill.remaining > 0.0 || fill.acquired <= 0.0 then None
    else
      var relative := fill.spent / fill.acquired / mid - 1.0;
      Some((if buy then relative else -relative) * 10_000.0)
  }

  /**
   What the slippage means: the average price is the mid price moved by so many hundredths of a
   percent, upwards for a buyer and downwards for a seller.
   */
  lemma {:induction false} SlippageMeans(levels: seq<Level>, target: real, mid: real, buy: bool)
    requires mid != 0.0
    ensures var fill, slippage := Walk(levels, target), Slippage(levels, target, mid, buy);
            && (slippage.Some? <==> fill.remaining <= 0.0 && fill.acquired > 0.0)
            && (slippage.Some? ==>
                  fill.spent / fill.acquired * 10_000.0
                  == mid * (10_000.0 + (if buy then slippage.value else -slippage.value)))
  {
    hide Walk;
    var fill := Walk(levels, target);
    if fill.remaining <= 0.0 && fill.acquired > 0.0 {
      MovedMid(fill.spent / fill.acquired, mid);
    }
  }

  lemma {:induction false} MovedMid(average: real, mid: real)
    requires mid != 0.0
    ensures mid * (10_000.0 + (average / mid - 1.0) * 10_000.0) == average * 10_000.0
  {
    var ratio := average / mid;
    assert ratio * mid == average;
  }

  /** Breaking off early changes nothing: with nothing remaining the walk stands still. */
  lemma {:induction false} WalkStands(levels: seq<Level>, target: real, i: nat)
    requires i <= |levels| && Walk(levels[..i], target).remaining <= 0.0
    ensures Walk(levels, target) == Walk(levels[..i], target)
    decreases |levels|
  {
    if i < |levels| {
      var n := |levels| - 1;
      assert levels[..n][..i] == levels[..i];
      WalkStands(levels[..n], target, i);
    } else {
      assert levels[..i] == levels;
    }
  }

  lemma {:induction false} UsedNeedsPrice(level: Level, remaining: real)
    ensures Used(level, remaining) > 0.0 ==> level.price != 0.0
  {
  }

  method DepthWalkBps(levels: seq<Level>, target: real, mid: real, buy: bool) returns (r: Option<real>)
    requires mid != 0.0
    ensures r == Slippage(levels, target, mid, buy)
  {
    hide Worth, Share;
    var remaining, acquired, spent := target, 0.0, 0.0;
    var i := 0;
    while i < |levels|
      invariant i <= |levels| && Fill(acquired, spent, remaining) == Walk(levels[..i], target)
    {
      assert levels[..i + 1][..i] == levels[..i];
      UsedNeedsPrice(levels[i], remaining);
      var available := Worth(levels[i]);
      var used := if available < remaining then available else remaining;
      if used > 0.0 {
        acquired := acquired + Share(used, levels[i].price);
        spent := spent + used;
        remaining := remaining - used;
      }
      i := i + 1;
      if remaining <= 0.0 {
        break;
      }
    }
    if remaining <= 0.0 {
      WalkStands(levels, target, i);
    }
    assert i == |levels| ==> levels[..i] == levels;
    if remaining > 0.0 || acquired <= 0.0 {
      return None;
    }
    var average := spent / acquired;
    var relative := average / mid - 1.0;
    return Some((if buy then relative else -relative) * 10_000.0);
  }

  // ---------- What the walk spends ----------

  ghost predicate Positive(levels: seq<Level>) {
    forall i :: 0 <= i < |levels| ==> levels[i].price > 0.0 && levels[i].quantity > 0.0
  }

  function Notional(levels: seq<Level>): real {
    if |levels| == 0 then 0.0
    else Notional(levels[..|levels| - 1]) + Worth(levels[|levels| - 1])
  }

  lemma {:induction false} NotionalIsPositive(levels: seq<Level>)
    requires Positive(levels)
    ensures Notional(levels) >= 0.0 && (|levels| > 0 ==> Notional(levels) > 0.0)
  {
    hide Worth;
    if |levels| > 0 {
      NotionalIsPositive(levels[..|levels| - 1]);
      WorthIsPositive(levels[|levels| - 1]);
    }
  }

  lemma {:induction false} WorthIsPositive(level: Level)
    requires level.price > 0.0 && level.quantity > 0.0
    ensures Worth(level) > 0.0
  {
  }

  lemma {:induction false} ShareIsPositive(used: real, price: real)
    requires used > 0.0 && price > 0.0
    ensures Share(used, price) > 0.0 && Share(used, price) * price == used
  {
  }

  /** Spent and remaining always make the target, for any levels at all. */
  lemma {:induction false} SpentAndRemaining(levels: seq<Level>, target: real)
    ensures var fill := Walk(levels, target);
            && fill.spent + fill.remaining == target && fill.spent >= 0.0
            && (target >= 0.0 ==> fill.remaining >= 0.0)
  {
    hide Worth, Share;
    if |levels| > 0 {
      SpentAndRemaining(levels[..|levels| - 1], target);
    }
  }

  /** A target fills exactly when the side holds it, and is then spent exactly. */
  lemma {:induction false} FillsIffDeepEnough(levels: seq<Level>, target: real, mid: real, buy: bool)
    requires Positive(levels) && target > 0.0 && mid != 0.0
    ensures Walk(levels, target).spent == if Notional(levels) < target then Notional(levels) else target
    ensures Walk(levels, target).spent > 0.0 <==> Walk(levels, target).acquired > 0.0
    ensures Slippage(levels, target, mid, buy).Some? <==> Notional(levels) >= target
  {
    hide Walk, Notional;
    SpentIsCappedDepth(levels, target);
    SpentAndRemaining(levels, target);
  }

  lemma {:induction false} SpentIsCappedDepth(levels: seq<Level>, target: real)
    requires Positive(levels) && target > 0.0
    ensures Walk(levels, target).spent == if Notional(levels) < target then Notional(levels) else target
    ensures Walk(levels, target).acquired >= 0.0
    ensures Walk(levels, target).spent > 0.0 <==> Walk(levels, target).acquired > 0.0
  {
    hide Worth, Share;
    if |levels| > 0 {
      var n := |levels| - 1;
      SpentIsCappedDepth(levels[..n], target);
      SpentAndRemaining(levels[..n], target);
      NotionalIsPositive(levels[..n]);
      WorthIsPositive(levels[n]);
      var used := Used(levels[n], Walk(levels[..n], target).remaining);
      if used > 0.0 {
        ShareIsPositive(used, levels[n].price);
      }
    }
  }

  // ---------- The average price ----------

  /** Prices get worse along the side: up for a buyer, down for a seller. */
  ghost predicate Worsening(levels: seq<Level>, buy: bool) {
    forall i, j :: 0 <= i < j < |levels| ==>
      if buy then levels[i].price <= levels[j].price else levels[i].price >= levels[j].price
  }

  /** `lo` and `hi` bound the price of every level that is touched. */
  ghost predicate TouchedWithin(levels: seq<Level>, target: real, lo: real, hi: real) {
    forall i :: 0 <= i < |levels| && Walk(levels[..i], target).remaining > 0.0 ==> lo <= levels[i].price <= hi
  }

  /** A product kept apart, so that sums of them stay linear. */
  function Times(price: real, acquired: real): real {
    price * acquired
  }

  lemma {:induction false} TimesLaws(price: real, x: real, y: real)
    ensures Times(price, 0.0) == 0.0
    ensures Times(price, x + y) == Times(price, x) + Times(price, y)
    ensures Times(price, x - y) == Times(price, x) - Times(price, y)
  {
  }

  lemma {:induction false} ShareWithin(used: real, price: real, lo: real, hi: real)
    requires used > 0.0 && price > 0.0 && lo <= price <= hi
    ensures Times(lo, Share(used, price)) <= used <= Times(hi, Share(used, price))
  {
    ShareIsPositive(used, price);
    hide Share;
    Scale(Share(used, price), lo, price);
    Scale(Share(used, price), price, hi);
  }

  lemma {:induction false} Scale(share: real, a: real, b: real)
    requires share >= 0.0 && a <= b
    ensures a * share <= b * share
  {
  }

  /** The average price lies between the best and the worst price touched. */
  lemma {:induction false} AverageWithin(levels: seq<Level>, target: real, lo: real, hi: real)
    requires Positive(levels) && target > 0.0 && TouchedWithin(levels, target, lo, hi)
    ensures var fill := Walk(levels, target);
            fill.acquired > 0.0 ==> lo <= fill.spent / fill.acquired <= hi
  {
    SpentWithin(levels, target, lo, hi);
    hide *;
    var fill := Walk(levels, target);
    if fill.acquired > 0.0 {
      AverageFrom(fill.spent, fill.acquired, lo, hi);
    }
  }

  lemma {:induction false} SpentWithin(levels: seq<Level>, target: real, lo: real, hi: real)
    requires Positive(levels) && target > 0.0 && TouchedWithin(levels, target, lo, hi)
    ensures var fill := Walk(levels, target); Times(lo, fill.acquired) <= fill.spent <= Times(hi, fill.acquired)
  {
    hide Worth, Share, Times;
    TimesLaws(lo, 0.0, 0.0);
    TimesLaws(hi, 0.0, 0.0);
    if |levels| > 0 {
      var n := |levels| - 1;
      TouchedPrefix(levels, target, lo, hi);
      SpentWithin(levels[..n], target, lo, hi);
      var before := Walk(levels[..n], target);
      var used := Used(levels[n], before.remaining);
      if used > 0.0 {
        ShareWithin(used, levels[n].price, lo, hi);
        TimesLaws(lo, before.acquired, Share(used, levels[n].price));
        TimesLaws(hi, before.acquired, Share(used, levels[n].price));
      }
    }
  }

  lemma {:induction false} TouchedPrefix(levels: seq<Level>, target: real, lo: real, hi: real)
    requires TouchedWithin(levels, target, lo, hi) && |levels| > 0
    ensures TouchedWithin(levels[..|levels| - 1], target, lo, hi)
    ensures Walk(levels[..|levels| - 1], target).remaining > 0.0 ==> lo <= levels[|levels| - 1].price <= hi
  {
    hide Walk;
    var n := |levels| - 1;
    forall i | 0 <= i < n && Walk(levels[..n][..i], target).remaining > 0.0 ensures lo <= levels[..n][i].price <= hi {
      assert levels[..n][..i] == levels[..i];
    }
  }

  lemma {:induction false} AverageFrom(spent: real, acquired: real, lo: real, hi: real)
    requires acquired > 0.0 && Times(lo, acquired) <= spent <= Times(hi, acquired)
    ensures lo <= spent / acquired <= hi
  {
    var average := spent / acquired;
    assert average * acquired == spent;
  }

  // ---------- Slippage grows with the target ----------

  /**
   Around a pivot price: levels that leave something remaining are not worse than it, levels
   that the smaller target fills at or before are not better.
   */
  ghost predicate Pivots(levels: seq<Level>, small: real, pivot: real, buy: bool) {
    forall i :: 0 <= i < |levels| ==> PivotAt(levels, i, small, pivot, buy)
  }

  ghost predicate PivotAt(levels: seq<Level>, i: nat, small: real, pivot: real, buy: bool)
    requires i < |levels|
  {
    && (Walk(levels[..i], small).remaining > 0.0 ==> NotWorse(levels[i].price, pivot, buy))
    && (Walk(levels[..i + 1], small).remaining <= 0.0 ==> NotWorse(pivot, levels[i].price, buy))
  }

  predicate NotWorse(a: real, b: real, buy: bool) {
    if buy then a <= b else a >= b
  }

  /** `x` is at least `y` for a buyer, at most for a seller. */
  predicate AtLeast(x: real, y: real, buy: bool) {
    if buy then x >= y else x <= y
  }

  lemma {:induction false} PivotsPrefix(levels: seq<Level>, small: real, pivot: real, buy: bool)
    requires Pivots(levels, small, pivot, buy) && |levels| > 0
    ensures var n := |levels| - 1;
            && Pivots(levels[..n], small, pivot, buy)
            && (Walk(levels[..n], small).remaining > 0.0 ==> NotWorse(levels[n].price, pivot, buy))
            && (Walk(levels, small).remaining <= 0.0 ==> NotWorse(pivot, levels[n].price, buy))
  {
    hide Walk, NotWorse;
    var n := |levels| - 1;
    assert levels[..n + 1] == levels && PivotAt(levels, n, small, pivot, buy);
    forall i | 0 <= i < n ensures PivotAt(levels[..n], i, small, pivot, buy) {
      assert PivotAt(levels, i, small, pivot, buy);
      assert levels[..n][..i] == levels[..i] && levels[..n][..i + 1] == levels[..i + 1];
    }
  }

  /** The fill of the smaller target against that of the larger one. */
  ghost predicate Ahead(a: Fill, b: Fill, pivot: real, buy: bool) {
    && a.remaining <= b.remaining && a.spent <= b.spent
    && (a.remaining > 0.0 ==> a.acquired == b.acquired && a.spent == b.spent)
    && AtLeast(Times(pivot, a.acquired), a.spent, buy)
    && AtLeast(b.spent - a.spent, Times(pivot, b.acquired - a.acquired), buy)
  }

  lemma {:induction false} SharesAroundPivot(used: real, price: real, pivot: real, buy: bool)
    requires used > 0.0 && price > 0.0
    ensures NotWorse(price, pivot, buy) ==> AtLeast(Times(pivot, Share(used, price)), used, buy)
    ensures NotWorse(pivot, price, buy) ==> AtLeast(used, Times(pivot, Share(used, price)), buy)
  {
    ShareIsPositive(used, price);
    hide Share;
    if price <= pivot {
      Scale(Share(used, price), price, pivot);
    } else {
      Scale(Share(used, price), pivot, price);
    }
  }

  lemma {:induction false} ShareGrows(a: real, b: real, price: real)
    requires 0.0 < a <= b && price > 0.0
    ensures Share(b, price) - Share(a, price) == if a == b then 0.0 else Share(b - a, price)
  {
  }

  /**
   The larger target acquires its extra amount at no better than the pivot price, the smaller
   one everything at no worse.
   */
  lemma {:induction false} AroundPivot(levels: seq<Level>, small: real, large: real, pivot: real, buy: bool)
    requires Positive(levels) && 0.0 < small <= large && Pivots(levels, small, pivot, buy)
    ensures Ahead(Walk(levels, small), Walk(levels, large), pivot, buy)
  {
    hide Worth, Share, Times, Take;
    TimesLaws(pivot, 0.0, 0.0);
    if |levels| > 0 {
      var n := |levels| - 1;
      PivotsPrefix(levels, small, pivot, buy);
      AroundPivot(levels[..n], small, large, pivot, buy);
      SpentAndRemaining(levels[..n], small);
      hide Ahead, Pivots;
      PivotStep(Walk(levels[..n], small), Walk(levels[..n], large), levels[n], pivot, buy);
    }
  }

  lemma {:induction false} PivotStep(a: Fill, b: Fill, level: Level, pivot: real, buy: bool)
    requires level.price > 0.0 && level.quantity > 0.0 && a.remaining >= 0.0 && Ahead(a, b, pivot, buy)
    requires a.remaining > 0.0 ==> NotWorse(level.price, pivot, buy)
    requires Take(a, level).remaining <= 0.0 ==> NotWorse(pivot, level.price, buy)
    ensures Ahead(Take(a, level), Take(b, level), pivot, buy)
  {
    hide Worth, Share, Times;
    WorthIsPositive(level);
    var first, second := Used(level, a.remaining), Used(level, b.remaining);
    if first > 0.0 {
      SharesAroundPivot(first, level.price, pivot, buy);
      TimesLaws(pivot, a.acquired, Share(first, level.price));
      ShareGrows(first, second, level.price);
      if second > first {
        ExtraShare(b.acquired - a.acquired, Share(first, level.price), Share(second, level.price), second - first,
                   level, pivot, buy);
      }
    } else if second > 0.0 {
      SharesAroundPivot(second, level.price, pivot, buy);
      TimesLaws(pivot, b.acquired - a.acquired, Share(second, level.price));
    }
  }

  lemma {:induction false} ExtraShare(gap: real, first: real, second: real, extra: real, level: Level, pivot: real,
                                      buy: bool)
    requires level.price > 0.0 && extra > 0.0 && second - first == Share(extra, level.price)
    ensures Times(pivot, gap + (second - first)) == Times(pivot, gap) + Times(pivot, Share(extra, level.price))
    ensures NotWorse(pivot, level.price, buy) ==> AtLeast(extra, Times(pivot, Share(extra, level.price)), buy)
  {
    SharesAroundPivot(extra, level.price, pivot, buy);
    hide Share;
    TimesLaws(pivot, gap, second - first);
  }

  /** The level on which the target is filled. */
  lemma {:induction false} FillingLevel(levels: seq<Level>, target: real) returns (k: nat)
    requires target > 0.0 && Walk(levels, target).remaining <= 0.0
    ensures k < |levels|
    ensures forall i :: 0 <= i <= |levels| ==> (Walk(levels[..i], target).remaining <= 0.0 <==> k < i)
    decreases |levels|
  {
    var n := |levels| - 1;
    assert levels[..|levels|] == levels;
    if Walk(levels[..n], target).remaining <= 0.0 {
      k := FillingLevel(levels[..n], target);
      hide Walk;
      forall i | 0 <= i <= n ensures levels[..n][..i] == levels[..i] {
      }
    } else {
      k := n;
      forall i | 0 <= i <= n ensures Walk(levels[..i], target).remaining > 0.0 {
        if Walk(levels[..i], target).remaining <= 0.0 {
          assert levels[..n][..i] == levels[..i];
          WalkStands(levels[..n], target, i);
        }
      }
    }
  }

  /** On a sorted side, between the first price and the price of the level that filled. */
  lemma {:induction false} AverageBetweenEnds(levels: seq<Level>, target: real, buy: bool) returns (k: nat)
    requires Positive(levels) && Worsening(levels, buy) && target > 0.0 && Walk(levels, target).remaining <= 0.0
    ensures k < |levels| && Walk(levels[..k], target).remaining > 0.0 >= Walk(levels[..k + 1], target).remaining
    ensures var fill := Walk(levels, target);
            && fill.spent == target && fill.acquired > 0.0
            && NotWorse(levels[0].price, fill.spent / fill.acquired, buy)
            && NotWorse(fill.spent / fill.acquired, levels[k].price, buy)
  {
    k := FillingLevel(levels, target);
    FillsIffDeepEnough(levels, target, 1.0, buy);
    SpentAndRemaining(levels, target);
    var first, last := levels[0].price, levels[k].price;
    var lo, hi := if buy then first else last, if buy then last else first;
    assert TouchedWithin(levels, target, lo, hi) by {
      hide Walk;
    }
    AverageWithin(levels, target, lo, hi);
  }

  lemma {:induction false} PivotOf(levels: seq<Level>, small: real, buy: bool) returns (pivot: real)
    requires Positive(levels) && Worsening(levels, buy) && small > 0.0 && Walk(levels, small).remaining <= 0.0
    ensures pivot > 0.0 && Pivots(levels, small, pivot, buy)
  {
    var k := FillingLevel(levels, small);
    hide Walk;
    pivot := levels[k].price;
    forall i | 0 <= i < |levels| ensures PivotAt(levels, i, small, pivot, buy) {
    }
  }

  lemma {:induction false} TimesMonotone(x: real, y: real, z: real)
    requires z >= 0.0 && x <= y
    ensures x * z <= y * z
  {
  }

  lemma {:induction false} CancelFactor(p: real, x: real, y: real)
    requires p > 0.0 && p * x <= p * y
    ensures x <= y
  {
  }

  lemma {:induction false} Regroup(p: real, x: real, y: real)
    ensures x * (p * y) == p * (x * y) && (p * x) * y == p * (x * y)
  {
  }

  /** With amount `t` at no worse than `p` and extra `e` at no better, the average only worsens. */
  lemma {:induction false} CrossMultiply(p: real, acquired: real, extra: real, t: real, e: real, buy: bool)
    requires p > 0.0 && t > 0.0 && e >= 0.0
    requires AtLeast(p * acquired, t, buy) && AtLeast(e, p * extra, buy)
    ensures AtLeast(acquired * e, t * extra, buy)
  {
    Regroup(p, t, extra);
    Regroup(p, acquired, e);
    if buy {
      TimesMonotone(p * extra, e, t);
      TimesMonotone(t, p * acquired, e);
      CancelFactor(p, t * extra, acquired * e);
    } else {
      TimesMonotone(e, p * extra, t);
      TimesMonotone(p * acquired, t, e);
      CancelFactor(p, acquired * e, t * extra);
    }
  }

  lemma {:induction false} QuotientOrder(a: real, b: real, c: real, d: real)
    requires b > 0.0 && d > 0.0 && a * d <= c * b
    ensures a / b <= c / d
  {
    var x, y := a / b, c / d;
    assert a == x * b && c == y * d;
    Regroup(b, x, d);
    Regroup(b, y, d);
    assert x * b * d <= y * d * b;
    if x > y {
      StrictProduct(x, y, b);
      StrictProduct(x * b, y * b, d);
    }
  }

  lemma {:induction false} StrictProduct(x: real, y: real, z: real)
    requires x > y && z > 0.0
    ensures x * z > y * z
  {
  }

  lemma {:induction false} AverageWorsens(p: real, acquired: real, more: real, small: real, large: real, buy: bool)
    requires p > 0.0 && acquired > 0.0 && more > 0.0 && 0.0 < small <= large
    requires AtLeast(p * acquired, small, buy) && AtLeast(large - small, p * (more - acquired), buy)
    ensures AtLeast(large / more, small / acquired, buy)
  {
    CrossMultiply(p, acquired, more - acquired, small, large - small, buy);
    assert acquired * (large - small) == acquired * large - acquired * small;
    assert small * (more - acquired) == small * more - small * acquired;
    if buy {
      QuotientOrder(small, acquired, large, more);
    } else {
      QuotientOrder(large, more, small, acquired);
    }
  }

  lemma {:induction false} RelativeOrder(x: real, y: real, mid: real)
    requires mid > 0.0 && x <= y
    ensures x / mid <= y / mid
  {
  }

  /** A larger target never has less slippage, and fills only where the smaller one does. */
  lemma {:induction false} SlippageGrows(levels: seq<Level>, small: real, large: real, mid: real, buy: bool)
    requires Positive(levels) && Worsening(levels, buy) && 0.0 < small <= large && mid > 0.0
    requires Slippage(levels, large, mid, buy).Some?
    ensures Slippage(levels, small, mid, buy).Some?
    ensures Slippage(levels, small, mid, buy).value <= Slippage(levels, large, mid, buy).value
  {
    hide Walk, Notional, Positive, Worsening, Pivots;
    FillsIffDeepEnough(levels, large, mid, buy);
    FillsIffDeepEnough(levels, small, mid, buy);
    SpentAndRemaining(levels, small);
    SpentAndRemaining(levels, large);
    var pivot := PivotOf(levels, small, buy);
    AroundPivot(levels, small, large, pivot, buy);
    var a, b := Walk(levels, small), Walk(levels, large);
    AverageWorsens(pivot, a.acquired, b.acquired, small, large, buy);
    if buy {
      RelativeOrder(small / a.acquired, large / b.acquired, mid);
    } else {
      RelativeOrder(large / b.acquired, small / a.acquired, mid);
    }
  }
}
