/**
 Price levels, and the exchange's book as a history of absolute level writes.

 The exchange is the reference every local book is compared with: update `n`
 overwrites the quantities of some prices, and the book at sequence id `n` is the
 result of all writes up to `n`.
 */
module Levels {

  /** One side of a book: positive resting quantities by price. */
  type Side = map<real, real>

  datatype Level = Level(price: real, quantity: real)

  datatype Book = Book(bids: Side, asks: Side)

  type Quantity = q: real | q >= 0.0

  /** For each update id, the prices it overwrites on one side; quantity zero deletes. */
  type WriteLog = int -> map<real, Quantity>

  datatype History = History(bids: WriteLog, asks: WriteLog)

  function QuantityAt(side: Side, price: real): real {
    if price in side then side[price] else 0.0
  }

  ghost predicate Positive(side: Side) {
    forall p :: p in side ==> side[p] > 0.0
  }

  function Overwrite(side: Side, writes: map<real, Quantity>): Side {
    map p | p in side.Keys + writes.Keys && (p in writes ==> writes[p] > 0.0)
      :: if p in writes then writes[p] else side[p]
  }

  /** One side of the exchange's book at sequence id `n`. */
  function SideAt(log: WriteLog, n: int): Side
    decreases if n > 0 then n else 0
  {
    if n <= 0 then map[] else Overwrite(SideAt(log, n - 1), log(n))
  }

  function BookAt(history: History, n: int): Book {
    Book(SideAt(history.bids, n), SideAt(history.asks, n))
  }

  function ApplyLevel(side: Side, level: Level): Side {
    if level.quantity == 0.0 then side - {level.price} else side[level.price := level.quantity]
  }

  /** Levels are absolute: each replaces or deletes its price, later levels last. */
  function ApplyLevels(side: Side, levels: seq<Level>): Side
    decreases |levels|
  {
    if |levels| == 0 then side
    else ApplyLevel(ApplyLevels(side, levels[..|levels| - 1]), levels[|levels| - 1])
  }

  /** A side built from scratch: non-positive quantities are ignored. */
  function SideOf(levels: seq<Level>): Side
    decreases |levels|
  {
    if |levels| == 0 then map[]
    else
      var last := levels[|levels| - 1];
      var side := SideOf(levels[..|levels| - 1]);
      if last.quantity > 0.0 then side[last.price := last.quantity] else side
  }

  method ApplySide(side: Side, levels: seq<Level>) returns (result: Side)
    ensures result == ApplyLevels(side, levels)
  {
    result := side;
    for i := 0 to |levels|
      invariant result == ApplyLevels(side, levels[..i])
    {
      assert levels[..i + 1][..i] == levels[..i];
      if levels[i].quantity == 0.0 {
        result := result - {levels[i].price};
      } else {
        result := result[levels[i].price := levels[i].quantity];
      }
    }
    assert levels[..|levels|] == levels;
  }

  method SnapshotSide(levels: seq<Level>) returns (result: Side)
    ensures result == SideOf(levels)
  {
    result := map[];
    for i := 0 to |levels|
      invariant result == SideOf(levels[..i])
    {
      assert levels[..i + 1][..i] == levels[..i];
      if levels[i].quantity > 0.0 {
        result := result[levels[i].price := levels[i].quantity];
      }
    }
    assert levels[..|levels|] == levels;
  }

  // ---------- What the exchange promises about its messages ----------

  ghost predicate Mentions(levels: seq<Level>, price: real) {
    exists i :: 0 <= i < |levels| && levels[i].price == price
  }

  /** Every listed level shows the exchange's quantity at `n`. */
  ghost predicate Shows(log: WriteLog, levels: seq<Level>, n: int) {
    forall i :: 0 <= i < |levels| ==> levels[i].quantity == QuantityAt(SideAt(log, n), levels[i].price)
  }

  /** The levels show state `upTo` and list every price written after `after`. */
  ghost predicate Carries(log: WriteLog, levels: seq<Level>, after: int, upTo: int) {
    && Shows(log, levels, upTo)
    && forall n, p :: after < n <= upTo && p in log(n) ==> Mentions(levels, p)
  }

  /** The levels list the whole side at `n`. */
  ghost predicate ListsAll(log: WriteLog, levels: seq<Level>, n: int) {
    && Shows(log, levels, n)
    && forall p :: p in SideAt(log, n) ==> Mentions(levels, p)
  }

  // ---------- Lemmas ----------

  lemma {:induction false} SidesAreEqual(a: Side, b: Side)
    requires Positive(a) && Positive(b)
    requires forall p :: QuantityAt(a, p) == QuantityAt(b, p)
    ensures a == b
  {
    forall p ensures p in a <==> p in b {
      assert QuantityAt(a, p) == QuantityAt(b, p);
    }
    forall p | p in a ensures a[p] == b[p] {
      assert QuantityAt(a, p) == QuantityAt(b, p);
    }
  }

  lemma {:induction false} SideAtIsPositive(log: WriteLog, n: int)
    ensures Positive(SideAt(log, n))
    decreases if n > 0 then n else 0
  {
    if n > 0 {
      SideAtIsPositive(log, n - 1);
    }
  }

  lemma {:induction false} UnwrittenPriceIsUnchanged(log: WriteLog, p: real, start: int, end: int)
    requires start <= end
    requires forall n :: start < n <= end ==> p !in log(n)
    ensures QuantityAt(SideAt(log, start), p) == QuantityAt(SideAt(log, end), p)
    decreases end - start
  {
    if start < end {
      UnwrittenPriceIsUnchanged(log, p, start, end - 1);
      assert p !in log(end);
    }
  }

  /** Applied to any positive side, absolute levels set the prices they list and keep the rest. */
  lemma {:induction false} AppliedQuantity(log: WriteLog, side: Side, levels: seq<Level>, n: int, p: real)
    requires Positive(side) && Shows(log, levels, n)
    ensures Positive(ApplyLevels(side, levels))
    ensures QuantityAt(ApplyLevels(side, levels), p)
         == if Mentions(levels, p) then QuantityAt(SideAt(log, n), p) else QuantityAt(side, p)
    decreases |levels|
  {
    SideAtIsPositive(log, n);
    if |levels| > 0 {
      var k := |levels| - 1;
      var init := levels[..k];
      assert forall i :: 0 <= i < k ==> init[i] == levels[i];
      assert Shows(log, init, n);
      AppliedQuantity(log, side, init, n, p);
      if Mentions(init, p) {
        var i :| 0 <= i < |init| && init[i].price == p;
        assert levels[i].price == p;
      }
      assert Mentions(levels, p) <==> Mentions(init, p) || levels[k].price == p;
    }
  }

  /**
   The step every diff stream rests on: levels that carry all writes after `after`
   take the exchange's side from any `base` in between to `upTo`.
   */
  lemma {:induction false} CarriedLevelsAdvanceSide(log: WriteLog, levels: seq<Level>, after: int, base: int, upTo: int)
    requires after <= base <= upTo
    requires Carries(log, levels, after, upTo)
    ensures ApplyLevels(SideAt(log, base), levels) == SideAt(log, upTo)
  {
    var applied := ApplyLevels(SideAt(log, base), levels);
    SideAtIsPositive(log, base);
    SideAtIsPositive(log, upTo);
    forall p ensures QuantityAt(applied, p) == QuantityAt(SideAt(log, upTo), p) {
      AppliedQuantity(log, SideAt(log, base), levels, upTo, p);
      if !Mentions(levels, p) {
        UnwrittenPriceIsUnchanged(log, p, base, upTo);
      }
    }
    AppliedQuantity(log, SideAt(log, base), levels, upTo, 0.0);
    SidesAreEqual(applied, SideAt(log, upTo));
  }

  /** Index `i` of the last level at price `p`, or -1 if no level is at that price. */
  ghost predicate LastAt(levels: seq<Level>, p: real, i: int) {
    && -1 <= i < |levels| && (i >= 0 ==> levels[i].price == p)
    && forall j :: i < j < |levels| ==> levels[j].price != p
  }

  /** For any quantities: the last level of a price decides it, and a price without levels stays as it was. */
  lemma {:induction false} LastLevelDecides(side: Side, levels: seq<Level>, p: real, i: int)
    requires LastAt(levels, p, i)
    ensures var result := ApplyLevels(side, levels);
            if i < 0 then (p in result <==> p in side) && (p in side ==> result[p] == side[p])
            else if levels[i].quantity == 0.0 then p !in result
            else p in result && result[p] == levels[i].quantity
    decreases |levels|
  {
    var n := |levels| - 1;
    if 0 <= n && i < n {
      LastLevelDecides(side, levels[..n], p, i);
    }
  }

  /** In a snapshot the last positive level of a price decides it; without one the price is not there. */
  lemma {:induction false} LastPositiveLevelDecides(levels: seq<Level>, p: real, i: int)
    requires -1 <= i < |levels| && (i >= 0 ==> levels[i].price == p && levels[i].quantity > 0.0)
    requires forall j :: i < j < |levels| ==> levels[j].price != p || levels[j].quantity <= 0.0
    ensures if i < 0 then p !in SideOf(levels)
            else p in SideOf(levels) && SideOf(levels)[p] == levels[i].quantity
    decreases |levels|
  {
    var n := |levels| - 1;
    if 0 <= n && i < n {
      LastPositiveLevelDecides(levels[..n], p, i);
    }
  }

  /** Over positive sides, a snapshot that lists the whole side rebuilds it exactly. */
  lemma {:induction false} SnapshotRebuildsSide(log: WriteLog, levels: seq<Level>, n: int)
    requires ListsAll(log, levels, n)
    ensures SideOf(levels) == SideAt(log, n)
  {
    SideAtIsPositive(log, n);
    forall p ensures QuantityAt(SideOf(levels), p) == QuantityAt(SideAt(log, n), p) {
      ListedQuantity(log, levels, n, p);
    }
    ListedQuantity(log, levels, n, 0.0);
    SidesAreEqual(SideOf(levels), SideAt(log, n));
  }

  lemma {:induction false} ListedQuantity(log: WriteLog, levels: seq<Level>, n: int, p: real)
    requires Shows(log, levels, n)
    ensures Positive(SideOf(levels))
    ensures QuantityAt(SideOf(levels), p) == if Mentions(levels, p) then QuantityAt(SideAt(log, n), p) else 0.0
    decreases |levels|
  {
    SideAtIsPositive(log, n);
    if |levels| > 0 {
      var k := |levels| - 1;
      var init := levels[..k];
      assert forall i :: 0 <= i < k ==> init[i] == levels[i];
      assert Shows(log, init, n);
      ListedQuantity(log, init, n, p);
      if Mentions(init, p) {
        var i :| 0 <= i < |init| && init[i].price == p;
        assert levels[i].price == p;
      }
      assert Mentions(levels, p) <==> Mentions(init, p) || levels[k].price == p;
    }
  }
}
