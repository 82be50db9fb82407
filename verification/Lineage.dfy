/**
 Mergeable commitments to a multiset of source payloads: a count, a sum modulo 2^256, an
 exclusive or, and the time extent. Payload digests are 256-bit values.
 */
module Lineage {
  import opened Common
  import opened Sequences

  /** 2^256. */
  const MODULUS: nat := 0x1_0000_0000_0000_0000_0000_0000_0000_0000_0000_0000_0000_0000_0000_0000_0000_0000

  const WIDTH: nat := 256

  /** A 256-bit value. */
  type Digest = d: nat | d < MODULUS witness 0

  /** One committed source item. */
  datatype Leaf = Leaf(timestamp: int, digest: Digest)

  datatype SourceLineage = SourceLineage(count: nat, digestSum: Digest, digestXor: Mask,
                                         oldest: Option<int>, newest: Option<int>)
  {
    /** What construction enforces. */
    predicate Valid() {
      if count == 0 then this == EMPTY
      else oldest.Some? && newest.Some? && oldest.value <= newest.value
    }
  }

  const EMPTY := SourceLineage(0, 0, NoBits(), None, None)

  function Earlier(a: Option<int>, b: Option<int>): Option<int> {
    if a.None? then b else if b.None? || a.value <= b.value then a else b
  }

  function Later(a: Option<int>, b: Option<int>): Option<int> {
    if a.None? then b else if b.None? || a.value >= b.value then a else b
  }

  function FromDigest(timestamp: int, digest: Digest): (r: SourceLineage)
    ensures r.Valid()
  {
    SourceLineage(1, digest, Bits(digest), Some(timestamp), Some(timestamp))
  }

  /** Combination of two commitments. */
  function Join(a: SourceLineage, b: SourceLineage): SourceLineage {
    SourceLineage(a.count + b.count, Plus(a.digestSum, b.digestSum), Xor(a.digestXor, b.digestXor),
                  Earlier(a.oldest, b.oldest), Later(a.newest, b.newest))
  }

  function JoinAll(first: SourceLineage, others: seq<SourceLineage>): SourceLineage {
    if |others| == 0 then first else Join(JoinAll(first, others[..|others| - 1]), others[|others| - 1])
  }

  /** The commitment to a sequence of items, one by one. */
  function LineageOf(items: seq<Leaf>): SourceLineage {
    if |items| == 0 then EMPTY
    else Join(LineageOf(items[..|items| - 1]), FromDigest(items[|items| - 1].timestamp, items[|items| - 1].digest))
  }

  // ---------- Digest arithmetic, modulo 2^256 ----------

  function Plus(a: Digest, b: Digest): Digest {
    (a + b) % MODULUS
  }

  /** The masked difference; Python's masking of a negative number is the Euclidean remainder. */
  function Minus(a: Digest, b: Digest): Digest {
    (a - b) % MODULUS
  }

  function PowerOfTwo(n: nat): (p: nat)
    ensures p > 0
  {
    if n == 0 then 1 else 2 * PowerOfTwo(n - 1)
  }

  /** A 256-bit exclusive or, kept digit by digit, least significant first. */
  type Mask = m: seq<bool> | |m| == WIDTH witness NoBits()

  /** The binary digits of a digest. */
  function Bits(d: Digest): Mask {
    seq(WIDTH, i requires 0 <= i < WIDTH => d / PowerOfTwo(i) % 2 == 1)
  }

  function NoBits(): (m: seq<bool>)
    ensures |m| == WIDTH && forall i :: 0 <= i < WIDTH ==> !m[i]
  {
    seq(WIDTH, i => false)
  }

  function Xor(a: Mask, b: Mask): Mask {
    seq(WIDTH, i requires 0 <= i < WIDTH => a[i] != b[i])
  }

  /** The number with these binary digits. */
  function ValueOf(digits: seq<bool>): nat {
    if |digits| == 0 then 0 else (if digits[0] then 1 else 0) + 2 * ValueOf(digits[1..])
  }

  function Digits(d: nat, width: nat): seq<bool> {
    seq(width, i requires 0 <= i < width => d / PowerOfTwo(i) % 2 == 1)
  }

  /** No digest is lost in its digits: they are its binary representation. */
  lemma {:induction false} BitsAreBinary(d: Digest)
    ensures ValueOf(Bits(d)) == d
  {
    WidthFits();
    DigitsAreBinary(d, WIDTH);
    hide PowerOfTwo;
    assert Bits(d) == Digits(d, WIDTH);
  }

  lemma {:induction false} DigitsAreBinary(d: nat, width: nat)
    requires d < PowerOfTwo(width)
    ensures ValueOf(Digits(d, width)) == d
  {
    if width > 0 {
      DigitsAreBinary(d / 2, width - 1);
      DigitsBehindFirst(d, width);
    }
  }

  lemma {:induction false} DigitsBehindFirst(d: nat, width: nat)
    requires width > 0
    ensures Digits(d, width)[0] == (d % 2 == 1) && Digits(d, width)[1..] == Digits(d / 2, width - 1)
  {
    forall i | 0 <= i < width - 1 ensures Digits(d, width)[1..][i] == Digits(d / 2, width - 1)[i] {
      DigitShifts(d, i);
    }
  }

  lemma {:induction false} DigitShifts(d: nat, i: nat)
    ensures d / PowerOfTwo(i + 1) % 2 == d / 2 / PowerOfTwo(i) % 2
  {
    HalfShifts(d, PowerOfTwo(i));
  }

  lemma {:induction false} HalfShifts(d: nat, power: nat)
    requires power > 0
    ensures d / (2 * power) == d / 2 / power
  {
    var h := d / 2 / power;
    assert d / 2 == h * power + d / 2 % power;
    var rest := d - h * (2 * power);
    assert 0 <= rest < 2 * power;
    assert d == h * (2 * power) + rest;
    QuotientIs(d, h, 2 * power, rest);
  }

  lemma {:induction false} ProductRises(a: int, b: int, factor: nat)
    requires a <= b
    ensures a * factor <= b * factor
  {
  }

  lemma {:induction false} QuotientIs(d: int, h: int, divisor: nat, rest: nat)
    requires rest < divisor && d == h * divisor + rest
    ensures d / divisor == h
  {
    var q := d / divisor;
    assert (q - h) * divisor == rest - d % divisor;
    if q > h {
      ProductRises(1, q - h, divisor);
    } else if q < h {
      ProductRises(q - h, -1, divisor);
    }
  }

  lemma {:induction false} Doubled(x: int, y: int)
    ensures x * (2 * y) == 2 * (x * y)
  {
  }

  lemma {:induction false} PowerOfSum(a: nat, b: nat)
    ensures PowerOfTwo(a + b) == PowerOfTwo(a) * PowerOfTwo(b)
  {
    if b > 0 {
      PowerOfSum(a, b - 1);
      assert PowerOfTwo(a + b) == 2 * PowerOfTwo(a + b - 1) && PowerOfTwo(b) == 2 * PowerOfTwo(b - 1);
      hide PowerOfTwo;
      Doubled(PowerOfTwo(a), PowerOfTwo(b - 1));
    }
  }

  lemma {:induction false} SixteenBits()
    ensures PowerOfTwo(16) == 0x1_0000
  {
    assert PowerOfTwo(2) == 4;
    PowerOfSum(2, 2);
    PowerOfSum(4, 4);
    PowerOfSum(8, 8);
  }

  lemma {:induction false} WidthFits()
    ensures PowerOfTwo(WIDTH) == MODULUS
  {
    hide PowerOfTwo;
    SixteenBits();
    PowerOfSum(16, 16);
    PowerOfSum(32, 32);
    PowerOfSum(64, 64);
    PowerOfSum(128, 128);
  }

  /** A sum of two digests wraps at most once. */
  lemma {:induction false} PlusWraps(a: Digest, b: Digest)
    ensures Plus(a, b) == if a + b < MODULUS then a + b else a + b - MODULUS
    ensures Minus(a, b) == if a >= b then a - b else a - b + MODULUS
  {
  }

  lemma {:induction false} SumOrder(a: Digest, b: Digest, c: Digest)
    ensures Plus(a, b) == Plus(b, a) && Plus(Plus(a, b), c) == Plus(a, Plus(b, c))
  {
    hide Plus;
    PlusWraps(a, b);
    PlusWraps(b, c);
    PlusWraps(Plus(a, b), c);
    PlusWraps(a, Plus(b, c));
    PlusWraps(b, a);
  }

  lemma {:induction false} SumUndone(a: Digest, b: Digest)
    ensures Plus(a, 0) == a && Plus(0, a) == a && Minus(Plus(a, b), a) == b
  {
    hide Plus, Minus;
    PlusWraps(a, 0);
    PlusWraps(0, a);
    PlusWraps(a, b);
    PlusWraps(Plus(a, b), a);
  }

  lemma {:induction false} XorOrder(a: Mask, b: Mask, c: Mask)
    ensures Xor(a, b) == Xor(b, a) && Xor(Xor(a, b), c) == Xor(a, Xor(b, c))
  {
  }

  lemma {:induction false} XorUndone(a: Mask, b: Mask)
    ensures Xor(a, NoBits()) == a && Xor(NoBits(), a) == a && Xor(Xor(a, b), a) == b
  {
  }

  // ---------- Combination is a commutative monoid ----------

  lemma {:induction false} JoinLaws(a: SourceLineage, b: SourceLineage, c: SourceLineage)
    ensures Join(a, b) == Join(b, a)
    ensures Join(Join(a, b), c) == Join(a, Join(b, c))
    ensures Join(a, EMPTY) == a && Join(EMPTY, a) == a
  {
    hide Plus, Xor;
    SumOrder(a.digestSum, b.digestSum, c.digestSum);
    SumUndone(a.digestSum, b.digestSum);
    XorOrder(a.digestXor, b.digestXor, c.digestXor);
    XorUndone(a.digestXor, b.digestXor);
  }

  lemma {:induction false} JoinKeepsValid(a: SourceLineage, b: SourceLineage)
    requires a.Valid() && b.Valid()
    ensures Join(a, b).Valid()
  {
    if a.count == 0 {
      JoinLaws(b, b, b);
    } else if b.count == 0 {
      JoinLaws(a, a, a);
    }
  }

  lemma {:induction false} LineageAppend(a: seq<Leaf>, b: seq<Leaf>)
    ensures LineageOf(a + b) == Join(LineageOf(a), LineageOf(b))
    decreases |b|
  {
    hide Join, FromDigest;
    if |b| == 0 {
      assert a + b == a;
      JoinLaws(LineageOf(a), EMPTY, EMPTY);
    } else {
      var last := b[|b| - 1];
      LineageAppend(a, b[..|b| - 1]);
      assert (a + b)[..|a + b| - 1] == a + b[..|b| - 1];
      JoinLaws(LineageOf(a), LineageOf(b[..|b| - 1]), FromDigest(last.timestamp, last.digest));
    }
  }

  lemma {:induction false} LineageMiddle(left: seq<Leaf>, x: Leaf, right: seq<Leaf>)
    ensures LineageOf(left + [x] + right) == Join(LineageOf(left + right), LineageOf([x]))
  {
    hide Join, FromDigest, LineageOf;
    var l, one, r := LineageOf(left), LineageOf([x]), LineageOf(right);
    LineageAppend(left + [x], right);
    LineageAppend(left, [x]);
    LineageAppend(left, right);
    JoinLaws(l, one, r);
    JoinLaws(l, r, one);
    JoinLaws(one, r, l);
  }

  /** The commitment depends on the multiset of items only. */
  lemma {:induction false} LineageIsOrderFree(a: seq<Leaf>, b: seq<Leaf>)
    requires multiset(a) == multiset(b)
    ensures LineageOf(a) == LineageOf(b)
    decreases |a|
  {
    SameLength(a, b);
    if |a| > 0 {
      var n := |a| - 1;
      var k := MatchLast(a, b);
      var left, right := b[..k], b[k + 1..];
      LineageIsOrderFree(a[..n], left + right);
      SameLast(a, left, right);
      assert b == left + [a[n]] + right;
    }
  }

  lemma {:induction false} SameLast(a: seq<Leaf>, left: seq<Leaf>, right: seq<Leaf>)
    requires |a| > 0 && LineageOf(a[..|a| - 1]) == LineageOf(left + right)
    ensures LineageOf(a) == LineageOf(left + [a[|a| - 1]] + right)
  {
    hide Join, FromDigest, LineageOf;
    var n := |a| - 1;
    LineageMiddle(left, a[n], right);
    LineageAppend(a[..n], [a[n]]);
    assert a == a[..n] + [a[n]];
  }

  /** What the fields of a commitment say about its items. */
  lemma {:induction false} LineageFields(items: seq<Leaf>)
    ensures LineageOf(items).Valid() && LineageOf(items).count == |items|
    ensures |items| > 0 ==>
              var r := LineageOf(items);
              && (forall i :: 0 <= i < |items| ==> r.oldest.value <= items[i].timestamp <= r.newest.value)
              && (exists i :: 0 <= i < |items| && items[i].timestamp == r.oldest.value)
              && (exists i :: 0 <= i < |items| && items[i].timestamp == r.newest.value)
  {
    hide Plus, Xor;
    if |items| > 0 {
      var n := |items| - 1;
      LineageFields(items[..n]);
      JoinKeepsValid(LineageOf(items[..n]), FromDigest(items[n].timestamp, items[n].digest));
      if n > 0 {
        var i :| 0 <= i < n && items[..n][i].timestamp == LineageOf(items[..n]).oldest.value;
        var j :| 0 <= j < n && items[..n][j].timestamp == LineageOf(items[..n]).newest.value;
        assert items[i] == items[..n][i] && items[j] == items[..n][j];
      }
      forall i | 0 <= i < |items|
        ensures LineageOf(items).oldest.value <= items[i].timestamp <= LineageOf(items).newest.value
      {
        assert i < n ==> items[..n][i] == items[i];
      }
      assert items[n].timestamp == LineageOf(items).oldest.value || n > 0;
    }
  }

  /** Prefix sums give the digests of any stretch: the total minus what lies before it. */
  lemma {:induction false} PrefixDifference(before: seq<Leaf>, stretch: seq<Leaf>)
    ensures Minus(LineageOf(before + stretch).digestSum, LineageOf(before).digestSum) == LineageOf(stretch).digestSum
    ensures Xor(LineageOf(before + stretch).digestXor, LineageOf(before).digestXor) == LineageOf(stretch).digestXor
  {
    hide Plus, Minus, Xor, LineageOf;
    LineageAppend(before, stretch);
    SumUndone(LineageOf(before).digestSum, LineageOf(stretch).digestSum);
    XorUndone(LineageOf(before).digestXor, LineageOf(stretch).digestXor);
  }

  // ---------- The combining loop ----------

  /** The accumulating loop joins valid commitments in the order given. */
  method Combine(self: SourceLineage, others: seq<SourceLineage>) returns (r: SourceLineage)
    requires self.Valid() && forall i :: 0 <= i < |others| ==> others[i].Valid()
    ensures r == JoinAll(self, others) && r.Valid()
  {
    hide Plus, Xor;
    var count: nat, digestSum, digestXor := self.count, self.digestSum, self.digestXor;
    var oldest, newest := self.oldest, self.newest;
    for i := 0 to |others|
      invariant SourceLineage(count, digestSum, digestXor, oldest, newest) == JoinAll(self, others[..i])
      invariant JoinAll(self, others[..i]).Valid()
    {
      assert others[..i + 1][..i] == others[..i];
      JoinKeepsValid(JoinAll(self, others[..i]), others[i]);
      count := count + others[i].count;
      digestSum := Plus(digestSum, others[i].digestSum);
      digestXor := Xor(digestXor, others[i].digestXor);
      oldest := Earlier(oldest, others[i].oldest);
      newest := Later(newest, others[i].newest);
    }
    assert others[..|others|] == others;
    if count == 0 {
      return EMPTY;
    }
    return SourceLineage(count, digestSum, digestXor, oldest, newest);
  }
}
