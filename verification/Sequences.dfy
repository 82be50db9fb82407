/** Maps and filters of sequences, and what they keep of a permutation. */
module Sequences {

  function Map<A, B>(f: A -> B, s: seq<A>): (r: seq<B>)
    ensures |r| == |s|
    ensures forall i :: 0 <= i < |s| ==> r[i] == f(s[i])
  {
    if |s| == 0 then [] else Map(f, s[..|s| - 1]) + [f(s[|s| - 1])]
  }

  function Filter<A>(p: A -> bool, s: seq<A>): seq<A> {
    if |s| == 0 then []
    else if p(s[|s| - 1]) then Filter(p, s[..|s| - 1]) + [s[|s| - 1]]
    else Filter(p, s[..|s| - 1])
  }

  /** The sum of `f(0)` to `f(n - 1)`. */
  function Total(f: int -> real, n: nat): real {
    if n == 0 then 0.0 else Total(f, n - 1) + f(n - 1)
  }

  lemma {:induction false} SameTotal(f: int -> real, g: int -> real, n: nat)
    requires forall i :: 0 <= i < n ==> f(i) == g(i)
    ensures Total(f, n) == Total(g, n)
  {
    if n > 0 {
      SameTotal(f, g, n - 1);
    }
  }

  lemma {:induction false} SliceLast<T>(s: seq<T>, left: nat, right: nat)
    requires left < right <= |s|
    ensures s[left..right] == s[left..right - 1] + [s[right - 1]]
    ensures s[left..right][..right - left - 1] == s[left..right - 1]
  {
    SliceOfSlice(s, left, right, right - left - 1);
  }

  /** Cutting a slice at `k` gives the slices on either side. */
  lemma {:induction false} SliceOfSlice<T>(s: seq<T>, i: nat, j: nat, k: nat)
    requires i + k <= j <= |s|
    ensures s[i..j][..k] == s[i..i + k] && s[i..j][k..] == s[i + k..j]
  {
    var slice := s[i..j];
    assert forall n :: 0 <= n < |slice| ==> slice[n] == s[i + n];
  }

  /** A slice falls into three slices at two inner positions. */
  lemma {:induction false} SliceInThree<T>(s: seq<T>, i: nat, b: nat, c: nat, j: nat)
    requires i <= b <= c <= j <= |s|
    ensures s[i..j][..b - i] == s[i..b] && s[i..j][b - i..c - i] == s[b..c] && s[i..j][c - i..] == s[c..j]
  {
    SliceOfSlice(s, i, j, b - i);
    SliceOfSlice(s, i, j, c - i);
    assert s[i..j][b - i..c - i] == s[i..j][b - i..][..c - b];
    SliceOfSlice(s, b, j, c - b);
  }

  lemma {:induction false} NonEmptyHasMember<T(!new)>(s: seq<T>)
    ensures s != [] ==> exists x :: x in s
  {
    if s != [] {
      assert s[0] in s;
    }
  }

  lemma {:induction false} FilterMembers<A(!new)>(p: A -> bool, s: seq<A>)
    ensures forall x :: x in Filter(p, s) <==> x in s && p(x)
  {
    if |s| > 0 {
      FilterMembers(p, s[..|s| - 1]);
      assert s == s[..|s| - 1] + [s[|s| - 1]];
    }
  }

  lemma {:induction false} FilterNone<A(!new)>(p: A -> bool, s: seq<A>)
    requires forall x :: x in s ==> !p(x)
    ensures Filter(p, s) == []
  {
    if |s| > 0 {
      FilterNone(p, s[..|s| - 1]);
    }
  }

  lemma {:induction false} FilterAll<A(!new)>(p: A -> bool, s: seq<A>)
    requires forall x :: x in s ==> p(x)
    ensures Filter(p, s) == s
  {
    if |s| > 0 {
      FilterAll(p, s[..|s| - 1]);
    }
  }

  /** From `lo` on, a condition that holds on one stretch only selects that stretch. */
  lemma {:induction false} FilterStretch<A(!new)>(p: A -> bool, s: seq<A>, lo: nat, left: nat, right: nat)
    requires lo <= left <= right <= |s| && forall i :: lo <= i < |s| ==> (p(s[i]) <==> left <= i < right)
    ensures Filter(p, s[lo..]) == s[left..right]
  {
    FilterNone(p, s[lo..left]);
    FilterAll(p, s[left..right]);
    FilterNone(p, s[right..]);
    FilterAppend(p, s[lo..left], s[left..right]);
    FilterAppend(p, s[lo..left] + s[left..right], s[right..]);
    hide Filter;
    assert s[lo..] == s[lo..left] + s[left..right] + s[right..];
  }

  lemma {:induction false} MapAppend<A, B>(f: A -> B, a: seq<A>, b: seq<A>)
    ensures Map(f, a + b) == Map(f, a) + Map(f, b)
  {
  }

  lemma {:induction false} MapSlice<A, B>(f: A -> B, s: seq<A>, i: nat, j: nat)
    requires i <= j <= |s|
    ensures Map(f, s[i..j]) == Map(f, s)[i..j]
  {
    var slice, whole := Map(f, s[i..j]), Map(f, s);
    forall k | 0 <= k < j - i ensures slice[k] == whole[i + k] {
      assert s[i..j][k] == s[i + k];
    }
  }

  lemma {:induction false} FilterAppend<A>(p: A -> bool, a: seq<A>, b: seq<A>)
    ensures Filter(p, a + b) == Filter(p, a) + Filter(p, b)
    decreases |b|
  {
    if |b| == 0 {
      assert a + b == a;
    } else {
      FilterAppend(p, a, b[..|b| - 1]);
      assert (a + b)[..|a + b| - 1] == a + b[..|b| - 1];
    }
  }

  lemma {:induction false} FilterHead<A>(p: A -> bool, s: seq<A>, i: nat)
    requires i < |s|
    ensures Filter(p, s[i..]) == (if p(s[i]) then [s[i]] else []) + Filter(p, s[i + 1..])
  {
    assert s[i..] == [s[i]] + s[i + 1..];
    FilterAppend(p, [s[i]], s[i + 1..]);
  }

  /** The last element of `a` occurs in any permutation `b`; removing both leaves permutations. */
  lemma {:induction false} MatchLast<T>(a: seq<T>, b: seq<T>) returns (k: nat)
    requires multiset(a) == multiset(b) && |a| > 0
    ensures k < |b| && b[k] == a[|a| - 1] && b == b[..k] + [b[k]] + b[k + 1..]
    ensures multiset(b[..k] + b[k + 1..]) == multiset(a[..|a| - 1])
  {
    var n := |a| - 1;
    assert a[n] in multiset(b);
    k :| 0 <= k < |b| && b[k] == a[n];
    WithoutOne(a, n);
    WithoutOne(b, k);
    assert a[..n] + a[n + 1..] == a[..n];
  }

  lemma {:induction false} WithoutOne<T>(s: seq<T>, k: nat)
    requires k < |s|
    ensures s == s[..k] + [s[k]] + s[k + 1..]
    ensures multiset(s[..k] + s[k + 1..]) == multiset(s) - multiset{s[k]}
  {
    InMiddle(s[..k], s[k], s[k + 1..]);
  }

  lemma {:induction false} SameLength<T>(a: seq<T>, b: seq<T>)
    requires multiset(a) == multiset(b)
    ensures |a| == |b|
  {
    assert |multiset(a)| == |a| && |multiset(b)| == |b|;
  }

  lemma {:induction false} InMiddle<T>(a: seq<T>, x: T, b: seq<T>)
    ensures multiset(a + [x] + b) == multiset(a + b) + multiset{x}
  {
  }

  lemma {:induction false} MapPermutation<A, B>(f: A -> B, a: seq<A>, b: seq<A>)
    requires multiset(a) == multiset(b)
    ensures multiset(Map(f, a)) == multiset(Map(f, b))
    decreases |a|
  {
    SameLength(a, b);
    if |a| > 0 {
      var k := MatchLast(a, b);
      var left, right := b[..k], b[k + 1..];
      MapPermutation(f, a[..|a| - 1], left + right);
      MapAppend(f, left, right);
      MapAppend(f, left + [b[k]], right);
      assert Map(f, left + [b[k]]) == Map(f, left) + [f(b[k])];
      InMiddle(Map(f, left), f(b[k]), Map(f, right));
    }
  }

  lemma {:induction false} FilterPermutation<A>(p: A -> bool, a: seq<A>, b: seq<A>)
    requires multiset(a) == multiset(b)
    ensures multiset(Filter(p, a)) == multiset(Filter(p, b))
    decreases |a|
  {
    SameLength(a, b);
    if |a| > 0 {
      var k := MatchLast(a, b);
      var left, right := b[..k], b[k + 1..];
      FilterPermutation(p, a[..|a| - 1], left + right);
      FilterAppend(p, left, right);
      FilterAppend(p, left + [b[k]], right);
      FilterAppend(p, left, [b[k]]);
      InMiddle(Filter(p, left), b[k], Filter(p, right));
      InMiddle(Filter(p, a[..|a| - 1]), b[k], []);
      assert Filter(p, a[..|a| - 1]) + [] == Filter(p, a[..|a| - 1]);
    }
  }

  /** A filter by two exclusive conditions counts both. */
  lemma {:induction false} FilterSplit<A>(p: A -> bool, q: A -> bool, either: A -> bool, s: seq<A>)
    requires forall x :: either(x) <==> p(x) || q(x)
    requires forall x :: !(p(x) && q(x))
    ensures multiset(Filter(either, s)) == multiset(Filter(p, s)) + multiset(Filter(q, s))
  {
    if |s| > 0 {
      FilterSplit(p, q, either, s[..|s| - 1]);
    }
  }

  // ---------- Strictly ascending sequences ----------

  ghost predicate Ascends<T>(less: (T, T) -> bool, s: seq<T>) {
    forall i, j :: 0 <= i < j < |s| ==> less(s[i], s[j])
  }

  /** `less` is a strict order as far as it goes on `s`: never both ways. */
  ghost predicate OneWay<T>(less: (T, T) -> bool, s: seq<T>) {
    forall x, y :: x in s && y in s && less(x, y) ==> !less(y, x)
  }

  ghost predicate Within<T>(a: seq<T>, b: seq<T>) {
    forall x :: x in a ==> x in b
  }

  lemma {:induction false} HeadsAgree<T(!new)>(less: (T, T) -> bool, a: seq<T>, b: seq<T>)
    requires Ascends(less, a) && Ascends(less, b) && OneWay(less, a) && Within(a, b) && Within(b, a) && |a| > 0
    ensures |b| > 0 && a[0] == b[0]
  {
    assert a[0] in b;
    var i :| 0 <= i < |b| && b[i] == a[0];
    assert b[0] in a;
    var j :| 0 <= j < |a| && a[j] == b[0];
    assert i > 0 ==> less(b[0], b[i]);
    assert j > 0 ==> less(a[0], a[j]);
  }

  lemma {:induction false} TailWithin<T(!new)>(less: (T, T) -> bool, a: seq<T>, b: seq<T>)
    requires Ascends(less, a) && OneWay(less, a) && Within(a, b) && |a| > 0 && |b| > 0 && a[0] == b[0]
    ensures Within(a[1..], b[1..])
  {
    assert b == [b[0]] + b[1..];
    forall x | x in a[1..] ensures x in b[1..] {
      var i :| 1 <= i < |a| && a[i] == x;
      assert less(a[0], a[i]) && a[0] in a && a[i] in a;
    }
  }

  /** Strictly ascending sequences of the same elements are the same sequence. */
  lemma {:induction false} AscendingUnique<T(!new)>(less: (T, T) -> bool, a: seq<T>, b: seq<T>)
    requires Ascends(less, a) && Ascends(less, b) && OneWay(less, a) && OneWay(less, b) && Within(a, b) && Within(b, a)
    ensures a == b
    decreases |a|
  {
    if |a| > 0 {
      HeadsAgree(less, a, b);
      TailWithin(less, a, b);
      TailWithin(less, b, a);
      AscendingUnique(less, a[1..], b[1..]);
      assert a == [a[0]] + a[1..] && b == [b[0]] + b[1..];
    } else {
      NonEmptyHasMember(b);
    }
  }

  lemma {:induction false} AscendingPrefix<T(!new)>(less: (T, T) -> bool, a: seq<T>)
    requires Ascends(less, a) && OneWay(less, a) && |a| > 0
    ensures Ascends(less, a[..|a| - 1]) && OneWay(less, a[..|a| - 1]) && a[|a| - 1] !in a[..|a| - 1]
  {
    var n := |a| - 1;
    forall i | 0 <= i < n ensures a[..n][i] != a[n] {
      assert less(a[i], a[n]) && a[i] in a && a[n] in a;
    }
  }

  lemma {:induction false} AscendingOccursOnce<T(!new)>(less: (T, T) -> bool, a: seq<T>, x: T)
    requires Ascends(less, a) && OneWay(less, a)
    ensures multiset(a)[x] <= 1
  {
    if |a| > 0 {
      AscendingPrefix(less, a);
      AscendingOccursOnce(less, a[..|a| - 1], x);
      assert a == a[..|a| - 1] + [a[|a| - 1]];
    }
  }

  /** A strictly ascending sequence is no longer than a sequence holding all its elements. */
  lemma {:induction false} AscendingFits<T(!new)>(less: (T, T) -> bool, a: seq<T>, b: seq<T>)
    requires Ascends(less, a) && OneWay(less, a) && Within(a, b)
    ensures |a| <= |b|
  {
    forall x ensures multiset(a)[x] <= multiset(b)[x] {
      AscendingOccursOnce(less, a, x);
      if multiset(a)[x] > 0 {
        assert x in a;
        assert x in b;
      }
    }
    assert multiset(a) <= multiset(b);
    assert |multiset(a)| <= |multiset(b)| by {
      assert multiset(b) == multiset(a) + (multiset(b) - multiset(a));
    }
  }

  // ---------- Stable sorting by an integer key ----------

  function InsertByKey<T>(key: T -> int, s: seq<T>, x: T): seq<T> {
    if |s| == 0 || key(s[|s| - 1]) <= key(x) then s + [x]
    else InsertByKey(key, s[..|s| - 1], x) + [s[|s| - 1]]
  }

  function SortByKey<T>(key: T -> int, s: seq<T>): seq<T> {
    if |s| == 0 then [] else InsertByKey(key, SortByKey(key, s[..|s| - 1]), s[|s| - 1])
  }

  ghost predicate KeysAscend<T>(key: T -> int, s: seq<T>) {
    forall i, j :: 0 <= i < j < |s| ==> key(s[i]) <= key(s[j])
  }

  ghost predicate KeysDiffer<T>(key: T -> int, s: seq<T>) {
    forall i, j :: 0 <= i < j < |s| ==> key(s[i]) != key(s[j])
  }

  lemma {:induction false} InsertByKeyMembers<T(!new)>(key: T -> int, s: seq<T>, x: T)
    ensures multiset(InsertByKey(key, s, x)) == multiset(s) + multiset{x}
    ensures forall y :: y in InsertByKey(key, s, x) <==> y == x || y in s
    decreases |s|
  {
    if |s| > 0 && key(s[|s| - 1]) > key(x) {
      var n := |s| - 1;
      InsertByKeyMembers(key, s[..n], x);
      assert s == s[..n] + [s[n]];
    }
  }

  lemma {:induction false} KeysWithLast<T(!new)>(key: T -> int, s: seq<T>, x: T)
    ensures KeysAscend(key, s) && (forall y :: y in s ==> key(y) <= key(x)) ==> KeysAscend(key, s + [x])
    ensures KeysDiffer(key, s) && (forall y :: y in s ==> key(y) != key(x)) ==> KeysDiffer(key, s + [x])
  {
    assert forall i :: 0 <= i < |s| ==> s[i] in s;
  }

  lemma {:induction false} KeysOfPrefix<T(!new)>(key: T -> int, s: seq<T>)
    requires |s| > 0
    ensures KeysAscend(key, s) ==>
              KeysAscend(key, s[..|s| - 1]) && forall y :: y in s ==> key(y) <= key(s[|s| - 1])
    ensures KeysDiffer(key, s) ==>
              KeysDiffer(key, s[..|s| - 1]) && forall y :: y in s[..|s| - 1] ==> key(y) != key(s[|s| - 1])
  {
  }

  lemma {:induction false} InsertByKeySorts<T(!new)>(key: T -> int, s: seq<T>, x: T)
    requires KeysAscend(key, s)
    ensures KeysAscend(key, InsertByKey(key, s, x))
    ensures KeysDiffer(key, s) && (forall y :: y in s ==> key(y) != key(x)) ==>
              KeysDiffer(key, InsertByKey(key, s, x))
    decreases |s|
  {
    hide KeysAscend, KeysDiffer;
    if |s| > 0 {
      KeysOfPrefix(key, s);
    }
    if |s| > 0 && key(s[|s| - 1]) > key(x) {
      var n := |s| - 1;
      InsertByKeySorts(key, s[..n], x);
      InsertByKeyMembers(key, s[..n], x);
      assert forall y :: y in s[..n] ==> y in s;
      KeysWithLast(key, InsertByKey(key, s[..n], x), s[n]);
    } else {
      KeysWithLast(key, s, x);
    }
  }

  lemma {:induction false} SortByKeyMembers<T(!new)>(key: T -> int, s: seq<T>)
    ensures multiset(SortByKey(key, s)) == multiset(s)
    ensures forall x :: x in SortByKey(key, s) <==> x in s
  {
    hide InsertByKey;
    if |s| > 0 {
      var n := |s| - 1;
      SortByKeyMembers(key, s[..n]);
      InsertByKeyMembers(key, SortByKey(key, s[..n]), s[n]);
      assert s == s[..n] + [s[n]];
    }
  }

  /** The sort is an ascending permutation, strictly ascending if the keys differ. */
  lemma {:induction false} SortByKeySorts<T(!new)>(key: T -> int, s: seq<T>)
    ensures KeysAscend(key, SortByKey(key, s))
    ensures KeysDiffer(key, s) ==> KeysDiffer(key, SortByKey(key, s))
  {
    hide InsertByKey, KeysDiffer;
    if |s| > 0 {
      var n := |s| - 1;
      SortByKeySorts(key, s[..n]);
      SortByKeyMembers(key, s[..n]);
      hide KeysAscend;
      KeysOfPrefix(key, s);
      InsertByKeySorts(key, SortByKey(key, s[..n]), s[n]);
    }
  }

  lemma {:induction false} InsertIsStable<T(!new)>(key: T -> int, p: T -> bool, s: seq<T>, x: T)
    requires forall y :: y in s && p(x) && p(y) ==> key(x) == key(y)
    ensures Filter(p, InsertByKey(key, s, x)) == Filter(p, s) + (if p(x) then [x] else [])
    decreases |s|
  {
    var n := |s| - 1;
    if n >= 0 && key(s[n]) > key(x) {
      InsertIsStable(key, p, s[..n], x);
      FilterAppend(p, InsertByKey(key, s[..n], x), [s[n]]);
      assert s[n] in s;
    } else {
      FilterAppend(p, s, [x]);
    }
  }

  /** The sort is stable: elements of one key keep their order. */
  lemma {:induction false} SortIsStable<T(!new)>(key: T -> int, p: T -> bool, s: seq<T>)
    requires forall x, y :: x in s && y in s && p(x) && p(y) ==> key(x) == key(y)
    ensures Filter(p, SortByKey(key, s)) == Filter(p, s)
  {
    hide InsertByKey;
    if |s| > 0 {
      var n := |s| - 1;
      SortIsStable(key, p, s[..n]);
      SortByKeyMembers(key, s[..n]);
      InsertIsStable(key, p, SortByKey(key, s[..n]), s[n]);
    }
  }

  lemma {:induction false} SortByKeyStays<T>(key: T -> int, s: seq<T>)
    requires KeysAscend(key, s)
    ensures SortByKey(key, s) == s
  {
    if |s| > 0 {
      var n := |s| - 1;
      SortByKeyStays(key, s[..n]);
      assert s == s[..n] + [s[n]];
      assert n > 0 ==> s[..n][n - 1] == s[n - 1];
    }
  }

  lemma {:induction false} FilterKeepsDistinct<T(!new)>(key: T -> int, p: T -> bool, s: seq<T>)
    requires KeysDiffer(key, s)
    ensures KeysDiffer(key, Filter(p, s))
  {
    if |s| > 0 {
      hide KeysDiffer;
      var n := |s| - 1;
      KeysOfPrefix(key, s);
      FilterKeepsDistinct(key, p, s[..n]);
      FilterMembers(p, s[..n]);
      KeysWithLast(key, Filter(p, s[..n]), s[n]);
    }
  }
}
