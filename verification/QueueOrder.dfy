/**
 The order of queued events: receive time, then six text fields compared as Python
 compares strings, then the arrival ordinal.
 */
module QueueOrder {
  import opened Common
  import Sequences

  datatype MarketEvent = MarketEvent(receive: int, exchange: string, symbol: string, eventType: string,
                                     sequenceId: Option<string>, rawReference: Option<string>, payload: string)

  /** The content identity is a hash of the event's canonical payload. */
  type Identity = MarketEvent -> string

  datatype Queued = Queued(receive: int, fields: seq<string>, ordinal: nat, event: MarketEvent)

  function Fields(e: MarketEvent, identity: Identity): seq<string> {
    [e.exchange, e.symbol, e.eventType,
     if e.sequenceId.Some? then e.sequenceId.value else "",
     if e.rawReference.Some? then e.rawReference.value else "",
     identity(e)]
  }

  function QueueItem(e: MarketEvent, ordinal: nat, identity: Identity): Queued {
    Queued(e.receive, Fields(e, identity), ordinal, e)
  }

  // ---------- Lexicographic orders ----------

  predicate StringLess(a: string, b: string) {
    |b| > 0 && (|a| == 0 || a[0] < b[0] || (a[0] == b[0] && StringLess(a[1..], b[1..])))
  }

  predicate FieldsLess(a: seq<string>, b: seq<string>) {
    |b| > 0 && (|a| == 0 || StringLess(a[0], b[0]) || (a[0] == b[0] && FieldsLess(a[1..], b[1..])))
  }

  predicate KeyLess(a: Queued, b: Queued) {
    || a.receive < b.receive
    || (a.receive == b.receive && FieldsLess(a.fields, b.fields))
    || (a.receive == b.receive && a.fields == b.fields && a.ordinal < b.ordinal)
  }

  lemma {:induction false} StringOrder(a: string, b: string, c: string)
    ensures !StringLess(a, a)
    ensures a != b ==> StringLess(a, b) || StringLess(b, a)
    ensures StringLess(a, b) && StringLess(b, c) ==> StringLess(a, c)
    decreases |a| + |b| + |c|
  {
    if |a| > 0 {
      var bt := if |b| > 0 then b[1..] else [];
      var ct := if |c| > 0 then c[1..] else [];
      StringOrder(a[1..], bt, ct);
      assert |b| > 0 && a[0] == b[0] && a != b ==> a[1..] != b[1..] by {
        assert a == [a[0]] + a[1..];
        assert |b| > 0 ==> b == [b[0]] + b[1..];
      }
    }
  }

  lemma {:induction false} FieldsOrder(a: seq<string>, b: seq<string>, c: seq<string>)
    ensures !FieldsLess(a, a)
    ensures a != b ==> FieldsLess(a, b) || FieldsLess(b, a)
    ensures FieldsLess(a, b) && FieldsLess(b, c) ==> FieldsLess(a, c)
    decreases |a| + |b| + |c|
  {
    if |a| > 0 {
      var bt := if |b| > 0 then b[1..] else [];
      var ct := if |c| > 0 then c[1..] else [];
      StringOrder(a[0], if |b| > 0 then b[0] else "", if |c| > 0 then c[0] else "");
      FieldsOrder(a[1..], bt, ct);
      assert |b| > 0 && a[0] == b[0] && a != b ==> a[1..] != b[1..] by {
        assert a == [a[0]] + a[1..];
        assert |b| > 0 ==> b == [b[0]] + b[1..];
      }
    }
  }

  /** A strict total order on items with distinct ordinals. */
  lemma {:induction false} KeyOrder(a: Queued, b: Queued, c: Queued)
    ensures !KeyLess(a, a)
    ensures a.ordinal != b.ordinal ==> KeyLess(a, b) || KeyLess(b, a)
    ensures KeyLess(a, b) && KeyLess(b, c) ==> KeyLess(a, c)
  {
    FieldsOrder(a.fields, b.fields, c.fields);
  }

  // ---------- The orders without recursion ----------

  /** Up to position `k` the strings agree; there `a` ends, or has the smaller character. */
  predicate SmallerAt(a: string, b: string, k: nat) {
    && k <= |a| && k < |b| && a[..k] == b[..k]
    && (k == |a| || a[k] < b[k])
  }

  /** Strings are compared at the first difference. */
  lemma {:induction false} StringLessIff(a: string, b: string)
    ensures StringLess(a, b) <==> exists k: nat :: SmallerAt(a, b, k)
  {
    if StringLess(a, b) {
      var k := FirstDifference(a, b);
    } else {
      forall k: nat ensures !SmallerAt(a, b, k) {
        if SmallerAt(a, b, k) {
          SmallerIsLess(a, b, k);
        }
      }
    }
  }

  lemma {:induction false} FirstDifference(a: string, b: string) returns (k: nat)
    requires StringLess(a, b)
    ensures SmallerAt(a, b, k)
  {
    k := 0;
    if |a| > 0 && !(a[0] < b[0]) {
      k := FirstDifference(a[1..], b[1..]);
      assert a == [a[0]] + a[1..] && b == [b[0]] + b[1..];
      assert a[..k + 1] == [a[0]] + a[1..][..k] && b[..k + 1] == [b[0]] + b[1..][..k];
      k := k + 1;
    }
  }

  lemma {:induction false} SmallerIsLess(a: string, b: string, k: nat)
    requires SmallerAt(a, b, k)
    ensures StringLess(a, b)
  {
    if k > 0 {
      assert a[0] == a[..k][0] && b[0] == b[..k][0];
      assert a[1..][..k - 1] == a[..k][1..] && b[1..][..k - 1] == b[..k][1..];
      SmallerIsLess(a[1..], b[1..], k - 1);
    }
  }

  /**
   The order of two events: receive time, exchange, symbol, event type, sequence id, raw
   reference, identity; the ids compare as texts, absent as empty.
   */
  predicate EventLess(a: MarketEvent, b: MarketEvent, identity: Identity) {
    var aSequence := if a.sequenceId.Some? then a.sequenceId.value else "";
    var bSequence := if b.sequenceId.Some? then b.sequenceId.value else "";
    var aReference := if a.rawReference.Some? then a.rawReference.value else "";
    var bReference := if b.rawReference.Some? then b.rawReference.value else "";
    if a.receive != b.receive then a.receive < b.receive
    else if a.exchange != b.exchange then StringLess(a.exchange, b.exchange)
    else if a.symbol != b.symbol then StringLess(a.symbol, b.symbol)
    else if a.eventType != b.eventType then StringLess(a.eventType, b.eventType)
    else if aSequence != bSequence then StringLess(aSequence, bSequence)
    else if aReference != bReference then StringLess(aReference, bReference)
    else StringLess(identity(a), identity(b))
  }

  /** Only the arrival can tell the events apart. */
  predicate SameKey(a: MarketEvent, b: MarketEvent, identity: Identity) {
    && a.receive == b.receive && a.exchange == b.exchange && a.symbol == b.symbol && a.eventType == b.eventType
    && (if a.sequenceId.Some? then a.sequenceId.value else "")
       == (if b.sequenceId.Some? then b.sequenceId.value else "")
    && (if a.rawReference.Some? then a.rawReference.value else "")
       == (if b.rawReference.Some? then b.rawReference.value else "")
    && identity(a) == identity(b)
  }

  lemma {:induction false} FieldsStep(a: seq<string>, b: seq<string>, n: nat)
    requires |a| == |b| && n < |a|
    ensures FieldsLess(a[n..], b[n..]) <==>
              if a[n] != b[n] then StringLess(a[n], b[n]) else FieldsLess(a[n + 1..], b[n + 1..])
    ensures a[n] == b[n] ==> !StringLess(a[n], b[n])
    ensures a[n] != b[n] ==> StringLess(a[n], b[n]) != StringLess(b[n], a[n])
  {
    assert a[n..][1..] == a[n + 1..] && b[n..][1..] == b[n + 1..];
    StringOrder(a[n], b[n], a[n]);
  }

  /** Six fields, compared one by one. */
  lemma {:induction false} SixFields(a: seq<string>, b: seq<string>)
    requires |a| == |b| == 6
    ensures FieldsLess(a, b) <==>
              if a[0] != b[0] then StringLess(a[0], b[0])
              else if a[1] != b[1] then StringLess(a[1], b[1])
              else if a[2] != b[2] then StringLess(a[2], b[2])
              else if a[3] != b[3] then StringLess(a[3], b[3])
              else if a[4] != b[4] then StringLess(a[4], b[4])
              else StringLess(a[5], b[5])
    ensures a[5] == b[5] ==> !StringLess(a[5], b[5])
  {
    FieldsStep(a, b, 0);
    FieldsStep(a, b, 1);
    FieldsStep(a, b, 2);
    FieldsStep(a, b, 3);
    FieldsStep(a, b, 4);
    FieldsStep(a, b, 5);
    assert a[0..] == a && b[0..] == b && a[6..] == b[6..] == [];
  }

  lemma {:induction false} FieldsAre(e: MarketEvent, identity: Identity)
    ensures var f := Fields(e, identity);
            && |f| == 6 && f[0] == e.exchange && f[1] == e.symbol && f[2] == e.eventType
            && f[3] == (if e.sequenceId.Some? then e.sequenceId.value else "")
            && f[4] == (if e.rawReference.Some? then e.rawReference.value else "")
            && f[5] == identity(e)
  {
  }

  /** Queued events are compared by their fields in this order, and by arrival when all agree. */
  lemma {:induction false} KeyLessIff(a: MarketEvent, i: nat, b: MarketEvent, j: nat, identity: Identity)
    ensures KeyLess(QueueItem(a, i, identity), QueueItem(b, j, identity))
            <==> EventLess(a, b, identity) || (SameKey(a, b, identity) && i < j)
    ensures !(EventLess(a, b, identity) && EventLess(b, a, identity))
    ensures SameKey(a, b, identity) <==> !EventLess(a, b, identity) && !EventLess(b, a, identity)
  {
    hide StringLess, FieldsLess, Fields;
    var f, g := Fields(a, identity), Fields(b, identity);
    FieldsAre(a, identity);
    FieldsAre(b, identity);
    SixFields(f, g);
    SixFields(g, f);
    FieldsOrder(f, g, f);
    assert f == g <==> forall n :: 0 <= n < 6 ==> f[n] == g[n];
  }

  // ---------- Sorted sequences ----------

  ghost predicate Sorted(s: seq<Queued>) {
    forall i, j :: 0 <= i < j < |s| ==> KeyLess(s[i], s[j])
  }

  function OrdinalOf(q: Queued): int {
    q.ordinal
  }

  ghost predicate DistinctOrdinals(s: seq<Queued>) {
    Sequences.KeysDiffer(OrdinalOf, s)
  }

  ghost predicate SameItems(a: seq<Queued>, b: seq<Queued>) {
    forall q :: q in a <==> q in b
  }

  function Insert(s: seq<Queued>, q: Queued): seq<Queued> {
    if |s| == 0 || KeyLess(q, s[0]) then [q] + s else [s[0]] + Insert(s[1..], q)
  }

  function Sort(s: seq<Queued>): seq<Queued> {
    if |s| == 0 then [] else Insert(Sort(s[1..]), s[0])
  }

  lemma {:induction false} InsertSorts(s: seq<Queued>, q: Queued)
    requires Sorted(s) && forall x :: x in s ==> x.ordinal != q.ordinal
    ensures Sorted(Insert(s, q))
    ensures multiset(Insert(s, q)) == multiset(s) + multiset{q}
    ensures forall x :: x in Insert(s, q) <==> x == q || x in s
    decreases |s|
  {
    if |s| == 0 {
    } else if KeyLess(q, s[0]) {
      forall i | 0 < i < |s| ensures KeyLess(q, s[i]) {
        KeyOrder(q, s[0], s[i]);
      }
    } else {
      assert s == [s[0]] + s[1..];
      InsertSorts(s[1..], q);
      KeyOrder(s[0], q, q);
      var tail := Insert(s[1..], q);
      forall i | 0 <= i < |tail| ensures KeyLess(s[0], tail[i]) {
        assert tail[i] in tail;
      }
    }
  }

  lemma {:induction false} SortSorts(s: seq<Queued>)
    requires DistinctOrdinals(s)
    ensures Sorted(Sort(s))
    ensures multiset(Sort(s)) == multiset(s)
    ensures SameItems(Sort(s), s)
    decreases |s|
  {
    if |s| > 0 {
      assert s == [s[0]] + s[1..];
      SortSorts(s[1..]);
      forall x | x in Sort(s[1..]) ensures x.ordinal != s[0].ordinal {
        assert x in s[1..];
      }
      InsertSorts(Sort(s[1..]), s[0]);
    }
  }

  /** Sorted sequences of the same items are the same sequence. */
  lemma {:induction false} SortedUnique(a: seq<Queued>, b: seq<Queued>)
    requires Sorted(a) && Sorted(b) && SameItems(a, b)
    ensures a == b
  {
    forall x, y | KeyLess(x, y) ensures !KeyLess(y, x) {
      KeyOrder(x, y, x);
    }
    Sequences.AscendingUnique(KeyLess, a, b);
  }

  // ---------- Sorting up to arrival order ----------

  predicate FieldsLeq(a: seq<string>, b: seq<string>) {
    a == b || FieldsLess(a, b)
  }

  ghost predicate Ascending(s: seq<seq<string>>) {
    forall i, j :: 0 <= i < j < |s| ==> FieldsLeq(s[i], s[j])
  }

  lemma {:induction false} HeadIsLeast(s: seq<seq<string>>, x: seq<string>)
    requires Ascending(s) && x in s
    ensures FieldsLeq(s[0], x)
  {
    var i :| 0 <= i < |s| && s[i] == x;
  }

  lemma {:induction false} TailMultiset(s: seq<seq<string>>)
    requires |s| > 0
    ensures multiset(s[1..]) == multiset(s) - multiset{s[0]}
  {
    assert s == [s[0]] + s[1..];
  }

  /** Ascending sequences with the same multiset of keys are equal. */
  lemma {:induction false} SortedKeysUnique(a: seq<seq<string>>, b: seq<seq<string>>)
    requires Ascending(a) && Ascending(b) && multiset(a) == multiset(b)
    ensures a == b
    decreases |a|
  {
    assert |a| == |multiset(a)| && |b| == |multiset(b)|;
    if |a| > 0 {
      assert a[0] in multiset(b) && b[0] in multiset(a);
      HeadIsLeast(a, b[0]);
      HeadIsLeast(b, a[0]);
      FieldsOrder(a[0], b[0], a[0]);
      TailMultiset(a);
      TailMultiset(b);
      SortedKeysUnique(a[1..], b[1..]);
    }
  }
}
