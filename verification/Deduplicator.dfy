/**
 Bounded time-to-live deduplication: an ordered dict of last sightings, oldest first, that
 expires by age and evicts by number.
 */
module Deduplicator {
  import opened Common
  import opened RecentMap

  datatype Sighting<K> = Sighting(identity: K, time: real)

  // ---------- What should be remembered, in terms of all sightings ----------

  function LastSeen<K(==)>(h: seq<Sighting<K>>, x: K): (r: Option<nat>)
    ensures r.Some? ==> r.value < |h| && h[r.value].identity == x
    ensures r.Some? ==> forall i :: r.value < i < |h| ==> h[i].identity != x
    ensures r.None? ==> forall i :: 0 <= i < |h| ==> h[i].identity != x
  {
    if |h| == 0 then None
    else if h[|h| - 1].identity == x then Some(|h| - 1)
    else LastSeen(h[..|h| - 1], x)
  }

  /** The identities sighted behind position `j`. */
  ghost function SeenAfter<K(!new)>(h: seq<Sighting<K>>, j: nat): set<K> {
    set i | j < i < |h| :: h[i].identity
  }

  /**
   Whether an identity counts as a duplicate: its last sighting is within the time to live and
   fewer than `capacity` other identities were sighted since.
   */
  ghost predicate Recalled<K(!new)>(h: seq<Sighting<K>>, x: K, now: real, ttl: real, capacity: nat) {
    var last := LastSeen(h, x);
    last.Some? && now - h[last.value].time < ttl && |SeenAfter(h, last.value)| < capacity
  }

  ghost predicate TimesRise<K>(h: seq<Sighting<K>>) {
    forall i, j :: 0 <= i < j < |h| ==> h[i].time <= h[j].time
  }

  // ---------- The dict without any limit ----------

  function Recency<K(==)>(h: seq<Sighting<K>>): seq<Item<K, real>> {
    if |h| == 0 then []
    else Refresh(Recency(h[..|h| - 1]), h[|h| - 1].identity, h[|h| - 1].time)
  }

  /** The item is the last sighting of its identity. */
  ghost predicate IsLast<K(!new)>(h: seq<Sighting<K>>, x: Item<K, real>) {
    LastSeen(h, x.key).Some? && h[LastSeen(h, x.key).value].time == x.value
  }

  ghost predicate SeenEarlier<K(!new)>(h: seq<Sighting<K>>, x: Item<K, real>, y: Item<K, real>) {
    IsLast(h, x) && IsLast(h, y) && LastSeen(h, x.key).value < LastSeen(h, y.key).value
  }

  /** One item for every identity, in the order of last sightings. */
  ghost predicate InOrderOfSighting<K(!new)>(h: seq<Sighting<K>>, d: seq<Item<K, real>>) {
    && (forall x :: x in d ==> IsLast(h, x))
    && (forall p, q :: 0 <= p < q < |d| ==> SeenEarlier(h, d[p], d[q]))
    && (forall i :: 0 <= i < |h| ==> Has(d, h[i].identity))
  }

  lemma {:induction false} LastSeenStep<K(!new)>(h: seq<Sighting<K>>, s: Sighting<K>, x: K)
    ensures LastSeen(h + [s], x) == if s.identity == x then Some(|h|) else LastSeen(h, x)
  {
    assert (h + [s])[..|h|] == h;
  }

  /** Dropping a key keeps the order of the rest. */
  lemma {:induction false} WithoutKeepsOrder<K(!new)>(h: seq<Sighting<K>>, d: seq<Item<K, real>>, key: K)
    requires forall p, q :: 0 <= p < q < |d| ==> SeenEarlier(h, d[p], d[q])
    ensures var rest := Without(d, key); forall p, q :: 0 <= p < q < |rest| ==> SeenEarlier(h, rest[p], rest[q])
  {
    hide SeenEarlier;
    if |d| > 0 {
      var n := |d| - 1;
      WithoutKeepsOrder(h, d[..n], key);
      WithoutMembers(d[..n], key);
      var rest := Without(d[..n], key);
      forall p | 0 <= p < |rest| ensures SeenEarlier(h, rest[p], d[n]) {
        assert rest[p] in rest;
        assert rest[p] in d[..n];
      }
    }
  }

  lemma {:induction false} OneSighting<K(!new)>(h: seq<Sighting<K>>, d: seq<Item<K, real>>, s: Sighting<K>)
    requires InOrderOfSighting(h, d)
    ensures InOrderOfSighting(h + [s], Refresh(d, s.identity, s.time))
  {
    var more, rest := Refresh(d, s.identity, s.time), Without(d, s.identity);
    WithoutMembers(d, s.identity);
    WithoutKeepsOrder(h, d, s.identity);
    LastSeenStep(h, s, s.identity);
    forall x | x in rest ensures LastSeen(h + [s], x.key) == LastSeen(h, x.key) && IsLast(h + [s], x) {
      LastSeenStep(h, s, x.key);
      assert IsLast(h, x);
    }
    forall p, q | 0 <= p < q < |more| ensures SeenEarlier(h + [s], more[p], more[q]) {
      assert rest[p] in rest;
      assert q < |rest| ==> rest[q] in rest && SeenEarlier(h, rest[p], rest[q]);
    }
    forall i | 0 <= i < |h| + 1 ensures Has(more, (h + [s])[i].identity) {
      StillThere(d, s.identity, s.time, (h + [s])[i].identity, i < |h|);
    }
  }

  lemma {:induction false} StillThere<K(!new)>(d: seq<Item<K, real>>, key: K, value: real, x: K, known: bool)
    requires known ==> Has(d, x)
    requires !known ==> x == key
    ensures Has(Refresh(d, key, value), x)
  {
    var more := Refresh(d, key, value);
    if x == key {
      assert more[|more| - 1].key == key;
    } else {
      GetIsMember(d, x);
      WithoutMembers(d, key);
      var item := Item(x, Get(d, x).value);
      assert item in Without(d, key);
      assert item in more;
      var i :| 0 <= i < |more| && more[i] == item;
      assert more[i].key == x;
    }
  }

  lemma {:induction false} RecencyInOrder<K(!new)>(h: seq<Sighting<K>>)
    ensures InOrderOfSighting(h, Recency(h))
  {
    if |h| > 0 {
      var n := |h| - 1;
      RecencyInOrder(h[..n]);
      OneSighting(h[..n], Recency(h[..n]), h[n]);
      assert h == h[..n] + [h[n]];
    }
  }

  lemma {:induction false} NextBehind<K(!new)>(h: seq<Sighting<K>>, d: seq<Item<K, real>>, p: nat)
    requires InOrderOfSighting(h, d) && p + 1 < |d|
    ensures IsLast(h, d[p]) && IsLast(h, d[p + 1])
    ensures var j, k := LastSeen(h, d[p].key).value, LastSeen(h, d[p + 1].key).value;
            SeenAfter(h, j) == SeenAfter(h, k) + {d[p + 1].key} && d[p + 1].key !in SeenAfter(h, k)
  {
    PositionsInOrder(h, d, p, p + 1);
    var j, k := LastSeen(h, d[p].key).value, LastSeen(h, d[p + 1].key).value;
    forall y | y in SeenAfter(h, j) ensures y in SeenAfter(h, k) || y == d[p + 1].key {
      var i :| j < i < |h| && h[i].identity == y;
      var q := PositionOf(h, d, y);
      PositionsInOrder(h, d, p, q);
      PositionsInOrder(h, d, p + 1, q);
    }
  }

  lemma {:induction false} PositionsInOrder<K(!new)>(h: seq<Sighting<K>>, d: seq<Item<K, real>>, p: nat, q: nat)
    requires InOrderOfSighting(h, d) && p < |d| && q < |d|
    ensures IsLast(h, d[p]) && IsLast(h, d[q])
    ensures p < q <==> LastSeen(h, d[p].key).value < LastSeen(h, d[q].key).value
    ensures p == q || d[p].key != d[q].key
  {
    assert d[p] in d && d[q] in d;
    assert p < q ==> SeenEarlier(h, d[p], d[q]);
    assert q < p ==> SeenEarlier(h, d[q], d[p]);
  }

  lemma {:induction false} PositionOf<K(!new)>(h: seq<Sighting<K>>, d: seq<Item<K, real>>, x: K) returns (p: nat)
    requires InOrderOfSighting(h, d) && LastSeen(h, x).Some?
    ensures p < |d| && d[p].key == x
  {
    assert Has(d, h[LastSeen(h, x).value].identity);
    p :| 0 <= p < |d| && d[p].key == x;
  }

  /** The items behind one are the identities sighted since. */
  lemma {:induction false} ItemsBehind<K(!new)>(h: seq<Sighting<K>>, d: seq<Item<K, real>>, p: nat)
    requires InOrderOfSighting(h, d) && p < |d|
    ensures IsLast(h, d[p]) && |SeenAfter(h, LastSeen(h, d[p].key).value)| == |d| - 1 - p
    decreases |d| - p
  {
    assert d[p] in d;
    if p + 1 < |d| {
      ItemsBehind(h, d, p + 1);
      NextBehind(h, d, p);
    } else {
      var j := LastSeen(h, d[p].key).value;
      forall y ensures y !in SeenAfter(h, j) {
        if LastSeen(h, y).Some? {
          var q := PositionOf(h, d, y);
          PositionsInOrder(h, d, p, q);
        }
      }
      assert SeenAfter(h, j) == {};
    }
  }

  // ---------- What the limits leave of it ----------

  ghost predicate AllExpired<K(!new)>(d: seq<Item<K, real>>, now: real, ttl: real) {
    forall x :: x in d ==> now - x.value >= ttl
  }

  ghost predicate AllFresh<K(!new)>(d: seq<Item<K, real>>, now: real, ttl: real) {
    forall x :: x in d ==> now - x.value < ttl
  }

  ghost function LastTime<K>(h: seq<Sighting<K>>): Option<real> {
    if |h| == 0 then None else Some(h[|h| - 1].time)
  }

  /** The entries are the newest sightings; the older ones expired, or the dict is full. */
  ghost predicate Keeps<K(!new)>(h: seq<Sighting<K>>, older: seq<Item<K, real>>, entries: seq<Item<K, real>>,
                                 now: real, ttl: real, capacity: nat)
  {
    && Recency(h) == older + entries && |entries| <= capacity
    && (AllExpired(older, now, ttl) || |entries| == capacity)
  }

  lemma {:induction false} RememberedIff<K(!new)>(h: seq<Sighting<K>>, older: seq<Item<K, real>>,
                                                  entries: seq<Item<K, real>>,
                                                  now: real, ttl: real, capacity: nat, x: K)
    requires Keeps(h, older, entries, now, ttl, capacity) && AllFresh(entries, now, ttl)
    ensures Has(entries, x) <==> Recalled(h, x, now, ttl, capacity)
  {
    RecencyInOrder(h);
    hide Recency, LastSeen, InOrderOfSighting;
    var d := older + entries;
    if Has(entries, x) {
      var q :| 0 <= q < |entries| && entries[q].key == x;
      assert d[|older| + q] == entries[q] && entries[q] in entries;
      ItemsBehind(h, d, |older| + q);
    }
    if Recalled(h, x, now, ttl, capacity) {
      var p := PositionOf(h, d, x);
      ItemsBehind(h, d, p);
      PlaceInJoined(older, entries, p);
      assert p >= |older|;
    }
  }

  lemma {:induction false} PlaceInJoined<T>(a: seq<T>, b: seq<T>, p: nat)
    requires p < |a + b|
    ensures if p < |a| then (a + b)[p] in a else (a + b)[p] == b[p - |a|] && b[p - |a|] in b
  {
  }

  /** Older sightings have earlier times. */
  lemma {:induction false} RecencyTimesRise<K(!new)>(h: seq<Sighting<K>>, p: nat, q: nat)
    requires TimesRise(h) && p < q < |Recency(h)|
    ensures Recency(h)[p].value <= Recency(h)[q].value
  {
    RecencyInOrder(h);
    hide Recency;
    assert SeenEarlier(h, Recency(h)[p], Recency(h)[q]);
  }

  lemma {:induction false} WithoutAppend<K(!new)>(a: seq<Item<K, real>>, b: seq<Item<K, real>>, key: K)
    ensures Without(a + b, key) == Without(a, key) + Without(b, key)
    decreases |b|
  {
    if |b| == 0 {
      assert a + b == a;
    } else {
      WithoutAppend(a, b[..|b| - 1], key);
      assert (a + b)[..|a + b| - 1] == a + b[..|b| - 1];
    }
  }

  lemma {:induction false} RecencyStep<K(!new)>(h: seq<Sighting<K>>, older: seq<Item<K, real>>,
                                                entries: seq<Item<K, real>>,
                                                s: Sighting<K>)
    requires Recency(h) == older + entries
    ensures Recency(h + [s])
         == Without(older, s.identity) + Without(entries, s.identity) + [Item(s.identity, s.time)]
  {
    assert (h + [s])[..|h|] == h;
    WithoutAppend(older, entries, s.identity);
  }

  class BoundedTTLDeduplicator<K(==, !new)> {
    const capacity: nat
    const ttl: real
    var entries: seq<Item<K, real>>
    var lastNow: Option<real>
    /** All sightings since the last clear, and the forgotten part of their last ones. */
    ghost var history: seq<Sighting<K>>
    ghost var older: seq<Item<K, real>>

    ghost predicate Valid()
      reads this
    {
      && capacity >= 1 && ttl > 0.0 && TimesRise(history) && lastNow == LastTime(history)
      && (lastNow.None? ==> entries == [] && older == [])
      && (lastNow.Some? ==> Keeps(history, older, entries, lastNow.value, ttl, capacity))
    }

    constructor (capacity: nat, ttl: real)
      requires capacity >= 1 && ttl > 0.0
      ensures Valid() && history == [] && this.capacity == capacity && this.ttl == ttl
    {
      this.capacity, this.ttl := capacity, ttl;
      entries, lastNow, history, older := [], None, [], [];
    }

    method Clear()
      requires Valid()
      modifies this
      ensures Valid() && history == [] && entries == []
    {
      entries, lastNow, history, older := [], None, [], [];
    }

    /** Pop the oldest entries that outlived their time. */
    method Expire(now: real)
      requires capacity >= 1 && TimesRise(history) && Keeps(history, older, entries, now, ttl, capacity)
      modifies this`entries, this`older
      ensures Keeps(history, older, entries, now, ttl, capacity) && AllFresh(entries, now, ttl)
    {
      hide Recency;
      while |entries| > 0 && now - entries[0].value >= ttl
        invariant Keeps(history, older, entries, now, ttl, capacity)
        decreases |entries|
      {
        ExpireStep(history, older, entries, now, ttl, capacity);
        older := older + [entries[0]];
        entries := entries[1..];
      }
      FrontIsOldest(history, older, entries, now, ttl);
    }

    /**
     True exactly for an identity last sighted within the time to live with fewer than
     `capacity` other identities since. Time may not run backwards.
     */
    method SeenOrAdd(identity: K, now: real) returns (r: Result<bool>)
      requires Valid()
      modifies this
      ensures Valid() && |entries| <= capacity
      ensures r.Failure? <==> old(lastNow).Some? && now < old(lastNow).value
      ensures r.Failure? ==> history == old(history) && entries == old(entries)
      ensures r.Success? ==> history == old(history) + [Sighting(identity, now)]
      ensures r.Success? ==> r.value == Recalled(old(history), identity, now, ttl, capacity)
    {
      hide Recency, Recalled, Without;
      if lastNow.Some? && now < lastNow.value {
        return Failure("monotonic time cannot move backwards");
      }
      LaterNow(history, older, entries, lastNow, now, ttl, capacity);
      lastNow := Some(now);
      Expire(now);
      RememberedIff(history, older, entries, now, ttl, capacity, identity);
      var seen := Has(entries, identity);
      Remember(identity, now);
      return Success(seen);
    }

    /** Refresh or add the entry, and evict the oldest one beyond the capacity. */
    method Remember(identity: K, now: real)
      requires capacity >= 1 && TimesRise(history) && Keeps(history, older, entries, now, ttl, capacity)
      requires |history| > 0 ==> history[|history| - 1].time <= now
      modifies this`entries, this`older, this`history
      ensures history == old(history) + [Sighting(identity, now)] && TimesRise(history)
      ensures Keeps(history, older, entries, now, ttl, capacity)
    {
      hide Recency, Without;
      RememberStep(history, older, entries, now, ttl, capacity, identity);
      history := history + [Sighting(identity, now)];
      if Has(entries, identity) {
        entries := Refresh(entries, identity, now);
      } else {
        older := Without(older, identity);
        entries := entries + [Item(identity, now)];
        if |entries| > capacity {
          older := older + [entries[0]];
          entries := entries[1..];
        }
      }
    }
  }

  lemma {:induction false} ExpireStep<K(!new)>(h: seq<Sighting<K>>, older: seq<Item<K, real>>,
                                               entries: seq<Item<K, real>>,
                                               now: real, ttl: real, capacity: nat)
    requires TimesRise(h) && Keeps(h, older, entries, now, ttl, capacity)
    requires |entries| > 0 && now - entries[0].value >= ttl
    ensures Keeps(h, older + [entries[0]], entries[1..], now, ttl, capacity)
  {
    var d := Recency(h);
    hide Recency;
    assert older + [entries[0]] + entries[1..] == older + entries;
    forall x | x in older ensures now - x.value >= ttl {
      var p :| 0 <= p < |older| && older[p] == x;
      RecencyTimesRise(h, p, |older|);
      assert d[p] == x && d[|older|] == entries[0];
    }
  }

  lemma {:induction false} FrontIsOldest<K(!new)>(h: seq<Sighting<K>>, older: seq<Item<K, real>>,
                                                  entries: seq<Item<K, real>>,
                                                  now: real, ttl: real)
    requires TimesRise(h) && Recency(h) == older + entries
    requires |entries| > 0 ==> now - entries[0].value < ttl
    ensures AllFresh(entries, now, ttl)
  {
    var d := Recency(h);
    hide Recency;
    forall x | x in entries ensures now - x.value < ttl {
      var q :| 0 <= q < |entries| && entries[q] == x;
      if q > 0 {
        RecencyTimesRise(h, |older|, |older| + q);
        assert d[|older|] == entries[0] && d[|older| + q] == x;
      }
    }
  }

  lemma {:induction false} LaterNow<K(!new)>(h: seq<Sighting<K>>, older: seq<Item<K, real>>,
                                             entries: seq<Item<K, real>>,
                                             lastNow: Option<real>, now: real, ttl: real, capacity: nat)
    requires lastNow == LastTime(h)
    requires lastNow.None? ==> entries == [] && older == []
    requires lastNow.Some? ==> lastNow.value <= now && Keeps(h, older, entries, lastNow.value, ttl, capacity)
    ensures Keeps(h, older, entries, now, ttl, capacity)
  {
  }

  lemma {:induction false} RememberStep<K(!new)>(h: seq<Sighting<K>>, older: seq<Item<K, real>>,
                                                 entries: seq<Item<K, real>>,
                                                 now: real, ttl: real, capacity: nat, x: K)
    requires Keeps(h, older, entries, now, ttl, capacity) && capacity >= 1
    ensures var more := h + [Sighting(x, now)];
            if Has(entries, x) then Keeps(more, older, Refresh(entries, x, now), now, ttl, capacity)
            else
              var extended := entries + [Item(x, now)];
              if |extended| > capacity
              then Keeps(more, Without(older, x) + [extended[0]], extended[1..], now, ttl, capacity)
              else Keeps(more, Without(older, x), extended, now, ttl, capacity)
  {
    hide Recency, Without, Has, DistinctKeys;
    RecencyStep(h, older, entries, Sighting(x, now));
    RecencyDistinct(h);
    WithoutMembers(older, x);
    if Has(entries, x) {
      OnlyOnce(older, entries, x);
      RefreshKeepsDistinct(entries, x, now);
      WithoutMissing(older, x);
    } else {
      WithoutMissing(entries, x);
      var extended := entries + [Item(x, now)];
      assert Without(older, x) + entries + [Item(x, now)] == Without(older, x) + extended;
      assert Without(older, x) + extended == Without(older, x) + [extended[0]] + extended[1..];
    }
  }

  lemma {:induction false} RecencyDistinct<K(!new)>(h: seq<Sighting<K>>)
    ensures DistinctKeys(Recency(h))
  {
    RecencyInOrder(h);
    hide Recency;
    forall p, q | 0 <= p < q < |Recency(h)| ensures Recency(h)[p].key != Recency(h)[q].key {
      assert SeenEarlier(h, Recency(h)[p], Recency(h)[q]);
    }
  }

  lemma {:induction false} OnlyOnce<K(!new)>(older: seq<Item<K, real>>, entries: seq<Item<K, real>>, x: K)
    requires DistinctKeys(older + entries) && Has(entries, x)
    ensures !Has(older, x) && DistinctKeys(entries)
  {
    var d := older + entries;
    var q :| 0 <= q < |entries| && entries[q].key == x;
    assert d[|older| + q].key == x;
    forall p | 0 <= p < |older| ensures older[p].key != x {
      assert d[p] == older[p];
    }
    forall i, j | 0 <= i < j < |entries| ensures entries[i].key != entries[j].key {
      assert d[|older| + i].key != d[|older| + j].key;
    }
  }
}
