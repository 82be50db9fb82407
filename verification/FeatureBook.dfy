/**
 The normalized order book behind feature calculation: generations, epochs, a bounded
 queue of updates waiting for a snapshot, and sorted replay of that queue.
 */
module FeatureBook {
  import opened Common
  import opened Sequences
  import opened Levels

  datatype Outcome = ACCEPTED | STALE_GENERATION | STALE_SEQUENCE | BUFFERED_FOR_SNAPSHOT | BOOK_INVALIDATED

  /** Sequence ids are `None` when absent or not numeric. */
  datatype BookUpdate = BookUpdate(generation: int, sequence: Option<int>, previous: Option<int>,
                                   bids: seq<Level>, asks: seq<Level>)

  datatype BookSnapshot = BookSnapshot(generation: int, sequence: Option<int>,
                                       bids: seq<Level>, asks: seq<Level>, at: int)

  datatype State = State(generation: int, epoch: nat, sequence: Option<int>, synchronized: bool,
                         since: Option<int>, bids: Side, asks: Side, pending: seq<BookUpdate>)

  datatype Input = Update(update: BookUpdate) | Snapshot(snapshot: BookSnapshot)

  // ---------- Operations as functions ----------

  const INITIAL := State(0, 0, None, false, None, map[], map[], [])

  predicate Crossed(bids: Side, asks: Side) {
    exists b, a :: b in bids && a in asks && b >= a
  }

  predicate TwoSided(bids: Side, asks: Side) {
    bids != map[] && asks != map[]
  }

  /** A zero or absent sequence keeps the old one (Python's `or`). */
  function Newer(sequence: Option<int>, current: Option<int>): Option<int> {
    if sequence.None? || sequence.value == 0 then current else sequence
  }

  function SortKey(u: BookUpdate): int {
    if u.sequence.None? || u.sequence.value == 0 then -1 else u.sequence.value
  }

  /** Stable sort by sequence. */
  function SortedBySequence(updates: seq<BookUpdate>): seq<BookUpdate> {
    SortByKey(SortKey, updates)
  }

  function Reset(s: State, generation: int, advanceEpoch: bool): State {
    State(generation, if advanceEpoch then s.epoch + 1 else s.epoch, None, false, None, map[], map[], [])
  }

  function Desynchronized(s: State): State {
    s.(synchronized := false, since := None)
  }

  /** Apply an update's levels; an empty or crossed result ends synchronization and keeps the old sequence. */
  function AppliedUpdate(s: State, u: BookUpdate): (State, bool) {
    var changed := s.(bids := ApplyLevels(s.bids, u.bids), asks := ApplyLevels(s.asks, u.asks));
    if TwoSided(changed.bids, changed.asks) && !Crossed(changed.bids, changed.asks)
    then (changed.(sequence := Newer(u.sequence, s.sequence)), true)
    else (Desynchronized(changed), false)
  }

  function Replayed(s: State, updates: seq<BookUpdate>): (State, Outcome)
    decreases |updates|
  {
    if |updates| == 0 then
      (s, if s.synchronized then ACCEPTED else BOOK_INVALIDATED)
    else
      var u := updates[0];
      if u.sequence.Some? && s.sequence.Some? && u.sequence.value <= s.sequence.value then
        Replayed(s, updates[1..])
      else if u.sequence.Some? && s.sequence.Some? && u.previous.Some? && u.previous.value > s.sequence.value then
        (Desynchronized(s), BOOK_INVALIDATED)
      else
        var (s', ok) := AppliedUpdate(s, u);
        if ok then Replayed(s', updates[1..]) else (s', BOOK_INVALIDATED)
  }

  function Buffered(s: State, u: BookUpdate, capacity: nat): (State, Outcome) {
    if |s.pending| >= capacity then (Reset(s, u.generation, true), BOOK_INVALIDATED)
    else (s.(pending := s.pending + [u]), BUFFERED_FOR_SNAPSHOT)
  }

  /** A snapshot that continues a synchronized stretch keeps its epoch and its start. */
  function Loaded(s: State, snapshot: BookSnapshot): State {
    var continuing := snapshot.generation == s.generation && s.synchronized;
    var bids, asks := Listed(snapshot.bids), Listed(snapshot.asks);
    var synchronized := TwoSided(bids, asks);
    var since := if !synchronized then None else if continuing then s.since else Some(snapshot.at);
    Reset(s, snapshot.generation, !continuing).(bids := bids, asks := asks, sequence := snapshot.sequence,
                                                synchronized := synchronized, since := since)
  }

  function Listed(levels: seq<Level>): Side
    decreases |levels|
  {
    if |levels| == 0 then map[]
    else Listed(levels[..|levels| - 1])[levels[|levels| - 1].price := levels[|levels| - 1].quantity]
  }

  function SnapshotApplied(s: State, snapshot: BookSnapshot): (State, Outcome) {
    if snapshot.generation < s.generation then
      (s, STALE_GENERATION)
    else if snapshot.generation == s.generation && s.synchronized && snapshot.sequence.Some? && s.sequence.Some?
            && snapshot.sequence.value <= s.sequence.value then
      (s, STALE_SEQUENCE)
    else
      var pending := if snapshot.generation == s.generation then s.pending else [];
      var loaded := Loaded(s, snapshot);
      if loaded.synchronized && Crossed(loaded.bids, loaded.asks) then
        (Desynchronized(loaded), BOOK_INVALIDATED)
      else
        Replayed(loaded, SortedBySequence(pending))
  }

  function UpdateApplied(s: State, u: BookUpdate, capacity: nat): (State, Outcome) {
    if u.generation < s.generation then
      (s, STALE_GENERATION)
    else if u.generation > s.generation then
      Buffered(Reset(s, u.generation, true), u, capacity)
    else if !s.synchronized then
      Buffered(s, u, capacity)
    else if u.sequence.Some? && s.sequence.Some? && u.sequence.value <= s.sequence.value then
      (s, STALE_SEQUENCE)
    else if u.sequence.Some? && s.sequence.Some? && u.previous.Some? && u.previous.value != s.sequence.value then
      Buffered(Desynchronized(s).(pending := []), u, capacity)
    else
      var (s', ok) := AppliedUpdate(s, u);
      (s', if ok then ACCEPTED else BOOK_INVALIDATED)
  }

  function Step(s: State, input: Input, capacity: nat): (State, Outcome) {
    match input
    case Update(u) => UpdateApplied(s, u, capacity)
    case Snapshot(snapshot) => SnapshotApplied(s, snapshot)
  }

  function Run(inputs: seq<Input>, capacity: nat): State {
    if |inputs| == 0 then INITIAL
    else Step(Run(inputs[..|inputs| - 1], capacity), inputs[|inputs| - 1], capacity).0
  }

  // ---------- Sorting ----------

  lemma {:induction false} SortKeepsUpdates(updates: seq<BookUpdate>)
    ensures multiset(SortedBySequence(updates)) == multiset(updates)
    ensures KeysAscend(SortKey, SortedBySequence(updates))
  {
    SortByKeySorts(SortKey, updates);
    SortByKeyMembers(SortKey, updates);
  }

  // ---------- Invariant and epochs ----------

  ghost predicate Consistent(s: State, capacity: nat) {
    && |s.pending| <= capacity
    && (s.synchronized ==> s.pending == [] && s.since.Some? && TwoSided(s.bids, s.asks) && !Crossed(s.bids, s.asks))
    && (!s.synchronized ==> s.since.None?)
    && (forall u :: u in s.pending ==> u.generation == s.generation)
  }

  /** Replay keeps everything but the book, and can only end synchronization. */
  lemma {:induction false} ReplayedKeeps(s: State, updates: seq<BookUpdate>, capacity: nat)
    requires Consistent(s, capacity) && s.pending == []
    ensures var (s', r) := Replayed(s, updates);
            && Consistent(s', capacity) && s'.pending == [] && s'.generation == s.generation && s'.epoch == s.epoch
            && (s'.synchronized ==> s.synchronized && s'.since == s.since)
            && (r == ACCEPTED <==> s'.synchronized) && (r != ACCEPTED ==> r == BOOK_INVALIDATED)
    decreases |updates|
  {
    if |updates| > 0 {
      var u := updates[0];
      if u.sequence.Some? && s.sequence.Some? && u.sequence.value <= s.sequence.value {
        ReplayedKeeps(s, updates[1..], capacity);
      } else if AppliedUpdate(s, u).1 {
        ReplayedKeeps(AppliedUpdate(s, u).0, updates[1..], capacity);
      }
    }
  }

  /** One call: nothing goes backwards, and synchronization starts only by opening an epoch. */
  lemma {:induction false} StepKeeps(s: State, input: Input, capacity: nat)
    requires capacity >= 1 && Consistent(s, capacity)
    ensures var s' := Step(s, input, capacity).0;
            && Consistent(s', capacity) && s'.generation >= s.generation && s'.epoch >= s.epoch
            && (s'.synchronized && !s.synchronized ==> s'.epoch > s.epoch)
            && (s'.synchronized && s.synchronized && s'.epoch == s.epoch ==> s'.since == s.since)
            && (s'.synchronized && s'.generation != s.generation ==> s'.epoch > s.epoch)
  {
    if input.Snapshot? {
      var snapshot := input.snapshot;
      var loaded := Loaded(s, snapshot);
      var pending := if snapshot.generation == s.generation then s.pending else [];
      if snapshot.generation >= s.generation && !(loaded.synchronized && Crossed(loaded.bids, loaded.asks)) {
        ReplayedKeeps(loaded, SortedBySequence(pending), capacity);
      }
    }
  }

  lemma {:induction false} RunConsistent(inputs: seq<Input>, capacity: nat)
    requires capacity >= 1
    ensures Consistent(Run(inputs, capacity), capacity)
  {
    if |inputs| > 0 {
      RunConsistent(inputs[..|inputs| - 1], capacity);
      StepKeeps(Run(inputs[..|inputs| - 1], capacity), inputs[|inputs| - 1], capacity);
    }
  }

  /** The book after the first `i` inputs. */
  function After(inputs: seq<Input>, i: nat, capacity: nat): State
    requires i <= |inputs|
  {
    Run(inputs[..i], capacity)
  }

  lemma {:induction false} NextKeeps(inputs: seq<Input>, i: nat, capacity: nat)
    requires capacity >= 1 && i < |inputs|
    ensures Consistent(After(inputs, i, capacity), capacity)
    ensures After(inputs, i + 1, capacity) == Step(After(inputs, i, capacity), inputs[i], capacity).0
  {
    RunConsistent(inputs[..i], capacity);
    assert inputs[..i + 1][..i] == inputs[..i];
  }

  /** Generation and epoch never decrease; synchronization, once lost, returns only in a later epoch. */
  lemma {:induction false} EpochsAdvance(inputs: seq<Input>, i: nat, j: nat, capacity: nat)
    requires capacity >= 1 && i <= j <= |inputs|
    ensures After(inputs, i, capacity).generation <= After(inputs, j, capacity).generation
    ensures After(inputs, i, capacity).epoch <= After(inputs, j, capacity).epoch
    ensures !After(inputs, i, capacity).synchronized && After(inputs, j, capacity).synchronized ==>
              After(inputs, i, capacity).epoch < After(inputs, j, capacity).epoch
    decreases j - i
  {
    if i < j {
      NextKeeps(inputs, i, capacity);
      StepKeeps(After(inputs, i, capacity), inputs[i], capacity);
      EpochsAdvance(inputs, i + 1, j, capacity);
    }
  }

  /** An epoch holds one unbroken synchronized stretch, with one start and one generation. */
  lemma {:induction false} EpochIsOneStretch(inputs: seq<Input>, i: nat, k: nat, j: nat, capacity: nat)
    requires capacity >= 1 && i <= k <= j <= |inputs|
    requires After(inputs, i, capacity).synchronized && After(inputs, j, capacity).synchronized
    requires After(inputs, i, capacity).epoch == After(inputs, j, capacity).epoch
    ensures var s := After(inputs, k, capacity);
            && s.synchronized && s.epoch == After(inputs, i, capacity).epoch
            && s.since == After(inputs, i, capacity).since && s.generation == After(inputs, i, capacity).generation
    decreases k - i
  {
    EpochsAdvance(inputs, i, k, capacity);
    EpochsAdvance(inputs, k, j, capacity);
    if i < k {
      NextKeeps(inputs, i, capacity);
      StepKeeps(After(inputs, i, capacity), inputs[i], capacity);
      EpochsAdvance(inputs, i + 1, j, capacity);
      EpochIsOneStretch(inputs, i + 1, k, j, capacity);
    }
  }

  /** What a call reports about the book it leaves behind. */
  lemma {:induction false} OutcomeTells(s: State, input: Input, capacity: nat)
    requires capacity >= 1 && Consistent(s, capacity)
    ensures var (s', r) := Step(s, input, capacity);
            && (r == ACCEPTED ==> s'.synchronized)
            && (s'.synchronized ==> r in {ACCEPTED, STALE_GENERATION, STALE_SEQUENCE})
            && (r in {STALE_GENERATION, STALE_SEQUENCE} ==> s' == s)
            && (r == BOOK_INVALIDATED ==> !s'.synchronized)
            && (r == BUFFERED_FOR_SNAPSHOT ==>
                  && !s'.synchronized && input.Update?
                  && |s'.pending| > 0 && s'.pending[|s'.pending| - 1] == input.update)
  {
    if input.Snapshot? && !Crossed(Loaded(s, input.snapshot).bids, Loaded(s, input.snapshot).asks) {
      var pending := if input.snapshot.generation == s.generation then s.pending else [];
      ReplayedKeeps(Loaded(s, input.snapshot), SortedBySequence(pending), capacity);
    }
  }

  // ---------- The book is the exchange's book ----------

  /** Each generation of the local book follows its own exchange history. */
  type Histories = int -> History

  ghost predicate FaithfulUpdate(hs: Histories, u: BookUpdate) {
    && u.sequence.Some? && u.previous.Some? && u.sequence.value > 0 && u.previous.value <= u.sequence.value
    && Carries(hs(u.generation).bids, u.bids, u.previous.value, u.sequence.value)
    && Carries(hs(u.generation).asks, u.asks, u.previous.value, u.sequence.value)
  }

  ghost predicate FaithfulSnapshot(hs: Histories, s: BookSnapshot) {
    && s.sequence.Some? && s.sequence.value > 0
    && (forall i :: 0 <= i < |s.bids| ==> s.bids[i].quantity > 0.0)
    && (forall i :: 0 <= i < |s.asks| ==> s.asks[i].quantity > 0.0)
    && ListsAll(hs(s.generation).bids, s.bids, s.sequence.value)
    && ListsAll(hs(s.generation).asks, s.asks, s.sequence.value)
  }

  ghost predicate Faithful(hs: Histories, input: Input) {
    match input
    case Update(u) => FaithfulUpdate(hs, u)
    case Snapshot(s) => FaithfulSnapshot(hs, s)
  }

  ghost predicate Agrees(s: State, hs: Histories) {
    s.sequence.Some? && Book(s.bids, s.asks) == BookAt(hs(s.generation), s.sequence.value)
  }

  ghost predicate Tracks(s: State, hs: Histories) {
    && (s.synchronized ==> Agrees(s, hs))
    && (forall u :: u in s.pending ==> FaithfulUpdate(hs, u))
  }

  lemma {:induction false} ListedPositive(levels: seq<Level>)
    requires forall i :: 0 <= i < |levels| ==> levels[i].quantity > 0.0
    ensures Listed(levels) == SideOf(levels)
    decreases |levels|
  {
    if |levels| > 0 {
      ListedPositive(levels[..|levels| - 1]);
    }
  }

  /** The last level a snapshot lists for a price decides it, whatever its quantity. */
  lemma {:induction false} LastListedDecides(levels: seq<Level>, p: real, i: int)
    requires LastAt(levels, p, i)
    ensures if i < 0 then p !in Listed(levels) else p in Listed(levels) && Listed(levels)[p] == levels[i].quantity
    decreases |levels|
  {
    var n := |levels| - 1;
    if 0 <= n && i < n {
      LastListedDecides(levels[..n], p, i);
    }
  }

  /** The replay check `previous <= sequence_id < sequence` is enough to advance the book. */
  lemma {:induction false} AppliedAgrees(s: State, u: BookUpdate, hs: Histories)
    requires Agrees(s, hs) && FaithfulUpdate(hs, u) && u.generation == s.generation
    requires u.previous.value <= s.sequence.value <= u.sequence.value
    ensures AppliedUpdate(s, u).1 ==> Agrees(AppliedUpdate(s, u).0, hs)
    ensures Book(ApplyLevels(s.bids, u.bids), ApplyLevels(s.asks, u.asks)) == BookAt(hs(s.generation), u.sequence.value)
  {
    var h := hs(s.generation);
    CarriedLevelsAdvanceSide(h.bids, u.bids, u.previous.value, s.sequence.value, u.sequence.value);
    CarriedLevelsAdvanceSide(h.asks, u.asks, u.previous.value, s.sequence.value, u.sequence.value);
  }

  lemma {:induction false} ReplayedAgrees(s: State, updates: seq<BookUpdate>, hs: Histories)
    requires Agrees(s, hs)
    requires forall u :: u in updates ==> FaithfulUpdate(hs, u) && u.generation == s.generation
    ensures Replayed(s, updates).0.synchronized ==> Agrees(Replayed(s, updates).0, hs)
    decreases |updates|
  {
    if |updates| > 0 {
      var u := updates[0];
      if u.sequence.value <= s.sequence.value {
        ReplayedAgrees(s, updates[1..], hs);
      } else if u.previous.value <= s.sequence.value {
        AppliedAgrees(s, u, hs);
        if AppliedUpdate(s, u).1 {
          ReplayedAgrees(AppliedUpdate(s, u).0, updates[1..], hs);
        }
      }
    }
  }

  lemma {:induction false} LoadedAgrees(s: State, snapshot: BookSnapshot, hs: Histories)
    requires FaithfulSnapshot(hs, snapshot)
    ensures Agrees(Loaded(s, snapshot), hs)
  {
    var h := hs(snapshot.generation);
    ListedPositive(snapshot.bids);
    ListedPositive(snapshot.asks);
    SnapshotRebuildsSide(h.bids, snapshot.bids, snapshot.sequence.value);
    SnapshotRebuildsSide(h.asks, snapshot.asks, snapshot.sequence.value);
  }

  lemma {:induction false} StepTracks(s: State, input: Input, hs: Histories, capacity: nat)
    requires capacity >= 1 && Consistent(s, capacity) && Tracks(s, hs) && Faithful(hs, input)
    ensures Tracks(Step(s, input, capacity).0, hs)
  {
    match input
    case Update(u) =>
      if u.generation == s.generation && s.synchronized && u.previous.value == s.sequence.value {
        AppliedAgrees(s, u, hs);
      }
    case Snapshot(snapshot) =>
      if snapshot.generation >= s.generation {
        var pending := if snapshot.generation == s.generation then s.pending else [];
        var loaded := Loaded(s, snapshot);
        LoadedAgrees(s, snapshot, hs);
        SortByKeyMembers(SortKey, pending);
        ReplayedAgrees(loaded, SortedBySequence(pending), hs);
        if !(loaded.synchronized && Crossed(loaded.bids, loaded.asks)) {
          ReplayedKeeps(loaded, SortedBySequence(pending), capacity);
        }
      }
  }

  /**
   Main result: over every run of updates and snapshots across generations, a synchronized
   book is the exchange's book at its sequence id, two-sided and uncrossed.
   */
  lemma {:induction false} SynchronizedBookIsExchangeBook(inputs: seq<Input>, hs: Histories, capacity: nat)
    requires capacity >= 1
    requires forall i :: 0 <= i < |inputs| ==> Faithful(hs, inputs[i])
    ensures Tracks(Run(inputs, capacity), hs)
    ensures var s := Run(inputs, capacity);
            s.synchronized ==>
              && s.sequence.Some? && Book(s.bids, s.asks) == BookAt(hs(s.generation), s.sequence.value)
              && Proper(s.bids, s.asks)
  {
    RunConsistent(inputs, capacity);
    ProperIff(Run(inputs, capacity).bids, Run(inputs, capacity).asks);
    if |inputs| > 0 {
      var n := |inputs| - 1;
      SynchronizedBookIsExchangeBook(inputs[..n], hs, capacity);
      RunConsistent(inputs[..n], capacity);
      StepTracks(Run(inputs[..n], capacity), inputs[n], hs, capacity);
    }
  }

  // ---------- Replay fails only on a real gap or a bad exchange book ----------

  /** Each side has a level, and every bid is below every ask. */
  ghost predicate Proper(bids: Side, asks: Side) {
    (exists b :: b in bids) && (exists a :: a in asks) && forall b, a :: b in bids && a in asks ==> b < a
  }

  lemma {:induction false} ProperIff(bids: Side, asks: Side)
    ensures Proper(bids, asks) <==> TwoSided(bids, asks) && !Crossed(bids, asks)
  {
    SideHasLevel(bids);
    SideHasLevel(asks);
  }

  lemma {:induction false} SideHasLevel(side: Side)
    ensures side != map[] <==> exists p :: p in side
  {
    assert (forall p :: p !in side) ==> side == map[];
  }

  ghost predicate Healthy(h: History) {
    forall n :: n > 0 ==> Proper(SideAt(h.bids, n), SideAt(h.asks, n))
  }

  ghost predicate Numbered(updates: seq<BookUpdate>) {
    forall n :: 0 <= n < |updates| ==> updates[n].sequence.Some? && updates[n].previous.Some?
  }

  /** Update `n` is no newer than `from`, or starts at or before `from` or the end of an earlier update. */
  ghost predicate Connects(updates: seq<BookUpdate>, n: nat, from: int)
    requires n < |updates| && Numbered(updates)
  {
    || updates[n].sequence.value <= from
    || updates[n].previous.value <= from
    || exists m :: 0 <= m < n && updates[n].previous.value <= updates[m].sequence.value
  }

  /** The updates leave no hole behind `from`. */
  ghost predicate NoHole(updates: seq<BookUpdate>, from: int)
    requires Numbered(updates)
  {
    forall n :: 0 <= n < |updates| ==> Connects(updates, n, from)
  }

  /** Replay of the updates from `i` on, when those before it have brought the book to their newest sequence. */
  lemma {:induction false} ReplayFrom(s: State, updates: seq<BookUpdate>, i: nat, from: int, hs: Histories)
    requires Agrees(s, hs) && s.synchronized && s.sequence.value >= from > 0 && Healthy(hs(s.generation))
    requires forall u :: u in updates ==> FaithfulUpdate(hs, u) && u.generation == s.generation
    requires Numbered(updates)
    requires i <= |updates| && forall m :: 0 <= m < i ==> updates[m].sequence.value <= s.sequence.value
    requires s.sequence.value == from || exists m :: 0 <= m < i && updates[m].sequence == s.sequence
    ensures Replayed(s, updates[i..]).1 == ACCEPTED
            <==> forall n :: i <= n < |updates| ==> Connects(updates, n, from)
    decreases |updates| - i
  {
    if i < |updates| {
      hide Carries, BookAt;
      var u := updates[i];
      assert u in updates && updates[i..][0] == u && updates[i..][1..] == updates[i + 1..];
      assert Connects(updates, i, from)
        <==> u.sequence.value <= s.sequence.value || u.previous.value <= s.sequence.value;
      if u.sequence.value <= s.sequence.value {
        ReplayFrom(s, updates, i + 1, from, hs);
      } else if u.previous.value <= s.sequence.value {
        AppliedAgrees(s, u, hs);
        AppliedIsHealthy(s, u, hs);
        hide AppliedUpdate, Agrees, Healthy;
        ReplayFrom(AppliedUpdate(s, u).0, updates, i + 1, from, hs);
      }
    }
  }

  lemma {:induction false} AppliedIsHealthy(s: State, u: BookUpdate, hs: Histories)
    requires Agrees(s, hs) && FaithfulUpdate(hs, u) && u.generation == s.generation && Healthy(hs(s.generation))
    requires u.previous.value <= s.sequence.value <= u.sequence.value && s.synchronized
    ensures var (s', ok) := AppliedUpdate(s, u);
            ok && s'.synchronized && s'.sequence == u.sequence && s'.generation == s.generation
  {
    AppliedAgrees(s, u, hs);
  }

  /** Over a healthy exchange, replay of faithful updates succeeds exactly when they leave no hole. */
  lemma {:induction false} ReplaySucceedsIffCovered(s: State, updates: seq<BookUpdate>, hs: Histories)
    requires Agrees(s, hs) && s.synchronized && s.sequence.value > 0 && Healthy(hs(s.generation))
    requires forall u :: u in updates ==> FaithfulUpdate(hs, u) && u.generation == s.generation
    ensures Numbered(updates) && (Replayed(s, updates).1 == ACCEPTED <==> NoHole(updates, s.sequence.value))
  {
    assert forall n :: 0 <= n < |updates| ==> updates[n] in updates;
    ReplayFrom(s, updates, 0, s.sequence.value, hs);
    assert updates[0..] == updates;
  }

  predicate StaleSnapshot(s: State, snapshot: BookSnapshot) {
    || snapshot.generation < s.generation
    || (snapshot.generation == s.generation && s.synchronized && snapshot.sequence.Some? && s.sequence.Some?
        && snapshot.sequence.value <= s.sequence.value)
  }

  /**
   Over a healthy exchange a faithful snapshot is accepted exactly if it is not stale and the
   waiting updates of its generation, in the order of their sequences, leave no hole behind it.
   */
  lemma {:induction false} SnapshotAcceptedIff(s: State, snapshot: BookSnapshot, hs: Histories)
    requires (forall u :: u in s.pending ==> FaithfulUpdate(hs, u) && u.generation == s.generation)
    requires FaithfulSnapshot(hs, snapshot) && Healthy(hs(snapshot.generation))
    ensures var waiting := SortedBySequence(if snapshot.generation == s.generation then s.pending else []);
            && Numbered(waiting)
            && (SnapshotApplied(s, snapshot).1 == ACCEPTED
                <==> !StaleSnapshot(s, snapshot) && NoHole(waiting, snapshot.sequence.value))
  {
    hide Carries, Listed, SortByKey, Replayed, NoHole;
    var pending := if snapshot.generation == s.generation then s.pending else [];
    SortByKeyMembers(SortKey, pending);
    LoadedAgrees(s, snapshot, hs);
    var waiting := SortedBySequence(pending);
    assert forall n :: 0 <= n < |waiting| ==> waiting[n] in waiting;
    if !StaleSnapshot(s, snapshot) {
      ReplaySucceedsIffCovered(Loaded(s, snapshot), waiting, hs);
    }
  }

  // ---------- What waits for a snapshot ----------

  /** The update jumps over the book's sequence id, by the check of a synchronized book. */
  predicate Jumps(s: State, u: BookUpdate) {
    u.sequence.Some? && s.sequence.Some? && u.previous.Some?
    && u.sequence.value > s.sequence.value && u.previous.value != s.sequence.value
  }

  /**
   What one update does, by the state before it. An older generation changes nothing; a newer one
   starts over with the update alone; outside synchronization it joins the others, unless there is
   no room for it; in a synchronized book one that jumps is kept alone.
   */
  ghost predicate UpdateWaits(s: State, u: BookUpdate, capacity: nat, s': State, r: Outcome) {
    if u.generation < s.generation then
      s' == s && r == STALE_GENERATION
    else if u.generation > s.generation then
      && s'.generation == u.generation && s'.epoch == s.epoch + 1 && !s'.synchronized && s'.pending == [u]
      && s'.bids == map[] && s'.asks == map[] && s'.sequence.None? && r == BUFFERED_FOR_SNAPSHOT
    else if !s.synchronized && |s.pending| < capacity then
      s' == s.(pending := s.pending + [u]) && r == BUFFERED_FOR_SNAPSHOT
    else if !s.synchronized then
      && s'.generation == s.generation && s'.epoch == s.epoch + 1 && !s'.synchronized && s'.pending == []
      && s'.bids == map[] && s'.asks == map[] && s'.sequence.None? && r == BOOK_INVALIDATED
    else if u.sequence.Some? && s.sequence.Some? && u.sequence.value <= s.sequence.value then
      s' == s && r == STALE_SEQUENCE
    else if Jumps(s, u) then
      && s' == s.(synchronized := false, since := None, pending := [u]) && r == BUFFERED_FOR_SNAPSHOT
    else
      && s'.pending == [] && s'.generation == s.generation && s'.epoch == s.epoch
      && (r == ACCEPTED <==> s'.synchronized) && r in {ACCEPTED, BOOK_INVALIDATED}
      && (r == ACCEPTED ==>
            s'.sequence == if u.sequence.Some? && u.sequence.value != 0 then u.sequence else s.sequence)
      && (r == BOOK_INVALIDATED ==> s'.sequence == s.sequence && s'.since.None?)
      && s'.bids == ApplyLevels(s.bids, u.bids) && s'.asks == ApplyLevels(s.asks, u.asks)
      && (r == ACCEPTED <==> Proper(s'.bids, s'.asks))
  }

  /** A snapshot that is not stale takes the waiting updates out, whether it is accepted or not. */
  ghost predicate SnapshotWaits(s: State, snapshot: BookSnapshot, s': State, r: Outcome) {
    if StaleSnapshot(s, snapshot) then s' == s && r in {STALE_GENERATION, STALE_SEQUENCE}
    else
      && s'.pending == [] && s'.generation == snapshot.generation && r in {ACCEPTED, BOOK_INVALIDATED}
      && s'.epoch == s.epoch + (if snapshot.generation == s.generation && s.synchronized then 0 else 1)
      && (s'.synchronized && s'.epoch > s.epoch ==> s'.since == Some(snapshot.at))
  }

  lemma {:induction false} StepWaits(s: State, input: Input, capacity: nat)
    requires capacity >= 1 && Consistent(s, capacity)
    ensures var (s', r) := Step(s, input, capacity);
            match input
            case Update(u) => UpdateWaits(s, u, capacity, s', r)
            case Snapshot(snapshot) => SnapshotWaits(s, snapshot, s', r)
  {
    hide ApplyLevels, Crossed, TwoSided, SortByKey, Listed, Proper;
    if input.Update? {
      ProperIff(ApplyLevels(s.bids, input.update.bids), ApplyLevels(s.asks, input.update.asks));
    } else {
      var snapshot := input.snapshot;
      var loaded := Loaded(s, snapshot);
      var pending := if snapshot.generation == s.generation then s.pending else [];
      if StaleSnapshot(s, snapshot) {
        assert SnapshotApplied(s, snapshot).0 == s;
      } else if loaded.synchronized && Crossed(loaded.bids, loaded.asks) {
        assert SnapshotApplied(s, snapshot) == (Desynchronized(loaded), BOOK_INVALIDATED);
      } else {
        ReplayOnlyBook(loaded, SortedBySequence(pending));
      }
    }
  }

  /** Replay keeps everything but the book, its sequence and synchronization. */
  lemma {:induction false} ReplayOnlyBook(s: State, updates: seq<BookUpdate>)
    ensures var (s', r) := Replayed(s, updates);
            && s'.pending == s.pending && s'.generation == s.generation && s'.epoch == s.epoch
            && (s'.synchronized ==> s.synchronized && s'.since == s.since) && r in {ACCEPTED, BOOK_INVALIDATED}
    decreases |updates|
  {
    hide ApplyLevels, Crossed, TwoSided;
    if |updates| > 0 {
      var u := updates[0];
      if u.sequence.Some? && s.sequence.Some? && u.sequence.value <= s.sequence.value {
        ReplayOnlyBook(s, updates[1..]);
      } else if AppliedUpdate(s, u).1 {
        ReplayOnlyBook(AppliedUpdate(s, u).0, updates[1..]);
      }
    }
  }

  /** The updates of one generation among some inputs. */
  function UpdatesOf(inputs: seq<Input>, generation: int): seq<BookUpdate> {
    if |inputs| == 0 then []
    else
      var last := inputs[|inputs| - 1];
      UpdatesOf(inputs[..|inputs| - 1], generation)
      + (if last.Update? && last.update.generation == generation then [last.update] else [])
  }

  /** After the first `i` inputs of `after` the book still waits in the same generation and epoch. */
  ghost predicate StillWaits(before: seq<Input>, after: seq<Input>, i: nat, capacity: nat)
    requires i <= |after|
  {
    var s, s' := Run(before, capacity), Run(before + after[..i], capacity);
    !s'.synchronized && s'.generation == s.generation && s'.epoch == s.epoch
  }

  lemma {:induction false} RunNext(inputs: seq<Input>, input: Input, capacity: nat)
    ensures Run(inputs + [input], capacity) == Step(Run(inputs, capacity), input, capacity).0
  {
    hide Step;
    assert (inputs + [input])[..|inputs|] == inputs;
  }

  /** As long as a book waits in one generation and epoch, every update of that generation waits with it, in order. */
  lemma {:induction false} EveryUpdateWaits(before: seq<Input>, after: seq<Input>, capacity: nat)
    requires capacity >= 1 && forall i :: 0 <= i <= |after| ==> StillWaits(before, after, i, capacity)
    ensures var s := Run(before, capacity);
            Run(before + after, capacity).pending == s.pending + UpdatesOf(after, s.generation)
    decreases |after|
  {
    hide Step, Run, UpdateWaits, SnapshotWaits, Consistent;
    var s := Run(before, capacity);
    if |after| == 0 {
      assert before + after == before && s.pending + [] == s.pending;
    } else {
      var n := |after| - 1;
      forall i | 0 <= i <= n ensures StillWaits(before, after[..n], i, capacity) {
        assert after[..n][..i] == after[..i] && StillWaits(before, after, i, capacity);
      }
      EveryUpdateWaits(before, after[..n], capacity);
      assert before + after == before + after[..n] + [after[n]] && after[..n + 1] == after;
      assert StillWaits(before, after, n, capacity) && StillWaits(before, after, n + 1, capacity);
      RunNext(before + after[..n], after[n], capacity);
      OneMoreWaits(before + after[..n], after[n], capacity);
      assert s.pending + UpdatesOf(after[..n], s.generation) + [] == s.pending + UpdatesOf(after[..n], s.generation);
    }
  }

  lemma {:induction false} OneMoreWaits(inputs: seq<Input>, input: Input, capacity: nat)
    requires capacity >= 1
    requires var s, s' := Run(inputs, capacity), Step(Run(inputs, capacity), input, capacity).0;
             && !s.synchronized && !s'.synchronized && s'.generation == s.generation && s'.epoch == s.epoch
    ensures var s, s' := Run(inputs, capacity), Step(Run(inputs, capacity), input, capacity).0;
            s'.pending == s.pending
                          + (if input.Update? && input.update.generation == s.generation then [input.update] else [])
  {
    hide Step, Run, Consistent;
    RunConsistent(inputs, capacity);
    StepWaits(Run(inputs, capacity), input, capacity);
  }

  function Fed(updates: seq<BookUpdate>): (r: seq<Input>)
    ensures |r| == |updates|
  {
    seq(|updates|, i requires 0 <= i < |updates| => Update(updates[i]))
  }

  /** Updates that fit all wait, in order, and nothing else changes. */
  lemma {:induction false} UpdatesWait(before: seq<Input>, updates: seq<BookUpdate>, capacity: nat)
    requires capacity >= 1
    requires var s := Run(before, capacity);
             && !s.synchronized && |s.pending| + |updates| <= capacity
             && forall u :: u in updates ==> u.generation == s.generation
    ensures var s := Run(before, capacity);
            Run(before + Fed(updates), capacity) == s.(pending := s.pending + updates)
    decreases |updates|
  {
    hide Step, Run, Consistent;
    var s := Run(before, capacity);
    if |updates| == 0 {
      assert before + Fed(updates) == before && s.pending + [] == s.pending;
    } else {
      var n := |updates| - 1;
      UpdatesWait(before, updates[..n], capacity);
      assert before + Fed(updates) == before + Fed(updates[..n]) + [Update(updates[n])];
      RunNext(before + Fed(updates[..n]), Update(updates[n]), capacity);
      RunConsistent(before + Fed(updates[..n]), capacity);
      assert updates[n] in updates;
      StepWaits(Run(before + Fed(updates[..n]), capacity), Update(updates[n]), capacity);
      assert s.pending + updates == s.pending + updates[..n] + [updates[n]];
    }
  }

  /**
   Over runs: a book out of synchronization that then gets some updates and a snapshot of its
   generation accepts the snapshot exactly when what waited before and those updates, in the order
   of their sequences, leave no hole behind it.
   */
  lemma {:induction false} UpdatesThenSnapshotAcceptedIff(before: seq<Input>, updates: seq<BookUpdate>,
                                                          snapshot: BookSnapshot, hs: Histories, capacity: nat)
    requires capacity >= 1
    requires forall i :: 0 <= i < |before| ==> Faithful(hs, before[i])
    requires forall u :: u in updates ==> FaithfulUpdate(hs, u)
    requires FaithfulSnapshot(hs, snapshot) && Healthy(hs(snapshot.generation))
    requires var s := Run(before, capacity);
             && !s.synchronized && |s.pending| + |updates| <= capacity && snapshot.generation == s.generation
             && forall u :: u in updates ==> u.generation == s.generation
    ensures var waiting := SortedBySequence(Run(before, capacity).pending + updates);
            && Numbered(waiting)
            && (Run(before + Fed(updates) + [Snapshot(snapshot)], capacity).synchronized
                <==> NoHole(waiting, snapshot.sequence.value))
    ensures before == [] ==> Run(before, capacity).pending + updates == updates
  {
    UpdatesWait(before, updates, capacity);
    SynchronizedBookIsExchangeBook(before, hs, capacity);
    RunConsistent(before, capacity);
    EmptyRun(capacity);
    hide Run, FaithfulUpdate, Healthy, FaithfulSnapshot, NoHole, Numbered, SortedBySequence, Replayed, Loaded, Listed;
    var fed := before + Fed(updates);
    RunNext(fed, Snapshot(snapshot), capacity);
    var s := Run(fed, capacity);
    RunConsistent(fed, capacity);
    SnapshotAcceptedIff(s, snapshot, hs);
    StepConsistentOutcome(s, snapshot, capacity);
  }

  lemma {:induction false} EmptyRun(capacity: nat)
    ensures Run([], capacity) == INITIAL && INITIAL.pending == []
    ensures forall updates: seq<BookUpdate> :: [] + updates == updates
  {
  }

  lemma {:induction false} StepConsistentOutcome(s: State, snapshot: BookSnapshot, capacity: nat)
    requires capacity >= 1 && Consistent(s, capacity) && !s.synchronized && snapshot.generation == s.generation
    ensures !StaleSnapshot(s, snapshot)
    ensures SnapshotApplied(s, snapshot).1 == ACCEPTED <==> SnapshotApplied(s, snapshot).0.synchronized
  {
    hide SnapshotApplied;
    OutcomeTells(s, Snapshot(snapshot), capacity);
    StepWaits(s, Snapshot(snapshot), capacity);
  }

  /** Over a healthy exchange a synchronized book accepts exactly the update that continues its sequence. */
  lemma {:induction false} UpdateAcceptedIff(s: State, u: BookUpdate, hs: Histories, capacity: nat)
    requires capacity >= 1 && Consistent(s, capacity) && s.synchronized && Agrees(s, hs)
    requires FaithfulUpdate(hs, u) && u.generation == s.generation && Healthy(hs(s.generation))
    ensures var r := UpdateApplied(s, u, capacity).1;
            && (r == ACCEPTED <==> u.sequence.value > s.sequence.value && u.previous.value == s.sequence.value)
            && (r == BUFFERED_FOR_SNAPSHOT
                <==> u.sequence.value > s.sequence.value && u.previous.value != s.sequence.value)
            && (r == STALE_SEQUENCE <==> u.sequence.value <= s.sequence.value)
  {
    hide Carries, ApplyLevels;
    StepWaits(s, Update(u), capacity);
    if u.sequence.value > s.sequence.value && u.previous.value == s.sequence.value {
      AppliedIsHealthy(s, u, hs);
    }
  }

  /** A synchronized stretch began with a snapshot, at its time. */
  lemma {:induction false} SinceIsSnapshotTime(inputs: seq<Input>, capacity: nat) returns (i: nat)
    requires capacity >= 1 && Run(inputs, capacity).synchronized
    ensures i < |inputs| && inputs[i].Snapshot? && Run(inputs, capacity).since == Some(inputs[i].snapshot.at)
    ensures After(inputs, i + 1, capacity).synchronized
    ensures After(inputs, i, capacity).epoch < After(inputs, i + 1, capacity).epoch == Run(inputs, capacity).epoch
  {
    hide Step, Consistent;
    var n := |inputs| - 1;
    RunConsistent(inputs[..n], capacity);
    var s := Run(inputs[..n], capacity);
    StepKeeps(s, inputs[n], capacity);
    StepWaits(s, inputs[n], capacity);
    assert inputs[..n + 1] == inputs;
    var s' := Run(inputs, capacity);
    if s.synchronized && s.epoch == s'.epoch {
      i := SinceIsSnapshotTime(inputs[..n], capacity);
      assert inputs[..n][..i] == inputs[..i] && inputs[..n][..i + 1] == inputs[..i + 1];
    } else {
      i := n;
    }
  }

  /** Update without a sequence: none is named, or zero. */
  predicate Unnumbered(u: BookUpdate) {
    u.sequence.None? || u.sequence.value == 0
  }

  /**
   The order of a replay: by sequence, with the updates that carry none among themselves in the
   order of their arrival, behind those of a sequence below -1 and in front of all positive ones.
   */
  lemma {:induction false} ReplayOrder(updates: seq<BookUpdate>)
    ensures var sorted := SortedBySequence(updates);
            && multiset(sorted) == multiset(updates)
            && (forall i, j :: 0 <= i < j < |sorted| && !Unnumbered(sorted[i]) && !Unnumbered(sorted[j]) ==>
                  sorted[i].sequence.value <= sorted[j].sequence.value)
            && (forall i, j :: 0 <= i < j < |sorted| && !Unnumbered(sorted[i]) && Unnumbered(sorted[j]) ==>
                  sorted[i].sequence.value <= -1)
            && (forall i, j :: 0 <= i < j < |sorted| && Unnumbered(sorted[i]) && !Unnumbered(sorted[j]) ==>
                  sorted[j].sequence.value >= -1)
            && Filter(Unnumbered, sorted) == Filter(Unnumbered, updates)
    ensures forall n :: n != 0 ==>
              Filter((u: BookUpdate) => u.sequence == Some(n), SortedBySequence(updates))
              == Filter((u: BookUpdate) => u.sequence == Some(n), updates)
  {
    SortKeepsUpdates(updates);
    hide SortByKey;
    SortIsStable(SortKey, Unnumbered, updates);
    var sorted := SortedBySequence(updates);
    assert forall i, j :: 0 <= i < j < |sorted| ==> SortKey(sorted[i]) <= SortKey(sorted[j]);
    forall n | n != 0
      ensures Filter((u: BookUpdate) => u.sequence == Some(n), sorted)
           == Filter((u: BookUpdate) => u.sequence == Some(n), updates)
    {
      SortIsStable(SortKey, (u: BookUpdate) => u.sequence == Some(n), updates);
    }
  }

  // ---------- The book itself ----------

  class OrderBookState {
    const pendingCapacity: nat
    var pending: seq<BookUpdate>
    var bids: Side
    var asks: Side
    var generation: int
    var epoch: nat
    var sequence: Option<int>
    var synchronized: bool
    var since: Option<int>

    ghost function Abs(): State
      reads this
    {
      State(generation, epoch, sequence, synchronized, since, bids, asks, pending)
    }

    ghost predicate Valid()
      reads this
    {
      pendingCapacity >= 1 && Consistent(Abs(), pendingCapacity)
    }

    constructor (pendingCapacity: nat)
      requires pendingCapacity >= 1
      ensures Valid() && Abs() == INITIAL && this.pendingCapacity == pendingCapacity
    {
      this.pendingCapacity := pendingCapacity;
      pending, bids, asks, generation, epoch := [], map[], map[], 0, 0;
      sequence, synchronized, since := None, false, None;
    }

    method ResetTo(newGeneration: int, advanceEpoch: bool)
      modifies this
      ensures Abs() == Reset(old(Abs()), newGeneration, advanceEpoch)
    {
      bids, asks, pending := map[], map[], [];
      generation := newGeneration;
      if advanceEpoch {
        epoch := epoch + 1;
      }
      sequence, synchronized, since := None, false, None;
    }

    method LoseSynchronization()
      modifies this
      ensures Abs() == Desynchronized(old(Abs()))
    {
      synchronized, since := false, None;
    }

    method Buffer(u: BookUpdate) returns (r: Outcome)
      modifies this
      ensures (Abs(), r) == Buffered(old(Abs()), u, pendingCapacity)
    {
      if |pending| >= pendingCapacity {
        ResetTo(u.generation, true);
        return BOOK_INVALIDATED;
      }
      pending := pending + [u];
      r := BUFFERED_FOR_SNAPSHOT;
    }

    /** Returns false when the book became one-sided or crossed. */
    method ApplyBookLevels(u: BookUpdate) returns (ok: bool)
      modifies this
      ensures var (s', applied) := AppliedUpdate(old(Abs()), u);
              ok == applied && Abs() == s'
    {
      bids := ApplySide(bids, u.bids);
      asks := ApplySide(asks, u.asks);
      if bids == map[] || asks == map[] || Crossed(bids, asks) {
        LoseSynchronization();
        return false;
      }
      sequence := if u.sequence.Some? && u.sequence.value != 0 then u.sequence else sequence;
      ok := true;
    }

    method ApplySnapshot(snapshot: BookSnapshot) returns (r: Outcome)
      requires Valid()
      modifies this
      ensures Valid() && (Abs(), r) == SnapshotApplied(old(Abs()), snapshot)
    {
      StepKeeps(Abs(), Snapshot(snapshot), pendingCapacity);
      if snapshot.generation < generation {
        return STALE_GENERATION;
      }
      if snapshot.generation == generation && synchronized && snapshot.sequence.Some? && sequence.Some?
         && snapshot.sequence.value <= sequence.value {
        return STALE_SEQUENCE;
      }
      var waiting := if snapshot.generation == generation then pending else [];
      Load(snapshot);
      if synchronized && Crossed(bids, asks) {
        LoseSynchronization();
        return BOOK_INVALIDATED;
      }
      r := Replay(SortedBySequence(waiting));
    }

    method Load(snapshot: BookSnapshot)
      modifies this
      ensures Abs() == Loaded(old(Abs()), snapshot)
    {
      var continuing := snapshot.generation == generation && synchronized;
      var start := since;
      ResetTo(snapshot.generation, !continuing);
      bids := ListLevels(snapshot.bids);
      asks := ListLevels(snapshot.asks);
      sequence := snapshot.sequence;
      synchronized := bids != map[] && asks != map[];
      since := if !synchronized then None else if continuing then start else Some(snapshot.at);
    }

    method Replay(updates: seq<BookUpdate>) returns (r: Outcome)
      modifies this
      ensures (Abs(), r) == Replayed(old(Abs()), updates)
    {
      var i := 0;
      while i < |updates|
        invariant i <= |updates|
        invariant Replayed(Abs(), updates[i..]) == Replayed(old(Abs()), updates)
      {
        var u := updates[i];
        i := i + 1;
        if u.sequence.Some? && sequence.Some? {
          if u.sequence.value <= sequence.value {
            continue;
          }
          if u.previous.Some? && u.previous.value > sequence.value {
            LoseSynchronization();
            return BOOK_INVALIDATED;
          }
        }
        var ok := ApplyBookLevels(u);
        if !ok {
          return BOOK_INVALIDATED;
        }
      }
      r := if synchronized then ACCEPTED else BOOK_INVALIDATED;
    }

    method ApplyUpdate(u: BookUpdate) returns (r: Outcome)
      requires Valid()
      modifies this
      ensures Valid() && (Abs(), r) == UpdateApplied(old(Abs()), u, pendingCapacity)
    {
      StepKeeps(Abs(), Update(u), pendingCapacity);
      if u.generation < generation {
        return STALE_GENERATION;
      }
      if u.generation > generation {
        ResetTo(u.generation, true);
        r := Buffer(u);
        return;
      }
      if !synchronized {
        r := Buffer(u);
        return;
      }
      if u.sequence.Some? && sequence.Some? {
        if u.sequence.value <= sequence.value {
          return STALE_SEQUENCE;
        }
        if u.previous.Some? && u.previous.value != sequence.value {
          LoseSynchronization();
          pending := [];
          r := Buffer(u);
          return;
        }
      }
      var ok := ApplyBookLevels(u);
      r := if ok then ACCEPTED else BOOK_INVALIDATED;
    }
  }

  method ListLevels(levels: seq<Level>) returns (side: Side)
    ensures side == Listed(levels)
  {
    side := map[];
    for i := 0 to |levels|
      invariant side == Listed(levels[..i])
    {
      assert levels[..i + 1][..i] == levels[..i];
      side := side[levels[i].price := levels[i].quantity];
    }
    assert levels[..|levels|] == levels;
  }
}
