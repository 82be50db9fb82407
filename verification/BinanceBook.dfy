/**
 Binance USD-M local order book: buffered diffs bridged to a REST snapshot, then
 an exact `pu == previous u` chain.

 The first part states every operation as a function on book states; the class
 performs it in place and is proved equal to it; the lemmas are about all runs.
 */
module BinanceBook {
  import opened Common
  import opened Levels

  datatype Status = BUFFERING | LIVE | RESYNC_REQUIRED

  datatype Transition =
    | Buffered
    | SnapshotApplied
    | UpdateApplied
    | StaleIgnored
    | RetrySnapshot
    | SequenceGap
    | BufferOverflow
    | ResyncStarted

  /** Diff event: `first` is U, `final` is u and `previous` is pu in the vendor's terms. */
  datatype DepthUpdate = DepthUpdate(symbol: string, first: int, final: int, previous: int,
                                     bids: seq<Level>, asks: seq<Level>)

  datatype DepthSnapshot = DepthSnapshot(lastUpdateId: int, bids: seq<Level>, asks: seq<Level>)

  datatype ApplyResult = ApplyResult(transition: Transition, status: Status, generation: nat,
                                     sequenceId: Option<int>, bufferedEvents: nat, needsSnapshot: bool)

  datatype State = State(status: Status, generation: nat, sequenceId: Option<int>,
                         bids: Side, asks: Side, buffer: seq<DepthUpdate>, pending: Option<DepthSnapshot>)

  datatype Input = Diff(update: DepthUpdate) | Snapshot(snapshot: DepthSnapshot) | Resync

  // ---------- Operations as functions ----------

  const INITIAL := State(BUFFERING, 0, None, map[], map[], [], None)

  function Outcome(s: State, transition: Transition, needsSnapshot: bool): ApplyResult {
    ApplyResult(transition, s.status, s.generation, s.sequenceId, |s.buffer|, needsSnapshot)
  }

  /** The next generation: nothing is known but the diffs kept for the next bridge. */
  function Invalidated(s: State, kept: seq<DepthUpdate>): State {
    State(RESYNC_REQUIRED, s.generation + 1, None, map[], map[], kept, None)
  }

  function Applied(s: State, u: DepthUpdate): State {
    s.(bids := ApplyLevels(s.bids, u.bids), asks := ApplyLevels(s.asks, u.asks), sequenceId := Some(u.final))
  }

  function DropStale(buffer: seq<DepthUpdate>, lastUpdateId: int): seq<DepthUpdate> {
    if |buffer| > 0 && buffer[0].final < lastUpdateId then DropStale(buffer[1..], lastUpdateId) else buffer
  }

  predicate Overlaps(u: DepthUpdate, lastUpdateId: int) {
    u.first <= lastUpdateId <= u.final
  }

  /** Index of the first diff overlapping the snapshot, or the length. */
  function FirstOverlap(buffer: seq<DepthUpdate>, lastUpdateId: int): (i: nat)
    ensures i <= |buffer|
    ensures i < |buffer| ==> Overlaps(buffer[i], lastUpdateId)
    ensures forall j :: 0 <= j < i ==> !Overlaps(buffer[j], lastUpdateId)
  {
    if |buffer| == 0 || Overlaps(buffer[0], lastUpdateId) then 0
    else 1 + FirstOverlap(buffer[1..], lastUpdateId)
  }

  /** Replay the diffs behind the bridge; a break keeps the rest for the next snapshot. */
  function Chain(s: State, rest: seq<DepthUpdate>): (State, ApplyResult)
    requires s.sequenceId.Some?
    decreases |rest|
  {
    if |rest| == 0 then
      var live := s.(buffer := [], pending := None, status := LIVE);
      (live, Outcome(live, SnapshotApplied, false))
    else if rest[0].final <= s.sequenceId.value then
      Chain(s, rest[1..])
    else if rest[0].previous != s.sequenceId.value then
      var gap := Invalidated(s, rest);
      (gap, Outcome(gap, SequenceGap, true))
    else
      Chain(Applied(s, rest[0]), rest[1..])
  }

  /** Try to bridge the pending snapshot to the buffered diffs. */
  function Activate(s: State): (State, Option<ApplyResult>)
    requires s.pending.Some?
  {
    var last := s.pending.value.lastUpdateId;
    var kept := DropStale(s.buffer, last);
    var i := FirstOverlap(kept, last);
    var waiting := s.(buffer := kept);
    if |kept| == 0 then
      (waiting, None)
    else if i < |kept| then
      var (s', r) := Chain(Applied(s, kept[i]).(buffer := kept[i + 1..]), kept[i + 1..]);
      (s', Some(r))
    else if kept[0].first > last then
      var retry := waiting.(status := RESYNC_REQUIRED);
      (retry, Some(Outcome(retry, RetrySnapshot, true)))
    else
      (waiting, None)
  }

  function BufferedUpdate(s: State, u: DepthUpdate, capacity: nat): (State, ApplyResult) {
    if |s.buffer| >= capacity then
      var overflow := Invalidated(s, [u]);
      (overflow, Outcome(overflow, BufferOverflow, true))
    else
      var grown := s.(buffer := s.buffer + [u]);
      if grown.pending.None? then
        (grown, Outcome(grown, Buffered, true))
      else
        var (s', r) := Activate(grown);
        (s', if r.Some? then r.value else Outcome(s', Buffered, s'.pending.None?))
  }

  function Ingested(s: State, u: DepthUpdate, capacity: nat): (State, ApplyResult)
    requires s.status == LIVE ==> s.sequenceId.Some?
  {
    if s.status != LIVE then
      BufferedUpdate(s, u, capacity)
    else if u.final <= s.sequenceId.value then
      (s, Outcome(s, StaleIgnored, false))
    else if u.previous != s.sequenceId.value then
      var gap := Invalidated(s, [u]);
      (gap, Outcome(gap, SequenceGap, true))
    else
      var s' := Applied(s, u);
      (s', Outcome(s', UpdateApplied, false))
  }

  function Installed(s: State, snapshot: DepthSnapshot): (State, ApplyResult) {
    var loaded := s.(pending := Some(snapshot), sequenceId := Some(snapshot.lastUpdateId),
                     bids := SideOf(snapshot.bids), asks := SideOf(snapshot.asks), status := BUFFERING);
    var (s', r) := Activate(loaded);
    (s', if r.Some? then r.value else Outcome(s', Buffered, false))
  }

  function Resynced(s: State): (State, ApplyResult) {
    var s' := Invalidated(s, []);
    (s', Outcome(s', ResyncStarted, true))
  }

  function Step(s: State, input: Input, capacity: nat): (State, ApplyResult)
    requires s.status == LIVE ==> s.sequenceId.Some?
  {
    match input
    case Diff(u) => Ingested(s, u, capacity)
    case Snapshot(snapshot) => Installed(s, snapshot)
    case Resync => Resynced(s)
  }

  // ---------- The structural invariant ----------

  /** What every reachable book satisfies, whatever the feed sent. */
  ghost predicate Consistent(s: State, capacity: nat) {
    && |s.buffer| <= capacity
    && (s.status == LIVE ==> s.sequenceId.Some? && s.buffer == [] && s.pending.None?)
    && (s.pending.Some? ==>
          && s.sequenceId == Some(s.pending.value.lastUpdateId)
          && s.bids == SideOf(s.pending.value.bids) && s.asks == SideOf(s.pending.value.asks))
    && (s.status != LIVE && s.pending.None? ==> s.sequenceId.None? && s.bids == map[] && s.asks == map[])
  }

  lemma {:induction false} DropStaleIsSuffix(buffer: seq<DepthUpdate>, last: int)
    ensures |DropStale(buffer, last)| <= |buffer|
    ensures DropStale(buffer, last) == buffer[|buffer| - |DropStale(buffer, last)|..]
    ensures DropStale(buffer, last) != [] ==> DropStale(buffer, last)[0].final >= last
  {
    if |buffer| > 0 && buffer[0].final < last {
      DropStaleIsSuffix(buffer[1..], last);
    }
  }

  lemma {:induction false} ChainConsistent(s: State, rest: seq<DepthUpdate>, capacity: nat)
    requires s.sequenceId.Some? && |rest| <= capacity
    ensures Consistent(Chain(s, rest).0, capacity)
    ensures Chain(s, rest).0.generation >= s.generation
    decreases |rest|
  {
    if |rest| == 0 {
    } else if rest[0].final <= s.sequenceId.value {
      ChainConsistent(s, rest[1..], capacity);
    } else if rest[0].previous == s.sequenceId.value {
      ChainConsistent(Applied(s, rest[0]), rest[1..], capacity);
    }
  }

  /** One step keeps the invariant, and a generation never returns. */
  lemma {:induction false} StepConsistent(s: State, input: Input, capacity: nat)
    requires capacity >= 1 && Consistent(s, capacity)
    ensures Consistent(Step(s, input, capacity).0, capacity)
    ensures Step(s, input, capacity).0.generation >= s.generation
  {
    match input
    case Diff(u) =>
      if s.status != LIVE && |s.buffer| < capacity && s.pending.Some? {
        ActivateConsistent(s.(buffer := s.buffer + [u]), capacity);
      }
    case Snapshot(snapshot) =>
      ActivateConsistent(s.(pending := Some(snapshot), sequenceId := Some(snapshot.lastUpdateId),
                            bids := SideOf(snapshot.bids), asks := SideOf(snapshot.asks), status := BUFFERING),
                         capacity);
    case Resync =>
  }

  lemma {:induction false} ActivateConsistent(s: State, capacity: nat)
    requires s.status != LIVE && s.pending.Some? && Consistent(s, capacity)
    ensures Consistent(Activate(s).0, capacity)
    ensures Activate(s).0.generation >= s.generation
  {
    var last := s.pending.value.lastUpdateId;
    DropStaleIsSuffix(s.buffer, last);
    var kept := DropStale(s.buffer, last);
    var i := FirstOverlap(kept, last);
    if i < |kept| {
      ChainConsistent(Applied(s, kept[i]).(buffer := kept[i + 1..]), kept[i + 1..], capacity);
    }
  }

  // ---------- The local book is the exchange's book ----------

  /** The feed contract of a diff: it carries every write in (pu, u], with pu < U <= u. */
  ghost predicate FaithfulDiff(h: History, u: DepthUpdate) {
    && u.previous < u.first <= u.final
    && Carries(h.bids, u.bids, u.previous, u.final)
    && Carries(h.asks, u.asks, u.previous, u.final)
  }

  ghost predicate FaithfulSnapshot(h: History, s: DepthSnapshot) {
    ListsAll(h.bids, s.bids, s.lastUpdateId) && ListsAll(h.asks, s.asks, s.lastUpdateId)
  }

  ghost predicate Faithful(h: History, input: Input) {
    match input
    case Diff(u) => FaithfulDiff(h, u)
    case Snapshot(snapshot) => FaithfulSnapshot(h, snapshot)
    case Resync => true
  }

  ghost predicate Agrees(s: State, h: History) {
    s.sequenceId.Some? && Book(s.bids, s.asks) == BookAt(h, s.sequenceId.value)
  }

  /** The refinement: a LIVE book equals the exchange's book at its sequence id. */
  ghost predicate Tracks(s: State, h: History) {
    && (s.status == LIVE ==> Agrees(s, h))
    && (s.pending.Some? ==> FaithfulSnapshot(h, s.pending.value))
    && (forall u :: u in s.buffer ==> FaithfulDiff(h, u))
  }

  lemma {:induction false} AppliedAgrees(s: State, u: DepthUpdate, h: History)
    requires Agrees(s, h) && FaithfulDiff(h, u)
    requires u.previous <= s.sequenceId.value <= u.final
    ensures Agrees(Applied(s, u), h)
  {
    CarriedLevelsAdvanceSide(h.bids, u.bids, u.previous, s.sequenceId.value, u.final);
    CarriedLevelsAdvanceSide(h.asks, u.asks, u.previous, s.sequenceId.value, u.final);
  }

  lemma {:induction false} ChainTracks(s: State, rest: seq<DepthUpdate>, h: History)
    requires Agrees(s, h) && (forall u :: u in rest ==> FaithfulDiff(h, u))
    ensures Tracks(Chain(s, rest).0, h)
    decreases |rest|
  {
    if |rest| == 0 {
    } else if rest[0].final <= s.sequenceId.value {
      ChainTracks(s, rest[1..], h);
    } else if rest[0].previous == s.sequenceId.value {
      AppliedAgrees(s, rest[0], h);
      ChainTracks(Applied(s, rest[0]), rest[1..], h);
    }
  }

  lemma {:induction false} ActivateTracks(s: State, h: History, capacity: nat)
    requires s.status != LIVE && s.pending.Some? && Consistent(s, capacity) && Tracks(s, h)
    ensures Tracks(Activate(s).0, h)
  {
    var snapshot := s.pending.value;
    var last := snapshot.lastUpdateId;
    DropStaleIsSuffix(s.buffer, last);
    var kept := DropStale(s.buffer, last);
    var i := FirstOverlap(kept, last);
    SnapshotRebuildsSide(h.bids, snapshot.bids, last);
    SnapshotRebuildsSide(h.asks, snapshot.asks, last);
    if i < |kept| {
      assert kept[i] in s.buffer;
      AppliedAgrees(s, kept[i], h);
      ChainTracks(Applied(s, kept[i]).(buffer := kept[i + 1..]), kept[i + 1..], h);
    }
  }

  lemma {:induction false} StepTracks(s: State, input: Input, h: History, capacity: nat)
    requires capacity >= 1 && Consistent(s, capacity) && Tracks(s, h) && Faithful(h, input)
    ensures Tracks(Step(s, input, capacity).0, h)
  {
    match input
    case Diff(u) =>
      if s.status != LIVE {
        if |s.buffer| < capacity && s.pending.Some? {
          ActivateTracks(s.(buffer := s.buffer + [u]), h, capacity);
        }
      } else if u.final > s.sequenceId.value && u.previous == s.sequenceId.value {
        AppliedAgrees(s, u, h);
      }
    case Snapshot(snapshot) =>
      ActivateTracks(s.(pending := Some(snapshot), sequenceId := Some(snapshot.lastUpdateId),
                        bids := SideOf(snapshot.bids), asks := SideOf(snapshot.asks), status := BUFFERING),
                     h, capacity);
    case Resync =>
  }

  /** The book after any sequence of calls; every reachable book is consistent. */
  ghost function Run(inputs: seq<Input>, capacity: nat): State
    requires capacity >= 1
    ensures Consistent(Run(inputs, capacity), capacity)
  {
    if |inputs| == 0 then INITIAL
    else
      var before := Run(inputs[..|inputs| - 1], capacity);
      StepConsistent(before, inputs[|inputs| - 1], capacity);
      Step(before, inputs[|inputs| - 1], capacity).0
  }

  /**
   Main result: whatever diffs, snapshots and resyncs arrive, in whatever order, with
   gaps and overflows, a LIVE book is the exchange's book at its sequence id.
   */
  lemma {:induction false} LiveBookIsExchangeBook(inputs: seq<Input>, h: History, capacity: nat)
    requires capacity >= 1
    requires forall i :: 0 <= i < |inputs| ==> Faithful(h, inputs[i])
    ensures Tracks(Run(inputs, capacity), h)
    ensures var s := Run(inputs, capacity);
            s.status == LIVE ==> s.sequenceId.Some? && Book(s.bids, s.asks) == BookAt(h, s.sequenceId.value)
  {
    if |inputs| > 0 {
      var n := |inputs| - 1;
      LiveBookIsExchangeBook(inputs[..n], h, capacity);
      StepTracks(Run(inputs[..n], capacity), inputs[n], h, capacity);
    }
  }

  // ---------- What a result tells the caller ----------

  /** The result describes the new book, and asks for a snapshot outside LIVE when none is pending, or to retry one. */
  ghost predicate Tells(before: State, after: State, r: ApplyResult) {
    && r.status == after.status && r.generation == after.generation
    && r.sequenceId == after.sequenceId && r.bufferedEvents == |after.buffer|
    && (r.needsSnapshot <==> after.status != LIVE && (after.pending.None? || r.transition == RetrySnapshot))
    && after.generation == before.generation
                           + (if r.transition in {SequenceGap, BufferOverflow, ResyncStarted} then 1 else 0)
    && (r.transition == RetrySnapshot ==> after.status == RESYNC_REQUIRED)
  }

  lemma {:induction false} ChainTells(s: State, rest: seq<DepthUpdate>)
    requires s.sequenceId.Some?
    ensures Tells(s, Chain(s, rest).0, Chain(s, rest).1)
    ensures Chain(s, rest).1.transition in {SequenceGap, SnapshotApplied}
    decreases |rest|
  {
    if |rest| > 0 && (rest[0].final <= s.sequenceId.value || rest[0].previous == s.sequenceId.value) {
      ChainTells(if rest[0].final <= s.sequenceId.value then s else Applied(s, rest[0]), rest[1..]);
    }
  }

  lemma {:induction false} StepTells(s: State, input: Input, capacity: nat)
    requires capacity >= 1 && Consistent(s, capacity)
    ensures var (s', r) := Step(s, input, capacity); Tells(s, s', r)
  {
    match input
    case Diff(u) =>
      if s.status != LIVE && |s.buffer| < capacity && s.pending.Some? {
        ActivateTells(s.(buffer := s.buffer + [u]));
      }
    case Snapshot(snapshot) =>
      ActivateTells(s.(pending := Some(snapshot), sequenceId := Some(snapshot.lastUpdateId),
                       bids := SideOf(snapshot.bids), asks := SideOf(snapshot.asks), status := BUFFERING));
    case Resync =>
  }

  lemma {:induction false} ActivateTells(s: State)
    requires s.pending.Some? && s.status != LIVE
    ensures var (s', r) := Activate(s);
            if r.Some? then Tells(s, s', r.value)
            else s'.pending == s.pending && s'.status == s.status && s'.generation == s.generation
  {
    var last := s.pending.value.lastUpdateId;
    var kept := DropStale(s.buffer, last);
    var i := FirstOverlap(kept, last);
    if i < |kept| {
      ChainTells(Applied(s, kept[i]).(buffer := kept[i + 1..]), kept[i + 1..]);
    }
  }

  /**
   A LIVE book never steps back in the stream on its own: its sequence id falls exactly when an
   older snapshot is installed over it, which also ends LIVE.
   */
  lemma {:induction false} SequenceFallsIffOlderSnapshot(s: State, input: Input, capacity: nat)
    requires capacity >= 1 && Consistent(s, capacity) && s.status == LIVE
    ensures var s' := Step(s, input, capacity).0;
            && (s'.sequenceId.Some? && s'.sequenceId.value < s.sequenceId.value
                <==> input.Snapshot? && input.snapshot.lastUpdateId < s.sequenceId.value)
            && (s'.sequenceId.Some? && s'.sequenceId.value < s.sequenceId.value ==> s'.status == BUFFERING)
  {
    assert s.buffer == [] && DropStale([], 0) == [];
  }

  // ---------- Exactly when a snapshot goes LIVE ----------

  /** The largest final id among the diffs from `i` up to `j`. */
  function Reached(diffs: seq<DepthUpdate>, i: nat, j: nat): int
    requires i < j <= |diffs|
  {
    if j == i + 1 || diffs[j - 1].final > Reached(diffs, i, j - 1) then diffs[j - 1].final
    else Reached(diffs, i, j - 1)
  }

  /** Diff `j` is stale behind the diffs from `i` on, or names the id they reached. */
  predicate Continues(diffs: seq<DepthUpdate>, i: nat, j: nat)
    requires i < j < |diffs|
  {
    var id := Reached(diffs, i, j);
    diffs[j].final <= id || diffs[j].previous == id
  }

  /** Diff `i` is the first to reach both sides of the snapshot. */
  ghost predicate FirstToOverlap(diffs: seq<DepthUpdate>, lastUpdateId: int, i: nat) {
    && i < |diffs| && diffs[i].first <= lastUpdateId <= diffs[i].final
    && forall j :: 0 <= j < i ==> !(diffs[j].first <= lastUpdateId <= diffs[j].final)
  }

  /** It is the first to do so, and all diffs behind it continue. */
  ghost predicate Bridges(diffs: seq<DepthUpdate>, lastUpdateId: int, i: nat) {
    FirstToOverlap(diffs, lastUpdateId, i) && forall j :: i < j < |diffs| ==> Continues(diffs, i, j)
  }

  lemma {:induction false} ChainGoesLiveIff(s: State, diffs: seq<DepthUpdate>, i: nat, j: nat)
    requires i < j <= |diffs| && s.sequenceId == Some(Reached(diffs, i, j))
    ensures var (s', r) := Chain(s, diffs[j..]);
            && (s'.status == LIVE <==> forall n :: j <= n < |diffs| ==> Continues(diffs, i, n))
            && (s'.status == LIVE ==>
                  && s'.generation == s.generation && r.transition == SnapshotApplied
                  && s'.sequenceId == Some(Reached(diffs, i, |diffs|)))
    decreases |diffs| - j
  {
    hide ApplyLevels;
    if j < |diffs| {
      var rest := diffs[j..];
      assert rest[1..] == diffs[j + 1..];
      assert Continues(diffs, i, j) <==> rest[0].final <= s.sequenceId.value || rest[0].previous == s.sequenceId.value;
      if rest[0].final <= s.sequenceId.value {
        ChainGoesLiveIff(s, diffs, i, j + 1);
      } else if rest[0].previous == s.sequenceId.value {
        ChainGoesLiveIff(Applied(s, rest[0]), diffs, i, j + 1);
      }
    }
  }

  /** Activation over any buffer, whether a snapshot or a diff set it off. */
  lemma {:induction false} ActivateGoesLiveIff(s: State)
    requires s.pending.Some? && s.status != LIVE
    ensures var (s', r) := Activate(s);
            var last := s.pending.value.lastUpdateId;
            && (s'.status == LIVE <==> exists i :: Bridges(s.buffer, last, i))
            && (forall i :: Bridges(s.buffer, last, i) ==>
                  && s'.generation == s.generation && r.Some? && r.value.transition == SnapshotApplied
                  && s'.sequenceId == Some(Reached(s.buffer, i, |s.buffer|)))
  {
    hide ApplyLevels, DropStale, FirstOverlap, Chain, Reached, Continues;
    var last := s.pending.value.lastUpdateId;
    var kept := DropStale(s.buffer, last);
    var i := FirstOverlap(kept, last);
    var dropped := |s.buffer| - |kept|;
    FirstOverlapOfAll(s.buffer, last);
    if i < |kept| {
      assert kept[i + 1..] == s.buffer[dropped + i + 1..] && kept[i] == s.buffer[dropped + i];
      ReachedByOne(s.buffer, dropped + i);
      ChainGoesLiveIff(Applied(s, kept[i]).(buffer := kept[i + 1..]), s.buffer, dropped + i, dropped + i + 1);
      OneBridge(s.buffer, last, dropped + i);
    } else {
      forall n ensures !Bridges(s.buffer, last, n) {
      }
    }
  }

  /**
   The bridge is complete as well as sound, for every buffer: a snapshot goes LIVE exactly when
   some buffered diff reaches both sides of `lastUpdateId` and every diff behind the first such
   one is stale or names the id reached so far. Then the book is at the largest id behind it.
   */
  lemma {:induction false} SnapshotBridgesIff(s: State, snapshot: DepthSnapshot)
    ensures var (s', r) := Installed(s, snapshot);
            && (s'.status == LIVE <==> exists i :: Bridges(s.buffer, snapshot.lastUpdateId, i))
            && (forall i :: Bridges(s.buffer, snapshot.lastUpdateId, i) ==>
                  && s'.generation == s.generation && r.transition == SnapshotApplied
                  && s'.sequenceId == Some(Reached(s.buffer, i, |s.buffer|)))
  {
    hide SideOf, Activate, Bridges, Reached;
    ActivateGoesLiveIff(s.(pending := Some(snapshot), sequenceId := Some(snapshot.lastUpdateId),
                           bids := SideOf(snapshot.bids), asks := SideOf(snapshot.asks), status := BUFFERING));
  }

  /** The same for a diff that reaches a book whose snapshot still waits for its bridge. */
  lemma {:induction false} DiffBridgesIff(s: State, u: DepthUpdate, capacity: nat)
    requires s.status != LIVE
    ensures var (s', r) := Ingested(s, u, capacity);
            var diffs := s.buffer + [u];
            && (s'.status == LIVE <==>
                  && s.pending.Some? && |s.buffer| < capacity
                  && exists i :: Bridges(diffs, s.pending.value.lastUpdateId, i))
            && (s'.status == LIVE ==>
                  && s'.generation == s.generation && r.transition == SnapshotApplied
                  && forall i :: Bridges(diffs, s.pending.value.lastUpdateId, i) ==>
                       s'.sequenceId == Some(Reached(diffs, i, |diffs|)))
  {
    hide Activate, Bridges, Reached;
    if s.pending.Some? && |s.buffer| < capacity {
      ActivateGoesLiveIff(s.(buffer := s.buffer + [u]));
    }
  }

  lemma {:induction false} ReachedByOne(diffs: seq<DepthUpdate>, i: nat)
    requires i < |diffs|
    ensures Reached(diffs, i, i + 1) == diffs[i].final
  {
  }

  lemma {:induction false} OneBridge(diffs: seq<DepthUpdate>, last: int, i: nat)
    requires FirstToOverlap(diffs, last, i)
    ensures forall n :: Bridges(diffs, last, n) ==> n == i
    ensures Bridges(diffs, last, i) <==> forall j :: i < j < |diffs| ==> Continues(diffs, i, j)
  {
  }

  /** Dropping stale diffs drops none that overlaps. */
  lemma {:induction false} FirstOverlapOfAll(buffer: seq<DepthUpdate>, last: int)
    ensures var kept := DropStale(buffer, last);
            && |kept| <= |buffer| && kept == buffer[|buffer| - |kept|..]
            && forall j :: 0 <= j < |buffer| - |kept| + FirstOverlap(kept, last) ==> !Overlaps(buffer[j], last)
  {
    if |buffer| > 0 && buffer[0].final < last {
      FirstOverlapOfAll(buffer[1..], last);
      var kept := DropStale(buffer, last);
      forall j | 0 <= j < |buffer| - |kept| + FirstOverlap(kept, last) ensures !Overlaps(buffer[j], last) {
        assert j > 0 ==> buffer[j] == buffer[1..][j - 1];
      }
    }
  }

  // ---------- What a book outside LIVE keeps ----------

  /** The first diff behind `i` that neither is stale nor names the id reached. */
  ghost predicate BreaksAt(diffs: seq<DepthUpdate>, i: nat, j: nat) {
    && i < j < |diffs| && !Continues(diffs, i, j)
    && forall n :: i < n < j ==> Continues(diffs, i, n)
  }

  ghost predicate NoneOverlaps(diffs: seq<DepthUpdate>, lastUpdateId: int) {
    forall j :: 0 <= j < |diffs| ==> !(diffs[j].first <= lastUpdateId <= diffs[j].final)
  }

  /** Exactly the first `k` diffs end before the snapshot, as far as they lead. */
  ghost predicate LeadStale(diffs: seq<DepthUpdate>, lastUpdateId: int, k: nat) {
    && k <= |diffs| && (forall j :: 0 <= j < k ==> diffs[j].final < lastUpdateId)
    && (k < |diffs| ==> diffs[k].final >= lastUpdateId)
  }

  /** A book that lost its place: a new generation in which only `kept` is known. */
  ghost predicate Restarted(before: State, after: State, kept: seq<DepthUpdate>) {
    && after.generation == before.generation + 1 && after.status == RESYNC_REQUIRED && after.buffer == kept
    && after.pending.None? && after.sequenceId.None? && after.bids == map[] && after.asks == map[]
  }

  lemma {:induction false} ChainBreaks(s: State, diffs: seq<DepthUpdate>, i: nat, j: nat) returns (m: nat)
    requires i < j <= |diffs| && s.sequenceId == Some(Reached(diffs, i, j))
    requires forall n :: i < n < j ==> Continues(diffs, i, n)
    requires Chain(s, diffs[j..]).0.status != LIVE
    ensures var (s', r) := Chain(s, diffs[j..]);
            BreaksAt(diffs, i, m) && Restarted(s, s', diffs[m..]) && r.transition == SequenceGap
    decreases |diffs| - j
  {
    hide ApplyLevels;
    var rest := diffs[j..];
    assert j < |diffs| && rest[1..] == diffs[j + 1..];
    assert Continues(diffs, i, j) <==> rest[0].final <= s.sequenceId.value || rest[0].previous == s.sequenceId.value;
    if rest[0].final <= s.sequenceId.value {
      m := ChainBreaks(s, diffs, i, j + 1);
    } else if rest[0].previous == s.sequenceId.value {
      m := ChainBreaks(Applied(s, rest[0]), diffs, i, j + 1);
    } else {
      m := j;
    }
  }

  /** What is left behind a snapshot that found no bridge, by what was buffered. */
  ghost predicate Unbridged(s: State, diffs: seq<DepthUpdate>, s': State, r: Option<ApplyResult>)
    requires s.pending.Some?
  {
    var last := s.pending.value.lastUpdateId;
    if NoneOverlaps(diffs, last) then
      && s'.generation == s.generation && s'.pending == s.pending && s'.sequenceId == s.sequenceId
      && s'.bids == s.bids && s'.asks == s.asks
      && exists k: nat ::
           && LeadStale(diffs, last, k) && s'.buffer == diffs[k..]
           && (if k < |diffs| && diffs[k].first > last
               then s'.status == RESYNC_REQUIRED && r.Some? && r.value.transition == RetrySnapshot
               else s'.status == s.status && r.None?)
    else
      && r.Some? && r.value.transition == SequenceGap
      && exists i: nat, j: nat ::
           FirstToOverlap(diffs, last, i) && BreaksAt(diffs, i, j) && Restarted(s, s', diffs[j..])
  }

  lemma {:induction false} ActivateKeeps(s: State)
    requires s.pending.Some? && s.status != LIVE
    ensures var (s', r) := Activate(s);
            if s'.status == LIVE then s'.buffer == [] && s'.pending.None? else Unbridged(s, s.buffer, s', r)
  {
    hide Activate, Unbridged;
    var last := s.pending.value.lastUpdateId;
    if FirstOverlap(DropStale(s.buffer, last), last) < |DropStale(s.buffer, last)| {
      BridgedKeeps(s);
    } else {
      UnbridgedKeeps(s);
    }
  }

  lemma {:induction false} BridgedKeeps(s: State)
    requires s.pending.Some? && s.status != LIVE
    requires var last := s.pending.value.lastUpdateId;
             FirstOverlap(DropStale(s.buffer, last), last) < |DropStale(s.buffer, last)|
    ensures var (s', r) := Activate(s);
            if s'.status == LIVE then s'.buffer == [] && s'.pending.None? else Unbridged(s, s.buffer, s', r)
  {
    hide ApplyLevels, DropStale, FirstOverlap, Chain, Reached, Continues, LeadStale;
    var last := s.pending.value.lastUpdateId;
    var kept := DropStale(s.buffer, last);
    var i := FirstOverlap(kept, last);
    FirstOverlapOfAll(s.buffer, last);
    var first := |s.buffer| - |kept| + i;
    assert kept[i + 1..] == s.buffer[first + 1..] && kept[i] == s.buffer[first];
    ReachedByOne(s.buffer, first);
    var applied := Applied(s, kept[i]).(buffer := kept[i + 1..]);
    if Chain(applied, kept[i + 1..]).0.status == LIVE {
      LiveIsEmpty(applied, kept[i + 1..]);
    } else {
      var m := ChainBreaks(applied, s.buffer, first, first + 1);
      assert FirstToOverlap(s.buffer, last, first);
    }
  }

  lemma {:induction false} UnbridgedKeeps(s: State)
    requires s.pending.Some? && s.status != LIVE
    requires var last := s.pending.value.lastUpdateId;
             FirstOverlap(DropStale(s.buffer, last), last) >= |DropStale(s.buffer, last)|
    ensures Activate(s).0.status != LIVE && Unbridged(s, s.buffer, Activate(s).0, Activate(s).1)
  {
    hide DropStale, FirstOverlap, Chain, LeadStale;
    var last := s.pending.value.lastUpdateId;
    var kept := DropStale(s.buffer, last);
    FirstOverlapOfAll(s.buffer, last);
    LeadOfDrop(s.buffer, last);
    assert NoneOverlaps(s.buffer, last);
    assert |kept| > 0 ==> kept[0] == s.buffer[|s.buffer| - |kept|];
  }

  lemma {:induction false} LiveIsEmpty(s: State, rest: seq<DepthUpdate>)
    requires s.sequenceId.Some? && Chain(s, rest).0.status == LIVE
    ensures Chain(s, rest).0.buffer == [] && Chain(s, rest).0.pending.None?
    decreases |rest|
  {
    if |rest| > 0 {
      LiveIsEmpty(if rest[0].final <= s.sequenceId.value then s else Applied(s, rest[0]), rest[1..]);
    }
  }

  lemma {:induction false} LeadOfDrop(diffs: seq<DepthUpdate>, last: int)
    ensures var kept := DropStale(diffs, last);
            |kept| <= |diffs| && kept == diffs[|diffs| - |kept|..] && LeadStale(diffs, last, |diffs| - |kept|)
  {
    if |diffs| > 0 && diffs[0].final < last {
      LeadOfDrop(diffs[1..], last);
      var k := |diffs| - |DropStale(diffs, last)|;
      forall j | 0 <= j < k ensures diffs[j].final < last {
        assert j > 0 ==> diffs[j] == diffs[1..][j - 1];
      }
      assert k < |diffs| ==> diffs[k] == diffs[1..][k - 1];
    }
  }

  function TransitionOf(r: Option<ApplyResult>): Transition {
    if r.Some? then r.value.transition else Buffered
  }

  /**
   What every call keeps, by the state before it. A diff outside LIVE is kept behind the others,
   unless the buffer is full; a gap and an overflow keep the one diff; a failed bridge keeps the
   diffs from the break on; a bridge not found yet drops the stale lead only.
   */
  ghost predicate Keeps(s: State, input: Input, capacity: nat, s': State, r: ApplyResult) {
    match input
    case Resync => Restarted(s, s', []) && r.transition == ResyncStarted
    case Snapshot(snapshot) =>
      var loaded := s.(pending := Some(snapshot), sequenceId := Some(snapshot.lastUpdateId),
                       bids := SideOf(snapshot.bids), asks := SideOf(snapshot.asks), status := BUFFERING);
      if s'.status == LIVE then s'.buffer == []
      else exists a :: Unbridged(loaded, s.buffer, s', a) && r.transition == TransitionOf(a)
    case Diff(u) =>
      if s.status == LIVE then
        if s.sequenceId.None? || u.final <= s.sequenceId.value then s' == s && r.transition == StaleIgnored
        else if u.previous == s.sequenceId.value then
          s'.status == LIVE && s'.sequenceId == Some(u.final) && s'.buffer == s.buffer && r.transition == UpdateApplied
        else Restarted(s, s', [u]) && r.transition == SequenceGap
      else if |s.buffer| == capacity then Restarted(s, s', [u]) && r.transition == BufferOverflow
      else if s.pending.None? then s' == s.(buffer := s.buffer + [u]) && r.transition == Buffered
      else if s'.status == LIVE then s'.buffer == []
      else exists a :: Unbridged(s, s.buffer + [u], s', a) && r.transition == TransitionOf(a)
  }

  lemma {:induction false} StepKeepsDiffs(s: State, input: Input, capacity: nat)
    requires capacity >= 1 && Consistent(s, capacity)
    ensures Keeps(s, input, capacity, Step(s, input, capacity).0, Step(s, input, capacity).1)
  {
    hide Activate, Unbridged, SideOf, ApplyLevels;
    match input
    case Resync =>
    case Snapshot(snapshot) =>
      var loaded := s.(pending := Some(snapshot), sequenceId := Some(snapshot.lastUpdateId),
                       bids := SideOf(snapshot.bids), asks := SideOf(snapshot.asks), status := BUFFERING);
      ActivateKeeps(loaded);
      assert Activate(loaded).0.status == LIVE || Unbridged(loaded, s.buffer, Activate(loaded).0, Activate(loaded).1);
    case Diff(u) =>
      if s.status != LIVE && |s.buffer| < capacity && s.pending.Some? {
        var grown := s.(buffer := s.buffer + [u]);
        ActivateKeeps(grown);
        SameUnbridged(s, grown, grown.buffer, Activate(grown).0, Activate(grown).1);
      }
  }

  /** The buffer of the state in front plays no part. */
  lemma {:induction false} SameUnbridged(s: State, grown: State, diffs: seq<DepthUpdate>, s': State,
                                         r: Option<ApplyResult>)
    requires s.pending.Some? && grown == s.(buffer := diffs)
    ensures Unbridged(grown, diffs, s', r) <==> Unbridged(s, diffs, s', r)
  {
    hide LeadStale, NoneOverlaps, FirstToOverlap, BreaksAt;
    forall kept ensures Restarted(grown, s', kept) <==> Restarted(s, s', kept) {
    }
  }

  function Diffs(inputs: seq<Input>): seq<DepthUpdate> {
    if |inputs| == 0 then []
    else Diffs(inputs[..|inputs| - 1]) + (if inputs[|inputs| - 1].Diff? then [inputs[|inputs| - 1].update] else [])
  }

  function Snapshots(inputs: seq<Input>): seq<DepthSnapshot> {
    if |inputs| == 0 then []
    else Snapshots(inputs[..|inputs| - 1])
         + (if inputs[|inputs| - 1].Snapshot? then [inputs[|inputs| - 1].snapshot] else [])
  }

  /** The diff ends in front of one of the snapshots. */
  ghost predicate StaleFor(u: DepthUpdate, snapshots: seq<DepthSnapshot>) {
    exists i :: 0 <= i < |snapshots| && u.final < snapshots[i].lastUpdateId
  }

  /** All diffs but some leading ones, each of which ends in front of one of the snapshots. */
  ghost predicate AllButStale(diffs: seq<DepthUpdate>, snapshots: seq<DepthSnapshot>, kept: seq<DepthUpdate>) {
    exists k :: 0 <= k <= |diffs| && kept == diffs[k..] && forall j :: 0 <= j < k ==> StaleFor(diffs[j], snapshots)
  }

  function PendingOf(s: State): seq<DepthSnapshot> {
    if s.pending.Some? then [s.pending.value] else []
  }

  lemma {:induction false} OneMoreKept(diffs: seq<DepthUpdate>, snapshots: seq<DepthSnapshot>,
                                       kept: seq<DepthUpdate>, next: seq<DepthUpdate>, more: seq<DepthSnapshot>,
                                       last: int, k: nat)
    requires AllButStale(diffs, snapshots, kept) && snapshots <= more
    requires LeadStale(kept + next, last, k) && (k > 0 ==> exists i :: 0 <= i < |more| && more[i].lastUpdateId == last)
    ensures AllButStale(diffs + next, more, (kept + next)[k..])
  {
    hide StaleFor;
    var m :| 0 <= m <= |diffs| && kept == diffs[m..] && forall j :: 0 <= j < m ==> StaleFor(diffs[j], snapshots);
    TailOfTail(diffs, next, m, k);
    forall j | 0 <= j < m + k ensures StaleFor((diffs + next)[j], more) {
      if j < m {
        StaleForMore(diffs[j], snapshots, more);
      } else {
        assert (diffs + next)[j] == (kept + next)[j - m];
        var i :| 0 <= i < |more| && more[i].lastUpdateId == last;
        StaleByAt((diffs + next)[j], more, i);
      }
    }
  }

  lemma {:induction false} StaleByAt(u: DepthUpdate, snapshots: seq<DepthSnapshot>, i: nat)
    requires i < |snapshots| && u.final < snapshots[i].lastUpdateId
    ensures StaleFor(u, snapshots)
  {
  }

  lemma {:induction false} TailOfTail(diffs: seq<DepthUpdate>, next: seq<DepthUpdate>, m: nat, k: nat)
    requires m <= |diffs| && m + k <= |diffs + next|
    ensures (diffs[m..] + next)[k..] == (diffs + next)[m + k..]
  {
  }

  lemma {:induction false} StaleForMore(u: DepthUpdate, snapshots: seq<DepthSnapshot>, more: seq<DepthSnapshot>)
    requires StaleFor(u, snapshots) && snapshots <= more
    ensures StaleFor(u, more)
  {
    var i :| 0 <= i < |snapshots| && u.final < snapshots[i].lastUpdateId;
    assert more[i] == snapshots[i];
  }

  /** The book after `before` and the first `i` calls of `after` still waits in the same generation. */
  ghost predicate StillWaits(before: seq<Input>, after: seq<Input>, i: nat, capacity: nat)
    requires capacity >= 1 && i <= |after|
  {
    var s := Run(before + after[..i], capacity);
    s.status != LIVE && s.generation == Run(before, capacity).generation
  }

  /**
   As long as a book waits for its bridge in one generation, it holds all diffs ingested in it,
   but for a lead of diffs that end in front of a snapshot installed meanwhile.
   */
  lemma {:induction false} OnlyStaleDiffsAreDropped(before: seq<Input>, after: seq<Input>, capacity: nat)
    requires capacity >= 1 && forall i :: 0 <= i <= |after| ==> StillWaits(before, after, i, capacity)
    ensures var s, s' := Run(before, capacity), Run(before + after, capacity);
            && AllButStale(s.buffer + Diffs(after), PendingOf(s) + Snapshots(after), s'.buffer)
            && (s'.pending.Some? ==> s'.pending.value in PendingOf(s) + Snapshots(after))
            && (PendingOf(s) + Snapshots(after) == [] ==> s'.buffer == s.buffer + Diffs(after))
    decreases |after|
  {
    hide Step, Run, Consistent, AllButStale, Keeps;
    var s := Run(before, capacity);
    if |after| == 0 {
      assert before + after == before;
      NothingAfter(s);
    } else {
      var n := |after| - 1;
      forall i | 0 <= i <= n ensures StillWaits(before, after[..n], i, capacity) {
        assert after[..n][..i] == after[..i] && StillWaits(before, after, i, capacity);
      }
      OnlyStaleDiffsAreDropped(before, after[..n], capacity);
      assert before + after == before + after[..n] + [after[n]];
      RunNext(before + after[..n], after[n], capacity);
      assert StillWaits(before, after, n, capacity) && StillWaits(before, after, n + 1, capacity);
      assert after[..n + 1] == after;
      var middle := Run(before + after[..n], capacity);
      StepKeepsDiffs(middle, after[n], capacity);
      OneMoreCall(s, middle, after, Run(before + after, capacity), Step(middle, after[n], capacity).1, capacity);
    }
    if PendingOf(s) + Snapshots(after) == [] {
      NothingStale(s.buffer + Diffs(after), Run(before + after, capacity).buffer);
    }
  }

  lemma {:induction false} NothingAfter(s: State)
    ensures AllButStale(s.buffer + Diffs([]), PendingOf(s) + Snapshots([]), s.buffer)
    ensures PendingOf(s) + Snapshots([]) == PendingOf(s)
  {
    assert s.buffer + [] == s.buffer && s.buffer[0..] == s.buffer;
  }

  lemma {:induction false} NothingStale(diffs: seq<DepthUpdate>, kept: seq<DepthUpdate>)
    requires AllButStale(diffs, [], kept)
    ensures kept == diffs
  {
    var k :| 0 <= k <= |diffs| && kept == diffs[k..] && forall j :: 0 <= j < k ==> StaleFor(diffs[j], []);
    assert k > 0 ==> StaleFor(diffs[0], []);
  }

  lemma {:induction false} OneMoreCall(s: State, middle: State, after: seq<Input>, s': State, r: ApplyResult,
                                       capacity: nat)
    requires |after| > 0 && Consistent(middle, capacity)
    requires var before := after[..|after| - 1];
             && AllButStale(s.buffer + Diffs(before), PendingOf(s) + Snapshots(before), middle.buffer)
             && (middle.pending.Some? ==> middle.pending.value in PendingOf(s) + Snapshots(before))
    requires Keeps(middle, after[|after| - 1], capacity, s', r)
    requires middle.status != LIVE && s'.status != LIVE && s'.generation == middle.generation
    ensures AllButStale(s.buffer + Diffs(after), PendingOf(s) + Snapshots(after), s'.buffer)
    ensures s'.pending.Some? ==> s'.pending.value in PendingOf(s) + Snapshots(after)
  {
    hide Consistent, AllButStale, SideOf, LeadStale, NoneOverlaps, PendingOf, FirstToOverlap, BreaksAt;
    var before, input := after[..|after| - 1], after[|after| - 1];
    var snapshots, more := PendingOf(s) + Snapshots(before), PendingOf(s) + Snapshots(after);
    var next := if input.Diff? then [input.update] else [];
    assert more == snapshots + (if input.Snapshot? then [input.snapshot] else []);
    assert s.buffer + Diffs(after) == s.buffer + Diffs(before) + next;
    var pending := if input.Snapshot? then Some(input.snapshot) else middle.pending;
    if pending.None? {
      LeadOfNone(middle.buffer + next);
      OneMoreKept(s.buffer + Diffs(before), snapshots, middle.buffer, next, more, LowestFinal(middle.buffer + next), 0);
      assert (middle.buffer + next)[0..] == middle.buffer + next;
      assert middle.buffer + [] == middle.buffer;
    } else {
      var last := pending.value.lastUpdateId;
      assert pending.value in more;
      var i :| 0 <= i < |more| && more[i] == pending.value;
      var k := KeptLead(middle, input, s', r, capacity);
      OneMoreKept(s.buffer + Diffs(before), snapshots, middle.buffer, next, more, last, k);
    }
  }

  function LowestFinal(diffs: seq<DepthUpdate>): int {
    if |diffs| == 0 then 0 else diffs[0].final
  }

  lemma {:induction false} LeadOfNone(diffs: seq<DepthUpdate>)
    ensures LeadStale(diffs, LowestFinal(diffs), 0)
  {
  }

  lemma {:induction false} KeptLead(s: State, input: Input, s': State, r: ApplyResult, capacity: nat) returns (k: nat)
    requires Keeps(s, input, capacity, s', r) && !input.Resync?
    requires s.status != LIVE && s'.status != LIVE && s'.generation == s.generation
    requires input.Snapshot? || s.pending.Some?
    ensures var pending := if input.Snapshot? then input.snapshot else s.pending.value;
            var diffs := s.buffer + (if input.Diff? then [input.update] else []);
            LeadStale(diffs, pending.lastUpdateId, k) && s'.buffer == diffs[k..] && s'.pending == Some(pending)
  {
    hide SideOf, NoneOverlaps, FirstToOverlap, BreaksAt;
    var pending := if input.Snapshot? then input.snapshot else s.pending.value;
    var diffs := s.buffer + (if input.Diff? then [input.update] else []);
    assert s.buffer + [] == s.buffer;
    assert input.Snapshot? ==> diffs == s.buffer;
    k :| LeadStale(diffs, pending.lastUpdateId, k) && k <= |diffs| && s'.buffer == diffs[k..];
  }

  function Fed(diffs: seq<DepthUpdate>): (r: seq<Input>)
    ensures |r| == |diffs|
  {
    seq(|diffs|, i requires 0 <= i < |diffs| => Diff(diffs[i]))
  }

  /** Diffs that fit are all kept, in order, until a snapshot comes. */
  lemma {:induction false} DiffsAreKept(before: seq<Input>, diffs: seq<DepthUpdate>, capacity: nat)
    requires capacity >= 1
    requires var s := Run(before, capacity);
             s.status != LIVE && s.pending.None? && |s.buffer| + |diffs| <= capacity
    ensures var s := Run(before, capacity); Run(before + Fed(diffs), capacity) == s.(buffer := s.buffer + diffs)
    decreases |diffs|
  {
    hide Step, Run, Keeps, Consistent;
    var s := Run(before, capacity);
    if |diffs| == 0 {
      assert before + Fed(diffs) == before && s.buffer + [] == s.buffer;
    } else {
      var n := |diffs| - 1;
      DiffsAreKept(before, diffs[..n], capacity);
      assert before + Fed(diffs) == before + Fed(diffs[..n]) + [Diff(diffs[n])];
      RunNext(before + Fed(diffs[..n]), Diff(diffs[n]), capacity);
      KeepsOne(Run(before + Fed(diffs[..n]), capacity), diffs[n], capacity);
      assert s.buffer + diffs == s.buffer + diffs[..n] + [diffs[n]];
    }
  }

  lemma {:induction false} RunNext(inputs: seq<Input>, input: Input, capacity: nat)
    requires capacity >= 1
    ensures Run(inputs + [input], capacity) == Step(Run(inputs, capacity), input, capacity).0
  {
    hide Step, Consistent;
    assert (inputs + [input])[..|inputs|] == inputs;
  }

  lemma {:induction false} KeepsOne(s: State, u: DepthUpdate, capacity: nat)
    requires capacity >= 1 && Consistent(s, capacity) && s.status != LIVE && s.pending.None? && |s.buffer| < capacity
    ensures Step(s, Diff(u), capacity).0 == s.(buffer := s.buffer + [u])
  {
    hide Step;
    StepKeepsDiffs(s, Diff(u), capacity);
  }

  /**
   Over runs: a book that waits without a snapshot, and then gets some diffs and a snapshot, goes
   LIVE exactly when what it held and those diffs together bridge the snapshot. A new book holds
   nothing, so there the diffs alone decide.
   */
  lemma {:induction false} DiffsThenSnapshotGoLiveIff(before: seq<Input>, diffs: seq<DepthUpdate>,
                                                      snapshot: DepthSnapshot, capacity: nat)
    requires capacity >= 1
    requires var s := Run(before, capacity);
             s.status != LIVE && s.pending.None? && |s.buffer| + |diffs| <= capacity
    ensures var all := Run(before, capacity).buffer + diffs;
            var s' := Run(before + Fed(diffs) + [Snapshot(snapshot)], capacity);
            && (s'.status == LIVE <==> exists i :: Bridges(all, snapshot.lastUpdateId, i))
            && (forall i :: Bridges(all, snapshot.lastUpdateId, i) ==>
                  s'.sequenceId == Some(Reached(all, i, |all|)) && s'.generation == Run(before, capacity).generation)
    ensures before == [] ==> Run(before, capacity).buffer + diffs == diffs
  {
    hide Bridges, Reached, Installed;
    DiffsAreKept(before, diffs, capacity);
    var fed := before + Fed(diffs);
    assert (fed + [Snapshot(snapshot)])[..|fed|] == fed;
    SnapshotBridgesIff(Run(fed, capacity), snapshot);
  }

  /** Consecutive diffs of one unbroken stream. */
  ghost predicate Gapless(diffs: seq<DepthUpdate>) {
    && (forall i :: 0 <= i < |diffs| ==> diffs[i].previous < diffs[i].first <= diffs[i].final)
    && (forall i :: 0 < i < |diffs| ==> diffs[i].previous == diffs[i - 1].final)
  }

  lemma {:induction false} GaplessReaches(diffs: seq<DepthUpdate>, i: nat, j: nat)
    requires Gapless(diffs) && i < j <= |diffs|
    ensures Reached(diffs, i, j) == diffs[j - 1].final && (j < |diffs| ==> Continues(diffs, i, j))
    decreases j
  {
    if j > i + 1 {
      GaplessReaches(diffs, i, j - 1);
    }
  }

  /** Over an unbroken buffer one overlapping diff is enough, and the book is at the newest one. */
  lemma {:induction false} SnapshotBridgesGaplessBuffer(s: State, snapshot: DepthSnapshot)
    requires Gapless(s.buffer)
    ensures var (s', r) := Installed(s, snapshot);
            && (s'.status == LIVE <==> exists u :: u in s.buffer && u.first <= snapshot.lastUpdateId <= u.final)
            && (s'.status == LIVE ==>
                  && s'.generation == s.generation && r.transition == SnapshotApplied
                  && s'.sequenceId == Some(s.buffer[|s.buffer| - 1].final))
  {
    hide Installed, Gapless, Reached, Continues;
    SnapshotBridgesIff(s, snapshot);
    var diffs, last := s.buffer, snapshot.lastUpdateId;
    var i := FirstOverlap(diffs, last);
    if i < |diffs| {
      forall j | i < j < |diffs| ensures Continues(diffs, i, j) {
        GaplessReaches(diffs, i, j);
      }
      GaplessReaches(diffs, i, |diffs|);
      assert Bridges(diffs, last, i) && diffs[i] in diffs;
    } else {
      assert forall n :: !Bridges(diffs, last, n);
    }
  }

  // ---------- The book itself, updated in place ----------

  class LocalOrderBook {
    const symbol: string
    const maxBufferEvents: nat
    var status: Status
    var generation: nat
    var sequenceId: Option<int>
    var bids: Side
    var asks: Side
    var buffer: seq<DepthUpdate>
    var pending: Option<DepthSnapshot>

    ghost function Abs(): State
      reads this
    {
      State(status, generation, sequenceId, bids, asks, buffer, pending)
    }

    ghost predicate Valid()
      reads this
    {
      maxBufferEvents >= 1 && Consistent(Abs(), maxBufferEvents)
    }

    constructor (symbol: string, maxBufferEvents: nat)
      requires maxBufferEvents >= 1
      ensures Valid() && Abs() == INITIAL
      ensures this.symbol == symbol && this.maxBufferEvents == maxBufferEvents
    {
      this.symbol, this.maxBufferEvents := symbol, maxBufferEvents;
      status, generation, sequenceId := BUFFERING, 0, None;
      bids, asks, buffer, pending := map[], map[], [], None;
    }

    method Report(transition: Transition, needsSnapshot: bool) returns (r: ApplyResult)
      ensures r == Outcome(Abs(), transition, needsSnapshot)
    {
      r := ApplyResult(transition, status, generation, sequenceId, |buffer|, needsSnapshot);
    }

    method BeginResync() returns (r: ApplyResult)
      requires Valid()
      modifies this
      ensures Valid() && (Abs(), r) == Resynced(old(Abs()))
    {
      Invalidate([]);
      r := Report(ResyncStarted, true);
    }

    method Invalidate(kept: seq<DepthUpdate>)
      modifies this
      ensures Abs() == Invalidated(old(Abs()), kept)
    {
      generation := generation + 1;
      status, sequenceId := RESYNC_REQUIRED, None;
      bids, asks := map[], map[];
      pending := None;
      buffer := kept;
    }

    method ApplyUpdate(update: DepthUpdate)
      modifies this
      ensures Abs() == Applied(old(Abs()), update)
    {
      bids := ApplySide(bids, update.bids);
      asks := ApplySide(asks, update.asks);
      sequenceId := Some(update.final);
    }

    method Ingest(update: DepthUpdate) returns (r: Result<ApplyResult>)
      requires Valid()
      modifies this
      ensures Valid()
      ensures update.symbol != symbol ==> r.Failure? && Abs() == old(Abs())
      ensures update.symbol == symbol ==>
                r.Success? && (Abs(), r.value) == Ingested(old(Abs()), update, maxBufferEvents)
    {
      if update.symbol != symbol {
        return Failure("wrong symbol");
      }
      StepConsistent(Abs(), Diff(update), maxBufferEvents);
      var result: ApplyResult;
      if status != LIVE {
        result := BufferUpdate(update);
      } else if update.final <= sequenceId.value {
        result := Report(StaleIgnored, false);
      } else if update.previous != sequenceId.value {
        Invalidate([update]);
        result := Report(SequenceGap, true);
      } else {
        ApplyUpdate(update);
        result := Report(UpdateApplied, false);
      }
      return Success(result);
    }

    method BufferUpdate(update: DepthUpdate) returns (r: ApplyResult)
      requires Valid() && status != LIVE
      modifies this
      ensures (Abs(), r) == BufferedUpdate(old(Abs()), update, maxBufferEvents)
    {
      if |buffer| >= maxBufferEvents {
        Invalidate([update]);
        r := Report(BufferOverflow, true);
        return;
      }
      buffer := buffer + [update];
      if pending.Some? {
        var activation := TryActivateSnapshot();
        if activation.Some? {
          return activation.value;
        }
      }
      r := Report(Buffered, pending.None?);
    }

    method InstallSnapshot(snapshot: DepthSnapshot) returns (r: ApplyResult)
      requires Valid()
      modifies this
      ensures Valid() && (Abs(), r) == Installed(old(Abs()), snapshot)
    {
      StepConsistent(Abs(), Snapshot(snapshot), maxBufferEvents);
      pending := Some(snapshot);
      sequenceId := Some(snapshot.lastUpdateId);
      bids := SnapshotSide(snapshot.bids);
      asks := SnapshotSide(snapshot.asks);
      status := BUFFERING;
      var activation := TryActivateSnapshot();
      if activation.Some? {
        return activation.value;
      }
      r := Report(Buffered, false);
    }

    method TryActivateSnapshot() returns (r: Option<ApplyResult>)
      requires pending.Some?
      modifies this
      ensures (Abs(), r) == Activate(old(Abs()))
    {
      hide Chain, Overlaps;
      var last := pending.value.lastUpdateId;
      ghost var start := Abs();
      while |buffer| > 0 && buffer[0].final < last
        invariant Abs() == start.(buffer := buffer)
        invariant DropStale(buffer, last) == DropStale(start.buffer, last)
        decreases |buffer|
      {
        buffer := buffer[1..];
      }
      if |buffer| == 0 {
        return None;
      }
      ghost var kept := buffer;
      var index := 0;
      while index < |buffer| && !Overlaps(buffer[index], last)
        invariant 0 <= index <= |buffer|
        invariant Abs() == start.(buffer := kept)
        invariant FirstOverlap(kept, last) == index + FirstOverlap(kept[index..], last)
      {
        index := index + 1;
      }
      if index == |buffer| {
        if buffer[0].first > last {
          status := RESYNC_REQUIRED;
          var retry := Report(RetrySnapshot, true);
          return Some(retry);
        }
        return None;
      }
      assert kept[index..][0] == kept[index];
      var first := buffer[index];
      buffer := buffer[index + 1..];
      ApplyUpdate(first);
      var applied := ReplayBuffer();
      return Some(applied);
    }

    /** Chain the diffs left behind the bridge. */
    method ReplayBuffer() returns (r: ApplyResult)
      requires sequenceId.Some?
      modifies this
      ensures (Abs(), r) == Chain(old(Abs()), old(buffer))
    {
      ghost var start := Abs();
      while |buffer| > 0
        invariant sequenceId.Some?
        invariant Chain(Abs().(buffer := start.buffer), buffer) == Chain(start, start.buffer)
        decreases |buffer|
      {
        var update := buffer[0];
        var remaining := buffer;
        buffer := buffer[1..];
        if update.final > sequenceId.value {
          if update.previous != sequenceId.value {
            Invalidate(remaining);
            r := Report(SequenceGap, true);
            return;
          }
          ApplyUpdate(update);
        }
      }
      pending, status := None, LIVE;
      r := Report(SnapshotApplied, false);
    }
  }
}
