/**
 OKX v5 `books` channel: snapshots followed by updates chained by `prevSeqId`, each
 guarded by the historical checksum when it is not zero.
 */
module OkxBook {
  import opened Common
  import L = Levels

  datatype Status = BUFFERING | LIVE | RESYNC_REQUIRED

  datatype Transition = SnapshotApplied | UpdateApplied | SequenceGap | ChecksumMismatch | ResyncStarted

  /** A level keeps the texts it was parsed from, which the checksum is taken over. */
  datatype RawLevel = RawLevel(price: real, quantity: real, priceText: string, quantityText: string)

  type RawSide = map<real, RawLevel>

  datatype BookData = BookData(bids: seq<RawLevel>, asks: seq<RawLevel>, checksum: int,
                               sequenceId: int, previous: int)

  datatype ApplyResult = ApplyResult(transition: Transition, status: Status, generation: nat,
                                     sequenceId: Option<int>, needsSnapshot: bool)

  datatype State = State(status: Status, generation: nat, sequenceId: Option<int>, bids: RawSide, asks: RawSide)

  datatype Input = Snapshot(data: BookData) | Update(data: BookData) | Resync

  /** The CRC-32 of the interleaved top levels is left uninterpreted. */
  datatype Checker = Checker(validateNonzero: bool, crc: (RawSide, RawSide) -> int) {
    predicate Accepts(bids: RawSide, asks: RawSide, checksum: int) {
      checksum == 0 || !validateNonzero || crc(bids, asks) == checksum
    }
  }

  // ---------- Operations as functions ----------

  const INITIAL := State(BUFFERING, 0, None, map[], map[])

  function RawSideOf(levels: seq<RawLevel>): RawSide
    decreases |levels|
  {
    if |levels| == 0 then map[]
    else
      var last := levels[|levels| - 1];
      var side := RawSideOf(levels[..|levels| - 1]);
      if last.quantity > 0.0 then side[last.price := last] else side
  }

  function ApplyRaw(side: RawSide, levels: seq<RawLevel>): RawSide
    decreases |levels|
  {
    if |levels| == 0 then side
    else
      var last := levels[|levels| - 1];
      var init := ApplyRaw(side, levels[..|levels| - 1]);
      if last.quantity == 0.0 then init - {last.price} else init[last.price := last]
  }

  function Outcome(s: State, transition: Transition, needsSnapshot: bool): ApplyResult {
    ApplyResult(transition, s.status, s.generation, s.sequenceId, needsSnapshot)
  }

  function Invalidated(s: State): State {
    State(RESYNC_REQUIRED, s.generation + 1, None, map[], map[])
  }

  function Failed(s: State, transition: Transition): (State, ApplyResult) {
    (Invalidated(s), Outcome(Invalidated(s), transition, true))
  }

  function Ingested(s: State, isSnapshot: bool, data: BookData, checker: Checker): (State, ApplyResult) {
    if isSnapshot then
      var loaded := s.(bids := RawSideOf(data.bids), asks := RawSideOf(data.asks), sequenceId := Some(data.sequenceId));
      if !checker.Accepts(loaded.bids, loaded.asks, data.checksum) then Failed(loaded, ChecksumMismatch)
      else (loaded.(status := LIVE), Outcome(loaded.(status := LIVE), SnapshotApplied, false))
    else if s.status != LIVE || s.sequenceId.None? then
      (s.(status := RESYNC_REQUIRED), Outcome(s.(status := RESYNC_REQUIRED), SequenceGap, true))
    else if data.previous != s.sequenceId.value then
      Failed(s, SequenceGap)
    else
      var applied := s.(bids := ApplyRaw(s.bids, data.bids), asks := ApplyRaw(s.asks, data.asks),
                        sequenceId := Some(data.sequenceId));
      if !checker.Accepts(applied.bids, applied.asks, data.checksum) then Failed(applied, ChecksumMismatch)
      else (applied, Outcome(applied, UpdateApplied, false))
  }

  function Step(s: State, input: Input, checker: Checker): (State, ApplyResult) {
    match input
    case Snapshot(data) => Ingested(s, true, data, checker)
    case Update(data) => Ingested(s, false, data, checker)
    case Resync => Failed(s, ResyncStarted)
  }

  function Run(inputs: seq<Input>, checker: Checker): State {
    if |inputs| == 0 then INITIAL
    else Step(Run(inputs[..|inputs| - 1], checker), inputs[|inputs| - 1], checker).0
  }

  // ---------- What a LIVE book is, read off the inputs alone ----------

  /** The sides after `inputs[k]`, a snapshot, folded with every later update. */
  function Folded(inputs: seq<Input>, k: nat): (RawSide, RawSide)
    requires k < |inputs|
    decreases |inputs|
  {
    var last := inputs[|inputs| - 1];
    if last.Resync? then (map[], map[])
    else if |inputs| - 1 == k then (RawSideOf(last.data.bids), RawSideOf(last.data.asks))
    else
      var (bids, asks) := Folded(inputs[..|inputs| - 1], k);
      (ApplyRaw(bids, last.data.bids), ApplyRaw(asks, last.data.asks))
  }

  /** `inputs[k]` is a snapshot, every later input an update chained to its predecessor, all checksums good. */
  ghost predicate Anchored(inputs: seq<Input>, k: nat, checker: Checker)
    decreases |inputs|
  {
    && k < |inputs|
    && var last := inputs[|inputs| - 1];
    && (if |inputs| - 1 == k then last.Snapshot?
        else
          && last.Update?
          && Anchored(inputs[..|inputs| - 1], k, checker)
          && !inputs[|inputs| - 2].Resync?
          && last.data.previous == inputs[|inputs| - 2].data.sequenceId)
    && checker.Accepts(Folded(inputs, k).0, Folded(inputs, k).1, last.data.checksum)
  }

  /** Over every run: outside LIVE nothing is kept, and the generation never returns. */
  lemma {:induction false} OnlyLiveBooksHoldData(inputs: seq<Input>, checker: Checker)
    ensures var s := Run(inputs, checker);
            if s.status == LIVE then s.sequenceId.Some?
            else s.sequenceId.None? && s.bids == map[] && s.asks == map[]
    ensures |inputs| > 0 ==>
              Run(inputs, checker).generation >= Run(inputs[..|inputs| - 1], checker).generation
  {
    if |inputs| > 0 {
      OnlyLiveBooksHoldData(inputs[..|inputs| - 1], checker);
    }
  }

  lemma {:induction false} AnchoredIsLive(inputs: seq<Input>, k: nat, checker: Checker)
    requires Anchored(inputs, k, checker)
    ensures var s := Run(inputs, checker);
            && s.status == LIVE && (s.bids, s.asks) == Folded(inputs, k)
            && !inputs[|inputs| - 1].Resync? && s.sequenceId == Some(inputs[|inputs| - 1].data.sequenceId)
    decreases |inputs|
  {
    var n := |inputs| - 1;
    if k < n {
      AnchoredIsLive(inputs[..n], k, checker);
      assert inputs[..n][n - 1] == inputs[n - 1];
    }
  }

  lemma {:induction false} LiveIsAnchored(inputs: seq<Input>, checker: Checker) returns (k: nat)
    requires Run(inputs, checker).status == LIVE
    ensures Anchored(inputs, k, checker)
    decreases |inputs|
  {
    var n := |inputs| - 1;
    if inputs[n].Snapshot? {
      k := n;
    } else {
      k := LiveIsAnchored(inputs[..n], checker);
      AnchoredIsLive(inputs[..n], k, checker);
      assert inputs[..n][n - 1] == inputs[n - 1];
    }
  }

  /**
   Main result: after any run the book is LIVE exactly when some snapshot is followed only by
   an unbroken, checksum-clean chain of updates, and then it is that snapshot folded with them.
   */
  lemma {:induction false} LiveIffAnchored(inputs: seq<Input>, checker: Checker)
    ensures Run(inputs, checker).status == LIVE ==> exists k: nat :: Anchored(inputs, k, checker)
    ensures forall k: nat :: Anchored(inputs, k, checker) ==>
              var s := Run(inputs, checker);
              && s.status == LIVE && (s.bids, s.asks) == Folded(inputs, k)
              && s.sequenceId == Some(inputs[|inputs| - 1].data.sequenceId)
  {
    if Run(inputs, checker).status == LIVE {
      var k := LiveIsAnchored(inputs, checker);
    }
    forall k: nat | Anchored(inputs, k, checker)
      ensures var s := Run(inputs, checker);
              && s.status == LIVE && (s.bids, s.asks) == Folded(inputs, k)
              && s.sequenceId == Some(inputs[|inputs| - 1].data.sequenceId)
    {
      AnchoredIsLive(inputs, k, checker);
    }
  }

  /** Input `i + 1` is an update naming input `i` as its predecessor. */
  predicate Linked(inputs: seq<Input>, i: nat)
    requires i + 1 < |inputs|
  {
    inputs[i + 1].Update? && !inputs[i].Resync? && inputs[i + 1].data.previous == inputs[i].data.sequenceId
  }

  /** Read without recursion: behind the anchoring snapshot there are only chained updates. */
  lemma {:induction false} AnchoredInputsAreChained(inputs: seq<Input>, k: nat, checker: Checker)
    requires Anchored(inputs, k, checker)
    ensures inputs[k].Snapshot?
    ensures forall i :: k <= i < |inputs| - 1 ==> Linked(inputs, i)
    decreases |inputs|
  {
    var n := |inputs| - 1;
    if k < n {
      AnchoredInputsAreChained(inputs[..n], k, checker);
      forall i | k <= i < n ensures Linked(inputs, i) {
        assert i < n - 1 ==> Linked(inputs[..n], i);
      }
    }
  }

  /**
   The result describes the new book and asks for a snapshot exactly outside LIVE; a generation
   ends with each loss of a held book and each resync.
   */
  lemma {:induction false} StepTells(s: State, input: Input, checker: Checker)
    requires s.status == LIVE ==> s.sequenceId.Some?
    ensures var (s', r) := Step(s, input, checker);
            && r.status == s'.status && r.generation == s'.generation && r.sequenceId == s'.sequenceId
            && (r.needsSnapshot <==> s'.status != LIVE)
            && s'.generation == s.generation
                                + (if input.Resync? || r.transition == ChecksumMismatch
                                      || (r.transition == SequenceGap && s.status == LIVE) then 1 else 0)
  {
  }

  /** A book is BUFFERING only before its first input; from then on it is LIVE or waits for a resync. */
  lemma {:induction false} BufferingIffNew(inputs: seq<Input>, checker: Checker)
    ensures Run(inputs, checker).status == BUFFERING <==> inputs == []
  {
    if |inputs| > 0 && |inputs| > 1 {
      BufferingIffNew(inputs[..|inputs| - 1], checker);
    }
  }

  /**
   The kind of result by the input: a snapshot is applied unless its nonzero checksum is validated
   and differs from the book it makes; an update needs a LIVE book and its own predecessor before
   that. A refused input leaves nothing behind.
   */
  lemma {:induction false} StepDecides(s: State, input: Input, checker: Checker)
    requires s.status == LIVE ==> s.sequenceId.Some?
    ensures var (s', r) := Step(s, input, checker);
            match input
            case Resync => r.transition == ResyncStarted && s'.status == RESYNC_REQUIRED
            case Snapshot(d) =>
              var bad := checker.validateNonzero && d.checksum != 0
                         && checker.crc(RawSideOf(d.bids), RawSideOf(d.asks)) != d.checksum;
              && (r.transition == if bad then ChecksumMismatch else SnapshotApplied)
              && (s'.status == if bad then RESYNC_REQUIRED else LIVE)
              && s'.sequenceId == (if bad then None else Some(d.sequenceId))
            case Update(d) =>
              var linked := s.status == LIVE && s.sequenceId == Some(d.previous);
              var bad := checker.validateNonzero && d.checksum != 0
                         && checker.crc(ApplyRaw(s.bids, d.bids), ApplyRaw(s.asks, d.asks)) != d.checksum;
              && (r.transition == if !linked then SequenceGap else if bad then ChecksumMismatch else UpdateApplied)
              && (s'.status == if !linked || bad then RESYNC_REQUIRED else LIVE)
              && (linked ==> s'.sequenceId == if bad then None else Some(d.sequenceId))
              && (s.status == LIVE && !linked ==> s'.sequenceId.None?)
  {
  }

  /** The last level of a price decides it: gone with quantity zero, otherwise kept with its own texts. */
  lemma {:induction false} LastLevelDecides(side: RawSide, levels: seq<RawLevel>, i: nat)
    requires i < |levels| && forall j :: i < j < |levels| ==> levels[j].price != levels[i].price
    ensures var x, p := levels[i], levels[i].price;
            if x.quantity == 0.0 then p !in ApplyRaw(side, levels)
            else p in ApplyRaw(side, levels) && ApplyRaw(side, levels)[p] == x
    decreases |levels|
  {
    var n := |levels| - 1;
    if i < n {
      LastLevelDecides(side, levels[..n], i);
    }
  }

  // ---------- Against the exchange's history ----------

  function Plain(levels: seq<RawLevel>): seq<L.Level> {
    seq(|levels|, i requires 0 <= i < |levels| => L.Level(levels[i].price, levels[i].quantity))
  }

  function Quantities(side: RawSide): L.Side {
    map p | p in side :: side[p].quantity
  }

  ghost predicate Faithful(h: L.History, input: Input) {
    match input
    case Resync => true
    case Snapshot(d) =>
      L.ListsAll(h.bids, Plain(d.bids), d.sequenceId) && L.ListsAll(h.asks, Plain(d.asks), d.sequenceId)
    case Update(d) =>
      && d.previous <= d.sequenceId
      && L.Carries(h.bids, Plain(d.bids), d.previous, d.sequenceId)
      && L.Carries(h.asks, Plain(d.asks), d.previous, d.sequenceId)
  }

  lemma {:induction false} RawSidesArePlainSides(side: RawSide, levels: seq<RawLevel>)
    ensures Quantities(RawSideOf(levels)) == L.SideOf(Plain(levels))
    ensures Quantities(ApplyRaw(side, levels)) == L.ApplyLevels(Quantities(side), Plain(levels))
    decreases |levels|
  {
    if |levels| > 0 {
      var init := levels[..|levels| - 1];
      RawSidesArePlainSides(side, init);
      assert Plain(levels)[..|levels| - 1] == Plain(init);
    }
  }

  /** Over every run of faithful inputs a LIVE book is the exchange's book at its sequence id. */
  lemma {:induction false} LiveBookIsExchangeBook(inputs: seq<Input>, checker: Checker, h: L.History)
    requires forall i :: 0 <= i < |inputs| ==> Faithful(h, inputs[i])
    ensures var s := Run(inputs, checker);
            s.status == LIVE ==>
              && s.sequenceId.Some?
              && L.Book(Quantities(s.bids), Quantities(s.asks)) == L.BookAt(h, s.sequenceId.value)
  {
    if |inputs| > 0 {
      var n := |inputs| - 1;
      LiveBookIsExchangeBook(inputs[..n], checker, h);
      OnlyLiveBooksHoldData(inputs, checker);
      var before := Run(inputs[..n], checker);
      if inputs[n].Snapshot? || inputs[n].Update? {
        var d := inputs[n].data;
        RawSidesArePlainSides(before.bids, d.bids);
        RawSidesArePlainSides(before.asks, d.asks);
        if inputs[n].Snapshot? {
          L.SnapshotRebuildsSide(h.bids, Plain(d.bids), d.sequenceId);
          L.SnapshotRebuildsSide(h.asks, Plain(d.asks), d.sequenceId);
        } else if before.status == LIVE && before.sequenceId == Some(d.previous) {
          L.CarriedLevelsAdvanceSide(h.bids, Plain(d.bids), d.previous, d.previous, d.sequenceId);
          L.CarriedLevelsAdvanceSide(h.asks, Plain(d.asks), d.previous, d.previous, d.sequenceId);
        }
      }
    }
  }

  // ---------- The book itself ----------

  class LocalOrderBook {
    const checker: Checker
    var status: Status
    var generation: nat
    var sequenceId: Option<int>
    var bids: RawSide
    var asks: RawSide

    ghost function Abs(): State
      reads this
    {
      State(status, generation, sequenceId, bids, asks)
    }

    constructor (checker: Checker)
      ensures Abs() == INITIAL && this.checker == checker
    {
      this.checker := checker;
      status, generation, sequenceId, bids, asks := BUFFERING, 0, None, map[], map[];
    }

    method Invalidate(transition: Transition) returns (r: ApplyResult)
      modifies this
      ensures (Abs(), r) == Failed(old(Abs()), transition)
    {
      generation := generation + 1;
      status, sequenceId := RESYNC_REQUIRED, None;
      bids, asks := map[], map[];
      r := ApplyResult(transition, status, generation, sequenceId, true);
    }

    method BeginResync() returns (r: ApplyResult)
      modifies this
      ensures (Abs(), r) == Step(old(Abs()), Resync, checker)
    {
      r := Invalidate(ResyncStarted);
    }

    method Ingest(isSnapshot: bool, data: BookData) returns (r: ApplyResult)
      modifies this
      ensures (Abs(), r) == Ingested(old(Abs()), isSnapshot, data, checker)
    {
      if isSnapshot {
        bids := BuildSide(data.bids);
        asks := BuildSide(data.asks);
        sequenceId := Some(data.sequenceId);
        if !checker.Accepts(bids, asks, data.checksum) {
          r := Invalidate(ChecksumMismatch);
          return;
        }
        status := LIVE;
        return ApplyResult(SnapshotApplied, status, generation, sequenceId, false);
      }
      if status != LIVE || sequenceId.None? {
        status := RESYNC_REQUIRED;
        return ApplyResult(SequenceGap, status, generation, sequenceId, true);
      }
      if data.previous != sequenceId.value {
        r := Invalidate(SequenceGap);
        return;
      }
      bids := ApplySide(bids, data.bids);
      asks := ApplySide(asks, data.asks);
      sequenceId := Some(data.sequenceId);
      if !checker.Accepts(bids, asks, data.checksum) {
        r := Invalidate(ChecksumMismatch);
        return;
      }
      r := ApplyResult(UpdateApplied, status, generation, sequenceId, false);
    }
  }

  method BuildSide(levels: seq<RawLevel>) returns (side: RawSide)
    ensures side == RawSideOf(levels)
  {
    side := map[];
    for i := 0 to |levels|
      invariant side == RawSideOf(levels[..i])
    {
      assert levels[..i + 1][..i] == levels[..i];
      if levels[i].quantity > 0.0 {
        side := side[levels[i].price := levels[i]];
      }
    }
    assert levels[..|levels|] == levels;
  }

  method ApplySide(side: RawSide, levels: seq<RawLevel>) returns (result: RawSide)
    ensures result == ApplyRaw(side, levels)
  {
    result := side;
    for i := 0 to |levels|
      invariant result == ApplyRaw(side, levels[..i])
    {
      assert levels[..i + 1][..i] == levels[..i];
      if levels[i].quantity == 0.0 {
        result := result - {levels[i].price};
      } else {
        result := result[levels[i].price := levels[i]];
      }
    }
    assert levels[..|levels|] == levels;
  }
}
