/**
 Durable feature persistence as atomic steps between awaits: one writer at a time under the
 write lock, one worker, and an abstract disk. Files survive a crash; everything else is lost,
 and the index is rebuilt from them.
 */
module FeatureProtocol {
  import opened Common
  import opened Sequences
  import opened RecentMap
  import opened FeatureIndex

  type HotCache = seq<Item<int, Identity>>

  /** Settings that bound the writer. */
  datatype Limits = Limits(queueCapacity: nat, batchRows: nat, hotCapacity: nat)

  datatype Phase = STOPPED | RUNNING | DONE | FAILED | CLOSED

  /**
   `writing` is a reserved row not yet queued; `batch` the rows taken from the queue; `flush`
   the partition groups still to be marked, the first of which may already be `published`;
   `found` the rows on disk at the start; `late` the files that threads of cancelled workers
   may still write.
   */
  datatype State = State(disk: seq<seq<Envelope>>, late: seq<seq<Envelope>>, phase: Phase, index: Index, hot: HotCache,
                         writing: Option<Envelope>, queue: seq<Envelope>, batch: seq<Envelope>,
                         flush: seq<seq<Envelope>>, published: bool,
                         closing: bool, stopQueued: bool, finishing: bool,
                         found: nat, accepted: nat, written: nat, deduplicated: nat)

  datatype Step =
    | Start
    | Write(envelope: Envelope)
    | Enqueue
    | CancelWrite
    | Take
    | Timeout
    | Publish
    | PublishFails
    | Mark
    | MarkFails(rows: nat)
    | BeginClose
    | EnqueueStop
    | TakeStop
    | FinishClose
    | CancelWorker        // from outside; a thread at work on a file goes on
    | LatePublish(k: nat) // such a thread gets its file done
    | LateFails(k: nat)   // or not
    | Reopen              // a new writer in the same process
    | Crash               // the process ends, with its threads

  /** A writer that has not started, over the files it finds. */
  function Fresh(disk: seq<seq<Envelope>>): State {
    State(disk, [], STOPPED, map[], [], None, [], [], [], false, false, false, false, 0, 0, 0, 0)
  }

  // ---------- Reservation ----------

  datatype Outcome = NEW | DUPLICATE | CONFLICT

  function Existing(index: Index, hot: HotCache, id: int): Option<Identity> {
    var cached := Get(hot, id);
    if cached.Some? then cached else if id in index then Some(index[id].identity) else None
  }

  function Reserve(index: Index, hot: HotCache, e: Envelope): Outcome {
    var existing := Existing(index, hot, e.id);
    if existing.None? then NEW else if existing.value == e.identity then DUPLICATE else CONFLICT
  }

  function Newest(hot: HotCache, capacity: nat): HotCache {
    if |hot| > capacity then hot[|hot| - capacity..] else hot
  }

  function Remember(hot: HotCache, e: Envelope, capacity: nat): HotCache {
    Newest(Refresh(hot, e.id, e.identity), capacity)
  }

  function Forget(hot: HotCache, e: Envelope): HotCache {
    if Get(hot, e.id) == Some(e.identity) then Without(hot, e.id) else hot
  }

  function DeletePending(index: Index, id: int): Index {
    if id in index && index[id].state == PENDING then index - {id} else index
  }

  // ---------- The steps; a step that is not enabled changes nothing ----------

  function StartStep(s: State): State {
    var index := Rebuild(s.disk);
    if s.phase == STOPPED && !s.closing && index.Success?
    then s.(phase := RUNNING, index := index.value, found := |Flatten(s.disk)|)
    else s
  }

  function WriteStep(c: Limits, s: State, e: Envelope): State {
    if s.phase != RUNNING || s.closing || s.writing.Some? then s
    else match Reserve(s.index, s.hot, e)
      case NEW => s.(index := s.index[e.id := Entry(e.identity, PENDING)],
                     hot := Remember(s.hot, e, c.hotCapacity), writing := Some(e))
      case DUPLICATE => s.(hot := Remember(s.hot, e, c.hotCapacity), deduplicated := s.deduplicated + 1)
      case CONFLICT => s
  }

  function EnqueueStep(c: Limits, s: State): State {
    if s.phase == RUNNING && s.writing.Some? && |s.queue| < c.queueCapacity
    then s.(queue := s.queue + [s.writing.value], writing := None, accepted := s.accepted + 1)
    else s
  }

  function CancelStep(s: State): State {
    if (s.phase == RUNNING || s.phase == FAILED) && s.writing.Some?
    then s.(index := DeletePending(s.index, s.writing.value.id), hot := Forget(s.hot, s.writing.value), writing := None)
    else s
  }

  function BeginFlush(s: State): State {
    s.(flush := Groups(s.batch), batch := [])
  }

  function TakeStep(c: Limits, s: State): State {
    if s.phase == RUNNING && !s.finishing && s.flush == [] && |s.queue| > 0
    then
      var taken := s.(batch := s.batch + [s.queue[0]], queue := s.queue[1..]);
      if |taken.batch| >= c.batchRows then BeginFlush(taken) else taken
    else s
  }

  function TimeoutStep(s: State): State {
    if s.phase == RUNNING && !s.finishing && s.flush == [] then BeginFlush(s) else s
  }

  /** The atomic appearance of a partition file. */
  function PublishStep(s: State): State {
    if s.phase == RUNNING && s.flush != [] && !s.published
    then s.(disk := s.disk + [s.flush[0]], published := true)
    else s
  }

  /** A worker failure deletes every pending entry; the rows in memory are lost. */
  function Fail(s: State, index: Index): State {
    s.(phase := FAILED, index := RolledBack(index))
  }

  function MarkStep(s: State): State {
    if s.phase == RUNNING && s.flush != [] && s.published
    then
      var marked := MarkRows(s.index, s.flush[0]);
      if marked.None? then Fail(s, s.index)
      else s.(index := marked.value, flush := s.flush[1..], published := false,
              written := s.written + |s.flush[0]|,
              phase := if s.finishing && |s.flush| == 1 then DONE else RUNNING)
    else s
  }

  /** The index fails after some of the rows were marked. */
  function MarkFailsStep(s: State, rows: nat): State {
    if s.phase == RUNNING && s.flush != [] && s.published && rows <= |s.flush[0]|
    then
      var marked := MarkRows(s.index, s.flush[0][..rows]);
      Fail(s, if marked.Some? then marked.value else s.index)
    else s
  }

  function EnqueueStopStep(c: Limits, s: State): State {
    if s.phase == RUNNING && s.closing && s.writing.None? && !s.stopQueued && |s.queue| < c.queueCapacity
    then s.(stopQueued := true)
    else s
  }

  function TakeStopStep(s: State): State {
    if s.phase == RUNNING && s.stopQueued && !s.finishing && s.flush == [] && s.queue == []
    then
      var last := BeginFlush(s.(finishing := true));
      last.(phase := if last.flush == [] then DONE else RUNNING)
    else s
  }

  function FinishCloseStep(s: State): State {
    if s.closing && s.writing.None? && (s.phase == DONE || s.phase == FAILED || s.phase == STOPPED)
    then s.(phase := CLOSED, index := RolledBack(s.index))
    else s
  }

  /** Cancelling the worker fails it, but not the thread that writes its file. */
  function CancelWorkerStep(s: State): State {
    if s.phase == RUNNING
    then Fail(s, s.index).(late := if s.flush != [] && !s.published then s.late + [s.flush[0]] else s.late)
    else s
  }

  function LateStep(s: State, k: nat, publishes: bool): State {
    if k < |s.late|
    then s.(disk := if publishes then s.disk + [s.late[k]] else s.disk, late := s.late[..k] + s.late[k + 1..])
    else s
  }

  function ReopenStep(s: State): State {
    if s.phase == CLOSED then Fresh(s.disk).(late := s.late) else s
  }

  function Next(c: Limits, s: State, step: Step): State {
    match step
    case Start => StartStep(s)
    case Write(e) => WriteStep(c, s, e)
    case Enqueue => EnqueueStep(c, s)
    case CancelWrite => CancelStep(s)
    case Take => TakeStep(c, s)
    case Timeout => TimeoutStep(s)
    case Publish => PublishStep(s)
    case PublishFails => if s.phase == RUNNING && s.flush != [] && !s.published then Fail(s, s.index) else s
    case Mark => MarkStep(s)
    case MarkFails(rows) => MarkFailsStep(s, rows)
    case BeginClose => s.(closing := true)
    case EnqueueStop => EnqueueStopStep(c, s)
    case TakeStop => TakeStopStep(s)
    case FinishClose => FinishCloseStep(s)
    case CancelWorker => CancelWorkerStep(s)
    case LatePublish(k) => LateStep(s, k, true)
    case LateFails(k) => LateStep(s, k, false)
    case Reopen => ReopenStep(s)
    case Crash => Fresh(s.disk)
  }

  function Run(c: Limits, s: State, steps: seq<Step>): State {
    if |steps| == 0 then s else Next(c, Run(c, s, steps[..|steps| - 1]), steps[|steps| - 1])
  }

  /** No writer is started while the thread of a cancelled worker is still at work on a file. */
  predicate Careful(c: Limits, s: State, steps: seq<Step>) {
    |steps| == 0 ||
    (Careful(c, s, steps[..|steps| - 1])
     && CarefulStep(Run(c, s, steps[..|steps| - 1]), steps[|steps| - 1]))
  }

  predicate CarefulStep(s: State, step: Step) {
    step.Start? && s.phase == STOPPED && !s.closing ==> s.late == []
  }

  // ---------- What every step keeps ----------

  function Writing(s: State): seq<Envelope> {
    if s.writing.Some? then [s.writing.value] else []
  }

  /** Reserved rows that are not marked yet. */
  function Outstanding(s: State): seq<Envelope> {
    Flatten(s.flush) + s.batch + s.queue + Writing(s)
  }

  /** The files whose rows are marked. */
  function Settled(s: State): seq<seq<Envelope>> {
    if s.published && |s.disk| > 0 then s.disk[..|s.disk| - 1] else s.disk
  }

  ghost predicate HotAgrees(hot: HotCache, index: Index) {
    forall x :: x in hot ==> x.key in index && index[x.key].identity == x.value
  }

  /** The index of a live writer is exact: pending entries are the rows in memory, committed ones those on disk. */
  ghost predicate IndexExact(s: State) {
    && Holds(s.index, Outstanding(s), PENDING)
    && Holds(s.index, Flatten(Settled(s)), COMMITTED)
    && HotAgrees(s.hot, s.index)
  }

  ghost predicate Shape(s: State) {
    && NoneEmpty(s.flush)
    && (s.published ==> |s.flush| > 0 && |s.disk| > 0 && s.disk[|s.disk| - 1] == s.flush[0])
    && (s.stopQueued ==> s.closing && s.writing.None?)
    && (s.finishing ==> s.stopQueued && s.queue == [] && s.batch == [])
    && (s.phase == DONE ==> s.finishing && s.flush == [])
    && (s.phase == RUNNING && s.finishing ==> s.flush != [])
  }

  /** No row is lost or counted twice. */
  ghost predicate Accounts(c: Limits, s: State) {
    && s.accepted == s.written + |Flatten(s.flush)| + |s.batch| + |s.queue|
    && |Flatten(Settled(s))| == s.found + s.written
    && |s.queue| <= c.queueCapacity && |s.hot| <= c.hotCapacity
  }

  ghost predicate DiskSound(disk: seq<seq<Envelope>>) {
    UniqueIds(Flatten(disk)) && NoneEmpty(disk)
  }

  ghost predicate Inv(c: Limits, s: State) {
    && DiskSound(s.disk + s.late) && |s.late| <= 1
    && (s.phase == STOPPED ==> s == Fresh(s.disk).(closing := s.closing, late := s.late))
    && (s.phase == RUNNING || s.phase == DONE ==> s.late == [] && IndexExact(s) && Shape(s) && Accounts(c, s))
  }

  lemma {:induction false} SoundPrefix(disk: seq<seq<Envelope>>, more: seq<seq<Envelope>>)
    requires DiskSound(disk + more)
    ensures DiskSound(disk)
    ensures more == [] ==> disk + more == disk
  {
    FlattenAppend(disk, more);
    forall id ensures Count(Flatten(disk), id) <= 1 {
      CountAppend(Flatten(disk), Flatten(more), id);
      assert Count(Flatten(disk + more), id) <= 1;
    }
    forall i | 0 <= i < |disk| ensures |disk[i]| > 0 {
      assert (disk + more)[i] == disk[i];
    }
  }

  // ---------- The reservation lemmas ----------

  /** The bounded cache only saves lookups: it never changes the answer. */
  lemma {:induction false} HotCacheIsTransparent(index: Index, hot: HotCache, e: Envelope)
    requires HotAgrees(hot, index)
    ensures Reserve(index, hot, e) == Reserve(index, [], e)
    ensures Reserve(index, hot, e) == NEW <==> e.id !in index
  {
    if Has(hot, e.id) {
      GetIsMember(hot, e.id);
    }
  }

  lemma {:induction false} RememberAgrees(index: Index, hot: HotCache, e: Envelope, capacity: nat)
    requires HotAgrees(hot, index) && e.id in index && index[e.id].identity == e.identity
    ensures HotAgrees(Remember(hot, e, capacity), index) && |Remember(hot, e, capacity)| <= capacity
  {
    WithoutMembers(hot, e.id);
    var refreshed := Refresh(hot, e.id, e.identity);
    forall x | x in Remember(hot, e, capacity) ensures x in refreshed {
    }
  }

  lemma {:induction false} ForgetAgrees(index: Index, hot: HotCache, e: Envelope)
    requires HotAgrees(hot, index) && IsEntry(index, e, PENDING)
    ensures HotAgrees(Forget(hot, e), index - {e.id}) && |Forget(hot, e)| <= |hot|
  {
    WithoutMembers(hot, e.id);
    if Has(hot, e.id) {
      GetIsMember(hot, e.id);
    } else {
      forall x | x in hot ensures x.key != e.id {
        var i :| 0 <= i < |hot| && hot[i] == x;
      }
    }
  }

  // ---------- The steps keep the invariant ----------

  lemma {:induction false} StartKeeps(c: Limits, s: State)
    requires Inv(c, s)
    ensures s.late == [] ==> Inv(c, StartStep(s))
    ensures s.phase == STOPPED && !s.closing ==>
              var next := StartStep(s);
              next.phase == RUNNING && IndexExact(next) && Shape(next) && Accounts(c, next) && next.hot == []
  {
    SoundPrefix(s.disk, s.late);
    var rows := Flatten(s.disk);
    IndexOfIsRowMap(rows);
    if |s.disk| > 0 {
      FlattenHead(s.disk);
    }
    assert Outstanding(StartStep(s)) == [] || s.phase != STOPPED || s.closing;
  }

  lemma {:induction false} WriteKeeps(c: Limits, s: State, e: Envelope)
    requires Inv(c, s)
    ensures Inv(c, WriteStep(c, s, e))
  {
    hide Holds, Flatten, NoneEmpty, UniqueIds, Remember, Get, HotAgrees;
    if s.phase == RUNNING && !s.closing && s.writing.None? {
      HotCacheIsTransparent(s.index, s.hot, e);
      if e.id !in s.index {
        ReserveKeeps(c, s, e);
      } else if s.index[e.id].identity == e.identity {
        RememberAgrees(s.index, s.hot, e, c.hotCapacity);
        assert Outstanding(WriteStep(c, s, e)) == Outstanding(s);
      }
    }
  }

  /** A new id becomes one pending entry and one outstanding row. */
  lemma {:induction false} ReserveKeeps(c: Limits, s: State, e: Envelope)
    requires Inv(c, s) && s.phase == RUNNING && !s.closing && s.writing.None?
    requires e.id !in s.index && Reserve(s.index, s.hot, e) == NEW
    ensures Inv(c, WriteStep(c, s, e))
  {
    hide Holds, Flatten, NoneEmpty, UniqueIds, Remember, Reserve, HotAgrees;
    var next := WriteStep(c, s, e);
    HoldsInsert(s.index, Outstanding(s), PENDING, e, PENDING);
    HoldsInsert(s.index, Flatten(Settled(s)), COMMITTED, e, PENDING);
    assert Outstanding(next) == Outstanding(s) + [e];
    InsertAgrees(s.hot, s.index, e);
    RememberAgrees(next.index, s.hot, e, c.hotCapacity);
  }

  lemma {:induction false} InsertAgrees(hot: HotCache, index: Index, e: Envelope)
    requires HotAgrees(hot, index) && e.id !in index
    ensures HotAgrees(hot, index[e.id := Entry(e.identity, PENDING)])
  {
  }

  lemma {:induction false} EnqueueKeeps(c: Limits, s: State)
    requires Inv(c, s)
    ensures Inv(c, EnqueueStep(c, s))
  {
    hide Holds, Flatten, NoneEmpty, UniqueIds, HotAgrees;
    var next := EnqueueStep(c, s);
    assert Outstanding(next) == Outstanding(s);
  }

  lemma {:induction false} CancelKeeps(c: Limits, s: State)
    requires Inv(c, s)
    ensures Inv(c, CancelStep(s))
  {
    if s.phase == RUNNING && s.writing.Some? {
      hide Holds, Flatten, NoneEmpty, UniqueIds, HotAgrees, Forget, Get;
      var e, next := s.writing.value, CancelStep(s);
      assert Outstanding(s) == Outstanding(next) + [e];
      HoldsDelete(s.index, Outstanding(next), e, Flatten(Settled(s)));
      ForgetAgrees(s.index, s.hot, e);
    }
  }

  lemma {:induction false} FlushKeeps(c: Limits, s: State)
    requires Inv(c, s) && s.phase == RUNNING && s.flush == [] && !s.finishing
    ensures Inv(c, BeginFlush(s))
  {
    hide Holds, UniqueIds, HotAgrees, Groups, Flatten, NoneEmpty;
    FlushedRows(s.batch, s.queue + Writing(s));
    FlushedOutstanding(s);
    HoldsPermutation(s.index, Outstanding(s), Outstanding(BeginFlush(s)), PENDING);
  }

  lemma {:induction false} FlushedRows(batch: seq<Envelope>, others: seq<Envelope>)
    ensures NoneEmpty(Groups(batch)) && |Flatten(Groups(batch))| == |batch|
    ensures multiset(Flatten(Groups(batch)) + others) == multiset(batch + others)
  {
    hide Groups, Flatten;
    GroupsPermute(batch);
    GroupsArePartitions(batch);
    SameLength(Flatten(Groups(batch)), batch);
  }

  lemma {:induction false} FlushedOutstanding(s: State)
    requires s.flush == []
    ensures Flatten(s.flush) == []
    ensures Outstanding(s) == s.batch + (s.queue + Writing(s))
    ensures Outstanding(BeginFlush(s)) == Flatten(Groups(s.batch)) + (s.queue + Writing(s))
  {
    hide Groups;
  }

  lemma {:induction false} TakeKeeps(c: Limits, s: State)
    requires Inv(c, s)
    ensures Inv(c, TakeStep(c, s))
  {
    hide Inv, BeginFlush;
    if s.phase == RUNNING && !s.finishing && s.flush == [] && |s.queue| > 0 {
      var taken := s.(batch := s.batch + [s.queue[0]], queue := s.queue[1..]);
      TakenKeeps(c, s, taken);
      FlushKeeps(c, taken);
    }
  }

  lemma {:induction false} TakenKeeps(c: Limits, s: State, taken: State)
    requires Inv(c, s) && s.phase == RUNNING && !s.finishing && s.flush == [] && |s.queue| > 0
    requires taken == s.(batch := s.batch + [s.queue[0]], queue := s.queue[1..])
    ensures Inv(c, taken)
  {
    hide Holds, Flatten, NoneEmpty, UniqueIds, HotAgrees;
    assert s.queue == [s.queue[0]] + s.queue[1..];
    assert Outstanding(taken) == Outstanding(s);
  }

  lemma {:induction false} PublishKeeps(c: Limits, s: State)
    requires Inv(c, s)
    ensures Inv(c, PublishStep(s))
  {
    hide Holds, Flatten, NoneEmpty, UniqueIds, HotAgrees, DiskSound;
    if s.phase == RUNNING && s.flush != [] && !s.published {
      PublishedIsSound(c, s);
      var next := PublishStep(s);
      assert next.disk + next.late == s.disk + [s.flush[0]];
      assert Settled(next) == s.disk && Outstanding(next) == Outstanding(s);
    }
  }

  lemma {:induction false} PublishedIsSound(c: Limits, s: State)
    requires Inv(c, s) && s.phase == RUNNING && s.flush != [] && !s.published
    ensures DiskSound(s.disk + [s.flush[0]])
  {
    hide Flatten, Holds, UniqueIds, HotAgrees, Accounts;
    SoundPrefix(s.disk, s.late);
    var g := s.flush[0];
    FlattenAppend(s.disk, [g]);
    FlattenOne(g);
    FlattenHead(s.flush);
    var others := Flatten(s.flush[1..]) + s.batch + s.queue + Writing(s);
    assert Outstanding(s) == g + others;
    PublishUnique(s.index, Flatten(s.disk), g, others);
  }

  /** A pending row is not on disk yet, so its file repeats no id. */
  lemma {:induction false} PublishUnique(index: Index, settled: seq<Envelope>, g: seq<Envelope>, others: seq<Envelope>)
    requires Holds(index, settled, COMMITTED) && Holds(index, g + others, PENDING)
    ensures UniqueIds(settled + g)
  {
    forall id ensures Count(settled + g, id) <= 1 {
      CountAppend(settled, g, id);
      CountAppend(g, others, id);
      assert Count(settled, id) == InState(index, id, COMMITTED);
      assert Count(g + others, id) == InState(index, id, PENDING);
    }
  }

  /** In a live writer the "reservation disappeared" error is unreachable. */
  lemma {:induction false} ReservationsStay(c: Limits, s: State)
    requires Inv(c, s) && s.phase == RUNNING && s.flush != []
    ensures MarkRows(s.index, s.flush[0]).Some?
    ensures s.published ==> MarkStep(s).phase != FAILED && Inv(c, MarkStep(s))
  {
    var g := s.flush[0];
    var others := Flatten(s.flush[1..]) + s.batch + s.queue + Writing(s);
    FlattenHead(s.flush);
    assert Outstanding(s) == g + others;
    MarkingSucceeds(s.index, g, others, Flatten(Settled(s)));
    if s.published {
      MarkedIsInv(c, s, g, others, MarkRows(s.index, g).value);
    }
  }

  lemma {:induction false} MarkedIsInv(c: Limits, s: State, g: seq<Envelope>, others: seq<Envelope>, marked: Index)
    requires Inv(c, s) && s.phase == RUNNING && s.flush != [] && s.published && g == s.flush[0]
    requires MarkRows(s.index, g) == Some(marked) && others == Flatten(s.flush[1..]) + s.batch + s.queue + Writing(s)
    requires Holds(marked, others, PENDING) && Holds(marked, Flatten(Settled(s)) + g, COMMITTED)
    ensures Inv(c, MarkStep(s))
  {
    hide Holds, UniqueIds, MarkRows, Flatten, HotAgrees;
    var n := |s.disk| - 1;
    FlattenHead(s.flush);
    FlattenAppend(s.disk[..n], [g]);
    FlattenOne(g);
    assert s.disk == s.disk[..n] + [g];
    assert Outstanding(MarkStep(s)) == others;
    HotStillAgrees(s.index, s.hot, g, marked);
  }

  lemma {:induction false} HotStillAgrees(index: Index, hot: HotCache, g: seq<Envelope>, marked: Index)
    requires HotAgrees(hot, index) && MarkRows(index, g) == Some(marked)
    ensures HotAgrees(hot, marked)
    decreases |g|
  {
    if |g| > 0 {
      HotStillAgrees(index, hot, g[..|g| - 1], MarkRows(index, g[..|g| - 1]).value);
    }
  }

  lemma {:induction false} TakeStopKeeps(c: Limits, s: State)
    requires Inv(c, s)
    ensures Inv(c, TakeStopStep(s))
  {
    hide Holds, NoneEmpty, UniqueIds, HotAgrees, Groups, Flatten;
    if s.phase == RUNNING && s.stopQueued && !s.finishing && s.flush == [] && s.queue == [] {
      FlushKeeps(c, s);
      var flushed, next := BeginFlush(s), TakeStopStep(s);
      assert Outstanding(next) == Outstanding(flushed);
    }
  }

  lemma {:induction false} CancelWorkerKeeps(c: Limits, s: State)
    requires Inv(c, s)
    ensures Inv(c, CancelWorkerStep(s))
  {
    hide DiskSound, IndexExact, Accounts, RolledBack, Flatten;
    if s.phase == RUNNING && s.flush != [] && !s.published {
      PublishedIsSound(c, s);
      assert CancelWorkerStep(s).late == [s.flush[0]];
    }
  }

  lemma {:induction false} LateKeeps(c: Limits, s: State, k: nat, publishes: bool)
    requires Inv(c, s)
    ensures Inv(c, LateStep(s, k, publishes))
  {
    hide DiskSound, IndexExact, Accounts, Shape;
    if k < |s.late| {
      SoundPrefix(s.disk, s.late);
      assert s.late == [s.late[0]] && s.disk + [] == s.disk && s.disk + s.late + [] == s.disk + s.late;
    }
  }

  lemma {:induction false} RestKeeps(c: Limits, s: State, step: Step)
    requires Inv(c, s) && step in {FinishClose, Reopen, Crash}
    ensures Inv(c, Next(c, s, step))
  {
    hide DiskSound, IndexExact, Accounts, Shape, RolledBack;
    SoundPrefix(s.disk, s.late);
    assert s.disk + [] == s.disk;
  }

  lemma {:induction false} StepKeeps(c: Limits, s: State, step: Step)
    requires Inv(c, s) && CarefulStep(s, step)
    ensures Inv(c, Next(c, s, step))
  {
    hide IndexExact, Shape, Accounts, DiskSound, WriteStep, Rebuild, MarkRows, RolledBack, Groups, CancelWorkerStep,
      LateStep, ReopenStep;
    match step
    case Start => StartKeeps(c, s);
    case Write(e) => WriteKeeps(c, s, e);
    case Enqueue => EnqueueKeeps(c, s);
    case CancelWrite => CancelKeeps(c, s);
    case Take => TakeKeeps(c, s);
    case Timeout => if s.phase == RUNNING && !s.finishing && s.flush == [] { FlushKeeps(c, s); }
    case Publish => PublishKeeps(c, s);
    case PublishFails =>
    case Mark => if s.phase == RUNNING && s.flush != [] && s.published { ReservationsStay(c, s); }
    case MarkFails(rows) =>
    case BeginClose => CloseFlagKeeps(c, s);
    case EnqueueStop => StopFlagKeeps(c, s);
    case TakeStop => TakeStopKeeps(c, s);
    case CancelWorker => CancelWorkerKeeps(c, s);
    case LatePublish(k) => LateKeeps(c, s, k, true);
    case LateFails(k) => LateKeeps(c, s, k, false);
    case _ => RestKeeps(c, s, step);
  }

  /** Files once published stay, careful or not. */
  lemma {:induction false} FilesStay(c: Limits, s: State, steps: seq<Step>)
    ensures s.disk <= Run(c, s, steps).disk
  {
    if |steps| > 0 {
      hide Next;
      FilesStay(c, s, steps[..|steps| - 1]);
      StepKeepsFiles(c, Run(c, s, steps[..|steps| - 1]), steps[|steps| - 1]);
    }
  }

  lemma {:induction false} StepKeepsFiles(c: Limits, s: State, step: Step)
    ensures s.disk <= Next(c, s, step).disk
  {
    hide Rebuild, Groups, RolledBack, MarkRows, Remember, Reserve, Forget, DeletePending;
    hide StartStep, WriteStep, EnqueueStep, CancelStep, TakeStep, TimeoutStep, EnqueueStopStep, TakeStopStep,
      FinishCloseStep, MarkStep, MarkFailsStep, ReopenStep, PublishStep, CancelWorkerStep, LateStep;
    FrontKeepsFiles(c, s);
    EndKeepsFiles(c, s);
    FilesAreAdded(s);
  }

  lemma {:induction false} FilesAreAdded(s: State)
    ensures s.disk <= PublishStep(s).disk && CancelWorkerStep(s).disk == s.disk
    ensures forall k: nat, publishes :: s.disk <= LateStep(s, k, publishes).disk
  {
    hide RolledBack;
  }

  lemma {:induction false} EndKeepsFiles(c: Limits, s: State)
    ensures EnqueueStopStep(c, s).disk == TakeStopStep(s).disk == FinishCloseStep(s).disk == s.disk
    ensures MarkStep(s).disk == ReopenStep(s).disk == s.disk
    ensures forall rows :: MarkFailsStep(s, rows).disk == s.disk
  {
    hide Groups, RolledBack, MarkRows;
  }

  lemma {:induction false} FrontKeepsFiles(c: Limits, s: State)
    ensures StartStep(s).disk == CancelStep(s).disk == TimeoutStep(s).disk == s.disk
    ensures EnqueueStep(c, s).disk == TakeStep(c, s).disk == s.disk
    ensures forall e :: WriteStep(c, s, e).disk == s.disk
  {
    hide Rebuild, Groups, RolledBack, MarkRows, Remember, Reserve, Forget, DeletePending;
  }

  lemma {:induction false} CloseFlagKeeps(c: Limits, s: State)
    requires Inv(c, s)
    ensures Inv(c, s.(closing := true))
  {
    hide Holds, NoneEmpty, UniqueIds, HotAgrees, Flatten;
    assert Outstanding(s.(closing := true)) == Outstanding(s);
  }

  lemma {:induction false} StopFlagKeeps(c: Limits, s: State)
    requires Inv(c, s)
    ensures Inv(c, EnqueueStopStep(c, s))
  {
    hide Holds, NoneEmpty, UniqueIds, HotAgrees, Flatten;
    assert Outstanding(EnqueueStopStep(c, s)) == Outstanding(s);
  }

  // ---------- All runs ----------

  lemma {:induction false} RunKeeps(c: Limits, s: State, steps: seq<Step>)
    requires Inv(c, s) && Careful(c, s, steps)
    ensures Inv(c, Run(c, s, steps))
  {
    if |steps| > 0 {
      hide Inv, Next, CarefulStep;
      RunKeeps(c, s, steps[..|steps| - 1]);
      StepKeeps(c, Run(c, s, steps[..|steps| - 1]), steps[|steps| - 1]);
    }
  }

  lemma {:induction false} EmptyIsSound(c: Limits)
    ensures Inv(c, Fresh([]))
  {
    assert forall id :: Count([], id) == 0;
  }

  /**
   Whatever fails, is cancelled, crashes and restarts: every id is in at most one persisted row,
   and so never persisted with two contents, provided no writer is started over the thread of a
   cancelled one. Files once published stay.
   */
  lemma {:induction false} PersistedOnce(c: Limits, steps: seq<Step>, i: nat, j: nat)
    requires Careful(c, Fresh([]), steps)
    requires var rows := Flatten(Run(c, Fresh([]), steps).disk); i < |rows| && j < |rows|
    ensures var rows := Flatten(Run(c, Fresh([]), steps).disk); rows[i].id == rows[j].id ==> i == j
    ensures forall more :: Run(c, Fresh([]), steps).disk <= Run(c, Run(c, Fresh([]), steps), more).disk
  {
    hide Run, IndexExact, Shape, Accounts, Careful;
    EmptyIsSound(c);
    RunKeeps(c, Fresh([]), steps);
    var s := Run(c, Fresh([]), steps);
    SoundPrefix(s.disk, s.late);
    forall more ensures s.disk <= Run(c, s, more).disk {
      FilesStay(c, s, more);
    }
    var rows := Flatten(s.disk);
    UniqueMeansOnce(rows, i, j);
    UniqueMeansOnce(rows, j, i);
  }

  lemma {:induction false} UniqueMeansOnce(rows: seq<Envelope>, i: nat, j: nat)
    requires UniqueIds(rows) && i < |rows| && j < |rows|
    ensures i < j ==> rows[i].id != rows[j].id
  {
    if i < j {
      var id := rows[j].id;
      CountAppend(rows[..j], rows[j..], id);
      assert rows == rows[..j] + rows[j..];
      assert rows[j] in rows[j..];
      CountMember(rows[j..], rows[j]);
      assert Count(rows, id) <= 1;
      CountAbsent(rows[..j], id, i);
    }
  }

  lemma {:induction false} CountAbsent(rows: seq<Envelope>, id: int, i: nat)
    requires i < |rows| && Count(rows, id) == 0
    ensures rows[i].id != id
  {
    if rows[i].id == id {
      CountMember(rows, rows[i]);
    }
  }

  /** Start after any run finds an index that is exactly the map of the persisted rows. */
  lemma {:induction false} StartFindsDisk(c: Limits, steps: seq<Step>)
    requires Careful(c, Fresh([]), steps)
    requires var s := Run(c, Fresh([]), steps); s.phase == STOPPED && !s.closing
    ensures var s := Run(c, Fresh([]), steps);
            var rows, next := Flatten(s.disk), Next(c, s, Start);
            && next.phase == RUNNING && next.disk == s.disk
            && (forall e :: e in rows ==> IsEntry(next.index, e, COMMITTED))
            && (forall id :: id in next.index ==> exists e :: e in rows && e.id == id)
  {
    hide Run;
    var s := Run(c, Fresh([]), steps);
    EmptyIsSound(c);
    RunKeeps(c, Fresh([]), steps);
    StartKeeps(c, s);
    var next := StartStep(s);
    hide Flatten, Rebuild;
    IndexIsRows(next.index, Flatten(s.disk));
  }

  /** Wherever a careful run crashes, the next start succeeds over the files it left. */
  lemma {:induction false} CrashCanRestart(c: Limits, steps: seq<Step>)
    requires Careful(c, Fresh([]), steps)
    ensures var crashed := Run(c, Fresh([]), steps + [Crash]);
            && Careful(c, Fresh([]), steps + [Crash]) && crashed.phase == STOPPED && !crashed.closing
            && crashed.disk == Run(c, Fresh([]), steps).disk
            && Next(c, crashed, Start).phase == RUNNING && Next(c, crashed, Start).disk == crashed.disk
  {
    var all := steps + [Crash];
    assert all[..|steps|] == steps && all[|steps|] == Crash;
    assert Careful(c, Fresh([]), all) && Run(c, Fresh([]), all) == Fresh(Run(c, Fresh([]), steps).disk);
    hide Run, Careful, Flatten;
    StartFindsDisk(c, all);
  }

  lemma {:induction false} IndexIsRows(index: Index, rows: seq<Envelope>)
    requires Holds(index, rows, COMMITTED) && Holds(index, [], PENDING)
    ensures forall id :: id in index ==> exists e :: e in rows && e.id == id
  {
    forall id | id in index ensures exists e :: e in rows && e.id == id {
      assert Count(rows, id) == InState(index, id, COMMITTED);
      assert Count([], id) == InState(index, id, PENDING);
      var e := CountWitness(rows, id);
    }
  }

  /** After a restart a write is new, a duplicate or a conflict by what the files hold of its id. */
  lemma {:induction false} RestartAnswersFromDisk(c: Limits, steps: seq<Step>, e: Envelope)
    requires Careful(c, Fresh([]), steps)
    requires var s := Run(c, Fresh([]), steps); s.phase == STOPPED && !s.closing
    ensures var s := Run(c, Fresh([]), steps);
            var rows, next := Flatten(s.disk), Next(c, s, Start);
            && (Reserve(next.index, next.hot, e) == NEW <==> forall x :: x in rows ==> x.id != e.id)
            && (Reserve(next.index, next.hot, e) == DUPLICATE
                <==> exists x :: x in rows && x.id == e.id && x.identity == e.identity)
  {
    StartFindsDisk(c, steps);
    hide Run, Flatten, StartStep;
    var s := Run(c, Fresh([]), steps);
    var rows, next := Flatten(s.disk), StartStep(s);
    assert next.hot == [] by {
      EmptyIsSound(c);
      RunKeeps(c, Fresh([]), steps);
      StartHasNoCache(c, s);
    }
    if e.id in next.index {
      var x :| x in rows && x.id == e.id;
      assert IsEntry(next.index, x, COMMITTED);
    }
    forall x | x in rows && x.id == e.id ensures e.id in next.index && next.index[e.id].identity == x.identity {
      assert IsEntry(next.index, x, COMMITTED);
    }
  }

  lemma {:induction false} StartHasNoCache(c: Limits, s: State)
    requires Inv(c, s) && s.phase == STOPPED && StartStep(s).phase == RUNNING
    ensures StartStep(s).hot == []
  {
  }

  /** A live writer accounts for every accepted row, and its index for every reserved one. */
  lemma {:induction false} LiveWriterAccounts(c: Limits, steps: seq<Step>)
    requires Careful(c, Fresh([]), steps)
    requires Run(c, Fresh([]), steps).phase == RUNNING
    ensures var s := Run(c, Fresh([]), steps);
            && s.accepted == s.written + |Flatten(s.flush)| + |s.batch| + |s.queue|
            && (forall e :: e in Outstanding(s) ==> IsEntry(s.index, e, PENDING))
            && (forall id :: Count(Outstanding(s), id)
                             == if id in s.index && s.index[id].state == PENDING then 1 else 0)
            && |s.hot| <= c.hotCapacity && |s.queue| <= c.queueCapacity
            && |Flatten(s.disk)| == s.found + s.written + if s.published && s.flush != [] then |s.flush[0]| else 0
  {
    EmptyIsSound(c);
    RunKeeps(c, Fresh([]), steps);
    hide Run, Flatten, NoneEmpty, HotAgrees, Outstanding, UniqueIds;
    var s := Run(c, Fresh([]), steps);
    PendingCounts(s.index, Outstanding(s));
    RowsOnDisk(s);
  }

  lemma {:induction false} PendingCounts(index: Index, rows: seq<Envelope>)
    requires Holds(index, rows, PENDING)
    ensures forall id :: Count(rows, id) == if id in index && index[id].state == PENDING then 1 else 0
  {
    forall id ensures Count(rows, id) == if id in index && index[id].state == PENDING then 1 else 0 {
      assert Count(rows, id) == InState(index, id, PENDING);
    }
  }

  lemma {:induction false} RowsOnDisk(s: State)
    requires Shape(s)
    ensures |Flatten(s.disk)| == |Flatten(Settled(s))| + if s.published && s.flush != [] then |s.flush[0]| else 0
  {
    hide Flatten;
    if s.published {
      var n := |s.disk| - 1;
      FlattenAppend(s.disk[..n], [s.flush[0]]);
      FlattenOne(s.flush[0]);
      assert s.disk == s.disk[..n] + [s.flush[0]];
    }
  }

  /** Over all runs: no reservation disappears, and the cache never changes an answer. */
  lemma {:induction false} LiveWriterNeverSurprised(c: Limits, steps: seq<Step>, e: Envelope)
    requires Careful(c, Fresh([]), steps)
    requires Run(c, Fresh([]), steps).phase == RUNNING
    ensures var s := Run(c, Fresh([]), steps);
            && Next(c, s, Mark).phase != FAILED
            && Reserve(s.index, s.hot, e) == Reserve(s.index, [], e)
            && (Reserve(s.index, s.hot, e) == NEW <==> e.id !in s.index)
  {
    hide Run, Holds, Flatten, Reserve, Careful, DiskSound, Accounts, MarkRows, StartStep, WriteStep;
    EmptyIsSound(c);
    RunKeeps(c, Fresh([]), steps);
    var s := Run(c, Fresh([]), steps);
    if s.flush != [] {
      ReservationsStay(c, s);
    }
    HotCacheIsTransparent(s.index, s.hot, e);
  }

  /** A worker that ended on the stop sentinel has written every accepted row and reserved nothing else. */
  lemma {:induction false} CleanClose(c: Limits, steps: seq<Step>)
    requires Careful(c, Fresh([]), steps)
    requires Run(c, Fresh([]), steps).phase == DONE
    ensures var s := Run(c, Fresh([]), steps);
            var closed := Next(c, s, FinishClose);
            && s.accepted == s.written && |Flatten(s.disk)| == s.found + s.accepted
            && (forall id :: id in s.index ==> s.index[id].state == COMMITTED)
            && closed.phase == CLOSED && closed.index == s.index
  {
    hide Run, Inv, Careful, Flatten, Next, RolledBack;
    EmptyIsSound(c);
    RunKeeps(c, Fresh([]), steps);
    var s := Run(c, Fresh([]), steps);
    DoneIsClean(c, s);
    ClosedAfter(c, s);
  }

  lemma {:induction false} ClosedAfter(c: Limits, s: State)
    requires s.phase == DONE && s.closing && s.writing.None? && RolledBack(s.index) == s.index
    ensures Next(c, s, FinishClose).phase == CLOSED && Next(c, s, FinishClose).index == s.index
  {
    hide RolledBack;
  }

  lemma {:induction false} DoneIsClean(c: Limits, s: State)
    requires Inv(c, s) && s.phase == DONE
    ensures s.closing && s.writing.None? && s.accepted == s.written && |Flatten(s.disk)| == s.found + s.accepted
    ensures (forall id :: id in s.index ==> s.index[id].state == COMMITTED) && RolledBack(s.index) == s.index
  {
    assert Flatten(s.flush) == [] && Settled(s) == s.disk;
    assert Outstanding(s) == [];
    forall id | id in s.index ensures s.index[id].state == COMMITTED {
      assert Count([], id) == InState(s.index, id, PENDING);
    }
  }

  // ---------- Full batches ----------

  /** Over every run the rows taken and not yet flushed are fewer than a full batch. */
  lemma {:induction false} BatchIsNeverFull(c: Limits, steps: seq<Step>)
    requires c.batchRows >= 1
    ensures |Run(c, Fresh([]), steps).batch| < c.batchRows
  {
    if |steps| > 0 {
      hide Next;
      BatchIsNeverFull(c, steps[..|steps| - 1]);
      StepBoundsBatch(c, Run(c, Fresh([]), steps[..|steps| - 1]), steps[|steps| - 1]);
    }
  }

  lemma {:induction false} StepBoundsBatch(c: Limits, s: State, step: Step)
    requires c.batchRows >= 1 && |s.batch| < c.batchRows
    ensures |Next(c, s, step).batch| < c.batchRows
  {
    hide Rebuild, Groups, RolledBack, MarkRows, Remember, Reserve, Forget;
  }

  /**
   Taking a row: the one that completes a batch starts the flush of exactly the rows of that batch,
   grouped by partition, and leaves the batch empty; any other only joins the batch.
   */
  lemma {:induction false} FullBatchIsFlushed(c: Limits, s: State)
    requires s.phase == RUNNING && !s.finishing && s.flush == [] && |s.queue| > 0
    ensures var next := Next(c, s, Take);
            && next.queue == s.queue[1..]
            && (|s.batch| + 1 >= c.batchRows ==>
                  && next.flush != [] && next.batch == [] && NoneEmpty(next.flush)
                  && multiset(Flatten(next.flush)) == multiset(s.batch + [s.queue[0]])
                  && (forall i, e :: 0 <= i < |next.flush| && e in next.flush[i] ==>
                        e.partition == next.flush[i][0].partition)
                  && forall i, j :: 0 <= i < j < |next.flush| ==>
                       next.flush[i][0].partition < next.flush[j][0].partition)
            && (|s.batch| + 1 < c.batchRows ==> next.flush == [] && next.batch == s.batch + [s.queue[0]])
  {
    hide Groups, Flatten;
    var taken := s.batch + [s.queue[0]];
    FlushIsGrouped(taken);
    assert TakeStep(c, s).flush == if |taken| >= c.batchRows then Groups(taken) else [];
  }

  lemma {:induction false} FlushIsGrouped(rows: seq<Envelope>)
    requires |rows| > 0
    ensures var groups := Groups(rows);
            && groups != [] && NoneEmpty(groups) && multiset(Flatten(groups)) == multiset(rows)
            && (forall i, e :: 0 <= i < |groups| && e in groups[i] ==> e.partition == groups[i][0].partition)
            && forall i, j :: 0 <= i < j < |groups| ==> groups[i][0].partition < groups[j][0].partition
  {
    GroupsPermute(rows);
    GroupsArePartitions(rows);
    if Groups(rows) == [] {
      FlattenOfNone();
      SameLength(Flatten(Groups(rows)), rows);
    }
  }

  /** Rows are taken and flushed in the order in which they were accepted; `handed` are those flushed now. */
  lemma {:induction false} FirstInFirstFlushed(c: Limits, s: State, step: Step) returns (handed: seq<Envelope>)
    requires s.phase == RUNNING && (step.Take? || step.Timeout?)
    ensures var next := Next(c, s, step);
            && s.batch + s.queue == handed + (next.batch + next.queue)
            && next.flush == if handed == [] then s.flush else Groups(handed)
  {
    hide Groups, Next;
    TakeOrTimeout(c, s);
    GroupsOfNone();
    FirstTaken(s.batch, s.queue);
    handed := [];
    if step.Take? {
      if s.queue != [] && |s.batch| + 1 >= c.batchRows && !s.finishing && s.flush == [] {
        handed := s.batch + [s.queue[0]];
      }
    } else if !s.finishing && s.flush == [] {
      handed := s.batch;
    }
  }

  lemma {:induction false} FirstTaken(batch: seq<Envelope>, queue: seq<Envelope>)
    ensures [] + (batch + queue) == batch + queue && [] + queue == queue && batch + [] == batch
    ensures |queue| > 0 ==>
              && batch + queue == batch + [queue[0]] + queue[1..]
              && batch + queue == batch + [queue[0]] + ([] + queue[1..])
              && batch + queue == [] + (batch + [queue[0]] + queue[1..])
  {
    if |queue| > 0 {
      assert [] + queue[1..] == queue[1..];
    }
  }

  lemma {:induction false} TakeOrTimeout(c: Limits, s: State)
    ensures Next(c, s, Take) == TakeStep(c, s) && Next(c, s, Timeout) == TimeoutStep(s)
  {
    hide TakeStep, TimeoutStep;
  }

  lemma {:induction false} GroupsOfNone()
    ensures Groups([]) == []
  {
  }

  /** An accepted row goes in behind all others. */
  lemma {:induction false} AcceptedGoesLast(c: Limits, s: State)
    requires s.phase == RUNNING && s.writing.Some? && |s.queue| < c.queueCapacity
    ensures var next := Next(c, s, Enqueue);
            && next.batch + next.queue == s.batch + s.queue + [s.writing.value] && next.writing.None?
            && next.accepted == s.accepted + 1
  {
    assert s.batch + (s.queue + [s.writing.value]) == s.batch + s.queue + [s.writing.value];
  }

  /** In a live writer a write is reserved, counted as a duplicate or refused by what the index holds of its id. */
  lemma {:induction false} WriteIsCounted(c: Limits, s: State, e: Envelope)
    requires Inv(c, s) && s.phase == RUNNING && !s.closing && s.writing.None?
    ensures var next := Next(c, s, Write(e));
            && (e.id !in s.index ==>
                  next.writing == Some(e) && next.deduplicated == s.deduplicated
                  && next.index == s.index[e.id := Entry(e.identity, PENDING)])
            && (e.id in s.index ==>
                  && next.writing.None? && next.index == s.index
                  && next.deduplicated == s.deduplicated + (if s.index[e.id].identity == e.identity then 1 else 0))
            && next.hot == (if e.id in s.index && s.index[e.id].identity != e.identity then s.hot
                            else Remember(s.hot, e, c.hotCapacity))
  {
    hide Remember, Get, Holds, Flatten;
    HotCacheIsTransparent(s.index, s.hot, e);
    if e.id in s.index {
      DuplicateIff(s.index, s.hot, e);
    }
  }

  lemma {:induction false} DuplicateIff(index: Index, hot: HotCache, e: Envelope)
    requires HotAgrees(hot, index) && e.id in index
    ensures Reserve(index, hot, e) == if index[e.id].identity == e.identity then DUPLICATE else CONFLICT
  {
    HotCacheIsTransparent(index, hot, e);
    NoneHeld(e.id);
  }

  lemma {:induction false} NoneHeld(id: int)
    ensures Get<int, Identity>([], id) == None
  {
  }

  /** The cache keeps the newest identities: the remembered one last, older ones in their order up to the capacity. */
  lemma {:induction false} RememberKeepsNewest(hot: HotCache, e: Envelope, capacity: nat) returns (k: nat)
    ensures var all := Without(hot, e.id) + [Item(e.id, e.identity)];
            && k <= |all| && Remember(hot, e, capacity) == all[k..]
            && (k > 0 ==> |Remember(hot, e, capacity)| == capacity)
  {
    var all := Refresh(hot, e.id, e.identity);
    k := if |all| > capacity then |all| - capacity else 0;
    assert all[0..] == all;
  }

  /**
   When the index fails while a published file is being marked, the worker fails with exactly the
   rows marked so far committed; the others have no entry, though the file holds them all.
   */
  lemma {:induction false} FailedMarkingKeepsFirstRows(c: Limits, s: State, rows: nat)
    requires Inv(c, s) && s.phase == RUNNING && s.flush != [] && s.published && rows <= |s.flush[0]|
    ensures var next := Next(c, s, MarkFails(rows));
            && next.phase == FAILED && next.disk == s.disk && next.disk[|next.disk| - 1] == s.flush[0]
            && (forall i :: 0 <= i < rows ==> IsEntry(next.index, s.flush[0][i], COMMITTED))
            && (forall i :: rows <= i < |s.flush[0]| ==> s.flush[0][i].id !in next.index)
  {
    hide Inv, MarkRows, AllReserved, RolledBack, MarkStep, IsEntry;
    ReservationsStay(c, s);
    PublishedIsLast(c, s);
    var all := s.flush[0];
    MarkRowsIff(s.index, all);
    FirstMarked(s.index, all, rows);
  }

  lemma {:induction false} PublishedIsLast(c: Limits, s: State)
    requires Inv(c, s) && s.phase == RUNNING && s.published
    ensures |s.disk| > 0 && |s.flush| > 0 && s.disk[|s.disk| - 1] == s.flush[0]
  {
  }

  lemma {:induction false} FirstMarked(index: Index, all: seq<Envelope>, rows: nat)
    requires AllReserved(index, all) && rows <= |all|
    ensures MarkRows(index, all[..rows]).Some?
    ensures var kept := RolledBack(MarkRows(index, all[..rows]).value);
            && (forall i :: 0 <= i < rows ==> IsEntry(kept, all[i], COMMITTED))
            && (forall i :: rows <= i < |all| ==> all[i].id !in kept)
  {
    hide MarkRows;
    var first := all[..rows];
    MarkRowsIff(index, first);
    var marked := MarkRows(index, first).value;
    forall i | 0 <= i < rows ensures IsEntry(marked, all[i], COMMITTED) {
      assert all[i] == first[i];
    }
    forall i | rows <= i < |all| ensures all[i].id in marked && marked[all[i].id].state == PENDING {
      assert IsEntry(index, all[i], PENDING);
      assert forall e :: e in first ==> e.id != all[i].id;
    }
  }

  /** A writer is closed only when its worker has ended, or never began, and no write is under way. */
  lemma {:induction false} ClosedAfterWorker(c: Limits, s: State, step: Step)
    requires s.phase != CLOSED && Next(c, s, step).phase == CLOSED
    ensures step == FinishClose && s.closing && s.writing.None? && s.phase in {DONE, FAILED, STOPPED}
  {
    hide Rebuild, Groups, RolledBack, MarkRows, Remember, Reserve, Forget, DeletePending;
  }

  /** A cancelled write leaves no trace: in a live writer its id can be written again at once. */
  lemma {:induction false} CancelledWriteIsForgotten(c: Limits, s: State)
    requires s.writing.Some? && ((s.phase == RUNNING && Inv(c, s)) || s.phase == FAILED)
    ensures var next, e := Next(c, s, CancelWrite), s.writing.value;
            && next.writing.None? && next.accepted == s.accepted && next.queue == s.queue
            && (s.phase == RUNNING ==>
                  next.index == s.index - {e.id} && Reserve(next.index, next.hot, e) == NEW)
  {
    hide Get, Without, Holds, Flatten, Remember;
    if s.phase == RUNNING {
      CancelKeeps(c, s);
      var e := s.writing.value;
      var next := CancelStep(s);
      LastOutstanding(s);
      assert IsEntry(s.index, e, PENDING);
      HotCacheIsTransparent(next.index, next.hot, e);
      NoneHeld(e.id);
    }
  }

  lemma {:induction false} LastOutstanding(s: State)
    requires s.writing.Some? && Holds(s.index, Outstanding(s), PENDING)
    ensures IsEntry(s.index, s.writing.value, PENDING)
  {
    assert s.writing.value in Writing(s);
    assert s.writing.value in Outstanding(s);
  }

  ghost predicate AllCommitted(index: Index) {
    forall id :: id in index ==> index[id].state == COMMITTED
  }

  /** Over every run, careful or not, a writer that failed or is closed has given back all reservations. */
  lemma {:induction false} EndedHoldsNothing(c: Limits, steps: seq<Step>)
    ensures var s := Run(c, Fresh([]), steps);
            s.phase == FAILED || s.phase == CLOSED ==> AllCommitted(s.index)
  {
    if |steps| > 0 {
      var n := |steps| - 1;
      var s := Run(c, Fresh([]), steps[..n]);
      hide Next, AllCommitted;
      EndedHoldsNothing(c, steps[..n]);
      StepGivesBack(c, s, steps[n]);
    }
  }

  lemma {:induction false} StepGivesBack(c: Limits, s: State, step: Step)
    requires s.phase == FAILED || s.phase == CLOSED ==> AllCommitted(s.index)
    ensures var next := Next(c, s, step);
            next.phase == FAILED || next.phase == CLOSED ==> AllCommitted(next.index)
  {
    hide Next, AllCommitted;
    if s.phase == FAILED || s.phase == CLOSED {
      EndedGivesNothing(c, s, step);
    } else {
      EndGivesBack(c, s, step);
    }
  }

  lemma {:induction false} EndedGivesNothing(c: Limits, s: State, step: Step)
    requires (s.phase == FAILED || s.phase == CLOSED) && AllCommitted(s.index)
    ensures var next := Next(c, s, step);
            next.phase == FAILED || next.phase == CLOSED ==> AllCommitted(next.index)
  {
    hide Rebuild, Groups, MarkRows, Remember, Reserve, Forget, RolledBack, AllCommitted, DeletePending;
    RolledBackIsCommitted(s.index);
    if s.writing.Some? {
      DeleteKeepsCommitted(s.index, s.writing.value.id);
    }
  }

  lemma {:induction false} EndGivesBack(c: Limits, s: State, step: Step)
    requires s.phase != FAILED && s.phase != CLOSED
    ensures var next := Next(c, s, step);
            next.phase == FAILED || next.phase == CLOSED ==> AllCommitted(next.index)
  {
    hide Rebuild, Groups, MarkRows, Remember, Reserve, Forget, RolledBack, AllCommitted, DeletePending;
    RolledBackIsCommitted(s.index);
    if step.MarkFails? && s.flush != [] && step.rows <= |s.flush[0]| {
      var marked := MarkRows(s.index, s.flush[0][..step.rows]);
      RolledBackIsCommitted(if marked.Some? then marked.value else s.index);
    }
  }

  lemma {:induction false} RolledBackIsCommitted(index: Index)
    ensures AllCommitted(RolledBack(index))
  {
  }

  lemma {:induction false} DeleteKeepsCommitted(index: Index, id: int)
    ensures AllCommitted(index) ==> AllCommitted(DeletePending(index, id))
  {
  }

  /** Queued rows and the sentinel, as long as it is not taken, are no more than the queue holds. */
  ghost predicate QueueFits(c: Limits, s: State) {
    && (s.phase == STOPPED ==> s.queue == [] && !s.stopQueued && s.writing.None?)
    && (s.phase == RUNNING ==>
          && (s.stopQueued ==> s.closing && s.writing.None?)
          && |s.queue| + (if s.stopQueued && !s.finishing then 1 else 0) <= c.queueCapacity)
  }

  lemma {:induction false} StepFits(c: Limits, s: State, step: Step)
    requires QueueFits(c, s)
    ensures QueueFits(c, Next(c, s, step))
  {
    hide Rebuild, Groups, RolledBack, MarkRows, Remember, Reserve, Forget;
  }

  /** Over every run the sentinel waits for room in the queue like a row. */
  lemma {:induction false} SentinelTakesASlot(c: Limits, steps: seq<Step>)
    ensures QueueFits(c, Run(c, Fresh([]), steps))
  {
    if |steps| > 0 {
      hide Next, QueueFits;
      SentinelTakesASlot(c, steps[..|steps| - 1]);
      StepFits(c, Run(c, Fresh([]), steps[..|steps| - 1]), steps[|steps| - 1]);
    }
  }

  // ---------- A close that meets no failure gets through ----------

  lemma {:induction false} RunFrom(c: Limits, s: State, first: Step, rest: seq<Step>)
    ensures Run(c, s, [first] + rest) == Run(c, Next(c, s, first), rest)
  {
    hide Next;
    var steps := [first] + rest;
    if |rest| == 0 {
      assert steps[..0] == [];
    } else {
      var n := |rest| - 1;
      RunFrom(c, s, first, rest[..n]);
      assert steps[..n + 1] == [first] + rest[..n] && steps[n + 1] == rest[n];
    }
  }

  /** The step that brings a live writer closer to its end: flush, accept, close, stop, and take what is queued. */
  function TowardsClose(c: Limits, s: State): Step {
    if s.flush != [] then if s.published then Mark else Publish
    else if (s.writing.Some? || !s.stopQueued) && |s.queue| >= c.queueCapacity then Take
    else if s.writing.Some? then Enqueue
    else if !s.closing then BeginClose
    else if !s.stopQueued then EnqueueStop
    else if s.queue != [] then Take
    else TakeStop
  }

  ghost predicate Closer(s: State, next: State) {
    if s.writing.Some? != next.writing.Some? then next.writing.None?
    else if s.closing != next.closing then next.closing
    else if s.stopQueued != next.stopQueued then next.stopQueued
    else if |s.queue| != |next.queue| then |next.queue| < |s.queue|
    else if s.finishing != next.finishing then next.finishing
    else if |s.flush| != |next.flush| then |next.flush| < |s.flush|
    else !s.published && next.published
  }

  lemma {:induction false} TowardsCloseWorks(c: Limits, s: State)
    requires Inv(c, s) && s.phase == RUNNING && c.queueCapacity >= 1
    ensures var next := Next(c, s, TowardsClose(c, s));
            && Inv(c, next) && next.accepted + |Writing(next)| == s.accepted + |Writing(s)|
            && (next.phase == RUNNING || next.phase == DONE) && (next.phase == RUNNING ==> Closer(s, next))
            && (next.phase == DONE ==> next.writing.None?)
  {
    hide IndexExact, Accounts, DiskSound, MarkRows, Groups, RolledBack, Flatten, StartStep, WriteStep, CancelStep,
      CancelWorkerStep, LateStep, ReopenStep, MarkFailsStep, FinishCloseStep;
    StepKeeps(c, s, TowardsClose(c, s));
    if s.flush != [] {
      ReservationsStay(c, s);
    }
  }

  /** From any state of a live writer a finite schedule of its steps ends it, with every accepted row on disk. */
  lemma {:induction false} CloseCanFinish(c: Limits, s: State) returns (steps: seq<Step>)
    requires Inv(c, s) && s.phase == RUNNING && c.queueCapacity >= 1
    ensures forall i :: 0 <= i < |steps| ==>
              steps[i] in {Mark, Publish, Take, Enqueue, BeginClose, EnqueueStop, TakeStop}
    ensures var end := Run(c, s, steps);
            && end.phase == DONE && end.written == end.accepted == s.accepted + |Writing(s)|
            && |Flatten(end.disk)| == end.found + end.accepted
    decreases if s.writing.Some? then 1 else 0, if s.closing then 0 else 1, if s.stopQueued then 0 else 1, |s.queue|,
              if s.finishing then 0 else 1, |s.flush|, if s.published then 0 else 1
  {
    hide Inv, Next, Run, Flatten, TowardsClose;
    TowardsCloseWorks(c, s);
    var step := TowardsClose(c, s);
    TowardsCloseSteps(c, s);
    var next := Next(c, s, step);
    var rest := [];
    if next.phase == RUNNING {
      rest := CloseCanFinish(c, next);
    } else {
      DoneIsClean(c, next);
      EmptyRun(c, next);
    }
    steps := [step] + rest;
    RunFrom(c, s, step, rest);
  }

  lemma {:induction false} TowardsCloseSteps(c: Limits, s: State)
    ensures TowardsClose(c, s) in {Mark, Publish, Take, Enqueue, BeginClose, EnqueueStop, TakeStop}
  {
  }

  lemma {:induction false} EmptyRun(c: Limits, s: State)
    ensures Run(c, s, []) == s
  {
  }

  // ---------- Starting over the thread of a cancelled writer ----------

  lemma {:induction false} NoStartIsCareful(c: Limits, s: State, steps: seq<Step>)
    requires forall i :: 0 <= i < |steps| ==> !steps[i].Start?
    ensures Careful(c, s, steps)
  {
    if |steps| > 0 {
      NoStartIsCareful(c, s, steps[..|steps| - 1]);
    }
  }

  lemma {:induction false} GroupsOfOne(e: Envelope)
    ensures Groups([e]) != [] && Groups([e])[0] == [e]
  {
    hide Groups, Flatten;
    GroupsPermute([e]);
    GroupsArePartitions([e]);
    SameLength(Flatten(Groups([e])), [e]);
    assert Flatten(Groups([e])) == [e] by {
      assert Flatten(Groups([e]))[0] in multiset([e]);
    }
    FlattenOfNone();
    FlattenHead(Groups([e]));
  }

  lemma {:induction false} FlattenOfNone()
    ensures Flatten([]) == []
  {
  }

  /** A running writer with nothing in hand. */
  ghost predicate Idle(s: State) {
    && s.phase == RUNNING && !s.closing && s.writing.None? && s.queue == [] && s.batch == [] && s.flush == []
    && !s.finishing && !s.published
  }

  lemma {:induction false} RunNext(c: Limits, s: State, steps: seq<Step>, i: nat)
    requires i < |steps|
    ensures Run(c, s, steps[..i + 1]) == Next(c, Run(c, s, steps[..i]), steps[i])
  {
    assert steps[..i + 1][..i] == steps[..i];
  }

  lemma {:induction false} RunFour(c: Limits, s: State, steps: seq<Step>)
    requires |steps| == 4
    ensures Run(c, s, steps)
            == Next(c, Next(c, Next(c, Next(c, s, steps[0]), steps[1]), steps[2]), steps[3])
  {
    hide Next, Run;
    EmptyRun(c, s);
    RunNext(c, s, steps, 0);
    RunNext(c, s, steps, 1);
    RunNext(c, s, steps, 2);
    RunNext(c, s, steps, 3);
    assert steps[..0] == [] && steps[..4] == steps;
  }

  lemma {:induction false} RunAppend(c: Limits, s: State, a: seq<Step>, b: seq<Step>)
    ensures Run(c, s, a + b) == Run(c, Run(c, s, a), b)
    decreases |b|
  {
    hide Next;
    if |b| == 0 {
      assert a + b == a;
    } else {
      RunAppend(c, s, a, b[..|b| - 1]);
      assert (a + b)[..|a + b| - 1] == a + b[..|b| - 1];
    }
  }

  /** An idle writer accepts a new row and waits for its file. */
  lemma {:induction false} RowInFlush(c: Limits, s: State, e: Envelope)
    requires Idle(s) && c.queueCapacity >= 1 && Reserve(s.index, s.hot, e) == NEW
    ensures var next := Run(c, s, [Write(e), Enqueue, Take, Timeout]);
            && next.phase == RUNNING && !next.closing && next.writing.None? && next.flush != []
            && next.flush[0] == [e] && !next.published && next.disk == s.disk && next.late == s.late
  {
    hide Reserve, Remember, Run, Groups, Rebuild, MarkRows, RolledBack, Next;
    GroupsOfOne(e);
    var s2 := EnqueueStep(c, WriteStep(c, s, e));
    WrittenAndQueued(c, s, e);
    hide WriteStep, EnqueueStep;
    assert s2.queue[1..] == [] && s2.batch + [e] == [e];
    FlushSteps(c, s, e);
    RunFour(c, s, [Write(e), Enqueue, Take, Timeout]);
  }

  lemma {:induction false} WrittenAndQueued(c: Limits, s: State, e: Envelope)
    requires Idle(s) && c.queueCapacity >= 1 && Reserve(s.index, s.hot, e) == NEW
    ensures var queued := EnqueueStep(c, WriteStep(c, s, e));
            && queued.phase == RUNNING && !queued.closing && queued.writing.None? && queued.queue == [e]
            && queued.batch == [] && queued.flush == [] && !queued.finishing && !queued.published
            && queued.disk == s.disk && queued.late == s.late
  {
    hide Reserve, Remember;
  }

  lemma {:induction false} FlushSteps(c: Limits, s: State, e: Envelope)
    ensures Next(c, s, Write(e)) == WriteStep(c, s, e)
    ensures forall t :: Next(c, t, Enqueue) == EnqueueStep(c, t)
    ensures forall t :: Next(c, t, Take) == TakeStep(c, t) && Next(c, t, Timeout) == TimeoutStep(t)
  {
    hide WriteStep, EnqueueStep, TakeStep, TimeoutStep;
  }

  /** A write of an id in the late file is accepted by a writer that cannot see that file, and published. */
  lemma {:induction false} WriteBesideLate(c: Limits, s: State, e: Envelope)
    requires Idle(s) && s.late != [] && c.queueCapacity >= 1 && Reserve(s.index, s.hot, e) == NEW
    ensures Run(c, s, [Write(e), Enqueue, Take, Timeout] + [Publish, LatePublish(0)]).disk
            == s.disk + [[e]] + [s.late[0]]
  {
    hide Run, Reserve, Rebuild;
    RowInFlush(c, s, e);
    RunAppend(c, s, [Write(e), Enqueue, Take, Timeout], [Publish, LatePublish(0)]);
    var waiting := Run(c, s, [Write(e), Enqueue, Take, Timeout]);
    var done := PublishStep(waiting);
    RunFrom(c, waiting, Publish, [LatePublish(0)]);
    RunFrom(c, done, LatePublish(0), []);
    EmptyRun(c, LateStep(done, 0, true));
    assert [Publish] + [LatePublish(0)] == [Publish, LatePublish(0)] && [LatePublish(0)] + [] == [LatePublish(0)];
  }

  lemma {:induction false} LateIdNotOnDisk(disk: seq<seq<Envelope>>, g: seq<Envelope>, id: int)
    requires DiskSound(disk + [g]) && |g| > 0 && g[0].id == id
    ensures Count(Flatten(disk), id) == 0
  {
    FlattenAppend(disk, [g]);
    FlattenOne(g);
    hide Flatten, Count;
    CountAppend(Flatten(disk), g, id);
    CountMember(g, g[0]);
    assert Count(Flatten(disk + [g]), id) <= 1;
  }

  lemma {:induction false} LateIdIsNew(c: Limits, s: State, e: Envelope)
    requires Inv(c, s) && s.phase == STOPPED && !s.closing && s.late != []
    requires |s.late[0]| > 0 && e.id == s.late[0][0].id
    ensures Idle(StartStep(s)) && Reserve(StartStep(s).index, StartStep(s).hot, e) == NEW
  {
    hide DiskSound, Flatten, Reserve, Rebuild, Accounts, Shape, Count, Holds;
    StartKeeps(c, s);
    assert s.late == [s.late[0]];
    LateIdNotOnDisk(s.disk, s.late[0], e.id);
    var next := StartStep(s);
    assert Settled(next) == s.disk;
    NothingOutstanding(next);
    NotInIndex(next.index, Flatten(s.disk), e.id);
    HotCacheIsTransparent(next.index, next.hot, e);
  }

  lemma {:induction false} NothingOutstanding(s: State)
    ensures Idle(s) ==> Outstanding(s) == []
  {
  }

  lemma {:induction false} NotInIndex(index: Index, rows: seq<Envelope>, id: int)
    requires Holds(index, rows, COMMITTED) && Holds(index, [], PENDING) && Count(rows, id) == 0
    ensures id !in index
  {
    assert Count(rows, id) == InState(index, id, COMMITTED);
    assert Count([], id) == InState(index, id, PENDING);
  }

  /** Two rows of one id with different contents. */
  ghost predicate TwoContents(rows: seq<Envelope>) {
    exists x, y :: x in rows && y in rows && x.id == y.id && x.identity != y.identity
  }

  lemma {:induction false} UniqueMeansOneContent(rows: seq<Envelope>)
    requires UniqueIds(rows)
    ensures !TwoContents(rows)
  {
    forall x, y | x in rows && y in rows && x.id == y.id ensures x.identity == y.identity {
      var i :| 0 <= i < |rows| && rows[i] == x;
      var j :| 0 <= j < |rows| && rows[j] == y;
      UniqueMeansOnce(rows, i, j);
      UniqueMeansOnce(rows, j, i);
    }
  }

  lemma {:induction false} BothOnDisk(disk: seq<seq<Envelope>>, e: Envelope, g: seq<Envelope>)
    requires |g| > 0 && g[0].id == e.id && g[0].identity != e.identity
    ensures TwoContents(Flatten(disk + [[e]] + [g]))
  {
    FlattenAppend(disk + [[e]], [g]);
    FlattenAppend(disk, [[e]]);
    FlattenOne(g);
    FlattenOne([e]);
    hide Flatten;
    var rows := Flatten(disk + [[e]] + [g]);
    assert rows == Flatten(disk) + [e] + g;
    assert e in rows && g[0] in rows;
  }

  /** The same row with another content. */
  function Altered(e: Envelope): (r: Envelope)
    ensures r.id == e.id && r.identity != e.identity
  {
    var sha := e.identity.payloadSha + "x";
    assert |sha| == |e.identity.payloadSha| + 1;
    e.(identity := e.identity.(payloadSha := sha))
  }

  /** What a new writer may do beside the late file. */
  function Beside(e: Envelope): seq<Step> {
    [Write(Altered(e)), Enqueue, Take, Timeout] + [Publish, LatePublish(0)]
  }

  lemma {:induction false} BesideSpoils(c: Limits, s: State)
    requires Inv(c, s) && s.phase == STOPPED && !s.closing && s.late != [] && c.queueCapacity >= 1
    ensures |s.late[0]| > 0
    ensures var next, more := Next(c, s, Start), Beside(s.late[0][0]);
            Careful(c, next, more) && TwoContents(Flatten(Run(c, next, more).disk))
  {
    hide Run, Flatten, Careful, Rebuild, Reserve, IndexExact, Accounts, TwoContents, UniqueIds;
    var next, g := StartStep(s), s.late[0];
    assert |g| > 0 by {
      assert (s.disk + s.late)[|s.disk|] == g;
    }
    var e := Altered(g[0]);
    NoStartIsCareful(c, next, Beside(g[0]));
    LateIdIsNew(c, s, e);
    WriteBesideLate(c, next, e);
    BothOnDisk(s.disk, e, g);
  }

  /**
   A writer may be started without risk exactly if no thread of a cancelled one is still at work:
   otherwise the new writer can accept an id of the late file with another content, and both
   files appear.
   */
  lemma {:induction false} StartIsSafeIff(c: Limits, s: State)
    requires Inv(c, s) && s.phase == STOPPED && !s.closing && c.queueCapacity >= 1
    ensures s.late == []
            <==> forall more: seq<Step> :: Careful(c, Next(c, s, Start), more)
                   ==> UniqueIds(Flatten(Run(c, Next(c, s, Start), more).disk))
    ensures s.late == []
            <==> forall more: seq<Step> :: Careful(c, Next(c, s, Start), more)
                   ==> !TwoContents(Flatten(Run(c, Next(c, s, Start), more).disk))
  {
    hide Run, Flatten, Careful, UniqueIds, Rebuild, IndexExact, Accounts, Next, TwoContents;
    var next := Next(c, s, Start);
    if s.late == [] {
      StepKeeps(c, s, Start);
      forall more: seq<Step> | Careful(c, next, more)
        ensures UniqueIds(Flatten(Run(c, next, more).disk)) && !TwoContents(Flatten(Run(c, next, more).disk))
      {
        RunKeeps(c, next, more);
        SoundPrefix(Run(c, next, more).disk, Run(c, next, more).late);
        UniqueMeansOneContent(Flatten(Run(c, next, more).disk));
      }
    } else {
      BesideSpoils(c, s);
      var rows := Flatten(Run(c, next, Beside(s.late[0][0])).disk);
      if UniqueIds(rows) {
        UniqueMeansOneContent(rows);
      }
    }
  }

  lemma {:induction false} CarefulStart(c: Limits, s: State, rest: seq<Step>)
    requires s.late == [] && forall i :: 0 <= i < |rest| ==> !rest[i].Start?
    ensures Careful(c, s, [Start] + rest)
  {
    hide Next;
    var steps := [Start] + rest;
    if |rest| == 0 {
      assert steps[..0] == [];
    } else {
      var n := |rest| - 1;
      CarefulStart(c, s, rest[..n]);
      assert steps[..n + 1] == [Start] + rest[..n] && steps[n + 1] == rest[n];
    }
  }

  /** A writer whose worker is cancelled while its file is being written, closed and opened again. */
  function Abandoned(e: Envelope): seq<Step> {
    [Start] + ([Write(e), Enqueue, Take, Timeout] + [CancelWorker, BeginClose, FinishClose, Reopen])
  }

  /** The state that a start must not begin in is reached by a careful run. */
  lemma {:induction false} LateFileIsReached(c: Limits, e: Envelope)
    requires c.queueCapacity >= 1
    ensures Careful(c, Fresh([]), Abandoned(e))
    ensures Run(c, Fresh([]), Abandoned(e)) == Fresh([]).(late := [[e]])
  {
    hide Run, Careful, Reserve, RolledBack;
    var unstarted := Fresh([]);
    var write, close := [Write(e), Enqueue, Take, Timeout], [CancelWorker, BeginClose, FinishClose, Reopen];
    CarefulStart(c, unstarted, write + close);
    FirstStart(c, e);
    var next := StartStep(unstarted);
    RunFrom(c, unstarted, Start, write + close);
    RunAppend(c, next, write, close);
    RowInFlush(c, next, e);
    AbandonedAt(c, Run(c, next, write), e);
  }

  lemma {:induction false} FirstStart(c: Limits, e: Envelope)
    ensures var next := StartStep(Fresh([]));
            Idle(next) && next.disk == [] && next.late == [] && Reserve(next.index, next.hot, e) == NEW
  {
  }

  lemma {:induction false} AbandonedAt(c: Limits, s: State, e: Envelope)
    requires s.phase == RUNNING && !s.closing && s.writing.None? && s.flush != [] && s.flush[0] == [e]
    requires !s.published && s.disk == [] && s.late == []
    ensures Run(c, s, [CancelWorker, BeginClose, FinishClose, Reopen]) == Fresh([]).(late := [[e]])
  {
    hide Run, RolledBack, StartStep, WriteStep, TakeStep, MarkStep, MarkFailsStep, TakeStopStep, LateStep;
    var failed := Next(c, s, CancelWorker);
    assert failed.late == [[e]] && failed.phase == FAILED && failed.disk == [];
    var closed := Next(c, Next(c, failed, BeginClose), FinishClose);
    assert closed.phase == CLOSED && closed.late == [[e]] && closed.disk == [];
    assert Next(c, closed, Reopen) == Fresh([]).(late := [[e]]);
    hide Next;
    RunFour(c, s, [CancelWorker, BeginClose, FinishClose, Reopen]);
  }

  /** So a run with one start over a late file persists an id with two contents. */
  lemma {:induction false} CarelessRunPersistsTwice(c: Limits, e: Envelope)
    requires c.queueCapacity >= 1
    ensures TwoContents(Flatten(Run(c, Fresh([]), Abandoned(e) + ([Start] + Beside(e))).disk))
  {
    hide Run, Flatten, Careful, Inv, TwoContents, Next, Abandoned, Beside;
    LateFileIsReached(c, e);
    EmptyIsSound(c);
    RunKeeps(c, Fresh([]), Abandoned(e));
    var s := Run(c, Fresh([]), Abandoned(e));
    RunAppend(c, Fresh([]), Abandoned(e), [Start] + Beside(e));
    RunFrom(c, s, Start, Beside(e));
    BesideSpoils(c, s);
  }
}
