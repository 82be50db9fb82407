/**
 The feature writer itself: the loops over its index, cache and files, and its operations as
 the pieces between awaits. Every operation takes the step that the protocol says.
 */
module FeatureWriter {
  import opened Common
  import opened Sequences
  import opened RecentMap
  import opened FeatureIndex
  import opened FeatureProtocol

  // ---------- Rebuilding the index ----------

  lemma {:induction false} FailedPrefix(a: seq<Envelope>, b: seq<Envelope>)
    ensures IndexOf(a).Failure? ==> IndexOf(a + b) == IndexOf(a)
    decreases |b|
  {
    if |b| == 0 {
      assert a + b == a;
    } else {
      FailedPrefix(a, b[..|b| - 1]);
      assert (a + b)[..|a + b| - 1] == a + b[..|b| - 1];
    }
  }

  lemma {:induction false} NextFile(files: seq<seq<Envelope>>, f: nat)
    requires f < |files|
    ensures Flatten(files[..f + 1]) == Flatten(files[..f]) + files[f]
    ensures exists rest :: Flatten(files) == Flatten(files[..f]) + files[f] + rest
  {
    assert files[..f + 1][..f] == files[..f];
    assert files == files[..f + 1] + files[f + 1..];
    FlattenAppend(files[..f + 1], files[f + 1..]);
    assert Flatten(files) == Flatten(files[..f]) + files[f] + Flatten(files[f + 1..]);
  }

  lemma {:induction false} NextRow(before: seq<Envelope>, file: seq<Envelope>, k: nat, index: Index)
    requires k < |file| && IndexOf(before + file[..k]) == Success(index)
    ensures file[k].id in index ==> IndexOf(before + file[..k + 1]).Failure?
    ensures file[k].id !in index ==>
              IndexOf(before + file[..k + 1]) == Success(index[file[k].id := Entry(file[k].identity, COMMITTED)])
  {
    assert (before + file[..k + 1])[..|before| + k] == before + file[..k];
  }

  /** Insert the rows of one file. */
  method InsertFile(index: Index, ghost before: seq<Envelope>, file: seq<Envelope>) returns (r: Result<Index>)
    requires IndexOf(before) == Success(index)
    ensures r == IndexOf(before + file)
  {
    hide IndexOf;
    var result := index;
    assert before + file[..0] == before;
    for k := 0 to |file|
      invariant IndexOf(before + file[..k]) == Success(result)
    {
      NextRow(before, file, k, result);
      if file[k].id in result {
        FailedPrefix(before + file[..k + 1], file[k + 1..]);
        assert before + file[..k + 1] + file[k + 1..] == before + file;
        SameFailure(before + file[..k + 1]);
        return Failure("duplicate persisted feature_snapshot_id");
      }
      result := result[file[k].id := Entry(file[k].identity, COMMITTED)];
    }
    assert file[..|file|] == file;
    return Success(result);
  }

  lemma {:induction false} SameFailure(rows: seq<Envelope>)
    ensures IndexOf(rows).Failure? ==> IndexOf(rows) == Failure("duplicate persisted feature_snapshot_id")
  {
    if |rows| > 0 {
      SameFailure(rows[..|rows| - 1]);
    }
  }

  /** Every file, every row; a repeated id or a tree without rows is refused. */
  method RebuildFeatureIndex(files: seq<seq<Envelope>>) returns (r: Result<Index>)
    ensures r == Rebuild(files)
  {
    var index: Index := map[];
    var rows := 0;
    for f := 0 to |files|
      invariant IndexOf(Flatten(files[..f])) == Success(index) && rows == |Flatten(files[..f])|
    {
      NextFile(files, f);
      var inserted := InsertFile(index, Flatten(files[..f]), files[f]);
      hide IndexOf, Flatten;
      if inserted.Failure? {
        ghost var rest :| Flatten(files) == Flatten(files[..f]) + files[f] + rest;
        FailedPrefix(Flatten(files[..f]) + files[f], rest);
        return inserted;
      }
      index := inserted.value;
      rows := rows + |files[f]|;
    }
    assert files[..|files|] == files;
    if |files| > 0 && rows == 0 {
      return Failure("feature tree contains no feature rows");
    }
    return Success(index);
  }

  // ---------- Grouping a batch ----------

  ghost predicate Grouped(grouped: map<int, seq<Envelope>>, rows: seq<Envelope>) {
    && (forall key :: key in grouped <==> exists e :: e in rows && e.partition == key)
    && (forall key :: key in grouped ==> grouped[key] == Filter(InPartition(key), rows))
  }

  lemma {:induction false} GroupedStep(grouped: map<int, seq<Envelope>>, rows: seq<Envelope>, e: Envelope)
    requires Grouped(grouped, rows)
    ensures var had := if e.partition in grouped then grouped[e.partition] else [];
            Grouped(grouped[e.partition := had + [e]], rows + [e])
  {
    var more := rows + [e];
    var had := if e.partition in grouped then grouped[e.partition] else [];
    var added := grouped[e.partition := had + [e]];
    assert more[..|rows|] == rows;
    assert had == Filter(InPartition(e.partition), rows) by {
      if e.partition !in grouped {
        forall x | x in rows ensures !InPartition(e.partition)(x) {
        }
        FilterNone(InPartition(e.partition), rows);
      }
    }
    forall key ensures key in added <==> exists x :: x in more && x.partition == key {
      assert e in more;
      assert forall x :: x in more <==> x in rows || x == e;
    }
    forall key | key in added ensures added[key] == Filter(InPartition(key), more) {
    }
  }

  lemma {:induction false} NoGroups(rows: seq<Envelope>)
    ensures GroupsBy(rows, []) == []
  {
  }

  lemma {:induction false} NextGroup(rows: seq<Envelope>, keys: seq<int>, j: nat)
    requires j < |keys|
    ensures GroupsBy(rows, keys[..j + 1]) == GroupsBy(rows, keys[..j]) + [Filter(InPartition(keys[j]), rows)]
  {
    assert keys[..j + 1][..j] == keys[..j];
  }

  /** A dict of lists, read out by ascending partition. */
  method GroupByPartition(rows: seq<Envelope>) returns (groups: seq<seq<Envelope>>)
    ensures groups == Groups(rows)
  {
    hide GroupsBy, Filter, Partitions;
    var grouped: map<int, seq<Envelope>> := map[];
    for i := 0 to |rows|
      invariant Grouped(grouped, rows[..i])
    {
      GroupedStep(grouped, rows[..i], rows[i]);
      assert rows[..i + 1] == rows[..i] + [rows[i]];
      hide Grouped;
      var had := if rows[i].partition in grouped then grouped[rows[i].partition] else [];
      grouped := grouped[rows[i].partition := had + [rows[i]]];
    }
    assert rows[..|rows|] == rows;
    PartitionsAreThose(rows);
    var keys := Partitions(rows);
    groups := [];
    NoGroups(rows);
    for j := 0 to |keys|
      invariant groups == GroupsBy(rows, keys[..j])
    {
      assert keys[j] in keys && keys[j] in grouped;
      NextGroup(rows, keys, j);
      groups := groups + [grouped[keys[j]]];
    }
    assert keys[..|keys|] == keys;
  }

  // ---------- Deleting the pending entries in bounded transactions ----------

  ghost function PendingIds(index: Index): set<int> {
    set id | id in index && index[id].state == PENDING
  }

  lemma {:induction false} NonEmptyHasElement(s: set<int>)
    ensures s != {} ==> exists id :: id in s
  {
    assert (forall id :: id !in s) ==> s == {};
  }

  /** Any `limit` of the pending ids, or all of them if there are fewer. */
  method SelectPending(index: Index, limit: nat) returns (chunk: set<int>)
    requires limit >= 1
    ensures chunk <= PendingIds(index) && |chunk| <= limit && (|chunk| < limit ==> chunk == PendingIds(index))
  {
    chunk := {};
    var left := set id | id in index && index[id].state == PENDING;
    while left != {} && |chunk| < limit
      invariant chunk + left == PendingIds(index) && chunk !! left && |chunk| <= limit
      decreases left
    {
      NonEmptyHasElement(left);
      var id :| id in left;
      left := left - {id};
      chunk := chunk + {id};
    }
  }

  method DeleteAllPending(index: Index, transactionRows: nat) returns (r: Index)
    requires transactionRows >= 1
    ensures r == RolledBack(index)
  {
    r := index;
    var deleted := transactionRows;
    while deleted == transactionRows
      invariant RolledBack(r) == RolledBack(index)
      invariant deleted == transactionRows || PendingIds(r) == {}
      decreases |PendingIds(r)| + if deleted == transactionRows then 1 else 0
    {
      var chunk := SelectPending(r, transactionRows);
      ghost var before := PendingIds(r);
      r := r - chunk;
      deleted := |chunk|;
      assert PendingIds(r) == before - chunk;
      assert |before| == |before - chunk| + |chunk| by {
        assert before == (before - chunk) + chunk;
      }
    }
    NothingPending(r);
  }

  lemma {:induction false} NothingPending(index: Index)
    requires PendingIds(index) == {}
    ensures RolledBack(index) == index
  {
    forall id | id in index ensures index[id].state == COMMITTED {
      assert id !in PendingIds(index);
    }
  }

  // ---------- Marking in bounded transactions ----------

  lemma {:induction false} MarkRowsSplit(index: Index, a: seq<Envelope>, b: seq<Envelope>)
    ensures MarkRows(index, a + b)
         == if MarkRows(index, a).None? then None else MarkRows(MarkRows(index, a).value, b)
    decreases |b|
  {
    if |b| == 0 {
      assert a + b == a;
    } else {
      MarkRowsSplit(index, a, b[..|b| - 1]);
      assert (a + b)[..|a + b| - 1] == a + b[..|b| - 1];
    }
  }

  /** One transaction: all rows of the chunk, or none. */
  method MarkChunk(index: Index, chunk: seq<Envelope>) returns (r: Option<Index>)
    ensures r == MarkRows(index, chunk)
  {
    var result := index;
    for i := 0 to |chunk|
      invariant MarkRows(index, chunk[..i]) == Some(result)
    {
      assert chunk[..i + 1][..i] == chunk[..i];
      var marked := MarkRow(result, chunk[i]);
      if marked.None? {
        assert chunk == chunk[..i + 1] + chunk[i + 1..];
        MarkRowsSplit(index, chunk[..i + 1], chunk[i + 1..]);
        return None;
      }
      result := marked.value;
    }
    assert chunk[..|chunk|] == chunk;
    return Some(result);
  }

  /** Chunk by chunk; fails exactly when the reservation of some row is gone. */
  method MarkAll(index: Index, rows: seq<Envelope>, transactionRows: nat) returns (r: Option<Index>)
    requires transactionRows >= 1
    ensures r == MarkRows(index, rows)
  {
    var result := index;
    var offset := 0;
    while offset < |rows|
      invariant offset <= |rows| && MarkRows(index, rows[..offset]) == Some(result)
    {
      var end := if offset + transactionRows < |rows| then offset + transactionRows else |rows|;
      var marked := MarkChunk(result, rows[offset..end]);
      assert rows[..end] == rows[..offset] + rows[offset..end];
      MarkRowsSplit(index, rows[..offset], rows[offset..end]);
      hide MarkRows;
      if marked.None? {
        assert rows == rows[..end] + rows[end..];
        MarkRowsSplit(index, rows[..end], rows[end..]);
        return None;
      }
      result := marked.value;
      offset := end;
    }
    assert rows[..|rows|] == rows;
    return Some(result);
  }

  lemma {:induction false} SettledAs(s: State, marked: Index)
    requires s.phase == RUNNING && s.flush != [] && s.published && MarkRows(s.index, s.flush[0]) == Some(marked)
    ensures MarkStep(s) == s.(index := marked, flush := s.flush[1..], published := false,
                              written := s.written + |s.flush[0]|,
                              phase := if s.finishing && |s.flush| == 1 then DONE else RUNNING)
  {
  }

  /** The files hold no id twice and, if there are any, some row. */
  ghost predicate Readable(disk: seq<seq<Envelope>>) {
    UniqueIds(Flatten(disk)) && (disk == [] || Flatten(disk) != [])
  }

  lemma {:induction false} ReadableIff(disk: seq<seq<Envelope>>)
    ensures Rebuild(disk).Success? <==> Readable(disk)
  {
    IndexOfIsRowMap(Flatten(disk));
  }

  lemma {:induction false} ValidIsReadable(c: Limits, s: State)
    requires Inv(c, s)
    ensures Readable(s.disk)
  {
    SoundPrefix(s.disk, s.late);
    if s.disk != [] {
      FlattenHead(s.disk);
    }
  }

  // ---------- The writer ----------

  class AsyncFeatureParquetWriter {
    const limits: Limits
    const transactionRows: nat
    /** The published files: all that survives the process. */
    var disk: seq<seq<Envelope>>
    /** Files that threads of cancelled workers of this process are still at work on. */
    var late: seq<seq<Envelope>>
    var phase: Phase
    var index: Index
    var hot: HotCache
    var writing: Option<Envelope>
    var queue: seq<Envelope>
    var batch: seq<Envelope>
    var flush: seq<seq<Envelope>>
    var published: bool
    var closing: bool
    var stopQueued: bool
    var finishing: bool
    var found: nat
    var accepted: nat
    var written: nat
    var deduplicated: nat

    function Abs(): State
      reads this
    {
      State(disk, late, phase, index, hot, writing, queue, batch, flush, published, closing, stopQueued, finishing,
            found, accepted, written, deduplicated)
    }

    ghost predicate Valid()
      reads this
    {
      Inv(limits, Abs()) && transactionRows >= 1 && limits.batchRows >= 1
    }

    /** A new writer over the files of earlier ones, whatever became of those. */
    constructor (limits: Limits, transactionRows: nat, disk: seq<seq<Envelope>>, late: seq<seq<Envelope>>)
      requires transactionRows >= 1 && limits.batchRows >= 1
      ensures Abs() == Fresh(disk).(late := late) && this.limits == limits
      ensures DiskSound(disk + late) && |late| <= 1 ==> Valid()
    {
      this.limits, this.transactionRows := limits, transactionRows;
      this.disk, this.late, phase, index, hot := disk, late, STOPPED, map[], [];
      writing, queue, batch, flush, published := None, [], [], [], false;
      closing, stopQueued, finishing := false, false, false;
      found, accepted, written, deduplicated := 0, 0, 0, 0;
    }

    /**
     Refused once closing begins, and over files that repeat an id or hold no rows; a writer
     already started stays as it is.
     */
    method Start() returns (r: Result<bool>)
      modifies this`phase, this`index, this`found
      ensures Abs() == StartStep(old(Abs()))
      ensures r.Failure? <==> closing || old(phase) == CLOSED || (old(phase) == STOPPED && !Readable(disk))
      ensures r.Success? ==> r.value == (old(phase) == STOPPED)
      ensures old(Valid()) ==> Readable(disk) && (late == [] ==> Valid())
    {
      hide Inv, Rebuild, Flatten, IndexExact, Shape, Accounts, Readable;
      if Inv(limits, Abs()) {
        StartKeeps(limits, Abs());
        ValidIsReadable(limits, Abs());
      }
      ReadableIff(disk);
      if closing || phase == CLOSED {
        return Failure("cannot start a closing feature writer");
      }
      if phase != STOPPED {
        return Success(false);
      }
      var rebuilt := RebuildFeatureIndex(disk);
      if rebuilt.Failure? {
        return Failure("cannot initialize feature writer");
      }
      index := rebuilt.value;
      found := |Flatten(disk)|;
      phase := RUNNING;
      return Success(true);
    }

    /** Remember an identity as the newest and drop the oldest ones beyond the capacity. */
    method RememberIdentity(e: Envelope)
      modifies this`hot
      ensures hot == Remember(old(hot), e, limits.hotCapacity)
    {
      hot := Refresh(hot, e.id, e.identity);
      ghost var refreshed := hot;
      while |hot| > limits.hotCapacity
        invariant |hot| <= |refreshed| && hot == refreshed[|refreshed| - |hot|..]
        invariant |hot| >= limits.hotCapacity || hot == refreshed
        decreases |hot|
      {
        hot := hot[1..];
      }
    }

    /** Look in the cache, then in the index; a new id gets a pending entry. */
    method ReserveId(e: Envelope) returns (outcome: Outcome)
      modifies this`index, this`hot
      ensures outcome == Reserve(old(index), old(hot), e)
      ensures index == if outcome == NEW then old(index)[e.id := Entry(e.identity, PENDING)] else old(index)
      ensures hot == if outcome == CONFLICT then old(hot) else Remember(old(hot), e, limits.hotCapacity)
    {
      hide Remember, Get;
      var existing := Get(hot, e.id);
      if existing.None? {
        if e.id in index {
          existing := Some(index[e.id].identity);
        } else {
          index := index[e.id := Entry(e.identity, PENDING)];
        }
      }
      if existing.Some? {
        if existing.value != e.identity {
          return CONFLICT;
        }
        RememberIdentity(e);
        return DUPLICATE;
      }
      RememberIdentity(e);
      return NEW;
    }

    /** The part of a write before it waits for the queue; the write lock keeps other writes out. */
    method Write(e: Envelope) returns (r: Result<Outcome>)
      requires Valid() && writing.None?
      modifies this`index, this`hot, this`writing, this`deduplicated
      ensures Valid() && Abs() == WriteStep(limits, old(Abs()), e)
      ensures r.Success? ==> r.value != CONFLICT && r.value == Reserve(old(index), [], e)
      ensures r.Failure? <==> old(phase) != RUNNING || old(closing) || Reserve(old(index), [], e) == CONFLICT
    {
      hide Inv, Remember, Reserve;
      WriteKeeps(limits, Abs(), e);
      CacheIsNoMatter(e);
      if phase != RUNNING || closing {
        return Failure("the feature writer does not accept writes");
      }
      var outcome := ReserveId(e);
      if outcome == CONFLICT {
        return Failure("duplicate feature_snapshot_id has different content");
      }
      if outcome == DUPLICATE {
        deduplicated := deduplicated + 1;
      } else {
        writing := Some(e);
      }
      return Success(outcome);
    }

    lemma {:induction false} CacheIsNoMatter(e: Envelope)
      requires Valid()
      ensures phase == RUNNING ==> Reserve(index, hot, e) == Reserve(index, [], e)
    {
      if phase == RUNNING {
        HotCacheIsTransparent(index, hot, e);
      }
    }

    /** The submission enters the queue as soon as there is room. */
    method Enqueue() returns (done: bool)
      requires Valid()
      modifies this`queue, this`writing, this`accepted
      ensures Valid() && Abs() == EnqueueStep(limits, old(Abs()))
      ensures done <==> old(phase) == RUNNING && old(writing).Some? && |old(queue)| < limits.queueCapacity
    {
      hide Inv;
      EnqueueKeeps(limits, Abs());
      if phase != RUNNING || writing.None? || |queue| >= limits.queueCapacity {
        return false;
      }
      queue := queue + [writing.value];
      accepted := accepted + 1;
      writing := None;
      return true;
    }

    /** A write that is cancelled, or finds the worker failed, gives its reservation back. */
    method RollbackReservation()
      requires Valid()
      modifies this`index, this`hot, this`writing
      ensures Valid() && Abs() == CancelStep(old(Abs()))
    {
      hide Inv, Get, Without;
      CancelKeeps(limits, Abs());
      if (phase == RUNNING || phase == FAILED) && writing.Some? {
        var e := writing.value;
        if e.id in index && index[e.id].state == PENDING {
          index := index - {e.id};
        }
        if Get(hot, e.id) == Some(e.identity) {
          hot := Without(hot, e.id);
        }
        writing := None;
      }
    }

    method StartFlush()
      modifies this`batch, this`flush
      ensures flush == Groups(old(batch)) && batch == []
    {
      flush := GroupByPartition(batch);
      batch := [];
    }

    /** The worker takes a submission, and flushes a full batch. */
    method Take()
      requires Valid()
      modifies this`queue, this`batch, this`flush
      ensures Valid() && Abs() == TakeStep(limits, old(Abs()))
    {
      hide Inv, Groups;
      TakeKeeps(limits, Abs());
      if phase == RUNNING && !finishing && flush == [] && |queue| > 0 {
        batch := batch + [queue[0]];
        queue := queue[1..];
        if |batch| >= limits.batchRows {
          StartFlush();
        }
      }
    }

    /** The flush interval passed without a submission. */
    method FlushInterval()
      requires Valid() && phase == RUNNING && !finishing && flush == []
      modifies this`batch, this`flush
      ensures Valid() && Abs() == TimeoutStep(old(Abs()))
    {
      hide Inv, Groups;
      FlushKeeps(limits, Abs());
      StartFlush();
    }

    /** Write the next partition file, which either appears whole or not at all. */
    method WritePartitionFile(succeeds: bool)
      requires Valid() && phase == RUNNING && flush != [] && !published
      modifies this`disk, this`published, this`index, this`phase
      ensures Valid()
      ensures Abs() == if succeeds then PublishStep(old(Abs())) else Fail(old(Abs()), old(index))
    {
      hide Inv, RolledBack;
      PublishKeeps(limits, Abs());
      StepKeeps(limits, Abs(), PublishFails);
      if succeeds {
        disk := disk + [flush[0]];
        published := true;
      } else {
        RollbackAllPending();
        phase := FAILED;
      }
    }

    /** The worker is cancelled. If it waits for a file, the thread at work on that file goes on. */
    method CancelWorker()
      requires Valid() && phase == RUNNING
      modifies this`late, this`index, this`phase
      ensures Valid() && Abs() == CancelWorkerStep(old(Abs()))
    {
      hide Inv, RolledBack;
      CancelWorkerKeeps(limits, Abs());
      if flush != [] && !published {
        late := late + [flush[0]];
      }
      RollbackAllPending();
      phase := FAILED;
    }

    /** Such a thread ends, with its file in place or not. */
    method FinishLateFile(k: nat, succeeds: bool)
      requires Valid() && k < |late|
      modifies this`disk, this`late
      ensures Valid() && Abs() == LateStep(old(Abs()), k, succeeds)
    {
      hide Inv;
      LateKeeps(limits, Abs(), k, succeeds);
      if succeeds {
        disk := disk + [late[k]];
      }
      late := late[..k] + late[k + 1..];
    }

    method RollbackAllPending()
      requires transactionRows >= 1
      modifies this`index
      ensures index == RolledBack(old(index))
    {
      index := DeleteAllPending(index, transactionRows);
    }

    /** Mark the rows of the published file; the code's error for a missing reservation cannot occur. */
    method MarkCommitted()
      requires Valid() && phase == RUNNING && flush != [] && published
      modifies this`index, this`flush, this`published, this`written, this`phase
      ensures Valid() && Abs() == MarkStep(old(Abs())) && phase != FAILED
    {
      hide Inv, MarkRows, RolledBack, Flatten;
      ReservationsStay(limits, Abs());
      var marked := MarkAll(index, flush[0], transactionRows);
      SettledAs(Abs(), marked.value);
      hide MarkStep;
      Settle(marked.value);
    }

    method Settle(marked: Index)
      requires flush != []
      modifies this`index, this`flush, this`published, this`written, this`phase
      ensures index == marked && flush == old(flush)[1..] && !published
      ensures written == old(written) + |old(flush)[0]|
      ensures phase == if finishing && |old(flush)| == 1 then DONE else RUNNING
    {
      index, published := marked, false;
      written := written + |flush[0]|;
      phase := if finishing && |flush| == 1 then DONE else RUNNING;
      flush := flush[1..];
    }

    method BeginClose()
      requires Valid()
      modifies this`closing
      ensures Valid() && Abs() == Next(limits, old(Abs()), FeatureProtocol.BeginClose)
    {
      hide Inv;
      CloseFlagKeeps(limits, Abs());
      closing := true;
    }

    /** The stop sentinel goes in behind the last submission. */
    method EnqueueStop()
      requires Valid()
      modifies this`stopQueued
      ensures Valid() && Abs() == EnqueueStopStep(limits, old(Abs()))
    {
      hide Inv;
      StopFlagKeeps(limits, Abs());
      if phase == RUNNING && closing && writing.None? && !stopQueued && |queue| < limits.queueCapacity {
        stopQueued := true;
      }
    }

    /** The worker takes the sentinel and flushes what is left. */
    method TakeStop()
      requires Valid() && phase == RUNNING && stopQueued && !finishing && flush == [] && queue == []
      modifies this`batch, this`flush, this`finishing, this`phase
      ensures Valid() && Abs() == TakeStopStep(old(Abs()))
    {
      hide Inv, Groups;
      TakeStopKeeps(limits, Abs());
      finishing := true;
      StartFlush();
      if flush == [] {
        phase := DONE;
      }
    }

    /** Close once the worker ended, cleanly or not. */
    method FinishClose()
      requires Valid() && closing && writing.None? && (phase == DONE || phase == FAILED || phase == STOPPED)
      modifies this`index, this`phase
      ensures Valid() && Abs() == FinishCloseStep(old(Abs()))
      ensures old(phase) == DONE ==> accepted == written && index == old(index)
    {
      hide Inv, RolledBack;
      CleanIndex();
      StepKeeps(limits, Abs(), FeatureProtocol.FinishClose);
      RollbackAllPending();
      phase := CLOSED;
    }

    lemma {:induction false} CleanIndex()
      requires Valid()
      ensures phase == DONE ==> accepted == written && RolledBack(index) == index
    {
      if phase == DONE {
        DoneIsClean(limits, Abs());
      }
    }
  }
}
