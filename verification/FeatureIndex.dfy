/**
 The deduplication index of persisted features against the rows it stands for: pending
 entries are rows in memory, committed entries are rows in files.
 */
module FeatureIndex {
  import opened Common
  import opened Sequences

  datatype Identity = Identity(payloadSha: string, codeVersion: string, configHash: string)

  /** A snapshot to persist. Partitions are ordered; only their order matters. */
  datatype Envelope = Envelope(id: int, identity: Identity, partition: int)

  datatype Persistence = PENDING | COMMITTED

  datatype Entry = Entry(identity: Identity, state: Persistence)

  type Index = map<int, Entry>

  // ---------- Rows by id ----------

  function HasId(id: int): Envelope -> bool {
    (e: Envelope) => e.id == id
  }

  function Count(rows: seq<Envelope>, id: int): nat {
    |Filter(HasId(id), rows)|
  }

  function Flatten(files: seq<seq<Envelope>>): seq<Envelope> {
    if |files| == 0 then [] else Flatten(files[..|files| - 1]) + files[|files| - 1]
  }

  lemma {:induction false} CountAppend(a: seq<Envelope>, b: seq<Envelope>, id: int)
    ensures Count(a + b, id) == Count(a, id) + Count(b, id)
  {
    FilterAppend(HasId(id), a, b);
  }

  lemma {:induction false} CountOne(e: Envelope, id: int)
    ensures Count([e], id) == if e.id == id then 1 else 0
  {
    assert Filter(HasId(id), [e][..0]) == [];
    assert HasId(id)(e) <==> e.id == id;
  }

  lemma {:induction false} CountPermutation(a: seq<Envelope>, b: seq<Envelope>, id: int)
    requires multiset(a) == multiset(b)
    ensures Count(a, id) == Count(b, id)
  {
    FilterPermutation(HasId(id), a, b);
    SameLength(Filter(HasId(id), a), Filter(HasId(id), b));
  }

  lemma {:induction false} CountMember(rows: seq<Envelope>, e: Envelope)
    requires e in rows
    ensures Count(rows, e.id) >= 1
  {
    FilterMembers(HasId(e.id), rows);
    assert e in Filter(HasId(e.id), rows);
  }

  lemma {:induction false} CountWitness(rows: seq<Envelope>, id: int) returns (e: Envelope)
    requires Count(rows, id) >= 1
    ensures e in rows && e.id == id
  {
    FilterMembers(HasId(id), rows);
    e := Filter(HasId(id), rows)[0];
    assert e in Filter(HasId(id), rows);
  }

  lemma {:induction false} FlattenAppend(a: seq<seq<Envelope>>, b: seq<seq<Envelope>>)
    ensures Flatten(a + b) == Flatten(a) + Flatten(b)
    decreases |b|
  {
    if |b| == 0 {
      assert a + b == a;
    } else {
      FlattenAppend(a, b[..|b| - 1]);
      assert (a + b)[..|a + b| - 1] == a + b[..|b| - 1];
    }
  }

  lemma {:induction false} FlattenOne(g: seq<Envelope>)
    ensures Flatten([g]) == g
  {
    assert [g][..0] == [];
  }

  /** The file of the first group comes first. */
  lemma {:induction false} FlattenHead(groups: seq<seq<Envelope>>)
    requires |groups| > 0
    ensures Flatten(groups) == groups[0] + Flatten(groups[1..])
  {
    FlattenAppend([groups[0]], groups[1..]);
    FlattenOne(groups[0]);
    assert groups == [groups[0]] + groups[1..];
  }

  // ---------- What the index holds of a list of rows ----------

  /** No id has rows of two contents, or two rows at all. */
  ghost predicate UniqueIds(rows: seq<Envelope>) {
    forall id :: Count(rows, id) <= 1
  }

  ghost predicate IsEntry(index: Index, e: Envelope, state: Persistence) {
    e.id in index && index[e.id] == Entry(e.identity, state)
  }

  function InState(index: Index, id: int, state: Persistence): nat {
    if id in index && index[id].state == state then 1 else 0
  }

  /** The entries in one state are exactly the rows, one entry a row. */
  ghost predicate Holds(index: Index, rows: seq<Envelope>, state: Persistence) {
    && (forall e :: e in rows ==> IsEntry(index, e, state))
    && (forall id :: Count(rows, id) == InState(index, id, state))
  }

  lemma {:induction false} HoldsPermutation(index: Index, a: seq<Envelope>, b: seq<Envelope>, state: Persistence)
    requires Holds(index, a, state) && multiset(a) == multiset(b)
    ensures Holds(index, b, state)
  {
    forall e | e in b ensures IsEntry(index, e, state) {
      assert e in multiset(b);
    }
    forall id ensures Count(b, id) == InState(index, id, state) {
      CountPermutation(a, b, id);
    }
  }

  /** A new entry: one more row in its state, the other state untouched. */
  lemma {:induction false} HoldsInsert(index: Index, rows: seq<Envelope>, state: Persistence, e: Envelope,
                                       entered: Persistence)
    requires Holds(index, rows, state) && e.id !in index
    ensures Holds(index[e.id := Entry(e.identity, entered)], if state == entered then rows + [e] else rows, state)
  {
    var more := index[e.id := Entry(e.identity, entered)];
    assert forall x :: x in rows ==> IsEntry(index, x, state) && IsEntry(more, x, state);
    forall id ensures Count(if state == entered then rows + [e] else rows, id) == InState(more, id, state) {
      CountAppend(rows, [e], id);
      CountOne(e, id);
      assert Count(rows, id) == InState(index, id, state);
    }
  }

  /** Deleting a pending entry takes away its row. */
  lemma {:induction false} HoldsDelete(index: Index, rows: seq<Envelope>, e: Envelope, others: seq<Envelope>)
    requires Holds(index, rows + [e], PENDING) && Holds(index, others, COMMITTED)
    ensures IsEntry(index, e, PENDING)
    ensures Holds(index - {e.id}, rows, PENDING) && Holds(index - {e.id}, others, COMMITTED)
  {
    assert e in rows + [e];
    forall x | x in rows ensures IsEntry(index - {e.id}, x, PENDING) {
      assert x in rows + [e];
      CountMember(rows, x);
      CountAppend(rows, [e], x.id);
      CountOne(e, x.id);
      assert Count(rows + [e], x.id) == InState(index, x.id, PENDING);
    }
    forall x | x in others ensures IsEntry(index - {e.id}, x, COMMITTED) {
      assert IsEntry(index, x, COMMITTED);
    }
    forall id
      ensures Count(rows, id) == InState(index - {e.id}, id, PENDING)
      ensures Count(others, id) == InState(index - {e.id}, id, COMMITTED)
    {
      CountAppend(rows, [e], id);
      CountOne(e, id);
      assert Count(rows + [e], id) == InState(index, id, PENDING);
      assert Count(others, id) == InState(index, id, COMMITTED);
    }
  }

  // ---------- Marking a published file committed ----------

  /** One `UPDATE ... WHERE identity matches AND state = PENDING`; `None` when no row matches. */
  function MarkRow(index: Index, e: Envelope): Option<Index> {
    if e.id in index && index[e.id] == Entry(e.identity, PENDING)
    then Some(index[e.id := Entry(e.identity, COMMITTED)]) else None
  }

  function MarkRows(index: Index, rows: seq<Envelope>): Option<Index> {
    if |rows| == 0 then Some(index)
    else
      var before := MarkRows(index, rows[..|rows| - 1]);
      if before.None? then None else MarkRow(before.value, rows[|rows| - 1])
  }

  /** Marking one outstanding row moves it from the pending rows to the committed ones. */
  lemma {:induction false} MarkOne(index: Index, e: Envelope, pending: seq<Envelope>, committed: seq<Envelope>)
    requires Holds(index, [e] + pending, PENDING) && Holds(index, committed, COMMITTED)
    ensures MarkRow(index, e).Some?
    ensures Holds(MarkRow(index, e).value, pending, PENDING)
              && Holds(MarkRow(index, e).value, committed + [e], COMMITTED)
  {
    assert e in [e] + pending;
    var marked := MarkRow(index, e).value;
    forall x | x in pending ensures IsEntry(marked, x, PENDING) {
      assert x in [e] + pending;
      CountMember(pending, x);
      CountAppend([e], pending, x.id);
      CountOne(e, x.id);
      assert Count([e] + pending, x.id) == InState(index, x.id, PENDING);
    }
    forall x | x in committed ensures IsEntry(marked, x, COMMITTED) {
      assert IsEntry(index, x, COMMITTED);
    }
    forall id
      ensures Count(pending, id) == InState(marked, id, PENDING)
      ensures Count(committed + [e], id) == InState(marked, id, COMMITTED)
    {
      CountAppend([e], pending, id);
      CountAppend(committed, [e], id);
      CountOne(e, id);
      assert Count([e] + pending, id) == InState(index, id, PENDING);
      assert Count(committed, id) == InState(index, id, COMMITTED);
    }
  }

  /** A reservation cannot disappear: marking outstanding rows always succeeds. */
  lemma {:induction false} MarkingSucceeds(index: Index, rows: seq<Envelope>, pending: seq<Envelope>,
                                           committed: seq<Envelope>)
    requires Holds(index, rows + pending, PENDING) && Holds(index, committed, COMMITTED)
    ensures MarkRows(index, rows).Some?
    ensures var marked := MarkRows(index, rows).value;
            Holds(marked, pending, PENDING) && Holds(marked, committed + rows, COMMITTED)
    decreases |rows|
  {
    hide Holds, MarkRow;
    if |rows| == 0 {
      assert rows + pending == pending && committed + rows == committed;
    } else {
      var n := |rows| - 1;
      assert rows + pending == rows[..n] + ([rows[n]] + pending);
      MarkingSucceeds(index, rows[..n], [rows[n]] + pending, committed);
      MarkOne(MarkRows(index, rows[..n]).value, rows[n], pending, committed + rows[..n]);
      assert committed + rows[..n] + [rows[n]] == committed + rows;
    }
  }

  ghost predicate AllReserved(index: Index, rows: seq<Envelope>) {
    && (forall e :: e in rows ==> IsEntry(index, e, PENDING))
    && forall i, j :: 0 <= i < j < |rows| ==> rows[i].id != rows[j].id
  }

  /** The index after exactly the entries of the rows were committed. */
  ghost predicate Committed(index: Index, rows: seq<Envelope>, marked: Index) {
    && (forall e :: e in rows ==> IsEntry(marked, e, COMMITTED))
    && marked.Keys == index.Keys
    && forall id :: id in index && (forall e :: e in rows ==> e.id != id) ==> marked[id] == index[id]
  }

  /** Marking succeeds only if every row still has a reservation of its own content, and commits just these. */
  lemma {:induction false} MarkRowsIff(index: Index, rows: seq<Envelope>)
    ensures MarkRows(index, rows).Some? <==> AllReserved(index, rows)
    ensures AllReserved(index, rows) ==> Committed(index, rows, MarkRows(index, rows).value)
  {
    if |rows| > 0 {
      var before, last := rows[..|rows| - 1], rows[|rows| - 1];
      hide AllReserved, Committed, IsEntry, MarkRow;
      MarkRowsIff(index, before);
      LastReserved(index, rows);
      assert rows == before + [last];
      if MarkRows(index, before).Some? {
        LastMarked(index, before, last, MarkRows(index, before).value);
      }
    }
  }

  lemma {:induction false} LastMarked(index: Index, before: seq<Envelope>, last: Envelope, marked: Index)
    requires Committed(index, before, marked)
    ensures MarkRow(marked, last).Some?
            <==> IsEntry(index, last, PENDING) && forall e :: e in before ==> e.id != last.id
    ensures MarkRow(marked, last).Some? ==> Committed(index, before + [last], MarkRow(marked, last).value)
  {
    assert forall e :: e in before + [last] <==> e in before || e == last;
    if e :| e in before && e.id == last.id {
      assert IsEntry(marked, e, COMMITTED);
    }
  }

  lemma {:induction false} LastReserved(index: Index, rows: seq<Envelope>)
    requires |rows| > 0
    ensures var before, last := rows[..|rows| - 1], rows[|rows| - 1];
            AllReserved(index, rows)
            <==> && AllReserved(index, before) && IsEntry(index, last, PENDING)
                 && forall e :: e in before ==> e.id != last.id
  {
    hide IsEntry;
    var before, last := rows[..|rows| - 1], rows[|rows| - 1];
    assert forall e :: e in rows <==> e in before || e == last;
    assert forall i :: 0 <= i < |before| ==> before[i] in before;
  }

  /** Delete every pending entry. */
  function RolledBack(index: Index): Index {
    map id | id in index && index[id].state == COMMITTED :: index[id]
  }

  lemma {:induction false} RollbackKeepsCommitted(index: Index, committed: seq<Envelope>)
    requires Holds(index, committed, COMMITTED)
    ensures Holds(RolledBack(index), committed, COMMITTED) && Holds(RolledBack(index), [], PENDING)
  {
    forall x | x in committed ensures IsEntry(RolledBack(index), x, COMMITTED) {
      assert IsEntry(index, x, COMMITTED);
    }
    forall id
      ensures Count(committed, id) == InState(RolledBack(index), id, COMMITTED)
      ensures InState(RolledBack(index), id, PENDING) == 0
    {
      assert Count(committed, id) == InState(index, id, COMMITTED);
    }
    assert forall id :: Count([], id) == 0;
  }

  // ---------- Rebuilding the index from the files ----------

  /** Insert every row as committed; a repeated id violates the primary key. */
  function IndexOf(rows: seq<Envelope>): Result<Index> {
    if |rows| == 0 then Success(map[])
    else
      var before := IndexOf(rows[..|rows| - 1]);
      var last := rows[|rows| - 1];
      if before.Failure? then before
      else if last.id in before.value then Failure("duplicate persisted feature_snapshot_id")
      else Success(before.value[last.id := Entry(last.identity, COMMITTED)])
  }

  /** A tree with files but without rows is refused as well. */
  function Rebuild(disk: seq<seq<Envelope>>): Result<Index> {
    var index := IndexOf(Flatten(disk));
    if index.Success? && |disk| > 0 && |Flatten(disk)| == 0 then Failure("feature tree contains no feature rows")
    else index
  }

  /** The rebuilt index is exactly the map of the rows, and exists exactly when their ids are unique. */
  lemma {:induction false} IndexOfIsRowMap(rows: seq<Envelope>)
    ensures IndexOf(rows).Success? <==> UniqueIds(rows)
    ensures IndexOf(rows).Success? ==>
              Holds(IndexOf(rows).value, rows, COMMITTED) && Holds(IndexOf(rows).value, [], PENDING)
  {
    if |rows| == 0 {
      assert forall id :: Count(rows, id) == 0;
    } else {
      var n := |rows| - 1;
      assert rows == rows[..n] + [rows[n]];
      IndexOfIsRowMap(rows[..n]);
      UniquePrefix(rows[..n], rows[n]);
      var before := IndexOf(rows[..n]);
      if before.Success? {
        assert Count(rows[..n], rows[n].id) == InState(before.value, rows[n].id, COMMITTED);
        assert Count([], rows[n].id) == InState(before.value, rows[n].id, PENDING);
        hide Count, IndexOf;
        if rows[n].id !in before.value {
          HoldsInsert(before.value, rows[..n], COMMITTED, rows[n], COMMITTED);
          HoldsInsert(before.value, [], PENDING, rows[n], COMMITTED);
        }
      }
    }
  }

  lemma {:induction false} UniquePrefix(rows: seq<Envelope>, e: Envelope)
    ensures UniqueIds(rows + [e]) <==> UniqueIds(rows) && Count(rows, e.id) == 0
  {
    forall id ensures Count(rows + [e], id) == Count(rows, id) + (if e.id == id then 1 else 0) {
      CountAppend(rows, [e], id);
      CountOne(e, id);
    }
    if UniqueIds(rows + [e]) {
      forall id ensures Count(rows, id) <= 1 {
        assert Count(rows + [e], id) <= 1;
      }
      assert Count(rows + [e], e.id) <= 1;
    }
  }

  // ---------- Grouping a batch by partition ----------

  function InPartition(partition: int): Envelope -> bool {
    (e: Envelope) => e.partition == partition
  }

  ghost function InSome(keys: seq<int>): Envelope -> bool {
    (e: Envelope) => e.partition in keys
  }

  function InsertKey(keys: seq<int>, key: int): seq<int> {
    if |keys| == 0 || keys[|keys| - 1] < key then keys + [key]
    else if keys[|keys| - 1] == key then keys
    else InsertKey(keys[..|keys| - 1], key) + [keys[|keys| - 1]]
  }

  /** `sorted(grouped)`: the partitions of the rows, ascending and each once. */
  function Partitions(rows: seq<Envelope>): seq<int> {
    if |rows| == 0 then [] else InsertKey(Partitions(rows[..|rows| - 1]), rows[|rows| - 1].partition)
  }

  function GroupsBy(rows: seq<Envelope>, keys: seq<int>): seq<seq<Envelope>> {
    Map((key: int) => Filter(InPartition(key), rows), keys)
  }

  /** The rows of each partition in order of arrival, by ascending partition. */
  function Groups(rows: seq<Envelope>): seq<seq<Envelope>> {
    GroupsBy(rows, Partitions(rows))
  }

  ghost predicate PartitionsRise(keys: seq<int>) {
    forall i, j :: 0 <= i < j < |keys| ==> keys[i] < keys[j]
  }

  lemma {:induction false} InsertKeyAscends(keys: seq<int>, key: int)
    requires PartitionsRise(keys)
    ensures PartitionsRise(InsertKey(keys, key))
    ensures forall k :: k in InsertKey(keys, key) <==> k in keys || k == key
  {
    if |keys| > 0 && keys[|keys| - 1] >= key {
      var n := |keys| - 1;
      assert keys == keys[..n] + [keys[n]];
      InsertKeyAscends(keys[..n], key);
      var inserted := InsertKey(keys[..n], key);
      forall i | 0 <= i < |inserted| ensures keys[n] == key || inserted[i] < keys[n] {
        assert inserted[i] in inserted;
      }
    }
  }

  lemma {:induction false} PartitionsAreThose(rows: seq<Envelope>)
    ensures PartitionsRise(Partitions(rows))
    ensures forall k :: k in Partitions(rows) <==> exists e :: e in rows && e.partition == k
  {
    if |rows| > 0 {
      var n := |rows| - 1;
      PartitionsAreThose(rows[..n]);
      InsertKeyAscends(Partitions(rows[..n]), rows[n].partition);
      assert rows == rows[..n] + [rows[n]];
    }
  }

  lemma {:induction false} GroupsByPermute(rows: seq<Envelope>, keys: seq<int>)
    requires PartitionsRise(keys)
    ensures multiset(Flatten(GroupsBy(rows, keys))) == multiset(Filter(InSome(keys), rows))
    decreases |keys|
  {
    if |keys| == 0 {
      FilterNone(InSome(keys), rows);
    } else {
      var n := |keys| - 1;
      var groups := GroupsBy(rows, keys);
      GroupsByPermute(rows, keys[..n]);
      assert groups[..n] == GroupsBy(rows, keys[..n]);
      assert keys == keys[..n] + [keys[n]];
      FilterSplit(InSome(keys[..n]), InPartition(keys[n]), InSome(keys), rows);
    }
  }

  /** Grouping loses and invents no row. */
  lemma {:induction false} GroupsPermute(rows: seq<Envelope>)
    ensures multiset(Flatten(Groups(rows))) == multiset(rows)
  {
    PartitionsAreThose(rows);
    GroupsByPermute(rows, Partitions(rows));
    FilterAll(InSome(Partitions(rows)), rows);
  }

  ghost predicate NoneEmpty(groups: seq<seq<Envelope>>) {
    forall i :: 0 <= i < |groups| ==> |groups[i]| > 0
  }

  /** Every group is a non-empty file of one partition, and the partitions ascend. */
  lemma {:induction false} GroupsArePartitions(rows: seq<Envelope>)
    ensures NoneEmpty(Groups(rows)) && |Groups(rows)| == |Partitions(rows)| && PartitionsRise(Partitions(rows))
    ensures forall i, e :: 0 <= i < |Groups(rows)| && e in Groups(rows)[i] ==>
              e in rows && e.partition == Partitions(rows)[i]
  {
    PartitionsAreThose(rows);
    var keys, groups := Partitions(rows), Groups(rows);
    forall i | 0 <= i < |groups|
      ensures |groups[i]| > 0 && forall e :: e in groups[i] ==> e in rows && e.partition == keys[i]
    {
      FilterMembers(InPartition(keys[i]), rows);
      assert keys[i] in keys;
      var e :| e in rows && e.partition == keys[i];
      assert e in groups[i];
    }
  }
}
