/**
 Compaction of a raw tree: the audit that ignores files and order, the chunking loop, and the
 order in which sentinel, files and manifest appear in the output.
 */
module Compaction {
  import opened Common
  import opened Sequences
  import L = Lineage

  datatype Partition = Partition(date: string, exchange: string, symbol: string, channel: string)

  datatype Row = Row(recordId: string, partition: Partition, schemaVersion: int, payloadReference: string,
                     payload: seq<char>, body: string)

  /** A Parquet file lies in the directory of one partition. */
  datatype File = File(partition: Partition, rows: seq<Row>)

  const JOURNAL_CHANNEL := "_normalized_event"

  /** SHA-256 of a row, left uninterpreted. */
  type RowHash = Row -> L.Digest

  // ---------- The audit as a function of the rows ----------

  datatype LogicalAudit = LogicalAudit(rows: nat, uniqueRecordIds: nat, contentDigest: L.Digest,
                                       payloadBytes: nat, partitions: nat)

  function AllRows(files: seq<File>): seq<Row> {
    if |files| == 0 then [] else AllRows(files[..|files| - 1]) + files[|files| - 1].rows
  }

  function DigestSum(rows: seq<Row>, hash: RowHash): L.Digest {
    if |rows| == 0 then 0 else L.Plus(DigestSum(rows[..|rows| - 1], hash), hash(rows[|rows| - 1]))
  }

  function PayloadSum(rows: seq<Row>): nat {
    if |rows| == 0 then 0 else PayloadSum(rows[..|rows| - 1]) + |rows[|rows| - 1].payload|
  }

  function RecordIds(rows: seq<Row>): set<string> {
    set r | r in rows :: r.recordId
  }

  function PartitionsOf(rows: seq<Row>): set<Partition> {
    set r | r in rows :: r.partition
  }

  predicate RowValid(r: Row, directory: Partition) {
    && r.schemaVersion == 1 && r.payloadReference == "raw://" + r.recordId
    && |r.payload| > 0 && r.partition == directory
  }

  ghost predicate FileValid(f: File) {
    forall r :: r in f.rows ==> RowValid(r, f.partition)
  }

  ghost predicate TreeValid(files: seq<File>) {
    forall i :: 0 <= i < |files| ==> FileValid(files[i])
  }

  ghost predicate UniqueRecords(rows: seq<Row>) {
    |RecordIds(rows)| == |rows|
  }

  ghost function AuditOf(files: seq<File>, hash: RowHash): Option<LogicalAudit> {
    var rows := AllRows(files);
    if TreeValid(files) && UniqueRecords(rows)
    then Some(LogicalAudit(|rows|, |rows|, DigestSum(rows, hash), PayloadSum(rows), |PartitionsOf(rows)|))
    else None
  }

  // ---------- The audit does not depend on order or file boundaries ----------

  function DigestLeaf(hash: RowHash): Row -> L.Leaf {
    (r: Row) => L.Leaf(0, hash(r))
  }

  lemma {:induction false} DigestIsLineage(rows: seq<Row>, hash: RowHash)
    ensures DigestSum(rows, hash) == L.LineageOf(Map(DigestLeaf(hash), rows)).digestSum
  {
    hide L.Plus, L.Xor, L.NoBits, L.Bits;
    if |rows| > 0 {
      var n := |rows| - 1;
      DigestIsLineage(rows[..n], hash);
      assert Map(DigestLeaf(hash), rows)[..n] == Map(DigestLeaf(hash), rows[..n]);
    }
  }

  lemma {:induction false} DigestPermutation(a: seq<Row>, b: seq<Row>, hash: RowHash)
    requires multiset(a) == multiset(b)
    ensures DigestSum(a, hash) == DigestSum(b, hash)
  {
    hide L.LineageOf;
    DigestIsLineage(a, hash);
    DigestIsLineage(b, hash);
    MapPermutation(DigestLeaf(hash), a, b);
    L.LineageIsOrderFree(Map(DigestLeaf(hash), a), Map(DigestLeaf(hash), b));
  }

  lemma {:induction false} PayloadAppend(a: seq<Row>, b: seq<Row>)
    ensures PayloadSum(a + b) == PayloadSum(a) + PayloadSum(b)
    decreases |b|
  {
    if |b| == 0 {
      assert a + b == a;
    } else {
      PayloadAppend(a, b[..|b| - 1]);
      assert (a + b)[..|a + b| - 1] == a + b[..|b| - 1];
    }
  }

  /** Digest and payload size of a tree are put together from those of its rows. */
  lemma {:induction false} AuditIsAdditive(a: seq<Row>, b: seq<Row>, r: Row, hash: RowHash)
    ensures PayloadSum(a + b) == PayloadSum(a) + PayloadSum(b) && PayloadSum([r]) == |r.payload|
    ensures DigestSum([r], hash) == hash(r) && DigestSum(a + [r], hash) == L.Plus(DigestSum(a, hash), hash(r))
  {
    PayloadAppend(a, b);
    assert [r][..0] == [] && (a + [r])[..|a|] == a;
    L.SumUndone(0, hash(r));
  }

  lemma {:induction false} PayloadPermutation(a: seq<Row>, b: seq<Row>)
    requires multiset(a) == multiset(b)
    ensures PayloadSum(a) == PayloadSum(b)
    decreases |a|
  {
    SameLength(a, b);
    if |a| > 0 {
      var k := MatchLast(a, b);
      PayloadPermutation(a[..|a| - 1], b[..k] + b[k + 1..]);
      PayloadAppend(b[..k], b[k + 1..]);
      PayloadAppend(b[..k] + [b[k]], b[k + 1..]);
      PayloadAppend(b[..k], [b[k]]);
      assert [b[k]][..0] == [];
    }
  }

  /** Two trees of the same rows have the same audit. */
  lemma {:induction false} AuditIsOrderFree(a: seq<File>, b: seq<File>, hash: RowHash)
    requires multiset(AllRows(a)) == multiset(AllRows(b)) && TreeValid(a) && TreeValid(b)
    ensures AuditOf(a, hash) == AuditOf(b, hash)
  {
    var x, y := AllRows(a), AllRows(b);
    hide AllRows, DigestSum, PayloadSum;
    SameLength(x, y);
    DigestPermutation(x, y, hash);
    PayloadPermutation(x, y);
    assert forall r :: r in x <==> r in multiset(x);
    assert forall r :: r in y <==> r in multiset(y);
    assert RecordIds(x) == RecordIds(y) && PartitionsOf(x) == PartitionsOf(y);
  }

  lemma {:induction false} AllRowsAppend(a: seq<File>, f: File)
    ensures AllRows(a + [f]) == AllRows(a) + f.rows
  {
    assert (a + [f])[..|a|] == a;
  }

  // ---------- What passes the audit ----------

  ghost predicate NoRecordTwice(rows: seq<Row>) {
    forall j, k :: 0 <= j < k < |rows| ==> rows[j].recordId != rows[k].recordId
  }

  ghost predicate RowsAreSound(files: seq<File>) {
    forall i, r :: 0 <= i < |files| && r in files[i].rows ==>
      && r.schemaVersion == 1 && r.payloadReference == "raw://" + r.recordId && r.payload != ""
      && r.partition == files[i].partition
  }

  /** A tree passes exactly if every row is sound, lies in its partition and is the only one of its record id. */
  lemma {:induction false} AuditAcceptsIff(files: seq<File>, hash: RowHash)
    ensures AuditOf(files, hash).Some? <==> RowsAreSound(files) && NoRecordTwice(AllRows(files))
  {
    hide AllRows, DigestSum, PayloadSum, PartitionsOf, UniqueRecords, TreeValid, RowsAreSound, NoRecordTwice;
    UniqueIff(AllRows(files));
    TreeValidIff(files);
  }

  lemma {:induction false} UniqueIff(rows: seq<Row>)
    ensures |RecordIds(rows)| <= |rows|
    ensures UniqueRecords(rows) <==> NoRecordTwice(rows)
  {
    hide RecordIds, NoRecordTwice;
    NoRows();
    if |rows| > 0 {
      var n := |rows| - 1;
      UniqueIff(rows[..n]);
      LastRecord(rows);
    }
  }

  lemma {:induction false} NoRows()
    ensures RecordIds([]) == {} && NoRecordTwice([])
  {
  }

  lemma {:induction false} LastRecord(rows: seq<Row>)
    requires |rows| > 0
    ensures var n := |rows| - 1;
            && RecordIds(rows) == RecordIds(rows[..n]) + {rows[n].recordId}
            && (NoRecordTwice(rows) <==> NoRecordTwice(rows[..n]) && rows[n].recordId !in RecordIds(rows[..n]))
  {
    var n := |rows| - 1;
    assert rows[n].recordId in RecordIds(rows[..n])
      <==> exists j :: 0 <= j < n && rows[j].recordId == rows[n].recordId;
  }

  lemma {:induction false} TreeValidIff(files: seq<File>)
    ensures TreeValid(files) <==> RowsAreSound(files)
  {
  }

  // ---------- The chunking loop ----------

  /** A non-empty file of at most `target` rows, all of its own partition. */
  ghost predicate ChunkFits(f: File, target: nat) {
    0 < |f.rows| <= target && forall i :: 0 <= i < |f.rows| ==> f.rows[i].partition == f.partition
  }

  ghost predicate ChunksFit(files: seq<File>, target: nat) {
    forall i :: 0 <= i < |files| ==> ChunkFits(files[i], target)
  }

  /** No chunk is closed early: it is full, or the next one is of another partition. */
  ghost predicate ChunksTight(files: seq<File>, target: nat) {
    forall i :: 0 <= i < |files| - 1 ==> ClosedAt(files, i, target)
  }

  ghost predicate ClosedAt(files: seq<File>, i: nat, target: nat)
    requires i + 1 < |files|
  {
    |files[i].rows| == target || files[i].partition != files[i + 1].partition
  }

  /** The last chunk is full, unless the buffer holds another partition. */
  ghost predicate LastClosed(files: seq<File>, current: Option<Partition>, buffer: seq<Row>, target: nat) {
    |files| > 0 ==>
      var last := files[|files| - 1];
      |last.rows| == target || (buffer != [] && current != Some(last.partition))
  }

  lemma {:induction false} TightWithLast(files: seq<File>, f: File, target: nat)
    requires ChunksTight(files, target)
    requires |files| > 0 ==> |files[|files| - 1].rows| == target || files[|files| - 1].partition != f.partition
    ensures ChunksTight(files + [f], target)
  {
    var more := files + [f];
    forall i | 0 <= i < |more| - 1 ensures ClosedAt(more, i, target) {
      assert i < |files| - 1 ==> ClosedAt(files, i, target);
    }
  }

  /** The rows buffered for the current partition. */
  ghost predicate BufferFits(current: Option<Partition>, buffer: seq<Row>, target: nat) {
    && |buffer| < target && (buffer != [] ==> current.Some?)
    && (current.Some? ==> forall i :: 0 <= i < |buffer| ==> buffer[i].partition == current.value)
  }

  method AddRow(output: seq<File>, current: Option<Partition>, buffer: seq<Row>, row: Row, target: nat)
    returns (output': seq<File>, current': Option<Partition>, buffer': seq<Row>)
    requires target >= 1 && ChunksFit(output, target) && BufferFits(current, buffer, target)
    requires ChunksTight(output, target) && LastClosed(output, current, buffer, target)
    ensures ChunksFit(output', target) && BufferFits(current', buffer', target)
    ensures ChunksTight(output', target) && LastClosed(output', current', buffer', target)
    ensures AllRows(output') + buffer' == AllRows(output) + buffer + [row]
  {
    hide AllRows, ChunksTight;
    output', current', buffer' := output, current, buffer;
    if current'.Some? && row.partition != current'.value && |buffer'| > 0 {
      AllRowsAppend(output', File(current'.value, buffer'));
      TightWithLast(output', File(current'.value, buffer'), target);
      output' := output' + [File(current'.value, buffer')];
      buffer' := [];
    }
    current' := Some(row.partition);
    buffer' := buffer' + [row];
    if |buffer'| >= target {
      AllRowsAppend(output', File(row.partition, buffer'));
      TightWithLast(output', File(row.partition, buffer'), target);
      output' := output' + [File(row.partition, buffer')];
      buffer' := [];
    }
  }

  lemma {:induction false} NoChunks(target: nat)
    ensures ChunksTight([], target)
  {
  }

  /** Chunks of one partition, none over the target or cut short of it, which join to the source row for row. */
  method CompactRows(files: seq<File>, target: nat) returns (output: seq<File>)
    requires target >= 1
    ensures AllRows(output) == AllRows(files) && ChunksFit(output, target) && ChunksTight(output, target)
  {
    hide ChunksTight;
    output := [];
    NoChunks(target);
    var current: Option<Partition>, buffer: seq<Row> := None, [];
    for f := 0 to |files|
      invariant ChunksFit(output, target) && BufferFits(current, buffer, target)
      invariant ChunksTight(output, target) && LastClosed(output, current, buffer, target)
      invariant AllRows(output) + buffer == AllRows(files[..f])
    {
      assert files[..f + 1] == files[..f] + [files[f]];
      AllRowsAppend(files[..f], files[f]);
      hide AllRows, ChunksFit, BufferFits, LastClosed;
      var rows := files[f].rows;
      for k := 0 to |rows|
        invariant ChunksFit(output, target) && BufferFits(current, buffer, target)
        invariant ChunksTight(output, target) && LastClosed(output, current, buffer, target)
        invariant AllRows(output) + buffer == AllRows(files[..f]) + rows[..k]
      {
        assert rows[..k + 1] == rows[..k] + [rows[k]];
        assert AllRows(files[..f]) + rows[..k + 1] == AllRows(files[..f]) + rows[..k] + [rows[k]];
        output, current, buffer := AddRow(output, current, buffer, rows[k], target);
      }
      assert rows[..|rows|] == rows;
    }
    assert files[..|files|] == files;
    if current.Some? && |buffer| > 0 {
      AllRowsAppend(output, File(current.value, buffer));
      TightWithLast(output, File(current.value, buffer), target);
      output := output + [File(current.value, buffer)];
    }
  }

  // ---------- The audit loop ----------

  datatype Totals = Totals(rows: nat, digest: L.Digest, payloadBytes: nat, partitions: set<Partition>,
                           recordIds: set<string>)

  ghost predicate TotalsOf(t: Totals, rows: seq<Row>, hash: RowHash) {
    && t.rows == |rows| && t.digest == DigestSum(rows, hash) && t.payloadBytes == PayloadSum(rows)
    && t.partitions == PartitionsOf(rows) && t.recordIds == RecordIds(rows)
  }

  lemma {:induction false} TotalsStep(t: Totals, rows: seq<Row>, row: Row, hash: RowHash)
    requires TotalsOf(t, rows, hash)
    ensures TotalsOf(Totals(t.rows + 1, L.Plus(t.digest, hash(row)), t.payloadBytes + |row.payload|,
                            t.partitions + {row.partition}, t.recordIds + {row.recordId}), rows + [row], hash)
  {
    hide L.Plus;
    var more := rows + [row];
    assert more[..|rows|] == rows;
    assert forall r :: r in more <==> r in rows || r == row;
    assert PartitionsOf(more) == PartitionsOf(rows) + {row.partition};
    assert RecordIds(more) == RecordIds(rows) + {row.recordId};
  }

  /** Each row adds at most one record id. */
  lemma {:induction false} RecordIdsGrow(a: seq<Row>, b: seq<Row>)
    ensures |RecordIds(a + b)| <= |RecordIds(a)| + |b| && |RecordIds(a)| <= |a|
    ensures UniqueRecords(a + b) ==> UniqueRecords(a)
    decreases |a| + |b|
  {
    if |b| > 0 {
      var n := |b| - 1;
      RecordIdsGrow(a, b[..n]);
      assert RecordIds(a + b) == RecordIds(a + b[..n]) + {b[n].recordId} by {
        assert a + b == a + b[..n] + [b[n]];
      }
    } else {
      assert a + b == a;
      if |a| > 0 {
        RecordIdsGrow(a[..|a| - 1], []);
        assert a[..|a| - 1] + [] == a[..|a| - 1];
        assert RecordIds(a) == RecordIds(a[..|a| - 1]) + {a[|a| - 1].recordId} by {
          assert a == a[..|a| - 1] + [a[|a| - 1]];
        }
      }
    }
  }

  /** All ids of a batch are new exactly when the rows so far stay unique. */
  lemma {:induction false} InsertedCount(before: Totals, after: Totals, seen: seq<Row>, batch: seq<Row>, hash: RowHash)
    requires TotalsOf(before, seen, hash) && TotalsOf(after, seen + batch, hash) && UniqueRecords(seen)
    ensures |after.recordIds| - |before.recordIds| == |batch| <==> UniqueRecords(seen + batch)
  {
    hide DigestSum, PayloadSum;
  }

  /** One batch of a file: every row checked, then the record ids inserted all at once. */
  method AuditBatch(t: Totals, ghost seen: seq<Row>, batch: seq<Row>, directory: Partition, hash: RowHash)
    returns (r: Option<Totals>)
    requires TotalsOf(t, seen, hash) && UniqueRecords(seen)
    ensures r.Some? <==> (forall x :: x in batch ==> RowValid(x, directory)) && UniqueRecords(seen + batch)
    ensures r.Some? ==> TotalsOf(r.value, seen + batch, hash)
  {
    hide TotalsOf, L.Plus, DigestSum, PayloadSum, UniqueRecords;
    var total := t;
    assert seen + batch[..0] == seen;
    for k := 0 to |batch|
      invariant TotalsOf(total, seen + batch[..k], hash)
      invariant forall x :: x in batch[..k] ==> RowValid(x, directory)
    {
      var row := batch[k];
      TotalsStep(total, seen + batch[..k], row, hash);
      assert seen + batch[..k + 1] == seen + batch[..k] + [row];
      assert batch[..k + 1] == batch[..k] + [row];
      if !RowValid(row, directory) {
        assert row in batch;
        return None;
      }
      total := Totals(total.rows + 1, L.Plus(total.digest, hash(row)), total.payloadBytes + |row.payload|,
                      total.partitions + {row.partition}, total.recordIds + {row.recordId});
    }
    assert batch[..|batch|] == batch;
    InsertedCount(t, total, seen, batch, hash);
    var inserted := |total.recordIds| - |t.recordIds|;
    if inserted != |batch| {
      return None;
    }
    return Some(total);
  }

  method AuditFile(t: Totals, ghost seen: seq<Row>, file: File, batchRows: nat, hash: RowHash)
    returns (r: Option<Totals>)
    requires TotalsOf(t, seen, hash) && UniqueRecords(seen) && batchRows >= 1
    ensures r.Some? <==> FileValid(file) && UniqueRecords(seen + file.rows)
    ensures r.Some? ==> TotalsOf(r.value, seen + file.rows, hash)
  {
    hide TotalsOf, UniqueRecords, RowValid;
    var total, offset := t, 0;
    assert seen + file.rows[..0] == seen;
    while offset < |file.rows|
      invariant offset <= |file.rows| && TotalsOf(total, seen + file.rows[..offset], hash)
      invariant UniqueRecords(seen + file.rows[..offset])
      invariant forall x :: x in file.rows[..offset] ==> RowValid(x, file.partition)
    {
      var end := if offset + batchRows < |file.rows| then offset + batchRows else |file.rows|;
      var audited := AuditBatch(total, seen + file.rows[..offset], file.rows[offset..end], file.partition, hash);
      BatchJoins(seen, file.rows, offset, end);
      if audited.None? {
        return None;
      }
      total := audited.value;
      offset := end;
    }
    assert file.rows[..|file.rows|] == file.rows;
    return Some(total);
  }

  lemma {:induction false} BatchJoins(seen: seq<Row>, rows: seq<Row>, offset: nat, end: nat)
    requires offset <= end <= |rows|
    ensures seen + rows[..offset] + rows[offset..end] == seen + rows[..end]
    ensures forall x :: x in rows[..end] <==> x in rows[..offset] || x in rows[offset..end]
    ensures forall x :: x in rows[offset..end] ==> x in rows
    ensures UniqueRecords(seen + rows) ==> UniqueRecords(seen + rows[..end])
  {
    assert rows[..end] == rows[..offset] + rows[offset..end];
    assert seen + rows == seen + rows[..end] + rows[end..];
    RecordIdsGrow(seen + rows[..end], rows[end..]);
  }

  /** The audit over files and batches is the audit of the rows. */
  method AuditRawTree(files: seq<File>, batchRows: nat, hash: RowHash) returns (r: Option<LogicalAudit>)
    requires batchRows >= 1
    ensures r == AuditOf(files, hash)
  {
    var total := Totals(0, 0, 0, {}, {});
    assert RecordIds([]) == {} && PartitionsOf([]) == {};
    for f := 0 to |files|
      invariant TotalsOf(total, AllRows(files[..f]), hash) && UniqueRecords(AllRows(files[..f]))
      invariant TreeValid(files[..f])
    {
      var audited := AuditFile(total, AllRows(files[..f]), files[f], batchRows, hash);
      hide TotalsOf, AllRows, DigestSum, PayloadSum;
      FileJoins(files, f);
      if audited.None? {
        return None;
      }
      total := audited.value;
    }
    assert files[..|files|] == files;
    return Some(LogicalAudit(total.rows, total.rows, total.digest, total.payloadBytes, |total.partitions|));
  }

  lemma {:induction false} FileJoins(files: seq<File>, f: nat)
    requires f < |files|
    ensures AllRows(files[..f + 1]) == AllRows(files[..f]) + files[f].rows
    ensures UniqueRecords(AllRows(files)) ==> UniqueRecords(AllRows(files[..f + 1]))
  {
    assert files[..f + 1] == files[..f] + [files[f]];
    AllRowsAppend(files[..f], files[f]);
    var rest := RowsBehind(files, f + 1);
    RecordIdsGrow(AllRows(files[..f + 1]), rest);
  }

  lemma {:induction false} RowsBehind(files: seq<File>, f: nat) returns (rest: seq<Row>)
    requires f <= |files|
    ensures AllRows(files) == AllRows(files[..f]) + rest
    decreases |files|
  {
    if f == |files| {
      rest := [];
      assert files[..f] == files;
    } else {
      var n := |files| - 1;
      rest := RowsBehind(files[..n], f);
      assert files[..n][..f] == files[..f];
      rest := rest + files[n].rows;
    }
  }

  // ---------- What a tree shows to the replay ----------

  /** `audit` and the journal figures are those of a `CLEAN_END` manifest. */
  datatype Manifest = Manifest(cleanEnd: bool, audit: Option<LogicalAudit>, eventCount: nat, timelineEnd: int)

  /**
   The channels of directories that hold no file, temporary files, the manifest with its
   temporary, and the sentinel of an unfinished compaction.
   */
  datatype Tree = Tree(files: seq<File>, empty: set<string>, temporaries: bool, manifest: Option<Manifest>,
                       manifestTemporary: bool, sentinel: bool)

  /** Event count and end of the journal rows, or an error; it reads the rows in receive order. */
  type JournalAudit = multiset<Row> -> Option<(nat, int)>

  /** Some directory of the tree is one of the journal channel, with files or without. */
  predicate HasJournal(t: Tree) {
    JOURNAL_CHANNEL in t.empty || exists i :: 0 <= i < |t.files| && t.files[i].partition.channel == JOURNAL_CHANNEL
  }

  /** `inspect_collection_evidence(tree).any`. */
  predicate HasEvidence(t: Tree) {
    HasJournal(t) || t.manifest.Some? || t.manifestTemporary || t.sentinel
  }

  ghost predicate ValidatesClean(t: Tree, hash: RowHash, journal: JournalAudit) {
    && !t.temporaries && !t.manifestTemporary && !t.sentinel
    && t.manifest.Some? && t.manifest.value.cleanEnd
    && AuditOf(t.files, hash).Some? && t.manifest.value.audit == AuditOf(t.files, hash)
    && journal(multiset(AllRows(t.files))) == Some((t.manifest.value.eventCount, t.manifest.value.timelineEnd))
  }

  datatype Mode = RAW | JOURNAL

  /** What `AUTO` replay does with a tree; `None` when it raises. */
  ghost function ResolveAuto(t: Tree, hash: RowHash, journal: JournalAudit): Option<Mode> {
    if !HasEvidence(t) then Some(RAW)
    else if ValidatesClean(t, hash, journal) then Some(JOURNAL)
    else None
  }

  /** The whole decision on what lies in the tree. */
  lemma {:induction false} AutoDecides(t: Tree, hash: RowHash, journal: JournalAudit)
    ensures ResolveAuto(t, hash, journal) == Some(RAW) <==>
              && t.manifest.None? && !t.manifestTemporary && !t.sentinel && JOURNAL_CHANNEL !in t.empty
              && forall i :: 0 <= i < |t.files| ==> t.files[i].partition.channel != JOURNAL_CHANNEL
    ensures ResolveAuto(t, hash, journal) == Some(JOURNAL) <==>
              && t.manifest.Some? && !t.temporaries && !t.manifestTemporary && !t.sentinel
              && t.manifest.value.cleanEnd && t.manifest.value.audit.Some?
              && AuditOf(t.files, hash) == t.manifest.value.audit
              && journal(multiset(AllRows(t.files)))
                 == Some((t.manifest.value.eventCount, t.manifest.value.timelineEnd))
  {
    hide AuditOf, AllRows;
  }

  /** Behind a clean manifest other files are refused unless they agree with it in every figure. */
  lemma {:induction false} AlteredTreeIsRefused(t: Tree, files: seq<File>, hash: RowHash, journal: JournalAudit)
    requires ResolveAuto(t, hash, journal) == Some(JOURNAL)
    ensures var altered := ResolveAuto(t.(files := files), hash, journal);
            altered.Some? ==>
              && altered == Some(JOURNAL) && |AllRows(files)| == |AllRows(t.files)|
              && DigestSum(AllRows(files), hash) == DigestSum(AllRows(t.files), hash)
              && PayloadSum(AllRows(files)) == PayloadSum(AllRows(t.files))
              && |PartitionsOf(AllRows(files))| == |PartitionsOf(AllRows(t.files))|
              && journal(multiset(AllRows(files))) == journal(multiset(AllRows(t.files)))
  {
    hide HasJournal, AllRows, DigestSum, PayloadSum, PartitionsOf, TreeValid, UniqueRecords;
  }

  // ---------- The lifecycle of a compaction ----------

  datatype Job = Job(source: Tree, chunks: seq<File>, target: nat, hash: RowHash, journal: JournalAudit)
  {
    predicate Clean() {
      HasEvidence(source)
    }

    /** The source passed the checks in front, and the chunks are what the loop makes of it. */
    ghost predicate Admitted() {
      && (Clean() ==> ValidatesClean(source, hash, journal))
      && AuditOf(source.files, hash).Some?
      && AllRows(chunks) == AllRows(source.files) && ChunksFit(chunks, target)
      && ChunksTight(chunks, target)
    }
  }

  /**
   `Writing(done, temporary)`: the sentinel stands, `done` chunks are in place, and the next may
   lie beside them as a temporary file. `Audited`: the same for the preserved manifest.
   */
  datatype Stage =
    | Absent
    | Made
    | Writing(done: nat, temporary: bool)
    | Audited(temporary: bool, preserved: bool)
    | Failed
    | Finished

  ghost function Advance(job: Job, stage: Stage): Stage {
    match stage
    case Absent => Made
    case Made => Writing(0, false)
    case Writing(done, temporary) =>
      if temporary then Writing(done + 1, false)
      else if done < |job.chunks| then Writing(done, true)
      else if AuditOf(job.chunks, job.hash) == AuditOf(job.source.files, job.hash) then Audited(false, false)
      else Failed
    case Audited(temporary, preserved) =>
      if !job.Clean() || preserved then Finished
      else if temporary then Audited(false, true)
      else if job.source.manifest.Some? && job.source.manifest.value.audit == AuditOf(job.chunks, job.hash)
      then Audited(true, false)
      else Failed
    case Failed => Failed
    case Finished => Finished
  }

  /** All checks, the loop and both audits; the code's audit mismatch cannot occur. */
  method CompactRawTree(source: Tree, target: int, batchRows: nat, hash: RowHash, journal: JournalAudit)
    returns (r: Result<seq<File>>)
    requires batchRows >= 1
    ensures r.Failure? <==> target < 1 || AuditOf(source.files, hash).None?
                            || (HasEvidence(source) && !ValidatesClean(source, hash, journal))
    ensures r.Success? ==> Job(source, r.value, target, hash, journal).Admitted()
  {
    hide AllRows, HasJournal, DigestSum, PayloadSum, TreeValid, UniqueRecords;
    if target < 1 {
      return Failure("target_rows must be positive");
    }
    var before := AuditRawTree(source.files, batchRows, hash);
    if before.None? {
      return Failure("the raw tree does not pass its audit");
    }
    if HasEvidence(source) {
      if source.temporaries || source.manifestTemporary || source.sentinel || source.manifest.None? {
        return Failure("collection did not reach a clean end");
      }
      var manifest := source.manifest.value;
      if !manifest.cleanEnd || manifest.audit != before {
        return Failure("collection manifest does not fit the raw tree");
      }
      if journal(multiset(AllRows(source.files))) != Some((manifest.eventCount, manifest.timelineEnd)) {
        return Failure("collection manifest does not fit the journal");
      }
    }
    var output := CompactRows(source.files, target);
    ghost var job := Job(source, output, target, hash, journal);
    ChunksAreValid(job);
    var after := AuditRawTree(output, batchRows, hash);
    assert after == before;  // the code raises otherwise
    return Success(output);
  }

  /** Where a compaction that takes `n` steps is. */
  ghost function Reached(job: Job, n: nat): Stage {
    if n == 0 then Absent else Advance(job, Reached(job, n - 1))
  }

  /** What lies in the output directory when the compaction stops there. */
  function OutputAt(job: Job, stage: Stage): Tree {
    match stage
    case Absent => Tree([], {}, false, None, false, false)
    case Made => Tree([], {}, false, None, false, false)
    case Writing(done, temporary) =>
      if done < |job.chunks|
      then Tree(job.chunks[..done], if temporary then {job.chunks[done].partition.channel} else {}, temporary, None,
                false, true)
      else Tree(job.chunks, {}, temporary, None, false, true)
    case Audited(temporary, preserved) =>
      Tree(job.chunks, {}, false, if preserved then job.source.manifest else None, temporary, true)
    case Failed => Tree(job.chunks, {}, false, None, false, true)
    case Finished => Tree(job.chunks, {}, false, if job.Clean() then job.source.manifest else None, false, false)
  }

  lemma {:induction false} ChunksAreValid(job: Job)
    requires job.Admitted()
    ensures TreeValid(job.chunks) && AuditOf(job.chunks, job.hash) == AuditOf(job.source.files, job.hash)
  {
    hide DigestSum, PayloadSum;
    forall i, r | 0 <= i < |job.chunks| && r in job.chunks[i].rows ensures RowValid(r, job.chunks[i].partition) {
      assert ChunkFits(job.chunks[i], job.target);
      RowOfFile(job.chunks, i, r);
      var j := FileOfRow(job.source.files, r);
      assert FileValid(job.source.files[j]);
    }
    AuditIsOrderFree(job.chunks, job.source.files, job.hash);
  }

  lemma {:induction false} RowOfFile(files: seq<File>, i: nat, r: Row)
    requires i < |files| && r in files[i].rows
    ensures r in AllRows(files)
  {
    var n := |files| - 1;
    if i < n {
      RowOfFile(files[..n], i, r);
    }
  }

  lemma {:induction false} FileOfRow(files: seq<File>, r: Row) returns (i: nat)
    requires r in AllRows(files)
    ensures i < |files| && r in files[i].rows
  {
    var n := |files| - 1;
    if r in files[n].rows {
      i := n;
    } else {
      i := FileOfRow(files[..n], r);
    }
  }

  /** The audits before and after agree, so no compaction of an admitted source fails. */
  lemma {:induction false} AuditNeverMismatches(job: Job, n: nat)
    requires job.Admitted()
    ensures Reached(job, n) != Failed
    ensures Reached(job, n).Writing? ==> Reached(job, n).done <= |job.chunks|
    ensures Reached(job, n).Writing? && Reached(job, n).temporary ==> Reached(job, n).done < |job.chunks|
  {
    hide AuditOf, HasEvidence, AllRows;
    if n > 0 {
      AuditNeverMismatches(job, n - 1);
      ChunksAreValid(job);
    }
  }

  /** The output of a tree without journal directories has none either, wherever the compaction stops. */
  lemma {:induction false} NoJournalStays(job: Job, n: nat)
    requires job.Admitted() && !HasJournal(job.source)
    ensures !HasJournal(OutputAt(job, Reached(job, n)))
  {
    hide AllRows, RowValid, ChunkFits, AuditOf, Reached, TreeValid;
    ChunksHaveNoJournal(job);
  }

  lemma {:induction false} ChunksHaveNoJournal(job: Job)
    requires job.Admitted() && !HasJournal(job.source)
    ensures forall i :: 0 <= i < |job.chunks| ==> job.chunks[i].partition.channel != JOURNAL_CHANNEL
  {
    forall i | 0 <= i < |job.chunks| ensures job.chunks[i].partition.channel != JOURNAL_CHANNEL {
      assert ChunkFits(job.chunks[i], job.target);
      var r := job.chunks[i].rows[0];
      RowOfFile(job.chunks, i, r);
      var j := FileOfRow(job.source.files, r);
      assert FileValid(job.source.files[j]) && RowValid(r, job.source.files[j].partition);
    }
  }

  /** A finished output is accepted as its source is. */
  lemma {:induction false} FinishedIsAccepted(job: Job)
    requires job.Admitted()
    ensures AllRows(OutputAt(job, Finished).files) == AllRows(job.source.files)
    ensures ResolveAuto(OutputAt(job, Finished), job.hash, job.journal) == Some(if job.Clean() then JOURNAL else RAW)
  {
    ChunksAreValid(job);
    hide AuditOf, AllRows;
    if !job.Clean() {
      ChunksHaveNoJournal(job);
    }
  }

  /**
   Wherever a compaction stops, `AUTO` replay accepts what it left exactly when nothing was
   begun or everything is done; so an accepted output with rows holds the rows of the source.
   */
  lemma {:induction false} StoppingIsSafe(job: Job, n: nat)
    requires job.Admitted()
    ensures var stage := Reached(job, n);
            var output := OutputAt(job, stage);
            && (ResolveAuto(output, job.hash, job.journal).Some? <==> stage in {Absent, Made, Finished})
            && (ResolveAuto(output, job.hash, job.journal).Some? && AllRows(output.files) != [] ==>
                  multiset(AllRows(output.files)) == multiset(AllRows(job.source.files)))
  {
    AuditNeverMismatches(job, n);
    FinishedIsAccepted(job);
    hide Reached, AuditOf, AllRows;
    assert AllRows([]) == [] by {
      NoFilesNoRows();
    }
  }

  lemma {:induction false} NoFilesNoRows()
    ensures AllRows([]) == []
  {
  }

  lemma {:induction false} WritesAll(job: Job, done: nat)
    requires done <= |job.chunks|
    ensures Reached(job, 2 + 2 * done) == Writing(done, false)
  {
    if done > 0 {
      WritesAll(job, done - 1);
      assert Reached(job, 1 + 2 * done) == Writing(done - 1, true);
    } else {
      assert Reached(job, 1) == Made;
    }
  }

  /** Left alone, it finishes, after a number of steps that the chunks fix. */
  lemma {:induction false} CompactionFinishes(job: Job)
    requires job.Admitted()
    ensures Reached(job, 2 * |job.chunks| + if job.Clean() then 6 else 4) == Finished
  {
    var n := 2 + 2 * |job.chunks|;
    WritesAll(job, |job.chunks|);
    ChunksAreValid(job);
    hide AuditOf, AllRows, HasEvidence;
    assert Reached(job, n + 1) == Audited(false, false);
    if job.Clean() {
      assert Reached(job, n + 2) == Audited(true, false);
      assert Reached(job, n + 3) == Audited(false, true);
    }
  }
}
