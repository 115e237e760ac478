/** What every run of appends, schema changes, partition changes and expiries keeps true of a
    table, and what expiry removes. */
module IcebergRuns {
  import opened IcebergTable
  import opened Sequences

  // ---------- The state every run keeps ----------

  ghost predicate Ascending(snapshots: seq<Snapshot>) {
    && (forall i :: 0 <= i < |snapshots| ==> snapshots[i].id == snapshots[i].timestamp)
    && (forall i, j :: 0 <= i < j < |snapshots| ==> snapshots[i].timestamp < snapshots[j].timestamp)
  }

  /** Each snapshot's parent is the one before it; the parent of the oldest one has expired, if any. */
  ghost predicate Linked(snapshots: seq<Snapshot>) {
    && (forall i, j :: 0 <= i < j < |snapshots| && j == i + 1 ==> snapshots[j].parent == Some(snapshots[i].id))
    && (snapshots != [] && snapshots[0].parent.Some? ==> snapshots[0].parent.value < snapshots[0].id)
  }

  function LogOf(snapshots: seq<Snapshot>): seq<LogEntry> {
    seq(|snapshots|, i requires 0 <= i < |snapshots| => LogEntry(snapshots[i].timestamp, snapshots[i].id))
  }

  function Last(m: Metadata): Snapshot
    requires m.snapshots != []
  {
    m.snapshots[|m.snapshots| - 1]
  }

  ghost predicate SnapshotsHealthy(m: Metadata) {
    && m.snapshots != [] && Ascending(m.snapshots) && Linked(m.snapshots)
    && m.currentSnapshot == Some(Last(m).id) && m.mainRef == Last(m).id
    && m.snapshotLog == LogOf(m.snapshots)
    && Last(m).timestamp <= m.lastUpdated
  }

  ghost predicate VersionsHealthy(t: Table) {
    && t.version == |t.meta.metadataLog| + 1
    && forall j :: 0 <= j < |t.meta.metadataLog| ==> t.meta.metadataLog[j].version == j + 1
  }

  ghost predicate SchemasHealthy(m: Metadata) {
    && m.schemas != [] && m.currentSchemaId == |m.schemas| - 1
    && (forall i :: 0 <= i < |m.schemas| ==> m.schemas[i].id == i)
    && m.specs != [] && m.defaultSpecId == |m.specs| - 1
    && (forall i :: 0 <= i < |m.specs| ==> m.specs[i].id == i)
  }

  /** The current totals count every file ever appended, whatever has expired since. */
  ghost predicate TotalsHealthy(m: Metadata, ever: seq<DataFile>)
    requires m.snapshots != []
  {
    var s := Last(m).summary;
    s.totalRecords == SumRows(ever) && s.totalFiles == |ever| && s.totalSize == SumSizes(ever)
  }

  ghost predicate Healthy(t: Table, ever: seq<DataFile>) {
    SnapshotsHealthy(t.meta) && VersionsHealthy(t) && SchemasHealthy(t.meta) && TotalsHealthy(t.meta, ever)
  }

  // ---------- Helpers ----------

  lemma {:induction false} SumsConcat(a: seq<DataFile>, b: seq<DataFile>)
    ensures SumRows(a + b) == SumRows(a) + SumRows(b)
    ensures SumSizes(a + b) == SumSizes(a) + SumSizes(b)
  {
    if a == [] {
      assert a + b == b;
    } else {
      SumsConcat(a[1..], b);
      assert (a + b)[1..] == a[1..] + b;
    }
  }

  lemma {:induction false} FindAt(snapshots: seq<Snapshot>, i: nat)
    requires Ascending(snapshots) && i < |snapshots|
    ensures Find(snapshots, snapshots[i].id) == Some(snapshots[i])
  {
    if i > 0 { FindAt(snapshots[1..], i - 1); }
  }

  lemma {:induction false} FindSchemaAt(schemas: seq<Schema>, first: nat, i: nat)
    requires i < |schemas| && forall j :: 0 <= j < |schemas| ==> schemas[j].id == first + j
    ensures FindSchema(schemas, first + i) == Some(schemas[i])
  {
    if i > 0 { FindSchemaAt(schemas[1..], first + 1, i - 1); }
  }

  lemma {:induction false} MaxSpecIsLast(specs: seq<Spec>, first: nat)
    requires specs != [] && forall j :: 0 <= j < |specs| ==> specs[j].id == first + j
    ensures MaxSpec(specs) == first + |specs| - 1
  {
    if |specs| > 1 { MaxSpecIsLast(specs[1..], first + 1); }
  }

  // ---------- Expiry ----------

  lemma {:induction false} InsertAtEnd(s: Snapshot, sorted: seq<Snapshot>)
    requires forall i :: 0 <= i < |sorted| ==> sorted[i].timestamp <= s.timestamp
    ensures Insert(s, sorted) == sorted + [s]
  {
    if sorted != [] { InsertAtEnd(s, sorted[1..]); }
  }

  lemma {:induction false} SortedIsIdentity(snapshots: seq<Snapshot>)
    requires Ascending(snapshots)
    ensures Sorted(snapshots) == snapshots
  {
    if snapshots != [] {
      var init := snapshots[..|snapshots| - 1];
      SortedIsIdentity(init);
      InsertAtEnd(snapshots[|snapshots| - 1], init);
    }
  }

  /** How many of the first `cutoff` snapshots are old enough; the old ones come first. */
  function OldCount(snapshots: seq<Snapshot>, cutoff: nat, olderThan: nat): (k: nat)
    requires cutoff <= |snapshots|
    ensures k <= cutoff
  {
    if cutoff == 0 || snapshots[0].timestamp >= olderThan then 0
    else 1 + OldCount(snapshots[1..], cutoff - 1, olderThan)
  }

  lemma {:induction false} TakeRest<T>(s: seq<T>, n: nat)
    requires 0 < n <= |s|
    ensures s[..n][1..] == s[1..][..n - 1] && s[..n][0] == s[0]
  {
  }

  lemma {:induction false} OldIdsArePrefix(snapshots: seq<Snapshot>, cutoff: nat, olderThan: nat)
    requires Ascending(snapshots) && cutoff <= |snapshots|
    ensures var k := OldCount(snapshots, cutoff, olderThan);
            OldIds(snapshots[..cutoff], olderThan) == seq(k, i requires 0 <= i < k => snapshots[i].id)
    decreases cutoff
  {
    if cutoff == 0 {
    } else if snapshots[0].timestamp >= olderThan {
      NoneOld(snapshots[..cutoff], olderThan);
    } else {
      OldIdsArePrefix(snapshots[1..], cutoff - 1, olderThan);
      TakeRest(snapshots, cutoff);
    }
  }

  lemma {:induction false} NoneOld(snapshots: seq<Snapshot>, olderThan: nat)
    requires forall i :: 0 <= i < |snapshots| ==> snapshots[i].timestamp >= olderThan
    ensures OldIds(snapshots, olderThan) == []
  {
    if snapshots != [] { NoneOld(snapshots[1..], olderThan); }
  }

  lemma {:induction false} KeptIsSuffix(snapshots: seq<Snapshot>, expired: seq<nat>, k: nat)
    requires k <= |snapshots|
    requires forall i :: 0 <= i < |snapshots| ==> (snapshots[i].id in expired <==> i < k)
    ensures KeptSnapshots(snapshots, expired) == snapshots[k..]
    ensures KeptLog(LogOf(snapshots), expired) == LogOf(snapshots[k..])
  {
    if snapshots != [] {
      assert LogOf(snapshots)[1..] == LogOf(snapshots[1..]);
      KeptIsSuffix(snapshots[1..], expired, if k == 0 then 0 else k - 1);
      if k == 0 {
        assert snapshots[1..][0..] == snapshots[1..];
        assert LogOf(snapshots) == [LogOf(snapshots)[0]] + LogOf(snapshots[1..]);
        assert snapshots[0..] == snapshots && snapshots == [snapshots[0]] + snapshots[1..];
      } else {
        assert snapshots[1..][k - 1..] == snapshots[k..];
      }
    }
  }

  /** How many snapshots an expiry removes from a healthy table: they are its oldest ones. */
  function ExpiredCount(m: Metadata, olderThan: nat, retain: nat): (k: nat)
    ensures k <= |m.snapshots| && (retain >= 1 && m.snapshots != [] ==> k < |m.snapshots|)
  {
    if |m.snapshots| <= retain then 0 else OldCount(m.snapshots, |m.snapshots| - retain, olderThan)
  }

  lemma {:induction false} ExpiryDropsOldest(t: Table, now: nat, olderThan: nat, retain: nat)
    requires SnapshotsHealthy(t.meta)
    ensures var k := ExpiredCount(t.meta, olderThan, retain);
            var m := Expire(t, now, olderThan, retain).meta;
            m.snapshots == t.meta.snapshots[k..] && m.snapshotLog == LogOf(t.meta.snapshots[k..])
    ensures var k := ExpiredCount(t.meta, olderThan, retain);
            k == 0 <==> ExpiredIds(t.meta, olderThan, retain) == []
  {
    var snapshots := t.meta.snapshots;
    var k := ExpiredCount(t.meta, olderThan, retain);
    if |snapshots| > retain {
      SortedIsIdentity(snapshots);
      OldIdsArePrefix(snapshots, |snapshots| - retain, olderThan);
      var expired := ExpiredIds(t.meta, olderThan, retain);
      assert expired == seq(k, i requires 0 <= i < k => snapshots[i].id);
      forall i | 0 <= i < |snapshots|
        ensures snapshots[i].id in expired <==> i < k
      {
        if i < k { assert expired[i] == snapshots[i].id; }
      }
      KeptIsSuffix(snapshots, expired, k);
    }
    assert snapshots[0..] == snapshots;
  }

  /** The current snapshot survives an expiry exactly if at least one snapshot is retained, there
      is none to remove, or it is itself too young. */
  lemma {:induction false} CurrentSurvivesIff(t: Table, now: nat, olderThan: nat, retain: nat)
    requires SnapshotsHealthy(t.meta)
    ensures Holds(Expire(t, now, olderThan, retain).meta.snapshots, t.meta.currentSnapshot.value) <==>
            retain >= 1 || Last(t.meta).timestamp >= olderThan
  {
    ExpiryDropsOldest(t, now, olderThan, retain);
    NotAllExpired(t.meta, olderThan, retain);
    LastKept(t.meta.snapshots, ExpiredCount(t.meta, olderThan, retain));
  }

  lemma {:induction false} NotAllExpired(m: Metadata, olderThan: nat, retain: nat)
    requires m.snapshots != [] && Ascending(m.snapshots)
    ensures ExpiredCount(m, olderThan, retain) < |m.snapshots| <==> retain >= 1 || Last(m).timestamp >= olderThan
  {
    var n := |m.snapshots|;
    OldCountLimit(m.snapshots, if n <= retain then 0 else n - retain, olderThan);
  }

  predicate Holds(snapshots: seq<Snapshot>, id: nat) {
    exists s :: s in snapshots && s.id == id
  }

  lemma {:induction false} LastKept(snapshots: seq<Snapshot>, k: nat)
    requires snapshots != [] && k <= |snapshots|
    ensures Holds(snapshots[k..], snapshots[|snapshots| - 1].id) <==> k < |snapshots|
  {
    if k < |snapshots| {
      assert snapshots[k..][|snapshots| - k - 1] == snapshots[|snapshots| - 1];
    }
  }

  lemma {:induction false} OldCountLimit(snapshots: seq<Snapshot>, cutoff: nat, olderThan: nat)
    requires Ascending(snapshots) && cutoff <= |snapshots|
    ensures var k := OldCount(snapshots, cutoff, olderThan);
            && (k > 0 ==> snapshots[k - 1].timestamp < olderThan)
            && (k < cutoff ==> snapshots[k].timestamp >= olderThan)
  {
    if cutoff > 0 && snapshots[0].timestamp < olderThan { OldCountLimit(snapshots[1..], cutoff - 1, olderThan); }
  }

  // ---------- One step ----------

  datatype Op =
    | AppendOp(files: seq<DataFile>, columns: seq<Column>, operation: string)
    | SchemaOp(changes: seq<SchemaChange>)
    | PartitionOp(fields: seq<PartitionField>)
    | ExpireOp(olderThan: nat, retain: nat)

  /** One call: when it runs, what it asks for, and whether the object store accepts the write. */
  datatype Call = Call(now: nat, op: Op, stored: bool)

  function Perform(t: Table, call: Call): Result<Table> {
    match call.op
    case AppendOp(files, columns, operation) => Append(t, call.now, files, columns, operation)
    case SchemaOp(changes) => EvolveSchema(t, call.now, changes)
    case PartitionOp(fields) => Ok(EvolvePartition(t, call.now, fields))
    case ExpireOp(olderThan, retain) => Ok(Expire(t, call.now, olderThan, retain))
  }

  /** What the next load sees: the new version if it was built and stored, else the old one. */
  function Step(t: Table, call: Call): Table {
    match Perform(t, call)
    case Ok(t') => if call.stored then t' else t
    case Err(_) => t
  }

  function FilesOf(call: Call): seq<DataFile> {
    if call.stored && call.op.AppendOp? then call.op.files else []
  }

  lemma {:induction false} AppendKeepsSnapshots(t: Table, ever: seq<DataFile>, now: nat, files: seq<DataFile>,
                                                columns: seq<Column>, operation: string)
    requires Healthy(t, ever) && files != [] && t.meta.lastUpdated < now
    ensures var m := Append(t, now, files, columns, operation).value.meta;
            SnapshotsHealthy(m) && TotalsHealthy(m, ever + files) &&
              m.snapshots[..|t.meta.snapshots|] == t.meta.snapshots
  {
    var before := t.meta.snapshots;
    var after := Append(t, now, files, columns, operation).value.meta.snapshots;
    FindAt(before, |before| - 1);
    SumsConcat(ever, files);
    OneSnapshotMore(before, after[|after| - 1]);
  }

  lemma {:induction false} OneSnapshotMore(before: seq<Snapshot>, s: Snapshot)
    requires before != [] && Ascending(before) && Linked(before)
    requires s.id == s.timestamp && s.parent == Some(before[|before| - 1].id)
    requires before[|before| - 1].timestamp < s.timestamp
    ensures Ascending(before + [s]) && Linked(before + [s])
    ensures LogOf(before + [s]) == LogOf(before) + [LogEntry(s.timestamp, s.id)]
    ensures (before + [s])[..|before|] == before
  {
  }

  lemma {:induction false} AppendKeepsVersions(t: Table, ever: seq<DataFile>, now: nat, files: seq<DataFile>,
                                               columns: seq<Column>, operation: string)
    requires Healthy(t, ever) && files != []
    ensures var t' := Append(t, now, files, columns, operation).value;
            VersionsHealthy(t') && SchemasHealthy(t'.meta)
  {
  }

  lemma {:induction false} SchemaKeeps(t: Table, ever: seq<DataFile>, now: nat, changes: seq<SchemaChange>)
    requires Healthy(t, ever) && t.meta.lastUpdated < now
    ensures EvolveSchema(t, now, changes).Ok? ==> Healthy(EvolveSchema(t, now, changes).value, ever)
  {
  }

  lemma {:induction false} PartitionKeeps(t: Table, ever: seq<DataFile>, now: nat, fields: seq<PartitionField>)
    requires Healthy(t, ever) && t.meta.lastUpdated < now
    ensures Healthy(EvolvePartition(t, now, fields), ever)
  {
    MaxSpecIsLast(t.meta.specs, 0);
  }

  lemma {:induction false} ExpireKeeps(t: Table, ever: seq<DataFile>, now: nat, olderThan: nat, retain: nat)
    requires Healthy(t, ever) && t.meta.lastUpdated < now && retain >= 1
    ensures Healthy(Expire(t, now, olderThan, retain), ever)
  {
    var before := t.meta.snapshots;
    var k := ExpiredCount(t.meta, olderThan, retain);
    ExpiryDropsOldest(t, now, olderThan, retain);
    var after := before[k..];
    assert after[|after| - 1] == before[|before| - 1];
    assert k > 0 ==> before[k].parent == Some(before[k - 1].id);
    assert Linked(after);
  }

  /** The preconditions a caller can check: a clock that moves and expiries that retain something. */
  ghost predicate Admissible(t: Table, call: Call) {
    t.meta.lastUpdated < call.now && (call.op.ExpireOp? ==> call.op.retain >= 1)
  }

  lemma {:induction false} StepKeeps(t: Table, ever: seq<DataFile>, call: Call)
    requires Healthy(t, ever) && Admissible(t, call)
    ensures Healthy(Step(t, call), ever + FilesOf(call))
    ensures t.meta.lastUpdated <= Step(t, call).meta.lastUpdated <= call.now
  {
    assert ever + [] == ever;
    match call.op
    case AppendOp(files, columns, operation) =>
      if files != [] {
        AppendKeepsSnapshots(t, ever, call.now, files, columns, operation);
        AppendKeepsVersions(t, ever, call.now, files, columns, operation);
      }
    case SchemaOp(changes) => SchemaKeeps(t, ever, call.now, changes);
    case PartitionOp(fields) => PartitionKeeps(t, ever, call.now, fields);
    case ExpireOp(olderThan, retain) => ExpireKeeps(t, ever, call.now, olderThan, retain);
  }

  // ---------- Whole runs ----------

  function Run(t: Table, calls: seq<Call>): Table {
    if calls == [] then t else Step(Run(t, calls[..|calls| - 1]), calls[|calls| - 1])
  }

  function EverAppended(calls: seq<Call>): seq<DataFile> {
    if calls == [] then [] else EverAppended(calls[..|calls| - 1]) + FilesOf(calls[|calls| - 1])
  }

  /** A strictly advancing clock, and expiries that retain at least one snapshot. */
  ghost predicate Scheduled(start: nat, calls: seq<Call>) {
    && (forall i :: 0 <= i < |calls| ==> start < calls[i].now && (calls[i].op.ExpireOp? ==> calls[i].op.retain >= 1))
    && (forall i, j :: 0 <= i < j < |calls| ==> calls[i].now < calls[j].now)
  }

  lemma {:induction false} CreatedHealthy(now: nat, columns: seq<Column>, files: seq<DataFile>)
    requires files != []
    ensures Create(now, columns, files).Ok?
    ensures Healthy(Create(now, columns, files).value, files) &&
              Create(now, columns, files).value.meta.lastUpdated == now
  {
  }

  /** Every interleaving of operations keeps the table healthy, and the totals of its current
      snapshot count everything appended since its creation, even after expiry. */
  lemma {:induction false} RunKeepsHealthy(now: nat, columns: seq<Column>, files: seq<DataFile>, calls: seq<Call>)
    requires files != [] && Scheduled(now, calls)
    ensures var t := Run(Create(now, columns, files).value, calls);
            && Healthy(t, files + EverAppended(calls))
            && now <= t.meta.lastUpdated <= (if calls == [] then now else calls[|calls| - 1].now)
  {
    CreatedHealthy(now, columns, files);
    if calls == [] {
      assert files + EverAppended(calls) == files;
    } else {
      var init := calls[..|calls| - 1];
      RunKeepsHealthy(now, columns, files, init);
      var t := Run(Create(now, columns, files).value, init);
      StepKeeps(t, files + EverAppended(init), calls[|calls| - 1]);
      Associates(files, EverAppended(init), FilesOf(calls[|calls| - 1]));
    }
  }
}
