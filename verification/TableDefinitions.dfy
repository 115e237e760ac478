/** What the operations store in a table's metadata: the schemas and partition specs asked for, under
    the ids that readers look up, and what of the earlier metadata stays as it was. */
module TableDefinitions {
  import opened IcebergRuns
  import opened IcebergTable
  import opened SchemaEvolution
  import opened SchemaRuns
  import opened Sequences

  function FindSpec(specs: seq<Spec>, id: nat): Option<Spec> {
    if specs == [] then None
    else if specs[0].id == id then Some(specs[0])
    else FindSpec(specs[1..], id)
  }

  lemma {:induction false} FindSpecAt(specs: seq<Spec>, first: nat, i: nat)
    requires i < |specs| && forall j :: 0 <= j < |specs| ==> specs[j].id == first + j
    ensures FindSpec(specs, first + i) == Some(specs[i])
  {
    if i > 0 { FindSpecAt(specs[1..], first + 1, i - 1); }
  }

  // ---------- Partition evolution ----------

  lemma {:induction false} MaxPartitionIs(fields: seq<PartitionField>)
    ensures forall f :: f in fields ==> f.fieldId <= MaxPartition(fields)
    ensures fields != [] && MaxPartition(fields) > 0 ==> exists f :: f in fields && f.fieldId == MaxPartition(fields)
    ensures fields != [] ==> exists f :: f in fields && f.fieldId == MaxPartition(fields)
  {
    if fields != [] {
      MaxPartitionIs(fields[1..]);
      assert fields[0] in fields && forall f :: f in fields[1..] ==> f in fields;
      assert forall f :: f in fields ==> f == fields[0] || f in fields[1..];
      if fields[0].fieldId <= MaxPartition(fields[1..]) {
        if fields[1..] == [] {
          assert MaxPartition(fields) == fields[0].fieldId == 0;
        } else {
          var f :| f in fields[1..] && f.fieldId == MaxPartition(fields[1..]);
          assert f in fields && f.fieldId == MaxPartition(fields);
        }
      }
    }
  }

  /** The new default spec has exactly the fields asked for, the earlier specs stay, the last partition
      id is the largest of these fields, and nothing else but the log and the clock changes. */
  lemma {:induction false} PartitionIsStored(t: Table, now: nat, fields: seq<PartitionField>)
    requires SchemasHealthy(t.meta)
    ensures var m, m' := t.meta, EvolvePartition(t, now, fields).meta;
            && m.specs <= m'.specs && |m'.specs| == |m.specs| + 1
            && FindSpec(m'.specs, m'.defaultSpecId) == Some(Spec(m'.defaultSpecId, fields))
            && (forall f :: f in fields ==> f.fieldId <= m'.lastPartitionId)
            && (fields != [] ==> exists f :: f in fields && f.fieldId == m'.lastPartitionId)
            && m'.schemas == m.schemas && m'.currentSchemaId == m.currentSchemaId && m'.lastColumnId == m.lastColumnId
            && m'.snapshots == m.snapshots && m'.snapshotLog == m.snapshotLog
  {
    var m' := EvolvePartition(t, now, fields).meta;
    MaxSpecIsLast(t.meta.specs, 0);
    FindSpecAt(m'.specs, 0, |t.meta.specs|);
    MaxPartitionIs(fields);
  }

  // ---------- Schemas ----------

  /** Creation stores the columns in order, numbered from 1. */
  lemma {:induction false} CreationStoresColumns(now: nat, columns: seq<Column>, files: seq<DataFile>)
    requires files != []
    ensures var m := Create(now, columns, files).value.meta;
            && m.specs == [Spec(0, [])] && FindSpec(m.specs, m.defaultSpecId) == Some(Spec(0, []))
            && m.lastPartitionId == 0 && m.lastSequenceNumber == |files| && m.snapshots[0].summary.operation == "append"
            && FindSchema(m.schemas, m.currentSchemaId).Some? && m.lastColumnId == |columns|
            && var fields := FindSchema(m.schemas, m.currentSchemaId).value.fields;
            && |fields| == |columns|
            && forall i :: 0 <= i < |columns| ==> fields[i] == IcebergField(i + 1, columns[i])
  {
  }

  /** An append leaves the schemas alone if the number of columns is that of the current schema; else
      its columns, numbered from 1, are the new current schema, and the earlier schemas stay. */
  lemma {:induction false} AppendStoresColumns(t: Table, now: nat, files: seq<DataFile>, columns: seq<Column>,
                                               operation: string)
    requires SchemasHealthy(t.meta) && files != []
    ensures var m, m' := t.meta, Append(t, now, files, columns, operation).value.meta;
            && m'.specs == m.specs && m'.defaultSpecId == m.defaultSpecId
            && if |columns| == |CurrentSchema(m).fields|
               then
                 && m'.schemas == m.schemas && m'.currentSchemaId == m.currentSchemaId
                 && m'.lastColumnId == m.lastColumnId
               else
                 && m.schemas <= m'.schemas && |m'.schemas| == |m.schemas| + 1 && m'.lastColumnId == |columns|
                 && FindSchema(m'.schemas, m'.currentSchemaId).Some?
                 && var fields := FindSchema(m'.schemas, m'.currentSchemaId).value.fields;
                 && |fields| == |columns|
                 && forall i :: 0 <= i < |columns| ==> fields[i] == IcebergField(i + 1, columns[i])
  {
    var m' := Append(t, now, files, columns, operation).value.meta;
    CurrentIsFound(t.meta);
    CurrentIsFound(m');
  }

  /** A schema change stores its fields as the new current schema: their names are those the changes ask
      for, distinct ids stay distinct, the last column id is the highest one handed out, and the earlier
      schemas, the snapshots and the specs stay. */
  lemma {:induction false} EvolutionStoresFields(t: Table, now: nat, changes: seq<SchemaChange>)
    requires SchemasHealthy(t.meta) && EvolveSchema(t, now, changes).Ok?
    ensures var m, m' := t.meta, EvolveSchema(t, now, changes).value.meta;
            && m.schemas <= m'.schemas && |m'.schemas| == |m.schemas| + 1
            && FindSchema(m'.schemas, m'.currentSchemaId).Some?
            && var fields := FindSchema(m'.schemas, m'.currentSchemaId).value.fields;
            && ApplyChanges(CurrentDraft(m), changes) == Ok(Draft(fields, m'.lastColumnId))
            && Names(fields) == AllNames(Names(CurrentSchema(m).fields), changes)
            && (NoDuplicates(Ids(CurrentSchema(m).fields)) ==>
                  NoDuplicates(Ids(fields)) && AtMost(Ids(fields), m'.lastColumnId))
            && m'.snapshots == m.snapshots && m'.snapshotLog == m.snapshotLog && m'.specs == m.specs
  {
    CurrentIsFound(t.meta);
    CurrentIsFound(EvolveSchema(t, now, changes).value.meta);
    ChangesOnNames(CurrentDraft(t.meta), changes);
    MaxIdBounds(CurrentSchema(t.meta).fields);
    if NoDuplicates(Ids(CurrentSchema(t.meta).fields)) { ChangesKeepSound(CurrentDraft(t.meta), changes); }
  }

  // ---------- Every step, and whole runs ----------

  /** A step writes nothing, or the next version: the version it replaces is logged with its own time,
      and schemas and specs are only ever added. */
  ghost predicate Extends(t: Table, t': Table, now: nat) {
    t' != t ==>
      && t'.version == t.version + 1 && t'.meta.lastUpdated == now
      && t'.meta.metadataLog == t.meta.metadataLog + [VersionEntry(t.meta.lastUpdated, t.version)]
      && t.meta.schemas <= t'.meta.schemas && t.meta.specs <= t'.meta.specs
  }

  lemma {:induction false} StepExtends(t: Table, call: Call)
    ensures Extends(t, Step(t, call), call.now)
  {
  }

  /** Each operation changes the parts of the metadata that it is about and leaves the others. */
  lemma {:induction false} StepLeavesTheRest(t: Table, call: Call)
    ensures var m, m' := t.meta, Step(t, call).meta;
      match call.op
      case AppendOp(_, _, _) =>
        m'.specs == m.specs && m'.defaultSpecId == m.defaultSpecId && m'.lastPartitionId == m.lastPartitionId
      case SchemaOp(_) =>
        m == m'.(schemas := m.schemas, currentSchemaId := m.currentSchemaId, lastColumnId := m.lastColumnId,
                 lastUpdated := m.lastUpdated, metadataLog := m.metadataLog)
      case PartitionOp(_) =>
        m == m'.(specs := m.specs, defaultSpecId := m.defaultSpecId, lastPartitionId := m.lastPartitionId,
                 lastUpdated := m.lastUpdated, metadataLog := m.metadataLog)
      case ExpireOp(_, _) =>
        m == m'.(snapshots := m.snapshots, snapshotLog := m.snapshotLog,
                 lastUpdated := m.lastUpdated, metadataLog := m.metadataLog)
  {
  }

  /** A refused write leaves the table as it was, and so does an impossible operation. */
  lemma {:induction false} RefusedChangesNothing(t: Table, call: Call)
    ensures !call.stored || Perform(t, call).Err? ==> Step(t, call) == t
  {
  }

  /** In every run the schemas, the specs and the log of an earlier version are still there later. */
  lemma {:induction false} DefinitionsStay(t: Table, calls: seq<Call>, i: nat)
    requires i <= |calls|
    ensures var early, late := Run(t, calls[..i]).meta, Run(t, calls).meta;
            early.schemas <= late.schemas && early.specs <= late.specs && early.metadataLog <= late.metadataLog
    decreases |calls|
  {
    if i == |calls| {
      assert calls[..i] == calls;
    } else {
      var init := calls[..|calls| - 1];
      DefinitionsStay(t, init, i);
      assert init[..i] == calls[..i];
      StepExtends(Run(t, init), calls[|calls| - 1]);
    }
  }

  /** The last column id bounds the ids of the current schema. */
  ghost predicate ColumnsBounded(m: Metadata) {
    m.schemas != [] && AtMost(Ids(CurrentSchema(m).fields), m.lastColumnId)
  }

  lemma {:induction false} StepKeepsColumnsBounded(t: Table, call: Call)
    requires SchemasHealthy(t.meta) && DistinctIds(t.meta) && ColumnsBounded(t.meta)
    ensures ColumnsBounded(Step(t, call).meta)
  {
    match call.op
    case AppendOp(files, columns, operation) =>
    case SchemaOp(changes) =>
      if EvolveSchema(t, call.now, changes).Ok? {
        EvolutionStoresFields(t, call.now, changes);
        CurrentIsFound(t.meta);
      }
    case PartitionOp(fields) =>
    case ExpireOp(olderThan, retain) =>
  }

  /** In every run no column of the current schema has an id above the last column id. */
  lemma {:induction false} RunKeepsColumnsBounded(now: nat, columns: seq<Column>, files: seq<DataFile>,
                                                  calls: seq<Call>)
    requires files != [] && Scheduled(now, calls)
    ensures ColumnsBounded(Run(Create(now, columns, files).value, calls).meta)
    decreases calls
  {
    if calls != [] {
      var init := calls[..|calls| - 1];
      RunKeepsColumnsBounded(now, columns, files, init);
      RunKeepsHealthy(now, columns, files, init);
      RunKeepsDistinctIds(now, columns, files, init);
      StepKeepsColumnsBounded(Run(Create(now, columns, files).value, init), calls[|calls| - 1]);
    }
  }

  // ---------- Snapshots ----------

  /** The snapshot an append adds: named as asked for, with the next number in the list. */
  lemma {:induction false} AppendStoresSnapshot(t: Table, now: nat, files: seq<DataFile>, columns: seq<Column>,
                                                operation: string)
    requires files != []
    ensures var m, m' := t.meta, Append(t, now, files, columns, operation).value.meta;
            && m'.snapshots[..|m.snapshots|] == m.snapshots && |m'.snapshots| == |m.snapshots| + 1
            && var s := m'.snapshots[|m.snapshots|];
            && s.summary.operation == operation && s.parent == m.currentSnapshot && s.timestamp == now
            && s.sequenceNumber == |m'.snapshots| <= m'.lastSequenceNumber
            && (s.sequenceNumber == m'.lastSequenceNumber <==> |files| == 1)
  {
  }

  /** Sequence numbers 1, 2, 3, ... */
  ghost predicate NumberedFrom(snapshots: seq<Snapshot>, expired: nat) {
    forall i :: 0 <= i < |snapshots| ==> snapshots[i].sequenceNumber == expired + i + 1
  }

  /** In a run without expiry the snapshots are numbered 1, 2, 3, ... */
  lemma {:induction false} RunNumbersSnapshots(now: nat, columns: seq<Column>, files: seq<DataFile>, calls: seq<Call>)
    requires files != [] && forall c :: c in calls ==> !c.op.ExpireOp?
    ensures NumberedFrom(Run(Create(now, columns, files).value, calls).meta.snapshots, 0)
    decreases calls
  {
    if calls != [] { RunNumbersSnapshots(now, columns, files, calls[..|calls| - 1]); }
  }

  /** The number is counted from the snapshots still listed. So once the oldest have expired, the next
      snapshot takes a number that is still in use exactly if no more have expired than are left. */
  lemma {:induction false} NumberIsReusedIff(t: Table, expired: nat, now: nat, files: seq<DataFile>,
                                             columns: seq<Column>,
                                             operation: string)
    requires NumberedFrom(t.meta.snapshots, expired) && files != []
    ensures var m, m' := t.meta, Append(t, now, files, columns, operation).value.meta;
            (exists s :: s in m.snapshots && s.sequenceNumber == m'.snapshots[|m.snapshots|].sequenceNumber) <==>
            1 <= expired <= |m.snapshots|
  {
    var n := |t.meta.snapshots|;
    if 1 <= expired <= n {
      assert t.meta.snapshots[n - expired].sequenceNumber == n + 1;
    }
  }
}
