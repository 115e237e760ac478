/** The metadata of an Iceberg table and the operations that write its next version. Each operation
    builds new metadata from the loaded one and stores it; the next load sees exactly that. */
module IcebergTable {
  import opened Sequences

  datatype Result<+T> = Ok(value: T) | Err(reason: string)

  datatype DataFile = DataFile(path: string, size: nat, rows: nat)

  datatype Summary = Summary(operation: string, totalRecords: nat, totalFiles: nat, totalSize: nat)

  datatype Snapshot = Snapshot(id: nat, parent: Option<nat>, sequenceNumber: nat, timestamp: nat, summary: Summary)

  datatype LogEntry = LogEntry(timestamp: nat, snapshotId: nat)
  datatype VersionEntry = VersionEntry(timestamp: nat, version: nat)

  datatype Column = Column(name: string, required: bool, typeName: string)
  datatype IcebergField = IcebergField(id: nat, column: Column)
  datatype Schema = Schema(id: nat, fields: seq<IcebergField>)

  datatype PartitionField = PartitionField(sourceId: nat, fieldId: nat, name: string, transform: string)
  datatype Spec = Spec(id: nat, fields: seq<PartitionField>)

  datatype Metadata = Metadata(
    lastSequenceNumber: nat, lastUpdated: nat, lastColumnId: nat,
    currentSchemaId: nat, schemas: seq<Schema>,
    defaultSpecId: nat, specs: seq<Spec>, lastPartitionId: nat,
    currentSnapshot: Option<nat>, snapshots: seq<Snapshot>,
    snapshotLog: seq<LogEntry>, metadataLog: seq<VersionEntry>, mainRef: nat)

  /** The loaded table: its metadata and the version number taken from the file name. */
  datatype Table = Table(meta: Metadata, version: nat)

  function SumRows(files: seq<DataFile>): nat {
    if files == [] then 0 else files[0].rows + SumRows(files[1..])
  }

  function SumSizes(files: seq<DataFile>): nat {
    if files == [] then 0 else files[0].size + SumSizes(files[1..])
  }

  function NumberedFields(columns: seq<Column>): seq<IcebergField> {
    seq(|columns|, i requires 0 <= i < |columns| => IcebergField(i + 1, columns[i]))
  }

  function Find(snapshots: seq<Snapshot>, id: nat): Option<Snapshot> {
    if snapshots == [] then None
    else if snapshots[0].id == id then Some(snapshots[0])
    else Find(snapshots[1..], id)
  }

  function FindSchema(schemas: seq<Schema>, id: nat): Option<Schema> {
    if schemas == [] then None
    else if schemas[0].id == id then Some(schemas[0])
    else FindSchema(schemas[1..], id)
  }

  /** The totals of the current snapshot, zero if there is none. */
  function Previous(m: Metadata): Summary {
    match m.currentSnapshot
    case None => Summary("", 0, 0, 0)
    case Some(id) =>
      (match Find(m.snapshots, id)
       case Some(s) => s.summary
       case None => Summary("", 0, 0, 0))
  }

  /** The log entry that keeps the version being replaced. */
  function Superseded(t: Table): VersionEntry {
    VersionEntry(t.meta.lastUpdated, t.version)
  }

  // ---------- Creation ----------

  function Create(now: nat, columns: seq<Column>, files: seq<DataFile>): Result<Table> {
    if files == [] then Err("No data files to create Iceberg metadata for")
    else
      var first := Snapshot(now, None, 1, now, Summary("append", SumRows(files), |files|, SumSizes(files)));
      Ok(Table(Metadata(
        |files|, now, |columns|,
        0, [Schema(0, NumberedFields(columns))],
        0, [Spec(0, [])], 0,
        Some(now), [first], [LogEntry(now, now)], [], now), 1))
  }

  // ---------- Append ----------

  function Append(t: Table, now: nat, files: seq<DataFile>, columns: seq<Column>, operation: string): Result<Table> {
    if files == [] then Err("No data files for new snapshot")
    else
      var m := t.meta;
      var prev := Previous(m);
      var snapshot := Snapshot(now, m.currentSnapshot, |m.snapshots| + 1, now,
                               Summary(operation, prev.totalRecords + SumRows(files), prev.totalFiles + |files|,
                                       prev.totalSize + SumSizes(files)));
      var appended := m.(snapshots := m.snapshots + [snapshot],
                         snapshotLog := m.snapshotLog + [LogEntry(now, now)],
                         metadataLog := m.metadataLog + [Superseded(t)],
                         currentSnapshot := Some(now), lastUpdated := now,
                         lastSequenceNumber := |m.snapshots| + |files|, mainRef := now);
      var current := FindSchema(m.schemas, m.currentSchemaId);
      var known := if current.Some? then |current.value.fields| else 0;
      Ok(Table(if |columns| == known then appended
               else appended.(schemas := m.schemas + [Schema(m.currentSchemaId + 1, NumberedFields(columns))],
                              currentSchemaId := m.currentSchemaId + 1, lastColumnId := |columns|),
               t.version + 1))
  }

  // ---------- Schema evolution ----------

  datatype SchemaChange =
    | AddColumn(column: Column)
    | DropColumn(name: string)
    | RenameColumn(oldName: string, newName: string)

  /** The fields under change and the highest id handed out so far. */
  datatype Draft = Draft(fields: seq<IcebergField>, maxId: nat)

  predicate HasName(fields: seq<IcebergField>, name: string) {
    exists f :: f in fields && f.column.name == name
  }

  function WithoutName(fields: seq<IcebergField>, name: string): seq<IcebergField> {
    if fields == [] then []
    else (if fields[0].column.name == name then [] else [fields[0]]) + WithoutName(fields[1..], name)
  }

  /** Renames the first field of that name. */
  function Renamed(fields: seq<IcebergField>, oldName: string, newName: string): seq<IcebergField> {
    if fields == [] then []
    else if fields[0].column.name == oldName then
      [fields[0].(column := fields[0].column.(name := newName))] + fields[1..]
    else [fields[0]] + Renamed(fields[1..], oldName, newName)
  }

  function ApplyChange(d: Draft, change: SchemaChange): Result<Draft> {
    match change
    case AddColumn(c) =>
      if HasName(d.fields, c.name) then Err("Column already exists")
      else Ok(Draft(d.fields + [IcebergField(d.maxId + 1, c)], d.maxId + 1))
    case DropColumn(name) =>
      if !HasName(d.fields, name) then Err("Column not found")
      else Ok(d.(fields := WithoutName(d.fields, name)))
    case RenameColumn(o, n) =>
      if !HasName(d.fields, o) then Err("Column not found")
      else Ok(d.(fields := Renamed(d.fields, o, n)))
  }

  function ApplyChanges(d: Draft, changes: seq<SchemaChange>): Result<Draft> {
    if changes == [] then Ok(d)
    else
      match ApplyChanges(d, changes[..|changes| - 1])
      case Ok(d') => ApplyChange(d', changes[|changes| - 1])
      case Err(e) => Err(e)
  }

  function MaxId(fields: seq<IcebergField>): nat {
    if fields == [] then 0
    else if fields[0].id > MaxId(fields[1..]) then fields[0].id else MaxId(fields[1..])
  }

  function EvolveSchema(t: Table, now: nat, changes: seq<SchemaChange>): Result<Table> {
    var m := t.meta;
    if changes == [] then Err("No schema changes provided")
    else
      match FindSchema(m.schemas, m.currentSchemaId)
      case None => Err("Current schema not found")
      case Some(schema) =>
        (match ApplyChanges(Draft(schema.fields, MaxId(schema.fields)), changes)
         case Err(e) => Err(e)
         case Ok(d) =>
           Ok(Table(m.(schemas := m.schemas + [Schema(m.currentSchemaId + 1, d.fields)],
                       currentSchemaId := m.currentSchemaId + 1, lastColumnId := d.maxId, lastUpdated := now,
                       metadataLog := m.metadataLog + [Superseded(t)]), t.version + 1)))
  }

  // ---------- Partition evolution ----------

  function MaxSpec(specs: seq<Spec>): nat {
    if specs == [] then 0
    else if specs[0].id > MaxSpec(specs[1..]) then specs[0].id else MaxSpec(specs[1..])
  }

  function MaxPartition(fields: seq<PartitionField>): nat {
    if fields == [] then 0
    else if fields[0].fieldId > MaxPartition(fields[1..]) then fields[0].fieldId else MaxPartition(fields[1..])
  }

  function EvolvePartition(t: Table, now: nat, fields: seq<PartitionField>): Table {
    var m := t.meta;
    var specId := MaxSpec(m.specs) + 1;
    Table(m.(specs := m.specs + [Spec(specId, fields)], defaultSpecId := specId,
             lastPartitionId := if fields == [] then specId else MaxPartition(fields), lastUpdated := now,
             metadataLog := m.metadataLog + [Superseded(t)]), t.version + 1)
  }

  // ---------- Expiry ----------

  function Insert(s: Snapshot, sorted: seq<Snapshot>): seq<Snapshot> {
    if sorted == [] then [s]
    else if s.timestamp < sorted[0].timestamp then [s] + sorted
    else [sorted[0]] + Insert(s, sorted[1..])
  }

  /** A stable sort by timestamp. */
  function Sorted(snapshots: seq<Snapshot>): (r: seq<Snapshot>)
    ensures |r| == |snapshots|
  {
    if snapshots == [] then []
    else
      var init := Sorted(snapshots[..|snapshots| - 1]);
      InsertLength(snapshots[|snapshots| - 1], init);
      Insert(snapshots[|snapshots| - 1], init)
  }

  lemma {:induction false} InsertLength(s: Snapshot, sorted: seq<Snapshot>)
    ensures |Insert(s, sorted)| == |sorted| + 1
  {
    if sorted != [] { InsertLength(s, sorted[1..]); }
  }

  function OldIds(snapshots: seq<Snapshot>, olderThan: nat): seq<nat> {
    if snapshots == [] then []
    else (if snapshots[0].timestamp < olderThan then [snapshots[0].id] else []) + OldIds(snapshots[1..], olderThan)
  }

  /** The ids to expire: all but the newest `retain`, as far as they are old enough. */
  function ExpiredIds(m: Metadata, olderThan: nat, retain: nat): seq<nat> {
    if |m.snapshots| <= retain then []
    else OldIds(Sorted(m.snapshots)[..|m.snapshots| - retain], olderThan)
  }

  function KeptSnapshots(snapshots: seq<Snapshot>, expired: seq<nat>): seq<Snapshot> {
    if snapshots == [] then []
    else (if snapshots[0].id in expired then [] else [snapshots[0]]) + KeptSnapshots(snapshots[1..], expired)
  }

  function KeptLog(log: seq<LogEntry>, expired: seq<nat>): seq<LogEntry> {
    if log == [] then []
    else (if log[0].snapshotId in expired then [] else [log[0]]) + KeptLog(log[1..], expired)
  }

  /** When nothing expires no new version is written. */
  function Expire(t: Table, now: nat, olderThan: nat, retain: nat): Table {
    var m := t.meta;
    var expired := ExpiredIds(m, olderThan, retain);
    if expired == [] then t
    else Table(m.(snapshots := KeptSnapshots(m.snapshots, expired), snapshotLog := KeptLog(m.snapshotLog, expired),
                  lastUpdated := now, metadataLog := m.metadataLog + [Superseded(t)]), t.version + 1)
  }
}
