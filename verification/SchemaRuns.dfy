/** Column ids over whole runs of table operations: distinct within every schema, but not always
    fresh across calls. */
module SchemaRuns {
  import opened IcebergRuns
  import opened IcebergTable
  import opened SchemaEvolution
  import opened Sequences

  function CurrentSchema(m: Metadata): Schema
    requires m.schemas != []
  {
    m.schemas[|m.schemas| - 1]
  }

  function CurrentDraft(m: Metadata): Draft
    requires m.schemas != []
  {
    Draft(CurrentSchema(m).fields, MaxId(CurrentSchema(m).fields))
  }

  /** In a healthy table the current schema is always found, and it is the newest one. */
  lemma {:induction false} CurrentIsFound(m: Metadata)
    requires SchemasHealthy(m)
    ensures FindSchema(m.schemas, m.currentSchemaId) == Some(CurrentSchema(m))
  {
    FindSchemaAt(m.schemas, 0, |m.schemas| - 1);
  }

  /** So a schema change succeeds exactly when something is asked for and each change is possible on
      the names the earlier ones leave. */
  lemma {:induction false} EvolvesIff(t: Table, now: nat, changes: seq<SchemaChange>)
    requires SchemasHealthy(t.meta)
    ensures EvolveSchema(t, now, changes).Ok? <==>
            changes != [] && AllPossible(Names(CurrentSchema(t.meta).fields), changes)
  {
    CurrentIsFound(t.meta);
    ChangesOnNames(CurrentDraft(t.meta), changes);
  }

  // ---------- Ids are distinct in every schema ----------

  ghost predicate DistinctIds(m: Metadata) {
    forall s :: s in m.schemas ==> NoDuplicates(Ids(s.fields))
  }

  lemma {:induction false} MaxIdBounds(fields: seq<IcebergField>)
    ensures AtMost(Ids(fields), MaxId(fields))
    ensures fields != [] && MaxId(fields) > 0 ==> MaxId(fields) in Ids(fields)
  {
    if fields != [] {
      MaxIdBounds(fields[1..]);
      assert Ids(fields) == [fields[0].id] + Ids(fields[1..]);
    }
  }

  lemma {:induction false} NumberedDistinct(columns: seq<Column>)
    ensures NoDuplicates(Ids(NumberedFields(columns)))
  {
  }

  lemma {:induction false} CurrentSound(m: Metadata)
    requires m.schemas != [] && DistinctIds(m)
    ensures Sound(CurrentDraft(m))
  {
    MaxIdBounds(CurrentSchema(m).fields);
  }

  lemma {:induction false} OneSchemaMore(m: Metadata, m': Metadata, s: Schema)
    requires DistinctIds(m) && NoDuplicates(Ids(s.fields))
    requires m'.schemas == m.schemas || m'.schemas == m.schemas + [s]
    ensures DistinctIds(m')
  {
  }

  lemma {:induction false} EvolveKeepsDistinctIds(t: Table, now: nat, changes: seq<SchemaChange>)
    requires SchemasHealthy(t.meta) && DistinctIds(t.meta) && EvolveSchema(t, now, changes).Ok?
    ensures DistinctIds(EvolveSchema(t, now, changes).value.meta)
  {
    CurrentIsFound(t.meta);
    CurrentSound(t.meta);
    ChangesKeepSound(CurrentDraft(t.meta), changes);
    OneSchemaMore(t.meta, EvolveSchema(t, now, changes).value.meta,
                  Schema(t.meta.currentSchemaId + 1, ApplyChanges(CurrentDraft(t.meta), changes).value.fields));
  }

  lemma {:induction false} StepKeepsDistinctIds(t: Table, call: Call)
    requires SchemasHealthy(t.meta) && DistinctIds(t.meta)
    ensures DistinctIds(Step(t, call).meta)
  {
    match call.op
    case AppendOp(files, columns, operation) =>
      NumberedDistinct(columns);
      OneSchemaMore(t.meta, Step(t, call).meta, Schema(t.meta.currentSchemaId + 1, NumberedFields(columns)));
    case SchemaOp(changes) =>
      if EvolveSchema(t, call.now, changes).Ok? { EvolveKeepsDistinctIds(t, call.now, changes); }
    case PartitionOp(fields) =>
    case ExpireOp(olderThan, retain) =>
  }

  /** In every run the field ids of each schema are pairwise distinct. */
  lemma {:induction false} RunKeepsDistinctIds(now: nat, columns: seq<Column>, files: seq<DataFile>, calls: seq<Call>)
    requires files != [] && Scheduled(now, calls)
    ensures DistinctIds(Run(Create(now, columns, files).value, calls).meta)
    decreases calls
  {
    NumberedDistinct(columns);
    if calls != [] {
      var init := calls[..|calls| - 1];
      RunKeepsDistinctIds(now, columns, files, init);
      RunKeepsHealthy(now, columns, files, init);
      StepKeepsDistinctIds(Run(Create(now, columns, files).value, init), calls[|calls| - 1]);
    }
  }

  // ---------- Ids across calls ----------

  /** The highest id in any schema of the table. */
  function Highest(schemas: seq<Schema>): nat {
    if schemas == [] then 0
    else
      var rest := Highest(schemas[..|schemas| - 1]);
      if MaxId(schemas[|schemas| - 1].fields) > rest then MaxId(schemas[|schemas| - 1].fields) else rest
  }

  lemma {:induction false} HighestBounds(schemas: seq<Schema>, s: Schema)
    requires s in schemas
    ensures MaxId(s.fields) <= Highest(schemas)
  {
    if s != schemas[|schemas| - 1] {
      assert s in schemas[..|schemas| - 1];
      HighestBounds(schemas[..|schemas| - 1], s);
    }
  }

  lemma {:induction false} FirstAddedId(d: Draft, changes: seq<SchemaChange>, i: nat)
    requires i < |changes| && changes[i].AddColumn?
    ensures AddedId(d, changes, i) == d.maxId + Adds(changes[..i]) + 1
  {
    assert changes[..i + 1][..i] == changes[..i];
  }

  /** Some schema of the table, current or old, has a column with that id. */
  ghost predicate Occurs(schemas: seq<Schema>, id: nat) {
    exists s :: s in schemas && id in Ids(s.fields)
  }

  /** No id the call gives out occurs in any schema of the table. */
  ghost predicate AllNew(m: Metadata, changes: seq<SchemaChange>)
    requires m.schemas != []
  {
    forall i {:trigger AddedId(CurrentDraft(m), changes, i)} :: 0 <= i < |changes| && changes[i].AddColumn? ==>
      !Occurs(m.schemas, AddedId(CurrentDraft(m), changes, i))
  }

  /** Each of the ids 1, 2, ... counted on from the start is given to some added column. */
  lemma {:induction false} NthAdd(changes: seq<SchemaChange>, n: nat) returns (i: nat)
    requires 0 < n <= Adds(changes)
    ensures i < |changes| && changes[i].AddColumn? && Adds(changes[..i + 1]) == n
  {
    var last := |changes| - 1;
    if n <= Adds(changes[..last]) {
      i := NthAdd(changes[..last], n);
      assert changes[..last][..i + 1] == changes[..i + 1];
    } else {
      i := last;
      assert changes[..last + 1] == changes;
    }
  }

  /** Ids are counted on from the current schema, not from the highest id ever given. The columns a
      call adds get ids that no schema of the table has exactly when no schema has an id among the
      next `Adds(changes)` ones. */
  lemma {:induction false} FreshIff(m: Metadata, changes: seq<SchemaChange>)
    requires m.schemas != []
    ensures var highest := MaxId(CurrentSchema(m).fields);
            AllNew(m, changes) <==>
            forall id :: highest < id <= highest + Adds(changes) ==> !Occurs(m.schemas, id)
  {
    var d := CurrentDraft(m);
    if AllNew(m, changes) {
      forall id | d.maxId < id <= d.maxId + Adds(changes) ensures !Occurs(m.schemas, id) {
        var i := NthAdd(changes, id - d.maxId);
        assert AddedId(d, changes, i) == id;
      }
    }
    forall i | 0 <= i < |changes| && changes[i].AddColumn?
      ensures d.maxId < AddedId(d, changes, i) <= d.maxId + Adds(changes)
    {
      FirstAddedId(d, changes, i);
      AddsGrow(changes, i + 1);
    }
  }

  /** It is enough that the current schema still holds the highest id of all. */
  lemma {:induction false} HighestIdSuffices(m: Metadata, changes: seq<SchemaChange>)
    requires m.schemas != [] && MaxId(CurrentSchema(m).fields) == Highest(m.schemas)
    ensures AllNew(m, changes)
  {
    FreshIff(m, changes);
    forall s | s in m.schemas ensures AtMost(Ids(s.fields), Highest(m.schemas)) {
      HighestBounds(m.schemas, s);
      MaxIdBounds(s.fields);
    }
  }

  /** But it is not needed: after dropping `b`, which had id 2, within the call that gave 3 to `c`, and
      then dropping `c`, the next column gets id 2, which no schema has. */
  lemma {:induction false} GapIsFilled(now: nat, a: Column, b: Column, c: Column, files: seq<DataFile>)
    requires files != [] && a.name != b.name && a.name != c.name && b.name != c.name
    ensures var t := Create(now, [a], files).value;
      && EvolveSchema(t, now + 1, [AddColumn(b), DropColumn(b.name), AddColumn(c)]).Ok?
      && var t1 := EvolveSchema(t, now + 1, [AddColumn(b), DropColumn(b.name), AddColumn(c)]).value;
      && EvolveSchema(t1, now + 2, [DropColumn(c.name)]).Ok?
      && var t2 := EvolveSchema(t1, now + 2, [DropColumn(c.name)]).value;
      && t2.meta.schemas != [] && AllNew(t2.meta, [AddColumn(b)])
      && MaxId(CurrentSchema(t2.meta).fields) == 1 && Highest(t2.meta.schemas) == 3
  {
    var fa, fb, fc := IcebergField(1, a), IcebergField(2, b), IcebergField(3, c);
    CreatedWith(now, a, files);
    TwoThenOne(fa, fb, fc);
    var t := Create(now, [a], files).value;
    var first := [AddColumn(b), DropColumn(b.name), AddColumn(c)];
    Evolved(t, now + 1, first, Draft([fa, fc], 3));
    var t1 := EvolveSchema(t, now + 1, first).value;
    DropNewest(t1, now + 2, fa, fc);
    GapInSchemas(EvolveSchema(t1, now + 2, [DropColumn(c.name)]).value.meta, fa, fc, b);
  }

  lemma {:induction false} CreatedWith(now: nat, a: Column, files: seq<DataFile>)
    requires files != []
    ensures var m := Create(now, [a], files).value.meta;
            SchemasHealthy(m) && m.schemas == [Schema(0, [IcebergField(1, a)])]
  {
    assert NumberedFields([a]) == [IcebergField(1, a)];
  }

  lemma {:induction false} DropNewest(t: Table, now: nat, x: IcebergField, z: IcebergField)
    requires SchemasHealthy(t.meta) && t.meta.schemas == [Schema(0, [x])] + [Schema(1, [x, z])]
    requires x.column.name != z.column.name && x.id < z.id
    ensures EvolveSchema(t, now, [DropColumn(z.column.name)]).Ok?
    ensures EvolveSchema(t, now, [DropColumn(z.column.name)]).value.meta.schemas ==
            [Schema(0, [x]), Schema(1, [x, z]), Schema(2, [x])]
  {
    DropSecond(x, z);
    OneChange(Draft([x, z], z.id), DropColumn(z.column.name));
    Evolved(t, now, [DropColumn(z.column.name)], Draft([x], z.id));
  }

  lemma {:induction false} GapInSchemas(m: Metadata, x: IcebergField, z: IcebergField, b: Column)
    requires m.schemas == [Schema(0, [x]), Schema(1, [x, z]), Schema(2, [x])]
    requires x.id == 1 && z.id == 3 && x.column.name != z.column.name
    ensures AllNew(m, [AddColumn(b)]) && MaxId(CurrentSchema(m).fields) == 1 && Highest(m.schemas) == 3
  {
    DropSecond(x, z);
    ThreeSchemas(x, z);
    FreshIff(m, [AddColumn(b)]);
    assert [AddColumn(b)][..0] == [];
  }

  /** A successful call leaves its fields as the newest schema. */
  lemma {:induction false} Evolved(t: Table, now: nat, changes: seq<SchemaChange>, d: Draft)
    requires SchemasHealthy(t.meta) && changes != [] && ApplyChanges(CurrentDraft(t.meta), changes) == Ok(d)
    ensures EvolveSchema(t, now, changes).Ok?
    ensures var m := EvolveSchema(t, now, changes).value.meta;
            SchemasHealthy(m) && m.schemas == t.meta.schemas + [Schema(|t.meta.schemas|, d.fields)]
  {
    CurrentIsFound(t.meta);
  }

  lemma {:induction false} DropSecond(x: IcebergField, y: IcebergField)
    requires x.column.name != y.column.name
    ensures HasName([x, y], y.column.name) && WithoutName([x, y], y.column.name) == [x]
    ensures MaxId([x]) == x.id && MaxId([x, y]) == if x.id > y.id then x.id else y.id
    ensures Ids([x]) == [x.id] && Ids([x, y]) == [x.id, y.id]
  {
    assert y in [x, y];
    assert [x, y][1..] == [y] && [y][1..] == [] && [x][1..] == [];
    assert WithoutName([y], y.column.name) == [];
  }

  lemma {:induction false} ThreeSchemas(x: IcebergField, z: IcebergField)
    requires x.id == 1 && z.id == 3 && x.column.name != z.column.name
    ensures var schemas := [Schema(0, [x]), Schema(1, [x, z]), Schema(2, [x])];
            Highest(schemas) == 3 && !Occurs(schemas, 2)
  {
    DropSecond(x, z);
    var s0, s1, s2 := Schema(0, [x]), Schema(1, [x, z]), Schema(2, [x]);
    assert [s0, s1, s2][..2] == [s0, s1] && [s0, s1][..1] == [s0] && [s0][..0] == [];
    assert Highest([s0]) == 1;
    assert Highest([s0, s1]) == 3;
  }

  lemma {:induction false} TwoThenOne(x: IcebergField, y: IcebergField, z: IcebergField)
    requires x.id == 1 && y.id == 2 && z.id == 3
    requires x.column.name != y.column.name && x.column.name != z.column.name
    ensures ApplyChanges(Draft([x], MaxId([x])), [AddColumn(y.column), DropColumn(y.column.name), AddColumn(z.column)])
            == Ok(Draft([x, z], 3))
  {
    var start, add, drop, more := Draft([x], 1), AddColumn(y.column), DropColumn(y.column.name), AddColumn(z.column);
    DropSecond(x, y);
    assert [add, drop, more][..2] == [add, drop] && [add, drop][..1] == [add];
    OneChange(start, add);
    assert [x] + [IcebergField(2, y.column)] == [x, y] && [x] + [IcebergField(3, z.column)] == [x, z];
    assert ApplyChanges(start, [add]) == Ok(Draft([x, y], 2));
    assert ApplyChanges(start, [add, drop]) == Ok(Draft([x], 2));
  }

  /** A column dropped in one call passes its id on to another column added in the next. */
  lemma {:induction false} DroppedIdIsReused(now: nat, a: Column, b: Column, c: Column, files: seq<DataFile>)
    requires files != [] && a.name != b.name && c.name != a.name
    ensures var t := Create(now, [a, b], files).value;
      && EvolveSchema(t, now + 1, [DropColumn(b.name)]).Ok?
      && var t1 := EvolveSchema(t, now + 1, [DropColumn(b.name)]).value;
      && EvolveSchema(t1, now + 2, [AddColumn(c)]).Ok?
      && var t2 := EvolveSchema(t1, now + 2, [AddColumn(c)]).value;
      && CurrentSchema(t.meta).fields == [IcebergField(1, a), IcebergField(2, b)]
      && CurrentSchema(t2.meta).fields == [IcebergField(1, a), IcebergField(2, c)]
  {
    var t := Create(now, [a, b], files).value;
    var fa, fb := IcebergField(1, a), IcebergField(2, b);
    assert NumberedFields([a, b]) == [fa, fb];
    assert [fa, fb][1..] == [fb] && [fb][1..] == [];
    assert HasName([fa, fb], b.name) by { assert fb in [fa, fb]; }
    assert WithoutName([fb], b.name) == [];
    assert WithoutName([fa, fb], b.name) == [fa];
    var d := Draft([fa, fb], MaxId([fa, fb]));
    OneChange(d, DropColumn(b.name));
    var t1 := EvolveSchema(t, now + 1, [DropColumn(b.name)]).value;
    assert CurrentSchema(t1.meta).fields == [fa];
    assert !HasName([fa], c.name) && MaxId([fa]) == 1 by { assert [fa][1..] == []; }
    CurrentIsFound(t1.meta);
    OneChange(Draft([fa], 1), AddColumn(c));
  }

  lemma {:induction false} OneChange(d: Draft, change: SchemaChange)
    ensures ApplyChanges(d, [change]) == ApplyChange(d, change)
  {
    assert [change][..0] == [];
  }
}
