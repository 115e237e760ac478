/** What one schema change call guarantees of column ids and names, and what holds over calls. */
module SchemaEvolution {
  import opened IcebergTable
  import opened Sequences

  function Ids(fields: seq<IcebergField>): (ids: seq<nat>)
    ensures |ids| == |fields|
  {
    seq(|fields|, i requires 0 <= i < |fields| => fields[i].id)
  }

  function Names(fields: seq<IcebergField>): (names: seq<string>)
    ensures |names| == |fields|
  {
    seq(|fields|, i requires 0 <= i < |fields| => fields[i].column.name)
  }

  // ---------- Ids within a call ----------

  ghost predicate AtMost(ids: seq<nat>, max: int) {
    forall id :: id in ids ==> id <= max
  }

  /** No id twice, and none above the highest one handed out. */
  ghost predicate Sound(d: Draft) {
    NoDuplicates(Ids(d.fields)) && AtMost(Ids(d.fields), d.maxId)
  }

  lemma {:induction false} DropIds(fields: seq<IcebergField>, name: string)
    ensures forall id :: id in Ids(WithoutName(fields, name)) ==> id in Ids(fields)
    ensures NoDuplicates(Ids(fields)) ==> NoDuplicates(Ids(WithoutName(fields, name)))
  {
    if fields != [] {
      DropIds(fields[1..], name);
      var kept := Ids(WithoutName(fields[1..], name));
      assert Ids(fields) == [fields[0].id] + Ids(fields[1..]);
      if fields[0].column.name == name {
        assert [] + WithoutName(fields[1..], name) == WithoutName(fields[1..], name);
        DropFirst(fields[0].id, Ids(fields[1..]));
      } else {
        assert Ids(WithoutName(fields, name)) == [fields[0].id] + kept;
        DropFirst(fields[0].id, Ids(fields[1..]));
        AddFirst(fields[0].id, Ids(fields[1..]), kept);
      }
    }
  }

  lemma {:induction false} DropFirst<T>(x: T, rest: seq<T>)
    ensures NoDuplicates([x] + rest) ==> NoDuplicates(rest) && x !in rest
  {
    var all := [x] + rest;
    assert forall i :: 0 <= i < |rest| ==> all[i + 1] == rest[i];
    assert all[0] == x;
  }

  lemma {:induction false} AddFirst<T>(x: T, rest: seq<T>, kept: seq<T>)
    requires forall y :: y in kept ==> y in rest
    ensures NoDuplicates([x] + rest) && NoDuplicates(kept) ==> NoDuplicates([x] + kept)
  {
    DropFirst(x, rest);
  }

  lemma {:induction false} RenameIds(fields: seq<IcebergField>, oldName: string, newName: string)
    ensures Ids(Renamed(fields, oldName, newName)) == Ids(fields)
  {
    if fields != [] && fields[0].column.name != oldName {
      RenameIds(fields[1..], oldName, newName);
      assert Ids(fields) == [fields[0].id] + Ids(fields[1..]);
      assert Ids(Renamed(fields, oldName, newName)) == [fields[0].id] + Ids(Renamed(fields[1..], oldName, newName));
    }
  }

  lemma {:induction false} AddIds(fields: seq<IcebergField>, f: IcebergField)
    requires NoDuplicates(Ids(fields)) && AtMost(Ids(fields), f.id - 1)
    ensures NoDuplicates(Ids(fields + [f])) && AtMost(Ids(fields + [f]), f.id)
  {
    var ids := Ids(fields);
    assert Ids(fields + [f]) == ids + [f.id];
    assert f.id !in ids;
  }

  lemma {:induction false} ChangeKeepsSound(d: Draft, change: SchemaChange)
    requires Sound(d) && ApplyChange(d, change).Ok?
    ensures Sound(ApplyChange(d, change).value)
    ensures ApplyChange(d, change).value.maxId == d.maxId + if change.AddColumn? then 1 else 0
  {
    match change
    case AddColumn(c) => AddIds(d.fields, IcebergField(d.maxId + 1, c));
    case DropColumn(name) => DropIds(d.fields, name);
    case RenameColumn(o, n) => RenameIds(d.fields, o, n);
  }

  function Adds(changes: seq<SchemaChange>): nat {
    if changes == [] then 0
    else Adds(changes[..|changes| - 1]) + if changes[|changes| - 1].AddColumn? then 1 else 0
  }

  /** The id a call gives to the column added by change `i`. */
  function AddedId(d: Draft, changes: seq<SchemaChange>, i: nat): nat
    requires i < |changes|
  {
    d.maxId + Adds(changes[..i + 1])
  }

  lemma {:induction false} ChangesKeepSound(d: Draft, changes: seq<SchemaChange>)
    requires Sound(d) && ApplyChanges(d, changes).Ok?
    ensures Sound(ApplyChanges(d, changes).value)
    ensures ApplyChanges(d, changes).value.maxId == d.maxId + Adds(changes)
  {
    if changes != [] {
      ChangesKeepSound(d, changes[..|changes| - 1]);
      ChangeKeepsSound(ApplyChanges(d, changes[..|changes| - 1]).value, changes[|changes| - 1]);
    }
  }

  lemma {:induction false} PrefixSucceeds(d: Draft, changes: seq<SchemaChange>, i: nat)
    requires i <= |changes| && ApplyChanges(d, changes).Ok?
    ensures ApplyChanges(d, changes[..i]).Ok?
  {
    if i < |changes| {
      PrefixSucceeds(d, changes[..|changes| - 1], i);
      assert changes[..|changes| - 1][..i] == changes[..i];
    } else {
      assert changes[..i] == changes;
    }
  }

  /** The column added by change `i` gets the id above, which no column had before. */
  lemma {:induction false} AddedColumnHasId(d: Draft, changes: seq<SchemaChange>, i: nat)
    requires Sound(d) && ApplyChanges(d, changes).Ok? && i < |changes| && changes[i].AddColumn?
    ensures ApplyChanges(d, changes[..i]).Ok? && ApplyChanges(d, changes[..i + 1]).Ok?
    ensures var before, after := ApplyChanges(d, changes[..i]).value, ApplyChanges(d, changes[..i + 1]).value;
            && after.fields == before.fields + [IcebergField(AddedId(d, changes, i), changes[i].column)]
            && AddedId(d, changes, i) !in Ids(before.fields)
  {
    var prefix := changes[..i + 1];
    assert prefix[..i] == changes[..i];
    PrefixSucceeds(d, changes, i);
    PrefixSucceeds(d, changes, i + 1);
    ChangesKeepSound(d, changes[..i]);
    ChangesKeepSound(d, prefix);
  }

  lemma {:induction false} AddsGrow(changes: seq<SchemaChange>, i: nat)
    requires i <= |changes|
    ensures Adds(changes[..i]) <= Adds(changes)
    decreases |changes|
  {
    if i < |changes| {
      AddsGrow(changes[..|changes| - 1], i);
      assert changes[..|changes| - 1][..i] == changes[..i];
    } else {
      assert changes[..i] == changes;
    }
  }

  /** Within a call the ids of added columns lie above every id at the start and never repeat, even
      after drops. */
  lemma {:induction false} AddedIdsIncrease(d: Draft, changes: seq<SchemaChange>, i: nat, j: nat)
    requires i < j < |changes| && changes[i].AddColumn? && changes[j].AddColumn?
    ensures d.maxId < AddedId(d, changes, i) < AddedId(d, changes, j)
  {
    assert changes[..i + 1][..i] == changes[..i] && changes[..j + 1][..j] == changes[..j];
    AddsGrow(changes[..j], i + 1);
    assert changes[..j][..i + 1] == changes[..i + 1];
  }

  // ---------- What a change leaves as it was ----------

  lemma {:induction false} DropKeeps(fields: seq<IcebergField>, name: string, f: IcebergField)
    ensures f in WithoutName(fields, name) <==> f in fields && f.column.name != name
  {
    if fields != [] {
      DropKeeps(fields[1..], name, f);
      assert fields == [fields[0]] + fields[1..];
    }
  }

  lemma {:induction false} RenameAt(fields: seq<IcebergField>, oldName: string, newName: string) returns (i: nat)
    requires HasName(fields, oldName)
    ensures i < |fields| && fields[i].column.name == oldName
    ensures forall j :: 0 <= j < i ==> fields[j].column.name != oldName
    ensures Renamed(fields, oldName, newName) ==
            fields[i := fields[i].(column := Column(newName, fields[i].column.required, fields[i].column.typeName))]
  {
    if fields[0].column.name == oldName {
      i := 0;
      assert fields == [fields[0]] + fields[1..];
    } else {
      var f :| f in fields && f.column.name == oldName;
      assert f in fields[1..];
      i := RenameAt(fields[1..], oldName, newName);
      i := i + 1;
      var g := fields[i].(column := Column(newName, fields[i].column.required, fields[i].column.typeName));
      assert fields[i := g] == [fields[0]] + fields[1..][i - 1 := g];
    }
  }

  /** Each change does one thing: an added column is as asked for and comes last, a drop leaves exactly the
      fields of other names, and a rename gives the first field of that name the new one and leaves its
      id, its type and all other fields as they were. */
  lemma {:induction false} ChangeDoes(d: Draft, change: SchemaChange)
    requires ApplyChange(d, change).Ok?
    ensures var d' := ApplyChange(d, change).value;
      match change
      case AddColumn(c) => d'.fields == d.fields + [IcebergField(d.maxId + 1, c)] && d'.maxId == d.maxId + 1
      case DropColumn(name) =>
        (forall f :: f in d'.fields <==> f in d.fields && f.column.name != name) && d'.maxId == d.maxId
      case RenameColumn(o, n) =>
        d'.maxId == d.maxId && exists i :: RenamedAt(d.fields, d'.fields, i, o, n)
  {
    match change
    case AddColumn(c) =>
    case DropColumn(name) => forall f { DropKeeps(d.fields, name, f); }
    case RenameColumn(o, n) =>
      var i := RenameAt(d.fields, o, n);
      assert RenamedAt(d.fields, ApplyChange(d, change).value.fields, i, o, n);
  }

  /** Only field `i`, the first of the old name, has changed, and only in its name. */
  ghost predicate RenamedAt(before: seq<IcebergField>, after: seq<IcebergField>, i: int, oldName: string,
                            newName: string) {
    && 0 <= i < |before| && |after| == |before|
    && before[i].column.name == oldName && (forall j :: 0 <= j < i ==> before[j].column.name != oldName)
    && after[i] == IcebergField(before[i].id, Column(newName, before[i].column.required, before[i].column.typeName))
    && forall j :: 0 <= j < |before| && j != i ==> after[j] == before[j]
  }

  // ---------- When a call succeeds ----------

  function Without(names: seq<string>, name: string): seq<string> {
    if names == [] then [] else (if names[0] == name then [] else [names[0]]) + Without(names[1..], name)
  }

  function Replaced(names: seq<string>, oldName: string, newName: string): seq<string> {
    if names == [] then []
    else if names[0] == oldName then [newName] + names[1..]
    else [names[0]] + Replaced(names[1..], oldName, newName)
  }

  /** A column may be added if its name is free, and dropped or renamed if it exists. */
  predicate PossibleOn(names: seq<string>, change: SchemaChange) {
    match change
    case AddColumn(c) => c.name !in names
    case DropColumn(name) => name in names
    case RenameColumn(o, _) => o in names
  }

  function NamesAfter(names: seq<string>, change: SchemaChange): seq<string> {
    match change
    case AddColumn(c) => names + [c.name]
    case DropColumn(name) => Without(names, name)
    case RenameColumn(o, n) => Replaced(names, o, n)
  }

  function AllNames(names: seq<string>, changes: seq<SchemaChange>): seq<string> {
    if changes == [] then names
    else NamesAfter(AllNames(names, changes[..|changes| - 1]), changes[|changes| - 1])
  }

  predicate AllPossible(names: seq<string>, changes: seq<SchemaChange>) {
    changes == [] ||
    (AllPossible(names, changes[..|changes| - 1]) &&
     PossibleOn(AllNames(names, changes[..|changes| - 1]), changes[|changes| - 1]))
  }

  lemma {:induction false} HasNameIff(fields: seq<IcebergField>, name: string)
    ensures HasName(fields, name) <==> name in Names(fields)
  {
    if HasName(fields, name) {
      var f :| f in fields && f.column.name == name;
      var i :| 0 <= i < |fields| && fields[i] == f;
      assert Names(fields)[i] == name;
    }
    if name in Names(fields) {
      var i :| 0 <= i < |fields| && Names(fields)[i] == name;
      assert fields[i] in fields;
    }
  }

  lemma {:induction false} DropNames(fields: seq<IcebergField>, name: string)
    ensures Names(WithoutName(fields, name)) == Without(Names(fields), name)
  {
    if fields != [] {
      DropNames(fields[1..], name);
      FirstName(fields);
      var kept := WithoutName(fields[1..], name);
      if fields[0].column.name == name {
        assert [] + kept == kept && [] + Names(kept) == Names(kept);
      } else {
        FirstName([fields[0]] + kept);
        assert ([fields[0]] + kept)[1..] == kept;
      }
    }
  }

  lemma {:induction false} FirstName(fields: seq<IcebergField>)
    requires fields != []
    ensures Names(fields) == [fields[0].column.name] + Names(fields[1..])
    ensures Names(fields)[1..] == Names(fields[1..])
  {
  }

  lemma {:induction false} RenameNames(fields: seq<IcebergField>, oldName: string, newName: string)
    ensures Names(Renamed(fields, oldName, newName)) == Replaced(Names(fields), oldName, newName)
  {
    if fields != [] {
      RenameNames(fields[1..], oldName, newName);
      FirstName(fields);
      FirstName(Renamed(fields, oldName, newName));
      assert fields[0].column.name == oldName ==> Renamed(fields, oldName, newName)[1..] == fields[1..];
      assert fields[0].column.name != oldName ==>
               Renamed(fields, oldName, newName)[1..] == Renamed(fields[1..], oldName, newName);
    }
  }

  lemma {:induction false} DropShortens(fields: seq<IcebergField>, name: string)
    ensures |WithoutName(fields, name)| <= |fields|
  {
    if fields != [] { DropShortens(fields[1..], name); }
  }

  lemma {:induction false} ChangeOnNames(d: Draft, change: SchemaChange)
    ensures ApplyChange(d, change).Ok? <==> PossibleOn(Names(d.fields), change)
    ensures ApplyChange(d, change).Ok? ==>
              Names(ApplyChange(d, change).value.fields) == NamesAfter(Names(d.fields), change)
  {
    match change
    case AddColumn(c) =>
      HasNameIff(d.fields, c.name);
      assert Names(d.fields + [IcebergField(d.maxId + 1, c)]) == Names(d.fields) + [c.name];
    case DropColumn(name) => HasNameIff(d.fields, name); DropNames(d.fields, name);
    case RenameColumn(o, n) => HasNameIff(d.fields, o); RenameNames(d.fields, o, n);
  }

  lemma {:induction false} ChangesOnNames(d: Draft, changes: seq<SchemaChange>)
    ensures ApplyChanges(d, changes).Ok? <==> AllPossible(Names(d.fields), changes)
    ensures ApplyChanges(d, changes).Ok? ==>
              Names(ApplyChanges(d, changes).value.fields) == AllNames(Names(d.fields), changes)
  {
    if changes != [] {
      var front := ApplyChanges(d, changes[..|changes| - 1]);
      ChangesOnNames(d, changes[..|changes| - 1]);
      if front.Ok? { ChangeOnNames(front.value, changes[|changes| - 1]); }
    }
  }

  lemma {:induction false} FailureStays(start: Draft, changes: seq<SchemaChange>, i: nat)
    requires i <= |changes| && ApplyChanges(start, changes[..i]).Err?
    ensures ApplyChanges(start, changes) == ApplyChanges(start, changes[..i])
    decreases |changes| - i
  {
    if i < |changes| {
      assert changes[..i + 1][..i] == changes[..i];
      FailureStays(start, changes, i + 1);
    } else {
      assert changes[..i] == changes;
    }
  }

  /** The loop over the requested changes. It succeeds exactly when each change is possible on the
      names the earlier ones leave; then the names are those, added columns have taken the next ids,
      and no id occurs twice. */
  method EvolveFields(start: Draft, changes: seq<SchemaChange>) returns (r: Result<Draft>)
    ensures r == ApplyChanges(start, changes)
    ensures r.Ok? <==> AllPossible(Names(start.fields), changes)
    ensures r.Ok? ==> Names(r.value.fields) == AllNames(Names(start.fields), changes)
    ensures r.Ok? && Sound(start) ==> Sound(r.value) && r.value.maxId == start.maxId + Adds(changes)
  {
    var fields, maxId := start.fields, start.maxId;
    ChangesOnNames(start, changes);
    for i := 0 to |changes|
      invariant ApplyChanges(start, changes[..i]) == Ok(Draft(fields, maxId))
    {
      assert changes[..i + 1][..i] == changes[..i];
      var step := ApplyChange(Draft(fields, maxId), changes[i]);
      if step.Err? {
        FailureStays(start, changes, i + 1);
        return step;
      }
      fields, maxId := step.value.fields, step.value.maxId;
    }
    assert changes[..|changes|] == changes;
    if Sound(start) { ChangesKeepSound(start, changes); }
    return Ok(Draft(fields, maxId));
  }

  // ---------- Names ----------

  /** A rename onto another column's name is the one change that makes two columns share a name. */
  predicate RenamesOnto(names: seq<string>, change: SchemaChange) {
    change.RenameColumn? && change.newName != change.oldName && change.newName in names
  }

  lemma {:induction false} WithoutKeeps(names: seq<string>, name: string)
    ensures forall x :: x in Without(names, name) ==> x in names
    ensures NoDuplicates(names) ==> NoDuplicates(Without(names, name))
  {
    if names != [] {
      WithoutKeeps(names[1..], name);
      assert names == [names[0]] + names[1..];
      var kept := Without(names[1..], name);
      DropFirst(names[0], names[1..]);
      AddFirst(names[0], names[1..], kept);
      assert [] + kept == kept;
    }
  }

  lemma {:induction false} ReplacedAt(names: seq<string>, oldName: string, newName: string) returns (i: nat)
    requires oldName in names
    ensures i < |names| && names[i] == oldName && Replaced(names, oldName, newName) == names[i := newName]
  {
    if names[0] == oldName {
      i := 0;
    } else {
      i := ReplacedAt(names[1..], oldName, newName);
      i := i + 1;
      assert names[i := newName] == [names[0]] + names[1..][i - 1 := newName];
    }
  }

  lemma {:induction false} UpdateDuplicatesIff(names: seq<string>, i: nat, newName: string)
    requires i < |names| && NoDuplicates(names)
    ensures NoDuplicates(names[i := newName]) <==> newName == names[i] || newName !in names
  {
    var after := names[i := newName];
    if newName != names[i] && newName in names {
      var j :| 0 <= j < |names| && names[j] == newName;
      assert after[i] == after[j] && i != j;
    }
  }

  lemma {:induction false} ChangeDuplicatesIff(names: seq<string>, change: SchemaChange)
    requires NoDuplicates(names) && PossibleOn(names, change)
    ensures NoDuplicates(NamesAfter(names, change)) <==> !RenamesOnto(names, change)
  {
    match change
    case AddColumn(c) =>
    case DropColumn(name) => WithoutKeeps(names, name);
    case RenameColumn(o, n) =>
      var i := ReplacedAt(names, o, n);
      UpdateDuplicatesIff(names, i, n);
  }

  ghost predicate DistinctThroughout(names: seq<string>, changes: seq<SchemaChange>) {
    forall k {:trigger AllNames(names, changes[..k])} :: 0 <= k <= |changes| ==>
      NoDuplicates(AllNames(names, changes[..k]))
  }

  ghost predicate NoRenameOnto(names: seq<string>, changes: seq<SchemaChange>) {
    forall k {:trigger AllNames(names, changes[..k])} :: 0 <= k < |changes| ==>
      !RenamesOnto(AllNames(names, changes[..k]), changes[k])
  }

  lemma {:induction false} PossibleAt(names: seq<string>, changes: seq<SchemaChange>, k: nat)
    requires AllPossible(names, changes) && k < |changes|
    ensures PossibleOn(AllNames(names, changes[..k]), changes[k])
    ensures AllNames(names, changes[..k + 1]) == NamesAfter(AllNames(names, changes[..k]), changes[k])
    decreases |changes|
  {
    assert changes[..k + 1][..k] == changes[..k];
    if k < |changes| - 1 {
      PossibleAt(names, changes[..|changes| - 1], k);
      assert changes[..|changes| - 1][..k] == changes[..k];
    }
  }

  /** The code does not keep column names unique. They stay unique throughout a call exactly when no
      change renames a column onto the name of another. */
  lemma {:induction false} NamesStayDistinctIff(names: seq<string>, changes: seq<SchemaChange>)
    requires NoDuplicates(names) && AllPossible(names, changes)
    ensures DistinctThroughout(names, changes) <==> NoRenameOnto(names, changes)
  {
    if DistinctThroughout(names, changes) {
      forall k | 0 <= k < |changes| ensures !RenamesOnto(AllNames(names, changes[..k]), changes[k]) {
        PossibleAt(names, changes, k);
        assert NoDuplicates(AllNames(names, changes[..k])) && NoDuplicates(AllNames(names, changes[..k + 1]));
        ChangeDuplicatesIff(AllNames(names, changes[..k]), changes[k]);
      }
    }
    if NoRenameOnto(names, changes) {
      forall k | 0 <= k <= |changes| ensures NoDuplicates(AllNames(names, changes[..k])) {
        DistinctUpTo(names, changes, k);
      }
    }
  }

  lemma {:induction false} DistinctUpTo(names: seq<string>, changes: seq<SchemaChange>, k: nat)
    requires NoDuplicates(names) && AllPossible(names, changes) && NoRenameOnto(names, changes) && k <= |changes|
    ensures NoDuplicates(AllNames(names, changes[..k]))
    decreases k
  {
    if k > 0 {
      DistinctUpTo(names, changes, k - 1);
      PossibleAt(names, changes, k - 1);
      assert !RenamesOnto(AllNames(names, changes[..k - 1]), changes[k - 1]);
      ChangeDuplicatesIff(AllNames(names, changes[..k - 1]), changes[k - 1]);
    }
  }
}
