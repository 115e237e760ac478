/** The catalog's shared state and the handlers that update it. Each keeps every table anchored in a
    namespace and, where namespaces are clear, does what its request means on the two-level catalog. */
module CatalogHandlers {
  import opened Catalog
  import opened CatalogNames

  class CatalogState {
    var namespaces: map<string, Metadata>
    var tables: map<string, Entry>
    var nextSnapshotId: int

    /** Every snapshot id handed out so far. */
    ghost var issued: set<int>

    ghost predicate Valid()
      reads this
    {
      Anchored(Now()) && forall id :: id in issued ==> id < nextSnapshotId
    }

    ghost function Now(): State
      reads this
    {
      State(namespaces, tables)
    }

    constructor ()
      ensures Valid() && Good(Now()) && issued == {}
      ensures Now() == Fresh && nextSnapshotId == 1
    {
      namespaces := map["default" := Metadata(["default"], map["owner" := "rustlake"])];
      tables := map[];
      nextSnapshotId := 1;
      issued := {};
      new;
      NoColonIsClear("default");
    }

    /** Snapshot ids never repeat. */
    method AllocSnapshotId() returns (id: int)
      requires Valid()
      modifies `nextSnapshotId, `issued
      ensures Valid() && id !in old(issued) && issued == old(issued) + {id}
    {
      id := nextSnapshotId;
      nextSnapshotId := nextSnapshotId + 1;
      issued := issued + {id};
    }

    method HandleCreateNamespace(levels: seq<string>, properties: map<string, string>) returns (reply: Reply)
      requires Valid()
      modifies `namespaces
      ensures Valid() && (Now(), reply) == Handle(old(Now()), ToCreateNamespace(levels, properties))
      ensures Good(old(Now())) && Clear(NamespaceKey(levels)) ==>
                Good(Now()) && (Abs(Now()), reply) == Abs(old(Now())).CreateNamespace(levels, properties)
    {
      ghost var r := ToCreateNamespace(levels, properties);
      Served(Now(), r);
      if levels == [] { return Refused(EmptyName); }
      var key := NamespaceKey(levels);
      if key in namespaces { return Refused(NamespaceExists); }
      namespaces := namespaces[key := Metadata(levels, properties)];
      return Done;
    }

    method HandleDropNamespace(ns: string) returns (reply: Reply)
      requires Valid()
      modifies `namespaces
      ensures Valid() && (Now(), reply) == Handle(old(Now()), ToDropNamespace(ns))
      ensures Good(old(Now())) && Clear(ns) ==> Good(Now()) && (Abs(Now()), reply) == Abs(old(Now())).DropNamespace(ns)
    {
      Served(Now(), ToDropNamespace(ns));
      if ns !in namespaces { return Refused(NoSuchNamespace); }
      if HasTables(tables, ns) { return Refused(NotEmpty); }
      namespaces := namespaces - {ns};
      return Done;
    }

    method HandleCreateTable(ns: string, name: string, metadata: string) returns (reply: Reply)
      requires Valid()
      modifies `tables, `nextSnapshotId, `issued
      ensures Valid() && (Now(), reply) == Handle(old(Now()), ToCreateTable(ns, name, metadata))
      ensures Good(old(Now())) && Clear(ns) ==>
                Good(Now()) && (Abs(Now()), reply) ==
                  Abs(old(Now())).CreateTable(ns, name, NewEntry(ns, name, metadata))
      ensures reply.Loaded? ==> reply.entry == Entry(MetadataLocation(ns, name), metadata)
      ensures old(issued) <= issued && (issued == old(issued) <==> !reply.Loaded?)
    {
      Served(Now(), ToCreateTable(ns, name, metadata));
      if name == "" { return Refused(EmptyName); }
      if ns !in namespaces { return Refused(NoSuchNamespace); }
      var key := TableKey(NamespaceKey(Levels(ns)), name);
      KeyRoundTrips(ns, []);
      if key in tables { return Refused(TableExists); }
      var _ := AllocSnapshotId();
      var entry := NewEntry(ns, name, metadata);
      tables := tables[key := entry];
      return Loaded(entry);
    }

    method HandleDropTable(ns: string, name: string) returns (reply: Reply)
      requires Valid()
      modifies `tables
      ensures Valid() && (Now(), reply) == Handle(old(Now()), ToDropTable(ns, name))
      ensures Good(old(Now())) && Clear(ns) ==>
                Good(Now()) && (Abs(Now()), reply) == Abs(old(Now())).DropTable(ns, name)
    {
      Served(Now(), ToDropTable(ns, name));
      if ns !in namespaces { return Refused(NoSuchNamespace); }
      var key := TableKey(ns, name);
      if key !in tables { return Refused(NoSuchTable); }
      tables := tables - {key};
      return Done;
    }

    method RegisterTable(ns: string, name: string, entry: Entry) returns (reply: Reply)
      requires Valid()
      modifies `namespaces, `tables
      ensures Valid() && (Now(), reply) == Handle(old(Now()), ToRegister(ns, name, entry))
      ensures Good(old(Now())) && Clear(ns) ==>
                Good(Now()) && (Abs(Now()), reply) == Abs(old(Now())).Register(ns, name, entry, AutoMetadata(ns))
    {
      Served(Now(), ToRegister(ns, name, entry));
      if ns !in namespaces { namespaces := namespaces[ns := AutoMetadata(ns)]; }
      tables := tables[TableKey(ns, name) := entry];
      return Done;
    }

    method UpdateTableMetadata(ns: string, name: string, entry: Entry) returns (reply: Reply)
      requires Valid()
      modifies `tables
      ensures Valid() && (Now(), reply) == Handle(old(Now()), ToUpdateMetadata(ns, name, entry))
      ensures Good(old(Now())) && Clear(ns) ==>
                Good(Now()) && (Abs(Now()), reply) == Abs(old(Now())).UpdateMetadata(ns, name, entry)
    {
      Served(Now(), ToUpdateMetadata(ns, name, entry));
      if TableKey(ns, name) !in tables { return Refused(NoSuchTable); }
      tables := tables[TableKey(ns, name) := entry];
      return Done;
    }

    /** The requests that only read. */
    method Read(r: Request) returns (reply: Reply)
      requires r.ToListTables? || r.ToLoadTable? || r.ToCheckTable? || r.ToListAll?
      requires Valid()
      ensures (Now(), reply) == Handle(Now(), r)
    {
      match r {
        case ToListTables(ns) =>
          if ns !in namespaces { return Refused(NoSuchNamespace); }
          return Tables(Levels(ns), NamesUnder(tables, ns));
        case ToLoadTable(ns, name) =>
          if ns !in namespaces { return Refused(NoSuchNamespace); }
          if TableKey(ns, name) !in tables { return Refused(NoSuchTable); }
          return Loaded(tables[TableKey(ns, name)]);
        case ToCheckTable(ns, name) => return Present(TableKey(ns, name) in tables);
        case ToListAll => return AllTables(FlatRows(tables));
      }
    }

    method Serve(r: Request) returns (reply: Reply)
      requires Valid()
      modifies this
      ensures Valid() && (Now(), reply) == Handle(old(Now()), r)
    {
      match r {
        case ToCreateNamespace(levels, properties) => reply := HandleCreateNamespace(levels, properties);
        case ToDropNamespace(ns) => reply := HandleDropNamespace(ns);
        case ToCreateTable(ns, name, metadata) => reply := HandleCreateTable(ns, name, metadata);
        case ToDropTable(ns, name) => reply := HandleDropTable(ns, name);
        case ToRegister(ns, name, entry) => reply := RegisterTable(ns, name, entry);
        case ToUpdateMetadata(ns, name, entry) => reply := UpdateTableMetadata(ns, name, entry);
        case _ => reply := Read(r);
      }
    }

    /** A whole history of requests: as long as all namespaces are clear, the client cannot tell the
        catalog from the two-level one. */
    method ServeAll(rs: seq<Request>) returns (replies: seq<Reply>)
      requires Valid()
      modifies this
      ensures Valid() && Now() == After(old(Now()), rs) && replies == Replies(old(Now()), rs)
      ensures Good(old(Now())) && (forall r :: r in rs ==> ClearRequest(r)) ==>
                replies == MeantReplies(Abs(old(Now())), rs)
    {
      ghost var start := Now();
      replies := [];
      assert rs[0..] == rs;
      for i := 0 to |rs|
        invariant Valid() && After(Now(), rs[i..]) == After(start, rs)
        invariant Replies(start, rs) == replies + Replies(Now(), rs[i..])
      {
        assert rs[i..][1..] == rs[i + 1..];
        ghost var before := Now();
        var reply := Serve(rs[i]);
        assert replies + ([reply] + Replies(Now(), rs[i + 1..])) == replies + [reply] + Replies(Now(), rs[i + 1..]);
        replies := replies + [reply];
      }
      if Good(start) && forall r :: r in rs ==> ClearRequest(r) { HistoryRefines(start, rs); }
    }
  }

  /** What every request guarantees, put together. */
  lemma {:induction false} Served(s: State, r: Request)
    ensures Anchored(s) ==> Anchored(Handle(s, r).0)
    ensures Good(s) && ClearRequest(r) ==> Good(Handle(s, r).0) && Same(Handle(s, r), Meaning(Abs(s), r))
  {
    if Anchored(s) { RequestKeepsAnchored(s, r); }
    if Good(s) && ClearRequest(r) {
      RequestRefines(s, r);
      RequestKeepsClear(s, r);
    }
  }
}
