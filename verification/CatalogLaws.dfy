/** What a client can rely on: each write to the catalog is read back, refusals change nothing, and
    what a write is not about stays as it was. And where the metadata of different tables is kept. */
module CatalogLaws {
  import opened Catalog
  import opened CatalogNames
  import opened Texts

  // ---------- What a client can observe ----------

  /** The catalog lists the tables of that namespace. */
  ghost predicate KnowsNamespace(s: State, ns: string) {
    Handle(s, ToListTables(ns)).1.Tables?
  }

  ghost predicate KnowsTable(s: State, ns: string, name: string) {
    Handle(s, ToCheckTable(ns, name)).1 == Present(true)
  }

  ghost predicate Loads(s: State, ns: string, name: string, entry: Entry) {
    Handle(s, ToLoadTable(ns, name)).1 == Loaded(entry)
  }

  ghost predicate Lists(s: State, ns: string, name: string) {
    KnowsNamespace(s, ns) && name in Handle(s, ToListTables(ns)).1.names
  }

  /** The same namespaces, and the same tables except those under that key. */
  ghost predicate SameElsewhere(s: State, s': State, key: string) {
    && (forall ns :: KnowsNamespace(s', ns) <==> KnowsNamespace(s, ns))
    && forall ns, name :: TableKey(ns, name) != key ==>
         (KnowsTable(s', ns, name) <==> KnowsTable(s, ns, name)) &&
         forall e :: Loads(s', ns, name, e) <==> Loads(s, ns, name, e)
  }

  // ---------- Writes are read back ----------

  /** A table is created exactly if it is named, its namespace exists and it does not; then it is loaded
      with the metadata given, under the reply's location. */
  lemma {:induction false} CreatedIsLoaded(s: State, ns: string, name: string, metadata: string)
    ensures var (s', reply) := Handle(s, ToCreateTable(ns, name, metadata));
            && (reply.Loaded? <==> name != "" && KnowsNamespace(s, ns) && !KnowsTable(s, ns, name))
            && SameElsewhere(s, s', TableKey(ns, name))
            && (if reply.Loaded? then
                  && reply.entry.metadata == metadata && Loads(s', ns, name, reply.entry)
                  && KnowsTable(s', ns, name) && Lists(s', ns, name)
                else
                  && s' == s
                  && reply == Refused(if name == "" then EmptyName
                                      else if !KnowsNamespace(s, ns) then NoSuchNamespace else TableExists))
  {
    var s' := Handle(s, ToCreateTable(ns, name, metadata)).0;
    OwnPrefix(ns, name);
    if s' != s { assert TableKey(ns, name) in s'.tables; }
  }

  /** A table is dropped exactly if its namespace exists and it does; then it is gone. */
  lemma {:induction false} DroppedIsGone(s: State, ns: string, name: string)
    ensures var (s', reply) := Handle(s, ToDropTable(ns, name));
            && (reply == Done <==> KnowsNamespace(s, ns) && KnowsTable(s, ns, name))
            && SameElsewhere(s, s', TableKey(ns, name))
            && (if reply == Done then !KnowsTable(s', ns, name) && forall e :: !Loads(s', ns, name, e)
                else s' == s && reply == Refused(if KnowsNamespace(s, ns) then NoSuchTable else NoSuchNamespace))
  {
  }

  /** A namespace is created exactly if it has levels and does not exist; then it exists, the tables
      and the other namespaces stay. */
  lemma {:induction false} CreatedNamespaceIsKnown(s: State, levels: seq<string>, properties: map<string, string>)
    ensures var key := NamespaceKey(levels);
            var (s', reply) := Handle(s, ToCreateNamespace(levels, properties));
            && (reply == Done <==> levels != [] && !KnowsNamespace(s, key))
            && (forall ns :: KnowsNamespace(s', ns) <==> KnowsNamespace(s, ns) || (reply == Done && ns == key))
            && s'.tables == s.tables
            && (if reply == Done then s'.namespaces[key] == Metadata(levels, properties)
                else s' == s && reply == Refused(if levels == [] then EmptyName else NamespaceExists))
  {
  }

  /** A namespace is dropped exactly if it exists and lists no table; then it is gone, the tables and the
      other namespaces stay. */
  lemma {:induction false} DroppedNamespaceIsGone(s: State, ns: string)
    ensures var (s', reply) := Handle(s, ToDropNamespace(ns));
            && (reply == Done <==> KnowsNamespace(s, ns) && forall name :: !Lists(s, ns, name))
            && (forall other :: KnowsNamespace(s', other) <==>
                  KnowsNamespace(s, other) && !(reply == Done && other == ns))
            && s'.tables == s.tables
            && (reply != Done ==>
                  s' == s && reply == Refused(if KnowsNamespace(s, ns) then NotEmpty else NoSuchNamespace))
  {
    if ns in s.namespaces {
      forall name ensures Lists(s, ns, name) <==> TableKey(ns, name) in s.tables {
        ListsIff(s, ns, name);
      }
      if HasTables(s.tables, ns) {
        var k :| k in s.tables && StartsWith(k, Prefix(ns));
        assert TableKey(ns, k[|Prefix(ns)|..]) == k;
        assert Lists(s, ns, k[|Prefix(ns)|..]);
      } else {
        forall name ensures !Lists(s, ns, name) { OwnPrefix(ns, name); }
      }
    }
  }

  lemma {:induction false} ListsIff(s: State, ns: string, name: string)
    requires ns in s.namespaces
    ensures Lists(s, ns, name) <==> TableKey(ns, name) in s.tables
  {
    OwnPrefix(ns, name);
    if Lists(s, ns, name) {
      var k :| k in s.tables && StartsWith(k, Prefix(ns)) && k[|Prefix(ns)|..] == name;
      assert TableKey(ns, name) == k;
    }
  }

  /** Registering always succeeds: afterwards the namespace exists and the table is loaded with the entry
      given; all other namespaces and tables stay. */
  lemma {:induction false} RegisteredIsLoaded(s: State, ns: string, name: string, entry: Entry)
    ensures var (s', reply) := Handle(s, ToRegister(ns, name, entry));
            && reply == Done && KnowsNamespace(s', ns) && Loads(s', ns, name, entry) && Lists(s', ns, name)
            && (forall other :: KnowsNamespace(s', other) <==> KnowsNamespace(s, other) || other == ns)
            && (forall other, t :: TableKey(other, t) != TableKey(ns, name) ==>
                  (KnowsTable(s', other, t) <==> KnowsTable(s, other, t)))
            && (KnowsNamespace(s, ns) ==> SameElsewhere(s, s', TableKey(ns, name)))
            && (!KnowsNamespace(s, ns) ==>
                  s'.namespaces[ns] ==
                  Metadata(Levels(ns), map["owner" := "rustlake-cdc", "created-by" := "auto-register"]))
  {
    ListsIff(Handle(s, ToRegister(ns, name, entry)).0, ns, name);
  }

  /** An update succeeds exactly if the table exists, and then replaces its entry and nothing else. */
  lemma {:induction false} UpdatedIsLoaded(s: State, ns: string, name: string, entry: Entry)
    ensures var (s', reply) := Handle(s, ToUpdateMetadata(ns, name, entry));
            && (reply == Done <==> KnowsTable(s, ns, name)) && SameElsewhere(s, s', TableKey(ns, name))
            && (if reply == Done then
                  KnowsTable(s', ns, name) && (KnowsNamespace(s, ns) ==> Loads(s', ns, name, entry))
                else s' == s && reply == Refused(NoSuchTable))
  {
  }

  /** Whatever is listed or loaded exists, and the other way round. */
  lemma {:induction false} ReadsAgree(s: State, ns: string, name: string)
    requires KnowsNamespace(s, ns)
    ensures Lists(s, ns, name) <==> KnowsTable(s, ns, name)
    ensures KnowsTable(s, ns, name) <==> exists e :: Loads(s, ns, name, e)
    ensures Handle(s, ToListTables(ns)).1.namespace == Levels(ns)
  {
    ListsIff(s, ns, name);
    if KnowsTable(s, ns, name) { assert Loads(s, ns, name, s.tables[TableKey(ns, name)]); }
  }

  // ---------- Locations ----------

  lemma {:induction false} SlashesOnly(s: string)
    ensures |ReplaceAll(s, ".", '/')| == |s|
    ensures forall i :: 0 <= i < |s| ==> ReplaceAll(s, ".", '/')[i] == if s[i] == '.' then '/' else s[i]
  {
    if s != "" { SlashesOnly(s[1..]); }
  }

  /** Where a table is kept below the warehouse. */
  function Place(ns: string, name: string): string {
    ReplaceAll(ns, ".", '/') + "/" + name
  }

  lemma {:induction false} SameLocationIff(ns1: string, name1: string, ns2: string, name2: string)
    ensures MetadataLocation(ns1, name1) == MetadataLocation(ns2, name2) <==> Place(ns1, name1) == Place(ns2, name2)
  {
    var a, z := "s3://rustlake-warehouse/", "/metadata/v1.metadata.json";
    Bracketed(a, Place(ns1, name1), z, Place(ns2, name2));
    assert MetadataLocation(ns1, name1) == a + Place(ns1, name1) + z;
    assert MetadataLocation(ns2, name2) == a + Place(ns2, name2) + z;
  }

  lemma {:induction false} Bracketed(a: string, x: string, z: string, y: string)
    ensures a + x + z == a + y + z <==> x == y
  {
    if a + x + z == a + y + z {
      assert |x| == |y|;
      assert (a + x + z)[|a|..|a| + |x|] == x && (a + y + z)[|a|..|a| + |y|] == y;
    }
  }

  /** A slash of the name with no dot before it. */
  ghost predicate FreeSlash(name: string) {
    exists i :: 0 <= i < |name| && name[i] == '/' && '.' !in name[..i]
  }

  ghost predicate OwnLocation(ns: string, name: string) {
    forall ns', name' :: MetadataLocation(ns', name') == MetadataLocation(ns, name) ==> ns' == ns && name' == name
  }

  /** Different tables may be kept in the same place. No other table, in any namespace, would be kept
      where this one is exactly if the namespace holds no dot and no slash and each slash of the name
      comes after a dot. */
  lemma {:induction false} LocationIsUniqueIff(ns: string, name: string)
    ensures OwnLocation(ns, name) <==> '/' !in ns && '.' !in ns && !FreeSlash(name)
  {
    if '/' in ns || '.' in ns {
      TwinNamespace(ns, name);
    } else if FreeSlash(name) {
      TwinName(ns, name);
    } else {
      forall ns', name' | MetadataLocation(ns', name') == MetadataLocation(ns, name)
        ensures ns' == ns && name' == name
      {
        SameLocationIff(ns', name', ns, name);
        NoTwin(ns, name, ns', name');
      }
    }
  }

  lemma {:induction false} NoDots(ns: string)
    requires '.' !in ns
    ensures ReplaceAll(ns, ".", '/') == ns
  {
    SlashesOnly(ns);
    assert |ReplaceAll(ns, ".", '/')| == |ns|;
  }

  lemma {:induction false} TwinNamespace(ns: string, name: string)
    requires '/' in ns || '.' in ns
    ensures !OwnLocation(ns, name)
  {
    var i :| 0 <= i < |ns| && (ns[i] == '/' || ns[i] == '.');
    var ns' := ns[i := if ns[i] == '/' then '.' else '/'];
    SlashesOnly(ns);
    SlashesOnly(ns');
    var a, b := ReplaceAll(ns, ".", '/'), ReplaceAll(ns', ".", '/');
    assert |a| == |b| && forall j :: 0 <= j < |a| ==> a[j] == b[j];
    SameLocationIff(ns', name, ns, name);
    assert ns'[i] != ns[i];
  }

  lemma {:induction false} TwinName(ns: string, name: string)
    requires FreeSlash(name) && '.' !in ns
    ensures !OwnLocation(ns, name)
  {
    var i :| 0 <= i < |name| && name[i] == '/' && '.' !in name[..i];
    var ns' := ns + "/" + name[..i];
    NoDots(ns);
    NoDots(ns');
    assert name == name[..i] + "/" + name[i + 1..];
    assert ns' + "/" + name[i + 1..] == ns + "/" + name;
    SameLocationIff(ns', name[i + 1..], ns, name);
    assert |ns'| > |ns|;
  }

  lemma {:induction false} NoTwin(ns: string, name: string, ns': string, name': string)
    requires '/' !in ns && '.' !in ns && !FreeSlash(name) && Place(ns', name') == Place(ns, name)
    ensures ns' == ns && name' == name
  {
    NoDots(ns);
    SlashesOnly(ns');
    var p := ReplaceAll(ns', ".", '/');
    var whole := ns + "/" + name;
    assert whole == p + "/" + name' && whole[|p|] == '/' && whole[..|p|] == p;
    assert '.' !in p;
    if |p| > |ns| {
      SlashAfter(ns, name, p);
    } else if |p| == |ns| {
      assert whole[..|ns|] == ns && whole[|ns| + 1..] == name && whole[|p| + 1..] == name';
      assert forall j :: 0 <= j < |ns| ==> p[j] == ns[j] && ns[j] != '/';
    }
  }

  lemma {:induction false} SlashAfter(ns: string, name: string, p: string)
    requires |ns| < |p| < |ns| + 1 + |name| && (ns + "/" + name)[..|p|] == p && (ns + "/" + name)[|p|] == '/'
    requires '.' !in p
    ensures FreeSlash(name)
  {
    var i := |p| - |ns| - 1;
    var whole := ns + "/" + name;
    assert whole[|p|] == name[i];
    forall j | 0 <= j < i ensures name[..i][j] != '.' {
      assert whole[..|p|][|ns| + 1 + j] == name[j];
    }
  }
}
