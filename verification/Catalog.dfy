/** The in-memory REST catalog: two flat maps, of namespaces and of tables keyed `ns::table`, that
    stand for a map of namespaces each with its own tables. */
module Catalog {
  import opened CatalogNames
  import opened Texts

  /** Table metadata is opaque; only where it is kept matters. */
  datatype Entry = Entry(location: string, metadata: string)

  datatype Metadata = Metadata(levels: seq<string>, properties: map<string, string>)

  datatype Error = EmptyName | NamespaceExists | NoSuchNamespace | NotEmpty | TableExists | NoSuchTable

  datatype Reply =
    | Done
    | Refused(error: Error)
    | Tables(namespace: seq<string>, names: set<string>)
    | Loaded(entry: Entry)
    | AllTables(rows: set<(string, string, string)>)
    | Present(yes: bool)

  const OWNER := map["owner" := "rustlake-cdc", "created-by" := "auto-register"]

  function MetadataLocation(ns: string, name: string): string {
    "s3://rustlake-warehouse/" + ReplaceAll(ns, ".", '/') + "/" + name + "/metadata/v1.metadata.json"
  }

  /** The entry of a new table. */
  function NewEntry(ns: string, name: string, metadata: string): Entry {
    Entry(MetadataLocation(ns, name), metadata)
  }

  /** The metadata of a namespace created by a registration. */
  function AutoMetadata(ns: string): Metadata {
    Metadata(Levels(ns), OWNER)
  }

  // ---------- The flat catalog ----------

  datatype State = State(namespaces: map<string, Metadata>, tables: map<string, Entry>) {
    function Put(ns: string, name: string, entry: Entry): State {
      this.(tables := tables[TableKey(ns, name) := entry])
    }

    function Add(ns: string, meta: Metadata): State {
      this.(namespaces := namespaces[ns := meta])
    }
  }

  const Fresh := State(map["default" := Metadata(["default"], map["owner" := "rustlake"])], map[])

  function NamesUnder(tables: map<string, Entry>, ns: string): set<string> {
    set k | k in tables && StartsWith(k, Prefix(ns)) :: k[|Prefix(ns)|..]
  }

  predicate HasTables(tables: map<string, Entry>, ns: string) {
    exists k :: k in tables && StartsWith(k, Prefix(ns))
  }

  function CreateNamespace(s: State, levels: seq<string>, properties: map<string, string>): (State, Reply) {
    var key := NamespaceKey(levels);
    if levels == [] then (s, Refused(EmptyName))
    else if key in s.namespaces then (s, Refused(NamespaceExists))
    else (s.Add(key, Metadata(levels, properties)), Done)
  }

  function DropNamespace(s: State, ns: string): (State, Reply) {
    if ns !in s.namespaces then (s, Refused(NoSuchNamespace))
    else if HasTables(s.tables, ns) then (s, Refused(NotEmpty))
    else (s.(namespaces := s.namespaces - {ns}), Done)
  }

  function ListTables(s: State, ns: string): Reply {
    if ns !in s.namespaces then Refused(NoSuchNamespace) else Tables(Levels(ns), NamesUnder(s.tables, ns))
  }

  function CreateTable(s: State, ns: string, name: string, entry: Entry): (State, Reply) {
    if name == "" then (s, Refused(EmptyName))
    else if ns !in s.namespaces then (s, Refused(NoSuchNamespace))
    else if TableKey(ns, name) in s.tables then (s, Refused(TableExists))
    else (s.Put(ns, name, entry), Loaded(entry))
  }

  function LoadTable(s: State, ns: string, name: string): Reply {
    if ns !in s.namespaces then Refused(NoSuchNamespace)
    else if TableKey(ns, name) in s.tables then Loaded(s.tables[TableKey(ns, name)])
    else Refused(NoSuchTable)
  }

  function DropTable(s: State, ns: string, name: string): (State, Reply) {
    if ns !in s.namespaces then (s, Refused(NoSuchNamespace))
    else if TableKey(ns, name) !in s.tables then (s, Refused(NoSuchTable))
    else (s.(tables := s.tables - {TableKey(ns, name)}), Done)
  }

  /** `auto` describes the namespace if it has to be created. */
  function Register(s: State, ns: string, name: string, entry: Entry, auto: Metadata): (State, Reply) {
    var s1 := if ns in s.namespaces then s else s.Add(ns, auto);
    (s1.Put(ns, name, entry), Done)
  }

  /** Neither this nor the existence check asks whether the namespace exists. */
  function UpdateMetadata(s: State, ns: string, name: string, entry: Entry): (State, Reply) {
    if TableKey(ns, name) in s.tables then (s.Put(ns, name, entry), Done) else (s, Refused(NoSuchTable))
  }

  function TableExistsReply(s: State, ns: string, name: string): Reply {
    Present(TableKey(ns, name) in s.tables)
  }

  function FlatRows(tables: map<string, Entry>): set<(string, string, string)> {
    set k | k in tables :: (SplitKey(k).0, SplitKey(k).1, tables[k].location)
  }

  // ---------- The two-level catalog ----------

  datatype Space = Space(meta: Metadata, tables: map<string, Entry>)

  datatype TwoLevel = TwoLevel(spaces: map<string, Space>) {
    function Put(ns: string, name: string, entry: Entry): TwoLevel
      requires ns in spaces
    {
      TwoLevel(spaces[ns := Space(spaces[ns].meta, spaces[ns].tables[name := entry])])
    }

    function Add(ns: string, meta: Metadata): TwoLevel {
      TwoLevel(spaces[ns := Space(meta, map[])])
    }

    predicate Has(ns: string, name: string) {
      ns in spaces && name in spaces[ns].tables
    }

    // What every request should do.

    function CreateNamespace(levels: seq<string>, properties: map<string, string>): (TwoLevel, Reply) {
      var key := NamespaceKey(levels);
      if levels == [] then (this, Refused(EmptyName))
      else if key in spaces then (this, Refused(NamespaceExists))
      else (Add(key, Metadata(levels, properties)), Done)
    }

    function DropNamespace(ns: string): (TwoLevel, Reply) {
      if ns !in spaces then (this, Refused(NoSuchNamespace))
      else if spaces[ns].tables != map[] then (this, Refused(NotEmpty))
      else (TwoLevel(spaces - {ns}), Done)
    }

    function ListTables(ns: string): Reply {
      if ns !in spaces then Refused(NoSuchNamespace) else Tables(Levels(ns), spaces[ns].tables.Keys)
    }

    function CreateTable(ns: string, name: string, entry: Entry): (TwoLevel, Reply) {
      if name == "" then (this, Refused(EmptyName))
      else if ns !in spaces then (this, Refused(NoSuchNamespace))
      else if Has(ns, name) then (this, Refused(TableExists))
      else (Put(ns, name, entry), Loaded(entry))
    }

    function LoadTable(ns: string, name: string): Reply {
      if ns !in spaces then Refused(NoSuchNamespace)
      else if Has(ns, name) then Loaded(spaces[ns].tables[name])
      else Refused(NoSuchTable)
    }

    function DropTable(ns: string, name: string): (TwoLevel, Reply) {
      if ns !in spaces then (this, Refused(NoSuchNamespace))
      else if !Has(ns, name) then (this, Refused(NoSuchTable))
      else (TwoLevel(spaces[ns := Space(spaces[ns].meta, spaces[ns].tables - {name})]), Done)
    }

    function Register(ns: string, name: string, entry: Entry, auto: Metadata): (TwoLevel, Reply) {
      var a := if ns in spaces then this else Add(ns, auto);
      (a.Put(ns, name, entry), Done)
    }

    function UpdateMetadata(ns: string, name: string, entry: Entry): (TwoLevel, Reply) {
      if Has(ns, name) then (Put(ns, name, entry), Done) else (this, Refused(NoSuchTable))
    }
  }

  function NestedRows(a: TwoLevel): set<(string, string, string)> {
    set ns, name | ns in a.spaces && name in a.spaces[ns].tables :: (ns, name, a.spaces[ns].tables[name].location)
  }

  /** Namespaces are given as levels in request bodies and as keys, already decoded, in paths. */
  datatype Request =
    | ToCreateNamespace(levels: seq<string>, properties: map<string, string>)
    | ToDropNamespace(ns: string)
    | ToListTables(ns: string)
    | ToCreateTable(ns: string, name: string, metadata: string)
    | ToLoadTable(ns: string, name: string)
    | ToDropTable(ns: string, name: string)
    | ToCheckTable(ns: string, name: string)
    | ToRegister(ns: string, name: string, entry: Entry)
    | ToUpdateMetadata(ns: string, name: string, entry: Entry)
    | ToListAll

  function Meaning(a: TwoLevel, r: Request): (TwoLevel, Reply) {
    match r
    case ToCreateNamespace(levels, properties) => a.CreateNamespace(levels, properties)
    case ToDropNamespace(ns) => a.DropNamespace(ns)
    case ToListTables(ns) => (a, a.ListTables(ns))
    case ToCreateTable(ns, name, metadata) => a.CreateTable(ns, name, NewEntry(ns, name, metadata))
    case ToLoadTable(ns, name) => (a, a.LoadTable(ns, name))
    case ToDropTable(ns, name) => a.DropTable(ns, name)
    case ToCheckTable(ns, name) => (a, Present(a.Has(ns, name)))
    case ToRegister(ns, name, entry) => a.Register(ns, name, entry, AutoMetadata(ns))
    case ToUpdateMetadata(ns, name, entry) => a.UpdateMetadata(ns, name, entry)
    case ToListAll => (a, AllTables(NestedRows(a)))
  }

  /** What the handlers do. */
  function Handle(s: State, r: Request): (State, Reply) {
    match r
    case ToCreateNamespace(levels, properties) => CreateNamespace(s, levels, properties)
    case ToDropNamespace(ns) => DropNamespace(s, ns)
    case ToListTables(ns) => (s, ListTables(s, ns))
    case ToCreateTable(ns, name, metadata) => CreateTable(s, ns, name, NewEntry(ns, name, metadata))
    case ToLoadTable(ns, name) => (s, LoadTable(s, ns, name))
    case ToDropTable(ns, name) => DropTable(s, ns, name)
    case ToCheckTable(ns, name) => (s, TableExistsReply(s, ns, name))
    case ToRegister(ns, name, entry) => Register(s, ns, name, entry, AutoMetadata(ns))
    case ToUpdateMetadata(ns, name, entry) => UpdateMetadata(s, ns, name, entry)
    case ToListAll => (s, AllTables(FlatRows(s.tables)))
  }

  // ---------- Referential integrity ----------

  /** Every table key begins with the prefix of an existing namespace. */
  ghost predicate Anchored(s: State) {
    forall k :: k in s.tables ==> AnchoredKey(s.namespaces, k)
  }

  ghost predicate AnchoredKey(namespaces: map<string, Metadata>, k: string) {
    exists ns :: ns in namespaces && StartsWith(k, Prefix(ns))
  }

  lemma {:induction false} OwnPrefix(ns: string, name: string)
    ensures StartsWith(TableKey(ns, name), Prefix(ns)) && TableKey(ns, name)[|Prefix(ns)|..] == name
  {
  }

  lemma {:induction false} PutKeepsAnchored(s: State, ns: string, name: string, entry: Entry)
    requires Anchored(s) && ns in s.namespaces
    ensures Anchored(s.Put(ns, name, entry))
  {
    OwnPrefix(ns, name);
    assert AnchoredKey(s.namespaces, TableKey(ns, name));
  }

  lemma {:induction false} AddKeepsAnchored(s: State, ns: string, meta: Metadata)
    requires Anchored(s)
    ensures Anchored(s.Add(ns, meta))
  {
    forall k | k in s.tables ensures AnchoredKey(s.Add(ns, meta).namespaces, k) {
      assert AnchoredKey(s.namespaces, k);
      var other :| other in s.namespaces && StartsWith(k, Prefix(other));
      assert other in s.Add(ns, meta).namespaces;
    }
  }

  lemma {:induction false} DropKeepsAnchored(s: State, ns: string)
    requires Anchored(s)
    ensures Anchored(DropNamespace(s, ns).0)
  {
    forall k | k in s.tables ensures AnchoredKey(DropNamespace(s, ns).0.namespaces, k) {
      assert AnchoredKey(s.namespaces, k);
      var other :| other in s.namespaces && StartsWith(k, Prefix(other));
      assert other in DropNamespace(s, ns).0.namespaces;
    }
  }

  lemma {:induction false} RegisterKeepsAnchored(s: State, ns: string, name: string, entry: Entry, auto: Metadata)
    requires Anchored(s)
    ensures Anchored(Register(s, ns, name, entry, auto).0)
  {
    if ns in s.namespaces {
      PutKeepsAnchored(s, ns, name, entry);
    } else {
      AddKeepsAnchored(s, ns, auto);
      PutKeepsAnchored(s.Add(ns, auto), ns, name, entry);
    }
  }

  lemma {:induction false} CreateKeepsAnchored(s: State, ns: string, name: string, entry: Entry)
    requires Anchored(s)
    ensures Anchored(CreateTable(s, ns, name, entry).0)
  {
    if ns in s.namespaces { PutKeepsAnchored(s, ns, name, entry); }
  }

  lemma {:induction false} SameKeysKeepAnchored(s: State, t: State)
    requires Anchored(s) && s.namespaces == t.namespaces && t.tables.Keys <= s.tables.Keys
    ensures Anchored(t)
  {
    forall k | k in t.tables ensures AnchoredKey(t.namespaces, k) { assert k in s.tables.Keys; }
  }

  /** No request, whatever strings it carries, leaves a table without a namespace. */
  lemma {:induction false} RequestKeepsAnchored(s: State, r: Request)
    requires Anchored(s)
    ensures Anchored(Handle(s, r).0)
  {
    match r
    case ToCreateNamespace(levels, properties) =>
      AddKeepsAnchored(s, NamespaceKey(levels), Metadata(levels, properties));
    case ToDropNamespace(ns) => DropKeepsAnchored(s, ns);
    case ToCreateTable(ns, name, metadata) => CreateKeepsAnchored(s, ns, name, NewEntry(ns, name, metadata));
    case ToRegister(ns, name, entry) => RegisterKeepsAnchored(s, ns, name, entry, AutoMetadata(ns));
    case ToDropTable(ns, name) => SameKeysKeepAnchored(s, DropTable(s, ns, name).0);
    case ToUpdateMetadata(ns, name, entry) => SameKeysKeepAnchored(s, UpdateMetadata(s, ns, name, entry).0);
    case _ =>
  }

  // ---------- Refinement ----------

  /** The tables kept under a namespace's prefix. */
  function Under(tables: map<string, Entry>, ns: string): (m: map<string, Entry>)
    ensures m.Keys == NamesUnder(tables, ns)
  {
    assert forall k :: StartsWith(k, Prefix(ns)) ==> k == TableKey(ns, k[|Prefix(ns)|..]);
    map name | name in NamesUnder(tables, ns) :: tables[TableKey(ns, name)]
  }

  lemma {:induction false} UnderAt(tables: map<string, Entry>, ns: string, name: string)
    ensures name in Under(tables, ns) <==> TableKey(ns, name) in tables
    ensures name in Under(tables, ns) ==> Under(tables, ns)[name] == tables[TableKey(ns, name)]
  {
    OwnPrefix(ns, name);
    assert forall k :: StartsWith(k, Prefix(ns)) ==> k == TableKey(ns, k[|Prefix(ns)|..]);
    assert name in Under(tables, ns).Keys <==> name in NamesUnder(tables, ns);
  }

  function Abs(s: State): TwoLevel {
    TwoLevel(map ns | ns in s.namespaces :: Space(s.namespaces[ns], Under(s.tables, ns)))
  }

  lemma {:induction false} AbsAt(s: State, ns: string, name: string)
    ensures ns in Abs(s).spaces <==> ns in s.namespaces
    ensures Abs(s).Has(ns, name) <==> ns in s.namespaces && TableKey(ns, name) in s.tables
    ensures Abs(s).Has(ns, name) ==> Abs(s).spaces[ns].tables[name] == s.tables[TableKey(ns, name)]
  {
    UnderAt(s.tables, ns, name);
  }

  ghost predicate AllClear(s: State) {
    forall ns :: ns in s.namespaces ==> Clear(ns)
  }

  ghost predicate Good(s: State) {
    Anchored(s) && AllClear(s)
  }

  /** The namespace a request names, if any, has no `::` and does not end in a colon. */
  predicate ClearRequest(r: Request) {
    r.ToListAll? || Clear(if r.ToCreateNamespace? then NamespaceKey(r.levels) else r.ns)
  }

  ghost predicate Agree(m: map<string, Entry>, m': map<string, Entry>, name: string) {
    (name in m <==> name in m') && (name in m ==> m[name] == m'[name])
  }

  lemma {:induction false} SameMaps(m: map<string, Entry>, m': map<string, Entry>)
    requires forall name :: Agree(m, m', name)
    ensures m == m'
  {
    forall name ensures name in m.Keys <==> name in m'.Keys { assert Agree(m, m', name); }
    forall name | name in m ensures m[name] == m'[name] { assert Agree(m, m', name); }
  }

  lemma {:induction false} SameSpaces(a: TwoLevel, b: TwoLevel)
    requires a.spaces.Keys == b.spaces.Keys && forall ns :: ns in a.spaces ==> a.spaces[ns] == b.spaces[ns]
    ensures a == b
  {
  }

  lemma {:induction false} SameKey(ns: string, name: string, other: string, n: string)
    requires Clear(ns) && Clear(other)
    ensures TableKey(other, n) == TableKey(ns, name) <==> other == ns && n == name
  {
    if TableKey(other, n) == TableKey(ns, name) {
      KeySplitsIff(ns, name);
      KeySplitsIff(other, n);
    }
  }

  lemma {:induction false} UnderPut(tables: map<string, Entry>, ns: string, name: string, entry: Entry, other: string)
    requires Clear(ns) && Clear(other)
    ensures Under(tables[TableKey(ns, name) := entry], other)
         == if other == ns then Under(tables, ns)[name := entry] else Under(tables, other)
  {
    var tables' := tables[TableKey(ns, name) := entry];
    var expected := if other == ns then Under(tables, ns)[name := entry] else Under(tables, other);
    forall n ensures Agree(Under(tables', other), expected, n) {
      SameKey(ns, name, other, n);
      UnderAt(tables', other, n);
      UnderAt(tables, other, n);
    }
    SameMaps(Under(tables', other), expected);
  }

  lemma {:induction false} UnderDrop(tables: map<string, Entry>, ns: string, name: string, other: string)
    requires Clear(ns) && Clear(other)
    ensures Under(tables - {TableKey(ns, name)}, other)
         == if other == ns then Under(tables, ns) - {name} else Under(tables, other)
  {
    var tables' := tables - {TableKey(ns, name)};
    var expected := if other == ns then Under(tables, ns) - {name} else Under(tables, other);
    forall n ensures Agree(Under(tables', other), expected, n) {
      SameKey(ns, name, other, n);
      UnderAt(tables', other, n);
      UnderAt(tables, other, n);
    }
    SameMaps(Under(tables', other), expected);
  }

  /** A namespace that does not exist has no tables. */
  lemma {:induction false} NothingUnder(s: State, ns: string, name: string)
    requires Good(s) && Clear(ns) && ns !in s.namespaces
    ensures TableKey(ns, name) !in s.tables
  {
    if TableKey(ns, name) in s.tables {
      assert AnchoredKey(s.namespaces, TableKey(ns, name));
      var other :| other in s.namespaces && StartsWith(TableKey(ns, name), Prefix(other));
      PrefixesApart(ns, name, other);
    }
  }

  lemma {:induction false} EmptyUnder(s: State, ns: string)
    requires Good(s) && Clear(ns) && ns !in s.namespaces
    ensures Under(s.tables, ns) == map[]
  {
    forall name ensures Agree(Under(s.tables, ns), map[], name) {
      NothingUnder(s, ns, name);
      UnderAt(s.tables, ns, name);
    }
    SameMaps(Under(s.tables, ns), map[]);
  }

  lemma {:induction false} TablesUnder(tables: map<string, Entry>, ns: string)
    ensures HasTables(tables, ns) <==> Under(tables, ns) != map[]
  {
    if HasTables(tables, ns) {
      var k :| k in tables && StartsWith(k, Prefix(ns));
      assert k[|Prefix(ns)|..] in NamesUnder(tables, ns);
    } else {
      forall name ensures Agree(Under(tables, ns), map[], name) {
        OwnPrefix(ns, name);
        UnderAt(tables, ns, name);
      }
      SameMaps(Under(tables, ns), map[]);
    }
  }

  lemma {:induction false} AbsPut(s: State, ns: string, name: string, entry: Entry)
    requires AllClear(s) && ns in s.namespaces
    ensures Abs(s.Put(ns, name, entry)) == Abs(s).Put(ns, name, entry)
  {
    var a, b := Abs(s.Put(ns, name, entry)), Abs(s).Put(ns, name, entry);
    forall other | other in a.spaces ensures a.spaces[other] == b.spaces[other] {
      UnderPut(s.tables, ns, name, entry, other);
    }
    SameSpaces(a, b);
  }

  lemma {:induction false} AbsDrop(s: State, ns: string, name: string)
    requires AllClear(s) && ns in s.namespaces
    ensures Abs(s.(tables := s.tables - {TableKey(ns, name)}))
         == TwoLevel(Abs(s).spaces[ns := Space(s.namespaces[ns], Under(s.tables, ns) - {name})])
  {
    var a := Abs(s.(tables := s.tables - {TableKey(ns, name)}));
    var b := TwoLevel(Abs(s).spaces[ns := Space(s.namespaces[ns], Under(s.tables, ns) - {name})]);
    forall other | other in a.spaces ensures a.spaces[other] == b.spaces[other] {
      UnderDrop(s.tables, ns, name, other);
    }
    SameSpaces(a, b);
  }

  lemma {:induction false} AbsAdd(s: State, ns: string, meta: Metadata)
    requires Good(s) && Clear(ns) && ns !in s.namespaces
    ensures Abs(s.Add(ns, meta)) == Abs(s).Add(ns, meta)
  {
    EmptyUnder(s, ns);
    SameSpaces(Abs(s.Add(ns, meta)), Abs(s).Add(ns, meta));
  }

  /** The flat outcome stands for the two-level outcome. */
  predicate Same(flat: (State, Reply), meant: (TwoLevel, Reply)) {
    Abs(flat.0) == meant.0 && flat.1 == meant.1
  }

  lemma {:induction false} CreateNamespaceRefines(s: State, levels: seq<string>, properties: map<string, string>)
    requires Good(s) && Clear(NamespaceKey(levels))
    ensures Same(CreateNamespace(s, levels, properties), Abs(s).CreateNamespace(levels, properties))
  {
    var key := NamespaceKey(levels);
    AbsAt(s, key, "");
    if key !in s.namespaces { AbsAdd(s, key, Metadata(levels, properties)); }
  }

  lemma {:induction false} DropNamespaceRefines(s: State, ns: string)
    ensures Same(DropNamespace(s, ns), Abs(s).DropNamespace(ns))
  {
    TablesUnder(s.tables, ns);
    SameSpaces(Abs(s.(namespaces := s.namespaces - {ns})), TwoLevel(Abs(s).spaces - {ns}));
  }

  lemma {:induction false} ListTablesRefines(s: State, ns: string)
    ensures ListTables(s, ns) == Abs(s).ListTables(ns)
  {
    AbsAt(s, ns, "");
  }

  lemma {:induction false} CreateTableRefines(s: State, ns: string, name: string, entry: Entry)
    requires Good(s) && Clear(ns)
    ensures Same(CreateTable(s, ns, name, entry), Abs(s).CreateTable(ns, name, entry))
  {
    AbsAt(s, ns, name);
    if ns in s.namespaces { AbsPut(s, ns, name, entry); }
  }

  lemma {:induction false} LoadTableRefines(s: State, ns: string, name: string)
    ensures LoadTable(s, ns, name) == Abs(s).LoadTable(ns, name)
  {
    AbsAt(s, ns, name);
  }

  lemma {:induction false} DropTableRefines(s: State, ns: string, name: string)
    requires Good(s)
    ensures Same(DropTable(s, ns, name), Abs(s).DropTable(ns, name))
  {
    AbsAt(s, ns, name);
    if ns in s.namespaces { AbsDrop(s, ns, name); }
  }

  lemma {:induction false} CheckTableRefines(s: State, ns: string, name: string)
    requires Good(s) && Clear(ns)
    ensures TableExistsReply(s, ns, name) == Present(Abs(s).Has(ns, name))
  {
    AbsAt(s, ns, name);
    if ns !in s.namespaces { NothingUnder(s, ns, name); }
  }

  lemma {:induction false} AbsAddPut(s: State, ns: string, meta: Metadata, name: string, entry: Entry)
    requires Good(s) && Clear(ns) && ns !in s.namespaces
    ensures Abs(s.Add(ns, meta).Put(ns, name, entry)) == Abs(s).Add(ns, meta).Put(ns, name, entry)
  {
    AbsAdd(s, ns, meta);
    AbsPut(s.Add(ns, meta), ns, name, entry);
  }

  lemma {:induction false} RegisterRefines(s: State, ns: string, name: string, entry: Entry, auto: Metadata)
    requires Good(s) && Clear(ns)
    ensures Same(Register(s, ns, name, entry, auto), Abs(s).Register(ns, name, entry, auto))
  {
    AbsAt(s, ns, name);
    if ns in s.namespaces { AbsPut(s, ns, name, entry); } else { AbsAddPut(s, ns, auto, name, entry); }
  }

  lemma {:induction false} UpdateRefines(s: State, ns: string, name: string, entry: Entry)
    requires Good(s) && Clear(ns)
    ensures Same(UpdateMetadata(s, ns, name, entry), Abs(s).UpdateMetadata(ns, name, entry))
  {
    AbsAt(s, ns, name);
    if ns in s.namespaces { AbsPut(s, ns, name, entry); } else { NothingUnder(s, ns, name); }
  }

  lemma {:induction false} SplitUnder(ns: string, k: string)
    requires Clear(ns) && StartsWith(k, Prefix(ns))
    ensures SplitKey(k).0 == ns && k == TableKey(ns, SplitKey(k).1)
  {
    assert k == TableKey(ns, k[|Prefix(ns)|..]);
    KeySplitsIff(ns, k[|Prefix(ns)|..]);
  }

  lemma {:induction false} FlatIsNested(s: State, row: (string, string, string))
    requires Good(s) && row in FlatRows(s.tables)
    ensures row in NestedRows(Abs(s))
  {
    var k :| k in s.tables && row == (SplitKey(k).0, SplitKey(k).1, s.tables[k].location);
    assert AnchoredKey(s.namespaces, k);
    var ns :| ns in s.namespaces && StartsWith(k, Prefix(ns));
    SplitUnder(ns, k);
    AbsAt(s, row.0, row.1);
  }

  lemma {:induction false} NestedIsFlat(s: State, row: (string, string, string))
    requires Good(s) && row in NestedRows(Abs(s))
    ensures row in FlatRows(s.tables)
  {
    KeySplitsIff(row.0, row.1);
    AbsAt(s, row.0, row.1);
    assert TableKey(row.0, row.1) in s.tables;
  }

  lemma {:induction false} ListAllRefines(s: State)
    requires Good(s)
    ensures FlatRows(s.tables) == NestedRows(Abs(s))
  {
    forall row | row in FlatRows(s.tables) ensures row in NestedRows(Abs(s)) { FlatIsNested(s, row); }
    forall row | row in NestedRows(Abs(s)) ensures row in FlatRows(s.tables) { NestedIsFlat(s, row); }
  }

  /** Every request does on the flat maps what it means on the two-level catalog, and gives the
      same reply. */
  lemma {:induction false} RequestRefines(s: State, r: Request)
    requires Good(s) && ClearRequest(r)
    ensures Same(Handle(s, r), Meaning(Abs(s), r))
  {
    match r
    case ToCreateNamespace(levels, properties) => CreateNamespaceRefines(s, levels, properties);
    case ToDropNamespace(ns) => DropNamespaceRefines(s, ns);
    case ToListTables(ns) => ListTablesRefines(s, ns);
    case ToCreateTable(ns, name, metadata) => CreateTableRefines(s, ns, name, NewEntry(ns, name, metadata));
    case ToLoadTable(ns, name) => LoadTableRefines(s, ns, name);
    case ToDropTable(ns, name) => DropTableRefines(s, ns, name);
    case ToCheckTable(ns, name) => CheckTableRefines(s, ns, name);
    case ToRegister(ns, name, entry) => RegisterRefines(s, ns, name, entry, AutoMetadata(ns));
    case ToUpdateMetadata(ns, name, entry) => UpdateRefines(s, ns, name, entry);
    case ToListAll => ListAllRefines(s);
  }

  lemma {:induction false} RequestKeepsClear(s: State, r: Request)
    requires AllClear(s) && ClearRequest(r)
    ensures AllClear(Handle(s, r).0)
  {
  }

  // ---------- Whole histories ----------

  function After(s: State, rs: seq<Request>): State
    decreases rs
  {
    if rs == [] then s else After(Handle(s, rs[0]).0, rs[1..])
  }

  function Replies(s: State, rs: seq<Request>): seq<Reply>
    decreases rs
  {
    if rs == [] then [] else [Handle(s, rs[0]).1] + Replies(Handle(s, rs[0]).0, rs[1..])
  }

  function MeantReplies(a: TwoLevel, rs: seq<Request>): seq<Reply>
    decreases rs
  {
    if rs == [] then [] else [Meaning(a, rs[0]).1] + MeantReplies(Meaning(a, rs[0]).0, rs[1..])
  }

  lemma {:induction false} HistoryRefines(s: State, rs: seq<Request>)
    requires Good(s) && forall r :: r in rs ==> ClearRequest(r)
    ensures Replies(s, rs) == MeantReplies(Abs(s), rs)
    decreases rs
  {
    if rs != [] {
      assert rs[0] in rs;
      RequestRefines(s, rs[0]);
      RequestKeepsAnchored(s, rs[0]);
      RequestKeepsClear(s, rs[0]);
      HistoryRefines(Handle(s, rs[0]).0, rs[1..]);
    }
  }

  lemma {:induction false} NoColonIsClear(ns: string)
    requires ':' !in ns
    ensures Clear(ns)
  {
    var text := ns + ":";
    forall k: nat | k < |ns| ensures !OccursAt(text, "::", k) {
      assert text[k] != ':' && text[k] in ns;
    }
  }

  /** In every history of a new catalog whose namespaces are clear, the replies are those of the
      two-level catalog. */
  lemma {:induction false} CatalogIsTwoLevel(rs: seq<Request>)
    requires forall r :: r in rs ==> ClearRequest(r)
    ensures Replies(Fresh, rs) == MeantReplies(Abs(Fresh), rs)
  {
    NoColonIsClear("default");
    HistoryRefines(Fresh, rs);
  }

  lemma {:induction false} HistoryKeepsAnchored(s: State, rs: seq<Request>)
    requires Anchored(s)
    ensures Anchored(After(s, rs))
    decreases rs
  {
    if rs != [] {
      RequestKeepsAnchored(s, rs[0]);
      HistoryKeepsAnchored(Handle(s, rs[0]).0, rs[1..]);
    }
  }

  /** In every history whatever, each table key begins with the key of an existing namespace. */
  lemma {:induction false} NoTableIsLeftBehind(rs: seq<Request>)
    ensures Anchored(After(Fresh, rs))
  {
    HistoryKeepsAnchored(Fresh, rs);
  }

  lemma {:induction false} OneReply(s: State, a: TwoLevel, q: Request)
    ensures Replies(s, [q]) == [Handle(s, q).1] && MeantReplies(a, [q]) == [Meaning(a, q).1]
  {
    assert [q][1..] == [];
  }

  lemma {:induction false} TwoReplies(s: State, a: TwoLevel, r: Request, q: Request)
    ensures Replies(s, [r, q]) == [Handle(s, r).1, Handle(Handle(s, r).0, q).1]
    ensures MeantReplies(a, [r, q]) == [Meaning(a, r).1, Meaning(Meaning(a, r).0, q).1]
  {
    assert [r, q][1..] == [q];
    OneReply(Handle(s, r).0, Meaning(a, r).0, q);
  }

  /** Listing everything after one registration shows the table under its own namespace exactly when
      the namespace is clear. */
  lemma {:induction false} OneTableListed(s: State, a: TwoLevel, ns: string, name: string, entry: Entry)
    requires !Clear(ns) && s.tables == map[TableKey(ns, name) := entry]
    requires a.Has(ns, name) && a.spaces[ns].tables[name] == entry
    ensures FlatRows(s.tables) != NestedRows(a)
  {
    KeySplitsIff(ns, name);
    assert TableKey(ns, name) in s.tables;
    assert (ns, name, entry.location) in NestedRows(a);
    assert (ns, name, entry.location) !in FlatRows(s.tables);
  }

  lemma {:induction false} ListingsDiffer(s: State, a: TwoLevel, ns: string, name: string, entry: Entry, auto: Metadata)
    requires !Clear(ns) && s.tables == map[]
    ensures FlatRows(Register(s, ns, name, entry, auto).0.tables) != NestedRows(a.Register(ns, name, entry, auto).0)
  {
    OneTableListed(Register(s, ns, name, entry, auto).0, a.Register(ns, name, entry, auto).0, ns, name, entry);
  }

  /** Registering one table and listing everything already tells the two catalogs apart, unless the
      namespace is clear: the condition cannot be weakened. */
  lemma {:induction false} AgreementNeedsClear(s: State, ns: string, name: string, entry: Entry)
    requires Good(s) && s.tables == map[]
    ensures var rs := [ToRegister(ns, name, entry), ToListAll];
      Replies(s, rs) == MeantReplies(Abs(s), rs) <==> Clear(ns)
  {
    var rs := [ToRegister(ns, name, entry), ToListAll];
    if Clear(ns) {
      HistoryRefines(s, rs);
    } else {
      TwoReplies(s, Abs(s), rs[0], rs[1]);
      ListingsDiffer(s, Abs(s), ns, name, entry, AutoMetadata(ns));
    }
  }
}
