/** Removing data files that no snapshot refers to, and what becomes of the files of a table whose
    metadata has just been loaded. */
module OrphanFiles {
  import opened IcebergTable
  import Texts
  import opened TimeTravel
  import C = Compaction

  /** A stored file as the listing of the data prefix shows it. */
  datatype Item = Item(path: string, size: nat)

  datatype Cleanup = Cleanup(found: nat, deleted: nat, bytes: nat)

  const METADATA_DIR := "/metadata/"
  const PARQUET := ".parquet"

  /** Only Parquet files outside the metadata directory are ever considered. */
  predicate IsData(path: string) {
    Texts.Find(path, METADATA_DIR).None? && Texts.EndsWith(path, PARQUET)
  }

  /** The data files and the manifest lists that some snapshot refers to. */
  function Referenced(infos: seq<SnapshotInfo>, manifestLists: seq<string>): set<string> {
    (set f | f in C.ListedFiles(infos)) + (set m | m in manifestLists && m != "")
  }

  predicate IsOrphan(path: string, referenced: set<string>) {
    IsData(path) && path !in referenced
  }

  /** The files left: all but the orphans that can be deleted. */
  function Left(items: seq<Item>, referenced: set<string>, undeletable: set<string>): seq<Item> {
    if items == [] then []
    else
      var last := items[|items| - 1];
      Left(items[..|items| - 1], referenced, undeletable) +
      (if IsOrphan(last.path, referenced) && last.path !in undeletable then [] else [last])
  }

  /** How many of the listed files are orphans, deletable or not. */
  function Orphans(items: seq<Item>, referenced: set<string>): nat {
    if items == [] then 0
    else Orphans(items[..|items| - 1], referenced) + if IsOrphan(items[|items| - 1].path, referenced) then 1 else 0
  }

  function Bytes(items: seq<Item>): nat {
    if items == [] then 0 else Bytes(items[..|items| - 1]) + items[|items| - 1].size
  }

  /** Exactly the listed files that are no orphan or cannot be deleted are left. */
  lemma {:induction false} LeftIff(items: seq<Item>, referenced: set<string>, undeletable: set<string>, x: Item)
    ensures x in Left(items, referenced, undeletable) <==>
            x in items && (!IsOrphan(x.path, referenced) || x.path in undeletable)
  {
    if items != [] {
      LeftIff(items[..|items| - 1], referenced, undeletable, x);
      assert items == items[..|items| - 1] + [items[|items| - 1]];
    }
  }

  /** The same in terms of the paths: a file is gone exactly if its path ends in `.parquet`, has no
      `/metadata/` in it, is listed neither as a data file nor as a manifest list, and can be deleted. */
  lemma {:induction false} GoneIff(infos: seq<SnapshotInfo>, manifestLists: seq<string>, items: seq<Item>,
                                   undeletable: set<string>, x: Item)
    requires x in items
    ensures x !in Left(items, Referenced(infos, manifestLists), undeletable) <==>
            && Texts.EndsWith(x.path, ".parquet") && (forall k: nat :: !Texts.OccursAt(x.path, "/metadata/", k))
            && x.path !in C.ListedFiles(infos) && x.path !in manifestLists && x.path !in undeletable
  {
    LeftIff(items, Referenced(infos, manifestLists), undeletable, x);
    var at := Texts.Find(x.path, METADATA_DIR);
    if at.Some? { assert Texts.OccursAt(x.path, "/metadata/", at.value); }
    if x.path == "" { assert !Texts.EndsWith(x.path, ".parquet"); }
  }

  lemma {:induction false} BytesSnoc(items: seq<Item>, x: Item)
    ensures Bytes(items + [x]) == Bytes(items) + x.size
  {
    assert (items + [x])[..|items|] == items;
  }

  /** What has been counted and what is left add up to what was listed. */
  ghost predicate Balanced(r: Cleanup, before: seq<Item>, after: seq<Item>) {
    && r.bytes + Bytes(after) == Bytes(before)
    && r.deleted + |after| == |before|
    && r.deleted <= r.found
  }

  /** The loop state after `i` files. */
  ghost predicate Cleaned(r: Cleanup, left: seq<Item>, items: seq<Item>, i: nat, referenced: set<string>,
                          undeletable: set<string>) {
    && i <= |items| && left == Left(items[..i], referenced, undeletable) && Balanced(r, items[..i], left)
    && r.found == Orphans(items[..i], referenced) && (undeletable == {} ==> r.found == r.deleted)
  }

  lemma {:induction false} CleanOne(r: Cleanup, left: seq<Item>, items: seq<Item>, i: nat, referenced: set<string>,
                                    undeletable: set<string>)
    requires i < |items| && Cleaned(r, left, items, i, referenced, undeletable)
    ensures var x := items[i];
            if !IsOrphan(x.path, referenced) then
              Cleaned(r, left + [x], items, i + 1, referenced, undeletable)
            else if x.path in undeletable then
              Cleaned(Cleanup(r.found + 1, r.deleted, r.bytes), left + [x], items, i + 1, referenced, undeletable)
            else
              Cleaned(Cleanup(r.found + 1, r.deleted + 1, r.bytes + x.size), left, items, i + 1, referenced,
                undeletable)
  {
    assert items[..i + 1] == items[..i] + [items[i]];
    LeftSnoc(items[..i], items[i], referenced, undeletable);
    BytesSnoc(items[..i], items[i]);
    BytesSnoc(left, items[i]);
  }

  lemma {:induction false} LeftSnoc(items: seq<Item>, x: Item, referenced: set<string>, undeletable: set<string>)
    ensures Left(items + [x], referenced, undeletable) ==
            if IsOrphan(x.path, referenced) && x.path !in undeletable then Left(items, referenced, undeletable)
            else Left(items, referenced, undeletable) + [x]
    ensures Orphans(items + [x], referenced) ==
            Orphans(items, referenced) + if IsOrphan(x.path, referenced) then 1 else 0
  {
    assert (items + [x])[..|items|] == items;
    assert Left(items, referenced, undeletable) + [] == Left(items, referenced, undeletable);
  }

  lemma {:induction false} NothingCleaned(items: seq<Item>, referenced: set<string>, undeletable: set<string>)
    ensures Cleaned(Cleanup(0, 0, 0), [], items, 0, referenced, undeletable)
  {
  }

  lemma {:induction false} AllCleaned(r: Cleanup, left: seq<Item>, items: seq<Item>, referenced: set<string>,
                                      undeletable: set<string>)
    requires Cleaned(r, left, items, |items|, referenced, undeletable)
    ensures left == Left(items, referenced, undeletable) && Balanced(r, items, left)
    ensures r.found == Orphans(items, referenced) && (undeletable == {} ==> r.found == r.deleted)
  {
    assert items[..|items|] == items;
  }

  /** The cleanup: which files are left, and that the numbers reported are those of the orphans
      found and of the files gone. */
  method RemoveOrphanFiles(infos: seq<SnapshotInfo>, manifestLists: seq<string>, items: seq<Item>,
                           undeletable: set<string>)
    returns (r: Cleanup, left: seq<Item>)
    ensures left == Left(items, Referenced(infos, manifestLists), undeletable)
    ensures Balanced(r, items, left)
    ensures r.found == Orphans(items, Referenced(infos, manifestLists))
    ensures undeletable == {} ==> r.found == r.deleted
  {
    var referenced := Referenced(infos, manifestLists);
    var found: nat, deleted: nat, bytes: nat := 0, 0, 0;
    left := [];
    NothingCleaned(items, referenced, undeletable);
    for i := 0 to |items|
      invariant Cleaned(Cleanup(found, deleted, bytes), left, items, i, referenced, undeletable)
    {
      CleanOne(Cleanup(found, deleted, bytes), left, items, i, referenced, undeletable);
      var x := items[i];
      if IsOrphan(x.path, referenced) {
        found := found + 1;
        if x.path in undeletable {
          left := left + [x];
        } else {
          deleted := deleted + 1;
          bytes := bytes + x.size;
        }
      } else {
        left := left + [x];
      }
    }
    r := Cleanup(found, deleted, bytes);
    AllCleaned(r, left, items, referenced, undeletable);
  }

  // ---------- Which tables survive ----------

  /** The stored files that hold data of the table, whatever the state in memory says. */
  ghost predicate Survives(files: seq<string>, items: seq<Item>, left: seq<Item>) {
    forall x :: x in items && x.path in files ==> x in left
  }

  /** A cleanup spares the table's files exactly if every one of them that lies outside the metadata
      directory and can be deleted is listed by the state it was given. */
  lemma {:induction false} CleanupSparesIff(files: seq<string>, infos: seq<SnapshotInfo>, manifestLists: seq<string>,
                                            items: seq<Item>, undeletable: set<string>)
    ensures Survives(files, items, Left(items, Referenced(infos, manifestLists), undeletable)) <==>
            forall x :: x in items && x.path in files && IsData(x.path) && x.path !in undeletable ==>
              x.path in Referenced(infos, manifestLists)
  {
    var referenced := Referenced(infos, manifestLists);
    forall x ensures x in Left(items, referenced, undeletable) <==>
                     x in items && (!IsOrphan(x.path, referenced) || x.path in undeletable)
    {
      LeftIff(items, referenced, undeletable, x);
    }
  }

  /** The state that wrote the files spares them all. */
  lemma {:induction false} WritersStateSpares(infos: seq<SnapshotInfo>, manifestLists: seq<string>, items: seq<Item>,
                                              undeletable: set<string>)
    ensures Survives(C.ListedFiles(infos), items, Left(items, Referenced(infos, manifestLists), undeletable))
  {
    CleanupSparesIff(C.ListedFiles(infos), infos, manifestLists, items, undeletable);
  }

  /** A state that has just been loaded lists no files, so the cleanup then spares the table only if
      none of its stored data files could be deleted: otherwise every one that can be is gone. Manifest
      lists are JSON files. */
  lemma {:induction false} LoadedStateSparesIff(m: Metadata, manifestLists: seq<string>, files: seq<string>,
                                                items: seq<Item>, undeletable: set<string>)
    requires forall f :: f in manifestLists ==> !Texts.EndsWith(f, PARQUET)
    ensures var left := Left(items, Referenced(Loaded(m), manifestLists), undeletable);
            && (Survives(files, items, left) <==>
                forall x :: x in items && x.path in files && IsData(x.path) ==> x.path in undeletable)
            && (forall x :: x in left && IsData(x.path) ==> x.path in undeletable)
  {
    C.LoadedTableListsNothing(m);
    var referenced := Referenced(Loaded(m), manifestLists);
    CleanupSparesIff(files, Loaded(m), manifestLists, items, undeletable);
    forall x | x in Left(items, referenced, undeletable) && IsData(x.path) ensures x.path in undeletable {
      LeftIff(items, referenced, undeletable, x);
    }
  }
}
