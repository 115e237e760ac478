/** Whole compactions: where the new files are put, what a failure leaves behind, how the "replace"
    snapshot is written, and what a second run does to the files of the first. */
module CompactionRuns {
  import opened Batches
  import opened Compaction
  import opened IcebergTable
  import opened Sequences
  import opened TimeTravel

  /** Where a run writes: the table's prefix and the date of the run. */
  datatype Place = Place(prefix: string, date: string)

  /** Which writes are refused: data files by their number, the manifest list and the metadata. */
  datatype Refusals = Refusals(files: set<nat>, manifest: bool, metadata: bool)

  type Content = map<string, seq<Batch>>

  // ---------- File names ----------

  const DECIMALS := "0123456789"

  /** A number in decimal, filled with zeros up to `width` digits. */
  function Padded(n: nat, width: nat): (s: string)
    ensures s != ""
    decreases n, width
  {
    if n < 10 && width <= 1 then [DECIMALS[n]]
    else Padded(n / 10, if width > 1 then width - 1 else 0) + [DECIMALS[n % 10]]
  }

  lemma {:induction false} LastsAgree<T>(a: seq<T>, x: T, b: seq<T>, y: T)
    requires a + [x] == b + [y]
    ensures a == b && x == y
  {
    assert (a + [x])[..|a|] == a && (b + [y])[..|b|] == b && (a + [x])[|a|] == x && (b + [y])[|b|] == y;
  }

  lemma {:induction false} DecimalsDiffer(i: nat, j: nat)
    requires i < 10 && j < 10 && DECIMALS[i] == DECIMALS[j]
    ensures i == j
  {
  }

  lemma {:induction false} PaddedSeparates(a: nat, b: nat, width: nat)
    requires Padded(a, width) == Padded(b, width)
    ensures a == b
    decreases a, width
  {
    var shorter := if width > 1 then width - 1 else 0;
    if a < 10 && width <= 1 {
      assert |Padded(a, width)| == 1;
      DecimalsDiffer(a, b);
    } else {
      assert |Padded(a, width)| > 1;
      LastsAgree(Padded(a / 10, shorter), DECIMALS[a % 10], Padded(b / 10, shorter), DECIMALS[b % 10]);
      DecimalsDiffer(a % 10, b % 10);
      PaddedSeparates(a / 10, b / 10, shorter);
    }
  }

  function Path(place: Place, counter: nat): string {
    (place.prefix + "/" + place.date + "/compacted-") + (Padded(counter, 4) + ".parquet")
  }

  lemma {:induction false} SameEnds<T>(a: seq<T>, x: seq<T>, b: seq<T>, y: seq<T>)
    requires a + x == b + y && |a| == |b|
    ensures a == b && x == y
  {
    assert (a + x)[..|a|] == a && (b + y)[..|b|] == b && (a + x)[|a|..] == x && (b + y)[|b|..] == y;
  }

  lemma {:induction false} SameStarts<T>(x: seq<T>, y: seq<T>, c: seq<T>)
    requires x + c == y + c
    ensures x == y
  {
    assert |x + c| == |y + c|;
    SameEnds(x, c, y, c);
  }

  /** Two files of the table share a name exactly if they were written on the same date under the
      same number. */
  lemma {:induction false} PathsDiffer(prefix: string, date1: string, i: nat, date2: string, j: nat)
    requires |date1| == |date2|
    ensures Path(Place(prefix, date1), i) == Path(Place(prefix, date2), j) <==> date1 == date2 && i == j
  {
    if Path(Place(prefix, date1), i) == Path(Place(prefix, date2), j) {
      SameEnds(prefix + "/" + date1 + "/compacted-", Padded(i, 4) + ".parquet",
               prefix + "/" + date2 + "/compacted-", Padded(j, 4) + ".parquet");
      SameStarts(prefix + "/" + date1, prefix + "/" + date2, "/compacted-");
      SameEnds(prefix + "/", date1, prefix + "/", date2);
      SameStarts(Padded(i, 4), Padded(j, 4), ".parquet");
      PaddedSeparates(i, j, 4);
    }
  }

  // ---------- Writing ----------

  /** The stored files after writing the new ones, one by one. */
  function PutAll(content: Content, place: Place, files: seq<OutputFile>): Content {
    if files == [] then content
    else
      var f := files[|files| - 1];
      PutAll(content, place, files[..|files| - 1])[Path(place, f.counter) := f.batches]
  }

  /** The names of the first `n` files of a run. */
  function Paths(place: Place, n: nat): (paths: seq<string>)
    ensures |paths| == n && forall i :: 0 <= i < n ==> paths[i] == Path(place, i + 1)
  {
    seq(n, i requires 0 <= i < n => Path(place, i + 1))
  }

  /** A path that is not among the new names keeps its content. */
  lemma {:induction false} OthersUntouched(content: Content, place: Place, files: seq<OutputFile>, p: string)
    requires Numbered(files) && p !in Paths(place, |files|)
    ensures p in PutAll(content, place, files) <==> p in content
    ensures p in content ==> PutAll(content, place, files)[p] == content[p]
  {
    if files != [] {
      var n := |files| - 1;
      assert Paths(place, |files|)[n] == Path(place, files[n].counter);
      assert Paths(place, n) == Paths(place, |files|)[..n];
      OthersUntouched(content, place, files[..n], p);
    }
  }

  lemma {:induction false} LastPut(content: Content, place: Place, files: seq<OutputFile>)
    requires files != []
    ensures var f := files[|files| - 1];
            PutAll(content, place, files) ==
              PutAll(content, place, files[..|files| - 1])[Path(place, f.counter) := f.batches]
  {
  }

  lemma {:induction false} OtherKept(content: Content, p: string, batches: seq<Batch>, q: string)
    requires p != q && q in content
    ensures q in content[p := batches] && content[p := batches][q] == content[q]
  {
  }

  /** Under each new name lies the file of that number. */
  lemma {:induction false} NewFilesStored(content: Content, place: Place, files: seq<OutputFile>, i: nat)
    requires Numbered(files) && i < |files|
    ensures HoldsAt(PutAll(content, place, files), place, files, i)
  {
    var n := |files| - 1;
    LastPut(content, place, files);
    if i < n {
      NewFilesStored(content, place, files[..n], i);
      HoldsLater(PutAll(content, place, files[..n]), place, files, i);
    }
  }

  lemma {:induction false} HoldsLater(before: Content, place: Place, files: seq<OutputFile>, i: nat)
    requires i < |files| - 1 && HoldsAt(before, place, files[..|files| - 1], i)
    ensures HoldsAt(before[Path(place, |files|) := files[|files| - 1].batches], place, files, i)
  {
    PathsDiffer(place.prefix, place.date, i + 1, place.date, |files|);
    OtherKept(before, Path(place, |files|), files[|files| - 1].batches, Path(place, i + 1));
  }

  /** The stored files hold the batches of `files` under the names of that place. */
  ghost predicate Holds(content: Content, place: Place, files: seq<OutputFile>) {
    forall i :: 0 <= i < |files| ==> HoldsAt(content, place, files, i)
  }

  ghost predicate HoldsAt(content: Content, place: Place, files: seq<OutputFile>, i: nat)
    requires i < |files|
  {
    Path(place, i + 1) in content && content[Path(place, i + 1)] == files[i].batches
  }

  lemma {:induction false} HeldIsRead(content: Content, place: Place, files: seq<OutputFile>)
    requires Holds(content, place, files)
    ensures Stored(Paths(place, |files|), content) == Some(AllBatches(files))
  {
    if files != [] {
      var n := |files| - 1;
      assert forall i :: 0 <= i < n ==> HoldsAt(content, place, files, i) ==> HoldsAt(content, place, files[..n], i);
      HeldIsRead(content, place, files[..n]);
      assert Paths(place, n) == Paths(place, |files|)[..n];
      assert HoldsAt(content, place, files, n);
    }
  }

  /** Reading the files of the new snapshot gives back, in order, exactly the batches that were read
      from the old files: nothing is lost, doubled or reordered. */
  lemma {:induction false} RewrittenReadsBack(content: Content, place: Place, batches: seq<Batch>, targetBytes: nat)
    ensures var files := NewFiles(batches, targetBytes);
            Stored(Paths(place, |files|), PutAll(content, place, files)) == Some(batches)
  {
    var files := NewFiles(batches, targetBytes);
    NewFilesGroup(batches, targetBytes);
    forall i | 0 <= i < |files| ensures HoldsAt(PutAll(content, place, files), place, files, i) {
      NewFilesStored(content, place, files, i);
    }
    HeldIsRead(PutAll(content, place, files), place, files);
  }

  // ---------- The run ----------

  /** The new files as the snapshot lists them. */
  function Listed(place: Place, files: seq<OutputFile>, size: seq<Batch> -> nat): (r: seq<DataFile>)
    ensures |r| == |files|
  {
    seq(|files|, i requires 0 <= i < |files| =>
      DataFile(Path(place, files[i].counter), size(files[i].batches), files[i].rowCount))
  }

  /** The snapshot lists the new files under the names they are stored at, with their sizes and rows. */
  lemma {:induction false} ListedAreStored(content: Content, place: Place, files: seq<OutputFile>,
                                           size: seq<Batch> -> nat, i: nat)
    requires Numbered(files) && i < |files|
    ensures var f, after := Listed(place, files, size)[i], PutAll(content, place, files);
            && f.path in after && after[f.path] == files[i].batches
            && f.rows == RowsOf(after[f.path]) && f.size == size(after[f.path])
  {
    NewFilesStored(content, place, files, i);
  }

  /** The files a compaction writes if nothing stops it; none if some listed file cannot be read. */
  function Rewritten(infos: seq<SnapshotInfo>, content: Content, targetBytes: nat): seq<OutputFile> {
    match SourceBatches(infos, content)
    case None => []
    case Some(batches) => NewFiles(batches, targetBytes)
  }

  function RowsRead(infos: seq<SnapshotInfo>, content: Content): nat {
    match SourceBatches(infos, content)
    case None => 0
    case Some(batches) => RowsOf(batches)
  }

  /** The table with the "replace" snapshot that lists the new files. */
  function Replaced(t: Table, now: nat, files: seq<DataFile>, columns: seq<Column>): Table {
    match Append(t, now, files, columns, "replace")
    case Ok(next) => next
    case Err(_) => t
  }

  ghost predicate HasData(infos: seq<SnapshotInfo>, content: Content) {
    AllReadable(ListedFiles(infos), content) && SomeData(ListedFiles(infos), content)
  }

  /** Reads every distinct listed file and writes the new files. Without data nothing is written. */
  method Rewrite(infos: seq<SnapshotInfo>, content: Content, targetBytes: nat, failing: set<nat>)
    returns (r: Result<Compacted>, files: seq<OutputFile>)
    ensures !HasData(infos, content) ==> r.Err? && files == []
    ensures HasData(infos, content) ==> WrittenUntil(files, r.Ok?, Rewritten(infos, content, targetBytes), failing)
    ensures r.Ok? ==> files != []
    ensures r.Ok? ==> r.value == Compacted(|Distinct(ListedFiles(infos))|, files, RowsRead(infos, content))
    ensures ListedFiles(infos) == [] ==> r == Err("No data files to compact")
  {
    SourceIff(infos, content);
    var paths := CollectPaths(infos);
    if paths == [] { return Err("No data files to compact"), []; }
    assert paths[0] in ListedFiles(infos);
    var all, totalRows := ReadAll(paths, content);
    if all.None? { return Err("Failed to read"), []; }
    if all.value == [] { return Err("No data found in files to compact"), []; }
    var ok;
    files, ok := WriteFiles(all.value, targetBytes, failing);
    SomeFile(all.value, targetBytes);
    return if ok then Ok(Compacted(|paths|, files, totalRows)) else Err("S3 PUT compacted file"), files;
  }

  /** Compaction succeeds exactly if every listed file can be read, some file holds a batch, and no
      write is refused. Then the table has one "replace" snapshot more; otherwise it is as before,
      but the files written before the failure are in the store. */
  method CompactTable(t: Table, infos: seq<SnapshotInfo>, content: Content, columns: seq<Column>, place: Place,
                      targetMegabytes: nat, now: nat, size: seq<Batch> -> nat, refused: Refusals)
    returns (r: Result<Compacted>, next: Table, after: Content, written: nat)
    ensures var files := Rewritten(infos, content, targetMegabytes * 1024 * 1024);
            && (r.Ok? <==> HasData(infos, content) && NoneFails(|files|, refused.files)
                           && !refused.manifest && !refused.metadata)
            && (r.Ok? ==> r.value == Compacted(|Distinct(ListedFiles(infos))|, files, RowsRead(infos, content)))
            && (r.Ok? ==> written == |files|)
            && next == (if r.Ok? then Replaced(t, now, Listed(place, files, size), columns) else t)
            && written <= |files| && after == PutAll(content, place, files[..written])
            && (HasData(infos, content) ==>
                  NoneFails(written, refused.files) && (written < |files| ==> written + 1 in refused.files))
            && (!HasData(infos, content) ==> written == 0)
    ensures ListedFiles(infos) == [] ==> r == Err("No data files to compact")
  {
    var targetBytes := targetMegabytes * 1024 * 1024;
    var files;
    r, files := Rewrite(infos, content, targetBytes, refused.files);
    ghost var whole := Rewritten(infos, content, targetBytes);
    next, after, written := t, PutAll(content, place, files), |files|;
    assert files == whole[..written];
    if r.Ok? {
      assert whole[..|whole|] == whole;
      if refused.manifest {
        r := Err("S3 PUT manifest");
      } else if refused.metadata {
        r := Err("S3 PUT metadata");
      } else {
        next := Replaced(t, now, Listed(place, files, size), columns);
      }
    }
  }

  lemma {:induction false} SomeFile(batches: seq<Batch>, targetBytes: nat)
    requires batches != []
    ensures NewFiles(batches, targetBytes) != []
  {
    NewFilesGroup(batches, targetBytes);
  }

  // ---------- Two runs ----------

  /** The files of a run all keep their content through a later run of the same table exactly if
      that run had another date, or wrote the same batches under the names they share: the numbering
      begins again with every run. */
  lemma {:induction false} EarlierRunSurvivesIff(content: Content, prefix: string, date1: string, date2: string,
                                                 first: seq<OutputFile>, second: seq<OutputFile>)
    requires |date1| == |date2| && Numbered(first) && Numbered(second)
    ensures var place := Place(prefix, date1);
            var after := PutAll(PutAll(content, place, first), Place(prefix, date2), second);
            Holds(after, place, first) <==>
            (date1 != date2 || forall i :: 0 <= i < |first| && i < |second| ==> first[i].batches == second[i].batches)
  {
    var place := Place(prefix, date1);
    var between := PutAll(content, place, first);
    var after := PutAll(between, Place(prefix, date2), second);
    forall i | 0 <= i < |first|
      ensures HoldsAt(after, place, first, i) <==>
              (date1 != date2 || i >= |second| || first[i].batches == second[i].batches)
    {
      FileSurvivesIff(content, prefix, date1, date2, first, second, i);
    }
    if Holds(after, place, first) {
      forall i | 0 <= i < |first| && i < |second| && date1 == date2 ensures first[i].batches == second[i].batches {
        assert HoldsAt(after, place, first, i);
      }
    }
  }

  lemma {:induction false} FileSurvivesIff(content: Content, prefix: string, date1: string, date2: string,
                                           first: seq<OutputFile>, second: seq<OutputFile>, i: nat)
    requires |date1| == |date2| && Numbered(first) && Numbered(second) && i < |first|
    ensures var place := Place(prefix, date1);
            var after := PutAll(PutAll(content, place, first), Place(prefix, date2), second);
            HoldsAt(after, place, first, i) <==>
            (date1 != date2 || i >= |second| || first[i].batches == second[i].batches)
  {
    var place := Place(prefix, date1);
    var between := PutAll(content, place, first);
    NewFilesStored(content, place, first, i);
    if date1 == date2 && i < |second| {
      NewFilesStored(between, place, second, i);
    } else {
      NameNotReused(prefix, date1, date2, i, |second|);
      OthersUntouched(between, Place(prefix, date2), second, Path(place, i + 1));
    }
  }

  lemma {:induction false} NameNotReused(prefix: string, date1: string, date2: string, i: nat, n: nat)
    requires |date1| == |date2| && (date1 != date2 || i >= n)
    ensures Path(Place(prefix, date1), i + 1) !in Paths(Place(prefix, date2), n)
  {
    var later := Paths(Place(prefix, date2), n);
    forall j | 0 <= j < n ensures later[j] != Path(Place(prefix, date1), i + 1) {
      PathsDiffer(prefix, date1, i + 1, date2, j + 1);
    }
  }

  // ---------- After a compaction ----------

  lemma {:induction false} DistinctAppend(a: seq<string>, b: seq<string>)
    requires NoDuplicates(b) && forall f :: f in b ==> f !in a
    ensures Distinct(a + b) == Distinct(a) + b
    decreases |b|
  {
    if b == [] {
      assert a + b == a && Distinct(a) + b == Distinct(a);
    } else {
      var init, last := b[..|b| - 1], b[|b| - 1];
      assert last in b;
      InitAndLast(b);
      DistinctAppend(a, init);
      DistinctOnce(a);
      LastIsNew(init, last);
      assert last !in Distinct(a) + init;
      DistinctSnoc(a + init, last);
      Associates(a, init, [last]);
      Associates(Distinct(a), init, [last]);
      assert Distinct(a) + b == Distinct(a) + init + [last];
      assert a + b == a + init + [last];
    }
  }

  lemma {:induction false} LastIsNew(s: seq<string>, x: string)
    requires NoDuplicates(s + [x])
    ensures x !in s
  {
    assert forall i :: 0 <= i < |s| ==> (s + [x])[i] == s[i];
    assert (s + [x])[|s|] == x;
  }

  lemma {:induction false} StoredConcat(a: seq<string>, b: seq<string>, content: Content)
    requires Stored(a, content).Some? && Stored(b, content).Some?
    ensures Stored(a + b, content) == Some(Stored(a, content).value + Stored(b, content).value)
    decreases b
  {
    if b == [] {
      assert a + b == a && Stored(a, content).value + [] == Stored(a, content).value;
    } else {
      var init, last := b[..|b| - 1], b[|b| - 1];
      StoredConcat(a, init, content);
      assert (a + b)[..|a + b| - 1] == a + init;
      Associates(Stored(a, content).value, Stored(init, content).value, content[last]);
    }
  }

  /** Files not among the new names are read as before. */
  lemma {:induction false} StoredUntouched(paths: seq<string>, content: Content, place: Place, files: seq<OutputFile>)
    requires Numbered(files) && forall f :: f in paths ==> f !in Paths(place, |files|)
    ensures Stored(paths, PutAll(content, place, files)) == Stored(paths, content)
    decreases paths
  {
    if paths != [] {
      StoredUntouched(paths[..|paths| - 1], content, place, files);
      OthersUntouched(content, place, files, paths[|paths| - 1]);
    }
  }

  lemma {:induction false} NamesDistinct(place: Place, n: nat)
    ensures NoDuplicates(Paths(place, n))
  {
    forall i, j | 0 <= i < j < n ensures Paths(place, n)[i] != Paths(place, n)[j] {
      PathsDiffer(place.prefix, place.date, i + 1, place.date, j + 1);
    }
  }

  /** None of the names of a run is listed yet, as in the first run of a day. */
  ghost predicate NewNames(place: Place, n: nat, listed: seq<string>) {
    forall f :: f in Paths(place, n) ==> f !in listed
  }

  /** Earlier files stay readable beside the new ones, in either order. */
  lemma {:induction false} OldThenNew(earlier: seq<string>, content: Content, place: Place, batches: seq<Batch>,
                                      targetBytes: nat)
    requires Stored(earlier, content).Some? && NewNames(place, |NewFiles(batches, targetBytes)|, earlier)
    ensures var files := NewFiles(batches, targetBytes);
            var after := PutAll(content, place, files);
            && Stored(earlier + Paths(place, |files|), after) == Some(Stored(earlier, content).value + batches)
            && Stored(Paths(place, |files|) + earlier, after) == Some(batches + Stored(earlier, content).value)
  {
    var files := NewFiles(batches, targetBytes);
    NewFilesGroup(batches, targetBytes);
    StoredUntouched(earlier, content, place, files);
    RewrittenReadsBack(content, place, batches, targetBytes);
    StoredConcat(earlier, Paths(place, |files|), PutAll(content, place, files));
    StoredConcat(Paths(place, |files|), earlier, PutAll(content, place, files));
  }

  /** The old snapshots stay listed beside the "replace" snapshot. So a second compaction, which reads
      the files of all snapshots, reads every batch twice, ... */
  lemma {:induction false} SecondRunReadsTwice(infos: seq<SnapshotInfo>, s: Snapshot, content: Content, place: Place,
                                               targetBytes: nat)
    requires SourceBatches(infos, content).Some?
    requires NewNames(place, |Rewritten(infos, content, targetBytes)|, ListedFiles(infos))
    ensures var batches := SourceBatches(infos, content).value;
            var files := Rewritten(infos, content, targetBytes);
            var longer, after := infos + [SnapshotInfo(s, Paths(place, |files|))], PutAll(content, place, files);
            && SourceBatches(longer, after) == Some(batches + batches)
            && RowsRead(longer, after) == 2 * RowsRead(infos, content)
  {
    var batches, files := SourceBatches(infos, content).value, Rewritten(infos, content, targetBytes);
    var listed, names := ListedFiles(infos), Paths(place, |files|);
    ListedSnoc(infos, SnapshotInfo(s, names));
    NamesDistinct(place, |files|);
    DistinctAppend(listed, names);
    DistinctOnce(listed);
    OldThenNew(Distinct(listed), content, place, batches, targetBytes);
    RowsConcat(batches, batches);
  }

  lemma {:induction false} ListedSnoc(infos: seq<SnapshotInfo>, x: SnapshotInfo)
    ensures ListedFiles(infos + [x]) == ListedFiles(infos) + x.dataFiles
  {
    assert (infos + [x])[..|infos|] == infos;
  }

  /** ... and the walk from the "replace" snapshot reads the rewritten batches and, after them, what
      the walk from its parent reads. */
  lemma {:induction false} ReplacedWalkReadsTwice(infos: seq<SnapshotInfo>, s: Snapshot, content: Content, place: Place,
                                                  targetBytes: nat, n: nat)
    requires ParentsOlder(infos) && forall y :: y in infos ==> y.snapshot.id < s.id
    requires s.parent.Some? ==> s.parent.value < s.id
    requires SourceBatches(infos, content).Some?
    requires Stored(Flatten(Chain(infos, s.parent, n)), content).Some?
    requires NewNames(place, |Rewritten(infos, content, targetBytes)|, Flatten(Chain(infos, s.parent, n)))
    ensures var files := Rewritten(infos, content, targetBytes);
            var longer := infos + [SnapshotInfo(s, Paths(place, |files|))];
            Stored(Flatten(Chain(longer, Some(s.id), n + 1)), PutAll(content, place, files)) ==
            Some(SourceBatches(infos, content).value + Stored(Flatten(Chain(infos, s.parent, n)), content).value)
  {
    var batches, files := SourceBatches(infos, content).value, Rewritten(infos, content, targetBytes);
    WalkFromNewest(infos, SnapshotInfo(s, Paths(place, |files|)), n);
    OldThenNew(Flatten(Chain(infos, s.parent, n)), content, place, batches, targetBytes);
  }

  /** Since a "replace" snapshot is counted like an append, compaction raises the table's row total
      by every row it rewrites. */
  lemma {:induction false} TotalsCountRowsAgain(t: Table, now: nat, place: Place, files: seq<OutputFile>,
                                                columns: seq<Column>, size: seq<Batch> -> nat)
    requires files != [] && Numbered(files)
    requires forall s :: s in t.meta.snapshots ==> s.id != now
    ensures var next := Replaced(t, now, Listed(place, files, size), columns);
            && Previous(next.meta).totalRecords == Previous(t.meta).totalRecords + RowsOf(AllBatches(files))
            && Previous(next.meta).operation == "replace"
  {
    RowsListed(place, files, size);
    CountsAreRows(files);
    var next := Replaced(t, now, Listed(place, files, size), columns);
    var added := next.meta.snapshots[|t.meta.snapshots|];
    assert next.meta.snapshots == t.meta.snapshots + [added];
    FindAppended(t.meta.snapshots, added);
  }

  lemma {:induction false} FindAppended(snapshots: seq<Snapshot>, s: Snapshot)
    requires forall x :: x in snapshots ==> x.id != s.id
    ensures Find(snapshots + [s], s.id) == Some(s)
  {
    if snapshots != [] {
      assert (snapshots + [s])[1..] == snapshots[1..] + [s];
      FindAppended(snapshots[1..], s);
    }
  }

  lemma {:induction false} RowsListed(place: Place, files: seq<OutputFile>, size: seq<Batch> -> nat)
    ensures SumRows(Listed(place, files, size)) == SumCounts(files)
  {
    if files != [] {
      var init, f := files[..|files| - 1], files[|files| - 1];
      RowsListed(place, init, size);
      var last := DataFile(Path(place, f.counter), size(f.batches), f.rowCount);
      assert Listed(place, files, size) == Listed(place, init, size) + [last];
      SumRowsSnoc(Listed(place, init, size), last);
    }
  }

  lemma {:induction false} SumRowsSnoc(files: seq<DataFile>, f: DataFile)
    ensures SumRows(files + [f]) == SumRows(files) + f.rows
  {
    if files != [] {
      assert (files + [f])[1..] == files[1..] + [f];
      SumRowsSnoc(files[1..], f);
    }
  }
}
