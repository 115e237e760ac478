/** Rewriting a table's data files into larger ones: every file is read once, no batch is lost or
    reordered, and the new files are as large as the size estimate asks for. */
module Compaction {
  import opened Batches
  import opened IcebergTable
  import opened Sequences
  import opened TimeTravel

  /** A compacted file: its number in the run and the batches written to it. */
  datatype OutputFile = OutputFile(counter: nat, batches: seq<Batch>, rowCount: nat)

  datatype Compacted = Compacted(inputFiles: nat, files: seq<OutputFile>, rowsRewritten: nat)

  const BYTES_PER_ROW: nat := 100

  // ---------- Which files are read ----------

  /** All files of all snapshots, with repetitions. */
  function ListedFiles(infos: seq<SnapshotInfo>): seq<string> {
    if infos == [] then [] else ListedFiles(infos[..|infos| - 1]) + infos[|infos| - 1].dataFiles
  }

  /** The distinct elements, in the order of their first occurrence. */
  function Distinct(s: seq<string>): seq<string> {
    if s == [] then []
    else
      var init := Distinct(s[..|s| - 1]);
      if s[|s| - 1] in init then init else init + [s[|s| - 1]]
  }

  lemma {:induction false} DistinctSnoc(s: seq<string>, x: string)
    ensures Distinct(s + [x]) == if x in Distinct(s) then Distinct(s) else Distinct(s) + [x]
  {
    assert (s + [x])[..|s|] == s;
  }

  lemma {:induction false} DistinctOnce(s: seq<string>)
    ensures NoDuplicates(Distinct(s)) && forall f :: f in Distinct(s) <==> f in s
  {
    if s != [] {
      DistinctOnce(s[..|s| - 1]);
      assert s == s[..|s| - 1] + [s[|s| - 1]];
    }
  }

  /** Adds the files of one snapshot that have not been seen yet. */
  method CollectNew(files: seq<string>, known: seq<string>, seen0: set<string>, ghost before: seq<string>)
    returns (paths: seq<string>, seen: set<string>)
    requires known == Distinct(before) && forall f :: f in seen0 <==> f in known
    ensures paths == Distinct(before + files)
    ensures forall f :: f in seen <==> f in paths
  {
    paths, seen := known, seen0;
    assert before + files[..0] == before;
    for i := 0 to |files|
      invariant paths == Distinct(before + files[..i])
      invariant forall f :: f in seen <==> f in paths
    {
      assert before + files[..i + 1] == (before + files[..i]) + [files[i]];
      DistinctSnoc(before + files[..i], files[i]);
      if files[i] !in seen {
        seen := seen + {files[i]};
        paths := paths + [files[i]];
      }
    }
    assert files[..|files|] == files;
  }

  /** Each distinct file of the snapshots, once, in the order in which they are listed. */
  method CollectPaths(infos: seq<SnapshotInfo>) returns (paths: seq<string>)
    ensures paths == Distinct(ListedFiles(infos))
    ensures NoDuplicates(paths) && forall f :: f in paths <==> f in ListedFiles(infos)
  {
    paths := [];
    var seen := {};
    for i := 0 to |infos|
      invariant paths == Distinct(ListedFiles(infos[..i]))
      invariant forall f :: f in seen <==> f in paths
    {
      assert infos[..i + 1][..i] == infos[..i];
      paths, seen := CollectNew(infos[i].dataFiles, paths, seen, ListedFiles(infos[..i]));
    }
    assert infos[..|infos|] == infos;
    DistinctOnce(ListedFiles(infos));
  }

  // ---------- Reading ----------

  /** The stored batches of the given files, in order, if every file can be read. */
  function Stored(paths: seq<string>, content: map<string, seq<Batch>>): Option<seq<Batch>> {
    if paths == [] then Some([])
    else
      match Stored(paths[..|paths| - 1], content)
      case None => None
      case Some(batches) =>
        var last := paths[|paths| - 1];
        if last in content then Some(batches + content[last]) else None
  }

  method ReadAll(paths: seq<string>, content: map<string, seq<Batch>>) returns (r: Option<seq<Batch>>, totalRows: nat)
    ensures r == Stored(paths, content)
    ensures r.Some? ==> totalRows == RowsOf(r.value)
  {
    var batches: seq<Batch> := [];
    totalRows := 0;
    for i := 0 to |paths|
      invariant Stored(paths[..i], content) == Some(batches) && totalRows == RowsOf(batches)
    {
      assert paths[..i + 1][..i] == paths[..i];
      if paths[i] !in content {
        UnreadableStays(paths, content, i + 1);
        return None, totalRows;
      }
      var data := content[paths[i]];
      for j := 0 to |data|
        invariant batches == Stored(paths[..i], content).value + data[..j] && totalRows == RowsOf(batches)
      {
        RowsSnoc(batches, data[j]);
        assert data[..j + 1] == data[..j] + [data[j]];
        batches := batches + [data[j]];
        totalRows := totalRows + data[j].rows;
      }
      assert data[..|data|] == data;
    }
    assert paths[..|paths|] == paths;
    return Some(batches), totalRows;
  }

  lemma {:induction false} UnreadableStays(paths: seq<string>, content: map<string, seq<Batch>>, i: nat)
    requires i <= |paths| && Stored(paths[..i], content) == None
    ensures Stored(paths, content) == None
    decreases |paths| - i
  {
    if i < |paths| {
      assert paths[..i + 1][..i] == paths[..i];
      UnreadableStays(paths, content, i + 1);
    } else {
      assert paths[..i] == paths;
    }
  }

  // ---------- Grouping ----------

  function AllBatches(files: seq<OutputFile>): seq<Batch> {
    if files == [] then [] else AllBatches(files[..|files| - 1]) + files[|files| - 1].batches
  }

  /** A file has reached the target. */
  ghost predicate Full(f: OutputFile, targetBytes: nat) {
    f.rowCount * 100 >= targetBytes
  }

  /** Before its last batch a file had not reached the target. */
  ghost predicate NotOverfull(f: OutputFile, targetBytes: nat) {
    |f.batches| > 1 ==> RowsOf(f.batches[..|f.batches| - 1]) * 100 < targetBytes
  }

  ghost predicate ClosedByLast(f: OutputFile, targetBytes: nat) {
    f.batches != [] && Full(f, targetBytes) && NotOverfull(f, targetBytes)
  }

  ghost predicate Numbered(files: seq<OutputFile>) {
    forall i :: 0 <= i < |files| ==>
      files[i].counter == i + 1 && files[i].batches != [] && files[i].rowCount == RowsOf(files[i].batches)
  }

  ghost predicate AllClosed(files: seq<OutputFile>, targetBytes: nat) {
    forall i :: 0 <= i < |files| ==> ClosedByLast(files[i], targetBytes)
  }

  /** What the grouping promises: all batches in order, every file but the last full, and none
      continued once it is full. */
  ghost predicate IsGrouping(batches: seq<Batch>, files: seq<OutputFile>, targetBytes: nat) {
    && AllBatches(files) == batches && Numbered(files)
    && (forall i :: 0 <= i < |files| - 1 ==> Full(files[i], targetBytes))
    && (forall i :: 0 <= i < |files| ==> NotOverfull(files[i], targetBytes))
  }

  lemma {:induction false} AppendFile(files: seq<OutputFile>, f: OutputFile)
    ensures AllBatches(files + [f]) == AllBatches(files) + f.batches
  {
    assert (files + [f])[..|files|] == files;
  }

  /** The loop state: the closed files and the open buffer together hold the batches so far. */
  ghost predicate Grouping(files: seq<OutputFile>, buffer: seq<Batch>, batches: seq<Batch>, targetBytes: nat) {
    && AllBatches(files) + buffer == batches && Numbered(files) && AllClosed(files, targetBytes)
    && (buffer != [] ==> RowsOf(buffer) * BYTES_PER_ROW < targetBytes)
  }

  lemma {:induction false} CloseFile(files: seq<OutputFile>, buffer: seq<Batch>, b: Batch, batches: seq<Batch>,
                                     targetBytes: nat)
    requires Grouping(files, buffer, batches, targetBytes)
    requires RowsOf(buffer + [b]) * BYTES_PER_ROW >= targetBytes
    ensures Grouping(files + [NewFile(files, buffer + [b])], [], batches + [b], targetBytes)
  {
    var f := NewFile(files, buffer + [b]);
    ClosedFile(files, buffer, b, targetBytes);
    AppendFile(files, f);
    NumberedAndClosed(files, f, targetBytes);
    AllBuffered(AllBatches(files), buffer, b, batches);
    assert AllBatches(files + [f]) + [] == AllBatches(files + [f]);
  }

  lemma {:induction false} NumberedAndClosed(files: seq<OutputFile>, f: OutputFile, targetBytes: nat)
    requires Numbered(files) && AllClosed(files, targetBytes) && ClosedByLast(f, targetBytes)
    requires f.counter == |files| + 1 && f.rowCount == RowsOf(f.batches)
    ensures Numbered(files + [f]) && AllClosed(files + [f], targetBytes)
  {
  }

  /** The next file in the numbering. */
  function NewFile(files: seq<OutputFile>, buffer: seq<Batch>): OutputFile {
    OutputFile(|files| + 1, buffer, RowsOf(buffer))
  }

  lemma {:induction false} ClosedFile(files: seq<OutputFile>, buffer: seq<Batch>, b: Batch, targetBytes: nat)
    requires buffer != [] ==> RowsOf(buffer) * BYTES_PER_ROW < targetBytes
    requires RowsOf(buffer + [b]) * BYTES_PER_ROW >= targetBytes
    ensures ClosedByLast(NewFile(files, buffer + [b]), targetBytes)
  {
    var f := NewFile(files, buffer + [b]);
    assert f.batches[..|f.batches| - 1] == buffer;
  }

  lemma {:induction false} AllBuffered(closed: seq<Batch>, buffer: seq<Batch>, b: Batch, batches: seq<Batch>)
    requires closed + buffer == batches
    ensures closed + (buffer + [b]) == batches + [b]
  {
  }

  /** The state of the grouping loop: the closed files and the open buffer. */
  datatype Packing = Packing(files: seq<OutputFile>, buffer: seq<Batch>)

  function AddBatch(p: Packing, b: Batch, targetBytes: nat): Packing {
    var buffer := p.buffer + [b];
    if RowsOf(buffer) * BYTES_PER_ROW >= targetBytes then Packing(p.files + [NewFile(p.files, buffer)], [])
    else Packing(p.files, buffer)
  }

  function Pack(batches: seq<Batch>, targetBytes: nat): Packing {
    if batches == [] then Packing([], [])
    else AddBatch(Pack(batches[..|batches| - 1], targetBytes), batches[|batches| - 1], targetBytes)
  }

  /** The files written for the batches: the closed ones and, if anything is left, a last one. */
  function NewFiles(batches: seq<Batch>, targetBytes: nat): seq<OutputFile> {
    var p := Pack(batches, targetBytes);
    if p.buffer == [] then p.files else p.files + [NewFile(p.files, p.buffer)]
  }

  lemma {:induction false} PackSnoc(batches: seq<Batch>, b: Batch, targetBytes: nat)
    ensures Pack(batches + [b], targetBytes) == AddBatch(Pack(batches, targetBytes), b, targetBytes)
  {
    assert (batches + [b])[..|batches|] == batches;
  }

  lemma {:induction false} PackGroups(batches: seq<Batch>, targetBytes: nat)
    ensures var p := Pack(batches, targetBytes); Grouping(p.files, p.buffer, batches, targetBytes)
  {
    if batches != [] {
      var init, b := batches[..|batches| - 1], batches[|batches| - 1];
      PackGroups(init, targetBytes);
      var p := Pack(init, targetBytes);
      AllBuffered(AllBatches(p.files), p.buffer, b, init);
      assert batches == init + [b];
      if RowsOf(p.buffer + [b]) * BYTES_PER_ROW >= targetBytes {
        CloseFile(p.files, p.buffer, b, init, targetBytes);
      }
    }
  }

  lemma {:induction false} LastOpen(files: seq<OutputFile>, buffer: seq<Batch>, batches: seq<Batch>, targetBytes: nat)
    requires Grouping(files, buffer, batches, targetBytes) && buffer != []
    ensures IsGrouping(batches, files + [NewFile(files, buffer)], targetBytes)
  {
    AppendFile(files, NewFile(files, buffer));
    ShorterRows(buffer);
  }

  lemma {:induction false} ShorterRows(buffer: seq<Batch>)
    requires buffer != []
    ensures RowsOf(buffer[..|buffer| - 1]) <= RowsOf(buffer)
  {
  }

  lemma {:induction false} NewFilesGroup(batches: seq<Batch>, targetBytes: nat)
    ensures IsGrouping(batches, NewFiles(batches, targetBytes), targetBytes)
  {
    PackGroups(batches, targetBytes);
    var p := Pack(batches, targetBytes);
    if p.buffer == [] {
      assert AllBatches(p.files) + [] == AllBatches(p.files);
    } else {
      LastOpen(p.files, p.buffer, batches, targetBytes);
    }
  }

  lemma {:induction false} StaysOpen(batches: seq<Batch>, p: Packing, b: Batch, targetBytes: nat)
    requires Pack(batches, targetBytes) == p && RowsOf(p.buffer + [b]) * BYTES_PER_ROW < targetBytes
    ensures Pack(batches + [b], targetBytes) == Packing(p.files, p.buffer + [b])
  {
    PackSnoc(batches, b, targetBytes);
  }

  lemma {:induction false} Closes(batches: seq<Batch>, p: Packing, b: Batch, targetBytes: nat)
    requires Pack(batches, targetBytes) == p && RowsOf(p.buffer + [b]) * BYTES_PER_ROW >= targetBytes
    ensures Pack(batches + [b], targetBytes) == Packing(p.files + [NewFile(p.files, p.buffer + [b])], [])
  {
    PackSnoc(batches, b, targetBytes);
  }

  lemma {:induction false} InitAndLast<T>(s: seq<T>)
    requires s != []
    ensures s == s[..|s| - 1] + [s[|s| - 1]]
  {
  }

  /** Batches that together stay below the target stay in the buffer. */
  lemma {:induction false} PackPart(front: seq<Batch>, files: seq<OutputFile>, part: seq<Batch>, targetBytes: nat)
    requires Pack(front, targetBytes) == Packing(files, [])
    requires part != [] ==> RowsOf(part) * BYTES_PER_ROW < targetBytes
    ensures Pack(front + part, targetBytes) == Packing(files, part)
  {
    if part == [] {
      assert front + part == front;
    } else {
      var init, b := part[..|part| - 1], part[|part| - 1];
      ShorterRows(part);
      PackPart(front, files, init, targetBytes);
      InitAndLast(part);
      Associates(front, init, [b]);
      StaysOpen(front + init, Packing(files, init), b, targetBytes);
    }
  }

  /** A file that is full and not overfull is closed by its last batch. */
  lemma {:induction false} PackFile(front: seq<Batch>, files: seq<OutputFile>, f: OutputFile, targetBytes: nat)
    requires Pack(front, targetBytes) == Packing(files, []) && ClosedByLast(f, targetBytes)
    requires f == NewFile(files, f.batches)
    ensures Pack(front + f.batches, targetBytes) == Packing(files + [f], [])
  {
    var init, b := f.batches[..|f.batches| - 1], f.batches[|f.batches| - 1];
    PackPart(front, files, init, targetBytes);
    InitAndLast(f.batches);
    Associates(front, init, [b]);
    Closes(front + init, Packing(files, init), b, targetBytes);
  }

  /** Packing the batches of closed files gives these files back. */
  lemma {:induction false} PackClosed(files: seq<OutputFile>, targetBytes: nat)
    requires Numbered(files) && AllClosed(files, targetBytes)
    ensures Pack(AllBatches(files), targetBytes) == Packing(files, [])
  {
    if files != [] {
      var front, f := files[..|files| - 1], files[|files| - 1];
      PackClosed(front, targetBytes);
      InitAndLast(files);
      PackFile(AllBatches(front), front, f, targetBytes);
    }
  }

  /** What the grouping promises determines it: there is only one way to group the batches. */
  lemma {:induction false} GroupingIsUnique(batches: seq<Batch>, files: seq<OutputFile>, targetBytes: nat)
    ensures IsGrouping(batches, files, targetBytes) <==> files == NewFiles(batches, targetBytes)
  {
    NewFilesGroup(batches, targetBytes);
    if IsGrouping(batches, files, targetBytes) && files != [] {
      var front, f := files[..|files| - 1], files[|files| - 1];
      InitAndLast(files);
      PackClosed(front, targetBytes);
      if Full(f, targetBytes) {
        PackFile(AllBatches(front), front, f, targetBytes);
      } else {
        PackPart(AllBatches(front), front, f.batches, targetBytes);
      }
    }
  }

  lemma {:induction false} PackGrows(batches: seq<Batch>, i: nat, targetBytes: nat)
    requires i <= |batches|
    ensures Pack(batches[..i], targetBytes).files <= NewFiles(batches, targetBytes)
    ensures Pack(batches[..i], targetBytes).files <= Pack(batches, targetBytes).files
    decreases |batches|
  {
    if i == |batches| {
      assert batches[..i] == batches;
    } else {
      PackGrows(batches[..|batches| - 1], i, targetBytes);
      assert batches[..|batches| - 1][..i] == batches[..i];
    }
  }

  /** The packing of the first `i` batches. */
  ghost predicate PackedTo(files: seq<OutputFile>, buffer: seq<Batch>, batches: seq<Batch>, i: nat, targetBytes: nat) {
    i <= |batches| && Pack(batches[..i], targetBytes) == Packing(files, buffer)
  }

  lemma {:induction false} NextBatch(files: seq<OutputFile>, buffer: seq<Batch>, batches: seq<Batch>, i: nat,
                                     targetBytes: nat)
    requires i < |batches| && PackedTo(files, buffer, batches, i, targetBytes)
    ensures RowsOf(buffer + [batches[i]]) == RowsOf(buffer) + batches[i].rows
    ensures if RowsOf(buffer + [batches[i]]) * BYTES_PER_ROW >= targetBytes
            then PackedTo(files + [NewFile(files, buffer + [batches[i]])], [], batches, i + 1, targetBytes)
            else PackedTo(files, buffer + [batches[i]], batches, i + 1, targetBytes)
  {
    var b := batches[i];
    RowsSnoc(buffer, b);
    assert batches[..i + 1] == batches[..i] + [b];
    if RowsOf(buffer + [b]) * BYTES_PER_ROW >= targetBytes {
      Closes(batches[..i], Packing(files, buffer), b, targetBytes);
    } else {
      StaysOpen(batches[..i], Packing(files, buffer), b, targetBytes);
    }
  }

  lemma {:induction false} LastFile(files: seq<OutputFile>, buffer: seq<Batch>, batches: seq<Batch>, targetBytes: nat)
    requires PackedTo(files, buffer, batches, |batches|, targetBytes)
    ensures NewFiles(batches, targetBytes) == if buffer == [] then files else files + [NewFile(files, buffer)]
    ensures IsGrouping(batches, NewFiles(batches, targetBytes), targetBytes)
  {
    assert batches[..|batches|] == batches;
    NewFilesGroup(batches, targetBytes);
  }

  /** The first file whose write fails, if it is one of the grouping. */
  lemma {:induction false} ClosedFilesAreWritten(files: seq<OutputFile>, buffer: seq<Batch>, batches: seq<Batch>,
                                                 i: nat, targetBytes: nat)
    requires PackedTo(files, buffer, batches, i, targetBytes)
    ensures files <= NewFiles(batches, targetBytes)
  {
    PackGrows(batches, i, targetBytes);
  }

  ghost predicate NoneFails(n: nat, failing: set<nat>) {
    forall k :: 1 <= k <= n ==> k !in failing
  }

  /** How far the writing came: to the end, or up to the first file that could not be written. */
  ghost predicate WrittenUntil(files: seq<OutputFile>, ok: bool, whole: seq<OutputFile>, failing: set<nat>) {
    && NoneFails(|files|, failing) && files <= whole
    && (if ok then files == whole else |files| < |whole| && |files| + 1 in failing)
  }

  lemma {:induction false} PrefixOfSnoc<T>(s: seq<T>, x: T, whole: seq<T>)
    requires s + [x] <= whole
    ensures s <= whole && |s| < |whole|
  {
  }

  /** How the run ended, for the grouping of these batches. */
  ghost predicate Wrote(files: seq<OutputFile>, ok: bool, batches: seq<Batch>, targetBytes: nat, failing: set<nat>) {
    && WrittenUntil(files, ok, NewFiles(batches, targetBytes), failing)
    && IsGrouping(batches, NewFiles(batches, targetBytes), targetBytes)
  }

  /** The loop state after `i` batches, none of whose files failed. */
  ghost predicate Writing(files: seq<OutputFile>, buffer: seq<Batch>, rows: nat, batches: seq<Batch>, i: nat,
                          targetBytes: nat, failing: set<nat>) {
    PackedTo(files, buffer, batches, i, targetBytes) && rows == RowsOf(buffer) && NoneFails(|files|, failing)
  }

  lemma {:induction false} WriteNone(batches: seq<Batch>, targetBytes: nat, failing: set<nat>)
    ensures Writing([], [], 0, batches, 0, targetBytes, failing)
  {
  }

  lemma {:induction false} WriteNext(files: seq<OutputFile>, buffer: seq<Batch>, rows: nat, batches: seq<Batch>, i: nat,
                                     targetBytes: nat, failing: set<nat>)
    requires i < |batches| && Writing(files, buffer, rows, batches, i, targetBytes, failing)
    ensures var b := batches[i];
            var f := OutputFile(|files| + 1, buffer + [b], rows + b.rows);
            if f.rowCount * BYTES_PER_ROW < targetBytes then
              Writing(files, buffer + [b], rows + b.rows, batches, i + 1, targetBytes, failing)
            else if f.counter in failing then
              Wrote(files, false, batches, targetBytes, failing)
            else
              Writing(files + [f], [], 0, batches, i + 1, targetBytes, failing)
  {
    NextBatch(files, buffer, batches, i, targetBytes);
    var f := OutputFile(|files| + 1, buffer + [batches[i]], rows + batches[i].rows);
    assert f == NewFile(files, buffer + [batches[i]]);
    if f.rowCount * BYTES_PER_ROW >= targetBytes {
      ClosedFilesAreWritten(files + [f], [], batches, i + 1, targetBytes);
      NewFilesGroup(batches, targetBytes);
      StopsAt(files, f, NewFiles(batches, targetBytes), failing);
    }
  }

  lemma {:induction false} StopsAt(files: seq<OutputFile>, f: OutputFile, whole: seq<OutputFile>, failing: set<nat>)
    requires files + [f] <= whole && f.counter == |files| + 1 && NoneFails(|files|, failing)
    ensures if f.counter in failing then WrittenUntil(files, false, whole, failing)
            else NoneFails(|files + [f]|, failing)
  {
    PrefixOfSnoc(files, f, whole);
  }

  lemma {:induction false} WriteLast(files: seq<OutputFile>, buffer: seq<Batch>, rows: nat, batches: seq<Batch>,
                                     targetBytes: nat, failing: set<nat>)
    requires Writing(files, buffer, rows, batches, |batches|, targetBytes, failing)
    ensures var f := OutputFile(|files| + 1, buffer, rows);
            if buffer == [] then Wrote(files, true, batches, targetBytes, failing)
            else if f.counter in failing then Wrote(files, false, batches, targetBytes, failing)
            else Wrote(files + [f], true, batches, targetBytes, failing)
  {
    LastFile(files, buffer, batches, targetBytes);
    AllWritten(files, OutputFile(|files| + 1, buffer, rows), buffer == [], NewFiles(batches, targetBytes), failing);
  }

  lemma {:induction false} AllWritten(files: seq<OutputFile>, f: OutputFile, done: bool, whole: seq<OutputFile>,
                                      failing: set<nat>)
    requires NoneFails(|files|, failing) && whole == (if done then files else files + [f])
    ensures if done then WrittenUntil(files, true, whole, failing)
            else if |files| + 1 in failing then WrittenUntil(files, false, whole, failing)
            else WrittenUntil(files + [f], true, whole, failing)
  {
  }

  /** Groups the batches and writes each file when it is closed. The first write that fails ends
      the run; the files before it stay written. */
  method WriteFiles(batches: seq<Batch>, targetBytes: nat, failing: set<nat>) returns (files: seq<OutputFile>, ok: bool)
    ensures Wrote(files, ok, batches, targetBytes, failing)
  {
    WriteNone(batches, targetBytes, failing);
    files := [];
    var buffer: seq<Batch> := [];
    var rows: nat, counter: nat := 0, 0;
    for i := 0 to |batches|
      invariant counter == |files| && Writing(files, buffer, rows, batches, i, targetBytes, failing)
    {
      WriteNext(files, buffer, rows, batches, i, targetBytes, failing);
      buffer := buffer + [batches[i]];
      rows := rows + batches[i].rows;
      if rows * BYTES_PER_ROW >= targetBytes {
        counter := counter + 1;
        if counter in failing { return files, false; }
        files := files + [OutputFile(counter, buffer, rows)];
        buffer, rows := [], 0;
      }
    }
    WriteLast(files, buffer, rows, batches, targetBytes, failing);
    if buffer != [] {
      counter := counter + 1;
      if counter in failing { return files, false; }
      files := files + [OutputFile(counter, buffer, rows)];
    }
    return files, true;
  }

  /** So the number of new files is bounded by the data: all but one hold a full target each. */
  lemma {:induction false} FileCountBound(batches: seq<Batch>, files: seq<OutputFile>, targetBytes: nat)
    requires IsGrouping(batches, files, targetBytes)
    ensures (if files == [] then 0 else |files| - 1) * targetBytes <= 100 * RowsOf(batches)
    ensures SumCounts(files) == RowsOf(batches)
  {
    CountsAreRows(files);
    if files != [] {
      FullFiles(files, |files| - 1, targetBytes);
      RowsPrefix(files, |files| - 1);
    }
  }

  function SumCounts(files: seq<OutputFile>): nat {
    if files == [] then 0 else SumCounts(files[..|files| - 1]) + files[|files| - 1].rowCount
  }

  lemma {:induction false} CountsAreRows(files: seq<OutputFile>)
    requires Numbered(files)
    ensures SumCounts(files) == RowsOf(AllBatches(files))
  {
    if files != [] {
      CountsAreRows(files[..|files| - 1]);
      RowsConcat(AllBatches(files[..|files| - 1]), files[|files| - 1].batches);
    }
  }

  lemma {:induction false} OneMore(n: nat, x: nat)
    requires n > 0
    ensures n * x == (n - 1) * x + x
  {
  }

  lemma {:induction false} FullFiles(files: seq<OutputFile>, n: nat, targetBytes: nat)
    requires n <= |files| && Numbered(files) && forall i :: 0 <= i < n ==> Full(files[i], targetBytes)
    ensures n * targetBytes <= BYTES_PER_ROW * RowsOf(AllBatches(files[..n]))
  {
    if n > 0 {
      FullFiles(files, n - 1, targetBytes);
      assert files[..n][..n - 1] == files[..n - 1];
      RowsConcat(AllBatches(files[..n - 1]), files[n - 1].batches);
      OneMore(n, targetBytes);
    }
  }

  lemma {:induction false} RowsPrefix(files: seq<OutputFile>, n: nat)
    requires n <= |files|
    ensures RowsOf(AllBatches(files[..n])) <= RowsOf(AllBatches(files))
    decreases |files|
  {
    if n == |files| {
      assert files[..n] == files;
    } else {
      var init := files[..|files| - 1];
      RowsPrefix(init, n);
      assert init[..n] == files[..n];
      RowsConcat(AllBatches(init), files[|files| - 1].batches);
    }
  }

  // ---------- The whole run ----------

  /** The batches read: those of every distinct listed file, once. */
  function SourceBatches(infos: seq<SnapshotInfo>, content: map<string, seq<Batch>>): Option<seq<Batch>> {
    Stored(Distinct(ListedFiles(infos)), content)
  }

  ghost predicate AllReadable(paths: seq<string>, content: map<string, seq<Batch>>) {
    forall f :: f in paths ==> f in content
  }

  ghost predicate SomeData(paths: seq<string>, content: map<string, seq<Batch>>) {
    exists f :: f in paths && f in content && content[f] != []
  }

  lemma {:induction false} SameFiles(a: seq<string>, b: seq<string>, content: map<string, seq<Batch>>)
    requires forall f :: f in a <==> f in b
    ensures AllReadable(a, content) <==> AllReadable(b, content)
    ensures SomeData(a, content) <==> SomeData(b, content)
  {
  }

  lemma {:induction false} StoredIff(paths: seq<string>, content: map<string, seq<Batch>>)
    ensures Stored(paths, content).Some? <==> AllReadable(paths, content)
    ensures Stored(paths, content).Some? ==> (Stored(paths, content).value != [] <==> SomeData(paths, content))
  {
    if paths != [] {
      var front, last := paths[..|paths| - 1], paths[|paths| - 1];
      StoredIff(front, content);
      assert forall f :: f in paths <==> f in front || f == last;
    }
  }

  lemma {:induction false} SourceIff(infos: seq<SnapshotInfo>, content: map<string, seq<Batch>>)
    ensures SourceBatches(infos, content).Some? <==> AllReadable(ListedFiles(infos), content)
    ensures SourceBatches(infos, content).Some? ==>
              (SourceBatches(infos, content).value != [] <==> SomeData(ListedFiles(infos), content))
  {
    DistinctOnce(ListedFiles(infos));
    StoredIff(Distinct(ListedFiles(infos)), content);
    SameFiles(Distinct(ListedFiles(infos)), ListedFiles(infos), content);
  }

  /** A table that has just been loaded lists no files, so compacting it always fails. */
  lemma {:induction false} LoadedTableListsNothing(m: Metadata)
    ensures ListedFiles(Loaded(m)) == []
    decreases |m.snapshots|
  {
    if m.snapshots != [] {
      var shorter := m.(snapshots := m.snapshots[..|m.snapshots| - 1]);
      assert Loaded(m)[..|m.snapshots| - 1] == Loaded(shorter);
      LoadedTableListsNothing(shorter);
    }
  }
}
