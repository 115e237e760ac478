/** The sink at the end of a capture pipeline: batches are buffered and written out as files. An
    upload may fail at any time; then everything stays buffered. */
module ParquetSink {
  import opened Batches
  import opened Sequences

  datatype FileName = FileName(stamp: string, number: nat)
  datatype DataFile = DataFile(name: FileName, rowCount: nat)

  /** How one attempt to write the buffer ends. The stamp is the clock's. */
  datatype Attempt = EncodingFails | UploadFails | Succeeds(stamp: string)

  function SumRows(files: seq<DataFile>): nat {
    if files == [] then 0 else SumRows(files[..|files| - 1]) + files[|files| - 1].rowCount
  }

  lemma {:induction false} FileSnoc(files: seq<DataFile>, f: DataFile, groups: seq<seq<Batch>>, g: seq<Batch>)
    ensures SumRows(files + [f]) == SumRows(files) + f.rowCount
    ensures Concat(groups + [g]) == Concat(groups) + g
  {
    assert (files + [f])[..|files|] == files;
    assert (groups + [g])[..|groups|] == groups;
  }

  predicate RowsMatch(f: DataFile, group: seq<Batch>, counter: nat) {
    f.rowCount == RowsOf(group) && f.name.number <= counter
  }

  predicate Before(f: DataFile, g: DataFile) {
    f.name.number < g.name.number
  }

  /** Each recorded file counts the rows it contains, and no two share a number: failed uploads use
      up numbers too. */
  ghost predicate Recorded(files: seq<DataFile>, contents: seq<seq<Batch>>, counter: nat) {
    && |contents| == |files|
    && (forall i {:trigger RowsMatch(files[i], contents[i], counter)} :: 0 <= i < |files| ==>
         RowsMatch(files[i], contents[i], counter))
    && (forall i, j {:trigger Before(files[i], files[j])} :: 0 <= i < j < |files| ==> Before(files[i], files[j]))
  }

  lemma {:induction false} RecordOne(files: seq<DataFile>, contents: seq<seq<Batch>>, counter: nat, name: FileName,
                                     group: seq<Batch>)
    requires Recorded(files, contents, counter) && name.number > counter
    ensures Recorded(files + [DataFile(name, RowsOf(group))], contents + [group], name.number)
  {
    var files', contents' := files + [DataFile(name, RowsOf(group))], contents + [group];
    forall i | 0 <= i < |files'| ensures RowsMatch(files'[i], contents'[i], name.number) {
      if i < |files| { assert RowsMatch(files[i], contents[i], counter); }
    }
    forall i, j | 0 <= i < j < |files'| ensures Before(files'[i], files'[j]) {
      if j < |files| {
        assert Before(files[i], files[j]);
      } else {
        assert RowsMatch(files[i], contents[i], counter);
      }
    }
  }

  lemma {:induction false} RecordedLater(files: seq<DataFile>, contents: seq<seq<Batch>>, counter: nat)
    requires Recorded(files, contents, counter)
    ensures Recorded(files, contents, counter + 1)
  {
    forall i | 0 <= i < |files| ensures RowsMatch(files[i], contents[i], counter + 1) {
      assert RowsMatch(files[i], contents[i], counter);
    }
  }

  /** Booking the buffer as one more file moves its batches without touching their order. */
  lemma {:induction false} BookOne(accepted: seq<Batch>, files: seq<DataFile>, contents: seq<seq<Batch>>, counter: nat,
                                   name: FileName, group: seq<Batch>)
    requires accepted == Concat(contents) + group && Recorded(files, contents, counter) && name.number > counter
    ensures var file := DataFile(name, RowsOf(group));
            && Recorded(files + [file], contents + [group], name.number)
            && SumRows(files + [file]) == SumRows(files) + RowsOf(group)
            && accepted == Concat(contents + [group]) + []
  {
    RecordOne(files, contents, counter, name, group);
    FileSnoc(files, DataFile(name, RowsOf(group)), contents, group);
    assert Concat(contents + [group]) + [] == Concat(contents + [group]);
  }

  /** The sink's fields and ghosts as one value. */
  datatype State = State(
    buffer: seq<Batch>, bufferRows: nat, filesWritten: nat, totalRowsWritten: nat, dataFiles: seq<DataFile>,
    contents: seq<seq<Batch>>, accepted: seq<Batch>)

  function AfterAccept(s: State, batch: Batch): State {
    s.(buffer := s.buffer + [batch], bufferRows := s.bufferRows + batch.rows, accepted := s.accepted + [batch])
  }

  /** A failed upload uses up a file number and changes nothing else; a failed encoding, not even that. */
  function AfterFlush(s: State, attempt: Attempt): State {
    if s.buffer == [] || attempt.EncodingFails? then s
    else if attempt.UploadFails? then s.(filesWritten := s.filesWritten + 1)
    else AfterBook(s.(filesWritten := s.filesWritten + 1), attempt.stamp)
  }

  /** The buffer becomes the file numbered last. */
  function AfterBook(s: State, stamp: string): State {
    s.(buffer := [], bufferRows := 0, totalRowsWritten := s.totalRowsWritten + s.bufferRows,
       dataFiles := s.dataFiles + [DataFile(FileName(stamp, s.filesWritten), s.bufferRows)],
       contents := s.contents + [s.buffer])
  }

  /** A flush that succeeds turns the whole buffer into the newest file; any other leaves the files and the
      buffer as they were. */
  lemma {:induction false} FlushDoes(s: State, attempt: Attempt)
    ensures var after := AfterFlush(s, attempt);
      && after.accepted == s.accepted
      && after.filesWritten == s.filesWritten + (if s.buffer == [] || attempt.EncodingFails? then 0 else 1)
      && if s.buffer == [] || !attempt.Succeeds? then
           after.buffer == s.buffer && after.dataFiles == s.dataFiles && after.totalRowsWritten == s.totalRowsWritten
         else
           && after.buffer == [] && after.contents == s.contents + [s.buffer]
           && after.dataFiles == s.dataFiles + [DataFile(FileName(attempt.stamp, after.filesWritten), s.bufferRows)]
  {
  }

  class Sink {
    const threshold: nat
    var buffer: seq<Batch>
    var bufferRows: nat
    var filesWritten: nat
    var totalRowsWritten: nat
    var dataFiles: seq<DataFile>

    /** What the recorded files contain, and every batch handed to the sink so far. */
    ghost var contents: seq<seq<Batch>>
    ghost var accepted: seq<Batch>

    ghost predicate Valid()
      reads this
    {
      // exactly once: the recorded files followed by the buffer are the accepted batches in order
      && accepted == Concat(contents) + buffer
      && bufferRows == RowsOf(buffer)
      && Recorded(dataFiles, contents, filesWritten)
      && totalRowsWritten == SumRows(dataFiles)
    }

    ghost function Now(): State
      reads this
    {
      State(buffer, bufferRows, filesWritten, totalRowsWritten, dataFiles, contents, accepted)
    }

    constructor (threshold: nat)
      ensures Valid() && this.threshold == threshold
      ensures accepted == [] && buffer == [] && dataFiles == [] && filesWritten == 0
    {
      this.threshold := threshold;
      buffer, bufferRows, filesWritten, totalRowsWritten, dataFiles := [], 0, 0, 0, [];
      contents, accepted := [], [];
    }

    /** Books the uploaded buffer as the file numbered last and empties it. */
    method Book(stamp: string)
      requires Valid() && filesWritten > 0 && Recorded(dataFiles, contents, filesWritten - 1)
      modifies `buffer, `bufferRows, `totalRowsWritten, `dataFiles, `contents
      ensures Valid() && Now() == AfterBook(old(Now()), stamp)
    {
      BookOne(accepted, dataFiles, contents, filesWritten - 1, FileName(stamp, filesWritten), buffer);
      totalRowsWritten := totalRowsWritten + bufferRows;
      dataFiles := dataFiles + [DataFile(FileName(stamp, filesWritten), bufferRows)];
      contents := contents + [buffer];
      buffer := [];
      bufferRows := 0;
    }

    /** Every attempt to upload takes a new number, whether it succeeds or not. */
    method NextNumber()
      requires Valid()
      modifies `filesWritten
      ensures Valid() && filesWritten == old(filesWritten) + 1 && Recorded(dataFiles, contents, old(filesWritten))
    {
      RecordedLater(dataFiles, contents, filesWritten);
      filesWritten := filesWritten + 1;
    }

    /** Writes the whole buffer as one file, or changes nothing but the file counter. */
    method Flush(attempt: Attempt) returns (ok: bool)
      requires Valid()
      modifies `buffer, `bufferRows, `totalRowsWritten, `dataFiles, `contents, `filesWritten
      ensures Valid() && Now() == AfterFlush(old(Now()), attempt)
      ensures ok <==> old(buffer) == [] || attempt.Succeeds?
      ensures accepted == old(accepted)
      ensures !ok || old(buffer) == [] ==>
                buffer == old(buffer) && dataFiles == old(dataFiles) && totalRowsWritten == old(totalRowsWritten)
      ensures ok && old(buffer) != [] ==>
                && buffer == [] && contents == old(contents) + [old(buffer)]
                && dataFiles == old(dataFiles) + [DataFile(FileName(attempt.stamp, filesWritten), old(bufferRows))]
      ensures filesWritten == old(filesWritten) + if old(buffer) == [] || attempt.EncodingFails? then 0 else 1
    {
      FlushDoes(Now(), attempt);
      if buffer == [] { return true; }
      if attempt.EncodingFails? { return false; }
      NextNumber();
      if attempt.UploadFails? { return false; }
      Book(attempt.stamp);
      return true;
    }

    method Accept(batch: Batch)
      requires Valid()
      modifies `buffer, `bufferRows, `accepted
      ensures Valid() && Now() == AfterAccept(old(Now()), batch)
    {
      RowsSnoc(buffer, batch);
      assert accepted + [batch] == Concat(contents) + (buffer + [batch]);
      buffer := buffer + [batch];
      accepted := accepted + [batch];
      bufferRows := bufferRows + batch.rows;
    }

    /** Accepts a batch, and flushes once enough rows have gathered. The batch is accepted even
        when the flush fails: it stays buffered, so handing it in again would duplicate it. */
    method WriteBatch(batch: Batch, attempt: Attempt) returns (ok: bool)
      requires Valid()
      modifies this
      ensures Valid() && accepted == old(accepted) + [batch]
      ensures ok <==> old(bufferRows) + batch.rows < threshold || attempt.Succeeds?
      ensures ok && threshold > 0 ==> bufferRows < threshold
      ensures var full := AfterAccept(old(Now()), batch);
        Now() == if full.bufferRows < threshold then full else AfterFlush(full, attempt)
    {
      Accept(batch);
      ok := true;
      if bufferRows >= threshold {
        ok := Flush(attempt);
      }
    }
  }

  datatype Call = Write(batch: Batch, attempt: Attempt) | FlushNow(attempt: Attempt)

  function Written(calls: seq<Call>): seq<Batch> {
    if calls == [] then []
    else Written(calls[..|calls| - 1]) + if calls[|calls| - 1].Write? then [calls[|calls| - 1].batch] else []
  }

  lemma {:induction false} ConcatRows(groups: seq<seq<Batch>>, files: seq<DataFile>)
    requires |groups| == |files| && forall i :: 0 <= i < |files| ==> files[i].rowCount == RowsOf(groups[i])
    ensures RowsOf(Concat(groups)) == SumRows(files)
  {
    if groups != [] {
      ConcatRows(groups[..|groups| - 1], files[..|files| - 1]);
      RowsConcat(Concat(groups[..|groups| - 1]), groups[|groups| - 1]);
    }
  }

  lemma {:induction false} RowsAccounted(sink: Sink)
    requires sink.Valid()
    ensures sink.totalRowsWritten + sink.bufferRows == RowsOf(sink.accepted)
  {
    forall i | 0 <= i < |sink.dataFiles| ensures sink.dataFiles[i].rowCount == RowsOf(sink.contents[i]) {
      assert RowsMatch(sink.dataFiles[i], sink.contents[i], sink.filesWritten);
    }
    ConcatRows(sink.contents, sink.dataFiles);
    RowsConcat(Concat(sink.contents), sink.buffer);
  }

  method Perform(sink: Sink, call: Call)
    requires sink.Valid()
    modifies sink
    ensures sink.Valid()
    ensures sink.accepted == old(sink.accepted) + if call.Write? then [call.batch] else []
  {
    var ok;
    match call {
      case Write(batch, attempt) => ok := sink.WriteBatch(batch, attempt);
      case FlushNow(attempt) => ok := sink.Flush(attempt);
    }
  }

  /** Over every sequence of calls with arbitrarily failing uploads no batch is lost, repeated or
      reordered, and the recorded row counts add up to the rows handed in. */
  method RunCalls(threshold: nat, calls: seq<Call>) returns (sink: Sink)
    ensures sink.Valid() && Concat(sink.contents) + sink.buffer == Written(calls)
    ensures sink.totalRowsWritten + sink.bufferRows == RowsOf(Written(calls))
  {
    sink := new Sink(threshold);
    for i := 0 to |calls|
      invariant sink.Valid() && fresh(sink) && sink.accepted == Written(calls[..i])
    {
      assert calls[..i + 1][..i] == calls[..i];
      Perform(sink, calls[i]);
    }
    assert calls[..|calls|] == calls;
    RowsAccounted(sink);
  }
}
