/** Record batches. Only their size and identity matter here. */
module Batches {
  datatype Batch = Batch(id: nat, rows: nat)

  function RowsOf(batches: seq<Batch>): nat {
    if batches == [] then 0 else RowsOf(batches[..|batches| - 1]) + batches[|batches| - 1].rows
  }

  lemma {:induction false} RowsSnoc(batches: seq<Batch>, b: Batch)
    ensures RowsOf(batches + [b]) == RowsOf(batches) + b.rows
  {
    assert (batches + [b])[..|batches|] == batches;
  }

  lemma {:induction false} RowsConcat(a: seq<Batch>, b: seq<Batch>)
    ensures RowsOf(a + b) == RowsOf(a) + RowsOf(b)
  {
    if b == [] {
      assert a + b == a;
    } else {
      RowsConcat(a, b[..|b| - 1]);
      assert (a + b)[..|a + b| - 1] == a + b[..|b| - 1];
    }
  }
}
