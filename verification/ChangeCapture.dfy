/** Why capturing the resume token before the snapshot leaves no gap: a snapshot whose documents
    were read at different moments, followed by a replay of every change after the token, ends in
    exactly the state of the collection. */
module ChangeCapture {
  type Key = string
  type Field = string
  type Document = map<Field, string>
  type Collection = map<Key, Document>

  /** A change of one document. An update carries only the fields it sets and removes. */
  datatype Change =
    | Put(key: Key, doc: Document)
    | Patch(key: Key, updated: Document, removed: set<Field>)
    | Remove(key: Key)

  function Patched(doc: Document, updated: Document, removed: set<Field>): Document {
    (doc - removed) + updated
  }

  /** The server applies changes and the consumer replays them by the same rule. */
  function Apply(c: Collection, change: Change): Collection {
    match change
    case Put(k, doc) => c[k := doc]
    case Patch(k, updated, removed) => c[k := Patched(if k in c then c[k] else map[], updated, removed)]
    case Remove(k) => c - {k}
  }

  /** What each kind of change does to the documents: other documents stay; a put leaves exactly the given
      document, an update its fields with the others as they were, and a removal nothing. */
  lemma {:induction false} ApplyLaws(c: Collection, change: Change, k: Key)
    ensures k != change.key ==> (k in Apply(c, change) <==> k in c) && (k in c ==> Apply(c, change)[k] == c[k])
    ensures change.Put? ==> change.key in Apply(c, change) && Apply(c, change)[change.key] == change.doc
    ensures change.Remove? ==> change.key !in Apply(c, change)
    ensures change.Patch? ==>
              && change.key in Apply(c, change)
              && var doc := Apply(c, change)[change.key];
              && (forall f :: f in change.updated ==> f in doc && doc[f] == change.updated[f])
              && (forall f :: f in change.removed && f !in change.updated ==> f !in doc)
              && (forall f :: f !in change.removed && f !in change.updated ==>
                    (f in doc <==> change.key in c && f in c[change.key]) && (f in doc ==> doc[f] == c[change.key][f]))
  {
  }

  function Replay(c: Collection, changes: seq<Change>): Collection
    decreases changes
  {
    if changes == [] then c else Replay(Apply(c, changes[0]), changes[1..])
  }

  /** The collection after the first `n` changes of the log. */
  function StateAt(log: seq<Change>, n: nat): Collection
    requires n <= |log|
  {
    if n == 0 then map[] else Apply(StateAt(log, n - 1), log[n - 1])
  }

  /** Only documents that exist are updated. */
  ghost predicate ServerLog(log: seq<Change>) {
    forall i :: 0 <= i < |log| && log[i].Patch? ==> log[i].key in StateAt(log, i)
  }

  // ---------- The fuzzy snapshot ----------

  /** The snapshot cursor came past `key` when `moment` changes had been made. */
  datatype Visit = Visit(key: Key, moment: nat)

  /** The records a cursor yields: documents missing at the moment of the visit yield none. */
  function SnapshotRecords(log: seq<Change>, visits: seq<Visit>): seq<Change>
    requires forall v :: v in visits ==> v.moment <= |log|
  {
    if visits == [] then []
    else
      var v := visits[0];
      assert v in visits;
      (if v.key in StateAt(log, v.moment) then [Put(v.key, StateAt(log, v.moment)[v.key])] else []) +
      SnapshotRecords(log, visits[1..])
  }

  /** The visits happen between the token and the horizon, each at its own moment, in any order and
      possibly more than once; every document that existed at the token is visited. */
  ghost predicate FuzzySnapshot(log: seq<Change>, token: nat, horizon: nat, visits: seq<Visit>) {
    && token <= horizon <= |log|
    && (forall v :: v in visits ==> token <= v.moment <= horizon)
    && (forall k :: k in StateAt(log, token) ==> exists v :: v in visits && v.key == k)
  }

  // ---------- The delivered change stream ----------

  /** How an update reaches the consumer: as the bare description, or with the full document
      looked up when `moment` changes had been made. */
  datatype Lookup = Described | LookedUp(moment: nat)

  /** The event delivered for change `i`. A lookup that finds the document gone again falls back
      to the description. */
  function Delivered(log: seq<Change>, i: nat, lookup: Lookup): Change
    requires i < |log| && (lookup.LookedUp? ==> lookup.moment <= |log|)
  {
    match log[i]
    case Patch(k, _, _) =>
      if lookup.LookedUp? && k in StateAt(log, lookup.moment) then Put(k, StateAt(log, lookup.moment)[k]) else log[i]
    case other => other
  }

  /** The events for the changes from `from` up to `end`. Lookups happen after their change and up to
      the horizon, which may lie beyond the last event delivered. */
  ghost predicate IsStream(log: seq<Change>, from: nat, end: nat, horizon: nat, lookups: seq<Lookup>,
                           events: seq<Change>) {
    && from <= end <= horizon <= |log| && |lookups| == |log| && |events| == end - from
    && (forall i :: from <= i < end && lookups[i].LookedUp? ==> i < lookups[i].moment <= horizon)
    && (forall i :: from <= i < end ==> events[i - from] == Delivered(log, i, lookups[i]))
  }

  // ---------- Convergence, one cell at a time ----------

  /** What can be observed of a collection: whether a document exists, and each of its fields. */
  datatype Cell = Presence(key: Key) | Content(key: Key, field: Field)
  datatype Reading = Absent | Present(text: string)

  function Read(c: Collection, cell: Cell): Reading {
    if cell.key !in c then Absent
    else if cell.Presence? then Present("")
    else if cell.field in c[cell.key] then Present(c[cell.key][cell.field])
    else Absent
  }

  lemma {:induction false} SameCells(a: Collection, b: Collection)
    requires forall cell :: Read(a, cell) == Read(b, cell)
    ensures a == b
  {
    forall k
      ensures k in a <==> k in b
      ensures k in a && k in b ==> a[k] == b[k]
    {
      assert Read(a, Presence(k)) == Read(b, Presence(k));
      if k in a && k in b {
        forall f: Field
          ensures f in a[k] <==> f in b[k]
          ensures f in a[k] && f in b[k] ==> a[k][f] == b[k][f]
        {
          assert Read(a, Content(k, f)) == Read(b, Content(k, f));
        }
      }
    }
  }

  /** Some state between `n` and `end` shows the same reading. */
  ghost predicate SeenSince(log: seq<Change>, n: nat, end: nat, cell: Cell, r: Reading)
    requires end <= |log|
  {
    exists m :: n <= m <= end && Read(StateAt(log, m), cell) == r
  }

  /** A delivered event leaves a cell alone only if the change did; otherwise it writes what the
      cell held at some later moment. */
  lemma {:induction false} DeliveredWritesLater(log: seq<Change>, i: nat, end: nat, lookup: Lookup, c: Collection,
                                                cell: Cell)
    requires ServerLog(log) && i < end <= |log|
    requires lookup.LookedUp? ==> i < lookup.moment <= end
    requires SeenSince(log, i, end, cell, Read(c, cell))
    ensures SeenSince(log, i + 1, end, cell, Read(Apply(c, Delivered(log, i, lookup)), cell))
  {
    var before, after := StateAt(log, i), StateAt(log, i + 1);
    var c' := Apply(c, Delivered(log, i, lookup));
    var m :| i <= m <= end && Read(StateAt(log, m), cell) == Read(c, cell);
    if log[i].key != cell.key {
      assert Read(c', cell) == Read(c, cell) && Read(after, cell) == Read(before, cell);
      var m' := if m == i then i + 1 else m;
      assert Read(StateAt(log, m'), cell) == Read(c', cell);
    } else if Delivered(log, i, lookup) != log[i] {
      assert Read(StateAt(log, lookup.moment), cell) == Read(c', cell);
    } else if log[i].Patch? && cell.Content? && cell.field !in log[i].updated && cell.field !in log[i].removed {
      PatchLeaves(c, log[i], cell);
      PatchLeaves(before, log[i], cell);
      var m' := if m == i then i + 1 else m;
      assert Read(StateAt(log, m'), cell) == Read(c', cell);
    } else {
      assert Read(after, cell) == Read(c', cell);
    }
  }

  lemma {:induction false} PatchLeaves(c: Collection, p: Change, cell: Cell)
    requires p.Patch? && cell.Content? && cell.key == p.key && cell.field !in p.updated && cell.field !in p.removed
    ensures Read(Apply(c, p), cell) == Read(c, cell)
  {
  }

  /** Replaying the stream from `n` up to `end` turns any reading seen since `n` into one seen since
      `end`. */
  lemma {:induction false} ReplayConverges(log: seq<Change>, n: nat, end: nat, horizon: nat, lookups: seq<Lookup>,
                                           events: seq<Change>, c: Collection, cell: Cell)
    requires ServerLog(log) && IsStream(log, n, end, horizon, lookups, events)
    requires SeenSince(log, n, horizon, cell, Read(c, cell))
    ensures SeenSince(log, end, horizon, cell, Read(Replay(c, events), cell))
    decreases end - n
  {
    if n < end {
      assert events[n - n] == Delivered(log, n, lookups[n]);
      DeliveredWritesLater(log, n, horizon, lookups[n], c, cell);
      assert IsStream(log, n + 1, end, horizon, lookups, events[1..]) by {
        forall i | n + 1 <= i < end
          ensures events[1..][i - (n + 1)] == Delivered(log, i, lookups[i])
        {
          assert events[i - n] == Delivered(log, i, lookups[i]);
        }
      }
      ReplayConverges(log, n + 1, end, horizon, lookups, events[1..], Apply(c, events[0]), cell);
    }
  }

  /** The records of a snapshot leave every cell of a visited document as it was at some visit, and
      the others as before. */
  lemma {:induction false} SnapshotShows(log: seq<Change>, token: nat, end: nat, visits: seq<Visit>, c: Collection,
                                         cell: Cell)
    requires token <= end <= |log| && forall v :: v in visits ==> token <= v.moment <= end
    requires SeenSince(log, token, end, cell, Read(c, cell)) || exists v :: v in visits && v.key == cell.key
    requires Read(c, cell) == Absent || SeenSince(log, token, end, cell, Read(c, cell))
    ensures SeenSince(log, token, end, cell, Read(Replay(c, SnapshotRecords(log, visits)), cell))
    decreases visits
  {
    if visits != [] {
      var v := visits[0];
      assert v in visits;
      var records := SnapshotRecords(log, visits);
      var state := StateAt(log, v.moment);
      if v.key in state {
        var c' := Apply(c, Put(v.key, state[v.key]));
        assert records[1..] == SnapshotRecords(log, visits[1..]);
        assert Read(c', cell) == if v.key == cell.key then Read(state, cell) else Read(c, cell);
        SnapshotShows(log, token, end, visits[1..], c', cell);
      } else {
        assert records == SnapshotRecords(log, visits[1..]);
        if v.key == cell.key { assert Read(state, cell) == Absent; }
        SnapshotShows(log, token, end, visits[1..], c, cell);
      }
    }
  }

  /** Each cell shows what it held at some moment no earlier than `end`. */
  ghost predicate UpToDate(log: seq<Change>, end: nat, horizon: nat, c: Collection)
    requires horizon <= |log|
  {
    forall cell :: SeenSince(log, end, horizon, cell, Read(c, cell))
  }

  /** However late visits and lookups happened, the copy is never behind: after the snapshot and the
      events up to `end`, each cell shows what it held at some moment no earlier than `end`. */
  lemma {:induction false} NeverBehind(log: seq<Change>, token: nat, end: nat, horizon: nat, visits: seq<Visit>,
                                       lookups: seq<Lookup>, events: seq<Change>)
    requires ServerLog(log) && FuzzySnapshot(log, token, horizon, visits)
    requires IsStream(log, token, end, horizon, lookups, events)
    ensures UpToDate(log, end, horizon, Replay(map[], SnapshotRecords(log, visits) + events))
  {
    var records := SnapshotRecords(log, visits);
    ReplayAppend(map[], records, events);
    forall cell
      ensures SeenSince(log, end, horizon, cell, Read(Replay(map[], records + events), cell))
    {
      if cell.key !in StateAt(log, token) {
        assert Read(StateAt(log, token), cell) == Read(map[], cell);
      }
      SnapshotShows(log, token, horizon, visits, map[], cell);
      ReplayConverges(log, token, end, horizon, lookups, events, Replay(map[], records), cell);
    }
  }

  /** The restart law: a copy that is up to date with some token and gets the events after it is up to
      date with the last of them. */
  lemma {:induction false} StaysUpToDate(log: seq<Change>, from: nat, end: nat, horizon: nat, lookups: seq<Lookup>,
                                         events: seq<Change>, copy: Collection)
    requires ServerLog(log) && IsStream(log, from, end, horizon, lookups, events)
    requires UpToDate(log, from, horizon, copy)
    ensures UpToDate(log, end, horizon, Replay(copy, events))
  {
    forall cell ensures SeenSince(log, end, horizon, cell, Read(Replay(copy, events), cell)) {
      assert SeenSince(log, from, horizon, cell, Read(copy, cell));
      ReplayConverges(log, from, end, horizon, lookups, events, copy, cell);
    }
  }

  /** Gap-free capture: for every log, every token, every fuzzy snapshot taken after it and every
      choice of lookups, snapshot and replay end in the collection itself. */
  lemma {:induction false} GapFree(log: seq<Change>, token: nat, end: nat, visits: seq<Visit>, lookups: seq<Lookup>,
                                   events: seq<Change>)
    requires ServerLog(log) && FuzzySnapshot(log, token, end, visits) && IsStream(log, token, end, end, lookups, events)
    ensures Replay(map[], SnapshotRecords(log, visits) + events) == StateAt(log, end)
  {
    var copy := Replay(map[], SnapshotRecords(log, visits) + events);
    NeverBehind(log, token, end, end, visits, lookups, events);
    forall cell
      ensures Read(copy, cell) == Read(StateAt(log, end), cell)
    {
      assert SeenSince(log, end, end, cell, Read(copy, cell));
    }
    SameCells(copy, StateAt(log, end));
  }

  lemma {:induction false} ReplayAppend(c: Collection, a: seq<Change>, b: seq<Change>)
    ensures Replay(c, a + b) == Replay(Replay(c, a), b)
    decreases a
  {
    if a == [] {
      assert a + b == b;
    } else {
      ReplayAppend(Apply(c, a[0]), a[1..], b);
      assert (a + b)[1..] == a[1..] + b;
    }
  }

  /** The order matters: for every visit made before the token there is a run, correct in every
      other respect, in which a document is lost. */
  lemma {:induction false} LateTokenLosesDocument(moment: nat, token: nat)
    requires moment < token
    ensures exists log, visits, events ::
              && |log| == token && ServerLog(log)
              && visits == [Visit("k", moment)] && (forall k :: k in StateAt(log, token) ==> k == "k")
              && IsStream(log, token, token, token, seq(token, _ => Described), events)
              && Replay(map[], SnapshotRecords(log, visits) + events) != StateAt(log, token)
  {
    var log: seq<Change> := seq(token, i => if i == moment then Put("k", map[]) else Remove("other"));
    var visits := [Visit("k", moment)];
    LogStates(log, moment, moment);
    LogStates(log, moment, token);
    assert SnapshotRecords(log, visits) + [] == [] by { assert visits[1..] == []; }
    assert "k" in StateAt(log, token);
    var events: seq<Change> := [];
    assert Replay(map[], SnapshotRecords(log, visits) + events) != StateAt(log, token);
    assert IsStream(log, token, token, token, seq(token, _ => Described), events);
  }

  lemma {:induction false} LogStates(log: seq<Change>, moment: nat, n: nat)
    requires n <= |log| && moment < |log|
    requires forall i :: 0 <= i < |log| ==> log[i] == if i == moment then Put("k", map[]) else Remove("other")
    ensures StateAt(log, n) == if n <= moment then map[] else map["k" := map[]]
  {
    if n > 0 { LogStates(log, moment, n - 1); }
  }
}
