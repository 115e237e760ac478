/** A table scan that pushes filters to the remote engine as SQL text and re-applies all of them
    to the rows that come back. */
module FilterPushdown {
  import opened FilterExpr
  import opened Sequences
  import opened SqlGrammar
  import opened SqlRoundTrip

  /** The filters that have a SQL text; they are pushed inexactly, the others not at all. */
  function Pushed(filters: seq<Expr>): (r: seq<Expr>)
    ensures forall f :: f in r <==> f in filters && Printable(f)
  {
    if filters == [] then []
    else (if Printable(filters[0]) then [filters[0]] else []) + Pushed(filters[1..])
  }

  /** The texts of the pushed filters joined with AND. */
  function JoinAnd(filters: seq<Expr>): string
    requires filters != [] && forall f :: f in filters ==> Printable(f)
  {
    assert Printable(filters[0]);
    if |filters| == 1 then ExprToSql(filters[0]).value
    else ExprToSql(filters[0]).value + " AND " + JoinAnd(filters[1..])
  }

  function WhereClause(filters: seq<Expr>): string {
    if Pushed(filters) == [] then "" else " WHERE " + JoinAnd(Pushed(filters))
  }

  function Select(rows: seq<Row>, keep: Row -> bool): seq<Row> {
    if rows == [] then []
    else (if keep(rows[0]) then [rows[0]] else []) + Select(rows[1..], keep)
  }

  predicate KeepsAll(eng: Engine, filters: seq<Expr>, row: Row) {
    forall f :: f in filters ==> Keeps(eng, f, row)
  }

  /** What filtering the whole table locally returns. */
  function LocalRows(eng: Engine, filters: seq<Expr>, rows: seq<Row>): seq<Row> {
    Select(rows, row => KeepsAll(eng, filters, row))
  }

  /** Local filtering keeps exactly the rows for which every filter is true, in order. */
  lemma {:induction false} LocalRowsAre(eng: Engine, filters: seq<Expr>, rows: seq<Row>)
    ensures forall r :: r in LocalRows(eng, filters, rows) <==>
              r in rows && forall f :: f in filters ==> Eval(eng, f, r) == VBool(true)
    ensures forall front, back :: rows == front + back ==>
              LocalRows(eng, filters, rows) == LocalRows(eng, filters, front) + LocalRows(eng, filters, back)
  {
    SelectMembers(rows, row => KeepsAll(eng, filters, row));
    forall front, back | rows == front + back
      ensures LocalRows(eng, filters, rows) == LocalRows(eng, filters, front) + LocalRows(eng, filters, back)
    {
      SelectConcat(front, back, row => KeepsAll(eng, filters, row));
    }
  }

  lemma {:induction false} SelectMembers(rows: seq<Row>, keep: Row -> bool)
    ensures forall r :: r in Select(rows, keep) <==> r in rows && keep(r)
  {
    if rows != [] { SelectMembers(rows[1..], keep); }
  }

  lemma {:induction false} SelectConcat(front: seq<Row>, back: seq<Row>, keep: Row -> bool)
    ensures Select(front + back, keep) == Select(front, keep) + Select(back, keep)
  {
    if front == [] {
      assert front + back == back;
    } else {
      assert (front + back)[1..] == front[1..] + back;
      SelectConcat(front[1..], back, keep);
    }
  }

  /** The remote engine runs the clause on the stored rows; a text it cannot parse fails the query. */
  function RemoteRows(eng: Engine, clause: string, rows: seq<Row>): Option<seq<Row>> {
    if clause == "" then Some(rows)
    else if |clause| < 7 || clause[..7] != " WHERE " then None
    else
      match ParseSql(clause[7..])
      case Some(e) => Some(Select(rows, row => Keeps(eng, e, row)))
      case None => None
  }

  /** The whole scan: the rows the pushed clause lets through, filtered once more by everything. */
  function Scan(eng: Engine, filters: seq<Expr>, rows: seq<Row>): Option<seq<Row>> {
    match RemoteRows(eng, WhereClause(filters), rows)
    case Some(fetched) => Some(LocalRows(eng, filters, fetched))
    case None => None
  }

  // ---------- What the joined text means ----------

  function JoinTokens(filters: seq<Expr>): seq<Token>
    requires filters != [] && forall f :: f in filters ==> Printable(f)
  {
    assert filters[0] in filters;
    if |filters| == 1 then Tokens(filters[0])
    else Tokens(filters[0]) + ([KAnd] + JoinTokens(filters[1..]))
  }

  lemma {:induction false} ReadsJoined(filters: seq<Expr>)
    requires filters != [] && forall f :: f in filters ==> Printable(f) && PlainNames(f)
    ensures ReadsAnywhere(JoinAnd(filters), JoinTokens(filters))
  {
    var first := filters[0];
    assert first in filters;
    ReadsPrinted(first);
    if |filters| > 1 {
      var text, toks := JoinAnd(filters[1..]), JoinTokens(filters[1..]);
      ReadsJoined(filters[1..]);
      forall rest | AtBoundary(rest)
        ensures Reads(JoinAnd(filters), JoinTokens(filters), rest)
      {
        ReadsSpaced(text, toks, " " + text, rest);
        ReadsWord("AND", KAnd, " " + text + rest);
        ReadsThen("AND", [KAnd], " " + text, toks, "AND" + (" " + text), [KAnd] + toks, rest);
        var tail := "AND" + (" " + text);
        ReadsSpaced(tail, [KAnd] + toks, " " + tail, rest);
        assert JoinAnd(filters) == ExprToSql(first).value + (" " + tail);
        ReadsThen(ExprToSql(first).value, Tokens(first), " " + tail, [KAnd] + toks, JoinAnd(filters),
          JoinTokens(filters), rest);
      }
    }
  }

  /** The conjunction of what each text is understood as, starting from `acc`. */
  function Conjoin(acc: Expr, filters: seq<Expr>): Option<Expr>
    decreases filters
  {
    if filters == [] then Some(acc)
    else
      match Understood(filters[0])
      case Some(e) => Conjoin(Binary(acc, And, e), filters[1..])
      case None => None
  }

  function Conjunction(filters: seq<Expr>): Option<Expr>
    requires filters != []
  {
    match Understood(filters[0])
    case Some(e) => Conjoin(e, filters[1..])
    case None => None
  }

  function TailTokens(filters: seq<Expr>): seq<Token>
    requires forall f :: f in filters ==> Printable(f)
  {
    if filters == [] then [] else [KAnd] + JoinTokens(filters)
  }

  /** The tokens after the first filter are read as further conjuncts, or refused. */
  lemma {:induction false} ParseTail(acc: Expr, filters: seq<Expr>)
    requires forall f :: f in filters ==> Printable(f)
    ensures match Conjoin(acc, filters)
            case Some(e) => AndTail(acc, TailTokens(filters)) == Some((e, []))
            case None => Refused(AndTail(acc, TailTokens(filters)))
    decreases filters
  {
    if filters != [] {
      var f := filters[0];
      assert f in filters;
      var rest := TailTokens(filters[1..]);
      assert TailTokens(filters)[1..] == Tokens(f) + rest by {
        if |filters| == 1 { assert filters[1..] == []; }
      }
      ParsePrinted(f);
      assert NegationParsesBefore(Tokens(f), Understood(f), rest);
      var p := ParseNot(Tokens(f) + rest);
      if Understood(f).Some? {
        ParseTail(Binary(acc, And, Understood(f).value), filters[1..]);
      } else if p.Some? {
        assert AndTail(Binary(acc, And, p.value.0), p.value.1) == Some((Binary(acc, And, p.value.0), p.value.1));
      }
    }
  }

  lemma {:induction false} ParseJoined(filters: seq<Expr>)
    requires filters != [] && forall f :: f in filters ==> Printable(f) && PlainNames(f)
    ensures ParseSql(JoinAnd(filters)) == Conjunction(filters)
  {
    var f := filters[0];
    assert f in filters;
    var toks := JoinTokens(filters);
    ReadsJoined(filters);
    assert Reads(JoinAnd(filters), toks, "");
    assert JoinAnd(filters) + "" == JoinAnd(filters) && toks + [] == toks;
    var rest := TailTokens(filters[1..]);
    assert toks == Tokens(f) + rest;
    ParsePrinted(f);
    assert NegationParsesBefore(Tokens(f), Understood(f), rest);
    var p := ParseNot(toks);
    if Understood(f).Some? {
      ParseTail(Understood(f).value, filters[1..]);
    } else if p.Some? {
      assert ParseAnd(toks) == p;
    }
    var a := ParseAnd(toks);
    if a.Some? { assert OrTail(a.value.0, a.value.1) == a; }
  }

  // ---------- Rows ----------

  lemma {:induction false} SelectSame(rows: seq<Row>, f: Row -> bool, g: Row -> bool)
    requires forall r :: f(r) == g(r)
    ensures Select(rows, f) == Select(rows, g)
  {
    if rows != [] { SelectSame(rows[1..], f, g); }
  }

  /** Each text stands for some condition. */
  ghost predicate AllUnderstood(filters: seq<Expr>) {
    forall f :: f in filters ==> Understood(f).Some?
  }

  /** The row satisfies what each of the texts is understood as. */
  ghost predicate UnderstoodKeeps(eng: Engine, filters: seq<Expr>, row: Row) {
    forall f :: f in filters && Understood(f).Some? ==> Keeps(eng, Understood(f).value, row)
  }

  lemma {:induction false} FirstAndRest(eng: Engine, filters: seq<Expr>, row: Row)
    requires filters != []
    ensures AllUnderstood(filters) <==> Understood(filters[0]).Some? && AllUnderstood(filters[1..])
    ensures UnderstoodKeeps(eng, filters, row) <==>
            (Understood(filters[0]).Some? ==> Keeps(eng, Understood(filters[0]).value, row)) &&
            UnderstoodKeeps(eng, filters[1..], row)
  {
    assert filters == [filters[0]] + filters[1..];
  }

  lemma {:induction false} KeepsBoth(eng: Engine, a: Expr, b: Expr, row: Row)
    ensures Keeps(eng, Binary(a, And, b), row) <==> Keeps(eng, a, row) && Keeps(eng, b, row)
  {
  }

  lemma {:induction false} ConjoinKeeps(eng: Engine, acc: Expr, filters: seq<Expr>, row: Row)
    ensures Conjoin(acc, filters).Some? <==> AllUnderstood(filters)
    ensures Conjoin(acc, filters).Some? ==>
              (Keeps(eng, Conjoin(acc, filters).value, row) <==>
                Keeps(eng, acc, row) && UnderstoodKeeps(eng, filters, row))
    decreases filters
  {
    if filters != [] {
      FirstAndRest(eng, filters, row);
      if Understood(filters[0]).Some? {
        KeepsBoth(eng, acc, Understood(filters[0]).value, row);
        ConjoinKeeps(eng, Binary(acc, And, Understood(filters[0]).value), filters[1..], row);
      }
    }
  }

  lemma {:induction false} ConjunctionKeeps(eng: Engine, filters: seq<Expr>, row: Row)
    requires filters != []
    ensures Conjunction(filters).Some? <==> AllUnderstood(filters)
    ensures Conjunction(filters).Some? ==>
              (Keeps(eng, Conjunction(filters).value, row) <==> UnderstoodKeeps(eng, filters, row))
  {
    FirstAndRest(eng, filters, row);
    if Understood(filters[0]).Some? { ConjoinKeeps(eng, Understood(filters[0]).value, filters[1..], row); }
  }

  /** What the remote engine returns when it understands every text. */
  ghost function UnderstoodRows(eng: Engine, filters: seq<Expr>, rows: seq<Row>): seq<Row> {
    if rows == [] then []
    else (if UnderstoodKeeps(eng, filters, rows[0]) then [rows[0]] else []) + UnderstoodRows(eng, filters, rows[1..])
  }

  lemma {:induction false} SelectUnderstood(eng: Engine, filters: seq<Expr>, rows: seq<Row>, keep: Row -> bool)
    requires forall r :: keep(r) <==> UnderstoodKeeps(eng, filters, r)
    ensures Select(rows, keep) == UnderstoodRows(eng, filters, rows)
  {
    if rows != [] { SelectUnderstood(eng, filters, rows[1..], keep); }
  }

  ghost predicate PlainlyNamed(filters: seq<Expr>) {
    forall f :: f in Pushed(filters) ==> PlainNames(f)
  }

  /** The remote engine refuses the clause exactly when it does not understand some pushed filter;
      otherwise it keeps exactly the rows that satisfy what it understands. */
  lemma {:induction false} RemoteKeepsUnderstood(eng: Engine, filters: seq<Expr>, rows: seq<Row>)
    requires PlainlyNamed(filters)
    ensures RemoteRows(eng, WhereClause(filters), rows) ==
            if AllUnderstood(Pushed(filters)) then Some(UnderstoodRows(eng, Pushed(filters), rows)) else None
  {
    var pushed := Pushed(filters);
    if pushed == [] {
      SelectAll(rows, row => true);
      SelectUnderstood(eng, pushed, rows, row => true);
    } else {
      ParseJoined(pushed);
      var clause := WhereClause(filters);
      assert clause[..7] == " WHERE " && clause[7..] == JoinAnd(pushed);
      ConjunctionKeeps(eng, pushed, map[]);
      if AllUnderstood(pushed) {
        var e := Conjunction(pushed).value;
        forall row ensures Keeps(eng, e, row) <==> UnderstoodKeeps(eng, pushed, row) {
          ConjunctionKeeps(eng, pushed, row);
        }
        SelectUnderstood(eng, pushed, rows, row => Keeps(eng, e, row));
      }
    }
  }

  lemma {:induction false} SelectAll(rows: seq<Row>, keep: Row -> bool)
    requires forall r :: keep(r)
    ensures Select(rows, keep) == rows
  {
    if rows != [] { SelectAll(rows[1..], keep); }
  }

  // ---------- When the scan is right ----------

  /** The rows of the table that pass all filters are all kept by what the remote engine understands. */
  ghost predicate NothingWithheld(eng: Engine, filters: seq<Expr>, rows: seq<Row>) {
    forall row :: row in rows && KeepsAll(eng, filters, row) ==> UnderstoodKeeps(eng, Pushed(filters), row)
  }

  lemma {:induction false} Refiltered(eng: Engine, filters: seq<Expr>, rows: seq<Row>)
    ensures var kept := LocalRows(eng, filters, UnderstoodRows(eng, Pushed(filters), rows));
      && |kept| <= |LocalRows(eng, filters, rows)|
      && (kept == LocalRows(eng, filters, rows) <==> NothingWithheld(eng, filters, rows))
  {
    if rows != [] {
      Refiltered(eng, filters, rows[1..]);
      LocalFirst(eng, filters, rows);
      WithheldFirst(eng, filters, rows);
      FetchedFirst(eng, filters, rows);
      OneRowMore(rows[0], UnderstoodKeeps(eng, Pushed(filters), rows[0]), KeepsAll(eng, filters, rows[0]),
                 LocalRows(eng, filters, UnderstoodRows(eng, Pushed(filters), rows[1..])),
                 LocalRows(eng, filters, rows[1..]), NothingWithheld(eng, filters, rows[1..]));
    }
  }

  lemma {:induction false} OneRowMore(row: Row, fetched: bool, passes: bool, kept: seq<Row>, all: seq<Row>,
                                      nothing: bool)
    requires |kept| <= |all| && (kept == all <==> nothing)
    ensures var kept' := (if fetched && passes then [row] else []) + kept;
            var all' := (if passes then [row] else []) + all;
            |kept'| <= |all'| && (kept' == all' <==> (passes ==> fetched) && nothing)
  {
    assert ([row] + kept)[1..] == kept && ([row] + all)[1..] == all && [] + kept == kept && [] + all == all;
  }

  lemma {:induction false} FetchedFirst(eng: Engine, filters: seq<Expr>, rows: seq<Row>)
    requires rows != []
    ensures LocalRows(eng, filters, UnderstoodRows(eng, Pushed(filters), rows))
         == (if UnderstoodKeeps(eng, Pushed(filters), rows[0]) && KeepsAll(eng, filters, rows[0]) then [rows[0]]
             else [])
          + LocalRows(eng, filters, UnderstoodRows(eng, Pushed(filters), rows[1..]))
  {
    var first, fetched := rows[0], UnderstoodRows(eng, Pushed(filters), rows[1..]);
    if UnderstoodKeeps(eng, Pushed(filters), first) {
      assert ([first] + fetched)[1..] == fetched;
      LocalFirst(eng, filters, [first] + fetched);
    } else {
      assert [] + fetched == fetched;
    }
  }

  lemma {:induction false} LocalFirst(eng: Engine, filters: seq<Expr>, rows: seq<Row>)
    requires rows != []
    ensures LocalRows(eng, filters, rows)
         == (if KeepsAll(eng, filters, rows[0]) then [rows[0]] else []) + LocalRows(eng, filters, rows[1..])
  {
    SelectSame(rows[1..], row => KeepsAll(eng, filters, row), row => KeepsAll(eng, filters, row));
  }

  lemma {:induction false} WithheldFirst(eng: Engine, filters: seq<Expr>, rows: seq<Row>)
    requires rows != []
    ensures NothingWithheld(eng, filters, rows) <==>
            (KeepsAll(eng, filters, rows[0]) ==> UnderstoodKeeps(eng, Pushed(filters), rows[0])) &&
            NothingWithheld(eng, filters, rows[1..])
  {
    assert rows == [rows[0]] + rows[1..];
  }

  /** The exact fate of a scan whose column names hold no double quote: it is refused exactly when
      some pushed filter is not understood as anything; otherwise it returns what local filtering of
      the whole table returns exactly when no row that passes all filters is withheld. */
  lemma {:induction false} ScanExactly(eng: Engine, filters: seq<Expr>, rows: seq<Row>)
    requires PlainlyNamed(filters)
    ensures Scan(eng, filters, rows).None? <==> exists f :: f in Pushed(filters) && Understood(f).None?
    ensures Scan(eng, filters, rows).Some? ==>
              (Scan(eng, filters, rows).value == LocalRows(eng, filters, rows) <==> NothingWithheld(eng, filters, rows))
  {
    RemoteKeepsUnderstood(eng, filters, rows);
    Refiltered(eng, filters, rows);
  }

  predicate Faithful(f: Expr) {
    WellNested(f) && PlainNames(f)
  }

  lemma {:induction false} FaithfulUnderstood(filters: seq<Expr>)
    requires forall f :: f in filters && Printable(f) ==> Faithful(f)
    ensures forall f :: f in Pushed(filters) ==> PlainNames(f) && Understood(f) == Some(f)
  {
    forall f | f in Pushed(filters) ensures PlainNames(f) && Understood(f) == Some(f) {
      assert Faithful(f);
      UnderstoodIffWellNested(f);
    }
  }

  /** Of well-nested filters, the remote engine keeps exactly the rows that satisfy every pushed one. */
  lemma {:induction false} RemoteKeepsPushed(eng: Engine, filters: seq<Expr>, rows: seq<Row>)
    requires forall f :: f in filters && Printable(f) ==> Faithful(f)
    ensures RemoteRows(eng, WhereClause(filters), rows) == Some(LocalRows(eng, Pushed(filters), rows))
  {
    FaithfulUnderstood(filters);
    RemoteKeepsUnderstood(eng, filters, rows);
    SelectUnderstood(eng, Pushed(filters), rows, row => KeepsAll(eng, Pushed(filters), row));
  }

  /** Pushing well-nested filters never changes the result: whatever mix of pushable and unpushable
      filters, the scan returns exactly the rows that local filtering of the whole table returns. */
  lemma {:induction false} PushdownPreservesMeaning(eng: Engine, filters: seq<Expr>, rows: seq<Row>)
    requires forall f :: f in filters && Printable(f) ==> Faithful(f)
    ensures Scan(eng, filters, rows) == Some(LocalRows(eng, filters, rows))
  {
    FaithfulUnderstood(filters);
    ScanExactly(eng, filters, rows);
    assert NothingWithheld(eng, filters, rows);
  }

  lemma {:induction false} OneFilter(f: Expr)
    requires Printable(f)
    ensures Pushed([f]) == [f]
  {
    assert [f][1..] == [] && Pushed([]) == [];
  }

  /** An instance where rows are lost: `(NOT c) IS NULL` is understood as `NOT (c IS NULL)`, so a row
      where `c` is null passes the filter and is withheld. */
  lemma {:induction false} NegationUnderNullTestLosesRows(eng: Engine, name: string)
    requires '"' !in name
    ensures var f := IsNull(Not(Column(name)));
      && Understood(f) == Some(Not(IsNull(Column(name)))) && !NothingWithheld(eng, [f], [map[]])
      && Scan(eng, [f], [map[]]) == Some([]) && LocalRows(eng, [f], [map[]]) == [map[]]
  {
    var c := Column(name);
    var n, f := Not(c), IsNull(Not(c));
    var row: Row := map[];
    assert Printable(c) && Printable(n) && Printable(f) && PlainNames(n);
    OneFilter(f);
    assert SpineOf(c) == Spine(0, c, []) && SpineOf(n) == Spine(1, c, []) && SpineOf(f) == Spine(1, c, [] + [true]);
    assert NotTimes(1, IsNull(c)) == Not(NotTimes(0, IsNull(c)));
    assert Eval(eng, c, row) == VNull && Eval(eng, n, row) == VNull && Eval(eng, IsNull(c), row) == VBool(true);
    assert !Keeps(eng, Not(IsNull(c)), row) && Keeps(eng, f, row);
    assert f in [f] && [row][1..] == [] && row in [row];
    RemoteKeepsUnderstood(eng, [f], [row]);
  }

  /** And one where none is: `FALSE AND (NOT c) IS NULL` is not well nested either, but nothing that
      passes it can be withheld, because nothing passes it. */
  lemma {:induction false} MisnestedButHarmless(eng: Engine, name: string, rows: seq<Row>)
    requires '"' !in name
    ensures var f := Binary(Literal(Boolean(false)), And, IsNull(Not(Column(name))));
      !WellNested(f) && Scan(eng, [f], rows) == Some(LocalRows(eng, [f], rows))
  {
    var no, c := Literal(Boolean(false)), Column(name);
    var n, t := Not(c), IsNull(Not(c));
    var f := Binary(no, And, t);
    assert Printable(no) && Printable(c) && Printable(n) && Printable(t) && Printable(f);
    assert PlainNames(c) && PlainNames(no);
    assert PlainNames(n);
    assert PlainNames(t);
    assert PlainNames(f);
    OneFilter(f);
    assert SpineOf(c) == Spine(0, c, []) && SpineOf(n) == Spine(1, c, []) && SpineOf(t) == Spine(1, c, [] + [true]);
    assert SpineOf(no) == Spine(0, no, []) && SpineOf(f) == Spine(0, f, []);
    assert Understood(t).Some? && Understood(no).Some?;
    assert Understood(f).Some?;
    forall row | row in rows ensures !KeepsAll(eng, [f], row) {
      assert f in [f] && Eval(eng, no, row) == VBool(false);
    }
    ScanExactly(eng, [f], rows);
    assert NothingWithheld(eng, [f], rows);
  }
}
