/** Column names with a double quote never survive: reading conserves quote characters, and a name
    that is printed unescaped has too few of them. */
module SqlQuoting {
  import opened FilterExpr
  import opened Sequences
  import opened SqlGrammar
  import opened SqlRoundTrip

  /** How many double quotes a text has. */
  function Quotes(s: string): nat {
    if s == "" then 0 else (if s[0] == '"' then 1 else 0) + Quotes(s[1..])
  }

  lemma {:induction false} QuotesConcat(a: string, b: string)
    ensures Quotes(a + b) == Quotes(a) + Quotes(b)
  {
    if a == "" {
      assert a + b == b;
    } else {
      QuotesConcat(a[1..], b);
      assert (a + b)[1..] == a[1..] + b;
    }
  }

  lemma {:induction false} NoQuotes(s: string)
    ensures Quotes(s) == 0 <==> '"' !in s
  {
    if s != "" {
      NoQuotes(s[1..]);
      assert s == [s[0]] + s[1..];
    }
  }

  /** How many quotes of the text a token accounts for: two around a name, two per quote in it. */
  function TokenQuotes(t: Token): nat {
    match t
    case Ident(name) => 2 + 2 * Quotes(name)
    case Text(s) => Quotes(s)
    case _ => 0
  }

  function AllQuotes(toks: seq<Token>): nat {
    if toks == [] then 0 else TokenQuotes(toks[0]) + AllQuotes(toks[1..])
  }

  lemma {:induction false} QuotedConserves(q: char, s: string)
    requires q in {'"', '\''}
    ensures var r := ReadQuoted(q, s);
            r.Some? ==>
              Quotes(s) == Quotes(r.value.1) + (if q == '"' then 1 + 2 * Quotes(r.value.0) else Quotes(r.value.0))
    decreases |s|
  {
    if s != "" {
      if s[0] != q {
        QuotedConserves(q, s[1..]);
        var r := ReadQuoted(q, s[1..]);
        if r.Some? { QuotesConcat([s[0]], r.value.0); }
      } else if |s| > 1 && s[1] == q {
        QuotedConserves(q, s[2..]);
        var r := ReadQuoted(q, s[2..]);
        if r.Some? { QuotesConcat([q], r.value.0); }
        assert s[1..][1..] == s[2..];
        assert Quotes(s) == Quotes(s[2..]) + if q == '"' then 2 else 0;
      }
    }
  }

  lemma {:induction false} DigitsConserve(acc: nat, s: string)
    ensures Quotes(ReadDigits(acc, s).1) == Quotes(s)
    decreases s
  {
    if s != "" && IsDigit(s[0]) { DigitsConserve(10 * acc + (s[0] as int - '0' as int), s[1..]); }
  }

  lemma {:induction false} WordConserves(s: string)
    ensures Quotes(ReadWord(s).1) == Quotes(s)
  {
    if s != "" && IsLetter(s[0]) { WordConserves(s[1..]); }
  }

  lemma {:induction false} SymbolConserves(s: string)
    requires s != ""
    ensures var r := Symbol(s); r.Some? ==> TokenQuotes(r.value.0) == 0 && Quotes(s) == Quotes(r.value.1)
  {
    if |s| > 1 { assert s[1..][1..] == s[2..]; }
  }

  lemma {:induction false} TokenConserves(s: string)
    requires s != ""
    ensures var r := NextToken(s); r.Some? ==> Quotes(s) == TokenQuotes(r.value.0) + Quotes(r.value.1)
  {
    if s[0] == '"' {
      QuotedConserves('"', s[1..]);
    } else if s[0] == '\'' {
      QuotedConserves('\'', s[1..]);
    } else if IsDigit(s[0]) {
      DigitsConserve(s[0] as int - '0' as int, s[1..]);
    } else if IsLetter(s[0]) {
      WordConserves(s);
    } else {
      SymbolConserves(s);
    }
  }

  lemma {:induction false} LexConserves(s: string)
    ensures Lex(s).Some? ==> AllQuotes(Lex(s).value) == Quotes(s)
    decreases |s|
  {
    if s != "" {
      if s[0] == ' ' {
        LexConserves(s[1..]);
      } else {
        TokenConserves(s);
        var r := NextToken(s);
        if r.Some? {
          LexConserves(r.value.1);
          if Lex(r.value.1).Some? { assert ([r.value.0] + Lex(r.value.1).value)[1..] == Lex(r.value.1).value; }
        }
      }
    }
  }

  /** The quotes a filter would need if its names were escaped, and those its text has. */
  function NeededQuotes(e: Expr): nat {
    match e
    case Column(name) => 2 + 2 * Quotes(name)
    case Literal(Utf8(s)) => Quotes(s)
    case Literal(_) => 0
    case Binary(l, _, r) => NeededQuotes(l) + NeededQuotes(r)
    case Not(x) => NeededQuotes(x)
    case IsNull(x) => NeededQuotes(x)
    case IsNotNull(x) => NeededQuotes(x)
    case OtherExpr(_) => 0
  }

  ghost predicate Conserved(toks: seq<Token>, r: Parsed) {
    r.Some? ==> AllQuotes(toks) == NeededQuotes(r.value.0) + AllQuotes(r.value.1)
  }

  lemma {:induction false} PrimaryConserves(toks: seq<Token>)
    ensures Conserved(toks, ParsePrimary(toks))
    decreases |toks|, 0
  {
    if toks != [] && toks[0] == LParen { OrConserves(toks[1..]); }
    if |toks| > 1 { assert toks[1..][1..] == toks[2..]; }
  }

  lemma {:induction false} PredicateConserves(toks: seq<Token>)
    ensures Conserved(toks, ParsePredicate(toks))
    decreases |toks|, 1
  {
    PrimaryConserves(toks);
    var p := ParsePrimary(toks);
    if p.Some? && p.value.1 != [] {
      var rest := p.value.1;
      if rest[0].Cmp? {
        PrimaryConserves(rest[1..]);
      } else if |rest| >= 2 && rest[0] == KIs && rest[1] == KNull {
        QuoteFree(rest, 2);
      } else if |rest| >= 3 && rest[0] == KIs && rest[1] == KNot && rest[2] == KNull {
        QuoteFree(rest, 3);
      }
    }
  }

  lemma {:induction false} QuoteFree(toks: seq<Token>, n: nat)
    requires n <= |toks| && forall i :: 0 <= i < n ==> TokenQuotes(toks[i]) == 0
    ensures AllQuotes(toks) == AllQuotes(toks[n..])
  {
    if n > 0 {
      QuoteFree(toks, n - 1);
      assert toks[n - 1..][1..] == toks[n..];
    }
  }

  lemma {:induction false} NotConserves(toks: seq<Token>)
    ensures Conserved(toks, ParseNot(toks))
    decreases |toks|, 2
  {
    if toks != [] && toks[0] == KNot { NotConserves(toks[1..]); } else { PredicateConserves(toks); }
  }

  lemma {:induction false} AndTailConserves(e: Expr, toks: seq<Token>)
    ensures var r := AndTail(e, toks);
            r.Some? ==> NeededQuotes(e) + AllQuotes(toks) == NeededQuotes(r.value.0) + AllQuotes(r.value.1)
    decreases |toks|, 3
  {
    if toks != [] && toks[0] == KAnd {
      NotConserves(toks[1..]);
      var p := ParseNot(toks[1..]);
      if p.Some? { AndTailConserves(Binary(e, And, p.value.0), p.value.1); }
    }
  }

  lemma {:induction false} AndConserves(toks: seq<Token>)
    ensures Conserved(toks, ParseAnd(toks))
    decreases |toks|, 4
  {
    NotConserves(toks);
    var p := ParseNot(toks);
    if p.Some? { AndTailConserves(p.value.0, p.value.1); }
  }

  lemma {:induction false} OrTailConserves(e: Expr, toks: seq<Token>)
    ensures var r := OrTail(e, toks);
            r.Some? ==> NeededQuotes(e) + AllQuotes(toks) == NeededQuotes(r.value.0) + AllQuotes(r.value.1)
    decreases |toks|, 5
  {
    if toks != [] && toks[0] == KOr {
      AndConserves(toks[1..]);
      var p := ParseAnd(toks[1..]);
      if p.Some? { OrTailConserves(Binary(e, Or, p.value.0), p.value.1); }
    }
  }

  lemma {:induction false} OrConserves(toks: seq<Token>)
    ensures Conserved(toks, ParseOr(toks))
    decreases |toks|, 6
  {
    AndConserves(toks);
    var p := ParseAnd(toks);
    if p.Some? { OrTailConserves(p.value.0, p.value.1); }
  }

  lemma {:induction false} EscapeKeepsQuotes(s: string)
    ensures Quotes(Escape('\'', s)) == Quotes(s)
  {
    if s != "" {
      EscapeKeepsQuotes(s[1..]);
      var c := if s[0] == '\'' then "''" else [s[0]];
      QuotesConcat(c, Escape('\'', s[1..]));
      assert Quotes(c) == if s[0] == '"' then 1 else 0 by { if s[0] == '\'' { assert c[1..] == "'"; } }
    }
  }

  lemma {:induction false} NatHasNoQuotes(n: nat)
    ensures Quotes(NatText(n)) == 0
  {
    if n >= 10 {
      NatHasNoQuotes(n / 10);
      QuotesConcat(NatText(n / 10), [DigitChar(n % 10)]);
    }
  }

  lemma {:induction false} ScalarTextQuotes(s: Scalar)
    requires ScalarText(s).Some?
    ensures Quotes(ScalarText(s).value) == NeededQuotes(Literal(s))
  {
    match s
    case Utf8(text) =>
      EscapeKeepsQuotes(text);
      QuotesConcat("'", Escape('\'', text));
      QuotesConcat("'" + Escape('\'', text), "'");
    case Int(n) =>
      NatHasNoQuotes(if n < 0 then -n else n);
      if n < 0 { QuotesConcat("-", NatText(-n)); }
    case Boolean(b) => NoQuotes(ScalarText(s).value);
    case Null => NoQuotes("NULL");
  }

  lemma {:induction false} BinaryTextQuotes(left: string, o: string, right: string)
    ensures Quotes("(" + left + " " + o + " " + right + ")") == Quotes(left) + Quotes(o) + Quotes(right)
  {
    QuotesConcat("(", left);
    QuotesConcat("(" + left, " ");
    QuotesConcat("(" + left + " ", o);
    QuotesConcat("(" + left + " " + o, " ");
    QuotesConcat("(" + left + " " + o + " ", right);
    QuotesConcat("(" + left + " " + o + " " + right, ")");
  }

  /** Printing never produces more quotes than needed, and fewer if some name contains one. */
  predicate QuotesBounded(e: Expr)
    requires Printable(e)
  {
    var printed := Quotes(ExprToSql(e).value);
    printed <= NeededQuotes(e) && (printed == NeededQuotes(e) ==> PlainNames(e))
  }

  lemma {:induction false} ColumnQuotes(name: string)
    ensures QuotesBounded(Column(name))
  {
    QuotesConcat("\"", name);
    QuotesConcat("\"" + name, "\"");
    NoQuotes(name);
  }

  lemma {:induction false} BinaryQuotes(l: Expr, op: Operator, r: Expr)
    requires Printable(Binary(l, op, r)) && QuotesBounded(l) && QuotesBounded(r)
    ensures QuotesBounded(Binary(l, op, r))
  {
    BinaryTextQuotes(ExprToSql(l).value, OperatorText(op).value, ExprToSql(r).value);
    NoQuotes(OperatorText(op).value);
  }

  lemma {:induction false} NotQuotes(x: Expr)
    requires Printable(x) && QuotesBounded(x)
    ensures QuotesBounded(Not(x))
  {
    NoQuotes("NOT ");
    QuotesConcat("NOT ", ExprToSql(x).value);
  }

  lemma {:induction false} IsNullQuotes(x: Expr)
    requires Printable(x) && QuotesBounded(x)
    ensures QuotesBounded(IsNull(x))
  {
    NoQuotes(" IS NULL");
    QuotesConcat(ExprToSql(x).value, " IS NULL");
  }

  lemma {:induction false} NoQuotesInTest()
    ensures Quotes(" IS NOT NULL") == 0
  {
    NoQuotes(" IS NOT NULL");
  }

  lemma {:induction false} IsNotNullQuotes(x: Expr)
    requires Printable(x) && QuotesBounded(x)
    ensures QuotesBounded(IsNotNull(x))
  {
    NoQuotesInTest();
    QuotesConcat(ExprToSql(x).value, " IS NOT NULL");
  }

  lemma {:induction false} PrintedQuotes(e: Expr)
    requires Printable(e)
    ensures QuotesBounded(e)
  {
    match e
    case Column(name) => ColumnQuotes(name);
    case Literal(s) => ScalarTextQuotes(s);
    case Binary(l, op, r) =>
      PrintedQuotes(l);
      PrintedQuotes(r);
      BinaryQuotes(l, op, r);
    case Not(x) => PrintedQuotes(x); NotQuotes(x);
    case IsNull(x) => PrintedQuotes(x); IsNullQuotes(x);
    case IsNotNull(x) => PrintedQuotes(x); IsNotNullQuotes(x);
  }

  /** The exact condition: reading the printed text gives the filter back if and only if it is well
      nested and none of its column names contains a double quote. */
  lemma {:induction false} RoundTripIff(e: Expr)
    requires Printable(e)
    ensures ParseSql(ExprToSql(e).value) == Some(e) <==> WellNested(e) && PlainNames(e)
  {
    if PlainNames(e) {
      TextUnderstood(e);
      UnderstoodIffWellNested(e);
    }
    if ParseSql(ExprToSql(e).value) == Some(e) {
      LexConserves(ExprToSql(e).value);
      OrConserves(Lex(ExprToSql(e).value).value);
      PrintedQuotes(e);
    }
  }
}
