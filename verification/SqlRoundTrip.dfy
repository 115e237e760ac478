/** Which filters survive being printed as SQL text and read back: exactly the well-nested ones
    whose column names need no escaping. */
module SqlRoundTrip {
  import opened FilterExpr
  import opened Sequences
  import opened SqlGrammar

  // ---------- The filters that survive ----------

  predicate Operand(e: Expr) {
    e.Column? || e.Literal? || e.Binary?
  }

  predicate Comparison(op: Operator) {
    op !in {And, Or} && !op.OtherOp?
  }

  /** NOT and IS [NOT] NULL never stand directly under a comparison or IS [NOT] NULL. */
  predicate WellNested(e: Expr) {
    match e
    case Column(_) => true
    case Literal(_) => true
    case Binary(l, op, r) => WellNested(l) && WellNested(r) && (Comparison(op) ==> Operand(l) && Operand(r))
    case Not(x) => WellNested(x)
    case IsNull(x) => WellNested(x) && Operand(x)
    case IsNotNull(x) => WellNested(x) && Operand(x)
    case OtherExpr(_) => true
  }

  /** No column name contains a double quote. */
  predicate PlainNames(e: Expr) {
    match e
    case Column(name) => '"' !in name
    case Literal(_) => true
    case Binary(l, _, r) => PlainNames(l) && PlainNames(r)
    case Not(x) => PlainNames(x)
    case IsNull(x) => PlainNames(x)
    case IsNotNull(x) => PlainNames(x)
    case OtherExpr(_) => true
  }

  // ---------- Tokens of a printed filter ----------

  function OperatorToken(op: Operator): Token
    requires !op.OtherOp?
  {
    match op
    case And => KAnd
    case Or => KOr
    case _ => Cmp(op)
  }

  function Tokens(e: Expr): seq<Token>
    requires Printable(e)
  {
    match e
    case Column(name) => [Ident(name)]
    case Literal(Utf8(s)) => [Text(s)]
    case Literal(Int(n)) => if n < 0 then [Minus, Num(-n)] else [Num(n)]
    case Literal(Boolean(b)) => [if b then KTrue else KFalse]
    case Literal(Null) => [KNull]
    case Binary(l, op, r) => [LParen] + Tokens(l) + [OperatorToken(op)] + Tokens(r) + [RParen]
    case Not(x) => [KNot] + Tokens(x)
    case IsNull(x) => Tokens(x) + [KIs, KNull]
    case IsNotNull(x) => Tokens(x) + [KIs, KNot, KNull]
  }

  /** A printed filter is followed by the end of the text, a space or a closing parenthesis. */
  predicate AtBoundary(rest: string) {
    rest == "" || rest[0] == ' ' || rest[0] == ')'
  }

  lemma {:induction false} ReadEscaped(q: char, s: string, rest: string)
    requires rest == "" || rest[0] != q
    ensures ReadQuoted(q, Escape(q, s) + [q] + rest) == Some((s, rest))
  {
    var text := Escape(q, s) + [q] + rest;
    if s == "" {
      assert text == [q] + rest;
    } else {
      var inner := Escape(q, s[1..]) + [q] + rest;
      ReadEscaped(q, s[1..], rest);
      if s[0] == q {
        assert text == [q, q] + inner && text[2..] == inner;
        assert [q] + s[1..] == s;
      } else {
        assert text == [s[0]] + inner && text[1..] == inner;
        assert [s[0]] + s[1..] == s;
      }
    }
  }

  lemma {:induction false} PlainEscape(q: char, s: string)
    requires q !in s
    ensures Escape(q, s) == s
  {
    if s != "" { PlainEscape(q, s[1..]); }
  }

  lemma {:induction false} ReadNat(n: nat, rest: string)
    ensures ReadDigits(0, NatText(n) + rest) == ReadDigits(n, rest)
    ensures IsDigit(NatText(n)[0])
  {
    var d := DigitChar(n % 10);
    assert ReadDigits(n / 10, [d] + rest) == ReadDigits(n, rest) by { assert ([d] + rest)[1..] == rest; }
    if n >= 10 {
      ReadNat(n / 10, [d] + rest);
      assert NatText(n) + rest == NatText(n / 10) + ([d] + rest);
    } else {
      assert NatText(n) + rest == [d] + rest;
    }
  }

  lemma {:induction false} ReadKeyword(word: string, rest: string)
    requires forall c :: c in word ==> IsLetter(c)
    requires rest == "" || !IsLetter(rest[0])
    ensures ReadWord(word + rest) == (word, rest)
  {
    if word == "" {
      assert word + rest == rest;
    } else {
      ReadKeyword(word[1..], rest);
      assert (word + rest)[1..] == word[1..] + rest;
      assert [word[0]] + word[1..] == word;
      assert word[0] in word;
    }
  }

  /** In front of `rest`, `text` is read as the tokens `toks`. */
  ghost predicate Reads(text: string, toks: seq<Token>, rest: string) {
    Lex(text + rest) == Prepend(toks, Lex(rest))
  }

  /** Two readings in a row; the whole text and its tokens are given by the caller. */
  lemma {:induction false} ReadsThen(a: string, ta: seq<Token>, b: string, tb: seq<Token>, whole: string,
                                     toks: seq<Token>, rest: string)
    requires Reads(a, ta, b + rest) && Reads(b, tb, rest)
    requires whole == a + b && toks == ta + tb
    ensures Reads(whole, toks, rest)
  {
    assert a + b + rest == a + (b + rest);
    var tail := Lex(rest);
    if tail.Some? { assert ta + (tb + tail.value) == ta + tb + tail.value; }
  }

  lemma {:induction false} ReadsQuoted(q: char, s: string, rest: string)
    requires q in {'"', '\''} && AtBoundary(rest)
    ensures Reads([q] + Escape(q, s) + [q], [if q == '"' then Ident(s) else Text(s)], rest)
  {
    var text := [q] + Escape(q, s) + [q] + rest;
    ReadEscaped(q, s, rest);
    assert text[1..] == Escape(q, s) + [q] + rest;
  }

  lemma {:induction false} ReadsNat(n: nat, rest: string)
    requires AtBoundary(rest)
    ensures Reads(NatText(n), [Num(n)], rest)
  {
    ReadNat(n, rest);
    var text := NatText(n) + rest;
    assert ReadDigits(0, text) == ReadDigits(text[0] as int - '0' as int, text[1..]);
  }

  lemma {:induction false} ReadsWord(word: string, t: Token, rest: string)
    requires word != "" && (forall c :: c in word ==> IsLetter(c)) && Keyword(word) == Some(t)
    requires AtBoundary(rest)
    ensures Reads(word, [t], rest)
  {
    ReadKeyword(word, rest);
    assert (word + rest)[0] in word;
  }

  lemma {:induction false} ReadsSpace(rest: string)
    ensures Reads(" ", [], rest)
  {
    assert (" " + rest)[1..] == rest;
    if Lex(rest).Some? { assert [] + Lex(rest).value == Lex(rest).value; }
  }

  /** A space in front changes nothing. */
  lemma {:induction false} ReadsSpaced(text: string, toks: seq<Token>, whole: string, rest: string)
    requires Reads(text, toks, rest) && whole == " " + text
    ensures Reads(whole, toks, rest)
  {
    ReadsSpace(text + rest);
    ReadsThen(" ", [], text, toks, whole, toks, rest);
  }

  lemma {:induction false} ReadsSymbol(text: string, t: Token, rest: string)
    requires text in {"(", ")", "-", "=", "!=", "<", "<=", ">", ">="}
    requires Symbol(text) == Some((t, ""))
    requires text in {"<", ">"} ==> rest == "" || rest[0] != '='
    ensures Reads(text, [t], rest)
  {
    assert (text + rest)[|text|..] == rest;
    assert Symbol(text + rest) == Some((t, rest));
  }

  lemma {:induction false} ReadsOperator(op: Operator, rest: string)
    requires !op.OtherOp? && AtBoundary(rest)
    ensures Reads(OperatorText(op).value, [OperatorToken(op)], rest)
  {
    var o := OperatorText(op).value;
    if op == And || op == Or {
      ReadsWord(o, OperatorToken(op), rest);
    } else {
      assert o[|o|..] == "";
      ReadsSymbol(o, OperatorToken(op), rest);
    }
  }

  lemma {:induction false} ReadsInt(n: int, rest: string)
    requires AtBoundary(rest)
    ensures Reads(ScalarText(Int(n)).value, Tokens(Literal(Int(n))), rest)
  {
    if n < 0 {
      ReadsNat(-n, rest);
      ReadsNegated(NatText(-n), [Num(-n)], rest);
      assert [Minus] + [Num(-n)] == [Minus, Num(-n)];
    } else {
      ReadsNat(n, rest);
    }
  }

  lemma {:induction false} ReadsNegated(s: string, toks: seq<Token>, rest: string)
    requires Reads(s, toks, rest)
    ensures Reads("-" + s, [Minus] + toks, rest)
  {
    assert "-"[1..] == "";
    ReadsSymbol("-", Minus, s + rest);
    ReadsThen("-", [Minus], s, toks, "-" + s, [Minus] + toks, rest);
  }

  lemma {:induction false} ReadsScalar(s: Scalar, rest: string)
    requires ScalarText(s).Some? && AtBoundary(rest)
    ensures Reads(ScalarText(s).value, Tokens(Literal(s)), rest)
  {
    match s
    case Utf8(text) =>
      assert ScalarText(s).value == ['\''] + Escape('\'', text) + ['\''];
      ReadsQuoted('\'', text, rest);
    case Int(n) => ReadsInt(n, rest);
    case Boolean(b) => ReadsWord(ScalarText(s).value, if b then KTrue else KFalse, rest);
    case Null => ReadsWord("NULL", KNull, rest);
  }

  lemma {:induction false} ReadsIsNull(rest: string)
    requires AtBoundary(rest)
    ensures Reads(" IS NULL", [KIs, KNull], rest)
  {
    ReadsWord("NULL", KNull, rest);
    ReadsSpaced("NULL", [KNull], " NULL", rest);
    ReadsWord("IS", KIs, " NULL" + rest);
    ReadsSpaced("IS", [KIs], " IS", " NULL" + rest);
    ReadsThen(" IS", [KIs], " NULL", [KNull], " IS NULL", [KIs, KNull], rest);
  }

  lemma {:induction false} ReadsNotNull(rest: string)
    requires AtBoundary(rest)
    ensures Reads(" NOT NULL", [KNot, KNull], rest)
  {
    ReadsWord("NULL", KNull, rest);
    ReadsSpaced("NULL", [KNull], " NULL", rest);
    ReadsWord("NOT", KNot, " NULL" + rest);
    ReadsSpaced("NOT", [KNot], " NOT", " NULL" + rest);
    ReadsThen(" NOT", [KNot], " NULL", [KNull], " NOT NULL", [KNot, KNull], rest);
  }

  lemma {:induction false} ReadsIsNotNull(rest: string)
    requires AtBoundary(rest)
    ensures Reads(" IS NOT NULL", [KIs, KNot, KNull], rest)
  {
    ReadsNotNull(rest);
    ReadsWord("IS", KIs, " NOT NULL" + rest);
    ReadsSpaced("IS", [KIs], " IS", " NOT NULL" + rest);
    ReadsThen(" IS", [KIs], " NOT NULL", [KNot, KNull], " IS NOT NULL", [KIs, KNot, KNull], rest);
  }

  ghost predicate ReadsAnywhere(text: string, toks: seq<Token>) {
    forall rest :: AtBoundary(rest) ==> Reads(text, toks, rest)
  }

  /** Reading the text of a filter gives exactly its tokens, whatever follows. */
  lemma {:induction false} ReadsPrinted(e: Expr)
    requires Printable(e) && PlainNames(e)
    ensures ReadsAnywhere(ExprToSql(e).value, Tokens(e))
  {
    forall rest | AtBoundary(rest)
      ensures Reads(ExprToSql(e).value, Tokens(e), rest)
    {
      match e
      case Column(name) => ReadsColumn(name, rest);
      case Literal(s) => ReadsScalar(s, rest);
      case Binary(l, op, r) =>
        ReadsPrinted(l);
        ReadsPrinted(r);
        ReadsBinary(ExprToSql(l).value, Tokens(l), op, ExprToSql(r).value, Tokens(r), rest);
      case Not(x) => ReadsPrinted(x); ReadsNot(x, rest);
      case IsNull(x) => ReadsPrinted(x); ReadsNullTest(x, rest);
      case IsNotNull(x) => ReadsPrinted(x); ReadsNotNullTest(x, rest);
    }
  }

  lemma {:induction false} ReadsColumn(name: string, rest: string)
    requires PlainNames(Column(name)) && AtBoundary(rest)
    ensures Reads(ExprToSql(Column(name)).value, Tokens(Column(name)), rest)
  {
    PlainEscape('"', name);
    assert ExprToSql(Column(name)).value == ['"'] + Escape('"', name) + ['"'];
    ReadsQuoted('"', name, rest);
  }

  lemma {:induction false} ReadsNot(x: Expr, rest: string)
    requires Printable(x) && ReadsAnywhere(ExprToSql(x).value, Tokens(x)) && AtBoundary(rest)
    ensures Reads(ExprToSql(Not(x)).value, Tokens(Not(x)), rest)
  {
    var s := ExprToSql(x).value;
    ReadsSpaced(s, Tokens(x), " " + s, rest);
    ReadsWord("NOT", KNot, " " + s + rest);
    assert ExprToSql(Not(x)).value == "NOT" + (" " + s);
    ReadsThen("NOT", [KNot], " " + s, Tokens(x), "NOT" + (" " + s), [KNot] + Tokens(x), rest);
  }

  /** A text followed by one that starts with a space. */
  lemma {:induction false} ReadsTested(s: string, toks: seq<Token>, test: string, more: seq<Token>, rest: string)
    requires ReadsAnywhere(s, toks) && Reads(test, more, rest) && test != "" && test[0] == ' '
    ensures Reads(s + test, toks + more, rest)
  {
    assert AtBoundary(test + rest);
    ReadsThen(s, toks, test, more, s + test, toks + more, rest);
  }

  lemma {:induction false} ReadsNullTest(x: Expr, rest: string)
    requires Printable(x) && ReadsAnywhere(ExprToSql(x).value, Tokens(x)) && AtBoundary(rest)
    ensures Reads(ExprToSql(IsNull(x)).value, Tokens(IsNull(x)), rest)
  {
    ReadsIsNull(rest);
    ReadsTested(ExprToSql(x).value, Tokens(x), " IS NULL", [KIs, KNull], rest);
  }

  lemma {:induction false} ReadsNotNullTest(x: Expr, rest: string)
    requires Printable(x) && ReadsAnywhere(ExprToSql(x).value, Tokens(x)) && AtBoundary(rest)
    ensures Reads(ExprToSql(IsNotNull(x)).value, Tokens(IsNotNull(x)), rest)
  {
    ReadsIsNotNull(rest);
    ReadsTested(ExprToSql(x).value, Tokens(x), " IS NOT NULL", [KIs, KNot, KNull], rest);
  }

  /** From the operator to the closing parenthesis. */
  lemma {:induction false} ReadsRightHalf(op: Operator, right: string, tr: seq<Token>, whole: string, toks: seq<Token>,
                                          rest: string)
    requires !op.OtherOp? && AtBoundary(rest) && ReadsAnywhere(right, tr)
    requires whole == " " + (OperatorText(op).value + (" " + (right + ")")))
    requires toks == [OperatorToken(op)] + (tr + [RParen])
    ensures Reads(whole, toks, rest)
  {
    var o, to := OperatorText(op).value, OperatorToken(op);
    assert ")"[1..] == "";
    ReadsSymbol(")", RParen, rest);
    var r1, t1 := right + ")", tr + [RParen];
    assert AtBoundary(")" + rest);
    ReadsThen(right, tr, ")", [RParen], r1, t1, rest);
    ReadsSpaced(r1, t1, " " + r1, rest);
    ReadsOperator(op, " " + r1 + rest);
    ReadsThen(o, [to], " " + r1, t1, o + (" " + r1), toks, rest);
    ReadsSpaced(o + (" " + r1), toks, whole, rest);
  }

  lemma {:induction false} ReadsBinary(left: string, tl: seq<Token>, op: Operator, right: string, tr: seq<Token>,
                                       rest: string)
    requires !op.OtherOp? && AtBoundary(rest)
    requires ReadsAnywhere(left, tl) && ReadsAnywhere(right, tr)
    ensures Reads("(" + left + " " + OperatorText(op).value + " " + right + ")",
                  [LParen] + tl + [OperatorToken(op)] + tr + [RParen], rest)
  {
    var o, to := OperatorText(op).value, OperatorToken(op);
    var half, th := " " + (o + (" " + (right + ")"))), [to] + (tr + [RParen]);
    ReadsRightHalf(op, right, tr, half, th, rest);
    ReadsTested(left, tl, half, th, rest);
    ReadsOpened(left + half, tl + th, rest);
    Regroup(left, o, right);
    RegroupTokens(tl, to, tr);
  }

  lemma {:induction false} ReadsOpened(s: string, toks: seq<Token>, rest: string)
    requires Reads(s, toks, rest)
    ensures Reads("(" + s, [LParen] + toks, rest)
  {
    assert "("[1..] == "";
    ReadsSymbol("(", LParen, s + rest);
    ReadsThen("(", [LParen], s, toks, "(" + s, [LParen] + toks, rest);
  }

  lemma {:induction false} Regroup(left: string, o: string, right: string)
    ensures "(" + left + " " + o + " " + right + ")" == "(" + (left + (" " + (o + (" " + (right + ")")))))
  {
  }

  lemma {:induction false} RegroupTokens(tl: seq<Token>, to: Token, tr: seq<Token>)
    ensures [LParen] + tl + [to] + tr + [RParen] == [LParen] + (tl + ([to] + (tr + [RParen])))
  {
  }

  // ---------- What the tokens are understood as ----------

  /** A filter as its text shows it: some NOTs, an operand, and IS [NOT] NULL tests, innermost
      first (`true` for IS NULL). The text does not show how the NOTs and tests were nested. */
  datatype Spine = Spine(nots: nat, core: Expr, tests: seq<bool>)

  function Size(e: Expr): nat {
    match e
    case Binary(l, _, r) => 1 + Size(l) + Size(r)
    case Not(x) => 1 + Size(x)
    case IsNull(x) => 1 + Size(x)
    case IsNotNull(x) => 1 + Size(x)
    case _ => 1
  }

  function SpineOf(e: Expr): (s: Spine)
    ensures Size(s.core) <= Size(e)
    ensures s.core.Column? || s.core.Literal? || s.core.Binary? || s.core.OtherExpr?
    ensures s.nots == 0 && s.tests == [] <==> s.core == e
  {
    match e
    case Not(x) => var s := SpineOf(x); s.(nots := s.nots + 1)
    case IsNull(x) => var s := SpineOf(x); s.(tests := s.tests + [true])
    case IsNotNull(x) => var s := SpineOf(x); s.(tests := s.tests + [false])
    case _ => Spine(0, e, [])
  }

  function NotTimes(n: nat, e: Expr): Expr {
    if n == 0 then e else Not(NotTimes(n - 1, e))
  }

  function Tested(e: Expr, tests: seq<bool>): Expr {
    if tests == [] then e else if tests[0] then IsNull(e) else IsNotNull(e)
  }

  /** The condition an engine with SQL precedence understands from the text of a filter: NOT binds
      weaker than comparisons and null tests, and each operand takes at most one of the latter. */
  function Understood(e: Expr): Option<Expr>
    decreases Size(e), 1
  {
    var s := SpineOf(e);
    if |s.tests| > 1 then None
    else
      match OperandUnderstood(s.core)
      case Some(p) => Some(NotTimes(s.nots, Tested(p, s.tests)))
      case None => None
  }

  function OperandUnderstood(e: Expr): Option<Expr>
    decreases Size(e), 0
  {
    match e
    case Binary(l, op, r) =>
      if op == And || op == Or then
        (match (Understood(l), Understood(r))
         case (Some(a), Some(b)) => Some(Binary(a, op, b))
         case _ => None)
      else
        var sl, sr := SpineOf(l), SpineOf(r);
        if sl.tests != [] || sr.tests != [] || sr.nots > 0 then None
        else
          (match (OperandUnderstood(sl.core), OperandUnderstood(sr.core))
           case (Some(a), Some(b)) => Some(NotTimes(sl.nots, Binary(a, op, b)))
           case _ => None)
    case _ => Some(e)
  }

  /** Misnesting is all that can go wrong: the text is understood as the filter it was printed
      from exactly when the filter is well nested. */
  lemma {:induction false} UnderstoodIffWellNested(e: Expr)
    requires Printable(e)
    ensures Understood(e) == Some(e) <==> WellNested(e)
    ensures Operand(e) ==> (OperandUnderstood(e) == Some(e) <==> WellNested(e))
  {
    match e
    case Binary(l, op, r) =>
      UnderstoodIffWellNested(l);
      UnderstoodIffWellNested(r);
    case Not(x) =>
      UnderstoodIffWellNested(x);
    case IsNull(x) =>
      UnderstoodIffWellNested(x);
    case IsNotNull(x) =>
      UnderstoodIffWellNested(x);
    case _ =>
  }

  // ---------- Parsing the tokens ----------

  predicate StartsPredicate(toks: seq<Token>) {
    toks != [] && (toks[0].Cmp? || toks[0] == KIs)
  }

  function TestTokens(tests: seq<bool>): seq<Token> {
    if tests == [] then [] else (if tests[0] then [KIs, KNull] else [KIs, KNot, KNull]) + TestTokens(tests[1..])
  }

  lemma {:induction false} TestTokensSnoc(tests: seq<bool>, t: bool)
    ensures TestTokens(tests + [t]) == TestTokens(tests) + if t then [KIs, KNull] else [KIs, KNot, KNull]
  {
    if tests != [] {
      TestTokensSnoc(tests[1..], t);
      assert (tests + [t])[1..] == tests[1..] + [t];
    } else {
      assert [t][1..] == [];
    }
  }

  function NotTokens(n: nat): seq<Token> {
    if n == 0 then [] else [KNot] + NotTokens(n - 1)
  }

  lemma {:induction false} SpineTokens(e: Expr)
    requires Printable(e)
    ensures Printable(SpineOf(e).core)
    ensures var s := SpineOf(e); Tokens(e) == NotTokens(s.nots) + (Tokens(s.core) + TestTokens(s.tests))
  {
    match e
    case Not(x) =>
      SpineTokens(x);
      OneMoreNot(SpineOf(x));
    case IsNull(x) =>
      SpineTokens(x);
      OneMoreTest(SpineOf(x), true);
    case IsNotNull(x) =>
      SpineTokens(x);
      OneMoreTest(SpineOf(x), false);
    case _ =>
  }

  lemma {:induction false} OneMoreNot(s: Spine)
    requires Printable(s.core)
    ensures [KNot] + (NotTokens(s.nots) + (Tokens(s.core) + TestTokens(s.tests))) ==
            NotTokens(s.nots + 1) + (Tokens(s.core) + TestTokens(s.tests))
  {
    Associates([KNot], NotTokens(s.nots), Tokens(s.core) + TestTokens(s.tests));
  }

  lemma {:induction false} OneMoreTest(s: Spine, isNull: bool)
    requires Printable(s.core)
    ensures var test := if isNull then [KIs, KNull] else [KIs, KNot, KNull];
      NotTokens(s.nots) + (Tokens(s.core) + TestTokens(s.tests)) + test ==
        NotTokens(s.nots) + (Tokens(s.core) + TestTokens(s.tests + [isNull]))
  {
    TestTokensSnoc(s.tests, isNull);
  }

  function Wrapped(n: nat, r: Parsed): Parsed {
    match r
    case Some((e, rest)) => Some((NotTimes(n, e), rest))
    case None => None
  }

  lemma {:induction false} ParseNots(n: nat, toks: seq<Token>)
    requires toks == [] || toks[0] != KNot
    ensures ParseNot(NotTokens(n) + toks) == Wrapped(n, ParsePredicate(toks))
  {
    if n == 0 {
      assert NotTokens(0) + toks == toks;
    } else {
      ParseNots(n - 1, toks);
      FirstAndRest(KNot, NotTokens(n - 1), toks);
    }
  }

  lemma {:induction false} FirstAndRest(t: Token, toks: seq<Token>, more: seq<Token>)
    ensures var whole := [t] + toks + more; whole[0] == t && whole[1..] == toks + more
  {
  }

  /** What `ParsePrimary` must answer on the tokens of an operand followed by `rest`. */
  function OperandResult(e: Expr, rest: seq<Token>): Parsed {
    match OperandUnderstood(e)
    case Some(p) => Some((p, rest))
    case None => None
  }

  ghost predicate OperandParses(e: Expr)
    requires Printable(e)
  {
    && Tokens(e) != [] && Tokens(e)[0] != KNot && !StartsPredicate(Tokens(e))
    && forall rest :: ParsePrimary(Tokens(e) + rest) == OperandResult(e, rest)
  }

  lemma {:induction false} ParseTested(e: Expr, tests: seq<bool>, rest: seq<Token>)
    requires Printable(e) && OperandParses(e)
    requires tests == [] ==> !StartsPredicate(rest)
    ensures ParsePredicate(Tokens(e) + (TestTokens(tests) + rest)) ==
            match OperandUnderstood(e)
            case Some(p) => Some((Tested(p, tests), TestTokens(if tests == [] then [] else tests[1..]) + rest))
            case None => None
  {
    var after := TestTokens(tests) + rest;
    assert ParsePrimary(Tokens(e) + after) == OperandResult(e, after);
    if tests == [] {
      assert after == rest;
    } else {
      var one, more := if tests[0] then [KIs, KNull] else [KIs, KNot, KNull], TestTokens(tests[1..]);
      assert one + more + rest == one + (more + rest);
      TestFollows(Tokens(e) + after, OperandUnderstood(e), after, tests[0], more + rest);
    }
  }

  lemma {:induction false} TestFollows(toks: seq<Token>, p: Option<Expr>, after: seq<Token>, isNull: bool,
                                       rest: seq<Token>)
    requires ParsePrimary(toks) == match p case Some(x) => Some((x, after)) case None => None
    requires after == (if isNull then [KIs, KNull] else [KIs, KNot, KNull]) + rest
    ensures ParsePredicate(toks) ==
              match p case Some(x) => Some((if isNull then IsNull(x) else IsNotNull(x), rest)) case None => None
  {
    assert after[0] == KIs && after[if isNull then 2 else 3..] == rest;
    if isNull { assert after[1] == KNull; } else { assert after[1] == KNot && after[2] == KNull; }
  }

  /** At the negation level the tokens are read as `u`; if there is no `u`, reading either fails or
      stops in front of a second null test, which nothing accepts. */
  ghost predicate NegationParses(toks: seq<Token>, u: Option<Expr>) {
    forall rest :: !StartsPredicate(rest) ==> NegationParsesBefore(toks, u, rest)
  }

  ghost predicate NegationParsesBefore(toks: seq<Token>, u: Option<Expr>, rest: seq<Token>) {
    match u
    case Some(e) => ParseNot(toks + rest) == Some((e, rest))
    case None => Refused(ParseNot(toks + rest))
  }

  predicate Refused(r: Parsed) {
    r.Some? ==> r.value.1 != [] && (r.value.1[0] == KIs || r.value.1[0].Cmp?)
  }

  function Applied(s: Spine, p: Option<Expr>): Option<Expr> {
    if |s.tests| > 1 then None
    else
      match p
      case Some(e) => Some(NotTimes(s.nots, Tested(e, s.tests)))
      case None => None
  }

  lemma {:induction false} ParseSpineBefore(s: Spine, toks: seq<Token>, rest: seq<Token>)
    requires Printable(s.core) && OperandParses(s.core) && !StartsPredicate(rest)
    requires toks == NotTokens(s.nots) + (Tokens(s.core) + TestTokens(s.tests))
    ensures NegationParsesBefore(toks, Applied(s, OperandUnderstood(s.core)), rest)
  {
    var body := Tokens(s.core) + (TestTokens(s.tests) + rest);
    ParseTested(s.core, s.tests, rest);
    assert body[0] == Tokens(s.core)[0];
    ParseNots(s.nots, body);
    FourParts(NotTokens(s.nots), Tokens(s.core), TestTokens(s.tests), rest);
    if |s.tests| > 1 {
      TestTokensStart(s.tests[1..], rest);
    } else {
      assert TestTokens([]) + rest == rest;
    }
  }

  lemma {:induction false} ParseSpine(s: Spine, toks: seq<Token>)
    requires Printable(s.core) && OperandParses(s.core)
    requires toks == NotTokens(s.nots) + (Tokens(s.core) + TestTokens(s.tests))
    ensures NegationParses(toks, Applied(s, OperandUnderstood(s.core)))
  {
    forall rest | !StartsPredicate(rest)
      ensures NegationParsesBefore(toks, Applied(s, OperandUnderstood(s.core)), rest)
    {
      ParseSpineBefore(s, toks, rest);
    }
  }

  lemma {:induction false} ParseGroup(inner: seq<Token>, rest: seq<Token>, outcome: Option<Expr>)
    requires match outcome
             case Some(e) => ParseOr(inner) == Some((e, [RParen] + rest))
             case None => Refused(ParseOr(inner))
    ensures ParsePrimary([LParen] + inner) == match outcome case Some(e) => Some((e, rest)) case None => None
  {
    assert ([LParen] + inner)[1..] == inner;
    assert ([RParen] + rest)[1..] == rest;
  }

  function Joined(op: Operator, a: Option<Expr>, b: Option<Expr>): Option<Expr> {
    match (a, b)
    case (Some(x), Some(y)) => Some(Binary(x, op, y))
    case _ => None
  }

  /** `AND` and `OR` between two printed filters. */
  lemma {:induction false} ParseConnective(tl: seq<Token>, ul: Option<Expr>, op: Operator, tr: seq<Token>,
                                           ur: Option<Expr>, close: seq<Token>)
    requires op in {And, Or} && NegationParses(tl, ul) && NegationParses(tr, ur)
    requires close != [] && close[0] == RParen
    ensures match Joined(op, ul, ur)
            case Some(e) => ParseOr(tl + ([OperatorToken(op)] + (tr + close))) == Some((e, close))
            case None => Refused(ParseOr(tl + ([OperatorToken(op)] + (tr + close))))
  {
    var tail := [OperatorToken(op)] + (tr + close);
    assert tail[1..] == tr + close;
    assert NegationParsesBefore(tl, ul, tail);
    assert NegationParsesBefore(tr, ur, close);
    var left := ParseNot(tl + tail);
    if ul.Some? {
      if op == And {
        assert ParseAnd(tl + tail) == AndTail(ul.value, tail);
        var right := ParseNot(tr + close);
        if right.Some? {
          var e := Binary(ul.value, And, right.value.0);
          assert AndTail(e, right.value.1) == Some((e, right.value.1));
          assert OrTail(e, right.value.1) == Some((e, right.value.1));
        } else {
          assert ParseAnd(tr + close).None?;
        }
      } else {
        assert ParseAnd(tl + tail) == Some((ul.value, tail));
        var right := ParseNot(tr + close);
        if right.Some? {
          var e := Binary(ul.value, Or, right.value.0);
          assert ParseAnd(tr + close) == right;
          assert OrTail(e, right.value.1) == Some((e, right.value.1));
        } else {
          assert ParseAnd(tr + close).None?;
        }
      }
    } else if left.Some? {
      assert ParseAnd(tl + tail) == left;
    }
  }

  predicate Stops(toks: seq<Token>) {
    toks == [] || toks[0] == RParen || toks[0] == KIs || toks[0].Cmp?
  }

  lemma {:induction false} TestTokensStart(tests: seq<bool>, rest: seq<Token>)
    requires tests != []
    ensures (TestTokens(tests) + rest)[0] == KIs
  {
  }

  /** A comparison between two printed filters. */
  lemma {:induction false} ParseComparison(sl: Spine, tl: seq<Token>, op: Operator, sr: Spine, tr: seq<Token>,
                                           close: seq<Token>)
    requires Comparison(op) && Printable(sl.core) && OperandParses(sl.core) && Printable(sr.core) &&
               OperandParses(sr.core)
    requires tl == NotTokens(sl.nots) + (Tokens(sl.core) + TestTokens(sl.tests))
    requires tr == NotTokens(sr.nots) + (Tokens(sr.core) + TestTokens(sr.tests))
    requires close != [] && close[0] == RParen
    ensures var outcome := ComparisonUnderstood(sl, OperandUnderstood(sl.core), op, sr, OperandUnderstood(sr.core));
            var r := ParseOr(tl + ([Cmp(op)] + (tr + close)));
            if outcome.Some? then r == Some((outcome.value, close)) else Refused(r)
  {
    var tail := [Cmp(op)] + (tr + close);
    var body := Tokens(sl.core) + (TestTokens(sl.tests) + tail);
    FourParts(NotTokens(sl.nots), Tokens(sl.core), TestTokens(sl.tests), tail);
    assert body[0] == Tokens(sl.core)[0];
    ParseNots(sl.nots, body);
    if sl.tests != [] {
      TestedOperandStops(sl, tail);
    } else {
      assert TestTokens(sl.tests) + tail == tail;
      BareOperandCompares(sl.core, op, sr, tr, close);
    }
    StopsHere(tl + tail);
  }

  lemma {:induction false} FourParts(a: seq<Token>, b: seq<Token>, c: seq<Token>, d: seq<Token>)
    ensures (a + (b + c)) + d == a + (b + (c + d))
  {
  }

  /** After a bare operand the comparison is read with what the right operand is understood as. */
  lemma {:induction false} BareOperandCompares(core: Expr, op: Operator, sr: Spine, tr: seq<Token>, close: seq<Token>)
    requires Comparison(op) && Printable(core) && OperandParses(core) && Printable(sr.core) && OperandParses(sr.core)
    requires tr == NotTokens(sr.nots) + (Tokens(sr.core) + TestTokens(sr.tests))
    requires close != [] && close[0] == RParen
    ensures var left := Spine(0, core, []);
            var outcome := ComparisonUnderstood(left, OperandUnderstood(core), op, sr, OperandUnderstood(sr.core));
            var r := ParsePredicate(Tokens(core) + ([Cmp(op)] + (tr + close)));
            if outcome.Some? then r == Some((outcome.value, close)) else Refused(r)
    ensures var r := ParsePredicate(Tokens(core) + ([Cmp(op)] + (tr + close))); r.Some? ==> Stops(r.value.1)
  {
    var tail := [Cmp(op)] + (tr + close);
    assert tail[1..] == tr + close;
    ParseRightOperand(sr, tr, close);
    ComparedOperands(Tokens(core) + tail, OperandUnderstood(core), tail, op, tr + close);
  }

  /** After a tested operand a comparison is left over. */
  lemma {:induction false} TestedOperandStops(sl: Spine, tail: seq<Token>)
    requires Printable(sl.core) && OperandParses(sl.core) && sl.tests != [] && tail != [] && tail[0].Cmp?
    ensures var r := ParsePredicate(Tokens(sl.core) + (TestTokens(sl.tests) + tail));
            Refused(r) && (r.Some? ==> Stops(r.value.1))
  {
    ParseTested(sl.core, sl.tests, tail);
    if |sl.tests| > 1 { TestTokensStart(sl.tests[1..], tail); } else { assert TestTokens([]) + tail == tail; }
  }

  lemma {:induction false} ComparedOperands(toks: seq<Token>, p: Option<Expr>, tail: seq<Token>, op: Operator,
                                            right: seq<Token>)
    requires ParsePrimary(toks) == match p case Some(x) => Some((x, tail)) case None => None
    requires tail != [] && tail[0] == Cmp(op) && tail[1..] == right
    ensures ParsePredicate(toks)
         == match (p, ParsePrimary(right)) {
              case (Some(x), Some((y, after))) => Some((Binary(x, op, y), after))
              case _ => None
            }
  {
  }

  function ComparisonUnderstood(sl: Spine, pl: Option<Expr>, op: Operator, sr: Spine, pr: Option<Expr>): Option<Expr> {
    if sl.tests != [] || sr.tests != [] || sr.nots > 0 then None
    else
      match (pl, pr)
      case (Some(a), Some(b)) => Some(NotTimes(sl.nots, Binary(a, op, b)))
      case _ => None
  }

  /** Where no connective follows, the negation level is the whole condition. */
  lemma {:induction false} StopsHere(toks: seq<Token>)
    requires ParseNot(toks).Some? ==> Stops(ParseNot(toks).value.1)
    ensures ParseOr(toks) == ParseNot(toks)
  {
    var p := ParseNot(toks);
    if p.Some? {
      assert ParseAnd(toks) == AndTail(p.value.0, p.value.1) == p;
    }
  }

  /** A right operand must be bare: a NOT in front is no operand, and a test behind is left over. */
  lemma {:induction false} ParseRightOperand(s: Spine, toks: seq<Token>, close: seq<Token>)
    requires Printable(s.core) && OperandParses(s.core) && close != [] && close[0] == RParen
    requires toks == NotTokens(s.nots) + (Tokens(s.core) + TestTokens(s.tests))
    ensures s.nots > 0 ==> ParsePrimary(toks + close).None?
    ensures s.nots == 0 ==> ParsePrimary(toks + close) == OperandResult(s.core, TestTokens(s.tests) + close)
    ensures s.tests != [] ==> (TestTokens(s.tests) + close)[0] == KIs
    ensures s.tests == [] ==> TestTokens(s.tests) + close == close
  {
    if s.nots > 0 {
      assert (toks + close)[0] == KNot;
    } else {
      assert toks + close == Tokens(s.core) + (TestTokens(s.tests) + close);
    }
  }

  lemma {:induction false} ParseOperand(e: Expr)
    requires Printable(e) && Operand(e)
    ensures OperandParses(e)
    decreases Size(e)
  {
    forall rest
      ensures ParsePrimary(Tokens(e) + rest) == OperandResult(e, rest)
    {
      match e
      case Binary(l, op, r) => ParseBinary(l, op, r, rest);
      case Column(_) => assert (Tokens(e) + rest)[|Tokens(e)|..] == rest;
      case Literal(_) => assert (Tokens(e) + rest)[|Tokens(e)|..] == rest;
    }
  }

  lemma {:induction false} ParseBinary(l: Expr, op: Operator, r: Expr, rest: seq<Token>)
    requires Printable(Binary(l, op, r))
    ensures ParsePrimary(Tokens(Binary(l, op, r)) + rest) == OperandResult(Binary(l, op, r), rest)
    decreases Size(l) + Size(r)
  {
    SpineTokens(l);
    SpineTokens(r);
    ParseOperand(SpineOf(l).core);
    ParseOperand(SpineOf(r).core);
    var close := [RParen] + rest;
    var inner := Tokens(l) + ([OperatorToken(op)] + (Tokens(r) + close));
    ParseInner(l, op, r, close);
    ParseGroup(inner, rest, OperandUnderstood(Binary(l, op, r)));
    RegroupBinary(l, op, r, rest);
  }

  /** What stands between the parentheses. */
  lemma {:induction false} ParseInner(l: Expr, op: Operator, r: Expr, close: seq<Token>)
    requires Printable(Binary(l, op, r)) && close != [] && close[0] == RParen
    requires Printable(SpineOf(l).core) && OperandParses(SpineOf(l).core)
    requires Printable(SpineOf(r).core) && OperandParses(SpineOf(r).core)
    ensures var p := ParseOr(Tokens(l) + ([OperatorToken(op)] + (Tokens(r) + close)));
            match OperandUnderstood(Binary(l, op, r))
            case Some(e) => p == Some((e, close))
            case None => Refused(p)
  {
    if op == And || op == Or {
      ParseNegation(l);
      ParseNegation(r);
      ParseConnective(Tokens(l), Understood(l), op, Tokens(r), Understood(r), close);
      assert OperandUnderstood(Binary(l, op, r)) == Joined(op, Understood(l), Understood(r));
    } else {
      SpineTokens(l);
      SpineTokens(r);
      ParseComparison(SpineOf(l), Tokens(l), op, SpineOf(r), Tokens(r), close);
    }
  }

  lemma {:induction false} RegroupBinary(l: Expr, op: Operator, r: Expr, rest: seq<Token>)
    requires Printable(Binary(l, op, r))
    ensures Tokens(Binary(l, op, r)) + rest ==
              [LParen] + (Tokens(l) + ([OperatorToken(op)] + (Tokens(r) + ([RParen] + rest))))
  {
  }

  lemma {:induction false} ParseNegation(e: Expr)
    requires Printable(e) && Printable(SpineOf(e).core) && OperandParses(SpineOf(e).core)
    ensures NegationParses(Tokens(e), Understood(e))
  {
    SpineTokens(e);
    ParseSpine(SpineOf(e), Tokens(e));
  }

  lemma {:induction false} ParsePrinted(e: Expr)
    requires Printable(e)
    ensures NegationParses(Tokens(e), Understood(e))
  {
    SpineTokens(e);
    ParseOperand(SpineOf(e).core);
    ParseNegation(e);
  }

  /** The text of any filter is understood as exactly `Understood` says, or refused. */
  lemma {:induction false} TextUnderstood(e: Expr)
    requires Printable(e) && PlainNames(e)
    ensures ParseSql(ExprToSql(e).value) == Understood(e)
  {
    var text := ExprToSql(e).value;
    ReadsPrinted(e);
    assert Reads(text, Tokens(e), "");
    assert text + "" == text && Tokens(e) + [] == Tokens(e);
    ParsePrinted(e);
    assert NegationParsesBefore(Tokens(e), Understood(e), []);
    var p := ParseNot(Tokens(e));
    if p.Some? { StopsHere(Tokens(e)); } else { assert ParseAnd(Tokens(e)).None?; }
  }
}
