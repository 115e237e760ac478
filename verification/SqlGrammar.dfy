/** Reading a WHERE condition back: the tokens of SQL conditions and the precedence grammar
    condition > disjunction > conjunction > negation > one predicate over two operands. */
module SqlGrammar {
  import opened FilterExpr
  import opened Sequences

  datatype Token =
    | LParen | RParen | Minus
    | Ident(name: string) | Text(s: string) | Num(n: nat)
    | Cmp(op: Operator)
    | KAnd | KOr | KNot | KIs | KNull | KTrue | KFalse

  // ---------- Tokens ----------

  /** The content of a quoted token and what follows the closing quote. */
  function ReadQuoted(q: char, s: string): (r: Option<(string, string)>)
    ensures r.Some? ==> |r.value.1| < |s|
  {
    if s == "" then None
    else if s[0] != q then
      match ReadQuoted(q, s[1..])
      case Some((content, rest)) => Some(([s[0]] + content, rest))
      case None => None
    else if |s| > 1 && s[1] == q then
      match ReadQuoted(q, s[2..])
      case Some((content, rest)) => Some(([q] + content, rest))
      case None => None
    else Some(("", s[1..]))
  }

  predicate IsDigit(c: char) { '0' <= c <= '9' }

  predicate IsLetter(c: char) { 'A' <= c <= 'Z' }

  function ReadDigits(acc: nat, s: string): (r: (nat, string))
    ensures |r.1| <= |s|
    decreases s
  {
    if s != "" && IsDigit(s[0]) then ReadDigits(10 * acc + (s[0] as int - '0' as int), s[1..]) else (acc, s)
  }

  function ReadWord(s: string): (r: (string, string))
    ensures |r.0| + |r.1| == |s|
  {
    if s != "" && IsLetter(s[0]) then
      var (word, rest) := ReadWord(s[1..]);
      ([s[0]] + word, rest)
    else ("", s)
  }

  function Keyword(word: string): Option<Token> {
    if word == "AND" then Some(KAnd)
    else if word == "OR" then Some(KOr)
    else if word == "NOT" then Some(KNot)
    else if word == "IS" then Some(KIs)
    else if word == "NULL" then Some(KNull)
    else if word == "TRUE" then Some(KTrue)
    else if word == "FALSE" then Some(KFalse)
    else None
  }

  function Symbol(s: string): (r: Option<(Token, string)>)
    requires s != ""
    ensures r.Some? ==> |r.value.1| < |s|
  {
    var two := |s| > 1 && s[1] == '=';
    match s[0]
    case '(' => Some((LParen, s[1..]))
    case ')' => Some((RParen, s[1..]))
    case '-' => Some((Minus, s[1..]))
    case '=' => Some((Cmp(Eq), s[1..]))
    case '!' => if two then Some((Cmp(NotEq), s[2..])) else None
    case '<' => if two then Some((Cmp(LtEq), s[2..])) else Some((Cmp(Lt), s[1..]))
    case '>' => if two then Some((Cmp(GtEq), s[2..])) else Some((Cmp(Gt), s[1..]))
    case _ => None
  }

  function NextToken(s: string): (r: Option<(Token, string)>)
    requires s != ""
    ensures r.Some? ==> |r.value.1| < |s|
  {
    if s[0] == '"' then
      match ReadQuoted('"', s[1..])
      case Some((name, rest)) => Some((Ident(name), rest))
      case None => None
    else if s[0] == '\'' then
      match ReadQuoted('\'', s[1..])
      case Some((text, rest)) => Some((Text(text), rest))
      case None => None
    else if IsDigit(s[0]) then
      var (n, rest) := ReadDigits(s[0] as int - '0' as int, s[1..]);
      Some((Num(n), rest))
    else if IsLetter(s[0]) then
      var (word, rest) := ReadWord(s);
      assert word != "";
      match Keyword(word)
      case Some(t) => Some((t, rest))
      case None => None
    else Symbol(s)
  }

  function Lex(s: string): Option<seq<Token>>
    decreases |s|
  {
    if s == "" then Some([])
    else if s[0] == ' ' then Lex(s[1..])
    else
      match NextToken(s)
      case Some((t, rest)) => Prepend([t], Lex(rest))
      case None => None
  }

  // ---------- Grammar ----------

  type Parsed = Option<(Expr, seq<Token>)>

  predicate Shorter(r: Parsed, toks: seq<Token>) {
    r.Some? ==> |r.value.1| < |toks|
  }

  function ParsePrimary(toks: seq<Token>): (r: Parsed)
    ensures Shorter(r, toks)
    decreases |toks|, 0
  {
    if toks == [] then None
    else
      match toks[0]
      case Ident(name) => Some((Column(name), toks[1..]))
      case Text(s) => Some((Literal(Utf8(s)), toks[1..]))
      case Num(n) => Some((Literal(Int(n)), toks[1..]))
      case Minus => if |toks| > 1 && toks[1].Num? then Some((Literal(Int(-(toks[1].n as int))), toks[2..])) else None
      case KTrue => Some((Literal(Boolean(true)), toks[1..]))
      case KFalse => Some((Literal(Boolean(false)), toks[1..]))
      case KNull => Some((Literal(Null), toks[1..]))
      case LParen =>
        (match ParseOr(toks[1..])
         case Some((e, rest)) => if rest != [] && rest[0] == RParen then Some((e, rest[1..])) else None
         case None => None)
      case _ => None
  }

  function ParsePredicate(toks: seq<Token>): (r: Parsed)
    ensures Shorter(r, toks)
    decreases |toks|, 1
  {
    match ParsePrimary(toks)
    case None => None
    case Some((e, rest)) =>
      if rest != [] && rest[0].Cmp? then
        match ParsePrimary(rest[1..])
        case Some((right, after)) => Some((Binary(e, rest[0].op, right), after))
        case None => None
      else if |rest| >= 2 && rest[0] == KIs && rest[1] == KNull then Some((IsNull(e), rest[2..]))
      else if |rest| >= 3 && rest[0] == KIs && rest[1] == KNot && rest[2] == KNull then Some((IsNotNull(e), rest[3..]))
      else Some((e, rest))
  }

  function ParseNot(toks: seq<Token>): (r: Parsed)
    ensures Shorter(r, toks)
    decreases |toks|, 2
  {
    if toks != [] && toks[0] == KNot then
      match ParseNot(toks[1..])
      case Some((e, rest)) => Some((Not(e), rest))
      case None => None
    else ParsePredicate(toks)
  }

  function AndTail(e: Expr, toks: seq<Token>): (r: Parsed)
    ensures r.Some? ==> |r.value.1| <= |toks|
    decreases |toks|, 3
  {
    if toks != [] && toks[0] == KAnd then
      match ParseNot(toks[1..])
      case Some((right, rest)) => AndTail(Binary(e, And, right), rest)
      case None => None
    else Some((e, toks))
  }

  function ParseAnd(toks: seq<Token>): (r: Parsed)
    ensures Shorter(r, toks)
    decreases |toks|, 4
  {
    match ParseNot(toks)
    case Some((e, rest)) => AndTail(e, rest)
    case None => None
  }

  function OrTail(e: Expr, toks: seq<Token>): (r: Parsed)
    ensures r.Some? ==> |r.value.1| <= |toks|
    decreases |toks|, 5
  {
    if toks != [] && toks[0] == KOr then
      match ParseAnd(toks[1..])
      case Some((right, rest)) => OrTail(Binary(e, Or, right), rest)
      case None => None
    else Some((e, toks))
  }

  function ParseOr(toks: seq<Token>): (r: Parsed)
    ensures Shorter(r, toks)
    decreases |toks|, 6
  {
    match ParseAnd(toks)
    case Some((e, rest)) => OrTail(e, rest)
    case None => None
  }

  /** The condition a whole text stands for, if it is one. */
  function ParseSql(text: string): Option<Expr> {
    match Lex(text)
    case Some(toks) =>
      (match ParseOr(toks)
       case Some((e, rest)) => if rest == [] then Some(e) else None
       case None => None)
    case None => None
  }
}
