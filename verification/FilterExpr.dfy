/** Row filters, their meaning under three-valued logic, and the SQL text they are printed as. */
module FilterExpr {
  import opened Sequences

  datatype Operator = Eq | NotEq | Lt | LtEq | Gt | GtEq | And | Or | OtherOp(id: nat)

  /** `OtherScalar` stands for every literal the printer declines: typed nulls, dates, binaries. */
  datatype Scalar = Utf8(text: string) | Int(n: int) | Boolean(b: bool) | Null | OtherScalar(id: nat)

  datatype Expr =
    | Column(name: string)
    | Literal(scalar: Scalar)
    | Binary(left: Expr, op: Operator, right: Expr)
    | Not(inner: Expr)
    | IsNull(inner: Expr)
    | IsNotNull(inner: Expr)
    | OtherExpr(id: nat)

  // ---------- Printing ----------

  function OperatorText(op: Operator): Option<string> {
    match op
    case Eq => Some("=")
    case NotEq => Some("!=")
    case Lt => Some("<")
    case LtEq => Some("<=")
    case Gt => Some(">")
    case GtEq => Some(">=")
    case And => Some("AND")
    case Or => Some("OR")
    case OtherOp(_) => None
  }

  /** Doubles every occurrence of the quote character. */
  function Escape(q: char, s: string): string {
    if s == "" then ""
    else (if s[0] == q then [q, q] else [s[0]]) + Escape(q, s[1..])
  }

  function DigitChar(d: nat): char
    requires d < 10
  {
    "0123456789"[d]
  }

  function NatText(n: nat): string {
    if n < 10 then [DigitChar(n)] else NatText(n / 10) + [DigitChar(n % 10)]
  }

  function ScalarText(s: Scalar): Option<string> {
    match s
    case Utf8(text) => Some("'" + Escape('\'', text) + "'")
    case Int(n) => Some(if n < 0 then "-" + NatText(-n) else NatText(n))
    case Boolean(b) => Some(if b then "TRUE" else "FALSE")
    case Null => Some("NULL")
    case OtherScalar(_) => None
  }

  /** The SQL text of a filter, if it has one. Only binary expressions are parenthesised, and
      column names are quoted but not escaped. */
  function ExprToSql(e: Expr): Option<string> {
    match e
    case Column(name) => Some("\"" + name + "\"")
    case Literal(s) => ScalarText(s)
    case Binary(l, op, r) =>
      (match (ExprToSql(l), OperatorText(op), ExprToSql(r))
       case (Some(left), Some(o), Some(right)) => Some("(" + left + " " + o + " " + right + ")")
       case _ => None)
    case Not(x) => (match ExprToSql(x) case Some(s) => Some("NOT " + s) case None => None)
    case IsNull(x) => (match ExprToSql(x) case Some(s) => Some(s + " IS NULL") case None => None)
    case IsNotNull(x) => (match ExprToSql(x) case Some(s) => Some(s + " IS NOT NULL") case None => None)
    case OtherExpr(_) => None
  }

  predicate Printable(e: Expr) {
    ExprToSql(e).Some?
  }

  /** A filter and all its parts. */
  function Parts(e: Expr): set<Expr> {
    match e
    case Binary(l, _, r) => {e} + Parts(l) + Parts(r)
    case Not(x) => {e} + Parts(x)
    case IsNull(x) => {e} + Parts(x)
    case IsNotNull(x) => {e} + Parts(x)
    case _ => {e}
  }

  /** An operator, a literal or an expression that the printer does not know. */
  predicate Unknown(e: Expr) {
    e.OtherExpr? || (e.Literal? && e.scalar.OtherScalar?) || (e.Binary? && e.op.OtherOp?)
  }

  ghost predicate Known(e: Expr) {
    forall p :: p in Parts(e) ==> !Unknown(p)
  }

  lemma {:induction false} KnownParts(e: Expr, rest: set<Expr>)
    requires Parts(e) == {e} + rest
    ensures Known(e) <==> !Unknown(e) && forall p :: p in rest ==> !Unknown(p)
  {
    assert e in Parts(e);
  }

  /** A filter has a text exactly if no part of it is unknown. */
  lemma {:induction false} PrintableIff(e: Expr)
    ensures Printable(e) <==> Known(e)
  {
    match e
    case Binary(l, op, r) =>
      PrintableIff(l);
      PrintableIff(r);
      assert Parts(e) == {e} + (Parts(l) + Parts(r));
      KnownParts(e, Parts(l) + Parts(r));
      assert OperatorText(op).None? <==> op.OtherOp?;
    case Not(x) =>
      PrintableIff(x);
      KnownParts(e, Parts(x));
    case IsNull(x) =>
      PrintableIff(x);
      KnownParts(e, Parts(x));
    case IsNotNull(x) =>
      PrintableIff(x);
      KnownParts(e, Parts(x));
    case _ => KnownParts(e, {});
  }

  // ---------- Meaning ----------

  datatype Value = VNull | VBool(b: bool) | VInt(n: int) | VText(s: string)
  type Row = map<string, Value>

  /** What the two query engines agree on and this module leaves open: how non-null values
      compare, and what the operators, literals and expressions outside the printed fragment mean. */
  datatype Engine = Engine(
    order: (Value, Value) -> int,
    otherOp: (nat, Value, Value) -> Value,
    otherScalar: nat -> Value,
    otherExpr: (nat, Row) -> Value)

  function Compare(eng: Engine, op: Operator, a: Value, b: Value): Value
    requires op !in {And, Or} && !op.OtherOp?
  {
    if a == VNull || b == VNull then VNull
    else
      var c := eng.order(a, b);
      VBool(match op
            case Eq => c == 0
            case NotEq => c != 0
            case Lt => c < 0
            case LtEq => c <= 0
            case Gt => c > 0
            case GtEq => c >= 0)
  }

  function And3(a: Value, b: Value): Value {
    if a == VBool(false) || b == VBool(false) then VBool(false)
    else if a == VBool(true) && b == VBool(true) then VBool(true)
    else VNull
  }

  function Or3(a: Value, b: Value): Value {
    if a == VBool(true) || b == VBool(true) then VBool(true)
    else if a == VBool(false) && b == VBool(false) then VBool(false)
    else VNull
  }

  function Not3(a: Value): Value {
    if a.VBool? then VBool(!a.b) else VNull
  }

  /** The order false, unknown, true. */
  function Rank(v: Value): int {
    if v == VBool(false) then 0 else if v == VBool(true) then 2 else 1
  }

  /** SQL's three-valued logic: AND is the lesser and OR the greater of its operands, NOT turns the order
      round, and anything that is no truth value counts as unknown. */
  lemma {:induction false} ThreeValuedLaws(a: Value, b: Value)
    ensures Rank(And3(a, b)) == if Rank(a) < Rank(b) then Rank(a) else Rank(b)
    ensures Rank(Or3(a, b)) == if Rank(a) > Rank(b) then Rank(a) else Rank(b)
    ensures Rank(Not3(a)) == 2 - Rank(a)
    ensures And3(a, b).VBool? || And3(a, b) == VNull
    ensures Or3(a, b).VBool? || Or3(a, b) == VNull
    ensures Not3(a).VBool? || Not3(a) == VNull
  {
  }

  /** Comparisons with null are unknown; between other values each operator and its opposite exclude each
      other, and `<=` and `>=` allow equality. */
  lemma {:induction false} ComparisonLaws(eng: Engine, a: Value, b: Value)
    ensures forall op :: op !in {And, Or} && !op.OtherOp? ==>
              (Compare(eng, op, a, b) == VNull <==> a == VNull || b == VNull)
    ensures Compare(eng, NotEq, a, b) == Not3(Compare(eng, Eq, a, b))
    ensures Compare(eng, GtEq, a, b) == Not3(Compare(eng, Lt, a, b))
    ensures Compare(eng, LtEq, a, b) == Not3(Compare(eng, Gt, a, b))
    ensures Compare(eng, LtEq, a, b) == Or3(Compare(eng, Lt, a, b), Compare(eng, Eq, a, b))
    ensures Compare(eng, GtEq, a, b) == Or3(Compare(eng, Gt, a, b), Compare(eng, Eq, a, b))
    ensures eng.order(a, b) < 0 && a != VNull && b != VNull ==> Compare(eng, Lt, a, b) == VBool(true)
  {
  }

  function ScalarValue(eng: Engine, s: Scalar): Value {
    match s
    case Utf8(text) => VText(text)
    case Int(n) => VInt(n)
    case Boolean(b) => VBool(b)
    case Null => VNull
    case OtherScalar(id) => eng.otherScalar(id)
  }

  function Eval(eng: Engine, e: Expr, row: Row): Value {
    match e
    case Column(name) => if name in row then row[name] else VNull
    case Literal(s) => ScalarValue(eng, s)
    case Binary(l, op, r) =>
      var a, b := Eval(eng, l, row), Eval(eng, r, row);
      (match op
       case And => And3(a, b)
       case Or => Or3(a, b)
       case OtherOp(id) => eng.otherOp(id, a, b)
       case _ => Compare(eng, op, a, b))
    case Not(x) => Not3(Eval(eng, x, row))
    case IsNull(x) => VBool(Eval(eng, x, row) == VNull)
    case IsNotNull(x) => VBool(Eval(eng, x, row) != VNull)
    case OtherExpr(id) => eng.otherExpr(id, row)
  }

  /** A column has the value the row gives it, whatever the other columns hold, and is null if the row
      gives it none. A literal stands for a value of its own, and for null only if it is the null. */
  lemma {:induction false} AtomLaws(eng: Engine, row: Row, name: string, other: string, v: Value, a: Scalar, b: Scalar)
    ensures Eval(eng, Column(name), row[name := v]) == v && Eval(eng, Column(name), row - {name}) == VNull
    ensures other != name ==> Eval(eng, Column(name), row[other := v]) == Eval(eng, Column(name), row)
    ensures !a.OtherScalar? && !b.OtherScalar? ==>
              (Eval(eng, Literal(a), row) == Eval(eng, Literal(b), row) <==> a == b) &&
              (Eval(eng, Literal(a), row) == VNull <==> a == Null)
    ensures Eval(eng, IsNull(Column(name)), row[name := v]) == VBool(v == VNull)
    ensures Eval(eng, IsNotNull(Column(name)), row[name := v]) == VBool(v != VNull)
  {
  }

  predicate Keeps(eng: Engine, e: Expr, row: Row) {
    Eval(eng, e, row) == VBool(true)
  }
}
