/** A grammar for the SQL fragments a plan and a bundle both state, with a printer that writes no
    parentheses but those of the fragment, PostgreSQL's operator precedence (section 4.1.6 of the
    PostgreSQL manual), and a NULL-aware meaning. It is the yardstick the comparator is measured
    against: nothing here is part of the comparator. */
module Grammar {
  import opened Prelude
  import opened Lexer
  import opened LexerLaws
  import opened Passes
  import opened PassesLaws

  datatype Expr =
    | Column(name: string)
    | Qualified(table: string, name: string)
    | Literal(token: string)
    | Call(fn: string, args: List)
    | Prefix(op: string, operand: Expr)
    | Binary(op: string, left: Expr, right: Expr)
    | In(item: Expr, first: Expr, more: List)
    | Cast(expr: Expr, kind: string, precision: List)
    | Group(inner: Expr)

  datatype List = Nil | Cons(head: Expr, tail: List)

  /** A fragment as it is written: an expression, perhaps with an output alias. */
  datatype Fragment = Fragment(expr: Expr, alias: Option<string>)

  // ---------------------------------------------------------------- tokens

  const RESERVED := {"in", "as", "and", "or", "not"}
  const PREFIXES := {"not", "-"}
  const OPERATORS := {"+", "-", "*", "/", "%", "||", "=", "<>", "!=", "<", "<=", ">", ">=", "and", "or"}

  /** A word that is no keyword. */
  predicate IsWordToken(t: string) {
    IsName(t) && t !in RESERVED
  }

  /** A number, or quoted text: a literal or a quoted identifier. */
  predicate IsLiteral(t: string) {
    t != "" && (IsDigit(t[0]) || IsData(t))
  }

  /** The expression is made of words, literals and operators where the grammar wants them. */
  predicate Shaped(e: Expr) {
    match e
    case Column(name) => IsWordToken(name)
    case Qualified(table, name) => IsWordToken(table) && IsWordToken(name)
    case Literal(token) => IsLiteral(token)
    case Call(fn, args) => IsWordToken(fn) && ShapedList(args)
    case Prefix(op, operand) => op in PREFIXES && Shaped(operand)
    case Binary(op, left, right) => op in OPERATORS && Shaped(left) && Shaped(right)
    case In(item, first, more) => Shaped(item) && Shaped(first) && ShapedList(more)
    case Cast(expr, kind, precision) => Shaped(expr) && IsWordToken(kind) && ShapedList(precision)
    case Group(inner) => Shaped(inner)
  }

  predicate ShapedList(l: List) {
    l.Cons? ==> Shaped(l.head) && ShapedList(l.tail)
  }

  // ---------------------------------------------------------------- precedence

  const CAST_LEVEL := 10
  const IN_LEVEL := 5
  const EQUALS_LEVEL := 4
  const TOP_LEVEL := 11

  /** How tightly an operator between two operands binds. */
  function Level(op: string): int {
    if op == "or" then 1
    else if op == "and" then 2
    else if op in {"=", "<>", "!=", "<", "<=", ">", ">="} then EQUALS_LEVEL
    else if op == "||" then 6
    else if op == "+" || op == "-" then 7
    else 8
  }

  function PrefixLevel(op: string): int {
    if op == "not" then 3 else 9
  }

  function Least(a: int, b: int): int {
    if a < b then a else b
  }

  /** The loosest operator that an operator written before the expression would compete with. */
  function LeftLevel(e: Expr): int {
    match e
    case Binary(op, left, _) => Least(Level(op), LeftLevel(left))
    case In(item, _, _) => Least(IN_LEVEL, LeftLevel(item))
    case Cast(expr, _, _) => Least(CAST_LEVEL, LeftLevel(expr))
    case _ => TOP_LEVEL
  }

  /** The loosest operator that an operator written after the expression would compete with. A
      membership and a cast end by themselves. */
  function RightLevel(e: Expr): int {
    match e
    case Prefix(op, operand) => Least(PrefixLevel(op), RightLevel(operand))
    case Binary(op, _, right) => Least(Level(op), RightLevel(right))
    case _ => TOP_LEVEL
  }

  /** The tree is the one that precedence reads from its own printing: every parenthesis it needs, it
      has. Operators of one level associate to the left. */
  predicate Fits(e: Expr) {
    match e
    case Column(_) => true
    case Qualified(_, _) => true
    case Literal(_) => true
    case Call(_, args) => FitsList(args)
    case Prefix(op, operand) => Fits(operand) && PrefixLevel(op) < LeftLevel(operand)
    case Binary(op, left, right) => Fits(left) && Fits(right) && Level(op) <= RightLevel(left) && Level(op) < LeftLevel(right)
    case In(item, first, more) => Fits(item) && Fits(first) && FitsList(more) && IN_LEVEL <= RightLevel(item)
    case Cast(expr, _, precision) => Fits(expr) && FitsList(precision) && CAST_LEVEL <= RightLevel(expr)
    case Group(inner) => Fits(inner)
  }

  predicate FitsList(l: List) {
    l.Cons? ==> Fits(l.head) && FitsList(l.tail)
  }

  // ---------------------------------------------------------------- printing

  /** The tokens of `e`, followed by the tokens `k`. */
  function Put(e: Expr, k: seq<string>): seq<string>
    decreases e, 1
  {
    match e
    case Column(name) => [name] + k
    case Qualified(table, name) => [table, ".", name] + k
    case Literal(token) => [token] + k
    case Call(fn, args) => [fn, "("] + PutList(args, [")"] + k)
    case Prefix(op, operand) => [op] + Put(operand, k)
    case Binary(op, left, right) => Put(left, [op] + Put(right, k))
    case In(item, first, more) => Put(item, ["in", "("] + Put(first, PutTail(more, [")"] + k)))
    case Cast(expr, kind, precision) => Put(expr, ["::", kind] + PutPrecision(precision, k))
    case Group(inner) => ["("] + Put(inner, [")"] + k)
  }

  function PutList(l: List, k: seq<string>): seq<string>
    decreases l, 2
  {
    match l
    case Nil => k
    case Cons(head, tail) => Put(head, PutTail(tail, k))
  }

  function PutTail(l: List, k: seq<string>): seq<string>
    decreases l, 2
  {
    match l
    case Nil => k
    case Cons(head, tail) => [","] + Put(head, PutTail(tail, k))
  }

  function PutPrecision(l: List, k: seq<string>): seq<string>
    decreases l, 3
  {
    if l.Nil? then k else ["("] + PutList(l, [")"] + k)
  }

  function Print(e: Expr): seq<string> {
    Put(e, [])
  }

  function PrintFragment(f: Fragment): seq<string> {
    Print(f.expr) + (if f.alias.Some? then ["as", f.alias.value] else [])
  }

  /** `source` is some way of writing `f`: any spacing, any letter case outside quotes. */
  predicate Spells(source: string, f: Fragment) {
    Lex(source) == PrintFragment(f)
  }

  /** A fragment that reads as it is meant. */
  predicate IsFragment(f: Fragment) {
    Shaped(f.expr) && Fits(f.expr) && (f.alias.Some? ==> IsName(f.alias.value))
  }

  // ---------------------------------------------------------------- meaning

  datatype Value = Null | Bool(b: bool) | Num(n: int) | Text(s: string)

  /** What the warehouse supplies: columns, literals, functions, casts, negation, and every operator
      but equality and the logical ones. */
  datatype Warehouse = Warehouse(
    column: string -> Value,
    qualified: (string, string) -> Value,
    literal: string -> Value,
    call: (string, seq<Value>) -> Value,
    cast: (Value, string, seq<Value>) -> Value,
    negative: Value -> Value,
    operator: (string, Value, Value) -> Value)

  /** SQL equality: unknown as soon as one side is NULL. */
  function Equals(a: Value, b: Value): Value {
    if a.Null? || b.Null? then Null else Bool(a == b)
  }

  function Or(a: Value, b: Value): Value {
    if a == Bool(true) || b == Bool(true) then Bool(true)
    else if a.Null? || b.Null? then Null
    else Bool(false)
  }

  function And(a: Value, b: Value): Value {
    if a == Bool(false) || b == Bool(false) then Bool(false)
    else if a.Null? || b.Null? then Null
    else Bool(true)
  }

  function Not(a: Value): Value {
    if a.Null? then Null else Bool(a != Bool(true))
  }

  function Apply(w: Warehouse, op: string, a: Value, b: Value): Value {
    if op == "=" then Equals(a, b)
    else if op == "and" then And(a, b)
    else if op == "or" then Or(a, b)
    else w.operator(op, a, b)
  }

  /** SQL membership: equal to one, else unknown if any comparison is, else false. */
  function Member(v: Value, values: seq<Value>): Value {
    if values == [] then Bool(false) else Or(Equals(v, values[0]), Member(v, values[1..]))
  }

  function Eval(w: Warehouse, e: Expr): Value
    decreases e
  {
    match e
    case Column(name) => w.column(name)
    case Qualified(table, name) => w.qualified(table, name)
    case Literal(token) => w.literal(token)
    case Call(fn, args) => w.call(fn, EvalList(w, args))
    case Prefix(op, operand) => if op == "not" then Not(Eval(w, operand)) else w.negative(Eval(w, operand))
    case Binary(op, left, right) => Apply(w, op, Eval(w, left), Eval(w, right))
    case In(item, first, more) => Member(Eval(w, item), [Eval(w, first)] + EvalList(w, more))
    case Cast(expr, kind, precision) => w.cast(Eval(w, expr), kind, EvalList(w, precision))
    case Group(inner) => Eval(w, inner)
  }

  function EvalList(w: Warehouse, l: List): seq<Value>
    decreases l
  {
    match l
    case Nil => []
    case Cons(head, tail) => [Eval(w, head)] + EvalList(w, tail)
  }

  // ---------------------------------------------------------------- normal forms

  predicate OneToken(e: Expr) {
    e.Column? || e.Literal?
  }

  /** A membership in a list of one token. */
  predicate IsOneValue(e: Expr) {
    e.In? && OneToken(e.first) && e.more.Nil?
  }

  /** Membership in a one-token list, written as the equality it means. */
  function Normal(e: Expr): Expr
    decreases e
  {
    match e
    case Call(fn, args) => Call(fn, NormalList(args))
    case Prefix(op, operand) => Prefix(op, Normal(operand))
    case Binary(op, left, right) => Binary(op, Normal(left), Normal(right))
    case In(item, first, more) =>
      if OneToken(first) && more.Nil? then Binary("=", Normal(item), first)
      else In(Normal(item), Normal(first), NormalList(more))
    case Cast(expr, kind, precision) => Cast(Normal(expr), kind, NormalList(precision))
    case Group(inner) => Group(Normal(inner))
    case _ => e
  }

  function NormalList(l: List): List
    decreases l
  {
    match l
    case Nil => Nil
    case Cons(head, tail) => Cons(Normal(head), NormalList(tail))
  }

  /** The expression ends with a membership in a list of one token. */
  predicate EndsFolded(e: Expr) {
    match e
    case Prefix(_, operand) => EndsFolded(operand)
    case Binary(_, _, right) => EndsFolded(right)
    case _ => IsOneValue(e)
  }

  /** The expression starts with the item of a membership in a list of one token. */
  predicate StartsFolded(e: Expr) {
    match e
    case Binary(_, left, _) => StartsFolded(left)
    case In(item, _, _) => IsOneValue(e) || StartsFolded(item)
    case Cast(expr, _, _) => StartsFolded(expr)
    case _ => false
  }

  /** No list of one token is followed by an operator that binds tighter than the equality it is
      folded to, and no comparison stands right before its item. */
  predicate Safe(e: Expr) {
    match e
    case Column(_) => true
    case Qualified(_, _) => true
    case Literal(_) => true
    case Call(_, args) => SafeList(args)
    case Prefix(_, operand) => Safe(operand)
    case Binary(op, left, right) =>
      && Safe(left) && Safe(right)
      && (Level(op) > EQUALS_LEVEL ==> !EndsFolded(left))
      && (Level(op) == EQUALS_LEVEL ==> !StartsFolded(right))
    case In(item, first, more) => Safe(item) && Safe(first) && SafeList(more) && (!IsOneValue(e) ==> !EndsFolded(item))
    case Cast(expr, _, precision) => Safe(expr) && SafeList(precision) && !EndsFolded(expr)
    case Group(inner) => Safe(inner)
  }

  predicate SafeList(l: List) {
    l.Cons? ==> Safe(l.head) && SafeList(l.tail)
  }

  /** The expression under its redundant outer parentheses. */
  function Peel(e: Expr): (r: Expr)
    ensures !r.Group?
  {
    if e.Group? then Peel(e.inner) else e
  }

  /** Qualifiers forgotten. */
  function Bare(e: Expr): Expr
    decreases e
  {
    match e
    case Column(_) => e
    case Literal(_) => e
    case Qualified(_, name) => Column(name)
    case Call(fn, args) => Call(fn, BareList(args))
    case Prefix(op, operand) => Prefix(op, Bare(operand))
    case Binary(op, left, right) => Binary(op, Bare(left), Bare(right))
    case In(item, first, more) => In(Bare(item), Bare(first), BareList(more))
    case Cast(expr, kind, precision) => Cast(Bare(expr), kind, BareList(precision))
    case Group(inner) => Group(Bare(inner))
  }

  function BareList(l: List): List
    decreases l
  {
    match l
    case Nil => Nil
    case Cons(head, tail) => Cons(Bare(head), BareList(tail))
  }

  /** Casts forgotten; parentheses that were written for one stay. */
  function Uncast(e: Expr): Expr
    decreases e
  {
    match e
    case Call(fn, args) => Call(fn, UncastList(args))
    case Prefix(op, operand) => Prefix(op, Uncast(operand))
    case Binary(op, left, right) => Binary(op, Uncast(left), Uncast(right))
    case In(item, first, more) => In(Uncast(item), Uncast(first), UncastList(more))
    case Cast(expr, _, _) => Uncast(expr)
    case Group(inner) => Group(Uncast(inner))
    case _ => e
  }

  function UncastList(l: List): List
    decreases l
  {
    match l
    case Nil => Nil
    case Cons(head, tail) => Cons(Uncast(head), UncastList(tail))
  }
}
