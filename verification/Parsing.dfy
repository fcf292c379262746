/** Reading a fragment by precedence, and that reading undoes printing: a tree is read back from its
    own tokens exactly when every parenthesis it needs is there. */
module Parsing {
  import opened Prelude
  import opened Lexer
  import opened LexerLaws
  import opened Passes
  import opened PassesLaws
  import opened Grammar

  // ---------------------------------------------------------------- the reader

  datatype Parsed = Failed | Read(expr: Expr, rest: seq<string>)

  datatype ParsedList = NoList | ReadList(list: List, rest: seq<string>)

  /** A name, a literal, a call, a prefixed or parenthesised expression. */
  function ParsePrimary(ts: seq<string>): (r: Parsed)
    ensures r.Read? ==> |r.rest| < |ts|
    decreases |ts|, 0
  {
    if ts == [] then Failed
    else if ts[0] == "(" then
      match ParseExpr(ts[1..], 0)
      case Failed => Failed
      case Read(e, rest) => if rest != [] && rest[0] == ")" then Read(Group(e), rest[1..]) else Failed
    else if ts[0] in PREFIXES then
      match ParseExpr(ts[1..], PrefixLevel(ts[0]))
      case Failed => Failed
      case Read(e, rest) => Read(Prefix(ts[0], e), rest)
    else if IsWordToken(ts[0]) then ParseNamed(ts)
    else if IsLiteral(ts[0]) then Read(Literal(ts[0]), ts[1..])
    else Failed
  }

  function ParseNamed(ts: seq<string>): (r: Parsed)
    requires ts != []
    ensures r.Read? ==> |r.rest| < |ts|
    decreases |ts|, -1
  {
    if 2 <= |ts| && ts[1] == "(" then
      match ParseArgs(ts[2..])
      case NoList => Failed
      case ReadList(args, rest) => Read(Call(ts[0], args), rest)
    else if 3 <= |ts| && ts[1] == "." && IsWordToken(ts[2]) then Read(Qualified(ts[0], ts[2]), ts[3..])
    else Read(Column(ts[0]), ts[1..])
  }

  /** An expression none of whose open operators binds looser than, or like, `low`. */
  function ParseExpr(ts: seq<string>, low: int): (r: Parsed)
    ensures r.Read? ==> |r.rest| < |ts|
    decreases |ts|, 1
  {
    match ParsePrimary(ts)
    case Failed => Failed
    case Read(e, rest) => Climb(e, rest, low)
  }

  /** What `left` goes on to be. */
  function Climb(left: Expr, ts: seq<string>, low: int): (r: Parsed)
    ensures r.Read? ==> |r.rest| <= |ts|
    decreases |ts|, 2
  {
    if ts == [] || NextLevel(ts) <= low then Read(left, ts)
    else if ts[0] in OPERATORS then
      match ParseExpr(ts[1..], Level(ts[0]))
      case Failed => Failed
      case Read(right, rest) => Climb(Binary(ts[0], left, right), rest, low)
    else if ts[0] == "in" then
      if 2 <= |ts| && ts[1] == "(" then
        match ParseArgs(ts[2..])
        case NoList => Failed
        case ReadList(values, rest) => if values.Cons? then Climb(In(left, values.head, values.tail), rest, low) else Failed
      else Failed
    else ParseCast(left, ts, low)
  }

  function ParseCast(left: Expr, ts: seq<string>, low: int): (r: Parsed)
    requires ts != []
    ensures r.Read? ==> |r.rest| <= |ts|
    decreases |ts|, 1
  {
    if |ts| < 2 || !IsWordToken(ts[1]) then Failed
    else if 3 <= |ts| && ts[2] == "(" then
      match ParseArgs(ts[3..])
      case NoList => Failed
      case ReadList(precision, rest) => if precision.Cons? then Climb(Cast(left, ts[1], precision), rest, low) else Failed
    else Climb(Cast(left, ts[1], Nil), ts[2..], low)
  }

  /** Arguments up to and with the closing parenthesis. */
  function ParseArgs(ts: seq<string>): (r: ParsedList)
    ensures r.ReadList? ==> |r.rest| < |ts|
    decreases |ts|, 3
  {
    if ts == [] then NoList
    else if ts[0] == ")" then ReadList(Nil, ts[1..])
    else ParseItems(ts)
  }

  function ParseItems(ts: seq<string>): (r: ParsedList)
    ensures r.ReadList? ==> |r.rest| < |ts| && r.list.Cons?
    decreases |ts|, 2
  {
    match ParseExpr(ts, 0)
    case Failed => NoList
    case Read(head, rest) =>
      if rest == [] then NoList
      else if rest[0] == ")" then ReadList(Cons(head, Nil), rest[1..])
      else if rest[0] == "," then
        match ParseItems(rest[1..])
        case NoList => NoList
        case ReadList(tail, later) => ReadList(Cons(head, tail), later)
      else NoList
  }

  /** How tightly the next token binds to what stands before it; 0 when it does not. */
  function NextLevel(ts: seq<string>): int {
    if ts == [] then 0
    else if ts[0] in OPERATORS then Level(ts[0])
    else if ts[0] == "in" then IN_LEVEL
    else if ts[0] == "::" then CAST_LEVEL
    else 0
  }

  /** The expression a text's tokens are, as a whole. */
  function Parse(ts: seq<string>): Option<Expr> {
    match ParseExpr(ts, 0)
    case Failed => None
    case Read(e, rest) => if rest == [] then Some(e) else None
  }

  // ---------------------------------------------------------------- reading what was printed

  /** What may follow an expression: nothing that would make it a call or a qualified name. */
  predicate Stops(k: seq<string>) {
    k == [] || (k[0] != "(" && k[0] != ".")
  }

  lemma LevelsAreLow(op: string)
    ensures 1 <= Level(op) <= 8 && 3 <= PrefixLevel(op) <= 9
  {
  }

  lemma {:induction false} LevelsArePositive(e: Expr)
    ensures 1 <= LeftLevel(e) <= TOP_LEVEL && 1 <= RightLevel(e) <= TOP_LEVEL
    decreases e
  {
    match e
    case Prefix(op, operand) => LevelsArePositive(operand); LevelsAreLow(op);
    case Binary(op, left, right) => LevelsArePositive(left); LevelsArePositive(right); LevelsAreLow(op);
    case In(item, _, _) => LevelsArePositive(item);
    case Cast(expr, _, _) => LevelsArePositive(expr);
    case _ =>
  }

  lemma WordIsNoOther(t: string)
    requires IsWordToken(t)
    ensures t != "(" && t != ")" && t != "," && t != "." && t != "::" && t != "in" && t != "as" && t !in PREFIXES && t !in OPERATORS
    ensures !IsLiteral(t)
  {
    assert TagLength(t) == 0;
  }

  lemma LiteralIsNoOther(t: string)
    requires IsLiteral(t)
    ensures t != "(" && t != ")" && t != "," && t != "." && t != "::" && t != "in" && t != "as" && t !in PREFIXES && t !in OPERATORS
    ensures !IsName(t)
  {
    if t in PREFIXES + OPERATORS + {"(", ")", ",", ".", "::", "in", "as"} {
      SymbolIsNoLiteral(t);
      assert false;
    }
  }

  lemma SymbolIsNoLiteral(t: string)
    requires t in PREFIXES + OPERATORS + {"(", ")", ",", ".", "::", "in", "as"}
    ensures !IsLiteral(t)
  {
    assert TagLength(t) == 0;
  }

  lemma OperatorIsNoOther(op: string)
    requires op in OPERATORS
    ensures op != "(" && op != ")" && op != "," && op != "." && op != "::" && op != "in" && op != "as"
  {
  }

  lemma OperatorFollows(op: string, k: seq<string>)
    requires op in OPERATORS
    ensures Stops([op] + k) && NextLevel([op] + k) == Level(op) && ([op] + k)[1..] == k
  {
    OperatorIsNoOther(op);
  }

  /** Precedence reads an expression back from its tokens, and goes on from there with what follows. */
  lemma {:induction false} ReadsBack(e: Expr, k: seq<string>, low: int)
    requires Shaped(e) && Fits(e) && low < LeftLevel(e)
    requires Stops(k) && NextLevel(k) <= RightLevel(e)
    ensures ParseExpr(Put(e, k), low) == Climb(e, k, low)
    decreases e, 4
  {
    match e
    case Column(name) => NameReadsBack(e, k);
    case Qualified(table, name) => NameReadsBack(e, k);
    case Literal(token) => LiteralReadsBack(token, k);
    case Call(fn, args) => CallReadsBack(fn, args, k);
    case Prefix(op, operand) => PrefixReadsBack(op, operand, k);
    case Binary(op, left, right) => BinaryReadsBack(e, k, low);
    case In(item, first, more) => InReadsBack(e, k, low);
    case Cast(expr, kind, precision) => CastReadsBack(e, k, low);
    case Group(inner) => GroupReadsBack(inner, k);
  }

  lemma NameReadsBack(e: Expr, k: seq<string>)
    requires Shaped(e) && (e.Column? || e.Qualified?) && Stops(k)
    ensures ParsePrimary(Put(e, k)) == Read(e, k)
  {
    var ts := Put(e, k);
    WordIsNoOther(ts[0]);
    if e.Column? {
      assert ts[1..] == k;
    } else {
      assert ts[3..] == k;
    }
  }

  lemma LiteralReadsBack(token: string, k: seq<string>)
    requires IsLiteral(token)
    ensures ParsePrimary([token] + k) == Read(Literal(token), k)
  {
    LiteralIsNoOther(token);
    assert ([token] + k)[1..] == k;
  }

  lemma {:induction false} CallReadsBack(fn: string, args: List, k: seq<string>)
    requires IsWordToken(fn) && ShapedList(args) && FitsList(args)
    ensures ParsePrimary([fn, "("] + PutList(args, [")"] + k)) == Read(Call(fn, args), k)
    decreases args, 6
  {
    var rest := PutList(args, [")"] + k);
    var ts := [fn, "("] + rest;
    WordIsNoOther(fn);
    ArgsReadBack(args, k);
    assert ts[2..] == rest;
  }

  lemma {:induction false} ArgsReadBack(l: List, k: seq<string>)
    requires ShapedList(l) && FitsList(l)
    ensures ParseArgs(PutList(l, [")"] + k)) == ReadList(l, k)
    decreases l, 5
  {
    if l.Nil? {
      assert ([")"] + k)[1..] == k;
    } else {
      FirstIsNoClose(l.head, PutTail(l.tail, [")"] + k));
      ItemsReadBack(l, k);
    }
  }

  lemma {:induction false} FirstIsNoClose(e: Expr, k: seq<string>)
    requires Shaped(e)
    ensures Put(e, k) != [] && Put(e, k)[0] != ")" && Put(e, k)[0] != "."
    decreases e
  {
    match e
    case Column(name) => WordIsNoOther(name);
    case Qualified(table, _) => WordIsNoOther(table);
    case Literal(token) => LiteralIsNoOther(token);
    case Call(fn, _) => WordIsNoOther(fn);
    case Prefix(_, _) =>
    case Binary(op, left, right) => FirstIsNoClose(left, [op] + Put(right, k));
    case In(item, first, more) => FirstIsNoClose(item, ["in", "("] + Put(first, PutTail(more, [")"] + k)));
    case Cast(expr, kind, precision) => FirstIsNoClose(expr, ["::", kind] + PutPrecision(precision, k));
    case Group(_) =>
  }

  lemma {:induction false} ItemsReadBack(l: List, k: seq<string>)
    requires l.Cons? && ShapedList(l) && FitsList(l)
    ensures ParseItems(PutList(l, [")"] + k)) == ReadList(l, k)
    decreases l, 4
  {
    var rest := PutTail(l.tail, [")"] + k);
    LevelsArePositive(l.head);
    ReadsBack(l.head, rest, 0);
    if l.tail.Nil? {
      assert rest[1..] == k;
    } else {
      ItemsReadBack(l.tail, k);
      assert rest == [","] + PutList(l.tail, [")"] + k);
      assert rest[1..] == PutList(l.tail, [")"] + k);
    }
  }

  lemma {:induction false} PrefixReadsBack(op: string, operand: Expr, k: seq<string>)
    requires op in PREFIXES && Shaped(operand) && Fits(Prefix(op, operand))
    requires Stops(k) && NextLevel(k) <= RightLevel(Prefix(op, operand))
    ensures ParsePrimary([op] + Put(operand, k)) == Read(Prefix(op, operand), k)
    decreases operand, 5
  {
    ReadsBack(operand, k, PrefixLevel(op));
    assert ([op] + Put(operand, k))[1..] == Put(operand, k);
  }

  lemma {:induction false} GroupReadsBack(inner: Expr, k: seq<string>)
    requires Shaped(inner) && Fits(inner)
    ensures ParsePrimary(["("] + Put(inner, [")"] + k)) == Read(Group(inner), k)
    decreases inner, 5
  {
    LevelsArePositive(inner);
    ReadsBack(inner, [")"] + k, 0);
    assert (["("] + Put(inner, [")"] + k))[1..] == Put(inner, [")"] + k);
    assert ([")"] + k)[1..] == k;
  }

  lemma {:induction false} BinaryReadsBack(e: Expr, k: seq<string>, low: int)
    requires e.Binary? && Shaped(e) && Fits(e) && low < LeftLevel(e)
    requires Stops(k) && NextLevel(k) <= RightLevel(e)
    ensures ParseExpr(Put(e, k), low) == Climb(e, k, low)
    decreases e, 3
  {
    var later := [e.op] + Put(e.right, k);
    OperatorFollows(e.op, Put(e.right, k));
    ReadsBack(e.left, later, low);
    ReadsBack(e.right, k, Level(e.op));
    ClimbOperator(e, later, k, low);
  }

  lemma ClimbOperator(e: Expr, later: seq<string>, k: seq<string>, low: int)
    requires e.Binary? && e.op in OPERATORS && later != [] && later[0] == e.op && low < Level(e.op)
    requires ParseExpr(later[1..], Level(e.op)) == Climb(e.right, k, Level(e.op)) && NextLevel(k) <= Level(e.op)
    ensures Climb(e.left, later, low) == Climb(e, k, low)
  {
    assert Climb(e.right, k, Level(e.op)) == Read(e.right, k);
  }

  lemma {:induction false} InReadsBack(e: Expr, k: seq<string>, low: int)
    requires e.In? && Shaped(e) && Fits(e) && low < LeftLevel(e) && Stops(k)
    ensures ParseExpr(Put(e, k), low) == Climb(e, k, low)
    decreases e, 3
  {
    var values := Cons(e.first, e.more);
    var later := ["in", "("] + PutList(values, [")"] + k);
    ReadsBack(e.item, later, low);
    ArgsReadBackOf(e, k);
    assert later[2..] == PutList(values, [")"] + k);
  }

  lemma {:induction false} ArgsReadBackOf(e: Expr, k: seq<string>)
    requires e.In? && Shaped(e) && Fits(e)
    ensures ParseArgs(PutList(Cons(e.first, e.more), [")"] + k)) == ReadList(Cons(e.first, e.more), k)
    decreases e, 2
  {
    var rest := PutTail(e.more, [")"] + k);
    FirstIsNoClose(e.first, rest);
    LevelsArePositive(e.first);
    ReadsBack(e.first, rest, 0);
    if e.more.Nil? {
      assert rest[1..] == k;
    } else {
      ItemsReadBack(e.more, k);
      assert rest == [","] + PutList(e.more, [")"] + k);
      assert rest[1..] == PutList(e.more, [")"] + k);
    }
  }

  lemma {:induction false} CastReadsBack(e: Expr, k: seq<string>, low: int)
    requires e.Cast? && Shaped(e) && Fits(e) && low < LeftLevel(e) && Stops(k)
    ensures ParseExpr(Put(e, k), low) == Climb(e, k, low)
    decreases e, 3
  {
    var later := ["::", e.kind] + PutPrecision(e.precision, k);
    ReadsBack(e.expr, later, low);
    if e.precision.Nil? {
      assert later[2..] == k;
    } else {
      ArgsReadBack(e.precision, k);
      assert later[3..] == PutList(e.precision, [")"] + k);
    }
  }

  /** A fragment's tokens have one reading, and it is the fragment. */
  lemma PrintReadsBack(e: Expr)
    requires Shaped(e) && Fits(e)
    ensures Parse(Print(e)) == Some(e)
  {
    LevelsArePositive(e);
    ReadsBack(e, [], 0);
  }

  /** Different trees that precedence can read have different tokens. */
  lemma PrintIsInjective(a: Expr, b: Expr)
    requires Shaped(a) && Fits(a) && Shaped(b) && Fits(b) && Print(a) == Print(b)
    ensures a == b
  {
    PrintReadsBack(a);
    PrintReadsBack(b);
  }

  // ---------------------------------------------------------------- what is read is what is printed

  /** The expression reads as its tokens say, up to where the next token binds no tighter than `low`
      or than anything open on its right. */
  predicate ReadsAs(ts: seq<string>, low: int, e: Expr, rest: seq<string>) {
    && Shaped(e) && Fits(e) && low < LeftLevel(e) && ts == Put(e, rest)
    && NextLevel(rest) <= low && NextLevel(rest) <= RightLevel(e)
  }

  predicate IsPrimary(ts: seq<string>, e: Expr, rest: seq<string>) {
    && Shaped(e) && Fits(e) && LeftLevel(e) == TOP_LEVEL && ts == Put(e, rest) && NextLevel(rest) <= RightLevel(e)
  }

  lemma NextIsLow(ts: seq<string>)
    ensures 0 <= NextLevel(ts) <= CAST_LEVEL
  {
  }

  lemma {:induction false} ReadExprIsPrinted(ts: seq<string>, low: int)
    requires ParseExpr(ts, low).Read? && 0 <= low < TOP_LEVEL
    ensures ReadsAs(ts, low, ParseExpr(ts, low).expr, ParseExpr(ts, low).rest)
    decreases |ts|, 1
  {
    var p := ParsePrimary(ts);
    ReadPrimaryIsPrinted(ts);
    ClimbedIsPrinted(p.expr, p.rest, low);
    assert ts == Put(p.expr, p.rest);
  }

  lemma {:induction false} ReadPrimaryIsPrinted(ts: seq<string>)
    requires ParsePrimary(ts).Read?
    ensures IsPrimary(ts, ParsePrimary(ts).expr, ParsePrimary(ts).rest)
    decreases |ts|, 0
  {
    NextIsLow(ParsePrimary(ts).rest);
    if ts[0] == "(" {
      var p := ParseExpr(ts[1..], 0);
      ReadExprIsPrinted(ts[1..], 0);
      assert p.rest == [")"] + p.rest[1..];
      assert ts == ["("] + ts[1..];
    } else if ts[0] in PREFIXES {
      LevelsAreLow(ts[0]);
      ReadExprIsPrinted(ts[1..], PrefixLevel(ts[0]));
      assert ts == [ts[0]] + ts[1..];
    } else if IsWordToken(ts[0]) {
      ReadNamedIsPrinted(ts);
    } else {
      assert ts == [ts[0]] + ts[1..];
    }
  }

  lemma {:induction false} ReadNamedIsPrinted(ts: seq<string>)
    requires ts != [] && IsWordToken(ts[0]) && ParseNamed(ts).Read?
    ensures IsPrimary(ts, ParseNamed(ts).expr, ParseNamed(ts).rest)
    decreases |ts|, -1
  {
    NextIsLow(ParseNamed(ts).rest);
    if 2 <= |ts| && ts[1] == "(" {
      ReadArgsArePrinted(ts[2..]);
      assert ts == [ts[0], "("] + ts[2..];
    } else if 3 <= |ts| && ts[1] == "." && IsWordToken(ts[2]) {
      assert ts == [ts[0], ".", ts[2]] + ts[3..];
    } else {
      assert ts == [ts[0]] + ts[1..];
    }
  }

  /** The list's tokens are read, the closing parenthesis with them. */
  predicate ListReadsAs(ts: seq<string>, l: List, rest: seq<string>) {
    ShapedList(l) && FitsList(l) && ts == PutList(l, [")"] + rest)
  }

  lemma {:induction false} ReadArgsArePrinted(ts: seq<string>)
    requires ParseArgs(ts).ReadList?
    ensures ListReadsAs(ts, ParseArgs(ts).list, ParseArgs(ts).rest)
    decreases |ts|, 3
  {
    if ts[0] == ")" {
      assert ts == [")"] + ts[1..];
    } else {
      ReadItemsArePrinted(ts);
    }
  }

  lemma {:induction false} ReadItemsArePrinted(ts: seq<string>)
    requires ParseItems(ts).ReadList?
    ensures ListReadsAs(ts, ParseItems(ts).list, ParseItems(ts).rest)
    decreases |ts|, 2
  {
    var p := ParseExpr(ts, 0);
    ReadExprIsPrinted(ts, 0);
    if p.rest[0] == ")" {
      assert p.rest == [")"] + p.rest[1..];
    } else {
      var l := ParseItems(p.rest[1..]);
      ReadItemsArePrinted(p.rest[1..]);
      assert p.rest == [","] + p.rest[1..];
      assert PutTail(l.list, [")"] + l.rest) == [","] + PutList(l.list, [")"] + l.rest);
    }
  }

  /** What `left` goes on to be is printed as `left` and what followed. */
  lemma {:induction false} ClimbedIsPrinted(left: Expr, ts: seq<string>, low: int)
    requires Shaped(left) && Fits(left) && 0 <= low < LeftLevel(left) && low < TOP_LEVEL && NextLevel(ts) <= RightLevel(left)
    requires Climb(left, ts, low).Read?
    ensures ReadsAs(Put(left, ts), low, Climb(left, ts, low).expr, Climb(left, ts, low).rest)
    decreases |ts|, 2
  {
    if ts != [] && NextLevel(ts) > low {
      if ts[0] in OPERATORS {
        ClimbedOperatorIsPrinted(left, ts, low);
      } else if ts[0] == "in" {
        ClimbedInIsPrinted(left, ts, low);
      } else {
        ClimbedCastIsPrinted(left, ts, low);
      }
    }
  }

  lemma {:induction false} ClimbedOperatorIsPrinted(left: Expr, ts: seq<string>, low: int)
    requires Shaped(left) && Fits(left) && 0 <= low < LeftLevel(left) && low < TOP_LEVEL && NextLevel(ts) <= RightLevel(left)
    requires ts != [] && ts[0] in OPERATORS && low < Level(ts[0]) && Climb(left, ts, low).Read?
    ensures ReadsAs(Put(left, ts), low, Climb(left, ts, low).expr, Climb(left, ts, low).rest)
    decreases |ts|, 1
  {
    var op := ts[0];
    LevelsAreLow(op);
    var p := ParseExpr(ts[1..], Level(op));
    ReadExprIsPrinted(ts[1..], Level(op));
    ClimbedIsPrinted(Binary(op, left, p.expr), p.rest, low);
    assert ts == [op] + ts[1..];
  }

  lemma {:induction false} ClimbedInIsPrinted(left: Expr, ts: seq<string>, low: int)
    requires Shaped(left) && Fits(left) && 0 <= low < LeftLevel(left) && low < TOP_LEVEL && NextLevel(ts) <= RightLevel(left)
    requires ts != [] && ts[0] == "in" && low < IN_LEVEL && Climb(left, ts, low).Read?
    ensures ReadsAs(Put(left, ts), low, Climb(left, ts, low).expr, Climb(left, ts, low).rest)
    decreases |ts|, 1
  {
    var l := ParseArgs(ts[2..]);
    ReadArgsArePrinted(ts[2..]);
    NextIsLow(l.rest);
    var e := In(left, l.list.head, l.list.tail);
    ClimbedIsPrinted(e, l.rest, low);
    assert ts == ["in", "("] + ts[2..];
    assert Put(e, l.rest) == Put(left, ts);
  }

  lemma {:induction false} ClimbedCastIsPrinted(left: Expr, ts: seq<string>, low: int)
    requires Shaped(left) && Fits(left) && 0 <= low < LeftLevel(left) && low < TOP_LEVEL && NextLevel(ts) <= RightLevel(left)
    requires ts != [] && ts[0] == "::" && low < CAST_LEVEL && ParseCast(left, ts, low).Read?
    ensures ReadsAs(Put(left, ts), low, ParseCast(left, ts, low).expr, ParseCast(left, ts, low).rest)
    decreases |ts|, 0
  {
    if 3 <= |ts| && ts[2] == "(" {
      var l := ParseArgs(ts[3..]);
      ReadArgsArePrinted(ts[3..]);
      NextIsLow(l.rest);
      var e := Cast(left, ts[1], l.list);
      ClimbedIsPrinted(e, l.rest, low);
      assert ts == ["::", ts[1]] + (["("] + ts[3..]);
      assert Put(e, l.rest) == Put(left, ts);
    } else {
      var e := Cast(left, ts[1], Nil);
      NextIsLow(ts[2..]);
      ClimbedIsPrinted(e, ts[2..], low);
      assert ts == ["::", ts[1]] + ts[2..];
      assert Put(e, ts[2..]) == Put(left, ts);
    }
  }

  /** Reading and printing are each other's inverse: a text reads as an expression exactly when the
      expression has every parenthesis it needs and is printed as that text. */
  lemma ReadsIffPrinted(ts: seq<string>, e: Expr)
    ensures Parse(ts) == Some(e) <==> Shaped(e) && Fits(e) && Print(e) == ts
  {
    if Parse(ts) == Some(e) {
      ReadExprIsPrinted(ts, 0);
    } else if Shaped(e) && Fits(e) && Print(e) == ts {
      PrintReadsBack(e);
    }
  }
}
