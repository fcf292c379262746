/** What the comparator's passes do to a printed fragment: the key of a fragment is its expression in
    normal form, printed, and reads as that exactly when no folded list stands where the equality
    binds differently. */
module Printed {
  import opened Prelude
  import opened Lexer
  import opened LexerLaws
  import opened Passes
  import opened PassesLaws
  import opened Grammar
  import opened Parsing

  // ---------------------------------------------------------------- printing and parentheses

  lemma {:induction false} PutAppends(e: Expr, k: seq<string>, j: seq<string>)
    ensures Put(e, k) + j == Put(e, k + j)
    decreases e, 1
  {
    match e
    case Column(_) =>
    case Qualified(_, _) =>
    case Literal(_) =>
    case Call(fn, args) =>
      ListAppends(args, [")"] + k, j);
      Regroup([")"], k, j);
    case Prefix(op, operand) => PutAppends(operand, k, j);
    case Binary(op, left, right) =>
      PutAppends(right, k, j);
      PutAppends(left, [op] + Put(right, k), j);
      Regroup([op], Put(right, k), j);
    case In(_, _, _) => InAppends(e, k, j);
    case Cast(expr, kind, precision) =>
      PrecisionAppends(precision, k, j);
      PutAppends(expr, ["::", kind] + PutPrecision(precision, k), j);
      Regroup(["::", kind], PutPrecision(precision, k), j);
    case Group(inner) =>
      PutAppends(inner, [")"] + k, j);
      Regroup([")"], k, j);
  }

  lemma Regroup(a: seq<string>, b: seq<string>, c: seq<string>)
    ensures a + b + c == a + (b + c)
  {
  }

  lemma {:induction false} InAppends(e: Expr, k: seq<string>, j: seq<string>)
    requires e.In?
    ensures Put(e, k) + j == Put(e, k + j)
    decreases e, 0
  {
    var tail := PutTail(e.more, [")"] + k);
    TailAppends(e.more, [")"] + k, j);
    Regroup([")"], k, j);
    PutAppends(e.first, tail, j);
    PutAppends(e.item, ["in", "("] + Put(e.first, tail), j);
    Regroup(["in", "("], Put(e.first, tail), j);
  }

  lemma {:induction false} PrecisionAppends(l: List, k: seq<string>, j: seq<string>)
    ensures PutPrecision(l, k) + j == PutPrecision(l, k + j)
    decreases l, 3
  {
    if l.Cons? {
      ListAppends(l, [")"] + k, j);
      Regroup([")"], k, j);
    }
  }

  lemma {:induction false} ListAppends(l: List, k: seq<string>, j: seq<string>)
    ensures PutList(l, k) + j == PutList(l, k + j)
    decreases l, 2
  {
    if l.Cons? {
      TailAppends(l.tail, k, j);
      PutAppends(l.head, PutTail(l.tail, k), j);
    }
  }

  lemma {:induction false} TailAppends(l: List, k: seq<string>, j: seq<string>)
    ensures PutTail(l, k) + j == PutTail(l, k + j)
    decreases l, 2
  {
    if l.Cons? {
      TailAppends(l.tail, k, j);
      PutAppends(l.head, PutTail(l.tail, k), j);
    }
  }

  lemma BalancedSkips(t: string, k: seq<string>, depth: nat)
    requires t != "(" && t != ")"
    ensures Balanced([t] + k, depth) == Balanced(k, depth)
  {
    assert ([t] + k)[1..] == k;
  }

  lemma BalancedSkipsTwo(s: string, t: string, k: seq<string>, depth: nat)
    requires s != "(" && s != ")" && t != "(" && t != ")"
    ensures Balanced([s, t] + k, depth) == Balanced(k, depth)
  {
    assert [s, t] + k == [s] + ([t] + k);
    BalancedSkips(s, [t] + k, depth);
    BalancedSkips(t, k, depth);
  }

  lemma BalancedOpens(t: string, k: seq<string>, depth: nat)
    requires t != "(" && t != ")"
    ensures Balanced([t, "("] + k, depth) == Balanced(k, depth + 1)
    ensures Balanced(["("] + k, depth) == Balanced(k, depth + 1)
  {
    assert [t, "("] + k == [t] + (["("] + k);
    BalancedSkips(t, ["("] + k, depth);
    assert (["("] + k)[1..] == k;
  }

  lemma BalancedCloses(k: seq<string>, depth: nat)
    ensures Balanced([")"] + k, depth + 1) == Balanced(k, depth)
  {
    assert ([")"] + k)[1..] == k;
  }

  lemma {:induction false} PutIsBalanced(e: Expr, k: seq<string>, depth: nat)
    requires Shaped(e)
    ensures Balanced(Put(e, k), depth) == Balanced(k, depth)
    decreases e, 1
  {
    match e
    case Column(name) =>
      WordIsNoOther(name);
      BalancedSkips(name, k, depth);
    case Qualified(table, name) =>
      WordIsNoOther(table);
      WordIsNoOther(name);
      assert Put(e, k) == [table, "."] + ([name] + k);
      BalancedSkipsTwo(table, ".", [name] + k, depth);
      BalancedSkips(name, k, depth);
    case Literal(token) =>
      LiteralIsNoOther(token);
      BalancedSkips(token, k, depth);
    case Call(fn, args) =>
      WordIsNoOther(fn);
      BalancedOpens(fn, PutList(args, [")"] + k), depth);
      ListIsBalanced(args, [")"] + k, depth + 1);
      BalancedCloses(k, depth);
    case Prefix(op, operand) =>
      BalancedSkips(op, Put(operand, k), depth);
      PutIsBalanced(operand, k, depth);
    case Binary(op, left, right) =>
      OperatorIsNoOther(op);
      PutIsBalanced(left, [op] + Put(right, k), depth);
      BalancedSkips(op, Put(right, k), depth);
      PutIsBalanced(right, k, depth);
    case In(item, first, more) =>
      InIsBalanced(e, k, depth);
    case Cast(expr, kind, precision) =>
      WordIsNoOther(kind);
      PutIsBalanced(expr, ["::", kind] + PutPrecision(precision, k), depth);
      BalancedSkipsTwo("::", kind, PutPrecision(precision, k), depth);
      PrecisionIsBalanced(precision, k, depth);
    case Group(inner) =>
      BalancedOpens("", Put(inner, [")"] + k), depth);
      PutIsBalanced(inner, [")"] + k, depth + 1);
      BalancedCloses(k, depth);
  }

  lemma {:induction false} InIsBalanced(e: Expr, k: seq<string>, depth: nat)
    requires e.In? && Shaped(e)
    ensures Balanced(Put(e, k), depth) == Balanced(k, depth)
    decreases e, 0
  {
    var tail := PutTail(e.more, [")"] + k);
    PutIsBalanced(e.item, ["in", "("] + Put(e.first, tail), depth);
    BalancedOpens("in", Put(e.first, tail), depth);
    PutIsBalanced(e.first, tail, depth + 1);
    TailIsBalanced(e.more, [")"] + k, depth + 1);
    BalancedCloses(k, depth);
  }

  lemma {:induction false} PrecisionIsBalanced(l: List, k: seq<string>, depth: nat)
    requires ShapedList(l)
    ensures Balanced(PutPrecision(l, k), depth) == Balanced(k, depth)
    decreases l, 3
  {
    if l.Cons? {
      BalancedOpens("", PutList(l, [")"] + k), depth);
      ListIsBalanced(l, [")"] + k, depth + 1);
      BalancedCloses(k, depth);
    }
  }

  lemma {:induction false} ListIsBalanced(l: List, k: seq<string>, depth: nat)
    requires ShapedList(l)
    ensures Balanced(PutList(l, k), depth) == Balanced(k, depth)
    decreases l, 2
  {
    if l.Cons? {
      PutIsBalanced(l.head, PutTail(l.tail, k), depth);
      TailIsBalanced(l.tail, k, depth);
    }
  }

  lemma {:induction false} TailIsBalanced(l: List, k: seq<string>, depth: nat)
    requires ShapedList(l)
    ensures Balanced(PutTail(l, k), depth) == Balanced(k, depth)
    decreases l, 2
  {
    if l.Cons? {
      BalancedSkips(",", Put(l.head, PutTail(l.tail, k)), depth);
      PutIsBalanced(l.head, PutTail(l.tail, k), depth);
      TailIsBalanced(l.tail, k, depth);
    }
  }

  // ---------------------------------------------------------------- outer parentheses

  lemma EnclosedCloses(body: seq<string>, k: seq<string>)
    requires Balanced(body, 0)
    ensures Close(["("] + (body + ([")"] + k)), 0) == Some(|body| + 1)
  {
    BodyCloses(body, [")"] + k);
    OpenedCloses(body + ([")"] + k), |body|);
  }

  lemma BodyCloses(body: seq<string>, rest: seq<string>)
    requires Balanced(body, 0) && rest != [] && rest[0] == ")"
    ensures Close(body + rest, 1) == Some(|body|)
  {
    CloseSkipsBalanced(body, rest, 1, 0);
  }

  lemma OpenedCloses(rest: seq<string>, at: nat)
    requires Close(rest, 1) == Some(at)
    ensures Close(["("] + rest, 0) == Some(at + 1)
  {
    assert (["("] + rest)[1..] == rest;
  }

  /** A parenthesised expression is one pair of parentheses around a matched body. */
  lemma GroupIsEnclosed(inner: Expr, k: seq<string>)
    requires Shaped(inner)
    ensures Put(Group(inner), k) == ["("] + (Print(inner) + ([")"] + k)) && Balanced(Print(inner), 0)
  {
    PutAppends(inner, [], [")"] + k);
    assert [] + ([")"] + k) == [")"] + k;
    PutIsBalanced(inner, [], 0);
  }

  /** A text that starts with a parenthesis starts with a parenthesised expression, which is all of it
      only when the expression is that. */
  lemma {:induction false} LeadingGroup(e: Expr, k: seq<string>) returns (inner: Expr, rest: seq<string>)
    requires Shaped(e) && Put(e, k) != [] && Put(e, k)[0] == "("
    ensures Shaped(inner) && Put(e, k) == Put(Group(inner), rest)
    ensures |k| <= |rest| && (!e.Group? ==> |k| < |rest|)
    decreases e
  {
    match e
    case Group(within) => inner, rest := within, k;
    case Binary(op, left, right) =>
      PutIsLonger(right, k);
      inner, rest := LeadingGroup(left, [op] + Put(right, k));
    case In(item, first, more) =>
      var tail := PutTail(more, [")"] + k);
      TailIsLonger(more, [")"] + k);
      PutIsLonger(first, tail);
      inner, rest := LeadingGroup(item, ["in", "("] + Put(first, tail));
    case Cast(expr, kind, precision) =>
      PrecisionIsLonger(precision, k);
      inner, rest := LeadingGroup(expr, ["::", kind] + PutPrecision(precision, k));
    case _ =>
      NoLeadingGroup(e, k);
      inner, rest := e, k;
  }

  lemma NoLeadingGroup(e: Expr, k: seq<string>)
    requires Shaped(e) && (e.Column? || e.Qualified? || e.Literal? || e.Call? || e.Prefix?)
    ensures Put(e, k)[0] != "("
  {
    match e
    case Column(name) => WordIsNoOther(name);
    case Qualified(table, _) => WordIsNoOther(table);
    case Literal(token) => LiteralIsNoOther(token);
    case Call(fn, _) => WordIsNoOther(fn);
    case _ =>
  }

  lemma {:induction false} PutIsLonger(e: Expr, k: seq<string>)
    ensures |k| < |Put(e, k)|
    decreases e, 1
  {
    match e
    case Call(_, args) => ListIsLonger(args, [")"] + k);
    case Prefix(_, operand) => PutIsLonger(operand, k);
    case Binary(op, left, right) => PutIsLonger(right, k); PutIsLonger(left, [op] + Put(right, k));
    case In(item, first, more) =>
      TailIsLonger(more, [")"] + k);
      PutIsLonger(first, PutTail(more, [")"] + k));
      PutIsLonger(item, ["in", "("] + Put(first, PutTail(more, [")"] + k)));
    case Cast(expr, kind, precision) => PrecisionIsLonger(precision, k); PutIsLonger(expr, ["::", kind] + PutPrecision(precision, k));
    case Group(inner) => PutIsLonger(inner, [")"] + k);
    case _ =>
  }

  lemma {:induction false} PrecisionIsLonger(l: List, k: seq<string>)
    ensures |k| <= |PutPrecision(l, k)|
    decreases l, 3
  {
    if l.Cons? {
      ListIsLonger(l, [")"] + k);
    }
  }

  lemma {:induction false} ListIsLonger(l: List, k: seq<string>)
    ensures |k| <= |PutList(l, k)|
    decreases l, 2
  {
    if l.Cons? {
      TailIsLonger(l.tail, k);
      PutIsLonger(l.head, PutTail(l.tail, k));
    }
  }

  lemma {:induction false} TailIsLonger(l: List, k: seq<string>)
    ensures |k| <= |PutTail(l, k)|
    decreases l, 2
  {
    if l.Cons? {
      TailIsLonger(l.tail, k);
      PutIsLonger(l.head, PutTail(l.tail, k));
    }
  }

  /** No pair of parentheses wraps an expression that is not parenthesised as a whole. */
  lemma PrintIsNotWrapped(e: Expr)
    requires Shaped(e) && !e.Group?
    ensures !Wrapped(Print(e))
  {
    var ts := Print(e);
    if 2 <= |ts| && ts[0] == "(" {
      var inner, rest := LeadingGroup(e, []);
      GroupIsEnclosed(inner, rest);
      EnclosedCloses(Print(inner), rest);
    }
  }

  lemma {:induction false} OuterParensOfPrinted(e: Expr)
    requires Shaped(e)
    ensures WithoutOuterParens(Print(e)) == Print(Peel(e))
    decreases e
  {
    if e.Group? {
      OuterParensOfPrinted(e.inner);
      GroupIsEnclosed(e.inner, []);
      PairComesOff(Print(e), Print(e.inner));
    } else {
      PrintIsNotWrapped(e);
    }
  }

  lemma PairComesOff(ts: seq<string>, body: seq<string>)
    requires ts == ["("] + (body + ([")"] + [])) && Balanced(body, 0)
    ensures WithoutOuterParens(ts) == WithoutOuterParens(body)
  {
    EnclosedCloses(body, []);
    OneLayer(body, ts);
    LayerComesOff(ts, body);
  }

  lemma OneLayer(body: seq<string>, ts: seq<string>)
    requires ts == ["("] + (body + ([")"] + []))
    ensures |ts| == |body| + 2 && ts[0] == "(" && ts[|ts| - 1] == ")" && ts[1..|ts| - 1] == body
  {
  }

  lemma LayerComesOff(ts: seq<string>, body: seq<string>)
    requires |ts| == |body| + 2 && Close(ts, 0) == Some(|body| + 1)
    requires ts[0] == "(" && ts[|ts| - 1] == ")" && ts[1..|ts| - 1] == body
    ensures WithoutOuterParens(ts) == WithoutOuterParens(body)
  {
  }

  // ---------------------------------------------------------------- the alias

  /** Printing an expression never writes the keyword of an output alias. */
  lemma {:induction false} PutHasNoAs(e: Expr, k: seq<string>)
    requires Shaped(e) && "as" !in k
    ensures "as" !in Put(e, k)
    decreases e, 1
  {
    match e
    case Column(_) =>
    case Qualified(_, _) =>
    case Literal(token) => LiteralIsNoOther(token);
    case Call(_, args) => ListHasNoAs(args, [")"] + k);
    case Prefix(_, operand) => PutHasNoAs(operand, k);
    case Binary(op, left, right) =>
      OperatorIsNoOther(op);
      PutHasNoAs(right, k);
      PutHasNoAs(left, [op] + Put(right, k));
    case In(_, _, _) => InHasNoAs(e, k);
    case Cast(expr, kind, precision) =>
      PrecisionHasNoAs(precision, k);
      PutHasNoAs(expr, ["::", kind] + PutPrecision(precision, k));
    case Group(inner) => PutHasNoAs(inner, [")"] + k);
  }

  lemma {:induction false} InHasNoAs(e: Expr, k: seq<string>)
    requires e.In? && Shaped(e) && "as" !in k
    ensures "as" !in Put(e, k)
    decreases e, 0
  {
    TailHasNoAs(e.more, [")"] + k);
    PutHasNoAs(e.first, PutTail(e.more, [")"] + k));
    PutHasNoAs(e.item, ["in", "("] + Put(e.first, PutTail(e.more, [")"] + k)));
  }

  lemma {:induction false} PrecisionHasNoAs(l: List, k: seq<string>)
    requires ShapedList(l) && "as" !in k
    ensures "as" !in PutPrecision(l, k)
    decreases l, 3
  {
    if l.Cons? {
      ListHasNoAs(l, [")"] + k);
    }
  }

  lemma {:induction false} ListHasNoAs(l: List, k: seq<string>)
    requires ShapedList(l) && "as" !in k
    ensures "as" !in PutList(l, k)
    decreases l, 2
  {
    if l.Cons? {
      TailHasNoAs(l.tail, k);
      PutHasNoAs(l.head, PutTail(l.tail, k));
    }
  }

  lemma {:induction false} TailHasNoAs(l: List, k: seq<string>)
    requires ShapedList(l) && "as" !in k
    ensures "as" !in PutTail(l, k)
    decreases l, 2
  {
    if l.Cons? {
      TailHasNoAs(l.tail, k);
      PutHasNoAs(l.head, PutTail(l.tail, k));
    }
  }

  lemma AliasOfPrinted(f: Fragment)
    requires Shaped(f.expr) && (f.alias.Some? ==> IsName(f.alias.value))
    ensures WithoutAlias(PrintFragment(f)) == Print(f.expr)
  {
    var head := Print(f.expr);
    PutIsBalanced(f.expr, [], 0);
    PutIsLonger(f.expr, []);
    PutHasNoAs(f.expr, []);
    if f.alias.Some? {
      assert PrintFragment(f)[..|head|] == head;
    } else {
      assert PrintFragment(f) == head;
    }
  }

  // ---------------------------------------------------------------- the fold of IN

  /** An expression of more than one token has a second token that closes nothing. */
  lemma {:induction false} LongerThanOneToken(e: Expr, k: seq<string>)
    requires Shaped(e) && !OneToken(e)
    ensures 1 < |Put(e, k)| && Put(e, k)[1] != ")"
    decreases e, 0
  {
    match e
    case Qualified(_, _) =>
    case Call(_, _) =>
    case Prefix(_, operand) => FirstIsNoClose(operand, k);
    case Binary(op, left, right) =>
      OperatorIsNoOther(op);
      SecondToken(left, op, Put(right, k));
    case In(item, first, more) => SecondToken(item, "in", ["("] + Put(first, PutTail(more, [")"] + k))); InTokens(e, k);
    case Cast(expr, kind, precision) => SecondToken(expr, "::", [kind] + PutPrecision(precision, k)); CastTokens(e, k);
    case Group(inner) => FirstIsNoClose(inner, [")"] + k);
    case _ =>
  }

  lemma {:induction false} SecondToken(e: Expr, t: string, k: seq<string>)
    requires Shaped(e) && t != ")"
    ensures 1 < |Put(e, [t] + k)| && Put(e, [t] + k)[1] != ")"
    decreases e, 1
  {
    if OneToken(e) {
      assert Put(e, [t] + k)[1] == t;
    } else {
      LongerThanOneToken(e, [t] + k);
    }
  }

  lemma InTokens(e: Expr, k: seq<string>)
    requires e.In?
    ensures Put(e, k) == Put(e.item, ["in"] + (["("] + Put(e.first, PutTail(e.more, [")"] + k))))
  {
    var rest := Put(e.first, PutTail(e.more, [")"] + k));
    assert ["in", "("] + rest == ["in"] + (["("] + rest);
  }

  lemma CastTokens(e: Expr, k: seq<string>)
    requires e.Cast?
    ensures Put(e, k) == Put(e.expr, ["::"] + ([e.kind] + PutPrecision(e.precision, k)))
  {
    var rest := PutPrecision(e.precision, k);
    assert ["::", e.kind] + rest == ["::"] + ([e.kind] + rest);
  }

  lemma FoldSkips(t: string, k: seq<string>)
    requires t != "in"
    ensures InAsEquals([t] + k) == [t] + InAsEquals(k)
  {
    assert ([t] + k)[1..] == k;
  }

  lemma FoldSkipsTwo(s: string, t: string, k: seq<string>)
    requires s != "in" && t != "in"
    ensures InAsEquals([s, t] + k) == [s, t] + InAsEquals(k)
  {
    assert [s, t] + k == [s] + ([t] + k);
    FoldSkips(s, [t] + k);
    FoldSkips(t, k);
    assert [s] + ([t] + InAsEquals(k)) == [s, t] + InAsEquals(k);
  }

  lemma FoldSkipsThree(a: string, b: string, c: string, k: seq<string>)
    requires a != "in" && b != "in" && c != "in"
    ensures InAsEquals([a, b, c] + k) == [a, b, c] + InAsEquals(k)
  {
    assert [a, b, c] + k == [a, b] + ([c] + k);
    FoldSkipsTwo(a, b, [c] + k);
    FoldSkips(c, k);
    assert [a, b] + ([c] + InAsEquals(k)) == [a, b, c] + InAsEquals(k);
  }

  /** Folding a printed expression prints its normal form. */
  lemma {:induction false} FoldOfPut(e: Expr, k: seq<string>)
    requires Shaped(e)
    ensures InAsEquals(Put(e, k)) == Put(Normal(e), InAsEquals(k))
    decreases e, 2
  {
    match e
    case Column(name) => FoldSkips(name, k);
    case Qualified(table, name) => FoldSkipsThree(table, ".", name, k);
    case Literal(token) =>
      LiteralIsNoOther(token);
      FoldSkips(token, k);
    case Call(fn, args) =>
      FoldSkipsTwo(fn, "(", PutList(args, [")"] + k));
      FoldOfList(args, [")"] + k);
      FoldSkips(")", k);
    case Prefix(op, operand) =>
      FoldSkips(op, Put(operand, k));
      FoldOfPut(operand, k);
    case Binary(op, left, right) =>
      OperatorIsNoOther(op);
      FoldOfPut(left, [op] + Put(right, k));
      FoldSkips(op, Put(right, k));
      FoldOfPut(right, k);
    case In(_, _, _) =>
      if IsOneValue(e) {
        FoldOfOneValue(e, k);
      } else {
        FoldOfIn(e, k);
      }
    case Cast(_, _, _) => FoldOfCast(e, k);
    case Group(inner) =>
      FoldSkips("(", Put(inner, [")"] + k));
      FoldOfPut(inner, [")"] + k);
      FoldSkips(")", k);
  }

  lemma {:induction false} FoldOfOneValue(e: Expr, k: seq<string>)
    requires Shaped(e) && IsOneValue(e)
    ensures InAsEquals(Put(e, k)) == Put(Normal(e), InAsEquals(k))
    decreases e, 1
  {
    FoldOfPut(e.item, ["in", "("] + Put(e.first, [")"] + k));
    OneValueFolds(e.first, k);
  }

  lemma OneValueFolds(first: Expr, k: seq<string>)
    requires OneToken(first)
    ensures InAsEquals(["in", "("] + Put(first, [")"] + k)) == ["="] + Put(first, InAsEquals(k))
  {
    var t := if first.Column? then first.name else first.token;
    OneValueTokens(t, k, ["in", "("] + ([t] + ([")"] + k)));
    assert ["=", t] + InAsEquals(k) == ["="] + ([t] + InAsEquals(k));
  }

  lemma OneValueTokens(t: string, k: seq<string>, ts: seq<string>)
    requires ts == ["in", "("] + ([t] + ([")"] + k))
    ensures InAsEquals(ts) == ["=", t] + InAsEquals(k)
  {
    assert ts[2] == t && ts[3] == ")" && ts[4..] == k;
  }

  lemma {:induction false} FoldOfIn(e: Expr, k: seq<string>)
    requires e.In? && Shaped(e) && !IsOneValue(e)
    ensures InAsEquals(Put(e, k)) == Put(Normal(e), InAsEquals(k))
    decreases e, 1
  {
    var rest := Put(e.first, PutTail(e.more, [")"] + k));
    FoldOfPut(e.item, ["in", "("] + rest);
    SeveralValuesStay(e.first, e.more, k);
    FoldOfPut(e.first, PutTail(e.more, [")"] + k));
    FoldOfTail(e.more, [")"] + k);
    FoldSkips(")", k);
  }

  lemma SeveralValuesStay(first: Expr, more: List, k: seq<string>)
    requires Shaped(first) && !(OneToken(first) && more.Nil?)
    ensures var rest := Put(first, PutTail(more, [")"] + k));
            InAsEquals(["in", "("] + rest) == ["in", "("] + InAsEquals(rest)
  {
    var tail := PutTail(more, [")"] + k);
    if OneToken(first) {
      assert tail[0] == "," && Put(first, tail)[1] == tail[0];
    } else {
      LongerThanOneToken(first, tail);
    }
    OpenListStays(Put(first, tail));
  }

  lemma OpenListStays(rest: seq<string>)
    requires 1 < |rest| && rest[1] != ")"
    ensures InAsEquals(["in", "("] + rest) == ["in", "("] + InAsEquals(rest)
  {
    OpenListIsNoValue(rest, ["in", "("] + rest);
    FoldTakesTwo(["in", "("] + rest, "in", "(", rest);
  }

  lemma FoldTakesTwo(ts: seq<string>, first: string, second: string, rest: seq<string>)
    requires !OneValueIn(ts) && second != "in" && ts == [first] + ([second] + rest)
    ensures InAsEquals(ts) == [first, second] + InAsEquals(rest)
  {
    FoldTakesFirst(ts, first, [second] + rest);
    FoldTakesFirst([second] + rest, second, rest);
  }

  lemma OpenListIsNoValue(rest: seq<string>, ts: seq<string>)
    requires 1 < |rest| && rest[1] != ")" && ts == ["in", "("] + rest
    ensures !OneValueIn(ts) && ts == ["in"] + (["("] + rest)
  {
    assert ts[3] == rest[1];
  }

  lemma FoldTakesFirst(ts: seq<string>, first: string, rest: seq<string>)
    requires !OneValueIn(ts) && ts == [first] + rest
    ensures InAsEquals(ts) == [first] + InAsEquals(rest)
  {
    assert ts[1..] == rest;
  }

  lemma {:induction false} FoldOfCast(e: Expr, k: seq<string>)
    requires e.Cast? && Shaped(e)
    ensures InAsEquals(Put(e, k)) == Put(Normal(e), InAsEquals(k))
    decreases e, 1
  {
    FoldOfPut(e.expr, ["::", e.kind] + PutPrecision(e.precision, k));
    FoldSkipsTwo("::", e.kind, PutPrecision(e.precision, k));
    if e.precision.Cons? {
      FoldSkips("(", PutList(e.precision, [")"] + k));
      FoldOfList(e.precision, [")"] + k);
      FoldSkips(")", k);
    }
  }

  lemma {:induction false} FoldOfList(l: List, k: seq<string>)
    requires ShapedList(l)
    ensures InAsEquals(PutList(l, k)) == PutList(NormalList(l), InAsEquals(k))
    decreases l, 2
  {
    if l.Cons? {
      FoldOfPut(l.head, PutTail(l.tail, k));
      FoldOfTail(l.tail, k);
    }
  }

  lemma {:induction false} FoldOfTail(l: List, k: seq<string>)
    requires ShapedList(l)
    ensures InAsEquals(PutTail(l, k)) == PutTail(NormalList(l), InAsEquals(k))
    decreases l, 2
  {
    if l.Cons? {
      FoldSkips(",", Put(l.head, PutTail(l.tail, k)));
      FoldOfPut(l.head, PutTail(l.tail, k));
      FoldOfTail(l.tail, k);
    }
  }

  // ---------------------------------------------------------------- the key

  lemma {:induction false} NormalIsShaped(e: Expr)
    requires Shaped(e)
    ensures Shaped(Normal(e))
    decreases e
  {
    match e
    case Call(fn, args) => NormalListIsShaped(args);
    case Prefix(_, operand) => NormalIsShaped(operand);
    case Binary(op, left, right) => NormalIsShaped(left); NormalIsShaped(right);
    case In(item, first, more) => NormalIsShaped(item); NormalIsShaped(first); NormalListIsShaped(more);
    case Cast(expr, _, precision) => NormalIsShaped(expr); NormalListIsShaped(precision);
    case Group(inner) => NormalIsShaped(inner);
    case _ =>
  }

  lemma {:induction false} NormalListIsShaped(l: List)
    requires ShapedList(l)
    ensures ShapedList(NormalList(l))
    decreases l
  {
    if l.Cons? {
      NormalIsShaped(l.head);
      NormalListIsShaped(l.tail);
    }
  }

  lemma {:induction false} PeelKeeps(e: Expr)
    ensures Shaped(e) ==> Shaped(Peel(e))
    ensures Fits(e) ==> Fits(Peel(e))
    ensures Safe(e) <==> Safe(Peel(e))
    ensures Peel(Normal(e)) == Normal(Peel(e))
    decreases e
  {
    if e.Group? {
      PeelKeeps(e.inner);
    }
  }

  /** The key of a fragment: its expression in normal form, without outer parentheses, printed. */
  lemma KeyOfPrinted(f: Fragment)
    requires Shaped(f.expr) && (f.alias.Some? ==> IsName(f.alias.value))
    ensures CanonicalTokens(PrintFragment(f)) == Print(Normal(Peel(f.expr)))
  {
    AliasOfPrinted(f);
    OuterParensOfPrinted(f.expr);
    PeelKeeps(f.expr);
    FoldOfPut(Peel(f.expr), []);
  }

  // ---------------------------------------------------------------- the key of a key

  lemma {:induction false} NormalIsStable(e: Expr)
    ensures Normal(Normal(e)) == Normal(e)
    decreases e
  {
    match e
    case Call(fn, args) => NormalListIsStable(args);
    case Prefix(_, operand) => NormalIsStable(operand);
    case Binary(op, left, right) => NormalIsStable(left); NormalIsStable(right);
    case In(item, first, more) => NormalIsStable(item); NormalIsStable(first); NormalListIsStable(more);
    case Cast(expr, _, precision) => NormalIsStable(expr); NormalListIsStable(precision);
    case Group(inner) => NormalIsStable(inner);
    case _ =>
  }

  lemma {:induction false} NormalListIsStable(l: List)
    ensures NormalList(NormalList(l)) == NormalList(l)
    decreases l
  {
    if l.Cons? {
      NormalIsStable(l.head);
      NormalListIsStable(l.tail);
    }
  }

  /** Folding a list anywhere makes the printing shorter. */
  lemma {:induction false} FoldingShortens(e: Expr, k: seq<string>, j: seq<string>)
    requires |j| <= |k|
    ensures |Put(Normal(e), j)| <= |Put(e, k)|
    ensures Normal(e) != e || |j| < |k| ==> |Put(Normal(e), j)| < |Put(e, k)|
    decreases e, 2
  {
    match e
    case Call(fn, args) => FoldingShortensList(args, [")"] + k, [")"] + j);
    case Prefix(op, operand) => FoldingShortens(operand, k, j);
    case Binary(op, left, right) =>
      FoldingShortens(right, k, j);
      FoldingShortens(left, [op] + Put(right, k), [op] + Put(Normal(right), j));
    case In(_, _, _) => FoldingShortensIn(e, k, j);
    case Cast(expr, kind, precision) =>
      if precision.Cons? {
        FoldingShortensList(precision, [")"] + k, [")"] + j);
      }
      FoldingShortens(expr, ["::", kind] + PutPrecision(precision, k), ["::", kind] + PutPrecision(NormalList(precision), j));
    case Group(inner) => FoldingShortens(inner, [")"] + k, [")"] + j);
    case _ =>
  }

  lemma {:induction false} FoldingShortensIn(e: Expr, k: seq<string>, j: seq<string>)
    requires e.In? && |j| <= |k|
    ensures |Put(Normal(e), j)| <= |Put(e, k)|
    ensures Normal(e) != e || |j| < |k| ==> |Put(Normal(e), j)| < |Put(e, k)|
    decreases e, 1
  {
    var listed := Put(e.first, PutTail(e.more, [")"] + k));
    if OneToken(e.first) && e.more.Nil? {
      assert |listed| == |k| + 2;
      FoldingShortens(e.item, ["in", "("] + listed, ["="] + Put(e.first, j));
    } else {
      FoldingShortensTail(e.more, [")"] + k, [")"] + j);
      FoldingShortens(e.first, PutTail(e.more, [")"] + k), PutTail(NormalList(e.more), [")"] + j));
      FoldingShortens(e.item, ["in", "("] + listed, ["in", "("] + Put(Normal(e.first), PutTail(NormalList(e.more), [")"] + j)));
    }
  }

  lemma {:induction false} FoldingShortensList(l: List, k: seq<string>, j: seq<string>)
    requires |j| <= |k|
    ensures |PutList(NormalList(l), j)| <= |PutList(l, k)|
    ensures NormalList(l) != l || |j| < |k| ==> |PutList(NormalList(l), j)| < |PutList(l, k)|
    decreases l, 2
  {
    if l.Cons? {
      FoldingShortensTail(l.tail, k, j);
      FoldingShortens(l.head, PutTail(l.tail, k), PutTail(NormalList(l.tail), j));
    }
  }

  lemma {:induction false} FoldingShortensTail(l: List, k: seq<string>, j: seq<string>)
    requires |j| <= |k|
    ensures |PutTail(NormalList(l), j)| <= |PutTail(l, k)|
    ensures NormalList(l) != l || |j| < |k| ==> |PutTail(NormalList(l), j)| < |PutTail(l, k)|
    decreases l, 2
  {
    if l.Cons? {
      FoldingShortensTail(l.tail, k, j);
      FoldingShortens(l.head, PutTail(l.tail, k), PutTail(NormalList(l.tail), j));
    }
  }

  /** An expression that prints as a key is a normal form without outer parentheses. */
  lemma PrintedKeyIsNormal(e: Expr, other: Expr)
    requires Shaped(e) && Shaped(other) && Print(other) == Print(Normal(Peel(e)))
    ensures Peel(other) == other == Normal(other)
  {
    var normal := Normal(Peel(e));
    PeelKeeps(e);
    NormalIsShaped(Peel(e));
    PrintIsNotWrapped(normal);
    if other.Group? {
      GroupIsEnclosed(other.inner, []);
      EnclosedCloses(Print(other.inner), []);
    }
    NormalIsStable(Peel(e));
    FoldOfPut(normal, []);
    FoldOfPut(other, []);
    FoldingShortens(other, [], []);
  }

  // ---------------------------------------------------------------- where the fold keeps the tree

  lemma {:induction false} LevelsOfNormal(e: Expr)
    ensures LeftLevel(Normal(e)) == if StartsFolded(e) then Least(LeftLevel(e), EQUALS_LEVEL) else LeftLevel(e)
    ensures RightLevel(Normal(e)) == if EndsFolded(e) then Least(RightLevel(e), EQUALS_LEVEL) else RightLevel(e)
    decreases e
  {
    match e
    case Prefix(_, operand) => LevelsOfNormal(operand);
    case Binary(_, left, right) => LevelsOfNormal(left); LevelsOfNormal(right);
    case In(item, _, _) => LevelsOfNormal(item);
    case Cast(expr, _, _) => LevelsOfNormal(expr);
    case _ =>
  }

  /** An expression that starts with a folded membership competes with nothing tighter than it. */
  lemma {:induction false} StartsLow(e: Expr)
    requires StartsFolded(e)
    ensures LeftLevel(e) <= IN_LEVEL
    decreases e
  {
    match e
    case Binary(_, left, _) => StartsLow(left);
    case In(item, _, _) =>
    case Cast(expr, _, _) => StartsLow(expr);
  }

  /** Folding leaves a tree that precedence reads from its own printing exactly when no folded list is
      followed by a tighter operator and no comparison stands right before its item. */
  lemma {:induction false} NormalFitsIffSafe(e: Expr)
    requires Fits(e)
    ensures Fits(Normal(e)) <==> Safe(e)
    decreases e, 1
  {
    match e
    case Call(_, args) => NormalListFitsIffSafe(args);
    case Prefix(op, operand) => PrefixFitsIffSafe(e);
    case Binary(op, left, right) => BinaryFitsIffSafe(e);
    case In(item, first, more) => InFitsIffSafe(e);
    case Cast(expr, _, precision) =>
      NormalFitsIffSafe(expr);
      NormalListFitsIffSafe(precision);
      LevelsOfNormal(expr);
    case Group(inner) => NormalFitsIffSafe(inner);
    case _ =>
  }

  lemma {:induction false} PrefixFitsIffSafe(e: Expr)
    requires e.Prefix? && Fits(e)
    ensures Fits(Normal(e)) <==> Safe(e)
    decreases e, 0
  {
    NormalFitsIffSafe(e.operand);
    LevelsOfNormal(e.operand);
    if StartsFolded(e.operand) {
      StartsLow(e.operand);
    }
  }

  lemma {:induction false} BinaryFitsIffSafe(e: Expr)
    requires e.Binary? && Fits(e)
    ensures Fits(Normal(e)) <==> Safe(e)
    decreases e, 0
  {
    NormalFitsIffSafe(e.left);
    NormalFitsIffSafe(e.right);
    LevelsOfNormal(e.left);
    LevelsOfNormal(e.right);
    if StartsFolded(e.right) {
      StartsLow(e.right);
    }
  }

  lemma {:induction false} InFitsIffSafe(e: Expr)
    requires e.In? && Fits(e)
    ensures Fits(Normal(e)) <==> Safe(e)
    decreases e, 0
  {
    NormalFitsIffSafe(e.item);
    LevelsOfNormal(e.item);
    if !IsOneValue(e) {
      NormalFitsIffSafe(e.first);
      NormalListFitsIffSafe(e.more);
    }
  }

  lemma {:induction false} NormalListFitsIffSafe(l: List)
    requires FitsList(l)
    ensures FitsList(NormalList(l)) <==> SafeList(l)
    decreases l, 2
  {
    if l.Cons? {
      NormalFitsIffSafe(l.head);
      NormalListFitsIffSafe(l.tail);
    }
  }
}
