/** The comparator measured against the grammar: what EQUIVALENT, UNDECIDED and DIFFERENT say
    about the meaning of two fragments, however they are spelled. */
module Meaning {
  import opened Prelude
  import opened Lexer
  import opened LexerLaws
  import opened Passes
  import opened PassesLaws
  import opened Grammar
  import opened Parsing
  import opened Printed

  // ---------------------------------------------------------------- spellings

  /** Every token of `ts` survives being written out. */
  predicate Written(ts: seq<string>) {
    forall i :: 0 <= i < |ts| ==> IsToken(ts[i]) && Sealed(ts[i])
  }

  /** Writing a fragment's tokens with single blanks between them spells the fragment. */
  lemma PrintedTextSpells(f: Fragment)
    requires Written(PrintFragment(f))
    ensures Spells(Spaced(PrintFragment(f)), f)
  {
    LexOfSpaced(PrintFragment(f));
  }

  /** Any text that precedence can read is a spelling of the fragment it reads. */
  lemma ReadTextSpells(source: string, e: Expr)
    requires Parse(Lex(source)) == Some(e)
    ensures IsFragment(Fragment(e, None)) && Spells(source, Fragment(e, None))
  {
    ReadsIffPrinted(Lex(source), e);
    assert PrintFragment(Fragment(e, None)) == Print(e);
  }

  lemma KeyOfSpelled(source: string, f: Fragment)
    requires IsFragment(f) && Spells(source, f)
    ensures Canonical(source) == Print(Normal(Peel(f.expr)))
    ensures Shaped(Normal(Peel(f.expr))) && (Safe(f.expr) ==> Fits(Normal(Peel(f.expr))))
  {
    KeyOfPrinted(f);
    PeelKeeps(f.expr);
    NormalIsShaped(Peel(f.expr));
    NormalFitsIffSafe(Peel(f.expr));
  }

  // ---------------------------------------------------------------- equal keys, equal meaning

  lemma {:induction false} NormalKeepsMeaning(w: Warehouse, e: Expr)
    ensures Eval(w, Normal(e)) == Eval(w, e)
    decreases e
  {
    match e
    case Call(fn, args) => NormalListKeepsMeaning(w, args);
    case Prefix(_, operand) => NormalKeepsMeaning(w, operand);
    case Binary(op, left, right) =>
      NormalKeepsMeaning(w, left);
      NormalKeepsMeaning(w, right);
    case In(item, first, more) =>
      NormalKeepsMeaning(w, item);
      NormalKeepsMeaning(w, first);
      NormalListKeepsMeaning(w, more);
      if OneToken(first) && more.Nil? {
        var v := Eval(w, first);
        assert Member(Eval(w, item), [v]) == Or(Equals(Eval(w, item), v), Member(Eval(w, item), []));
      }
    case Cast(expr, _, precision) =>
      NormalKeepsMeaning(w, expr);
      NormalListKeepsMeaning(w, precision);
    case Group(inner) => NormalKeepsMeaning(w, inner);
    case _ =>
  }

  lemma {:induction false} NormalListKeepsMeaning(w: Warehouse, l: List)
    ensures EvalList(w, NormalList(l)) == EvalList(w, l)
    decreases l
  {
    if l.Cons? {
      NormalKeepsMeaning(w, l.head);
      NormalListKeepsMeaning(w, l.tail);
    }
  }

  lemma {:induction false} PeelKeepsMeaning(w: Warehouse, e: Expr)
    ensures Eval(w, Peel(e)) == Eval(w, e)
    decreases e
  {
    if e.Group? {
      PeelKeepsMeaning(w, e.inner);
    }
  }

  /** The key, read by precedence, is the normal form of what was meant exactly when no folded list is
      followed by an operator that binds tighter than equality and no comparison stands right before
      its item. */
  lemma KeyReadsAsMeantIff(s: string, f: Fragment)
    requires IsFragment(f) && Spells(s, f)
    ensures Parse(Canonical(s)) == Some(Normal(Peel(f.expr))) <==> Safe(f.expr)
  {
    KeyOfSpelled(s, f);
    PeelKeeps(f.expr);
    NormalFitsIffSafe(Peel(f.expr));
    ReadsIffPrinted(Canonical(s), Normal(Peel(f.expr)));
  }

  /** Otherwise the key is shared: whatever precedence reads it as has the same key, however it is
      spelled, and is another expression. */
  lemma UnsafeKeyIsShared(s: string, f: Fragment, t: string, other: Expr)
    requires IsFragment(f) && Spells(s, f) && !Safe(f.expr)
    requires Parse(Canonical(s)) == Some(other) && Spells(t, Fragment(other, None))
    ensures IsFragment(Fragment(other, None)) && Canonical(t) == Canonical(s)
    ensures Normal(Peel(other)) != Normal(Peel(f.expr))
  {
    KeyReadsAsMeantIff(s, f);
    ReadsIffPrinted(Canonical(s), other);
    KeyOfSpelled(s, f);
    KeyOfSpelled(t, Fragment(other, None));
    PrintedKeyIsNormal(f.expr, other);
  }

  /** Two spelled fragments have one key if and only if their expressions have one normal form
      under their outer parentheses. */
  lemma OneKeyIffOneNormalForm(s: string, f: Fragment, t: string, g: Fragment)
    requires IsFragment(f) && Spells(s, f) && Safe(f.expr)
    requires IsFragment(g) && Spells(t, g) && Safe(g.expr)
    ensures Canonical(s) == Canonical(t) <==> Normal(Peel(f.expr)) == Normal(Peel(g.expr))
  {
    KeyOfSpelled(s, f);
    KeyOfSpelled(t, g);
    if Canonical(s) == Canonical(t) {
      PrintIsInjective(Normal(Peel(f.expr)), Normal(Peel(g.expr)));
    }
  }

  /** Canonicalisation preserves meaning: fragments with one key evaluate alike in every
      warehouse, NULLs included. */
  lemma OneKeyMeansOneValue(s: string, f: Fragment, t: string, g: Fragment, w: Warehouse)
    requires IsFragment(f) && Spells(s, f) && Safe(f.expr)
    requires IsFragment(g) && Spells(t, g) && Safe(g.expr)
    requires Canonical(s) == Canonical(t)
    ensures Eval(w, f.expr) == Eval(w, g.expr)
  {
    OneKeyIffOneNormalForm(s, f, t, g);
    NormalKeepsMeaning(w, Peel(f.expr));
    NormalKeepsMeaning(w, Peel(g.expr));
    PeelKeepsMeaning(w, f.expr);
    PeelKeepsMeaning(w, g.expr);
  }

  // ---------------------------------------------------------------- where one key means two values

  /** A warehouse in which every column, literal and cast is the number 1. */
  const ONES := Warehouse((c: string) => Num(1), (t: string, c: string) => Num(1), (l: string) => Num(1), (f: string, vs: seq<Value>) => Num(1),
                          (v: Value, kind: string, precision: seq<Value>) => Num(1), (v: Value) => Num(1), (op: string, a: Value, b: Value) => Num(1))

  lemma MemberIsPut(item: string, e: Expr, value: string, k: seq<string>)
    requires e == Column(value) || e == Literal(value)
    ensures Put(In(Column(item), e, Nil), k) == [item, "in", "(", value, ")"] + k
    ensures Normal(In(Column(item), e, Nil)) == Binary("=", Column(item), e)
  {
    assert Put(e, [")"] + k) == [value] + ([")"] + k);
    assert [item] + (["in", "("] + ([value] + ([")"] + k))) == [item, "in", "(", value, ")"] + k;
  }

  lemma EqualIsPut(item: string, e: Expr, k: seq<string>)
    ensures Put(Binary("=", Column(item), e), k) == [item, "="] + Put(e, k)
  {
    assert [item] + (["="] + Put(e, k)) == [item, "="] + Put(e, k);
  }

  lemma CastIsPut(e: Expr, kind: string, k: seq<string>)
    ensures Put(Cast(e, kind, Nil), k) == Put(e, ["::", kind] + k)
  {
    var none := Nil;
    assert PutPrecision(none, k) == k;
  }

  lemma LiteralCastIsPut(value: string, kind: string)
    ensures Print(Cast(Literal(value), kind, Nil)) == [value, "::", kind]
  {
    CastIsPut(Literal(value), kind, []);
    assert ["::", kind] + [] == ["::", kind] && [value] + ["::", kind] == [value, "::", kind];
  }

  lemma ComparisonIsPut(left: Expr, value: string)
    ensures Print(Binary("=", left, Literal(value))) == Put(left, ["=", value])
  {
    assert Put(Literal(value), []) == [value] + [] == [value];
    assert ["="] + [value] == ["=", value];
  }

  lemma CastMemberIsPut(item: string, value: string, kind: string)
    ensures Print(Cast(In(Column(item), Literal(value), Nil), kind, Nil)) == [item, "in", "(", value, ")", "::", kind]
  {
    CastIsPut(In(Column(item), Literal(value), Nil), kind, []);
    assert ["::", kind] + [] == ["::", kind];
    MemberIsPut(item, Literal(value), value, ["::", kind]);
    assert [item, "in", "(", value, ")"] + ["::", kind] == [item, "in", "(", value, ")", "::", kind];
  }

  lemma EqualCastIsPut(item: string, value: string, kind: string)
    ensures Print(Binary("=", Column(item), Cast(Literal(value), kind, Nil))) == [item, "=", value, "::", kind]
  {
    EqualIsPut(item, Cast(Literal(value), kind, Nil), []);
    LiteralCastIsPut(value, kind);
    assert [item, "="] + [value, "::", kind] == [item, "=", value, "::", kind];
  }

  /** The text reads as the expression, and its key is that of the expression. */
  lemma TextReadsAs(source: string, e: Expr)
    requires Lex(source) == Print(e) && Shaped(e) && Fits(e) && !e.Group?
    ensures Parse(Lex(source)) == Some(e)
    ensures Canonical(source) == Print(Normal(e))
  {
    ReadsIffPrinted(Lex(source), e);
    ReadTextSpells(source, e);
    KeyOfSpelled(source, Fragment(e, None));
  }

  /** A membership that is cast and an equality with a cast value: one key, and not one value. */
  lemma CastMembershipCollides(s: string, t: string, item: string, value: string, kind: string)
    requires IsWordToken(item) && IsLiteral(value) && IsWordToken(kind)
    requires Lex(s) == [item, "in", "(", value, ")", "::", kind] && Lex(t) == [item, "=", value, "::", kind]
    ensures Canonical(s) == Canonical(t)
    ensures var cast := Cast(In(Column(item), Literal(value), Nil), kind, Nil);
            var equal := Binary("=", Column(item), Cast(Literal(value), kind, Nil));
            && Parse(Lex(s)) == Some(cast) && !Safe(cast)
            && Parse(Lex(t)) == Some(equal) && Safe(equal)
            && Eval(ONES, cast) != Eval(ONES, equal)
  {
    CastMemberReads(s, item, value, kind);
    EqualCastReads(t, item, value, kind);
    CastMembershipValues(item, value, kind);
  }

  /** The smallest such pair: `a in (1)::int` and `a = 1::int`. */
  lemma OneKeyTwoValues(member: seq<string>, equal: seq<string>)
    requires member == ["a", "in", "(", "1", ")", "::", "int"] && equal == ["a", "=", "1", "::", "int"]
    ensures Lex(Spaced(member)) == member && Lex(Spaced(equal)) == equal
    ensures Canonical(Spaced(member)) == Canonical(Spaced(equal))
    ensures Parse(member).Some? && Parse(equal).Some? && Eval(ONES, Parse(member).value) != Eval(ONES, Parse(equal).value)
  {
    var digit := "1";
    DigitIsToken(digit);
    WordsAreTokens("a");
    WordsAreTokens("int");
    WordsAreTokens("in");
    MemberIsWritten(member, digit);
    EqualIsWritten(equal, digit);
    LexOfSpaced(member);
    LexOfSpaced(equal);
    CastMembershipCollides(Spaced(member), Spaced(equal), "a", digit, "int");
  }

  lemma MemberIsWritten(ts: seq<string>, digit: string)
    requires ts == ["a", "in", "(", digit, ")", "::", "int"] && IsToken(digit) && Sealed(digit)
    ensures Written(ts)
  {
    WordsAreTokens(ts[0]);
    WordsAreTokens(ts[1]);
    SymbolsAreTokens(ts[2]);
    SymbolsAreTokens(ts[4]);
    SymbolsAreTokens(ts[5]);
    WordsAreTokens(ts[6]);
  }

  lemma EqualIsWritten(ts: seq<string>, digit: string)
    requires ts == ["a", "=", digit, "::", "int"] && IsToken(digit) && Sealed(digit)
    ensures Written(ts)
  {
    WordsAreTokens(ts[0]);
    SymbolsAreTokens(ts[1]);
    SymbolsAreTokens(ts[3]);
    WordsAreTokens(ts[4]);
  }

  lemma DigitIsToken(t: string)
    requires t == "1"
    ensures IsLiteral(t) && IsToken(t) && Sealed(t)
  {
    RunIs(t, IsWordChar, 1);
    assert Lower(t) == t;
  }

  lemma CastMemberReads(s: string, item: string, value: string, kind: string)
    requires IsWordToken(item) && IsLiteral(value) && IsWordToken(kind)
    requires Lex(s) == [item, "in", "(", value, ")", "::", kind]
    ensures var cast := Cast(In(Column(item), Literal(value), Nil), kind, Nil);
            Parse(Lex(s)) == Some(cast) && !Safe(cast)
    ensures Canonical(s) == [item, "=", value, "::", kind]
  {
    CastMemberIsPut(item, value, kind);
    TextReadsAs(s, Cast(In(Column(item), Literal(value), Nil), kind, Nil));
    CastMemberFolds(item, value, kind);
  }

  lemma EqualCastIsSafe(item: string, value: string, kind: string)
    requires IsWordToken(item) && IsLiteral(value) && IsWordToken(kind)
    ensures var equal := Binary("=", Column(item), Cast(Literal(value), kind, Nil));
            Shaped(equal) && Fits(equal) && Safe(equal)
  {
  }

  lemma EqualCastReads(t: string, item: string, value: string, kind: string)
    requires IsWordToken(item) && IsLiteral(value) && IsWordToken(kind)
    requires Lex(t) == [item, "=", value, "::", kind]
    ensures var equal := Binary("=", Column(item), Cast(Literal(value), kind, Nil));
            Parse(Lex(t)) == Some(equal) && Safe(equal)
    ensures Canonical(t) == [item, "=", value, "::", kind]
  {
    EqualCastIsPut(item, value, kind);
    EqualCastIsSafe(item, value, kind);
    TextReadsAs(t, Binary("=", Column(item), Cast(Literal(value), kind, Nil)));
    CastMemberFolds(item, value, kind);
  }

  lemma CastMemberFolds(item: string, value: string, kind: string)
    ensures Print(Normal(Cast(In(Column(item), Literal(value), Nil), kind, Nil))) == [item, "=", value, "::", kind]
    ensures Print(Normal(Binary("=", Column(item), Cast(Literal(value), kind, Nil)))) == [item, "=", value, "::", kind]
  {
    EqualCastIsPut(item, value, kind);
    MemberIsPut(item, Literal(value), value, []);
    var none := Nil;
    assert NormalList(none) == none && Normal(Cast(Literal(value), kind, none)) == Cast(Literal(value), kind, none);
    var equal := Binary("=", Column(item), Literal(value));
    assert Normal(Cast(In(Column(item), Literal(value), none), kind, none)) == Cast(equal, kind, none);
    CastIsPut(equal, kind, []);
    assert ["::", kind] + [] == ["::", kind];
    EqualIsPut(item, Literal(value), ["::", kind]);
    assert [item, "="] + ([value] + ["::", kind]) == [item, "=", value, "::", kind];
  }

  lemma CastMembershipValues(item: string, value: string, kind: string)
    ensures Eval(ONES, Cast(In(Column(item), Literal(value), Nil), kind, Nil)) == Num(1)
    ensures Eval(ONES, Binary("=", Column(item), Cast(Literal(value), kind, Nil))) == Bool(true)
  {
  }

  /** A comparison with a membership and a comparison of one: one key, and not one value. */
  lemma ComparedMembershipCollides(s: string, t: string, other: string, item: string, value: string)
    requires IsWordToken(other) && IsWordToken(item) && IsLiteral(value)
    requires Lex(s) == [other, "=", item, "in", "(", value, ")"] && Lex(t) == [other, "in", "(", item, ")", "=", value]
    ensures Canonical(s) == Canonical(t)
    ensures var compared := Binary("=", Column(other), In(Column(item), Literal(value), Nil));
            var member := Binary("=", In(Column(other), Column(item), Nil), Literal(value));
            && Parse(Lex(s)) == Some(compared) && !Safe(compared)
            && Parse(Lex(t)) == Some(member) && Safe(member)
            && forall w: Warehouse :: w.column(other) == Bool(true) && w.column(item) == Num(1) && w.literal(value) == Num(1) ==>
                 Eval(w, compared) != Eval(w, member)
  {
    var compared := Binary("=", Column(other), In(Column(item), Literal(value), Nil));
    var member := Binary("=", In(Column(other), Column(item), Nil), Literal(value));
    ComparedReads(s, other, item, value);
    MemberReads(t, other, item, value);
    forall w: Warehouse | w.column(other) == Bool(true) && w.column(item) == Num(1) && w.literal(value) == Num(1)
      ensures Eval(w, compared) != Eval(w, member)
    {
      ComparedMembershipValues(w, other, item, value);
    }
  }

  lemma ComparedIsUnsafe(other: string, item: string, value: string)
    requires IsWordToken(other) && IsWordToken(item) && IsLiteral(value)
    ensures var compared := Binary("=", Column(other), In(Column(item), Literal(value), Nil));
            Shaped(compared) && Fits(compared) && !Safe(compared)
  {
  }

  lemma ComparedReads(s: string, other: string, item: string, value: string)
    requires IsWordToken(other) && IsWordToken(item) && IsLiteral(value)
    requires Lex(s) == [other, "=", item, "in", "(", value, ")"]
    ensures var compared := Binary("=", Column(other), In(Column(item), Literal(value), Nil));
            Parse(Lex(s)) == Some(compared) && !Safe(compared)
    ensures Canonical(s) == [other, "=", item, "=", value]
  {
    ComparedMemberIsPut(other, item, value);
    ComparedIsUnsafe(other, item, value);
    TextReadsAs(s, Binary("=", Column(other), In(Column(item), Literal(value), Nil)));
    ComparedMemberFolds(other, item, value);
  }

  lemma MemberReads(t: string, other: string, item: string, value: string)
    requires IsWordToken(other) && IsWordToken(item) && IsLiteral(value)
    requires Lex(t) == [other, "in", "(", item, ")", "=", value]
    ensures var member := Binary("=", In(Column(other), Column(item), Nil), Literal(value));
            Parse(Lex(t)) == Some(member) && Safe(member)
    ensures Canonical(t) == [other, "=", item, "=", value]
  {
    ComparedMemberIsPut(other, item, value);
    TextReadsAs(t, Binary("=", In(Column(other), Column(item), Nil), Literal(value)));
    ComparedMemberFolds(other, item, value);
  }

  lemma ComparedMemberIsPut(other: string, item: string, value: string)
    ensures Print(Binary("=", Column(other), In(Column(item), Literal(value), Nil))) == [other, "=", item, "in", "(", value, ")"]
    ensures Print(Binary("=", In(Column(other), Column(item), Nil), Literal(value))) == [other, "in", "(", item, ")", "=", value]
  {
    EqualIsPut(other, In(Column(item), Literal(value), Nil), []);
    MemberIsPut(item, Literal(value), value, []);
    assert [other, "="] + ([item, "in", "(", value, ")"] + []) == [other, "=", item, "in", "(", value, ")"];
    ComparisonIsPut(In(Column(other), Column(item), Nil), value);
    MemberIsPut(other, Column(item), item, ["=", value]);
    assert [other, "in", "(", item, ")"] + ["=", value] == [other, "in", "(", item, ")", "=", value];
  }

  lemma ComparedMemberFolds(other: string, item: string, value: string)
    ensures Print(Normal(Binary("=", Column(other), In(Column(item), Literal(value), Nil)))) == [other, "=", item, "=", value]
    ensures Print(Normal(Binary("=", In(Column(other), Column(item), Nil), Literal(value)))) == [other, "=", item, "=", value]
  {
    MemberIsPut(item, Literal(value), value, []);
    MemberIsPut(other, Column(item), item, []);
    ComparisonIsPut(Column(item), value);
    EqualIsPut(other, Binary("=", Column(item), Literal(value)), []);
    ComparisonIsPut(Binary("=", Column(other), Column(item)), value);
    EqualIsPut(other, Column(item), ["=", value]);
    assert [item] + ["=", value] == [item, "=", value];
    assert [other, "="] + [item, "=", value] == [other, "=", item, "=", value];
  }

  lemma ComparedMembershipValues(w: Warehouse, other: string, item: string, value: string)
    requires w.column(other) == Bool(true) && w.column(item) == Num(1) && w.literal(value) == Num(1)
    ensures Eval(w, Binary("=", Column(other), In(Column(item), Literal(value), Nil))) == Bool(true)
    ensures Eval(w, Binary("=", In(Column(other), Column(item), Nil), Literal(value))) == Bool(false)
  {
    MemberOfOne(w, In(Column(item), Literal(value), Nil));
    MemberOfOne(w, In(Column(other), Column(item), Nil));
  }

  lemma MemberOfOne(w: Warehouse, e: Expr)
    requires e.In? && e.more.Nil?
    ensures Eval(w, e) == Or(Equals(Eval(w, e.item), Eval(w, e.first)), Bool(false))
  {
    var v := Eval(w, e.first);
    assert [v] + EvalList(w, e.more) == [v];
    MemberOfSingleton(Eval(w, e.item), v, [v]);
  }

  lemma MemberOfSingleton(v: Value, value: Value, values: seq<Value>)
    requires values == [value]
    ensures Member(v, values) == Or(Equals(v, value), Bool(false))
  {
    assert values[1..] == [];
  }

  /** A comment is no comment to the lexer: its dashes, and the text behind them, are tokens like any
      other. */
  lemma CommentIsRead(rest: string)
    ensures Lex("--" + rest) == ["-", "-"] + Lex(rest) == Lex("- -" + rest)
  {
    var dash := "-" + rest;
    var blank := " " + dash;
    assert "--" + rest == "-" + dash && "- -" + rest == "-" + blank;
    DashesAreTokens(rest, dash, "-" + dash);
    BlankIsSkipped(dash, blank);
    DashesAreTokens(rest, blank, "-" + blank);
  }

  lemma DashesAreTokens(rest: string, dash: string, text: string)
    requires text == "-" + dash && (dash == "-" + rest || Lex(dash) == ["-"] + Lex(rest))
    ensures Lex(text) == ["-", "-"] + Lex(rest)
    ensures Lex(dash) == ["-"] + Lex(rest)
  {
    DashIsToken(dash, text);
    if dash == "-" + rest {
      DashIsToken(rest, dash);
    }
    assert ["-"] + (["-"] + Lex(rest)) == ["-", "-"] + Lex(rest);
  }

  lemma DashIsToken(rest: string, text: string)
    requires text == "-" + rest
    ensures Lex(text) == ["-"] + Lex(rest)
  {
    SymbolIsOneToken(text);
    assert text[..1] == "-" && text[1..] == rest;
  }

  lemma BlankIsSkipped(rest: string, text: string)
    requires text == " " + rest
    ensures Lex(text) == Lex(rest)
  {
    assert text[1..] == rest;
  }

  // ---------------------------------------------------------------- qualifiers

  lemma QualifierStays(t: string, k: seq<string>)
    requires !IsName(t) || k == [] || k[0] != "."
    ensures WithoutQualifiers([t] + k) == [t] + WithoutQualifiers(k)
  {
    assert ([t] + k)[1..] == k;
  }

  lemma QualifierGoes(table: string, name: string, k: seq<string>)
    requires IsName(table) && IsName(name)
    ensures WithoutQualifiers([table, ".", name] + k) == WithoutQualifiers([name] + k)
  {
    assert ([table, ".", name] + k)[2..] == [name] + k;
  }

  lemma OpenStays(t: string, k: seq<string>)
    ensures WithoutQualifiers([t, "("] + k) == [t, "("] + WithoutQualifiers(k)
  {
    assert [t, "("] + k == [t] + (["("] + k);
    QualifierStays(t, ["("] + k);
    QualifierStays("(", k);
    assert [t] + (["("] + WithoutQualifiers(k)) == [t, "("] + WithoutQualifiers(k);
  }

  lemma KindStays(kind: string, rest: seq<string>)
    requires rest == [] || rest[0] != "."
    ensures WithoutQualifiers(["::", kind] + rest) == ["::", kind] + WithoutQualifiers(rest)
  {
    var named := [kind] + rest;
    assert ["::", kind] + rest == ["::"] + named;
    QualifierStays("::", named);
    QualifierStays(kind, rest);
    PairRegroups("::", kind, WithoutQualifiers(rest));
  }

  lemma PairRegroups(s: string, t: string, k: seq<string>)
    ensures [s] + ([t] + k) == [s, t] + k
  {
  }

  lemma {:induction false} BareOfPut(e: Expr, k: seq<string>)
    requires Shaped(e) && Stops(k)
    ensures WithoutQualifiers(Put(e, k)) == Put(Bare(e), WithoutQualifiers(k))
    decreases e, 1
  {
    match e
    case Column(name) => QualifierStays(name, k);
    case Qualified(table, name) =>
      QualifierGoes(table, name, k);
      QualifierStays(name, k);
    case Literal(token) =>
      LiteralIsNoOther(token);
      QualifierStays(token, k);
    case Call(fn, args) =>
      OpenStays(fn, PutList(args, [")"] + k));
      BareOfList(args, [")"] + k);
      QualifierStays(")", k);
    case Prefix(op, operand) =>
      FirstIsNoClose(operand, k);
      QualifierStays(op, Put(operand, k));
      BareOfPut(operand, k);
    case Binary(op, left, right) =>
      OperatorFollows(op, Put(right, k));
      BareOfPut(left, [op] + Put(right, k));
      FirstIsNoClose(right, k);
      QualifierStays(op, Put(right, k));
      BareOfPut(right, k);
    case In(_, _, _) => BareOfIn(e, k);
    case Cast(expr, kind, precision) =>
      BareOfPut(expr, ["::", kind] + PutPrecision(precision, k));
      BareOfPrecision(kind, precision, k);
    case Group(inner) =>
      QualifierStays("(", Put(inner, [")"] + k));
      BareOfPut(inner, [")"] + k);
      QualifierStays(")", k);
  }

  lemma {:induction false} BareOfIn(e: Expr, k: seq<string>)
    requires e.In? && Shaped(e)
    ensures WithoutQualifiers(Put(e, k)) == Put(Bare(e), WithoutQualifiers(k))
    decreases e, 0
  {
    var tail := PutTail(e.more, [")"] + k);
    BareOfPut(e.item, ["in", "("] + Put(e.first, tail));
    OpenStays("in", Put(e.first, tail));
    BareOfPut(e.first, tail);
    BareOfTail(e.more, [")"] + k);
    QualifierStays(")", k);
  }

  lemma {:induction false} BareOfPrecision(kind: string, precision: List, k: seq<string>)
    requires ShapedList(precision) && Stops(k)
    ensures WithoutQualifiers(["::", kind] + PutPrecision(precision, k))
            == ["::", kind] + PutPrecision(BareList(precision), WithoutQualifiers(k))
    decreases precision, 3
  {
    KindStays(kind, PutPrecision(precision, k));
    if precision.Cons? {
      QualifierStays("(", PutList(precision, [")"] + k));
      BareOfList(precision, [")"] + k);
      QualifierStays(")", k);
    }
  }

  lemma {:induction false} BareOfList(l: List, k: seq<string>)
    requires ShapedList(l) && Stops(k)
    ensures WithoutQualifiers(PutList(l, k)) == PutList(BareList(l), WithoutQualifiers(k))
    decreases l, 2
  {
    if l.Cons? {
      BareOfPut(l.head, PutTail(l.tail, k));
      BareOfTail(l.tail, k);
    }
  }

  lemma {:induction false} BareOfTail(l: List, k: seq<string>)
    requires ShapedList(l) && Stops(k)
    ensures WithoutQualifiers(PutTail(l, k)) == PutTail(BareList(l), WithoutQualifiers(k))
    decreases l, 2
  {
    if l.Cons? {
      QualifierStays(",", Put(l.head, PutTail(l.tail, k)));
      BareOfPut(l.head, PutTail(l.tail, k));
      BareOfTail(l.tail, k);
    }
  }

  lemma {:induction false} BareIsShaped(e: Expr)
    ensures Shaped(e) ==> Shaped(Bare(e))
    ensures Fits(e) ==> Fits(Bare(e))
    ensures LeftLevel(Bare(e)) == LeftLevel(e) && RightLevel(Bare(e)) == RightLevel(e)
    decreases e
  {
    match e
    case Call(fn, args) => BareListIsShaped(args);
    case Prefix(_, operand) => BareIsShaped(operand);
    case Binary(op, left, right) => BareIsShaped(left); BareIsShaped(right);
    case In(item, first, more) => BareIsShaped(item); BareIsShaped(first); BareListIsShaped(more);
    case Cast(expr, _, precision) => BareIsShaped(expr); BareListIsShaped(precision);
    case Group(inner) => BareIsShaped(inner);
    case _ =>
  }

  lemma {:induction false} BareListIsShaped(l: List)
    ensures ShapedList(l) ==> ShapedList(BareList(l))
    ensures FitsList(l) ==> FitsList(BareList(l))
    decreases l
  {
    if l.Cons? {
      BareIsShaped(l.head);
      BareListIsShaped(l.tail);
    }
  }

  // ---------------------------------------------------------------- casts

  lemma CastStays(t: string, k: seq<string>)
    requires t != "::"
    ensures CastsClose([t] + k) == CastsClose(k)
    ensures CastsClose(k) ==> WithoutCasts([t] + k) == [t] + WithoutCasts(k)
  {
    assert ([t] + k)[1..] == k;
  }

  lemma CastStaysTwice(s: string, t: string, k: seq<string>)
    requires s != "::" && t != "::"
    ensures CastsClose([s, t] + k) == CastsClose(k)
    ensures CastsClose(k) ==> WithoutCasts([s, t] + k) == [s, t] + WithoutCasts(k)
  {
    assert [s, t] + k == [s] + ([t] + k);
    CastStays(s, [t] + k);
    CastStays(t, k);
    if CastsClose(k) {
      assert [s] + ([t] + WithoutCasts(k)) == [s, t] + WithoutCasts(k);
    }
  }

  lemma CastStaysThrice(r: string, s: string, t: string, k: seq<string>)
    requires r != "::" && s != "::" && t != "::"
    ensures CastsClose([r, s, t] + k) == CastsClose(k)
    ensures CastsClose(k) ==> WithoutCasts([r, s, t] + k) == [r, s, t] + WithoutCasts(k)
  {
    assert [r, s, t] + k == [r, s] + ([t] + k);
    CastStaysTwice(r, s, [t] + k);
    CastStays(t, k);
    if CastsClose(k) {
      assert [r, s] + ([t] + WithoutCasts(k)) == [r, s, t] + WithoutCasts(k);
    }
  }

  /** A printed cast ends exactly where its type and precision end. */
  lemma CastGoes(kind: string, precision: List, k: seq<string>)
    requires ShapedList(precision) && Stops(k)
    ensures var ts := ["::", kind] + PutPrecision(precision, k);
            CastsClose(ts) == CastsClose(k) && (CastsClose(k) ==> WithoutCasts(ts) == WithoutCasts(k))
  {
    var ts := ["::", kind] + PutPrecision(precision, k);
    if precision.Cons? {
      var body := PutList(precision, []);
      ListAppends(precision, [], [")"] + k);
      assert [] + ([")"] + k) == [")"] + k;
      ListIsBalanced(precision, [], 0);
      PreciseCastGoes(kind, body, k);
    } else if k == [] {
      assert ts[|ts|..] == [];
    } else {
      assert ts[2..] == k;
    }
  }

  lemma PreciseCastGoes(kind: string, body: seq<string>, k: seq<string>)
    requires Balanced(body, 0)
    ensures var ts := ["::", kind] + (["("] + (body + ([")"] + k)));
            CastsClose(ts) == CastsClose(k) && (CastsClose(k) ==> WithoutCasts(ts) == WithoutCasts(k))
  {
    var ts := ["::", kind] + (["("] + (body + ([")"] + k)));
    EnclosedCloses(body, k);
    assert ts[2..] == ["("] + (body + ([")"] + k));
    assert CastEnd(ts) == Some(|body| + 4);
    assert ts[|body| + 4..] == k;
  }

  /** The pass over casts ends on the tokens and leaves the other tokens. */
  predicate CastsGoFrom(ts: seq<string>, k: seq<string>) {
    CastsClose(ts) == CastsClose(k)
  }

  lemma {:induction false} UncastOfPut(e: Expr, k: seq<string>)
    requires Shaped(e) && Stops(k)
    ensures CastsGoFrom(Put(e, k), k)
    ensures CastsClose(k) ==> WithoutCasts(Put(e, k)) == Put(Uncast(e), WithoutCasts(k))
    decreases e, 2
  {
    match e
    case Call(_, _) => UncastOfCall(e, k);
    case Prefix(op, operand) =>
      CastStays(op, Put(operand, k));
      UncastOfPut(operand, k);
    case Binary(_, _, _) => UncastOfBinary(e, k);
    case In(_, _, _) => UncastOfIn(e, k);
    case Cast(expr, kind, precision) =>
      UncastOfPut(expr, ["::", kind] + PutPrecision(precision, k));
      CastGoes(kind, precision, k);
    case Group(inner) =>
      CastStays("(", Put(inner, [")"] + k));
      UncastOfPut(inner, [")"] + k);
      CastStays(")", k);
    case _ => UncastOfName(e, k);
  }

  lemma UncastOfName(e: Expr, k: seq<string>)
    requires (e.Column? || e.Qualified? || e.Literal?) && Shaped(e)
    ensures CastsGoFrom(Put(e, k), k)
    ensures CastsClose(k) ==> WithoutCasts(Put(e, k)) == Put(Uncast(e), WithoutCasts(k))
  {
    match e
    case Column(name) => WordIsNoOther(name); CastStays(name, k);
    case Qualified(table, name) =>
      WordIsNoOther(table);
      WordIsNoOther(name);
      CastStaysThrice(table, ".", name, k);
    case Literal(token) => LiteralIsNoOther(token); CastStays(token, k);
  }

  lemma {:induction false} UncastOfCall(e: Expr, k: seq<string>)
    requires e.Call? && Shaped(e)
    ensures CastsGoFrom(Put(e, k), k)
    ensures CastsClose(k) ==> WithoutCasts(Put(e, k)) == Put(Uncast(e), WithoutCasts(k))
    decreases e, 1
  {
    WordIsNoOther(e.fn);
    CastStaysTwice(e.fn, "(", PutList(e.args, [")"] + k));
    UncastOfList(e.args, [")"] + k);
    CastStays(")", k);
  }

  lemma {:induction false} UncastOfBinary(e: Expr, k: seq<string>)
    requires e.Binary? && Shaped(e) && Stops(k)
    ensures CastsGoFrom(Put(e, k), k)
    ensures CastsClose(k) ==> WithoutCasts(Put(e, k)) == Put(Uncast(e), WithoutCasts(k))
    decreases e, 1
  {
    var later := Put(e.right, k);
    OperatorFollows(e.op, later);
    UncastOfPut(e.left, [e.op] + later);
    OperatorIsNoOther(e.op);
    CastStays(e.op, later);
    UncastOfPut(e.right, k);
  }

  lemma {:induction false} UncastOfIn(e: Expr, k: seq<string>)
    requires e.In? && Shaped(e)
    ensures CastsGoFrom(Put(e, k), k)
    ensures CastsClose(k) ==> WithoutCasts(Put(e, k)) == Put(Uncast(e), WithoutCasts(k))
    decreases e, 1
  {
    var tail := PutTail(e.more, [")"] + k);
    UncastOfPut(e.item, ["in", "("] + Put(e.first, tail));
    CastStaysTwice("in", "(", Put(e.first, tail));
    UncastOfPut(e.first, tail);
    UncastOfTail(e.more, [")"] + k);
    CastStays(")", k);
  }

  lemma {:induction false} UncastOfList(l: List, k: seq<string>)
    requires ShapedList(l) && Stops(k)
    ensures CastsGoFrom(PutList(l, k), k)
    ensures CastsClose(k) ==> WithoutCasts(PutList(l, k)) == PutList(UncastList(l), WithoutCasts(k))
    decreases l, 2
  {
    if l.Cons? {
      UncastOfPut(l.head, PutTail(l.tail, k));
      UncastOfTail(l.tail, k);
    }
  }

  lemma {:induction false} UncastOfTail(l: List, k: seq<string>)
    requires ShapedList(l) && Stops(k)
    ensures CastsGoFrom(PutTail(l, k), k)
    ensures CastsClose(k) ==> WithoutCasts(PutTail(l, k)) == PutTail(UncastList(l), WithoutCasts(k))
    decreases l, 2
  {
    if l.Cons? {
      CastStays(",", Put(l.head, PutTail(l.tail, k)));
      UncastOfPut(l.head, PutTail(l.tail, k));
      UncastOfTail(l.tail, k);
    }
  }

  lemma {:induction false} ClosedOnTheRight(e: Expr)
    ensures RightLevel(e) >= CAST_LEVEL ==> RightLevel(e) == TOP_LEVEL
    decreases e
  {
  }

  /** Where a cast went, what it stood on fits at least as well. */
  lemma {:induction false} UncastIsShaped(e: Expr)
    requires Shaped(e) && Fits(e)
    ensures Shaped(Uncast(e)) && Fits(Uncast(e))
    ensures LeftLevel(e) <= LeftLevel(Uncast(e)) && RightLevel(e) <= RightLevel(Uncast(e))
    decreases e
  {
    match e
    case Call(fn, args) => UncastListIsShaped(args);
    case Prefix(_, operand) => UncastIsShaped(operand);
    case Binary(op, left, right) => UncastIsShaped(left); UncastIsShaped(right);
    case In(item, first, more) => UncastIsShaped(item); UncastIsShaped(first); UncastListIsShaped(more);
    case Cast(expr, _, precision) => UncastIsShaped(expr); ClosedOnTheRight(expr);
    case Group(inner) => UncastIsShaped(inner);
    case _ =>
  }

  lemma {:induction false} UncastListIsShaped(l: List)
    requires ShapedList(l) && FitsList(l)
    ensures ShapedList(UncastList(l)) && FitsList(UncastList(l))
    decreases l
  {
    if l.Cons? {
      UncastIsShaped(l.head);
      UncastListIsShaped(l.tail);
    }
  }

  // ---------------------------------------------------------------- the relaxed key

  /** What the comparator loosely compares a fragment by: its normal form without qualifiers and casts. */
  function Loosened(e: Expr): Expr {
    Uncast(Bare(Normal(Peel(e))))
  }

  lemma RelaxedOfPrinted(e: Expr)
    requires Shaped(e)
    ensures Relaxable(Print(e)) && Relaxed(Print(e)) == Print(Uncast(Bare(e)))
  {
    BareIsShaped(e);
    BareOfPut(e, []);
    UncastOfPut(Bare(e), []);
    assert CastsClose([]);
  }

  lemma LoosenedFits(e: Expr)
    requires Shaped(e) && Fits(e)
    ensures Shaped(Uncast(Bare(e))) && Fits(Uncast(Bare(e)))
  {
    BareIsShaped(e);
    UncastIsShaped(Bare(e));
  }

  /** The comparison of two spelled fragments always comes to an end. */
  lemma SpelledFragmentsCompare(s: string, f: Fragment, t: string, g: Fragment)
    requires IsFragment(f) && Spells(s, f) && IsFragment(g) && Spells(t, g)
    ensures Comparable(Canonical(s), Canonical(t))
  {
    KeyOfSpelled(s, f);
    KeyOfSpelled(t, g);
    RelaxedOfPrinted(Normal(Peel(f.expr)));
    RelaxedOfPrinted(Normal(Peel(g.expr)));
  }

  /** It is not DIFFERENT if and only if their loosened forms agree. */
  lemma NotDifferentIffLooselyEqual(s: string, f: Fragment, t: string, g: Fragment)
    requires IsFragment(f) && Spells(s, f) && Safe(f.expr)
    requires IsFragment(g) && Spells(t, g) && Safe(g.expr)
    ensures Comparable(Canonical(s), Canonical(t))
    ensures CompareKeys(Canonical(s), Canonical(t)) != Different <==> Loosened(f.expr) == Loosened(g.expr)
  {
    var a, b := Normal(Peel(f.expr)), Normal(Peel(g.expr));
    SpelledFragmentsCompare(s, f, t, g);
    KeyOfSpelled(s, f);
    KeyOfSpelled(t, g);
    RelaxedOfPrinted(a);
    RelaxedOfPrinted(b);
    LoosenedFits(a);
    LoosenedFits(b);
    if Print(Loosened(f.expr)) == Print(Loosened(g.expr)) {
      PrintIsInjective(Loosened(f.expr), Loosened(g.expr));
    }
  }

  // ---------------------------------------------------------------- what UNDECIDED leaves open

  /** A warehouse in which qualifiers pick no other column and casts change no value. */
  ghost predicate Indifferent(w: Warehouse) {
    && (forall table, name :: w.qualified(table, name) == w.column(name))
    && (forall v, kind, precision :: w.cast(v, kind, precision) == v)
  }

  lemma {:induction false} LooseningKeepsMeaning(w: Warehouse, e: Expr)
    requires Indifferent(w)
    ensures Eval(w, Uncast(Bare(e))) == Eval(w, e)
    decreases e
  {
    match e
    case Call(fn, args) => LooseningListKeepsMeaning(w, args);
    case Prefix(_, operand) => LooseningKeepsMeaning(w, operand);
    case Binary(op, left, right) =>
      LooseningKeepsMeaning(w, left);
      LooseningKeepsMeaning(w, right);
    case In(item, first, more) =>
      LooseningKeepsMeaning(w, item);
      LooseningKeepsMeaning(w, first);
      LooseningListKeepsMeaning(w, more);
    case Cast(expr, _, precision) => LooseningKeepsMeaning(w, expr);
    case Group(inner) => LooseningKeepsMeaning(w, inner);
    case _ =>
  }

  lemma {:induction false} LooseningListKeepsMeaning(w: Warehouse, l: List)
    requires Indifferent(w)
    ensures EvalList(w, UncastList(BareList(l))) == EvalList(w, l)
    decreases l
  {
    if l.Cons? {
      LooseningKeepsMeaning(w, l.head);
      LooseningListKeepsMeaning(w, l.tail);
    }
  }

  lemma LoosenedKeepsMeaning(w: Warehouse, e: Expr)
    requires Indifferent(w)
    ensures Eval(w, Loosened(e)) == Eval(w, e)
  {
    PeelKeepsMeaning(w, e);
    NormalKeepsMeaning(w, Peel(e));
    LooseningKeepsMeaning(w, Normal(Peel(e)));
  }

  /** UNDECIDED is confined to qualifiers and casts: where those change nothing, fragments that
      are not DIFFERENT evaluate alike. */
  lemma NotDifferentIsConfined(s: string, f: Fragment, t: string, g: Fragment, w: Warehouse)
    requires IsFragment(f) && Spells(s, f) && Safe(f.expr)
    requires IsFragment(g) && Spells(t, g) && Safe(g.expr)
    requires Comparable(Canonical(s), Canonical(t)) && CompareKeys(Canonical(s), Canonical(t)) != Different
    requires Indifferent(w)
    ensures Eval(w, f.expr) == Eval(w, g.expr)
  {
    NotDifferentIffLooselyEqual(s, f, t, g);
    LoosenedKeepsMeaning(w, f.expr);
    LoosenedKeepsMeaning(w, g.expr);
  }

  // ---------------------------------------------------------------- a cast at the top

  /** Loosening keeps every pair of parentheses inside. */
  lemma {:induction false} GroupsDeepen(e: Expr)
    ensures Loosened(e) == Uncast(Bare(Normal(e))) || Loosened(e) < Uncast(Bare(Normal(e)))
    ensures e.Group? ==> Loosened(e) < Uncast(Bare(Normal(e)))
    decreases e
  {
    if e.Group? {
      GroupsDeepen(e.inner);
    }
  }

  /** A fragment and its own cast are never EQUIVALENT, and they are UNDECIDED if and only if the cast
      is written without parentheses around what it casts. A cast of anything that binds looser needs
      them, and then the two are DIFFERENT although they differ in nothing but a cast. */
  lemma CastIsUndecidedIff(s: string, f: Fragment, t: string, g: Fragment)
    requires IsFragment(f) && Spells(s, f) && Safe(f.expr)
    requires IsFragment(g) && Spells(t, g) && Safe(g.expr)
    requires g.expr.Cast? && Peel(g.expr.expr) == Peel(f.expr)
    ensures Comparable(Canonical(s), Canonical(t))
    ensures CompareKeys(Canonical(s), Canonical(t)) == if g.expr.expr.Group? then Different else Undecided
  {
    var operand := g.expr.expr;
    NotDifferentIffLooselyEqual(s, f, t, g);
    OneKeyIffOneNormalForm(s, f, t, g);
    GroupsDeepen(operand);
    CastIsAnother(f.expr, g.expr);
  }

  lemma CastIsAnother(e: Expr, cast: Expr)
    requires cast.Cast? && Peel(cast.expr) == Peel(e)
    ensures Normal(Peel(cast)) != Normal(Peel(e))
    ensures Loosened(cast) == Uncast(Bare(Normal(cast.expr))) && Loosened(cast.expr) == Loosened(e)
    ensures !cast.expr.Group? ==> Loosened(cast) == Loosened(e)
  {
    PeeledIsNoLarger(cast.expr);
  }

  lemma {:induction false} PeeledIsNoLarger(e: Expr)
    ensures Normal(Peel(e)) == Normal(e) || Normal(Peel(e)) < Normal(e)
    decreases e
  {
    if e.Group? {
      PeeledIsNoLarger(e.inner);
    }
  }

  /** The smallest such pair: `a + b` and `(a + b)::int`. */
  lemma CastOfSumIsDifferent()
    ensures var sum := Fragment(Binary("+", Column("a"), Column("b")), None);
            var cast := Fragment(Cast(Group(sum.expr), "int", Nil), None);
            && IsFragment(sum) && IsFragment(cast)
            && var s, t := Spaced(PrintFragment(sum)), Spaced(PrintFragment(cast));
               && Spells(s, sum) && Spells(t, cast)
               && Comparable(Canonical(s), Canonical(t)) && CompareKeys(Canonical(s), Canonical(t)) == Different
  {
    var sum := Fragment(Binary("+", Column("a"), Column("b")), None);
    var cast := Fragment(Cast(Group(sum.expr), "int", Nil), None);
    SumIsSpelled(sum);
    CastSumIsSpelled(sum, cast);
    CastIsUndecidedIff(Spaced(PrintFragment(sum)), sum, Spaced(PrintFragment(cast)), cast);
  }

  lemma SumIsSpelled(sum: Fragment)
    requires sum == Fragment(Binary("+", Column("a"), Column("b")), None)
    ensures IsFragment(sum) && Safe(sum.expr) && Spells(Spaced(PrintFragment(sum)), sum)
  {
    SumIsPut(sum.expr);
    assert PrintFragment(sum) == Print(sum.expr);
    SumIsWritten(PrintFragment(sum));
    PrintedTextSpells(sum);
    WordsAreTokens("a");
    WordsAreTokens("b");
  }

  lemma CastSumIsSpelled(sum: Fragment, cast: Fragment)
    requires sum == Fragment(Binary("+", Column("a"), Column("b")), None)
    requires cast == Fragment(Cast(Group(sum.expr), "int", Nil), None)
    ensures IsFragment(cast) && Safe(cast.expr) && Spells(Spaced(PrintFragment(cast)), cast)
  {
    CastOfGroupIsFragment(sum.expr, "int");
    CastSumIsPut(sum.expr, cast.expr);
    assert PrintFragment(cast) == Print(cast.expr);
    CastSumIsWritten(PrintFragment(cast));
    PrintedTextSpells(cast);
  }

  lemma CastOfGroupIsFragment(sum: Expr, kind: string)
    requires sum == Binary("+", Column("a"), Column("b")) && kind == "int"
    ensures IsFragment(Fragment(Cast(Group(sum), kind, Nil), None)) && Safe(Cast(Group(sum), kind, Nil))
  {
    SumIsSpelled(Fragment(sum, None));
    WordsAreTokens(kind);
    var none := Nil;
    assert ShapedList(none) && FitsList(none) && SafeList(none);
  }

  lemma SumIsPut(sum: Expr)
    requires sum == Binary("+", Column("a"), Column("b"))
    ensures Print(sum) == ["a", "+", "b"]
  {
  }

  lemma CastSumIsPut(sum: Expr, cast: Expr)
    requires sum == Binary("+", Column("a"), Column("b")) && cast == Cast(Group(sum), "int", Nil)
    ensures Print(cast) == ["(", "a", "+", "b", ")", "::", "int"]
  {
    var k := [")"] + (["::", "int"] + []);
    CastIsPut(Group(sum), "int", []);
    assert Put(sum, k) == ["a"] + (["+"] + (["b"] + k));
    assert k == [")", "::", "int"];
  }

  lemma SumIsWritten(ts: seq<string>)
    requires ts == ["a", "+", "b"]
    ensures Written(ts)
  {
    WordsAreTokens(ts[0]);
    SymbolsAreTokens(ts[1]);
    WordsAreTokens(ts[2]);
  }

  lemma CastSumIsWritten(ts: seq<string>)
    requires ts == ["(", "a", "+", "b", ")", "::", "int"]
    ensures Written(ts)
  {
    assert ts[1..4] == ["a", "+", "b"];
    SumIsWritten(ts[1..4]);
    assert ts[1] == ts[1..4][0] && ts[2] == ts[1..4][1] && ts[3] == ts[1..4][2];
    SymbolsAreTokens(ts[0]);
    SymbolsAreTokens(ts[4]);
    SymbolsAreTokens(ts[5]);
    WordsAreTokens(ts[6]);
  }

  lemma SymbolsAreTokens(t: string)
    requires t in {"(", ")", "::", "+", "="}
    ensures IsToken(t) && Sealed(t)
  {
    assert TagLength(t) == 0 && !IsWord(t);
  }

  lemma WordsAreTokens(t: string)
    requires t in {"a", "b", "in", "int"}
    ensures IsName(t) && IsToken(t) && Sealed(t) && (t != "in" ==> IsWordToken(t))
  {
    RunIs(t, IsWordChar, |t|);
    assert Lower(t) == t;
  }

  // ---------------------------------------------------------------- a cast that never closes

  /** A cast whose parenthesis never closes: its comparison with any other key does not end. */
  lemma UnclosedCastNeverCompares(other: seq<string>, text: string)
    requires text == "a::t(" && other != ["a", "::", "t", "("]
    ensures !Comparable(Canonical(text), other)
  {
    var ts := ["a", "::", "t", "("];
    UnclosedCastLexes(text);
    UnclosedCastFolds(ts);
    UnclosedCastStays(ts);
  }

  lemma UnclosedCastLexes(text: string)
    requires text == "a::t("
    ensures Lex(text) == ["a", "::", "t", "("]
  {
    NamedLexes("t(");
    FirstLexes("t(", "::t(", text);
  }

  lemma NamedLexes(named: string)
    requires named == "t("
    ensures Lex(named) == ["t", "("]
  {
    OpenIsToken("(");
    LetterIsToken("t", "(", named);
  }

  lemma FirstLexes(named: string, cast: string, text: string)
    requires Lex(named) == ["t", "("] && cast == "::" + named && text == "a" + cast
    ensures Lex(text) == ["a", "::", "t", "("]
  {
    ColonsAreToken(named, cast);
    LetterIsToken("a", cast, text);
    FourTokens("a", "::", "t", "(");
  }

  lemma FourTokens(a: string, b: string, c: string, d: string)
    ensures [a] + ([b] + [c, d]) == [a, b, c, d]
  {
  }

  lemma LetterIsToken(letter: string, rest: string, text: string)
    requires letter in {"a", "t"} && text == letter + rest && (rest == "" || !IsWordChar(rest[0]))
    ensures Lex(text) == [letter] + Lex(rest)
  {
    WordIsOneToken(letter, rest);
    assert Lower(letter) == letter;
  }

  lemma ColonsAreToken(rest: string, text: string)
    requires text == "::" + rest
    ensures Lex(text) == ["::"] + Lex(rest)
  {
    SymbolIsOneToken(text);
    assert text[..2] == "::" && text[2..] == rest;
  }

  lemma OpenIsToken(text: string)
    requires text == "("
    ensures Lex(text) == ["("]
  {
    SymbolIsOneToken(text);
    assert text[..1] == "(" && text[1..] == "";
  }

  lemma UnclosedCastFolds(ts: seq<string>)
    requires ts == ["a", "::", "t", "("]
    ensures CanonicalTokens(ts) == ts
  {
    assert ts == ["a", "::", "t"] + ["("];
    FoldSkipsThree("a", "::", "t", ["("]);
    FoldSkips("(", []);
    assert ["("] + [] == ["("];
  }

  lemma UnclosedCastStays(ts: seq<string>)
    requires ts == ["a", "::", "t", "("]
    ensures !Relaxable(ts)
  {
    var cast := ["::", "t", "("];
    assert ts == ["a"] + cast && cast == ["::", "t"] + ["("];
    QualifierStays("a", cast);
    OpenStays("t", []);
    assert cast == ["::"] + (["t", "("] + []) && ["t", "("] + WithoutQualifiers([]) == ["t", "("];
    QualifierStays("::", ["t", "("]);
    CastStays("a", cast);
    assert cast[2..] == ["("] && ["("][1..] == [] && Close(["("], 0).None?;
  }
}
