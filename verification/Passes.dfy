/** The rewriting passes of `hyperset/bundle/equivalence.py` over a fragment's tokens, and the
    comparison built on them. Each pass is a function on suffixes of the token list; the
    methods are the source's loops over indices, proved to compute it. */
module Passes {
  import opened Prelude
  import opened Lexer

  predicate IsName(t: string) {
    t != "" && (IsAlpha(t[0]) || t[0] == '_')
  }

  function Step(t: string): int {
    if t == "(" then 1 else if t == ")" then -1 else 0
  }

  /** Offset of the parenthesis that brings the depth back to zero, read from depth `depth`. */
  function Close(ts: seq<string>, depth: int): (r: Option<nat>)
    ensures r.Some? ==> r.value < |ts| && ts[r.value] == ")"
  {
    if ts == [] then None
    else if ts[0] == ")" && depth == 1 then Some(0)
    else
      match Close(ts[1..], depth + Step(ts[0]))
      case None => None
      case Some(at) => Some(at + 1)
  }

  /** Every parenthesis of `ts` is matched, `depth` of them having been opened before it. */
  predicate Balanced(ts: seq<string>, depth: nat) {
    if ts == [] then depth == 0
    else if ts[0] == "(" then Balanced(ts[1..], depth + 1)
    else if ts[0] == ")" then 0 < depth && Balanced(ts[1..], depth - 1)
    else Balanced(ts[1..], depth)
  }

  // ---------------------------------------------------------------- folding to a key

  function WithoutAlias(ts: seq<string>): seq<string> {
    if 3 <= |ts| && ts[|ts| - 2] == "as" && IsName(ts[|ts| - 1]) && Balanced(ts[..|ts| - 2], 0)
    then ts[..|ts| - 2]
    else ts
  }

  predicate Wrapped(ts: seq<string>) {
    2 <= |ts| && ts[0] == "(" && Close(ts, 0) == Some(|ts| - 1)
  }

  function WithoutOuterParens(ts: seq<string>): seq<string> {
    if Wrapped(ts) then WithoutOuterParens(ts[1..|ts| - 1]) else ts
  }

  predicate OneValueIn(ts: seq<string>) {
    4 <= |ts| && ts[0] == "in" && ts[1] == "(" && ts[3] == ")"
  }

  function InAsEquals(ts: seq<string>): seq<string> {
    if ts == [] then []
    else if OneValueIn(ts) then ["=", ts[2]] + InAsEquals(ts[4..])
    else [ts[0]] + InAsEquals(ts[1..])
  }

  /** The key a fragment is compared and de-duplicated by. */
  function CanonicalTokens(ts: seq<string>): seq<string> {
    InAsEquals(WithoutOuterParens(WithoutAlias(ts)))
  }

  function Canonical(fragment: string): seq<string> {
    CanonicalTokens(Lex(fragment))
  }

  // ---------------------------------------------------------------- relaxing a key

  predicate Qualifies(ts: seq<string>) {
    3 <= |ts| && IsName(ts[0]) && ts[1] == "." && IsName(ts[2])
  }

  function WithoutQualifiers(ts: seq<string>): seq<string> {
    if ts == [] then []
    else if Qualifies(ts) then WithoutQualifiers(ts[2..])
    else [ts[0]] + WithoutQualifiers(ts[1..])
  }

  /** Where the cast `ts` starts with ends: after the type name and, when a parenthesis opens
      right after it, after the parenthesis that closes it. */
  function CastEnd(ts: seq<string>): (r: Option<nat>)
    requires ts != [] && ts[0] == "::"
    ensures r.Some? ==> 0 < r.value <= |ts|
  {
    if |ts| <= 2 then Some(|ts|)
    else if ts[2] != "(" then Some(2)
    else
      match Close(ts[2..], 0)
      case None => None
      case Some(at) => Some(at + 3)
  }

  /** Every parenthesis that opens right after a cast type, where the pass meets one, closes. */
  predicate CastsClose(ts: seq<string>) {
    if ts == [] then true
    else if ts[0] != "::" then CastsClose(ts[1..])
    else
      match CastEnd(ts)
      case None => false
      case Some(end) => CastsClose(ts[end..])
  }

  function WithoutCasts(ts: seq<string>): seq<string>
    requires CastsClose(ts)
  {
    if ts == [] then []
    else if ts[0] != "::" then [ts[0]] + WithoutCasts(ts[1..])
    else WithoutCasts(ts[CastEnd(ts).value..])
  }

  /** The relaxation of `key` is defined: its pass over casts comes to an end. */
  predicate Relaxable(key: seq<string>) {
    CastsClose(WithoutQualifiers(key))
  }

  function Relaxed(key: seq<string>): seq<string>
    requires Relaxable(key)
  {
    WithoutCasts(WithoutQualifiers(key))
  }

  // ---------------------------------------------------------------- the comparison

  datatype Verdict = Equivalent | Undecided | Different

  /** The comparison comes to an end: relaxed keys are asked for only when the keys differ. */
  predicate Comparable(left: seq<string>, right: seq<string>) {
    left == right || (Relaxable(left) && Relaxable(right))
  }

  function CompareKeys(left: seq<string>, right: seq<string>): Verdict
    requires Comparable(left, right)
  {
    if left == right then Equivalent
    else if Relaxed(left) == Relaxed(right) then Undecided
    else Different
  }

  // ---------------------------------------------------------------- the source's loops

  /** The index of the closing parenthesis, or -1. */
  method ClosingParen(tokens: seq<string>, start: nat) returns (index: int)
    requires start <= |tokens|
    ensures var close := Close(tokens[start..], 0);
            index == if close.Some? then start + close.value else -1
  {
    var depth := 0;
    for i := start to |tokens|
      invariant var close := Close(tokens[start..], 0);
                var rest := Close(tokens[i..], depth);
                close.Some? == rest.Some? && (rest.Some? ==> start + close.value == i + rest.value)
    {
      assert tokens[i..][1..] == tokens[i + 1..];
      if tokens[i] == "(" {
        depth := depth + 1;
      } else if tokens[i] == ")" {
        depth := depth - 1;
        if depth == 0 {
          return i;
        }
      }
    }
    return -1;
  }

  method IsBalanced(tokens: seq<string>) returns (balanced: bool)
    ensures balanced == Balanced(tokens, 0)
  {
    var depth: nat := 0;
    for i := 0 to |tokens|
      invariant Balanced(tokens, 0) == Balanced(tokens[i..], depth)
    {
      assert tokens[i..][1..] == tokens[i + 1..];
      if tokens[i] == "(" {
        depth := depth + 1;
      } else if tokens[i] == ")" {
        if depth == 0 {
          return false;
        }
        depth := depth - 1;
      }
    }
    return depth == 0;
  }

  method DropOutputAlias(tokens: seq<string>) returns (out: seq<string>)
    ensures out == WithoutAlias(tokens)
  {
    if 3 <= |tokens| && tokens[|tokens| - 2] == "as" && IsName(tokens[|tokens| - 1]) {
      var head := tokens[..|tokens| - 2];
      var balanced := IsBalanced(head);
      if balanced {
        return head;
      }
    }
    return tokens;
  }

  method DropOuterParens(tokens: seq<string>) returns (out: seq<string>)
    ensures out == WithoutOuterParens(tokens)
  {
    out := tokens;
    while 2 <= |out| && out[0] == "("
      invariant WithoutOuterParens(out) == WithoutOuterParens(tokens)
      decreases |out|
    {
      var close := ClosingParen(out, 0);
      assert out[0..] == out;
      if close != |out| - 1 {
        return;
      }
      out := out[1..|out| - 1];
    }
  }

  method SingleValueInAsEquals(tokens: seq<string>) returns (out: seq<string>)
    ensures out == InAsEquals(tokens)
  {
    out := [];
    var index := 0;
    while index < |tokens|
      invariant 0 <= index <= |tokens|
      invariant out + InAsEquals(tokens[index..]) == InAsEquals(tokens)
    {
      ghost var rest := tokens[index..];
      ghost var before := out;
      if tokens[index] == "in" && index + 3 < |tokens| && tokens[index + 1] == "(" && tokens[index + 3] == ")" {
        assert rest[4..] == tokens[index + 4..];
        out := out + ["=", tokens[index + 2]];
        assert out + InAsEquals(rest[4..]) == before + InAsEquals(rest);
        index := index + 4;
      } else {
        assert rest[1..] == tokens[index + 1..];
        out := out + [tokens[index]];
        assert out + InAsEquals(rest[1..]) == before + InAsEquals(rest);
        index := index + 1;
      }
    }
  }

  method DropQualifiers(tokens: seq<string>) returns (out: seq<string>)
    ensures out == WithoutQualifiers(tokens)
  {
    out := [];
    var index := 0;
    while index < |tokens|
      invariant 0 <= index <= |tokens|
      invariant out + WithoutQualifiers(tokens[index..]) == WithoutQualifiers(tokens)
    {
      ghost var rest := tokens[index..];
      ghost var before := out;
      if IsName(tokens[index]) && index + 2 < |tokens| && tokens[index + 1] == "." && IsName(tokens[index + 2]) {
        assert rest[2..] == tokens[index + 2..];
        index := index + 2;
      } else {
        assert rest[1..] == tokens[index + 1..];
        out := out + [tokens[index]];
        assert out + WithoutQualifiers(rest[1..]) == before + WithoutQualifiers(rest);
        index := index + 1;
      }
    }
  }

  /** Where a cast at `index` ends: after its type, and the parenthesis that opens right behind it. */
  method CastEndAt(tokens: seq<string>, index: nat) returns (end: nat)
    requires index < |tokens| && tokens[index] == "::" && CastEnd(tokens[index..]).Some?
    ensures index < end
    ensures CastEnd(tokens[index..]).value == (if end <= |tokens| then end else |tokens|) - index
  {
    ghost var rest := tokens[index..];
    end := index + 2;
    if end < |tokens| && tokens[end] == "(" {
      assert rest[2..] == tokens[end..];
      var close := ClosingParen(tokens, end);
      end := close + 1;
    }
  }

  method DropCasts(tokens: seq<string>) returns (out: seq<string>)
    requires CastsClose(tokens)
    ensures out == WithoutCasts(tokens)
  {
    out := [];
    var index := 0;
    ghost var rest := tokens;
    while index < |tokens|
      invariant 0 <= index && rest == (if index <= |tokens| then tokens[index..] else [])
      invariant CastsClose(rest) && out + WithoutCasts(rest) == WithoutCasts(tokens)
    {
      if tokens[index] == "::" {
        ghost var length := CastEnd(rest).value;
        assert rest[length..] == tokens[index + length..];
        rest := rest[length..];
        index := CastEndAt(tokens, index);
      } else {
        out := out + [tokens[index]];
        index := index + 1;
        rest := rest[1..];
      }
    }
  }

  method CanonicalKey(fragment: string) returns (key: seq<string>)
    ensures key == Canonical(fragment)
  {
    var tokens := Tokens(fragment);
    tokens := DropOutputAlias(tokens);
    tokens := DropOuterParens(tokens);
    key := SingleValueInAsEquals(tokens);
  }

  method RelaxedKey(key: seq<string>) returns (out: seq<string>)
    requires Relaxable(key)
    ensures out == Relaxed(key)
  {
    var unqualified := DropQualifiers(key);
    out := DropCasts(unqualified);
  }

  method CompareFragments(governed: string, proposed: string) returns (verdict: Verdict)
    requires Comparable(Canonical(governed), Canonical(proposed))
    ensures verdict == CompareKeys(Canonical(governed), Canonical(proposed))
  {
    var left := CanonicalKey(governed);
    var right := CanonicalKey(proposed);
    if left == right {
      return Equivalent;
    }
    var relaxedLeft := RelaxedKey(left);
    var relaxedRight := RelaxedKey(right);
    return if relaxedLeft == relaxedRight then Undecided else Different;
  }
}
