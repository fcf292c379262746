/** What the rewriting passes keep, when they end, and what the three verdicts promise. */
module PassesLaws {
  import opened Prelude
  import opened Lexer
  import opened Passes

  // ---------------------------------------------------------------- parentheses

  function Shift(at: Option<nat>, n: nat): Option<nat> {
    if at.None? then None else Some(at.value + n)
  }

  /** A matched stretch does not change where the enclosing parenthesis closes. */
  lemma {:induction false} CloseSkipsBalanced(body: seq<string>, rest: seq<string>, depth: nat, open: nat)
    requires Balanced(body, open) && 0 < depth
    ensures Close(body + rest, depth + open) == Shift(Close(rest, depth), |body|)
    decreases |body|
  {
    if body == [] {
      assert body + rest == rest;
    } else {
      BalancedTakesOne(body, open);
      CloseSkipsBalanced(body[1..], rest, depth, open + Step(body[0]));
      CloseTakesOne(body + rest, body[0], body[1..] + rest, depth + open, Close(rest, depth), |body| - 1);
    }
  }

  lemma BalancedTakesOne(body: seq<string>, open: nat)
    requires body != [] && Balanced(body, open)
    ensures 0 <= open + Step(body[0]) && Balanced(body[1..], open + Step(body[0])) && (body[0] == ")" ==> 0 < open)
  {
  }

  lemma CloseTakesOne(ts: seq<string>, first: string, later: seq<string>, depth: int, at: Option<nat>, n: nat)
    requires ts != [] && ts[0] == first && ts[1..] == later && !(first == ")" && depth == 1)
    requires Close(later, depth + Step(first)) == Shift(at, n)
    ensures Close(ts, depth) == Shift(at, n + 1)
  {
  }

  /** The parenthesis found for an opening one is its partner: what they enclose is matched. */
  lemma {:induction false} CloseEnclosesBalanced(ts: seq<string>, depth: nat)
    requires 0 < depth && Close(ts, depth).Some?
    ensures Balanced(ts[..Close(ts, depth).value], depth - 1)
    decreases |ts|
  {
    var at := Close(ts, depth).value;
    if ts[0] == ")" && depth == 1 {
      assert ts[..0] == [];
    } else {
      CloseEnclosesBalanced(ts[1..], depth + Step(ts[0]));
      assert ts[..at][1..] == ts[1..][..at - 1];
    }
  }

  /** Wrapping parentheses are exactly one opening token, a matched body, and one closing token. */
  lemma WrappedIffEnclosed(ts: seq<string>)
    ensures Wrapped(ts) <==> (2 <= |ts| && ts[0] == "(" && ts[|ts| - 1] == ")" && Balanced(ts[1..|ts| - 1], 0))
  {
    if 2 <= |ts| && ts[0] == "(" {
      var n := |ts| - 1;
      if Wrapped(ts) {
        CloseEnclosesBalanced(ts[1..], 1);
        assert ts[1..][..n - 1] == ts[1..n];
      }
      if ts[n] == ")" && Balanced(ts[1..n], 0) {
        CloseSkipsBalanced(ts[1..n], [")"], 1, 0);
        assert ts[1..n] + [")"] == ts[1..];
      }
    }
  }

  function Wrap(ts: seq<string>, layers: nat): seq<string> {
    if layers == 0 then ts else ["("] + Wrap(ts, layers - 1) + [")"]
  }

  /** The pass takes off whole layers of parentheses, and all of them. */
  lemma {:induction false} OuterParensComeOffInLayers(ts: seq<string>) returns (layers: nat)
    ensures ts == Wrap(WithoutOuterParens(ts), layers)
    ensures !Wrapped(WithoutOuterParens(ts))
    decreases |ts|
  {
    if Wrapped(ts) {
      var n := OuterParensComeOffInLayers(ts[1..|ts| - 1]);
      layers := n + 1;
      assert ts == ["("] + ts[1..|ts| - 1] + [")"];
    } else {
      layers := 0;
    }
  }

  // ---------------------------------------------------------------- when the cast pass ends

  /** The next index of the source's loop over casts. A parenthesis that never closes is reported
      as -1, so the loop goes on from index 0. */
  function Advance(tokens: seq<string>, index: nat): nat
    requires index < |tokens|
  {
    if tokens[index] != "::" then index + 1
    else if index + 2 < |tokens| && tokens[index + 2] == "(" then
      match Close(tokens[index + 2..], 0)
      case None => 0
      case Some(at) => index + 2 + at + 1
    else index + 2
  }

  function IndexAfter(tokens: seq<string>, index: nat, rounds: nat): nat
    decreases rounds
  {
    if rounds == 0 || |tokens| <= index then index
    else IndexAfter(tokens, Advance(tokens, index), rounds - 1)
  }

  lemma {:induction false} IndexAfterSum(tokens: seq<string>, index: nat, m: nat, n: nat)
    ensures IndexAfter(tokens, index, m + n) == IndexAfter(tokens, IndexAfter(tokens, index, m), n)
    decreases m
  {
    if 0 < m && index < |tokens| {
      IndexAfterSum(tokens, Advance(tokens, index), m - 1, n);
    }
  }

  /** From an index whose remaining cast parentheses close, the loop leaves the list. */
  lemma {:induction false} LoopLeaves(tokens: seq<string>, index: nat) returns (rounds: nat)
    requires index <= |tokens| ==> CastsClose(tokens[index..])
    ensures |tokens| <= IndexAfter(tokens, index, rounds)
    decreases |tokens| - index
  {
    rounds := 0;
    if index < |tokens| {
      var rest := tokens[index..];
      var next := Advance(tokens, index);
      if tokens[index] == "::" {
        if index + 2 < |tokens| && tokens[index + 2] == "(" {
          assert rest[2..] == tokens[index + 2..];
        }
        assert next <= |tokens| ==> rest[CastEnd(rest).value..] == tokens[next..];
      } else {
        assert rest[1..] == tokens[next..];
      }
      var n := LoopLeaves(tokens, next);
      rounds := n + 1;
    }
  }

  /** From an index with a cast parenthesis that never closes, the loop comes back to index 0
      without having left the list. */
  lemma {:induction false} LoopReturns(tokens: seq<string>, index: nat) returns (rounds: nat)
    requires index <= |tokens| && !CastsClose(tokens[index..])
    ensures 0 < rounds && IndexAfter(tokens, index, rounds) == 0
    ensures forall n :: 0 <= n <= rounds ==> IndexAfter(tokens, index, n) < |tokens|
    decreases |tokens| - index
  {
    var rest := tokens[index..];
    var next := Advance(tokens, index);
    if tokens[index] == "::" {
      if index + 2 < |tokens| && tokens[index + 2] == "(" {
        assert rest[2..] == tokens[index + 2..];
      }
      if CastEnd(rest).None? {
        rounds := 1;
        assert IndexAfter(tokens, 0, 0) == 0;
        return;
      }
      assert rest[CastEnd(rest).value..] == tokens[next..];
    } else {
      assert rest[1..] == tokens[next..];
    }
    var more := LoopReturns(tokens, next);
    rounds := more + 1;
    forall n | 0 <= n <= rounds
      ensures IndexAfter(tokens, index, n) < |tokens|
    {
      if 0 < n {
        assert IndexAfter(tokens, index, n) == IndexAfter(tokens, next, n - 1);
      }
    }
  }

  /** One trip back to index 0 is followed by another, for ever. */
  lemma {:induction false} LoopNeverLeaves(tokens: seq<string>, period: nat, n: nat)
    requires 0 < period && IndexAfter(tokens, 0, period) == 0
    requires forall k :: 0 <= k <= period ==> IndexAfter(tokens, 0, k) < |tokens|
    ensures IndexAfter(tokens, 0, n) < |tokens|
    decreases n
  {
    if period <= n {
      IndexAfterSum(tokens, 0, period, n - period);
      LoopNeverLeaves(tokens, period, n - period);
    }
  }

  /** The loop over casts ends if and only if every parenthesis that opens right after a cast
      type, where the loop meets one, closes. */
  lemma CastLoopEndsIff(tokens: seq<string>)
    ensures (exists rounds :: |tokens| <= IndexAfter(tokens, 0, rounds)) <==> CastsClose(tokens)
  {
    assert tokens[0..] == tokens;
    if CastsClose(tokens) {
      var rounds := LoopLeaves(tokens, 0);
    } else {
      var period := LoopReturns(tokens, 0);
      forall rounds: nat
        ensures IndexAfter(tokens, 0, rounds) < |tokens|
      {
        LoopNeverLeaves(tokens, period, rounds);
      }
    }
  }

  /** A parenthesis inside a matched text closes, so such a text never stalls the loop. */
  lemma {:induction false} CloseInsideBalanced(ts: seq<string>, open: nat, depth: nat)
    requires Balanced(ts, open) && 0 < depth <= open
    ensures Close(ts, depth).Some?
    decreases |ts|
  {
    if !(ts[0] == ")" && depth == 1) {
      CloseInsideBalanced(ts[1..], open + Step(ts[0]), depth + Step(ts[0]));
    }
  }

  lemma {:induction false} BalancedSuffix(ts: seq<string>, open: nat, k: nat) returns (left: nat)
    requires Balanced(ts, open) && k <= |ts|
    ensures Balanced(ts[k..], left)
    decreases k
  {
    if k == 0 {
      left := open;
      assert ts[0..] == ts;
    } else {
      left := BalancedSuffix(ts[1..], open + Step(ts[0]), k - 1);
      assert ts[1..][k - 1..] == ts[k..];
    }
  }

  lemma {:induction false} BalancedCastsClose(ts: seq<string>, open: nat)
    requires Balanced(ts, open)
    ensures CastsClose(ts)
    decreases |ts|
  {
    if ts == [] {
    } else if ts[0] != "::" {
      var left := BalancedSuffix(ts, open, 1);
      BalancedCastsClose(ts[1..], left);
    } else {
      if 2 < |ts| && ts[2] == "(" {
        var left := BalancedSuffix(ts, open, 3);
        assert Balanced(ts[3..], left);
        var before := BalancedSuffix(ts, open, 2);
        assert ts[2..][1..] == ts[3..];
        CloseInsideBalanced(ts[3..], before + 1, 1);
      }
      var end := CastEnd(ts).value;
      var left := BalancedSuffix(ts, open, end);
      BalancedCastsClose(ts[end..], left);
    }
  }

  lemma AliasKeepsBalance(ts: seq<string>)
    requires Balanced(ts, 0)
    ensures Balanced(WithoutAlias(ts), 0)
  {
  }

  lemma {:induction false} OuterParensKeepBalance(ts: seq<string>)
    requires Balanced(ts, 0)
    ensures Balanced(WithoutOuterParens(ts), 0)
    decreases |ts|
  {
    if Wrapped(ts) {
      WrappedIffEnclosed(ts);
      OuterParensKeepBalance(ts[1..|ts| - 1]);
    }
  }

  lemma {:induction false} InAsEqualsKeepsBalance(ts: seq<string>, open: nat)
    requires Balanced(ts, open)
    ensures Balanced(InAsEquals(ts), open)
    decreases |ts|
  {
    if ts == [] {
    } else if OneValueIn(ts) {
      OneValueBalance(ts, ts[2], ts[4..], open);
      InAsEqualsKeepsBalance(ts[4..], open + Step(ts[2]));
      EqualsBalance(ts[2], InAsEquals(ts[4..]), open);
    } else {
      InAsEqualsKeepsBalance(ts[1..], open + Step(ts[0]));
      OneTokenBalance(ts[0], InAsEquals(ts[1..]), open);
    }
  }

  lemma OneTokenBalance(t: string, rest: seq<string>, open: nat)
    requires 0 <= open + Step(t) && Balanced(rest, open + Step(t))
    ensures Balanced([t] + rest, open)
  {
    assert ([t] + rest)[1..] == rest;
  }

  lemma EqualsBalance(t: string, rest: seq<string>, open: nat)
    requires 0 <= open + Step(t) && Balanced(rest, open + Step(t))
    ensures Balanced(["=", t] + rest, open)
  {
    OneTokenBalance(t, rest, open);
    OneTokenBalance("=", [t] + rest, open);
    assert ["=", t] + rest == ["="] + ([t] + rest);
  }

  lemma OneValueBalance(ts: seq<string>, t: string, rest: seq<string>, open: nat)
    requires Balanced(ts, open) && OneValueIn(ts) && t == ts[2] && rest == ts[4..]
    ensures 0 <= open + Step(t) && Balanced(rest, open + Step(t))
  {
    assert ts[1..][1..] == ts[2..] && ts[2..][1..] == ts[3..] && ts[3..][1..] == rest;
    assert Balanced(ts[2..], open + 1);
    BalancedTakesOne(ts[2..], open + 1);
    BalancedTakesOne(ts[3..], open + 1 + Step(t));
  }

  lemma {:induction false} QualifiersKeepBalance(ts: seq<string>, open: nat)
    requires Balanced(ts, open)
    ensures Balanced(WithoutQualifiers(ts), open)
    decreases |ts|
  {
    if ts == [] {
    } else if Qualifies(ts) {
      assert ts[1..][1..] == ts[2..];
      QualifiersKeepBalance(ts[2..], open);
    } else {
      QualifiersKeepBalance(ts[1..], open + Step(ts[0]));
      OneTokenBalance(ts[0], WithoutQualifiers(ts[1..]), open);
    }
  }

  /** Texts whose parentheses match always compare: no cast in them can stall the loop. */
  lemma MatchedTextsCompare(left: string, right: string)
    requires Balanced(Lex(left), 0) && Balanced(Lex(right), 0)
    ensures Comparable(Canonical(left), Canonical(right))
  {
    MatchedTextRelaxes(left);
    MatchedTextRelaxes(right);
  }

  lemma MatchedTextRelaxes(text: string)
    requires Balanced(Lex(text), 0)
    ensures Relaxable(Canonical(text))
  {
    AliasKeepsBalance(Lex(text));
    OuterParensKeepBalance(WithoutAlias(Lex(text)));
    InAsEqualsKeepsBalance(WithoutOuterParens(WithoutAlias(Lex(text))), 0);
    QualifiersKeepBalance(Canonical(text), 0);
    BalancedCastsClose(WithoutQualifiers(Canonical(text)), 0);
  }

  // ---------------------------------------------------------------- literals survive

  /** A quoted or dollar-quoted run: text that is data. */
  predicate IsData(t: string) {
    t != "" && (t[0] in QUOTES || 0 < TagLength(t))
  }

  function Data(ts: seq<string>): seq<string> {
    if ts == [] then []
    else if IsData(ts[0]) then [ts[0]] + Data(ts[1..])
    else Data(ts[1..])
  }

  lemma {:induction false} DataOfConcat(a: seq<string>, b: seq<string>)
    ensures Data(a + b) == Data(a) + Data(b)
  {
    if a == [] {
      assert a + b == b;
    } else {
      assert (a + b)[1..] == a[1..] + b;
      DataOfConcat(a[1..], b);
    }
  }

  lemma AliasKeepsData(ts: seq<string>)
    ensures Data(WithoutAlias(ts)) == Data(ts)
  {
    if WithoutAlias(ts) != ts {
      var n := |ts| - 2;
      assert ts == ts[..n] + [ts[n], ts[n + 1]];
      DataOfConcat(ts[..n], [ts[n], ts[n + 1]]);
      assert [ts[n], ts[n + 1]] == [ts[n]] + [ts[n + 1]];
      DataOfConcat([ts[n]], [ts[n + 1]]);
    }
  }

  lemma {:induction false} OuterParensKeepData(ts: seq<string>)
    ensures Data(WithoutOuterParens(ts)) == Data(ts)
    decreases |ts|
  {
    if Wrapped(ts) {
      var body := ts[1..|ts| - 1];
      OuterParensKeepData(body);
      assert ts == (["("] + body) + [")"];
      DataOfConcat(["("] + body, [")"]);
      DataOfConcat(["("], body);
    }
  }

  lemma {:induction false} InAsEqualsKeepsData(ts: seq<string>)
    ensures Data(InAsEquals(ts)) == Data(ts)
    decreases |ts|
  {
    if ts == [] {
    } else if OneValueIn(ts) {
      InAsEqualsKeepsData(ts[4..]);
      assert ts == ["in", "(", ts[2], ")"] + ts[4..];
      DataOfConcat(["in", "(", ts[2], ")"], ts[4..]);
      DataOfConcat(["=", ts[2]], InAsEquals(ts[4..]));
      OneTokenBetween("in", "(", ts[2], ")");
      assert Data(["=", ts[2]]) == Data(["=", ts[2]][1..]);
    } else {
      InAsEqualsKeepsData(ts[1..]);
      assert ts == [ts[0]] + ts[1..];
      DataOfConcat([ts[0]], ts[1..]);
      DataOfConcat([ts[0]], InAsEquals(ts[1..]));
    }
  }

  lemma OneTokenBetween(a: string, b: string, t: string, c: string)
    requires !IsData(a) && !IsData(b) && !IsData(c)
    ensures Data([a, b, t, c]) == Data([t])
  {
    assert [a, b, t, c] == ([a] + [b]) + ([t] + [c]);
    DataOfConcat([a] + [b], [t] + [c]);
    DataOfConcat([a], [b]);
    DataOfConcat([t], [c]);
  }

  /** A fragment's key carries exactly its quoted and dollar-quoted runs, in order. */
  lemma KeyCarriesTheData(fragment: string)
    ensures Data(Canonical(fragment)) == Data(Lex(fragment))
  {
    var ts := Lex(fragment);
    AliasKeepsData(ts);
    OuterParensKeepData(WithoutAlias(ts));
    InAsEqualsKeepsData(WithoutOuterParens(WithoutAlias(ts)));
  }

  /** Equivalent fragments state the identical sequence of literals: no fold ever makes two
      different literals compare equal. */
  lemma EquivalentFragmentsShareData(a: string, b: string)
    requires Comparable(Canonical(a), Canonical(b)) && CompareKeys(Canonical(a), Canonical(b)) == Equivalent
    ensures Data(Lex(a)) == Data(Lex(b))
  {
    KeyCarriesTheData(a);
    KeyCarriesTheData(b);
  }

  lemma {:induction false} QualifiersKeepData(ts: seq<string>)
    ensures Data(WithoutQualifiers(ts)) == Data(ts)
    decreases |ts|
  {
    if ts == [] {
    } else if Qualifies(ts) {
      QualifiersKeepData(ts[2..]);
      assert ts[1..][1..] == ts[2..];
    } else {
      QualifiersKeepData(ts[1..]);
      assert ([ts[0]] + WithoutQualifiers(ts[1..]))[1..] == WithoutQualifiers(ts[1..]);
    }
  }

  /** What the pass leaves has no qualified name: every chain is reduced to its last part. */
  lemma {:induction false} NoQualifierLeft(ts: seq<string>, k: nat)
    requires k < |WithoutQualifiers(ts)|
    ensures !Qualifies(WithoutQualifiers(ts)[k..])
    decreases |ts|
  {
    var out := WithoutQualifiers(ts);
    if Qualifies(ts) {
      NoQualifierLeft(ts[2..], k);
    } else if 0 < k {
      NoQualifierLeft(ts[1..], k - 1);
      assert out[k..] == out[1..][k - 1..];
    } else if Qualifies(out) {
      var next := WithoutQualifiers(ts[1..]);
      assert out == [ts[0]] + next && next[0] == "." && IsName(next[1]);
      FirstOfUnqualified(ts[1..]);
      assert ts[1] == "." && !Qualifies(ts[1..]);
      assert next == ["."] + WithoutQualifiers(ts[1..][1..]);
      assert ts[1..][1..] == ts[2..];
      FirstOfUnqualified(ts[2..]);
    }
  }

  lemma {:induction false} FirstOfUnqualified(ts: seq<string>)
    ensures WithoutQualifiers(ts) == [] <==> ts == []
    ensures ts != [] ==> (IsName(WithoutQualifiers(ts)[0]) <==> IsName(ts[0]))
    ensures ts != [] && !IsName(ts[0]) ==> WithoutQualifiers(ts)[0] == ts[0]
    decreases |ts|
  {
    if ts != [] && Qualifies(ts) {
      FirstOfUnqualified(ts[2..]);
    }
  }

  // ---------------------------------------------------------------- the three verdicts

  /** EQUIVALENT and not-DIFFERENT are equivalence relations on keys, the first inside the second,
      wherever the comparisons come to an end. */
  lemma VerdictsAreEquivalences(a: seq<string>, b: seq<string>, c: seq<string>)
    requires Comparable(a, b) && Comparable(b, c) && Comparable(a, c)
    ensures CompareKeys(a, a) == Equivalent
    ensures CompareKeys(a, b) == CompareKeys(b, a)
    ensures CompareKeys(a, b) == Equivalent && CompareKeys(b, c) == Equivalent ==> CompareKeys(a, c) == Equivalent
    ensures CompareKeys(a, b) != Different && CompareKeys(b, c) != Different ==> CompareKeys(a, c) != Different
    ensures CompareKeys(a, b) == Equivalent ==> CompareKeys(a, c) == CompareKeys(b, c)
  {
  }
}
