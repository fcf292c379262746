/** What the lexer means: which text one token covers, that lexing has a stable normal form,
    and that it loses nothing but unquoted spacing and unquoted case. */
module LexerLaws {
  import opened Prelude
  import opened Lexer

  // ---------------------------------------------------------------- runs inside longer texts

  lemma {:induction false} QuoteExtends(t: string, rest: string, q: char)
    requires QuoteCloses(t, q) && QuoteTail(t, q) == |t|
    requires rest == "" || rest[0] != q
    ensures QuoteTail(t + rest, q) == |t|
    decreases |t|
  {
    if t[0] != q {
      assert (t + rest)[1..] == t[1..] + rest;
      QuoteExtends(t[1..], rest, q);
    } else if 1 < |t| && t[1] == q {
      assert (t + rest)[2..] == t[2..] + rest;
      QuoteExtends(t[2..], rest, q);
    } else {
      assert 1 < |t + rest| ==> (t + rest)[1] == rest[0];
    }
  }

  /** Cutting a source at the end of its quoted run leaves the same run, closed unless it
      reached the end of the source. */
  lemma {:induction false} QuoteCut(s: string, q: char)
    ensures QuoteTail(s[..QuoteTail(s, q)], q) == QuoteTail(s, q)
    ensures QuoteTail(s, q) < |s| ==> QuoteCloses(s[..QuoteTail(s, q)], q)
    decreases |s|
  {
    var n := QuoteTail(s, q);
    if s == "" {
    } else if s[0] != q {
      QuoteCut(s[1..], q);
      assert s[..n][1..] == s[1..][..n - 1];
    } else if 1 < |s| && s[1] == q {
      QuoteCut(s[2..], q);
      assert s[..n][2..] == s[2..][..n - 2];
    } else {
      assert s[..1] == [q];
    }
  }

  lemma {:induction false} FindExtends(t: string, rest: string, pattern: string)
    requires Find(t, pattern).Some?
    ensures Find(t + rest, pattern) == Find(t, pattern)
    decreases |t|
  {
    assert (t + rest)[..|pattern|] == t[..|pattern|];
    if t[..|pattern|] != pattern {
      assert (t + rest)[1..] == t[1..] + rest;
      FindExtends(t[1..], rest, pattern);
    }
  }

  lemma {:induction false} FindShrinks(t: string, rest: string, pattern: string)
    requires Find(t + rest, pattern).Some? && Find(t + rest, pattern).value + |pattern| <= |t|
    ensures Find(t, pattern) == Find(t + rest, pattern)
    decreases |t|
  {
    assert (t + rest)[..|pattern|] == t[..|pattern|];
    if t[..|pattern|] != pattern {
      assert (t + rest)[1..] == t[1..] + rest;
      FindShrinks(t[1..], rest, pattern);
    }
  }

  /** A tag is recognised whatever follows it. */
  lemma TagExtends(s: string, rest: string)
    requires 0 < TagLength(s)
    ensures TagLength(s[..TagLength(s)] + rest) == TagLength(s)
  {
    var n := TagLength(s);
    var t := s[..n] + rest;
    assert forall i :: 0 <= i < n ==> t[i] == s[i];
    if s[1] != '$' {
      assert forall i :: 0 <= i < n - 2 ==> t[1..][i] == s[1..][i];
      assert t[1..][n - 2] == '$';
      assert RunLength(t[1..], IsTagChar) == n - 2;
    }
  }

  // ---------------------------------------------------------------- tokens on their own

  /** `t` is exactly one token, spelled as the lexer spells it. */
  predicate IsToken(t: string) {
    t != "" && !IsSpace(t[0]) && TokenLength(t) == |t| && Spell(t) == t
  }

  /** Nothing that follows `t` after a blank can become part of it. */
  predicate Sealed(t: string) {
    if t == "" then false
    else if t[0] in QUOTES then QuoteCloses(t[1..], t[0])
    else if 0 < TagLength(t) then Find(t[TagLength(t)..], t[..TagLength(t)]).Some?
    else true
  }

  lemma LowerKeeps(s: string)
    ensures Lower(Lower(s)) == Lower(s)
    ensures forall i :: 0 <= i < |s| ==> IsWordChar(Lower(s)[i]) == IsWordChar(s[i])
    ensures forall i :: 0 <= i < |s| ==> IsWordStart(Lower(s)[i]) == IsWordStart(s[i])
  {
  }

  lemma FirstQuoteStands(s: string)
    requires s != "" && s[0] in QUOTES
    ensures var t := s[..TokenLength(s)];
            IsToken(t) && (|t| < |s| ==> Sealed(t))
  {
    var t := s[..TokenLength(s)];
    QuoteCut(s[1..], s[0]);
    assert t[1..] == s[1..][..|t| - 1];
  }

  /** A dollar-quoted token is its tag and the run the tag opens. */
  lemma DollarTokenParts(run: string, rest: string)
    requires run != "" && !IsSpace(run[0]) && run[0] !in QUOTES
    requires 0 < TagLength(run + rest) && TokenLength(run + rest) == |run|
    ensures var k := TagLength(run + rest);
            && k <= |run| && run + rest == run[..k] + (run[k..] + rest) && run == run[..k] + run[k..]
            && DollarTail(run[k..] + rest, run[..k]) == |run[k..]|
  {
    var k := TagLength(run + rest);
    assert (run + rest)[..k] == run[..k] && (run + rest)[k..] == run[k..] + rest;
  }

  lemma DollarRunCut(run: string, rest: string, tag: string)
    requires tag != "" && DollarTail(run + rest, tag) == |run|
    ensures DollarTail(run, tag) == |run| && (rest != "" ==> Find(run, tag).Some?)
  {
    if Find(run + rest, tag).Some? {
      FindShrinks(run, rest, tag);
    } else {
      assert run + rest == run;
    }
  }

  lemma DollarTokenStands(tag: string, run: string)
    requires TagLength(tag + run) == |tag| && 0 < |tag| && DollarTail(run, tag) == |run|
    ensures IsToken(tag + run)
    ensures Find(run, tag).Some? ==> Sealed(tag + run)
  {
    var t := tag + run;
    assert t[..|tag|] == tag && t[|tag|..] == run;
  }

  lemma FirstDollarStands(run: string, rest: string)
    requires run != "" && !IsSpace(run[0]) && run[0] !in QUOTES
    requires 0 < TagLength(run + rest) && TokenLength(run + rest) == |run|
    ensures IsToken(run) && (rest != "" ==> Sealed(run))
  {
    var s := run + rest;
    var k := TagLength(s);
    DollarTokenParts(run, rest);
    TagExtends(s, run[k..]);
    assert s[..k] == run[..k];
    DollarRunCut(run[k..], rest, run[..k]);
    DollarTokenStands(run[..k], run[k..]);
  }

  lemma FirstWordStands(s: string)
    requires IsWord(s)
    ensures var t := Lower(s[..RunLength(s, IsWordChar)]);
            IsToken(t) && Sealed(t) && TokenLength(s) == |t|
  {
    var n := RunLength(s, IsWordChar);
    var t := s[..n];
    LowerKeeps(t);
    assert RunLength(Lower(t), IsWordChar) == n;
    assert TagLength(Lower(t)) == 0 && TagLength(s) == 0;
  }

  /** The first token of a source, cut out and respelled, is a token by itself. */
  lemma FirstTokenStands(s: string)
    requires s != "" && !IsSpace(s[0])
    ensures IsToken(Spell(s[..TokenLength(s)]))
    ensures TokenLength(s) < |s| ==> Sealed(Spell(s[..TokenLength(s)]))
  {
    if s[0] in QUOTES {
      FirstQuoteStands(s);
    } else if 0 < TagLength(s) {
      var n := TokenLength(s);
      assert s[..n] + s[n..] == s;
      FirstDollarStands(s[..n], s[n..]);
    } else if IsWord(s) {
      FirstWordStands(s);
    } else {
      FirstSymbolStands(s);
    }
  }

  lemma FirstSymbolStands(s: string)
    requires s != "" && !IsSpace(s[0]) && s[0] !in QUOTES && TagLength(s) == 0 && !IsWord(s)
    ensures var t := s[..TokenLength(s)];
            IsToken(t) && Sealed(t) && Spell(t) == t
  {
    var t := s[..TokenLength(s)];
    assert TagLength(t) == 0;
  }

  lemma QuoteTokenLength(q: char, tail: string)
    requires q in QUOTES
    ensures TokenLength([q] + tail) == 1 + QuoteTail(tail, q)
  {
    assert ([q] + tail)[1..] == tail;
  }

  lemma QuoteBeforeBlank(t: string, rest: string)
    requires IsToken(t) && Sealed(t) && t[0] in QUOTES
    ensures TokenLength(t + (" " + rest)) == |t|
  {
    QuoteExtends(t[1..], " " + rest, t[0]);
    assert (t + (" " + rest))[1..] == t[1..] + (" " + rest);
  }

  lemma DollarBeforeBlank(t: string, rest: string)
    requires IsToken(t) && Sealed(t) && t[0] !in QUOTES && 0 < TagLength(t)
    ensures TokenLength(t + rest) == |t|
  {
    var k := TagLength(t);
    var tag, body := t[..k], t[k..];
    TagExtends(t, body + rest);
    assert tag + (body + rest) == t + rest;
    FindExtends(body, rest, tag);
    assert (t + rest)[k..] == body + rest && (t + rest)[..k] == tag;
  }

  lemma WordBeforeBlank(t: string, rest: string)
    requires IsToken(t) && IsWord(t)
    ensures TokenLength(t + (" " + rest)) == |t|
  {
    var s := t + (" " + rest);
    assert TagLength(t) == 0 && TagLength(s) == 0;
    assert s[|t|] == ' ';
    assert RunLength(s, IsWordChar) == |t|;
  }

  lemma SymbolBeforeBlank(t: string, rest: string)
    requires IsToken(t) && t[0] !in QUOTES && TagLength(t) == 0 && !IsWord(t)
    ensures TokenLength(t + (" " + rest)) == |t|
  {
    var s := t + (" " + rest);
    assert |t| == 2 ==> t[0] != '$';
    assert |t| == 1 ==> s[1] == ' ';
    assert TagLength(s) == 0;
  }

  /** A sealed token is still the first token when a blank and anything else follow it. */
  lemma TokenBeforeBlank(t: string, rest: string)
    requires IsToken(t) && Sealed(t)
    ensures TokenLength(t + (" " + rest)) == |t|
  {
    if t[0] in QUOTES {
      QuoteBeforeBlank(t, rest);
    } else if 0 < TagLength(t) {
      DollarBeforeBlank(t, " " + rest);
    } else if IsWord(t) {
      WordBeforeBlank(t, rest);
    } else {
      SymbolBeforeBlank(t, rest);
    }
  }

  // ---------------------------------------------------------------- the normal form

  function Spaced(ts: seq<string>): string {
    if |ts| == 0 then ""
    else if |ts| == 1 then ts[0]
    else ts[0] + " " + Spaced(ts[1..])
  }

  /** Lists of tokens that survive being written out: only the last may be left open. */
  predicate Writable(ts: seq<string>) {
    && (forall i :: 0 <= i < |ts| ==> IsToken(ts[i]))
    && (forall i :: 0 <= i < |ts| - 1 ==> Sealed(ts[i]))
  }

  lemma {:induction false} LexOfSpaced(ts: seq<string>)
    requires Writable(ts)
    ensures Lex(Spaced(ts)) == ts
  {
    if |ts| == 0 {
    } else if |ts| == 1 {
      var t := ts[0];
      assert t[..|t|] == t && t[|t|..] == "";
      assert Lex(t) == [t] + Lex("");
    } else {
      var t := ts[0];
      var rest := Spaced(ts[1..]);
      var s := t + (" " + rest);
      assert Spaced(ts) == s;
      TokenBeforeBlank(t, rest);
      assert s[..|t|] == t && s[|t|..] == " " + rest;
      assert (" " + rest)[1..] == rest;
      assert IsSpace(' ');
      LexOfSpaced(ts[1..]);
    }
  }

  lemma WritableWithFirst(t: string, ts: seq<string>)
    requires IsToken(t) && Writable(ts) && (ts != [] ==> Sealed(t))
    ensures Writable([t] + ts)
  {
  }

  lemma {:induction false} LexWritesTokens(s: string)
    ensures Writable(Lex(s))
    decreases |s|
  {
    if s == "" {
    } else if IsSpace(s[0]) {
      LexWritesTokens(s[1..]);
    } else {
      var n := TokenLength(s);
      FirstTokenStands(s);
      LexWritesTokens(s[n..]);
      WritableWithFirst(Spell(s[..n]), Lex(s[n..]));
    }
  }

  /** Lexing has a stable normal form: writing the tokens with single blanks between them and
      reading them again changes nothing, for every source, unterminated runs included. */
  lemma LexIsStable(s: string)
    ensures Lex(Spaced(Lex(s))) == Lex(s)
  {
    LexWritesTokens(s);
    LexOfSpaced(Lex(s));
  }

  // ---------------------------------------------------------------- nothing is lost

  /** The source with unquoted blanks removed and unquoted letters lowered, read one character
      at a time: an account of data and spelling that knows nothing of tokens. `Kept` reads
      outside any run; the other three read inside a word, a quote and a dollar quote. */
  function Kept(s: string): string
    decreases |s|, 1
  {
    if s == "" then ""
    else if IsSpace(s[0]) then Kept(s[1..])
    else if s[0] in QUOTES then [s[0]] + KeptInQuote(s[1..], s[0])
    else if 0 < TagLength(s) then s[..TagLength(s)] + KeptInDollar(s[TagLength(s)..], s[..TagLength(s)])
    else if IsWordStart(s[0]) then KeptInWord(s)
    else [s[0]] + Kept(s[1..])
  }

  function KeptInWord(s: string): string
    decreases |s|, if s != "" && IsWordChar(s[0]) then 0 else 2
  {
    if s != "" && IsWordChar(s[0]) then [LowerChar(s[0])] + KeptInWord(s[1..]) else Kept(s)
  }

  function KeptInQuote(s: string, q: char): string
    decreases |s|, 2
  {
    if s == "" then ""
    else if s[0] != q then [s[0]] + KeptInQuote(s[1..], q)
    else if 1 < |s| && s[1] == q then [q, q] + KeptInQuote(s[2..], q)
    else [q] + Kept(s[1..])
  }

  function KeptInDollar(s: string, tag: string): string
    requires tag != ""
    decreases |s|, 2
  {
    if s == "" then ""
    else if |tag| <= |s| && s[..|tag|] == tag then tag + Kept(s[|tag|..])
    else [s[0]] + KeptInDollar(s[1..], tag)
  }

  function Concat(ts: seq<string>): string {
    if |ts| == 0 then "" else ts[0] + Concat(ts[1..])
  }

  lemma QuoteGoesOn(s: string, n: nat, q: char)
    requires s != "" && n == (if s[0] == q then 2 else 1) <= |s| && (s[0] == q ==> s[1] == q)
    ensures KeptInQuote(s, q) == s[..n] + KeptInQuote(s[n..], q)
  {
    assert s[..1] == [s[0]];
  }

  lemma QuoteStops(q: char, rest: string)
    requires rest == "" || rest[0] != q
    ensures KeptInQuote([q] + rest, q) == [q] + Kept(rest)
  {
    assert ([q] + rest)[1..] == rest;
  }

  lemma {:induction false} QuoteIsKept(run: string, rest: string, q: char)
    requires QuoteTail(run + rest, q) == |run|
    ensures KeptInQuote(run + rest, q) == run + Kept(rest)
    decreases |run|
  {
    var s := run + rest;
    if s == "" {
    } else if s[0] == q && (|s| == 1 || s[1] != q) {
      assert run == [q];
      QuoteStops(q, rest);
    } else {
      var n := if s[0] == q then 2 else 1;
      QuoteGoesOn(s, n, q);
      assert s[n..] == run[n..] + rest && s[..n] == run[..n];
      QuoteIsKept(run[n..], rest, q);
      assert run[..n] + run[n..] == run;
    }
  }

  lemma {:induction false} DollarIsKept(run: string, rest: string, tag: string)
    requires tag != "" && DollarTail(run + rest, tag) == |run|
    ensures KeptInDollar(run + rest, tag) == run + Kept(rest)
    decreases |run|
  {
    var s := run + rest;
    if s == "" {
    } else if |tag| <= |s| && s[..|tag|] == tag {
      assert run == tag && s[|tag|..] == rest;
    } else {
      assert s[1..] == run[1..] + rest;
      DollarIsKept(run[1..], rest, tag);
    }
  }

  lemma {:induction false} WordIsKept(run: string, rest: string)
    requires RunLength(run + rest, IsWordChar) == |run|
    ensures KeptInWord(run + rest) == Lower(run) + Kept(rest)
    decreases |run|
  {
    if run != "" {
      assert (run + rest)[1..] == run[1..] + rest;
      WordIsKept(run[1..], rest);
    } else {
      assert run + rest == rest;
    }
  }

  lemma QuoteOpens(q: char, rest: string)
    requires q in QUOTES
    ensures Kept([q] + rest) == [q] + KeptInQuote(rest, q)
  {
    assert ([q] + rest)[1..] == rest;
  }

  lemma DollarOpens(tag: string, rest: string)
    requires 0 < TagLength(tag + rest) == |tag|
    ensures Kept(tag + rest) == tag + KeptInDollar(rest, tag)
  {
    var s := tag + rest;
    assert s[..|tag|] == tag && s[|tag|..] == rest;
  }

  lemma WordOpens(s: string)
    requires IsWord(s)
    ensures Kept(s) == KeptInWord(s)
  {
  }

  lemma SymbolIsKept(s: string)
    requires s != "" && !IsSpace(s[0]) && s[0] !in QUOTES && TagLength(s) == 0 && !IsWord(s)
    ensures Kept(s) == [s[0]] + Kept(s[1..])
  {
  }

  lemma QuoteTokenIsKept(run: string, rest: string)
    requires run != "" && run[0] in QUOTES && !IsSpace(run[0]) && TokenLength(run + rest) == |run|
    ensures Kept(run + rest) == run + Kept(rest)
  {
    var q, tail := run[0], run[1..];
    assert run + rest == [q] + (tail + rest) && (run + rest)[1..] == tail + rest;
    QuoteOpens(q, tail + rest);
    QuoteIsKept(tail, rest, q);
    assert [q] + tail == run;
  }

  lemma DollarTokenIsKept(tag: string, tail: string, rest: string)
    requires 0 < TagLength(tag + (tail + rest)) == |tag| && DollarTail(tail + rest, tag) == |tail|
    ensures Kept(tag + (tail + rest)) == (tag + tail) + Kept(rest)
  {
    DollarOpens(tag, tail + rest);
    DollarIsKept(tail, rest, tag);
  }

  lemma SymbolTokenIsKept(run: string, rest: string)
    requires run != "" && !IsSpace(run[0]) && run[0] !in QUOTES && !IsWord(run)
    requires TagLength(run + rest) == 0 && TokenLength(run + rest) == |run|
    ensures Kept(run + rest) == run + Kept(rest)
  {
    var s := run + rest;
    SymbolIsKept(s);
    if |run| == 2 {
      assert s[1..] == [run[1]] + rest;
      SymbolIsKept(s[1..]);
      assert s[1..][1..] == rest;
    } else {
      assert s[1..] == rest;
    }
  }

  /** The first token of a source accounts for what is kept of the text it covers. */
  lemma TokenIsKept(run: string, rest: string)
    requires run != "" && !IsSpace(run[0]) && TokenLength(run + rest) == |run|
    ensures Kept(run + rest) == Spell(run) + Kept(rest)
  {
    if run[0] in QUOTES {
      QuoteTokenIsKept(run, rest);
    } else if 0 < TagLength(run + rest) {
      var k := TagLength(run + rest);
      DollarTokenParts(run, rest);
      DollarTokenIsKept(run[..k], run[k..], rest);
    } else if IsWord(run) {
      WordOpens(run + rest);
      WordIsKept(run, rest);
    } else {
      SymbolTokenIsKept(run, rest);
    }
  }

  /** Lexing loses nothing but unquoted blanks and unquoted case: the tokens, run together, are
      the source with exactly those removed. */
  lemma {:induction false} LexLosesOnlySpelling(s: string)
    ensures Concat(Lex(s)) == Kept(s)
    decreases |s|
  {
    if s == "" {
    } else if IsSpace(s[0]) {
      LexLosesOnlySpelling(s[1..]);
    } else {
      var n := TokenLength(s);
      assert s[..n] + s[n..] == s;
      TokenIsKept(s[..n], s[n..]);
      LexLosesOnlySpelling(s[n..]);
    }
  }

  // ---------------------------------------------------------------- which text is one token

  /** `text` with every `q` in it doubled, the way SQL writes a quote inside quotes. */
  function Doubled(text: string, q: char): string {
    if text == "" then ""
    else if text[0] == q then [q, q] + Doubled(text[1..], q)
    else [text[0]] + Doubled(text[1..], q)
  }

  lemma {:induction false} QuoteTailOfDoubled(text: string, q: char, rest: string)
    requires rest == "" || rest[0] != q
    ensures QuoteTail(Doubled(text, q) + [q] + rest, q) == |Doubled(text, q)| + 1
    decreases |text|
  {
    var s := Doubled(text, q) + [q] + rest;
    if text == "" {
      assert s == [q] + rest;
    } else if text[0] == q {
      QuoteTailOfDoubled(text[1..], q, rest);
      assert s[2..] == Doubled(text[1..], q) + [q] + rest;
    } else {
      QuoteTailOfDoubled(text[1..], q, rest);
      assert s[1..] == Doubled(text[1..], q) + [q] + rest;
    }
  }

  lemma LexHead(token: string, rest: string)
    requires token != "" && !IsSpace(token[0]) && TokenLength(token + rest) == |token|
    ensures Lex(token + rest) == [Spell(token)] + Lex(rest)
  {
    var s := token + rest;
    assert s[..|token|] == token && s[|token|..] == rest;
  }

  lemma QuotedTextLength(text: string, q: char, rest: string)
    requires q in QUOTES && (rest == "" || rest[0] != q)
    ensures TokenLength([q] + Doubled(text, q) + [q] + rest) == |Doubled(text, q)| + 2
  {
    var tail := Doubled(text, q) + [q] + rest;
    QuoteTailOfDoubled(text, q, rest);
    QuoteTokenLength(q, tail);
    assert [q] + Doubled(text, q) + [q] + rest == [q] + tail;
  }

  /** Any text at all, quoted, is one verbatim token. */
  lemma QuotedTextIsOneToken(text: string, q: char, rest: string)
    requires q in QUOTES && (rest == "" || rest[0] != q)
    ensures var token := [q] + Doubled(text, q) + [q];
            Lex(token + rest) == [token] + Lex(rest)
  {
    QuotedTextLength(text, q, rest);
    LexHead([q] + Doubled(text, q) + [q], rest);
  }

  lemma DollarTextStands(tag: string, text: string)
    requires 0 < TagLength(tag) == |tag|
    requires Find(text + tag, tag) == Some(|text|)
    ensures var token := tag + (text + tag);
            IsToken(token) && Sealed(token) && token[0] !in QUOTES && 0 < TagLength(token)
  {
    assert tag[..|tag|] == tag;
    TagExtends(tag, text + tag);
    DollarTokenStands(tag, text + tag);
  }

  /** Any text that does not contain the tag, dollar-quoted, is one verbatim token. */
  lemma DollarTextIsOneToken(tag: string, text: string, rest: string)
    requires 0 < TagLength(tag) == |tag|
    requires Find(text + tag, tag) == Some(|text|)
    ensures Lex(tag + (text + tag) + rest) == [tag + (text + tag)] + Lex(rest)
  {
    DollarTextStands(tag, text);
    DollarBeforeBlank(tag + (text + tag), rest);
    LexHead(tag + (text + tag), rest);
  }

  /** A word runs as far as it can and is lowered. */
  lemma WordIsOneToken(word: string, rest: string)
    requires IsWord(word) && (forall i :: 0 <= i < |word| ==> IsWordChar(word[i]))
    requires rest == "" || !IsWordChar(rest[0])
    ensures Lex(word + rest) == [Lower(word)] + Lex(rest)
  {
    RunIs(word + rest, IsWordChar, |word|);
    LexHead(word, rest);
  }

  /** Any other character is a token, joined with the next one only in an operator pair. */
  lemma SymbolIsOneToken(s: string)
    requires s != "" && !IsSpace(s[0]) && s[0] !in QUOTES && !IsWordStart(s[0]) && TagLength(s) == 0
    ensures var n := if 2 <= |s| && IsOperatorPair(s[0], s[1]) then 2 else 1;
            Lex(s) == [s[..n]] + Lex(s[n..])
  {
    assert !IsWord(s[..1]);
    assert 2 <= |s| ==> !IsWord(s[..2]);
  }
}
