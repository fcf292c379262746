/** The lexer of `hyperset/bundle/equivalence.py`: it reads far enough to tell data from
    spelling. Everything inside a quote or a dollar quote is data and is kept verbatim;
    everything outside is spelling, where case and spacing carry no meaning.

    `Lex` is the specification, stated on suffixes of the source. The methods are the source's
    own loops over indices, proved to compute it. The lemmas say what `Lex` means. */
module Lexer {
  import opened Prelude

  const QUOTES := {'\'', '"', '`'}

  /** The two-character operators: `::`, `<=`, `>=`, `<>`, `!=` and `||`. */
  predicate IsOperatorPair(a: char, b: char) {
    || (a == ':' && b == ':')
    || (a in {'<', '>', '!'} && b == '=')
    || (a == '<' && b == '>')
    || (a == '|' && b == '|')
  }

  predicate IsWordStart(c: char) {
    IsAlnum(c) || c == '_'
  }

  predicate IsWordChar(c: char) {
    IsWordStart(c) || c == '$'
  }

  predicate IsTagChar(c: char) {
    IsAlnum(c) || c == '_'
  }

  predicate IsTagStart(c: char) {
    IsAlpha(c) || c == '_'
  }

  // ---------------------------------------------------------------- quoted runs

  /** Length of the rest of a quoted run, given the text after its opening quote. */
  function QuoteTail(s: string, q: char): (n: nat)
    ensures n <= |s|
    ensures s != "" ==> 0 < n
  {
    if s == "" then 0
    else if s[0] != q then 1 + QuoteTail(s[1..], q)
    else if 1 < |s| && s[1] == q then 2 + QuoteTail(s[2..], q)
    else 1
  }

  /** Whether a quoted run, given the text after its opening quote, is ever closed. */
  predicate QuoteCloses(s: string, q: char) {
    if s == "" then false
    else if s[0] != q then QuoteCloses(s[1..], q)
    else if 1 < |s| && s[1] == q then QuoteCloses(s[2..], q)
    else true
  }

  // ---------------------------------------------------------------- dollar quotes

  /** Length of the dollar-quote tag `s` starts with (section 4.1.2.4 of the PostgreSQL
      manual), or 0 when it starts with none. */
  function TagLength(s: string): (n: nat)
    ensures n <= |s|
    ensures n == 0 || 2 <= n
  {
    if |s| < 2 || s[0] != '$' then 0
    else if s[1] == '$' then 2
    else if !IsTagStart(s[1]) then 0
    else
      var end := 1 + RunLength(s[1..], IsTagChar);
      if end < |s| && s[end] == '$' then end + 1 else 0
  }

  /** `str.find`: the least offset at which `pattern` occurs in `s`. */
  function Find(s: string, pattern: string): (r: Option<nat>)
    ensures r.Some? ==> r.value + |pattern| <= |s| && s[r.value..r.value + |pattern|] == pattern
  {
    if |s| < |pattern| then None
    else if s[..|pattern|] == pattern then Some(0)
    else if s == "" then None
    else
      match Find(s[1..], pattern)
      case None => None
      case Some(at) =>
        assert s[1..][at..at + |pattern|] == s[at + 1..at + 1 + |pattern|];
        Some(at + 1)
  }

  /** Length of the rest of a dollar-quoted run, given the text after its opening tag. */
  function DollarTail(s: string, tag: string): (n: nat)
    ensures n <= |s|
  {
    match Find(s, tag)
    case None => |s|
    case Some(at) => at + |tag|
  }

  // ---------------------------------------------------------------- one token

  predicate IsWord(s: string) {
    s != "" && IsWordStart(s[0])
  }

  /** Length of the token a non-blank source starts with. */
  function TokenLength(s: string): (n: nat)
    requires s != "" && !IsSpace(s[0])
    ensures 0 < n <= |s|
  {
    if s[0] in QUOTES then 1 + QuoteTail(s[1..], s[0])
    else if 0 < TagLength(s) then TagLength(s) + DollarTail(s[TagLength(s)..], s[..TagLength(s)])
    else if IsWord(s) then RunLength(s, IsWordChar)
    else if 2 <= |s| && IsOperatorPair(s[0], s[1]) then 2
    else 1
  }

  /** The spelling a token is compared by: words are case-folded, everything else is verbatim. */
  function Spell(raw: string): string {
    if IsWord(raw) then Lower(raw) else raw
  }

  function Lex(s: string): seq<string>
    decreases |s|
  {
    if s == "" then []
    else if IsSpace(s[0]) then Lex(s[1..])
    else
      var n := TokenLength(s);
      [Spell(s[..n])] + Lex(s[n..])
  }

  // ---------------------------------------------------------------- the source's loops

  method ClosingQuote(source: string, start: nat) returns (end: nat)
    requires start < |source|
    ensures end == start + 1 + QuoteTail(source[start + 1..], source[start])
  {
    var quote := source[start];
    var index := start + 1;
    while index < |source|
      invariant start < index <= |source|
      invariant index + QuoteTail(source[index..], quote) == start + 1 + QuoteTail(source[start + 1..], quote)
    {
      if source[index] != quote {
        index := index + 1;
      } else if index + 1 < |source| && source[index + 1] == quote {
        assert source[index..][2..] == source[index + 2..];
        index := index + 2;
      } else {
        return index + 1;
      }
    }
    return |source|;
  }

  method ClosingDollarQuote(source: string, start: nat) returns (end: nat)
    requires start <= |source| && 0 < TagLength(source[start..])
    ensures end == start + TagLength(source[start..])
                   + DollarTail(source[start..][TagLength(source[start..])..], source[start..][..TagLength(source[start..])])
  {
    var n := TagLength(source[start..]);
    var tag := source[start..][..n];
    match Find(source[start..][n..], tag)
    case None => end := |source|;
    case Some(at) => end := start + n + at + |tag|;
  }

  method WordEnd(source: string, start: nat) returns (end: nat)
    requires start <= |source|
    ensures end == start + RunLength(source[start..], IsWordChar)
  {
    end := start;
    while end < |source| && IsWordChar(source[end])
      invariant start <= end <= |source|
      invariant end - start + RunLength(source[end..], IsWordChar) == RunLength(source[start..], IsWordChar)
    {
      end := end + 1;
    }
  }

  /** Where the token at a character that is not blank ends. */
  method TokenEnd(source: string, index: nat) returns (end: nat)
    requires index < |source| && !IsSpace(source[index])
    ensures index < end <= |source| && end - index == TokenLength(source[index..])
  {
    var c := source[index];
    ghost var rest := source[index..];
    if c in QUOTES {
      end := ClosingQuote(source, index);
      assert rest[1..] == source[index + 1..];
    } else if c == '$' && 0 < TagLength(source[index..]) {
      end := ClosingDollarQuote(source, index);
    } else if IsWordStart(c) {
      end := WordEnd(source, index);
    } else if index + 1 < |source| && IsOperatorPair(c, source[index + 1]) {
      end := index + 2;
    } else {
      end := index + 1;
    }
  }

  /** One round of the lexing loop: the token is folded to lower case if it is a word. */
  method NextToken(source: string, index: nat) returns (token: string, end: nat)
    requires index < |source| && !IsSpace(source[index])
    ensures index < end <= |source|
    ensures end - index == TokenLength(source[index..]) && token == Spell(source[index..end])
  {
    end := TokenEnd(source, index);
    token := source[index..end];
    if IsWordStart(source[index]) {
      token := Lower(token);
    }
  }

  method Tokens(source: string) returns (tokens: seq<string>)
    ensures tokens == Lex(source)
  {
    tokens := [];
    var index := 0;
    while index < |source|
      invariant 0 <= index <= |source|
      invariant tokens + Lex(source[index..]) == Lex(source)
    {
      if IsSpace(source[index]) {
        assert source[index..][1..] == source[index + 1..];
        index := index + 1;
      } else {
        var token, end := NextToken(source, index);
        TokenAt(source, index, end);
        assert (tokens + [token]) + Lex(source[end..]) == tokens + Lex(source[index..]);
        tokens := tokens + [token];
        index := end;
      }
    }
  }

  lemma TokenAt(source: string, index: nat, end: nat)
    requires index < end <= |source| && !IsSpace(source[index])
    requires end - index == TokenLength(source[index..])
    ensures Lex(source[index..]) == [Spell(source[index..end])] + Lex(source[end..])
  {
    assert source[index..][..end - index] == source[index..end];
    assert source[index..][end - index..] == source[end..];
  }
}
