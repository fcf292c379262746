/** Constraints written the documented way read back exactly, through either channel, and no known
    one on a line is lost in silence. */
module ConstraintsLaws {
  import opened Prelude
  import opened Precheck
  import opened Constraints

  // ---------------------------------------------------------------- writing

  /** A constraint of a known kind, and the separator written after it when another follows. */
  datatype Item = Item(kind: Kind, ref: string, separator: char)

  predicate IsRef(s: string) {
    s != "" && forall i :: 0 <= i < |s| ==> IsRefChar(s[i])
  }

  predicate IsItem(x: Item) {
    x.kind != Unknown && IsRef(x.ref) && (x.separator == ';' || x.separator == ',')
  }

  function Token(x: Item): string {
    KindName(x.kind) + ":" + x.ref
  }

  function AsConstraint(x: Item): Constraint {
    Constraint(x.kind, x.ref, Token(x))
  }

  function Rendered(items: seq<Item>): string {
    if items == [] then ""
    else if |items| == 1 then Token(items[0])
    else Token(items[0]) + [items[0].separator] + Rendered(items[1..])
  }

  function AsConstraints(items: seq<Item>): seq<Constraint> {
    if items == [] then [] else [AsConstraint(items[0])] + AsConstraints(items[1..])
  }

  // ---------------------------------------------------------------- kinds

  predicate IsWord(s: string) {
    s != "" && forall i :: 0 <= i < |s| ==> IsWordChar(s[i])
  }

  lemma KindNameIsWord(k: Kind)
    requires k != Unknown
    ensures IsWord(KindName(k))
  {
  }

  lemma KindNameIsLower(k: Kind)
    ensures Lower(KindName(k)) == KindName(k)
  {
    var name := KindName(k);
    assert forall i :: 0 <= i < |name| ==> !IsUpper(name[i]);
    assert forall i :: 0 <= i < |name| ==> Lower(name)[i] == name[i];
  }

  lemma KindNamesDiffer()
    ensures KindName(MergeAfter)[0] == 'm' && KindName(DoNotClose)[0] == 'd'
    ensures forall k: Kind :: KindNamed(KindName(k)) == k
  {
    assert |KindName(MergeAfter)| == 11 && |KindName(DoNotClose)| == 12;
  }

  /** A text names at most one kind, and its first character tells which. */
  lemma NamedKindStarts(s: string)
    ensures KnownKind(s).Some? ==> LowerChar(s[0]) == 'm' || LowerChar(s[0]) == 'd'
    ensures s != "" && LowerChar(s[0]) == 'm' ==> !Names(s, DoNotClose)
  {
    KindNamesDiffer();
  }

  /** What starts with a name agrees with it character by character. */
  lemma {:induction false} StartAgrees(s: string, name: string)
    requires StartsWith(s, name)
    ensures |name| <= |s| && forall i :: 0 <= i < |name| ==> LowerChar(s[i]) == name[i]
    decreases |name|
  {
    if name != "" {
      StartAgrees(s[1..], name[1..]);
      forall i | 0 <= i < |name|
        ensures LowerChar(s[i]) == name[i]
      {
        assert i > 0 ==> s[i] == s[1..][i - 1] && name[i] == name[1..][i - 1];
      }
    }
  }

  lemma {:induction false} StartsWithItself(name: string, rest: string)
    requires Lower(name) == name
    ensures StartsWith(name + rest, name)
    decreases |name|
  {
    if name != "" {
      assert (name + rest)[1..] == name[1..] + rest;
      assert LowerChar(name[0]) == Lower(name)[0];
      assert forall i :: 0 <= i < |name[1..]| ==> Lower(name[1..])[i] == LowerChar(name[i + 1]) == Lower(name)[i + 1];
      StartsWithItself(name[1..], rest);
    }
  }

  lemma {:induction false} StartStopsAtSpace(s: string, t: string, name: string)
    requires forall i :: 0 <= i < |name| ==> IsWordChar(name[i])
    ensures StartsWith(s + " " + t, name) <==> StartsWith(s, name)
    decreases |name|
  {
    var u := s + " " + t;
    if name != "" {
      if s == "" {
        assert u[0] == ' ';
      } else {
        assert u[0] == s[0] && u[1..] == s[1..] + " " + t;
        StartStopsAtSpace(s[1..], t, name[1..]);
      }
    }
  }

  // ---------------------------------------------------------------- one token

  predicate IsSolid(s: string) {
    forall i :: 0 <= i < |s| ==> !IsSpace(s[i])
  }

  lemma SolidIsStripped(s: string)
    requires IsSolid(s)
    ensures Stripped(s) == s
  {
  }

  lemma TokenIsSolid(x: Item)
    requires IsItem(x)
    ensures IsSolid(Token(x)) && Token(x) != ""
    ensures forall i :: 0 <= i < |Token(x)| ==> IsInsideToken(Token(x)[i])
  {
    KindNameIsWord(x.kind);
    SolidParts(KindName(x.kind), x.ref);
  }

  lemma SolidParts(name: string, ref: string)
    requires IsWord(name) && IsRef(ref)
    ensures IsSolid(name + ":" + ref)
    ensures forall i :: 0 <= i < |name + ":" + ref| ==> IsInsideToken((name + ":" + ref)[i])
  {
  }

  lemma PartsOf(name: string, ref: string)
    requires IsWord(name) && IsRef(ref)
    ensures RunLength(name + ":" + ref, IsNotColon) == |name|
    ensures (name + ":" + ref)[..|name|] == name && (name + ":" + ref)[|name| + 1..] == ref
    ensures IsSolid(name) && IsSolid(ref) && ':' !in ref
  {
    RunIs(name + ":" + ref, IsNotColon, |name|);
  }

  /** The field reads a written token back. */
  lemma TokenIsRead(x: Item)
    requires IsItem(x)
    ensures ReadToken(Token(x)) == AsConstraint(x)
  {
    var name := KindName(x.kind);
    KindNameIsWord(x.kind);
    KindNameIsLower(x.kind);
    KindNamesDiffer();
    PartsOf(name, x.ref);
    SolidIsStripped(name);
    SolidIsStripped(x.ref);
  }

  /** What may follow a written token without changing it. */
  predicate Ends(rest: string) {
    rest == "" || (!IsRefChar(rest[0]) && rest[0] != ':')
  }

  lemma NameIsThere(x: Item, rest: string)
    requires IsItem(x)
    ensures var s, name := Token(x) + rest, KindName(x.kind);
            && |name| + 1 < |s| && s[..|name|] == name && s[|name|] == ':' && s[|name| + 1..] == x.ref + rest
            && s[..|Token(x)|] == Token(x) && s[|Token(x)|..] == rest
  {
    var s := Token(x) + rest;
    assert s == KindName(x.kind) + ([':'] + (x.ref + rest));
  }

  lemma TokenIsKnown(x: Item, rest: string)
    requires IsItem(x)
    ensures KnownKind(Token(x) + rest) == Some(x.kind)
  {
    TokenIsNamed(x, rest);
    FirstOfToken(x, rest);
    NamedKindStarts(Token(x) + rest);
  }

  lemma TokenIsNamed(x: Item, rest: string)
    requires IsItem(x)
    ensures Names(Token(x) + rest, x.kind)
  {
    var s, name := Token(x) + rest, KindName(x.kind);
    NameIsThere(x, rest);
    KindNameIsLower(x.kind);
    assert s[|name| + 1] == s[|name| + 1..][0] == x.ref[0];
    NameThenRest(name, x.ref, rest);
    StartsWithItself(name, ":" + x.ref + rest);
  }

  lemma NameThenRest(name: string, ref: string, rest: string)
    ensures name + ":" + ref + rest == name + (":" + ref + rest)
  {
  }

  lemma FirstOfToken(x: Item, rest: string)
    requires IsItem(x)
    ensures x.kind == MergeAfter ==> (Token(x) + rest)[0] == 'm'
  {
    KindNamesDiffer();
  }

  lemma SliceOfRest(s: string, start: nat, end: nat)
    requires start <= end <= |s|
    ensures s[start..end] == s[start..][..end - start]
  {
  }

  lemma RefThenRest(s: string, start: nat, ref: string, rest: string)
    requires start <= |s| && s[start..] == ref + rest
    ensures start + |ref| <= |s| && s[start..start + |ref|] == ref
    ensures start + |ref| < |s| ==> rest != "" && s[start + |ref|] == rest[0]
  {
    SliceOfRest(s, start, start + |ref|);
    assert (ref + rest)[..|ref|] == ref;
    assert start + |ref| < |s| ==> s[start + |ref|] == s[start..][|ref|];
  }

  lemma MatchOfLength(s: string, k: Kind, start: nat, n: nat, ref: string)
    requires KnownKind(s) == Some(k) && start == |KindName(k)| + 1 && start <= n <= |s| && s[start..n] == ref
    requires RunLength(s[start..], IsRefChar) == n - start && !(n < |s| && s[n] == ':')
    ensures TokenLength(s) == n && Matched(s) == Constraint(k, ref, s[..n])
  {
  }

  lemma MatchIs(s: string, k: Kind, start: nat, ref: string, rest: string)
    requires KnownKind(s) == Some(k) && start == |KindName(k)| + 1 && IsRef(ref) && Ends(rest)
    requires start < |s| && s[start..] == ref + rest
    ensures TokenLength(s) == start + |ref|
    ensures Matched(s) == Constraint(k, ref, s[..start + |ref|])
  {
    RunIs(ref + rest, IsRefChar, |ref|);
    RefThenRest(s, start, ref, rest);
    MatchOfLength(s, k, start, start + |ref|, ref);
  }

  /** The scan finds a written token, whole, and takes it for what it is. */
  lemma TokenIsScanned(x: Item, rest: string)
    requires IsItem(x) && Ends(rest)
    ensures KnownKind(Token(x) + rest) == Some(x.kind)
    ensures TokenLength(Token(x) + rest) == |Token(x)|
    ensures Matched(Token(x) + rest) == AsConstraint(x)
  {
    TokenIsKnown(x, rest);
    NameIsThere(x, rest);
    MatchIs(Token(x) + rest, x.kind, |KindName(x.kind)| + 1, x.ref, rest);
  }

  // ---------------------------------------------------------------- a list of tokens

  lemma PieceThen(token: string, separator: char, rest: string)
    requires forall i :: 0 <= i < |token| ==> IsInsideToken(token[i])
    requires !IsInsideToken(separator)
    ensures Pieces(token) == [token]
    ensures Pieces(token + [separator] + rest) == [token] + Pieces(rest)
  {
    RunIs(token, IsInsideToken, |token|);
    var s := token + [separator] + rest;
    RunIs(s, IsInsideToken, |token|);
    assert s[..|token|] == token && s[|token| + 1..] == rest;
  }

  function Tokens(items: seq<Item>): seq<string> {
    if items == [] then [] else [Token(items[0])] + Tokens(items[1..])
  }

  lemma {:induction false} RenderedSplits(items: seq<Item>)
    requires items != [] && forall x <- items :: IsItem(x)
    ensures Pieces(Rendered(items)) == Tokens(items)
    decreases |items|
  {
    var x := items[0];
    assert x in items;
    TokenIsSolid(x);
    if |items| == 1 {
      PieceThen(Token(x), ';', "");
      assert Tokens(items) == [Token(x)];
    } else {
      PieceThen(Token(x), x.separator, Rendered(items[1..]));
      RenderedSplits(items[1..]);
    }
  }

  lemma {:induction false} TokensAreRead(items: seq<Item>)
    requires forall x <- items :: IsItem(x)
    ensures ReadTokens(Tokens(items)) == AsConstraints(items)
    decreases |items|
  {
    if items != [] {
      var x := items[0];
      assert x in items;
      TokenIsSolid(x);
      SolidIsStripped(Token(x));
      TokenIsRead(x);
      TokensAreRead(items[1..]);
      assert Tokens(items)[1..] == Tokens(items[1..]);
    }
  }

  lemma {:induction false} RenderedIsSolid(items: seq<Item>)
    requires forall x <- items :: IsItem(x)
    ensures IsSolid(Rendered(items))
    ensures items != [] ==> Rendered(items) != "" && ':' in Rendered(items)
    decreases |items|
  {
    if items != [] {
      assert items[0] in items;
      TokenIsSolid(items[0]);
      assert Token(items[0])[|KindName(items[0].kind)|] == ':';
      RenderedIsSolid(items[1..]);
    }
  }

  lemma ColonIsNotNone(s: string)
    requires IsSolid(s) && ':' in s
    ensures !SaysNone(s)
  {
    SolidIsStripped(s);
    var i :| 0 <= i < |s| && s[i] == ':';
    assert Lower(s)[i] == ':';
    assert forall k :: 0 <= k < |"none"| ==> "none"[k] != ':';
  }

  /** The field's grammar round-trips: any list of known constraints, written with either separator,
      reads back as itself. */
  lemma WrittenConstraintsReadBack(items: seq<Item>)
    requires forall x <- items :: IsItem(x)
    ensures ParseConstraints(Rendered(items)) == AsConstraints(items)
  {
    if items != [] {
      RenderedIsSolid(items);
      ColonIsNotNone(Rendered(items));
      RenderedSplits(items);
      TokensAreRead(items);
    }
  }

  // ---------------------------------------------------------------- both channels

  lemma ScanTakes(before: char, token: string, rest: string)
    requires Boundary(before) && token != "" && KnownKind(token + rest).Some? && TokenLength(token + rest) == |token|
    ensures Scan(before, token + rest) == [Matched(token + rest)] + Scan(token[|token| - 1], rest)
  {
    assert (token + rest)[|token|..] == rest && (token + rest)[|token| - 1] == token[|token| - 1];
  }

  lemma ScanPasses(before: char, separator: char, rest: string)
    requires separator == ';' || separator == ','
    ensures Scan(before, [separator] + rest) == Scan(separator, rest)
  {
    NamedKindStarts([separator] + rest);
    assert ([separator] + rest)[1..] == rest;
  }

  lemma {:induction false} ScanFindsThemAll(before: char, items: seq<Item>)
    requires Boundary(before) && forall x <- items :: IsItem(x)
    ensures Scan(before, Rendered(items)) == AsConstraints(items)
    decreases |items|
  {
    if items != [] {
      var x, later := items[0], items[1..];
      assert x in items;
      var token, tail := Token(x), Rendered(later);
      var rest := if |items| == 1 then "" else [x.separator] + tail;
      assert Rendered(items) == token + rest;
      TokenIsScanned(x, rest);
      TokenIsSolid(x);
      ScanTakes(before, token, rest);
      if |items| > 1 {
        ScanPasses(token[|token| - 1], x.separator, tail);
        ScanFindsThemAll(x.separator, later);
      } else {
        assert later == [] && AsConstraints(items) == [AsConstraint(x)];
      }
    }
  }

  /** Nothing is found in text whose characters start no kind. */
  lemma {:induction false} ScanSkips(before: char, s: string, rest: string)
    requires s != "" && forall i :: 0 <= i < |s| ==> LowerChar(s[i]) != 'm' && LowerChar(s[i]) != 'd'
    ensures Scan(before, s + rest) == Scan(s[|s| - 1], rest)
    decreases |s|
  {
    NamedKindStarts(s + rest);
    if |s| == 1 {
      assert (s + rest)[1..] == rest;
    } else {
      assert (s + rest)[1..] == s[1..] + rest;
      ScanSkips(s[0], s[1..], rest);
    }
  }

  lemma FieldIsQuiet()
    ensures |FIELD| == 12 && FIELD[11] == '='
    ensures forall i :: 0 <= i < |FIELD| ==> LowerChar(FIELD[i]) != 'm' && LowerChar(FIELD[i]) != 'd'
  {
  }

  lemma SolidFieldIsWhole(s: string)
    requires s != "" && IsSolid(s)
    ensures FieldOf(FIELD + s) == Some(s)
  {
    var text := FIELD + s;
    FieldIsQuiet();
    assert text[..|FIELD|] == FIELD && text[|FIELD|..] == s;
    RunIs(s, IsSpace, 0);
    assert s[0..] == s;
    RunIs(s, IsNotSpace, |s|);
    assert s[|s|..] == "" && s[..|s|] == s;
  }

  /** On a line that carries the field, the field and the scan read the same list, and the line reads
      as that list with repeats dropped. */
  lemma ChannelsAgree(items: seq<Item>, text: string)
    requires items != [] && forall x <- items :: IsItem(x)
    requires text == FIELD + Rendered(items)
    ensures FieldConstraints(text) == AsConstraints(items) && Scan(' ', text) == AsConstraints(items)
    ensures LineConstraints(text) == Deduplicated(AsConstraints(items))
  {
    FieldChannel(items, text);
    ScanChannel(items, text);
    SameTwice(text, Rendered(items), AsConstraints(items));
  }

  lemma FieldChannel(items: seq<Item>, text: string)
    requires items != [] && forall x <- items :: IsItem(x)
    requires text == FIELD + Rendered(items)
    ensures FieldOf(text) == Some(Rendered(items)) && ParseConstraints(Rendered(items)) == AsConstraints(items)
  {
    RenderedIsSolid(items);
    SolidFieldIsWhole(Rendered(items));
    WrittenConstraintsReadBack(items);
  }

  lemma ScanChannel(items: seq<Item>, text: string)
    requires forall x <- items :: IsItem(x)
    requires text == FIELD + Rendered(items)
    ensures Scan(' ', text) == AsConstraints(items)
  {
    ScanFindsThemAll('=', items);
    ScanPassesTheField(Rendered(items));
  }

  lemma SameTwice(text: string, field: string, cs: seq<Constraint>)
    requires FieldOf(text) == Some(field) && ParseConstraints(field) == cs && Scan(' ', text) == cs
    ensures FieldConstraints(text) == cs && LineConstraints(text) == Deduplicated(cs)
  {
    RepeatsAreDropped(cs, cs);
  }

  lemma ScanPassesTheField(rest: string)
    ensures Scan(' ', FIELD + rest) == Scan('=', rest)
  {
    FieldIsQuiet();
    ScanSkips(' ', FIELD, rest);
  }

  lemma {:induction false} DeduplicatedKeepsRaws(cs: seq<Constraint>, raw: string)
    ensures (exists c <- Deduplicated(cs) :: c.raw == raw) <==> (exists c <- cs :: c.raw == raw)
  {
    if cs != [] {
      var before, last := cs[..|cs| - 1], cs[|cs| - 1];
      DeduplicatedKeepsRaws(before, raw);
      assert cs == before + [last];
      if last.raw == raw {
        assert last in cs;
        assert exists c <- Deduplicated(cs) :: c.raw == raw by {
          if !(exists c <- Deduplicated(before) :: c.raw == last.raw) {
            assert last in Deduplicated(cs);
          }
        }
      }
    }
  }

  /** The constraint is read, and nothing read before it has its raw text. */
  ghost predicate IsFirstOfItsRaw(cs: seq<Constraint>, c: Constraint) {
    exists i :: 0 <= i < |cs| && cs[i] == c && forall j :: 0 <= j < i ==> cs[j].raw != c.raw
  }

  /** A constraint either channel reads is returned exactly when it is the first with its raw text. */
  lemma ReadIffFirstOfItsRaw(text: string, c: Constraint)
    ensures c in LineConstraints(text) <==> IsFirstOfItsRaw(FieldConstraints(text) + Scan(' ', text), c)
  {
    KeptIffFirst(FieldConstraints(text) + Scan(' ', text), c);
  }

  lemma {:induction false} KeptIffFirst(cs: seq<Constraint>, c: Constraint)
    ensures c in Deduplicated(cs) <==> IsFirstOfItsRaw(cs, c)
  {
    if cs != [] {
      var before, last := cs[..|cs| - 1], cs[|cs| - 1];
      KeptIffFirst(before, c);
      DeduplicatedKeepsRaws(before, last.raw);
      FirstBefore(before, last, c);
      assert cs == before + [last];
    }
  }

  lemma FirstBefore(before: seq<Constraint>, last: Constraint, c: Constraint)
    ensures IsFirstOfItsRaw(before + [last], c)
       <==> IsFirstOfItsRaw(before, c) || (c == last && forall d <- before :: d.raw != last.raw)
  {
    var cs := before + [last];
    if IsFirstOfItsRaw(before, c) {
      var i :| 0 <= i < |before| && before[i] == c && forall j :: 0 <= j < i ==> before[j].raw != c.raw;
      assert cs[i] == c && forall j :: 0 <= j < i ==> cs[j] == before[j];
    }
    if c == last && forall d <- before :: d.raw != last.raw {
      assert cs[|before|] == c && forall j :: 0 <= j < |before| ==> cs[j] == before[j];
    }
    if IsFirstOfItsRaw(cs, c) {
      var i :| 0 <= i < |cs| && cs[i] == c && forall j :: 0 <= j < i ==> cs[j].raw != c.raw;
      assert forall j :: 0 <= j < |before| ==> cs[j] == before[j];
    }
  }

  lemma {:induction false} RepeatsAreDropped(cs: seq<Constraint>, more: seq<Constraint>)
    requires forall c <- more :: exists d <- cs :: d.raw == c.raw
    ensures Deduplicated(cs + more) == Deduplicated(cs)
    decreases |more|
  {
    if more == [] {
      assert cs + more == cs;
    } else {
      var n := |more| - 1;
      assert more[n] in more;
      RepeatsAreDropped(cs, more[..n]);
      assert (cs + more)[..|cs + more| - 1] == cs + more[..n];
      DeduplicatedKeepsRaws(cs, more[n].raw);
    }
  }

  // ---------------------------------------------------------------- nothing known is lost

  /** A known kind, with its ref, written at `i` and not inside a longer word. */
  predicate Occurs(before: char, s: string, i: nat) {
    i < |s| && Boundary(if i == 0 then before else s[i - 1]) && KnownKind(s[i..]).Some?
  }

  /** The name of a known kind is made of word characters and ends at a colon. */
  lemma NamePart(s: string)
    requires KnownKind(s).Some?
    ensures var n := |KindName(KnownKind(s).value)|; n < |s| && s[n] == ':' && forall i :: 0 <= i < n ==> IsWordChar(s[i])
  {
    KindNameIsWord(KnownKind(s).value);
    StartAgrees(s, KindName(KnownKind(s).value));
  }

  /** The token ends where the ref does. */
  lemma TokenEnds(s: string)
    requires KnownKind(s).Some?
    ensures var n, start := TokenLength(s), |KindName(KnownKind(s).value)| + 1;
            && (forall i :: start <= i < n ==> IsRefChar(s[i]))
            && (n < |s| ==> !IsRefChar(s[n]))
  {
    var start := |KindName(KnownKind(s).value)| + 1;
    var run := RunLength(s[start..], IsRefChar);
    assert forall i :: start <= i < start + run ==> s[i] == s[start..][i - start];
    assert start + run < |s| ==> s[start + run] == s[start..][run];
  }

  /** A kind that occurs inside an earlier token is what glues that token: it ends at the kind's
      colon, and is read as unknown. */
  lemma SwallowedKindGlues(s: string, i: nat)
    requires KnownKind(s).Some? && 0 < i < TokenLength(s) && Occurs(' ', s, i)
    ensures var n := i + |KindName(KnownKind(s[i..]).value)|;
            n == TokenLength(s) < |s| && Matched(s) == Constraint(Unknown, "", s[..n])
  {
    NamePart(s);
    NamePart(s[i..]);
    TokenEnds(s);
    Glued(s, |KindName(KnownKind(s).value)| + 1, i, |KindName(KnownKind(s[i..]).value)|, TokenLength(s));
  }

  /** A name that starts inside a ref, and is followed by a colon, runs to the end of the ref. */
  lemma Glued(s: string, start: nat, i: nat, inner: nat, end: nat)
    requires 0 < start <= end <= |s| && 0 < i < end && s[start - 1] == ':' && Boundary(s[i - 1])
    requires forall j :: 0 <= j < start - 1 ==> IsWordChar(s[j])
    requires (forall j :: start <= j < end ==> IsRefChar(s[j])) && (end < |s| ==> !IsRefChar(s[end]))
    requires inner < |s[i..]| && s[i..][inner] == ':' && forall j :: 0 <= j < inner ==> IsWordChar(s[i..][j])
    ensures i + inner == end < |s| && s[end] == ':'
  {
    assert forall j :: i <= j < i + inner ==> s[j] == s[i..][j - i];
    assert s[i + inner] == s[i..][inner] == ':';
    assert i >= start + 1;
  }

  /** The constraint stands for the kind written at `i`: it carries its very text, or the text of
      an earlier token that ran into it. */
  ghost predicate StandsFor(c: Constraint, s: string, i: nat)
    requires i < |s| && KnownKind(s[i..]).Some?
  {
    c.raw == s[i..][..TokenLength(s[i..])] || RunsInto(c.raw, s, i, i + |KindName(KnownKind(s[i..]).value)|)
  }

  /** The text stands in `s` from before `i` up to `end`. */
  ghost predicate RunsInto(raw: string, s: string, i: nat, end: nat) {
    i <= end <= |s| && end - i < |raw| <= end && raw == s[end - |raw|..end]
  }

  /** The constraint is what a scan makes of the kind written at `i`: the token that starts there, or
      an unreadable one that ran into it. */
  ghost predicate ReadsAt(c: Constraint, s: string, i: nat)
    requires i < |s| && KnownKind(s[i..]).Some?
  {
    c == Matched(s[i..]) || (c.kind == Unknown && RunsInto(c.raw, s, i, i + |KindName(KnownKind(s[i..]).value)|))
  }

  lemma {:induction false} OccurrenceIsScanned(before: char, s: string, i: nat) returns (c: Constraint)
    requires Occurs(before, s, i)
    ensures c in Scan(before, s) && ReadsAt(c, s, i)
    decreases |s|, 1
  {
    if Boundary(before) && KnownKind(s).Some? && i < TokenLength(s) {
      c := Matched(s);
      OccurrenceInToken(s, i);
    } else {
      c := OccurrenceIsLater(before, s, i);
    }
  }

  lemma OccurrenceInToken(s: string, i: nat)
    requires KnownKind(s).Some? && i < TokenLength(s) && (i == 0 || Occurs(' ', s, i))
    ensures KnownKind(s[i..]).Some? && ReadsAt(Matched(s), s, i)
  {
    if i == 0 {
      assert s[0..] == s;
    } else {
      SwallowedKindGlues(s, i);
      assert s[..TokenLength(s)] == s[0..TokenLength(s)];
    }
  }

  lemma {:induction false} OccurrenceIsLater(before: char, s: string, i: nat) returns (c: Constraint)
    requires Occurs(before, s, i) && !(Boundary(before) && KnownKind(s).Some? && i < TokenLength(s))
    ensures c in Scan(before, s) && ReadsAt(c, s, i)
    decreases |s|, 0
  {
    var n := if Boundary(before) && KnownKind(s).Some? then TokenLength(s) else 1;
    var rest := s[n..];
    OccursLater(before, s, n, i, rest);
    c := OccurrenceIsScanned(s[n - 1], rest, i - n);
    LaterIsScanned(before, s, n, c);
    ReadsAtShifted(c, s, n, i);
  }

  lemma LaterIsScanned(before: char, s: string, n: nat, c: Constraint)
    requires s != "" && n == (if Boundary(before) && KnownKind(s).Some? then TokenLength(s) else 1)
    requires c in Scan(s[n - 1], s[n..])
    ensures c in Scan(before, s)
  {
  }

  lemma OccursLater(before: char, s: string, n: nat, i: nat, rest: string)
    requires 0 < n <= i && Occurs(before, s, i) && rest == s[n..]
    ensures rest[i - n..] == s[i..] && Occurs(s[n - 1], rest, i - n)
  {
  }

  lemma ReadsAtShifted(c: Constraint, s: string, n: nat, i: nat)
    requires n <= i < |s| && s[n..][i - n..] == s[i..] && KnownKind(s[i..]).Some? && ReadsAt(c, s[n..], i - n)
    ensures ReadsAt(c, s, i)
  {
    RunsIntoShifted(c.raw, s, n, i, i + |KindName(KnownKind(s[i..]).value)|);
  }

  lemma RunsIntoShifted(raw: string, s: string, n: nat, i: nat, end: nat)
    requires n <= i <= end && n <= |s|
    ensures RunsInto(raw, s[n..], i - n, end - n) ==> RunsInto(raw, s, i, end)
  {
    if RunsInto(raw, s[n..], i - n, end - n) {
      assert s[n..][end - n - |raw|..end - n] == s[end - |raw|..end];
    }
  }

  /** On any line, a known kind and ref, wherever it sits, is carried into some returned constraint:
      it never vanishes. */
  lemma NoKnownKindVanishes(text: string, i: nat) returns (c: Constraint)
    requires Occurs(' ', text, i)
    ensures c in LineConstraints(text) && StandsFor(c, text, i)
  {
    var found := OccurrenceIsScanned(' ', text, i);
    var all := FieldConstraints(text) + Scan(' ', text);
    assert found in all;
    DeduplicatedKeepsRaws(all, found.raw);
    c :| c in Deduplicated(all) && c.raw == found.raw;
  }

  /** And every constraint either channel reads is returned, up to its raw text. */
  lemma NoReadTextVanishes(text: string, c: Constraint) returns (d: Constraint)
    requires c in FieldConstraints(text) || c in Scan(' ', text)
    ensures d in LineConstraints(text) && d.raw == c.raw
  {
    var all := FieldConstraints(text) + Scan(' ', text);
    assert c in all;
    DeduplicatedKeepsRaws(all, c.raw);
    d :| d in Deduplicated(all) && d.raw == c.raw;
  }

  // ---------------------------------------------------------------- what does vanish

  lemma KindStopsAtSpace(s: string, t: string)
    requires s != ""
    ensures KnownKind(s + " " + t) == KnownKind(s)
    ensures KnownKind(s).Some? ==> TokenLength(s + " " + t) == TokenLength(s) && Matched(s + " " + t) == Matched(s)
  {
    NameStopsAtSpace(s, t, MergeAfter);
    NameStopsAtSpace(s, t, DoNotClose);
    if KnownKind(s).Some? {
      MatchStopsAtSpace(s, t);
    }
  }

  lemma NameStopsAtSpace(s: string, t: string, k: Kind)
    requires k != Unknown && s != ""
    ensures Names(s + " " + t, k) <==> Names(s, k)
  {
    var u, n := s + " " + t, |KindName(k)|;
    KindNameIsWord(k);
    StartStopsAtSpace(s, t, KindName(k));
    assert u == s + ([' '] + t);
    if StartsWith(s, KindName(k)) {
      StartAgrees(s, KindName(k));
    }
  }

  lemma MatchStopsAtSpace(s: string, t: string)
    requires KnownKind(s).Some? && KnownKind(s + " " + t) == KnownKind(s)
    ensures TokenLength(s + " " + t) == TokenLength(s) && Matched(s + " " + t) == Matched(s)
  {
    var start := |KindName(KnownKind(s).value)| + 1;
    RunStopsAtSpace(s, t, start);
    SameMatch(s, s + " " + t, start);
  }

  lemma RunStopsAtSpace(s: string, t: string, start: nat)
    requires start <= |s|
    ensures var u, run := s + " " + t, RunLength(s[start..], IsRefChar);
            && RunLength(u[start..], IsRefChar) == run
            && u[..start + run] == s[..start + run] && u[start..start + run] == s[start..start + run]
            && u[start + run] == (if start + run < |s| then s[start + run] else ' ')
  {
    var u, run := s + " " + t, RunLength(s[start..], IsRefChar);
    assert u[start..] == s[start..] + (" " + t);
    RunIs(u[start..], IsRefChar, run);
  }

  lemma SameMatch(s: string, u: string, start: nat)
    requires KnownKind(s).Some? && KnownKind(u) == KnownKind(s) && start == |KindName(KnownKind(s).value)| + 1
    requires |s| < |u| && RunLength(u[start..], IsRefChar) == RunLength(s[start..], IsRefChar)
    requires var n := TokenLength(s);
             && u[..n] == s[..n] && u[start..n] == s[start..n] && u[n] == (if n < |s| then s[n] else ' ')
    ensures TokenLength(u) == TokenLength(s) && Matched(u) == Matched(s)
  {
  }

  lemma ScanMisses(before: char, first: char, rest: string)
    requires !(Boundary(before) && KnownKind([first] + rest).Some?)
    ensures Scan(before, [first] + rest) == Scan(first, rest)
  {
    assert ([first] + rest)[1..] == rest;
  }

  lemma SpaceIsMissed(before: char, t: string)
    ensures Scan(before, " " + t) == Scan(' ', t)
  {
    NamedKindStarts(" " + t);
    ScanMisses(before, ' ', t);
  }

  lemma ScanTakesAt(before: char, u: string, token: string, rest: string, found: Constraint)
    requires Boundary(before) && token != "" && u == token + rest
    requires KnownKind(u).Some? && TokenLength(u) == |token| && Matched(u) == found
    ensures Scan(before, u) == [found] + Scan(token[|token| - 1], rest)
  {
    ScanTakes(before, token, rest);
  }

  lemma SpaceAfter(s: string, t: string, n: nat)
    requires n <= |s|
    ensures s == s[..n] + s[n..] && s + " " + t == s[..n] + (s[n..] + " " + t)
  {
  }

  lemma Appended(first: Constraint, left: seq<Constraint>, right: seq<Constraint>)
    ensures [first] + (left + right) == ([first] + left) + right
  {
  }

  lemma SplitAtToken(before: char, s: string, u: string, token: string, rest: string, later: string, t: string)
    requires Boundary(before) && token != "" && s == token + rest && u == token + later
    requires KnownKind(s).Some? && TokenLength(s) == |token|
    requires KnownKind(u).Some? && TokenLength(u) == |token| && Matched(u) == Matched(s)
    requires Scan(token[|token| - 1], later) == Scan(token[|token| - 1], rest) + Scan(' ', t)
    ensures Scan(before, u) == Scan(before, s) + Scan(' ', t)
  {
    ScanTakesAt(before, s, token, rest, Matched(s));
    ScanTakesAt(before, u, token, later, Matched(s));
    Appended(Matched(s), Scan(token[|token| - 1], rest), Scan(' ', t));
  }

  lemma SplitAtMiss(before: char, s: string, u: string, first: char, rest: string, later: string, t: string)
    requires s == [first] + rest && u == [first] + later
    requires !(Boundary(before) && KnownKind(s).Some?) && KnownKind(u) == KnownKind(s)
    requires Scan(first, later) == Scan(first, rest) + Scan(' ', t)
    ensures Scan(before, u) == Scan(before, s) + Scan(' ', t)
  {
    ScanMisses(before, first, rest);
    ScanMisses(before, first, later);
  }

  /** A space keeps the scan's two sides apart. */
  lemma {:induction false} ScanSplitsAtSpace(before: char, s: string, t: string, u: string)
    requires u == s + " " + t
    ensures Scan(before, u) == Scan(before, s) + Scan(' ', t)
    decreases |s|, 1
  {
    if s == "" {
      SpaceIsMissed(before, t);
      assert u == " " + t;
    } else if Boundary(before) && KnownKind(s).Some? {
      SplitsAfterToken(before, s, t, u);
    } else {
      SplitsAfterMiss(before, s, t, u);
    }
  }

  lemma {:induction false} SplitsAfterToken(before: char, s: string, t: string, u: string)
    requires u == s + " " + t && Boundary(before) && KnownKind(s).Some?
    ensures Scan(before, u) == Scan(before, s) + Scan(' ', t)
    decreases |s|, 0
  {
    var n := TokenLength(s);
    KindStopsAtSpace(s, t);
    SpaceAfter(s, t, n);
    ScanSplitsAtSpace(s[..n][n - 1], s[n..], t, s[n..] + " " + t);
    SplitAtToken(before, s, u, s[..n], s[n..], s[n..] + " " + t, t);
  }

  lemma {:induction false} SplitsAfterMiss(before: char, s: string, t: string, u: string)
    requires s != "" && u == s + " " + t && !(Boundary(before) && KnownKind(s).Some?)
    ensures Scan(before, u) == Scan(before, s) + Scan(' ', t)
    decreases |s|, 0
  {
    KindStopsAtSpace(s, t);
    SpaceAfter(s, t, 1);
    FirstAlone(s);
    ScanSplitsAtSpace(s[0], s[1..], t, s[1..] + " " + t);
    SplitAtMiss(before, s, u, s[0], s[1..], s[1..] + " " + t, t);
  }

  lemma FirstAlone(s: string)
    requires s != ""
    ensures s[..1] == [s[0]]
  {
  }

  /** After the blanks comes a semicolon, and something after that. */
  predicate Continues(rest: string) {
    var s := AfterSpaces(rest);
    s != "" && s[0] == ';' && AfterSpaces(s[1..]) != ""
  }

  /** The field ends at a blank exactly when no semicolon comes next: one written before the blank, as
      in `a:b; c:d`, does not carry it on. */
  lemma FieldEndsAtBlankIff(run: string, rest: string)
    requires run != "" && IsSolid(run)
    ensures FieldOf(FIELD + (run + " " + rest)) == Some(run) <==> !Continues(rest)
  {
    var value := run + " " + rest;
    var text := FIELD + value;
    FieldIsQuiet();
    assert text[..|FIELD|] == FIELD && text[|FIELD|..] == value;
    RunIs(value, IsSpace, 0);
    assert value[0..] == value && AfterSpaces(value) == value;
    RunEndsAtBlankIff(run, rest);
  }

  lemma RunEndsAtBlankIff(run: string, rest: string)
    requires run != "" && IsSolid(run)
    ensures FieldRun(run + " " + rest) == run <==> !Continues(rest)
  {
    var value := run + " " + rest;
    RunIs(value, IsNotSpace, |run|);
    assert value[|run|..] == " " + rest && value[..|run|] == run;
    MoreAfterBlankIff(rest);
  }

  lemma MoreAfterBlankIff(rest: string)
    ensures MoreRuns(" " + rest) == 0 <==> !Continues(rest)
  {
    var gap := RunLength(rest, IsSpace);
    RunIs(" " + rest, IsSpace, gap + 1);
    if gap < |rest| && rest[gap] == ';' {
      assert (" " + rest)[gap + 2..] == rest[gap + 1..] == rest[gap..][1..];
    }
  }

  /** So an unknown kind written after `; ` is read by neither channel, and the line reads as if it
      were not there. */
  lemma UnknownAfterSpacedSemicolonVanishes(run: string, rest: string, text: string, shorter: string)
    requires run != "" && IsSolid(run) && !Continues(rest)
    requires Scan(' ', rest) == []
    requires text == FIELD + (run + " " + rest) && shorter == FIELD + run
    ensures LineConstraints(text) == LineConstraints(shorter)
  {
    FieldEndsAtBlankIff(run, rest);
    SolidFieldIsWhole(run);
    assert Scan(' ', text) == Scan(' ', shorter) by {
      ScanPassesTheField(run + " " + rest);
      ScanPassesTheField(run);
      ScanSplitsAtSpace('=', run, rest, run + " " + rest);
    }
  }

  lemma {:induction false} NoFieldWithoutEquals(text: string)
    requires '=' !in text
    ensures FieldOf(text) == None
  {
    if text != "" {
      FieldIsQuiet();
      assert |text| >= |FIELD| ==> text[..|FIELD|][11] == text[11];
      NoFieldWithoutEquals(text[1..]);
    }
  }

  /** A token cut short by a colon is unreadable, and blocks. */
  lemma GluedTokenBlocks(x: Item)
    requires IsItem(x)
    ensures Scan(' ', Token(x) + ":") == [Constraint(Unknown, "", Token(x))]
  {
    GluedTokenIsUnknown(x);
    ScanTakes(' ', Token(x), ":");
    NamedKindStarts(":");
  }

  lemma GluedTokenIsUnknown(x: Item)
    requires IsItem(x)
    ensures var s := Token(x) + ":";
            && KnownKind(s) == Some(x.kind) && TokenLength(s) == |Token(x)| && Token(x) != ""
            && Matched(s) == Constraint(Unknown, "", Token(x))
  {
    TokenIsKnown(x, ":");
    NameIsThere(x, ":");
    RunIs(x.ref + ":", IsRefChar, |x.ref|);
    assert (Token(x) + ":")[|Token(x)|] == ':';
  }

  /** But the repeats are told apart by raw text alone: once the same text has been read cleanly, an
      unreadable token that spells it is dropped, and its block with it. */
  lemma RepeatHidesAGluedToken(x: Item, text: string)
    requires IsItem(x) && text == Token(x) + " " + (Token(x) + ":")
    ensures Scan(' ', text) == [AsConstraint(x), Constraint(Unknown, "", Token(x))]
    ensures LineConstraints(text) == [AsConstraint(x)]
  {
    TokenHasNoEquals(x);
    NoFieldWithoutEquals(text);
    ScanSeesBoth(x, text);
    SecondIsDropped(AsConstraint(x), Constraint(Unknown, "", Token(x)));
  }

  lemma ScanSeesBoth(x: Item, text: string)
    requires IsItem(x) && text == Token(x) + " " + (Token(x) + ":")
    ensures Scan(' ', text) == [AsConstraint(x), Constraint(Unknown, "", Token(x))]
  {
    GluedTokenBlocks(x);
    ScanSplitsAtSpace(' ', Token(x), Token(x) + ":", text);
    ScanFindsThemAll(' ', [x]);
    assert [x][1..] == [] && AsConstraints([x]) == [AsConstraint(x)];
  }

  lemma SecondIsDropped(c: Constraint, d: Constraint)
    requires c.raw == d.raw
    ensures Deduplicated([] + [c, d]) == [c]
  {
    assert Deduplicated([c]) == [c] by {
      assert [c][..0] == [];
    }
    assert [] + [c, d] == [c, d] && [c, d][..1] == [c];
  }

  lemma TokenHasNoEquals(x: Item)
    requires IsItem(x)
    ensures '=' !in Token(x)
  {
    KindNameIsWord(x.kind);
    NoEqualsIn(KindName(x.kind), x.ref);
  }

  lemma NoEqualsIn(name: string, ref: string)
    requires IsWord(name) && IsRef(ref)
    ensures '=' !in name + ":" + ref
  {
  }
}
