/** What the constraints read off a verdict line do at the merge gate: what binds the merge, and what
    is lost before it can. */
module ConstraintGate {
  import opened Prelude
  import opened Precheck
  import opened PrecheckLaws
  import opened Constraints
  import opened ConstraintsLaws

  // ---------------------------------------------------------------- one reading of one text

  /** A token the scan reads as known is the constraint the field reads of the same text. */
  lemma MatchedIsRead(s: string)
    requires KnownKind(s).Some? && Matched(s).kind != Unknown
    ensures ReadToken(Matched(s).raw) == Matched(s)
  {
    var k, n := |KindName(KnownKind(s).value)|, TokenLength(s);
    KindTextIsKind(s);
    RefOfMatched(s, k, n);
    NamePart(s);
    NameColonRef(s, k, n);
    MatchedParts(s, k, n);
    SplitIsRead(s[..k], s[k + 1..n], KnownKind(s).value);
  }

  lemma RefOfMatched(s: string, k: nat, n: nat)
    requires KnownKind(s).Some? && k == |KindName(KnownKind(s).value)| && n == TokenLength(s)
    ensures k + 1 < n <= |s| && IsRef(s[k + 1..n])
  {
    TokenEnds(s);
  }

  lemma MatchedParts(s: string, k: nat, n: nat)
    requires KnownKind(s).Some? && Matched(s).kind != Unknown && k == |KindName(KnownKind(s).value)| && n == TokenLength(s)
    ensures Matched(s) == Constraint(KnownKind(s).value, s[k + 1..n], s[..n]) && KnownKind(s).value != Unknown
  {
  }

  lemma NameColonRef(s: string, k: nat, n: nat)
    requires k + 1 < n <= |s| && s[k] == ':'
    ensures s[..n] == s[..k] + ":" + s[k + 1..n]
  {
  }

  /** The text that names a kind, in lower case, is the kind's name. */
  lemma KindTextIsKind(s: string)
    requires KnownKind(s).Some?
    ensures var name := KindName(KnownKind(s).value); |name| <= |s| && Lower(s[..|name|]) == name && IsWord(s[..|name|])
  {
    var name := KindName(KnownKind(s).value);
    StartAgrees(s, name);
    NamePart(s);
  }

  lemma SplitIsRead(name: string, ref: string, kind: Kind)
    requires kind != Unknown && IsWord(name) && IsRef(ref) && Lower(name) == KindName(kind)
    ensures ReadToken(name + ":" + ref) == Constraint(kind, ref, name + ":" + ref)
  {
    PartsOf(name, ref);
    SolidIsStripped(name);
    SolidIsStripped(ref);
    KindNamesDiffer();
  }

  lemma {:induction false} ScanReads(before: char, s: string, d: Constraint)
    requires d in Scan(before, s) && d.kind != Unknown
    ensures ReadToken(d.raw) == d
    decreases |s|
  {
    if Boundary(before) && KnownKind(s).Some? {
      var n := TokenLength(s);
      if d == Matched(s) {
        MatchedIsRead(s);
      } else {
        ScanReads(s[n - 1], s[n..], d);
      }
    } else {
      ScanReads(s[0], s[1..], d);
    }
  }

  lemma {:induction false} TokensRead(pieces: seq<string>, d: Constraint)
    requires d in ReadTokens(pieces)
    ensures ReadToken(d.raw) == d
    decreases |pieces|
  {
    if d in ReadTokens(pieces[1..]) {
      TokensRead(pieces[1..], d);
    }
  }

  /** A text that is read as a known constraint, by whichever channel, is read as that one. */
  lemma KnownIsItsReading(text: string, d: Constraint)
    requires d in FieldConstraints(text) + Scan(' ', text) && d.kind != Unknown
    ensures ReadToken(d.raw) == d
  {
    if d in Scan(' ', text) {
      ScanReads(' ', text, d);
    } else {
      TokensRead(Pieces(FieldOf(text).value), d);
    }
  }

  // ---------------------------------------------------------------- what binds the merge

  /** The change's counted MERGE verdict carries the constraints of this line, and nothing blocks it. */
  ghost predicate ClearWith(text: string, v: Verdict, pr: string, live: Live, config: Config, merged: set<string>) {
    && v in Counted(live.verdicts, live.head, pr, config.trusted) && v.word == MERGE
    && v.constraints == LineConstraints(text)
    && Evaluate(pr, live, config, merged) == []
  }

  /** The block of an unreadable token is hidden: the same text was read cleanly before it. */
  ghost predicate IsHidden(text: string, d: Constraint) {
    exists c <- LineConstraints(text) :: c.raw == d.raw && c.kind != Unknown
  }

  /** A merge that nothing blocks has every known constraint of its verdicts' lines honoured, and no
      unreadable one that is not hidden. */
  lemma ReadConstraintsBind(text: string, d: Constraint, v: Verdict, pr: string, live: Live, config: Config, merged: set<string>)
    requires ClearWith(text, v, pr, live, config, merged)
    requires d in FieldConstraints(text) + Scan(' ', text)
    ensures if d.kind != Unknown then Honoured(d, merged, config.acknowledged) else IsHidden(text, d)
  {
    PrecheckIsExact(pr, live, config, merged);
    var c := NoReadTextVanishes(text, d);
    assert Honoured(c, merged, config.acknowledged);
    if d.kind != Unknown {
      LineComesFromChannels(text, c);
      KnownIsItsReading(text, c);
      KnownIsItsReading(text, d);
    }
  }

  lemma LineComesFromChannels(text: string, c: Constraint)
    requires c in LineConstraints(text)
    ensures c in FieldConstraints(text) + Scan(' ', text)
  {
    ReadIffFirstOfItsRaw(text, c);
  }

  /** So a known kind written anywhere on the line binds the merge: what it asks for is honoured, unless
      it is part of an unreadable token whose text was read cleanly before. */
  lemma WrittenKindBinds(text: string, i: nat, v: Verdict, pr: string, live: Live, config: Config, merged: set<string>)
    requires ClearWith(text, v, pr, live, config, merged) && Occurs(' ', text, i)
    ensures || (Matched(text[i..]).kind != Unknown && Honoured(Matched(text[i..]), merged, config.acknowledged))
            || (exists d <- Scan(' ', text) :: d.kind == Unknown && ReadsAt(d, text, i) && IsHidden(text, d))
  {
    var d := OccurrenceIsScanned(' ', text, i);
    ReadConstraintsBind(text, d, v, pr, live, config, merged);
  }

  // ---------------------------------------------------------------- what is lost

  lemma {:induction false} NothingScanned(before: char, s: string)
    requires forall i :: 0 <= i < |s| ==> !Occurs(before, s, i)
    ensures Scan(before, s) == []
    decreases |s|
  {
    if s != "" {
      assert s[0..] == s && !Occurs(before, s, 0);
      forall i | 0 <= i < |s[1..]|
        ensures !Occurs(s[0], s[1..], i)
      {
        assert s[1..][i..] == s[i + 1..] && !Occurs(before, s, i + 1);
      }
      NothingScanned(s[0], s[1..]);
    }
  }

  lemma NoColonNoKind(s: string)
    requires ':' !in s
    ensures KnownKind(s).None?
  {
  }

  lemma NoColonIsQuiet(before: char, s: string)
    requires ':' !in s
    ensures Scan(before, s) == []
  {
    forall i | 0 <= i < |s|
      ensures !Occurs(before, s, i)
    {
      NoColonNoKind(s[i..]);
    }
    NothingScanned(before, s);
  }

  lemma OtherWordIsNoKind(name: string, ref: string)
    requires IsWord(name) && IsRef(ref) && KindNamed(Lower(name)) == Unknown
    ensures KnownKind(name + ":" + ref).None?
  {
    var s := name + ":" + ref;
    if KnownKind(s).Some? {
      var kind := KnownKind(s).value;
      KindTextIsKind(s);
      NamePart(s);
      PartsOf(name, ref);
      assert s[..|KindName(kind)|] == name by {
        RunIs(s, IsNotColon, |KindName(kind)|);
      }
      KindNamesDiffer();
    }
  }

  /** Nothing is scanned in a word, a colon and a ref, when the word is no known kind or stands where
      no kind may start. */
  lemma WordAndRefAreQuiet(before: char, name: string, ref: string)
    requires IsWord(name) && IsRef(ref) && (!Boundary(before) || KindNamed(Lower(name)) == Unknown)
    ensures Scan(before, name + ":" + ref) == []
  {
    var s := name + ":" + ref;
    forall i | 0 <= i < |s|
      ensures !Occurs(before, s, i)
    {
      if i == 0 {
        assert s[0..] == s;
        if Boundary(before) {
          OtherWordIsNoKind(name, ref);
        }
      } else if i > |name| + 1 {
        SuffixOfRef(name, ref, i);
        NoColonNoKind(s[i..]);
      } else {
        assert s[i - 1] == if i <= |name| then name[i - 1] else ':';
      }
    }
    NothingScanned(before, s);
  }

  lemma SuffixOfRef(name: string, ref: string, i: nat)
    requires IsRef(ref) && |name| + 1 < i < |name| + 1 + |ref|
    ensures ':' !in (name + ":" + ref)[i..]
  {
    assert (name + ":" + ref)[i..] == ref[i - |name| - 1..];
  }

  lemma ParsesAs(raw: string, pieces: seq<string>, cs: seq<Constraint>)
    requires !SaysNone(raw) && Pieces(raw) == pieces && ReadTokens(pieces) == cs
    ensures ParseConstraints(raw) == cs
  {
  }

  lemma OneTokenRead(token: string)
    requires token != "" && IsSolid(token)
    ensures ReadTokens([token]) == [ReadToken(token)] && ReadTokens([token, ""]) == [ReadToken(token)]
  {
    SolidIsStripped(token);
    assert [token][1..] == [] && [token, ""][1..] == [""] && [""][1..] == [];
  }

  lemma OtherTokenIsRead(name: string, ref: string)
    requires IsWord(name) && IsRef(ref) && KindNamed(Lower(name)) == Unknown
    ensures ReadToken(name + ":" + ref) == Constraint(Unknown, ref, name + ":" + ref)
  {
    PartsOf(name, ref);
    SolidIsStripped(name);
    SolidIsStripped(ref);
  }

  /** The field reads a token of another kind as unknown, which blocks. */
  lemma UnknownKindIsRead(name: string, ref: string)
    requires IsWord(name) && IsRef(ref) && KindNamed(Lower(name)) == Unknown
    ensures ParseConstraints(name + ":" + ref) == [Constraint(Unknown, ref, name + ":" + ref)]
  {
    var token := name + ":" + ref;
    SolidParts(name, ref);
    OtherTokenIsRead(name, ref);
    OneTokenRead(token);
    HasColon(name, ref, "");
    assert token + "" == token;
    ColonIsNotNone(token);
    PieceThen(token, ';', "");
    ParsesAs(token, [token], [Constraint(Unknown, ref, token)]);
  }

  lemma HasColon(name: string, ref: string, rest: string)
    ensures ':' in name + ":" + ref + rest
  {
    assert (name + ":" + ref + rest)[|name|] == ':';
  }

  lemma FieldThenSemicolon(token: string)
    requires IsSolid(token) && token != "" && ':' in token && forall i :: 0 <= i < |token| ==> IsInsideToken(token[i])
    ensures ParseConstraints(token + ";") == [ReadToken(token)] && IsSolid(token + ";")
  {
    ColonIsNotNone(token + ";");
    PieceThen(token, ';', "");
    assert token + [';'] + "" == token + ";";
    assert Pieces("") == [""] && [token] + [""] == [token, ""];
    OneTokenRead(token);
    ParsesAs(token + ";", [token, ""], [ReadToken(token)]);
  }

  lemma ScanThenSemicolon(x: Item)
    requires IsItem(x)
    ensures Scan('=', Token(x) + ";") == [AsConstraint(x)]
  {
    TokenIsScanned(x, ";");
    TokenIsSolid(x);
    ScanTakes('=', Token(x), ";");
    NoColonIsQuiet(Token(x)[|Token(x)| - 1], ";");
  }

  lemma OnlyOne(text: string, field: string, c: Constraint)
    requires FieldOf(text) == Some(field) && ParseConstraints(field) == [c] && Scan(' ', text) == [c]
    ensures LineConstraints(text) == [c]
  {
    SameTwice(text, field, [c]);
    assert [c][..0] == [];
  }

  lemma TokenThenSemicolon(x: Item)
    requires IsItem(x)
    ensures LineConstraints(FIELD + (Token(x) + ";")) == [AsConstraint(x)]
  {
    var run := Token(x) + ";";
    TokenIsSolid(x);
    HasColon(KindName(x.kind), x.ref, "");
    assert Token(x) + "" == Token(x);
    FieldThenSemicolon(Token(x));
    TokenIsRead(x);
    SolidFieldIsWhole(run);
    ScanPassesTheField(run);
    ScanThenSemicolon(x);
    OnlyOne(FIELD + run, run, AsConstraint(x));
  }

  /** An unknown kind after `; ` would block if it were read, and is not: the line holds only what
      stands before it. */
  lemma UnknownKindIsLost(x: Item, name: string, ref: string, text: string)
    requires IsItem(x) && IsWord(name) && IsRef(ref) && KindNamed(Lower(name)) == Unknown
    requires text == FIELD + (Token(x) + "; " + (name + ":" + ref))
    ensures ParseConstraints(name + ":" + ref) == [Constraint(Unknown, ref, name + ":" + ref)]
    ensures LineConstraints(text) == [AsConstraint(x)]
  {
    var run, rest := Token(x) + ";", name + ":" + ref;
    UnknownKindIsRead(name, ref);
    TokenIsSolid(x);
    WordAndRefAreQuiet(' ', name, ref);
    WordDoesNotContinue(name, ref);
    SpacedApart(FIELD, Token(x), rest);
    UnknownAfterSpacedSemicolonVanishes(run, rest, text, FIELD + run);
    TokenThenSemicolon(x);
  }

  lemma SpacedApart(field: string, token: string, rest: string)
    ensures field + (token + "; " + rest) == field + ((token + ";") + " " + rest)
  {
    assert token + "; " + rest == (token + ";") + " " + rest;
  }

  lemma WordDoesNotContinue(name: string, ref: string)
    requires IsWord(name)
    ensures !Continues(name + ":" + ref)
  {
    var rest := name + ":" + ref;
    RunIs(rest, IsSpace, 0);
    assert rest[0..] == rest && rest[0] == name[0];
  }

  /** The line where it happens. */
  lemma FrobnicateIsLost(token: string, text: string)
    requires token == "frobnicate:x" && text == "constraints=merge_after:#1; frobnicate:x"
    ensures ParseConstraints(token) == [Constraint(Unknown, "x", token)]
    ensures LineConstraints(text) == [Constraint(MergeAfter, "#1", "merge_after:#1")]
  {
    var name, ref := Frobnicate(token, text);
    FrobnicateIsOther(name);
    LostAtLine(name, ref, token, text);
  }

  lemma Frobnicate(token: string, text: string) returns (name: string, ref: string)
    requires token == "frobnicate:x" && text == "constraints=merge_after:#1; frobnicate:x"
    ensures name == "frobnicate" && ref == "x" && token == name + ":" + ref && IsRef(ref)
    ensures text == FIELD + ("merge_after:#1; " + token)
  {
    name, ref := "frobnicate", "x";
  }

  lemma FrobnicateIsOther(name: string)
    requires name == "frobnicate"
    ensures IsWord(name) && KindNamed(Lower(name)) == Unknown
  {
    assert |Lower(name)| == 10 && |KindName(MergeAfter)| == 11 && |KindName(DoNotClose)| == 12;
  }

  lemma LostAtLine(name: string, ref: string, token: string, text: string)
    requires IsWord(name) && IsRef(ref) && KindNamed(Lower(name)) == Unknown && token == name + ":" + ref
    requires text == FIELD + ("merge_after:#1; " + token)
    ensures ParseConstraints(token) == [Constraint(Unknown, ref, token)]
    ensures LineConstraints(text) == [Constraint(MergeAfter, "#1", "merge_after:#1")]
  {
    var x := Item(MergeAfter, "#1", ';');
    MergeAfterOne(x);
    UnknownKindIsLost(x, name, ref, text);
  }

  lemma MergeAfterOne(x: Item)
    requires x == Item(MergeAfter, "#1", ';')
    ensures IsItem(x) && Token(x) == "merge_after:#1" && Token(x) + "; " == "merge_after:#1; "
  {
  }

  /** A known kind written right after a glued colon is read by neither channel. Behind a repeat, not
      even the glued token blocks: the line reads as if the second kind were not there. */
  lemma GluedRepeatHidesAKind(x: Item, y: Item, text: string)
    requires IsItem(x) && IsItem(y) && text == Token(x) + " " + (Token(x) + (":" + Token(y)))
    ensures Scan(' ', text) == [AsConstraint(x), Constraint(Unknown, "", Token(x))]
    ensures LineConstraints(text) == [AsConstraint(x)]
  {
    NoEqualsAround(x, y, text);
    NoFieldWithoutEquals(text);
    GluedThenKind(x, y);
    ScanSplitsAtSpace(' ', Token(x), Token(x) + (":" + Token(y)), text);
    OneTokenScanned(x);
    LineOfTwo(text, AsConstraint(x), Constraint(Unknown, "", Token(x)));
  }

  lemma NoEqualsAround(x: Item, y: Item, text: string)
    requires IsItem(x) && IsItem(y) && text == Token(x) + " " + (Token(x) + (":" + Token(y)))
    ensures '=' !in text
  {
    TokenHasNoEquals(x);
    TokenHasNoEquals(y);
  }

  lemma OneTokenScanned(x: Item)
    requires IsItem(x)
    ensures Scan(' ', Token(x)) == [AsConstraint(x)]
  {
    ScanFindsThemAll(' ', [x]);
    assert [x][1..] == [] && AsConstraints([x]) == [AsConstraint(x)];
  }

  lemma LineOfTwo(text: string, c: Constraint, d: Constraint)
    requires FieldOf(text) == None && Scan(' ', text) == [c] + [d] && c.raw == d.raw
    ensures LineConstraints(text) == [c] && Scan(' ', text) == [c, d]
  {
    SecondIsDropped(c, d);
    assert [c] + [d] == [c, d];
  }

  lemma GluedThenKind(x: Item, y: Item)
    requires IsItem(x) && IsItem(y)
    ensures Scan(' ', Token(x) + (":" + Token(y))) == [Constraint(Unknown, "", Token(x))]
  {
    var rest := ":" + Token(y);
    TokenIsKnown(x, rest);
    NameIsThere(x, rest);
    RunIs(x.ref + rest, IsRefChar, |x.ref|);
    ScanTakes(' ', Token(x), rest);
    NamedKindStarts(rest);
    assert rest[1..] == Token(y);
    KindNameIsWord(y.kind);
    WordAndRefAreQuiet(':', KindName(y.kind), y.ref);
  }
}
