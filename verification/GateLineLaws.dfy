/** The evidence line is one line, reads back field by field, and no environment value, whatever
    its text, can end its field early or forge another. */
module GateLineLaws {
  import opened Prelude
  import opened GateLine

  // ---------------------------------------------------------------- one word at a time

  /** Text the splitter takes as it stands. */
  predicate IsPlain(s: string) {
    forall i :: 0 <= i < |s| ==> !IsBreak(s[i]) && !IsQuote(s[i]) && s[i] != '\\'
  }

  /** Text a double quotation takes as it stands. */
  predicate IsQuotable(s: string) {
    forall i :: 0 <= i < |s| ==> s[i] != '"' && s[i] != '\\'
  }

  lemma {:induction false} PlainRun(s: string, rest: string, word: string, kept: bool)
    requires IsPlain(s)
    ensures Words(s + rest, Inside, word, kept) == Words(rest, Inside, word + s, kept)
    decreases |s|
  {
    if s == "" {
      assert s + rest == rest && word + s == word;
    } else {
      assert (s + rest)[1..] == s[1..] + rest;
      assert word + [s[0]] + s[1..] == word + s;
      PlainRun(s[1..], rest, word + [s[0]], kept);
    }
  }

  lemma PlainStart(s: string, rest: string)
    requires s != "" && IsPlain(s)
    ensures Words(s + rest, Between, "", false) == Words(rest, Inside, s, false)
  {
    assert (s + rest)[1..] == s[1..] + rest && [s[0]] + s[1..] == s;
    PlainRun(s[1..], rest, [s[0]], false);
  }

  lemma {:induction false} QuotedRun(s: string, rest: string, word: string)
    requires IsQuotable(s)
    ensures Words(s + rest, Quoted('"'), word, true) == Words(rest, Quoted('"'), word + s, true)
    decreases |s|
  {
    if s == "" {
      assert s + rest == rest && word + s == word;
    } else {
      assert (s + rest)[1..] == s[1..] + rest;
      assert word + [s[0]] + s[1..] == word + s;
      QuotedRun(s[1..], rest, word + [s[0]]);
    }
  }

  /** What a reader of the line sees of a raw character: the three line-breaking ones stay escaped. */
  function ShownChar(c: char): string {
    if c == '\n' then "\\n" else if c == '\r' then "\\r" else if c == '\t' then "\\t" else [c]
  }

  function Shown(raw: string): string {
    if raw == "" then "" else ShownChar(raw[0]) + Shown(raw[1..])
  }

  lemma EscapedChar(c: char, rest: string, word: string)
    ensures Words(Escaped(c) + rest, Quoted('"'), word, true) == Words(rest, Quoted('"'), word + ShownChar(c), true)
  {
    var s := Escaped(c) + rest;
    assert |Escaped(c)| == 1 ==> s[1..] == rest;
    assert |Escaped(c)| == 2 ==> s[1..][0] == Escaped(c)[1] && s[1..][1..] == rest;
    assert word + "\\" + "n" == word + "\\n" && word + "\\" + "r" == word + "\\r" && word + "\\" + "t" == word + "\\t";
  }

  lemma {:induction false} EscapedRun(raw: string, rest: string, word: string)
    ensures Words(Disclosable(raw) + rest, Quoted('"'), word, true) == Words(rest, Quoted('"'), word + Shown(raw), true)
    decreases |raw|
  {
    if raw == "" {
      assert Disclosable(raw) + rest == rest && word + Shown(raw) == word;
    } else {
      var first, tail := raw[0], raw[1..];
      assert Disclosable(raw) + rest == Escaped(first) + (Disclosable(tail) + rest);
      EscapedChar(first, Disclosable(tail) + rest, word);
      EscapedRun(tail, rest, word + ShownChar(first));
      assert word + ShownChar(first) + Shown(tail) == word + Shown(raw);
    }
  }

  // ---------------------------------------------------------------- one field at a time

  /** What the printer is given: fields that need no quoting, a command that quotes as it stands,
      and the environment's settings, rendered from any text at all. */
  predicate IsWellFormed(e: Evidence, cleared: string, observed: string) {
    && IsPlain(e.sha) && IsPlain(e.tree) && IsPlain(e.treeId) && IsPlain(e.extras) && IsPlain(e.result)
    && IsQuotable(e.command)
    && e.cleared == Disclosable(cleared) && e.observed == Disclosable(observed)
  }

  /** What a reader gets for a field, given the raw settings of the environment. */
  function Read(e: Evidence, cleared: string, observed: string, k: Key): string {
    match k
    case EnvCleared => Shown(cleared)
    case EnvObserved => Shown(observed)
    case _ => Printed(e, k)
  }

  function WordFor(e: Evidence, cleared: string, observed: string, k: Key): string {
    Name(k) + "=" + Read(e, cleared, observed, k)
  }

  predicate IsKeyText(s: string) {
    s != "" && IsPlain(s) && forall i :: 0 <= i < |s| ==> s[i] != '='
  }

  lemma CollectedNames()
    ensures IsKeyText("collected") && IsKeyText("uncollected_modules")
  {
  }

  lemma OutcomeNames()
    ensures IsKeyText("passed") && IsKeyText("failed") && IsKeyText("errors") && IsKeyText("skipped")
    ensures IsKeyText("xfailed") && IsKeyText("xpassed")
  {
  }

  lemma NameIsKeyText(k: Key)
    ensures IsKeyText(Name(k))
  {
    CollectedNames();
    OutcomeNames();
  }

  /** Inside a quotation, what was printed reads as the reader's value. */
  lemma QuotedValueIsRead(e: Evidence, cleared: string, observed: string, k: Key, rest: string, word: string)
    requires IsWellFormed(e, cleared, observed) && IsQuoted(k)
    ensures Words(Printed(e, k) + rest, Quoted('"'), word, true) == Words(rest, Quoted('"'), word + Read(e, cleared, observed, k), true)
  {
    match k
    case Cmd => QuotedRun(e.command, rest, word);
    case EnvCleared => EscapedRun(cleared, rest, word);
    case EnvObserved => EscapedRun(observed, rest, word);
  }

  lemma QuotedFieldIsRead(name: string, printed: string, read: string, rest: string)
    requires IsKeyText(name)
    requires Words(printed + ("\"" + rest), Quoted('"'), name + "=", true) == Words("\"" + rest, Quoted('"'), name + "=" + read, true)
    ensures Words(name + "=" + ("\"" + printed + "\"") + rest, Between, "", false) == Words(rest, Inside, name + "=" + read, true)
  {
    var start, tail := name + "=", printed + ("\"" + rest);
    assert name + "=" + ("\"" + printed + "\"") + rest == start + ("\"" + tail);
    PlainStart(start, "\"" + tail);
    assert ("\"" + tail)[1..] == tail && ("\"" + rest)[1..] == rest;
  }

  /** A printed field is read as its word, up to where the next one starts. */
  lemma FieldIsRead(e: Evidence, cleared: string, observed: string, k: Key, rest: string)
    requires IsWellFormed(e, cleared, observed)
    ensures Words(FieldText(e, k) + rest, Between, "", false) == Words(rest, Inside, WordFor(e, cleared, observed, k), IsQuoted(k))
    ensures WordFor(e, cleared, observed, k) != ""
  {
    var name := Name(k);
    NameIsKeyText(k);
    if IsQuoted(k) {
      QuotedValueIsRead(e, cleared, observed, k, "\"" + rest, name + "=");
      QuotedFieldIsRead(name, Printed(e, k), Read(e, cleared, observed, k), rest);
    } else {
      PlainStart(FieldText(e, k), rest);
    }
  }

  ghost predicate ReadsTo(text: string, word: string, kept: bool) {
    forall rest: string :: Words(text + rest, Between, "", false) == Words(rest, Inside, word, kept)
  }

  /** From between words, the text is read as the word, whatever follows. */
  ghost predicate ReadsAs(text: string, word: string) {
    text != "" && word != "" && (ReadsTo(text, word, false) || ReadsTo(text, word, true))
  }

  lemma FieldReadsAs(e: Evidence, cleared: string, observed: string, k: Key)
    requires IsWellFormed(e, cleared, observed)
    ensures ReadsAs(FieldText(e, k), WordFor(e, cleared, observed, k))
  {
    var text, word, kept := FieldText(e, k), WordFor(e, cleared, observed, k), IsQuoted(k);
    forall rest: string
      ensures Words(text + rest, Between, "", false) == Words(rest, Inside, word, kept)
    {
      FieldIsRead(e, cleared, observed, k, rest);
    }
    FieldIsRead(e, cleared, observed, k, "");
    NameIsKeyText(k);
  }

  lemma LabelReadsAs(text: string)
    requires text != "" && IsPlain(text)
    ensures ReadsAs(text, text)
  {
    forall rest: string
      ensures Words(text + rest, Between, "", false) == Words(rest, Inside, text, false)
    {
      PlainStart(text, rest);
    }
  }

  lemma NextIsRead(text: string, word: string, kept: bool, rest: string)
    requires word != "" && ReadsTo(text, word, kept)
    ensures Words(text, Between, "", false) == Some([word])
    ensures Words(text + " " + rest, Between, "", false) == Prepend(word, Words(rest, Between, "", false))
  {
    assert text + "" == text && Words(text + "", Between, "", false) == Words("", Inside, word, kept);
    assert text + " " + rest == text + (" " + rest) && (" " + rest)[1..] == rest;
    assert Words(text + (" " + rest), Between, "", false) == Words(" " + rest, Inside, word, kept);
  }

  /** Texts with spaces between them split into their words. */
  lemma {:induction false} TextsAreRead(texts: seq<string>, words: seq<string>)
    requires |texts| == |words| && forall i :: 0 <= i < |texts| ==> ReadsAs(texts[i], words[i])
    ensures Words(Spaced(texts), Between, "", false) == Some(words)
    decreases |texts|
  {
    if texts != [] {
      NextIsRead(texts[0], words[0], ReadsTo(texts[0], words[0], true), Spaced(texts[1..]));
      assert words == [words[0]] + words[1..];
      if |texts| > 1 {
        TextsAreRead(texts[1..], words[1..]);
      } else {
        assert words == [words[0]] && Spaced(texts) == texts[0];
      }
    }
  }

  function WordsFor(e: Evidence, cleared: string, observed: string, keys: seq<Key>): (r: seq<string>)
    ensures |r| == |keys| && forall i :: 0 <= i < |r| ==> r[i] == WordFor(e, cleared, observed, keys[i])
  {
    if keys == [] then [] else [WordFor(e, cleared, observed, keys[0])] + WordsFor(e, cleared, observed, keys[1..])
  }

  // ---------------------------------------------------------------- the whole line

  lemma LabelsArePlain()
    ensures IsPlain(NAME) && IsPlain(VERSION) && IsVersion(VERSION)
  {
  }

  /** The line splits into its labels and its fields' words. */
  lemma LineSplits(e: Evidence, cleared: string, observed: string)
    requires IsWellFormed(e, cleared, observed)
    ensures Split(EvidenceLine(e)) == Some([NAME, VERSION] + WordsFor(e, cleared, observed, ORDER))
  {
    LabelsArePlain();
    LabelReadsAs(NAME);
    LabelReadsAs(VERSION);
    var texts, words := FieldTexts(e, ORDER), WordsFor(e, cleared, observed, ORDER);
    forall i | 0 <= i < |texts|
      ensures ReadsAs(texts[i], words[i])
    {
      FieldReadsAs(e, cleared, observed, ORDER[i]);
    }
    LabelledTextsAreRead(NAME, VERSION, texts, words);
  }

  lemma LabelledTextsAreRead(name: string, version: string, texts: seq<string>, words: seq<string>)
    requires ReadsAs(name, name) && ReadsAs(version, version)
    requires |texts| == |words| && forall i :: 0 <= i < |texts| ==> ReadsAs(texts[i], words[i])
    ensures Words(Spaced([name, version] + texts), Between, "", false) == Some([name, version] + words)
  {
    TextsAreRead([name, version] + texts, [name, version] + words);
  }

  /** The first and last characters of a line are those of its first and last fields. */
  lemma {:induction false} SpacedEnds(fields: seq<string>, first: char, last: char)
    requires fields != [] && fields[0] != "" && fields[0][0] == first
    requires fields[|fields| - 1] != "" && fields[|fields| - 1][|fields[|fields| - 1]| - 1] == last
    requires forall i :: 0 <= i < |fields| ==> fields[i] != ""
    ensures Spaced(fields) != "" && Spaced(fields)[0] == first && Spaced(fields)[|Spaced(fields)| - 1] == last
    decreases |fields|
  {
    if |fields| > 1 {
      SpacedEnds(fields[1..], fields[1][0], last);
    }
  }

  lemma LineIsStripped(e: Evidence)
    requires forall i :: 0 <= i < |e.result| ==> !IsSpace(e.result[i])
    ensures Stripped(EvidenceLine(e)) == EvidenceLine(e)
  {
    var fields := [NAME, VERSION] + FieldTexts(e, ORDER);
    var last := fields[|fields| - 1];
    assert last == FieldText(e, Result);
    assert last[|last| - 1] == (if e.result == "" then '=' else e.result[|e.result| - 1]);
    SpacedEnds(fields, 'H', last[|last| - 1]);
  }

  lemma {:induction false} NameIsInjective(k: Key, j: Key)
    requires Name(k) == Name(j)
    ensures k == j
  {
    assert |Name(k)| == |Name(j)| && Name(k)[0] == Name(j)[0];
  }

  lemma KeyEndsAtEquals(name: string, value: string)
    requires IsKeyText(name)
    ensures IndexOf(name + "=" + value, '=') == |name|
    ensures (name + "=" + value)[..|name|] == name && (name + "=" + value)[|name| + 1..] == value
  {
    var s := name + "=" + value;
    assert s[|name|] == '=';
    forall i | 0 <= i < |name|
      ensures s[i] != '='
    {
      assert s[i] == name[i];
    }
  }

  /** The fields a reader has after some keys' words, beside what it had before. */
  ghost predicate Holds(e: Evidence, cleared: string, observed: string, before: map<string, string>, keys: seq<Key>, fields: map<string, string>) {
    && (forall k: Key :: k in keys ==> Name(k) in fields && fields[Name(k)] == Read(e, cleared, observed, k))
    && (forall s: string :: s in fields ==> s in before || exists k: Key :: k in keys && s == Name(k))
    && (forall s: string :: s in before ==> s in fields && ((exists k: Key :: k in keys && s == Name(k)) || fields[s] == before[s]))
  }

  lemma {:induction false} FieldsAreAssigned(e: Evidence, cleared: string, observed: string, keys: seq<Key>, before: map<string, string>)
    ensures ReadFields(WordsFor(e, cleared, observed, keys), before).Some?
    ensures Holds(e, cleared, observed, before, keys, ReadFields(WordsFor(e, cleared, observed, keys), before).value)
    decreases |keys|
  {
    if keys != [] {
      var k := keys[0];
      NameIsKeyText(k);
      KeyEndsAtEquals(Name(k), Read(e, cleared, observed, k));
      var after := before[Name(k) := Read(e, cleared, observed, k)];
      FieldsAreAssigned(e, cleared, observed, keys[1..], after);
      assert WordsFor(e, cleared, observed, keys)[1..] == WordsFor(e, cleared, observed, keys[1..]);
      HoldsOneMore(e, cleared, observed, before, keys, ReadFields(WordsFor(e, cleared, observed, keys), before).value);
    }
  }

  lemma HoldsOneMore(e: Evidence, cleared: string, observed: string, before: map<string, string>, keys: seq<Key>, fields: map<string, string>)
    requires keys != []
    requires Holds(e, cleared, observed, before[Name(keys[0]) := Read(e, cleared, observed, keys[0])], keys[1..], fields)
    ensures Holds(e, cleared, observed, before, keys, fields)
  {
    forall k: Key | k in keys
      ensures Name(k) in fields && fields[Name(k)] == Read(e, cleared, observed, k)
    {
      if k !in keys[1..] && (exists j: Key :: j in keys[1..] && Name(k) == Name(j)) {
        var j: Key :| j in keys[1..] && Name(k) == Name(j);
        NameIsInjective(k, j);
      }
    }
  }

  lemma EveryKeyIsPrinted(k: Key)
    ensures k in ORDER
  {
    match k
    case Sha => assert ORDER[0] == k;
    case Tree => assert ORDER[1] == k;
    case TreeId => assert ORDER[2] == k;
    case Extras => assert ORDER[3] == k;
    case Cmd => assert ORDER[4] == k;
    case EnvCleared => assert ORDER[5] == k;
    case EnvObserved => assert ORDER[6] == k;
    case Collected => assert ORDER[7] == k;
    case UncollectedModules => assert ORDER[8] == k;
    case Passed => assert ORDER[9] == k;
    case Failed => assert ORDER[10] == k;
    case Errors => assert ORDER[11] == k;
    case Skipped => assert ORDER[12] == k;
    case XFailed => assert ORDER[13] == k;
    case XPassed => assert ORDER[14] == k;
    case Result => assert ORDER[15] == k;
  }

  const VERSION_KEY := "line_version"

  /** Printing and reading undo each other: the reader gets the version and exactly the sixteen
      fields, each with the value the printer was given, whatever text the environment held. Only a
      newline, a carriage return or a tab comes back as the two characters that escape it. */
  lemma LineReadsBack(e: Evidence, cleared: string, observed: string)
    requires IsWellFormed(e, cleared, observed) && forall i :: 0 <= i < |e.result| ==> !IsSpace(e.result[i])
    ensures Parse(EvidenceLine(e)).Some?
    ensures var fields := Parse(EvidenceLine(e)).value;
            && (forall s: string :: s in fields <==> s == VERSION_KEY || exists k: Key :: s == Name(k))
            && (VERSION_KEY in fields && fields[VERSION_KEY] == VERSION)
            && (forall k: Key :: Name(k) in fields && fields[Name(k)] == Read(e, cleared, observed, k))
  {
    LineIsStripped(e);
    LineSplits(e, cleared, observed);
    LabelsArePlain();
    var words := WordsFor(e, cleared, observed, ORDER);
    var start := map[VERSION_KEY := VERSION];
    ParseReads(EvidenceLine(e), words);
    FieldsAreAssigned(e, cleared, observed, ORDER, start);
    AllFieldsHold(e, cleared, observed, start, ReadFields(words, start).value);
  }

  lemma ParseReads(line: string, words: seq<string>)
    requires Stripped(line) == line && Split(line) == Some([NAME, VERSION] + words) && IsVersion(VERSION)
    ensures Parse(line) == ReadFields(words, map[VERSION_KEY := VERSION])
  {
    assert ([NAME, VERSION] + words)[2..] == words;
  }

  lemma AllFieldsHold(e: Evidence, cleared: string, observed: string, start: map<string, string>, fields: map<string, string>)
    requires Holds(e, cleared, observed, start, ORDER, fields) && start == map[VERSION_KEY := VERSION]
    ensures forall s: string :: s in fields <==> s == VERSION_KEY || exists k: Key :: s == Name(k)
    ensures VERSION_KEY in fields && fields[VERSION_KEY] == VERSION
    ensures forall k: Key :: Name(k) in fields && fields[Name(k)] == Read(e, cleared, observed, k)
  {
    forall k: Key
      ensures k in ORDER && Name(k) != VERSION_KEY
    {
      EveryKeyIsPrinted(k);
    }
    assert VERSION_KEY in start;
  }

  // ---------------------------------------------------------------- what survives the environment's text

  /** None of the three characters that a reader keeps escaped. */
  predicate IsOneLine(s: string) {
    forall i :: 0 <= i < |s| ==> s[i] != '\n' && s[i] != '\r' && s[i] != '\t'
  }

  /** A value reads back as it was set exactly when it holds no newline, carriage return or tab. */
  lemma {:induction false} RawIffOneLine(raw: string)
    ensures |Shown(raw)| >= |raw|
    ensures Shown(raw) == raw <==> IsOneLine(raw)
    ensures |Shown(raw)| == |raw| ==> Shown(raw) == raw
  {
    if raw != "" {
      var first, tail := raw[0], raw[1..];
      RawIffOneLine(tail);
      assert raw == [first] + tail;
      assert IsOneLine(raw) <==> IsOneLine([first]) && IsOneLine(tail) by {
        assert IsOneLine(raw) ==> IsOneLine(tail) && raw[0] == first;
      }
      if |ShownChar(first)| == 1 {
        assert ShownChar(first) == [first];
        assert Shown(raw) == raw <==> Shown(tail) == tail;
      }
    }
  }

  /** Two settings can read back alike: a newline, and a backslash before an n. */
  lemma NewlineReadsAsBackslashN()
    ensures Shown("\n") == Shown("\\n") && Disclosable("\n") != Disclosable("\\n")
  {
    assert "\n"[1..] == "" && "\\n"[1..] == "n" && "n"[1..] == "";
    assert Shown("n") == "n" && Disclosable("n") == "n";
    assert |Disclosable("\n")| == 2 && |Disclosable("\\n")| == 3;
  }

  lemma EscapeIsOneLine(c: char)
    ensures IsOneLine(Escaped(c))
  {
  }

  lemma {:induction false} EscapesAreOneLine(raw: string)
    ensures IsOneLine(Disclosable(raw))
  {
    if raw != "" {
      EscapesAreOneLine(raw[1..]);
      EscapeIsOneLine(raw[0]);
    }
  }

  lemma FieldIsOneLine(e: Evidence, cleared: string, observed: string, k: Key)
    requires IsWellFormed(e, cleared, observed) && IsOneLine(e.command)
    ensures IsOneLine(FieldText(e, k))
  {
    NameIsKeyText(k);
    EscapesAreOneLine(cleared);
    EscapesAreOneLine(observed);
    if !IsQuoted(k) {
    }
    var printed := Printed(e, k);
    assert IsOneLine(printed);
  }

  lemma {:induction false} SpacedIsOneLine(fields: seq<string>)
    requires forall i :: 0 <= i < |fields| ==> IsOneLine(fields[i])
    ensures IsOneLine(Spaced(fields))
    decreases |fields|
  {
    if |fields| > 1 {
      SpacedIsOneLine(fields[1..]);
    }
  }

  /** An environment value cannot split the line: a count never travels without its provenance. */
  lemma EvidenceIsOneLine(e: Evidence, cleared: string, observed: string)
    requires IsWellFormed(e, cleared, observed) && IsOneLine(e.command)
    ensures IsOneLine(EvidenceLine(e))
  {
    var fields := [NAME, VERSION] + FieldTexts(e, ORDER);
    LabelsArePlain();
    forall i | 0 <= i < |fields|
      ensures IsOneLine(fields[i])
    {
      if i >= 2 {
        FieldIsOneLine(e, cleared, observed, ORDER[i - 2]);
      }
    }
    SpacedIsOneLine(fields);
  }

  lemma SameEscape(c: char, rest: string, d: char, other: string)
    requires Escaped(c) + rest == Escaped(d) + other
    ensures c == d && rest == other
  {
    var s := Escaped(c) + rest;
    assert s[0] == Escaped(c)[0] == Escaped(d)[0];
    if |Escaped(c)| == 2 && |Escaped(d)| == 2 {
      assert s[1] == Escaped(c)[1] == Escaped(d)[1];
    }
    assert rest == s[|Escaped(c)|..] && other == s[|Escaped(d)|..];
  }

  /** What is printed tells every two settings apart, even where the parsed field does not. */
  lemma {:induction false} DisclosableIsInjective(raw: string, other: string)
    requires Disclosable(raw) == Disclosable(other)
    ensures raw == other
    decreases |raw|
  {
    if raw == "" || other == "" {
    } else {
      SameEscape(raw[0], Disclosable(raw[1..]), other[0], Disclosable(other[1..]));
      DisclosableIsInjective(raw[1..], other[1..]);
    }
  }

  lemma {:induction false} DisclosableConcat(raw: string, more: string)
    ensures Disclosable(raw + more) == Disclosable(raw) + Disclosable(more)
    decreases |raw|
  {
    if raw == "" {
      assert raw + more == more;
    } else {
      assert (raw + more)[1..] == raw[1..] + more;
      DisclosableConcat(raw[1..], more);
    }
  }

  lemma {:induction false} PlainIsDisclosable(s: string)
    requires IsPlain(s)
    ensures Disclosable(s) == s
  {
    if s != "" {
      PlainIsDisclosable(s[1..]);
      assert s == [s[0]] + s[1..];
    }
  }

  /** The settings as text, nothing escaped. */
  function Raw(settings: seq<Setting>): string {
    if settings == [] then NO_ENVIRONMENT_INPUT else Joined(settings, value => value)
  }

  lemma {:induction false} JoinedIsDisclosable(settings: seq<Setting>)
    requires forall s <- settings :: IsPlain(s.name)
    ensures Joined(settings, Disclosable) == Disclosable(Joined(settings, value => value))
  {
    if settings != [] {
      var before, last := settings[..|settings| - 1], settings[|settings| - 1];
      assert last in settings;
      JoinedIsDisclosable(before);
      var start := if |settings| == 1 then "" else Joined(before, value => value) + ";";
      DisclosableConcat(start + last.name + "=", last.value);
      DisclosableConcat(start + last.name, "=");
      DisclosableConcat(start, last.name);
      PlainIsDisclosable(last.name);
      PlainIsDisclosable("=");
      PlainIsDisclosable(";");
      DisclosableConcat(Joined(before, value => value), ";");
    }
  }

  /** So what the gate renders of an environment is a rendering of its raw text, and the line that
      carries it reads back. */
  lemma RenderedIsDisclosable(settings: seq<Setting>)
    requires forall s <- settings :: IsPlain(s.name)
    ensures Rendered(settings) == Disclosable(Raw(settings))
  {
    if settings == [] {
      PlainIsDisclosable(NO_ENVIRONMENT_INPUT);
    } else {
      JoinedIsDisclosable(settings);
    }
  }
}
