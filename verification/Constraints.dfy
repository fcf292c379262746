/** Reading the merge and close conditions off a verdict line (`scripts/merge_precheck.py`): the
    explicit field, and a scan of the whole line for the kinds the gate knows. */
module Constraints {
  import opened Prelude
  import opened Precheck

  predicate IsWordChar(c: char) {
    IsAlnum(c) || c == '_'
  }

  /** What a ref is made of. */
  predicate IsRefChar(c: char) {
    IsWordChar(c) || c == '#' || c == '-'
  }

  /** The kinds the gate knows, by name. */
  function KindName(k: Kind): string {
    match k
    case MergeAfter => "merge_after"
    case DoNotClose => "do_not_close"
    case Unknown => ""
  }

  function KindNamed(name: string): Kind {
    if name == KindName(MergeAfter) then MergeAfter
    else if name == KindName(DoNotClose) then DoNotClose
    else Unknown
  }

  // ---------------------------------------------------------------- the field

  predicate IsInsideToken(c: char) {
    c != ';' && c != ','
  }

  /** The text between semicolons and commas. */
  function Pieces(s: string): seq<string>
    decreases |s|
  {
    var n := RunLength(s, IsInsideToken);
    if n == |s| then [s] else [s[..n]] + Pieces(s[n + 1..])
  }

  predicate IsNotColon(c: char) {
    c != ':'
  }

  /** One token: unreadable ones are kept, as unknown. */
  function ReadToken(token: string): Constraint {
    var n := RunLength(token, IsNotColon);
    var ref := if n == |token| then "" else Stripped(token[n + 1..]);
    var kind := KindNamed(Lower(Stripped(token[..n])));
    Constraint(if n == |token| || ref == "" || ':' in ref then Unknown else kind, ref, token)
  }

  function ReadTokens(pieces: seq<string>): seq<Constraint> {
    if pieces == [] then []
    else
      var token := Stripped(pieces[0]);
      (if token == "" then [] else [ReadToken(token)]) + ReadTokens(pieces[1..])
  }

  predicate SaysNone(raw: string) {
    raw == "" || Lower(Stripped(raw)) == "none"
  }

  /** `parse_constraints`. */
  function ParseConstraints(raw: string): seq<Constraint> {
    if SaysNone(raw) then [] else ReadTokens(Pieces(raw))
  }

  predicate IsNotSpace(c: char) {
    !IsSpace(c)
  }

  function AfterSpaces(s: string): string {
    s[RunLength(s, IsSpace)..]
  }

  /** How much of `s` further runs take up, each after a semicolon that may stand apart. */
  function MoreRuns(s: string): (n: nat)
    ensures n <= |s|
    decreases |s|
  {
    var gap := RunLength(s, IsSpace);
    if gap == |s| || s[gap] != ';' then 0
    else
      var rest := s[gap + 1..];
      var start := RunLength(rest, IsSpace);
      if start == |rest| then 0
      else
        var run := RunLength(rest[start..], IsNotSpace);
        gap + 1 + start + run + MoreRuns(rest[start + run..])
  }

  /** A run without spaces and the runs that semicolons join to it. */
  function FieldRun(s: string): string {
    var run := RunLength(s, IsNotSpace);
    s[..run + MoreRuns(s[run..])]
  }

  const FIELD := "constraints="

  /** The value of the first `constraints=` that has one. */
  function FieldOf(text: string): Option<string> {
    if text == "" then None
    else if |text| >= |FIELD| && text[..|FIELD|] == FIELD && AfterSpaces(text[|FIELD|..]) != "" then
      Some(FieldRun(AfterSpaces(text[|FIELD|..])))
    else FieldOf(text[1..])
  }

  // ---------------------------------------------------------------- the scan

  /** The text starts with the name, in any case. */
  predicate StartsWith(s: string, name: string)
    decreases |name|
  {
    name == "" || (s != "" && LowerChar(s[0]) == name[0] && StartsWith(s[1..], name[1..]))
  }

  /** The text starts with the kind, a colon, and a ref. */
  predicate Names(s: string, k: Kind) {
    var n := |KindName(k)|;
    k != Unknown && n + 1 < |s| && StartsWith(s, KindName(k)) && s[n] == ':' && IsRefChar(s[n + 1])
  }

  function KnownKind(s: string): Option<Kind> {
    if Names(s, DoNotClose) then Some(DoNotClose) else if Names(s, MergeAfter) then Some(MergeAfter) else None
  }

  /** Length of the token at the front of `s`: the ref runs to the first character it is not made of. */
  function TokenLength(s: string): (n: nat)
    requires KnownKind(s).Some?
    ensures |KindName(KnownKind(s).value)| + 1 < n <= |s|
  {
    var start := |KindName(KnownKind(s).value)| + 1;
    start + RunLength(s[start..], IsRefChar)
  }

  /** A ref that a colon cuts short has swallowed the next kind, so the token is unreadable. */
  function Matched(s: string): Constraint
    requires KnownKind(s).Some?
  {
    var n := TokenLength(s);
    if n < |s| && s[n] == ':' then Constraint(Unknown, "", s[..n])
    else Constraint(KnownKind(s).value, s[|KindName(KnownKind(s).value)| + 1..n], s[..n])
  }

  /** A kind does not start right after a word character or a colon. */
  predicate Boundary(before: char) {
    !IsWordChar(before) && before != ':'
  }

  /** The known tokens of `s`, left to right and apart, `before` being the character ahead of it. */
  function Scan(before: char, s: string): seq<Constraint>
    decreases |s|
  {
    if s == "" then []
    else if Boundary(before) && KnownKind(s).Some? then
      var n := TokenLength(s);
      [Matched(s)] + Scan(s[n - 1], s[n..])
    else Scan(s[0], s[1..])
  }

  // ---------------------------------------------------------------- the line

  /** The first constraint of each raw text. */
  function Deduplicated(cs: seq<Constraint>): seq<Constraint> {
    if cs == [] then []
    else
      var before, last := Deduplicated(cs[..|cs| - 1]), cs[|cs| - 1];
      if exists c <- before :: c.raw == last.raw then before else before + [last]
  }

  function FieldConstraints(text: string): seq<Constraint> {
    var field := FieldOf(text);
    if field.None? then [] else ParseConstraints(field.value)
  }

  /** `_line_constraints`: both channels, the field first. */
  function LineConstraints(text: string): seq<Constraint> {
    Deduplicated(FieldConstraints(text) + Scan(' ', text))
  }

  method LineConstraintList(text: string) returns (constraints: seq<Constraint>)
    ensures constraints == LineConstraints(text)
  {
    var field, scanned := FieldConstraints(text), Scan(' ', text);
    var seen: set<string>;
    constraints, seen := AddAll(field, [], [], {});
    assert [] + field == field;
    constraints, seen := AddAll(scanned, field, constraints, seen);
  }

  /** Adds constraints whose raw text has not been seen. */
  method AddAll(more: seq<Constraint>, ghost before: seq<Constraint>, kept: seq<Constraint>, known: set<string>)
    returns (constraints: seq<Constraint>, seen: set<string>)
    requires kept == Deduplicated(before) && known == (set c <- kept :: c.raw)
    ensures constraints == Deduplicated(before + more) && seen == (set c <- constraints :: c.raw)
  {
    constraints, seen := kept, known;
    assert before + more[..0] == before;
    for i := 0 to |more|
      invariant constraints == Deduplicated(before + more[..i]) && seen == (set c <- constraints :: c.raw)
    {
      ghost var so := before + more[..i + 1];
      assert so[..|so| - 1] == before + more[..i] && so[|so| - 1] == more[i];
      if more[i].raw !in seen {
        seen := seen + {more[i].raw};
        constraints := constraints + [more[i]];
      }
    }
    assert more[..|more|] == more;
  }
}
