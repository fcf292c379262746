/** The gate's evidence line (`scripts/gate.py`): printing one, and reading a pasted one back. The
    POSIX word splitting it reads with is the one `shlex.split` does. */
module GateLine {
  import opened Prelude

  // ---------------------------------------------------------------- word splitting

  /** Where the splitter is: between words, in one, in a quotation, or just after a backslash. */
  datatype Mode = Between | Inside | Quoted(quote: char) | Escaping(within: Option<char>)

  predicate IsBreak(c: char) {
    c == ' ' || c == '\t' || c == '\r' || c == '\n'
  }

  predicate IsQuote(c: char) {
    c == '"' || c == '\''
  }

  function Prepend(word: string, words: Option<seq<string>>): Option<seq<string>> {
    if words.None? then None else Some([word] + words.value)
  }

  /** The words of `s`, `word` being what was read of the current one and `kept` whether it stands
      even when empty. No closing quotation, or nothing to escape, is an error. */
  function Words(s: string, mode: Mode, word: string, kept: bool): Option<seq<string>>
    decreases |s|
  {
    match mode
    case Between =>
      if s == "" then Some([])
      else if IsBreak(s[0]) then Words(s[1..], Between, "", false)
      else if IsQuote(s[0]) then Words(s[1..], Quoted(s[0]), "", true)
      else if s[0] == '\\' then Words(s[1..], Escaping(None), "", false)
      else Words(s[1..], Inside, [s[0]], false)
    case Inside =>
      if s == "" then (if word != "" || kept then Some([word]) else Some([]))
      else if IsBreak(s[0]) then
        if word != "" || kept then Prepend(word, Words(s[1..], Between, "", false)) else Words(s[1..], Between, "", false)
      else if IsQuote(s[0]) then Words(s[1..], Quoted(s[0]), word, true)
      else if s[0] == '\\' then Words(s[1..], Escaping(None), word, kept)
      else Words(s[1..], Inside, word + [s[0]], kept)
    case Quoted(quote) =>
      if s == "" then None
      else if s[0] == quote then Words(s[1..], Inside, word, true)
      else if s[0] == '\\' && quote == '"' then Words(s[1..], Escaping(Some(quote)), word, true)
      else Words(s[1..], Quoted(quote), word + [s[0]], true)
    case Escaping(within) =>
      if s == "" then None
      else
        var read := if within.Some? && s[0] != '\\' && s[0] != within.value then word + "\\" + [s[0]] else word + [s[0]];
        Words(s[1..], if within.Some? then Quoted(within.value) else Inside, read, kept)
  }

  function Split(line: string): Option<seq<string>> {
    Words(line, Between, "", false)
  }

  // ---------------------------------------------------------------- printing

  const NAME := "HYPERSET-GATE"
  const VERSION := "v2"
  const NO_ENVIRONMENT_INPUT := "none"

  /** The fields of a line. */
  datatype Key = Sha | Tree | TreeId | Extras | Cmd | EnvCleared | EnvObserved | Collected | UncollectedModules
               | Passed | Failed | Errors | Skipped | XFailed | XPassed | Result

  function Name(k: Key): string {
    match k
    case Sha => "sha"
    case Tree => "tree"
    case TreeId => "tree_id"
    case Extras => "extras"
    case Cmd => "cmd"
    case EnvCleared => "env_cleared"
    case EnvObserved => "env_observed"
    case Collected => "collected"
    case UncollectedModules => "uncollected_modules"
    case Passed => "passed"
    case Failed => "failed"
    case Errors => "errors"
    case Skipped => "skipped"
    case XFailed => "xfailed"
    case XPassed => "xpassed"
    case Result => "result"
  }

  /** The fixed order of the fields, so that two lines diff readably. */
  const ORDER := [Sha, Tree, TreeId, Extras, Cmd, EnvCleared, EnvObserved, Collected, UncollectedModules,
                  Passed, Failed, Errors, Skipped, XFailed, XPassed, Result]

  function Escaped(c: char): string {
    if c == '\\' then "\\\\"
    else if c == '"' then "\\\""
    else if c == '\n' then "\\n"
    else if c == '\r' then "\\r"
    else if c == '\t' then "\\t"
    else [c]
  }

  /** `_disclosable`: one line, one field. */
  function Disclosable(value: string): string {
    if value == "" then "" else Escaped(value[0]) + Disclosable(value[1..])
  }

  datatype Setting = Setting(name: string, value: string)

  /** `name=value`, with semicolons between. */
  function Joined(settings: seq<Setting>, show: string -> string): string {
    if settings == [] then ""
    else
      var last := settings[|settings| - 1];
      (if |settings| == 1 then "" else Joined(settings[..|settings| - 1], show) + ";") + last.name + "=" + show(last.value)
  }

  /** `render_cleared_environment` and `render_observed_environment`. */
  function Rendered(settings: seq<Setting>): string {
    if settings == [] then NO_ENVIRONMENT_INPUT else Joined(settings, Disclosable)
  }

  function Decimal(n: nat): (s: string)
    ensures s != "" && forall i :: 0 <= i < |s| ==> IsDigit(s[i])
  {
    var digit := ['0' + (n % 10) as char];
    if n < 10 then digit else Decimal(n / 10) + digit
  }

  datatype Evidence = Evidence(sha: string, tree: string, treeId: string, extras: string, command: string,
                               cleared: string, observed: string, collected: nat, uncollected: nat,
                               counts: map<string, nat>, result: string)

  function Count(counts: map<string, nat>, outcome: string): nat {
    if outcome in counts then counts[outcome] else 0
  }

  predicate IsQuoted(k: Key) {
    k == Cmd || k == EnvCleared || k == EnvObserved
  }

  function Printed(e: Evidence, k: Key): string {
    match k
    case Sha => e.sha
    case Tree => e.tree
    case TreeId => e.treeId
    case Extras => e.extras
    case Cmd => e.command
    case EnvCleared => e.cleared
    case EnvObserved => e.observed
    case Collected => Decimal(e.collected)
    case UncollectedModules => Decimal(e.uncollected)
    case Result => e.result
    case _ => Decimal(Count(e.counts, Name(k)))
  }

  function FieldText(e: Evidence, k: Key): string {
    Name(k) + "=" + if IsQuoted(k) then "\"" + Printed(e, k) + "\"" else Printed(e, k)
  }

  function FieldTexts(e: Evidence, keys: seq<Key>): (r: seq<string>)
    ensures |r| == |keys| && forall i :: 0 <= i < |r| ==> r[i] == FieldText(e, keys[i])
  {
    if keys == [] then [] else [FieldText(e, keys[0])] + FieldTexts(e, keys[1..])
  }

  function Spaced(fields: seq<string>): string {
    if fields == [] then "" else if |fields| == 1 then fields[0] else fields[0] + " " + Spaced(fields[1..])
  }

  /** `evidence_line`. Nothing is escaped here: the environment fields come in rendered. */
  function EvidenceLine(e: Evidence): string {
    Spaced([NAME, VERSION] + FieldTexts(e, ORDER))
  }

  // ---------------------------------------------------------------- reading

  predicate IsVersion(word: string) {
    |word| >= 2 && word[0] == 'v' && forall i :: 1 <= i < |word| ==> IsDigit(word[i])
  }

  function IndexOf(s: string, c: char): (k: nat)
    ensures k <= |s| && (k < |s| ==> s[k] == c) && forall i :: 0 <= i < k ==> s[i] != c
  {
    if s == "" || s[0] == c then 0 else 1 + IndexOf(s[1..], c)
  }

  /** Reads fields left to right; a repeated key keeps its last value. */
  function ReadFields(words: seq<string>, fields: map<string, string>): Option<map<string, string>> {
    if words == [] then Some(fields)
    else
      var k := IndexOf(words[0], '=');
      if k == |words[0]| then None else ReadFields(words[1..], fields[words[0][..k] := words[0][k + 1..]])
  }

  predicate IsEvidence(words: seq<string>) {
    |words| >= 2 && words[0] == NAME && IsVersion(words[1])
  }

  /** `parse_evidence_line`; `None` is the source's `ValueError`. */
  function Parse(line: string): Option<map<string, string>> {
    var words := Split(Stripped(line));
    if words.None? || !IsEvidence(words.value) then None
    else ReadFields(words.value[2..], map["line_version" := words.value[1]])
  }

  method ParseEvidence(line: string) returns (fields: Option<map<string, string>>)
    ensures fields == Parse(line)
  {
    var words := Split(Stripped(line));
    if words.None? || !IsEvidence(words.value) {
      return None;
    }
    var tokens := words.value[2..];
    var found := map["line_version" := words.value[1]];
    for i := 0 to |tokens|
      invariant ReadFields(tokens[i..], found) == Parse(line)
    {
      var k := IndexOf(tokens[i], '=');
      if k == |tokens[i]| {
        return None;
      }
      found := found[tokens[i][..k] := tokens[i][k + 1..]];
    }
    fields := Some(found);
  }
}
