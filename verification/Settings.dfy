/** The configuration schema (`hyperset/config/schema.py`), and the one walk over it that both
    resolves secret references and redacts them (`hyperset/config/secrets.py`). */
module Settings {
  import opened Prelude
  import opened Layers

  datatype Field =
    | Str
    | Bool
    | Int(minimum: Option<int>, maximum: Option<int>)
    | Enum(choices: seq<string>)
    | Ref
    | Raw
    | ListOf(item: Field)
    | Section(fields: map<string, Field>, required: set<string>)
    | OpenMap(value: Field)

  datatype Step = Key(name: string) | Index(index: nat)

  type Path = seq<Step>

  // ---------------------------------------------------------------- validation

  predicate IsNameStart(c: char) {
    IsAlpha(c) || c == '_'
  }

  predicate IsName(s: string) {
    s != "" && IsNameStart(s[0]) && forall i :: 0 <= i < |s| ==> IsNameStart(s[i]) || IsDigit(s[i])
  }

  const ENV := "${env:"
  const SECRET := "${secret:"

  /** `prefix`, a name, and a closing brace. */
  predicate IsForm(s: string, prefix: string) {
    |prefix| < |s| && s[..|prefix|] == prefix && s[|s| - 1] == '}' && IsName(s[|prefix|..|s| - 1])
  }

  predicate IsReference(v: Value) {
    v.Text? && (IsForm(v.text, ENV) || IsForm(v.text, SECRET))
  }

  function Unsigned(s: string): string {
    if s != "" && (s[0] == '+' || s[0] == '-') then s[1..] else s
  }

  predicate IsInteger(s: string) {
    Unsigned(s) != "" && forall i :: 0 <= i < |Unsigned(s)| ==> IsDigit(Unsigned(s)[i])
  }

  function Digits(s: string): int
    requires forall i :: 0 <= i < |s| ==> IsDigit(s[i])
  {
    if s == "" then 0 else 10 * Digits(s[..|s| - 1]) + (s[|s| - 1] as int - '0' as int)
  }

  function Integer(s: string): int
    requires IsInteger(s)
  {
    if s[0] == '-' then -Digits(Unsigned(s)) else Digits(Unsigned(s))
  }

  predicate InRange(n: int, minimum: Option<int>, maximum: Option<int>) {
    (minimum.Some? ==> minimum.value <= n) && (maximum.Some? ==> n <= maximum.value)
  }

  predicate Present(v: Value, key: string) {
    v.Mapping? && key in v.entries && !v.entries[key].Null?
  }

  /** Whether the value is accepted; the source raises `ConfigError` when not. Sections are closed,
      and a null counts as absent in them. */
  predicate Valid(f: Field, v: Value)
    decreases v
  {
    match f
    case Str => v.Text?
    case Bool => v.Text? && Lower(Stripped(v.text)) in {"true", "false"}
    case Int(minimum, maximum) => v.Text? && IsInteger(Stripped(v.text)) && InRange(Integer(Stripped(v.text)), minimum, maximum)
    case Enum(choices) => v.Text? && v.text in choices
    case Ref => IsReference(v)
    case Raw => true
    case ListOf(item) => v.List? && forall i :: 0 <= i < |v.items| ==> Valid(item, v.items[i])
    case Section(fields, required) =>
      && v.Mapping? && v.entries.Keys <= fields.Keys
      && (forall k <- required :: Present(v, k))
      && (forall k | k in v.entries && !v.entries[k].Null? :: Valid(fields[k], v.entries[k]))
    case OpenMap(value) => v.Mapping? && forall k | k in v.entries :: Valid(value, v.entries[k])
  }

  /** The typed settings an accepted value becomes. */
  function Coerced(f: Field, v: Value): Value
    requires Valid(f, v)
    decreases v
  {
    match f
    case Str => v
    case Bool => Flag(Lower(Stripped(v.text)) == "true")
    case Int(_, _) => Number(Integer(Stripped(v.text)))
    case Enum(_) => v
    case Ref => v
    case Raw => v
    case ListOf(item) => List(seq(|v.items|, i requires 0 <= i < |v.items| => Coerced(item, v.items[i])))
    case Section(fields, _) => Mapping(map k | k in v.entries && !v.entries[k].Null? :: Coerced(fields[k], v.entries[k]))
    case OpenMap(value) => Mapping(map k | k in v.entries :: Coerced(value, v.entries[k]))
  }

  // ---------------------------------------------------------------- the walk

  /** `map_secrets`: the schema, never the value, says which leaves are secret. */
  function MapSecrets(f: Field, v: Value, fn: (Value, Path) -> Value, path: Path): Value
    decreases v
  {
    match f
    case Ref => fn(v, path)
    case ListOf(item) =>
      if v.List? then List(seq(|v.items|, i requires 0 <= i < |v.items| => MapSecrets(item, v.items[i], fn, path + [Index(i)]))) else v
    case Section(fields, _) =>
      if v.Mapping? then
        Mapping(map k | k in v.entries ::
          if k in fields then MapSecrets(fields[k], v.entries[k], fn, path + [Key(k)]) else v.entries[k])
      else v
    case OpenMap(value) =>
      if v.Mapping? then Mapping(map k | k in v.entries :: MapSecrets(value, v.entries[k], fn, path + [Key(k)])) else v
    case _ => v
  }

  const REDACTED := Text("***")

  /** `redact_settings`. */
  function Redacted(f: Field, v: Value): Value {
    MapSecrets(f, v, (x, p) => REDACTED, [])
  }

  /** The property of every leaf the walk hands out. */
  predicate AllSecrets(f: Field, v: Value, holds: Value -> bool)
    decreases v
  {
    match f
    case Ref => holds(v)
    case ListOf(item) => v.List? ==> forall i :: 0 <= i < |v.items| ==> AllSecrets(item, v.items[i], holds)
    case Section(fields, _) => v.Mapping? ==> forall k | k in v.entries && k in fields :: AllSecrets(fields[k], v.entries[k], holds)
    case OpenMap(value) => v.Mapping? ==> forall k | k in v.entries :: AllSecrets(value, v.entries[k], holds)
    case _ => true
  }

  /** Where references resolve: the environment, and the secrets the provider holds. The two forms
      never cross. */
  datatype Store = Store(env: map<string, string>, provider: map<string, string>)

  function Inner(s: string, prefix: string): string
    requires IsForm(s, prefix)
  {
    s[|prefix|..|s| - 1]
  }

  predicate Resolves(store: Store, v: Value) {
    && IsReference(v)
    && (if IsForm(v.text, ENV) then Inner(v.text, ENV) in store.env else Inner(v.text, SECRET) in store.provider)
  }

  function ResolvedTo(store: Store, v: Value): Value {
    if !Resolves(store, v) then v
    else Secret(v.text, if IsForm(v.text, ENV) then store.env[Inner(v.text, ENV)] else store.provider[Inner(v.text, SECRET)])
  }

  /** `resolve_secrets`: nothing unless every reference resolves. */
  function Resolved(f: Field, v: Value, store: Store): Option<Value> {
    if AllSecrets(f, v, x => Resolves(store, x)) then Some(MapSecrets(f, v, (x, p) => ResolvedTo(store, x), []))
    else None
  }
}
