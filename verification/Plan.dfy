/** Plan validation against one served bundle (`hyperset/bundle/plan.py`): the violations each
    section reports, the status they add up to, and the composed path over several domains.

    A violation is kept by code, severity and subject; its prose is not modelled. SQL fragments
    enter as read by the comparator (`TextPairing.Read`). */
module Plan {
  import opened Prelude
  import opened Passes
  import opened Pairing
  import opened PairingLaws
  import TextPairing

  type Key = TextPairing.Key

  /** A fragment as the comparator reads it: its coarse key is its fine key relaxed. */
  type Fragment = f: Stated<Key> | f.coarse == TextPairing.CoarseKey(f.fine)
    witness TextPairing.Read("")

  // ---------------------------------------------------------------- the bundle

  /** An approved or prohibited source, under its ref and perhaps an overriding one. `grain` is
      its per-source grain when it declares one; `sensitive` says it is classified restricted or
      pii. */
  datatype Source = Source(ref: string, overridden: Option<string>, grain: Option<Fragment>, sensitive: bool)
  {
    function Refs(): set<string> {
      if overridden.Some? then {ref, overridden.value} else {ref}
    }
  }

  datatype Field = Field(name: string, expression: Fragment, source: string)

  datatype Join = Join(left: string, right: string, kind: string)

  /** The governed sections. `handled` holds the refs some governed caveat names; a blank grain is
      no grain. */
  datatype Instructions = Instructions(
    sources: seq<Source>,
    fields: seq<Field>,
    joins: seq<Join>,
    filters: seq<Fragment>,
    grain: Option<Fragment>,
    validations: seq<string>,
    prohibited: seq<Source>,
    handled: set<string>)

  /** The refs the bundle carries as mere observations, and the fields whose source disagrees. */
  datatype Evidence = Evidence(observedOnly: set<string>, disputed: seq<string>)

  datatype Entry = Entry(instructions: Instructions, evidence: Evidence)

  datatype BundleStatus = Governed | Mixed | ObservedOnly | NoMatch

  datatype Bundle = Bundle(id: string, status: BundleStatus, entry: Entry, domains: Option<seq<Entry>>)

  // ---------------------------------------------------------------- the plan

  datatype PlanField = PlanField(name: string, expression: Option<Fragment>, source: Option<string>)

  datatype PlanJoin = PlanJoin(left: string, right: string, kind: Option<string>)

  /** `aggregated` holds the refs whose rows the plan's fields aggregate. */
  datatype Plan = Plan(
    bundleId: Option<string>,
    sources: seq<string>,
    fields: seq<PlanField>,
    joins: seq<PlanJoin>,
    filters: seq<Fragment>,
    grain: Option<Fragment>,
    checks: seq<string>,
    aggregated: set<string>)

  // ---------------------------------------------------------------- violations

  datatype Severity = Error | Warning

  datatype Code =
    | StaleBundle | NoGovernedContext | NoDeclaredSources
    | ProhibitedSource | ObservedOnlySource | UnapprovedSource
    | UnapprovedField | FieldExpressionMismatch | FieldExpressionUndecidable
    | FieldSourceMismatch | UndeclaredFieldSource
    | UnapprovedJoin | JoinTypeMismatch
    | MissingRequiredFilter | FilterUndecidable | UnapprovedFilter
    | GrainMismatch | GrainUndecidable | GrainFanout
    | ClassificationUndisclosed | MissingRequiredCheck | DisputedField
    | AmbiguousSourceComponent | AmbiguousFieldComponent | CrossDomainJoinUnverifiable

  datatype Violation = Violation(code: Code, severity: Severity, subject: string)

  datatype Status = Valid | ValidWithGaps | Warnings | Invalid | Unverifiable

  datatype Section = Filters | Joins | Fields | Grain | Validations

  datatype Validation = Validation(status: Status, violations: seq<Violation>, gaps: seq<Section>)

  // ---------------------------------------------------------------- sources

  function UniqueRefs(refs: seq<string>): seq<string> {
    if refs == [] then []
    else
      var before, last := UniqueRefs(refs[..|refs| - 1]), refs[|refs| - 1];
      if last in before then before else before + [last]
  }

  predicate Names(sources: seq<Source>, ref: string) {
    exists s <- sources :: ref in s.Refs()
  }

  function SourceFinding(e: Entry, ref: string): seq<Violation> {
    if Names(e.instructions.prohibited, ref) then [Violation(ProhibitedSource, Error, ref)]
    else if ref in e.evidence.observedOnly then [Violation(ObservedOnlySource, Error, ref)]
    else if !Names(e.instructions.sources, ref) then [Violation(UnapprovedSource, Error, ref)]
    else []
  }

  function SourceFindings(e: Entry, refs: seq<string>): seq<Violation> {
    if refs == [] then [] else SourceFindings(e, refs[..|refs| - 1]) + SourceFinding(e, refs[|refs| - 1])
  }

  // ---------------------------------------------------------------- fields

  /** The governed field of that name; of several, the last. */
  function FieldNamed(fields: seq<Field>, name: string): (r: Option<Field>)
    ensures r.Some? ==> r.value in fields && r.value.name == name
    ensures r.None? ==> forall f <- fields :: f.name != name
  {
    if fields == [] then None
    else if fields[|fields| - 1].name == name then Some(fields[|fields| - 1])
    else FieldNamed(fields[..|fields| - 1], name)
  }

  /** The refs a field may be read from: those of the last approved source of that ref, or the
      ref itself. */
  function AcceptedRefs(sources: seq<Source>, ref: string): set<string> {
    if sources == [] then {ref}
    else if sources[|sources| - 1].ref == ref then sources[|sources| - 1].Refs()
    else AcceptedRefs(sources[..|sources| - 1], ref)
  }

  predicate Declares(refs: seq<string>, accepted: set<string>) {
    exists r <- refs :: r in accepted
  }

  function FieldFinding(ins: Instructions, refs: seq<string>, f: PlanField): seq<Violation> {
    match FieldNamed(ins.fields, f.name)
    case None => [Violation(UnapprovedField, Error, f.name)]
    case Some(g) =>
      var accepted := AcceptedRefs(ins.sources, g.source);
      (if f.expression.None? then []
       else
         match Judge(g.expression, f.expression.value)
         case Different => [Violation(FieldExpressionMismatch, Error, f.name)]
         case Undecided => [Violation(FieldExpressionUndecidable, Warning, f.name)]
         case Equivalent => [])
      + (if f.source.Some? && f.source.value !in accepted then [Violation(FieldSourceMismatch, Error, f.name)] else [])
      + (if !Declares(refs, accepted) then [Violation(UndeclaredFieldSource, Error, f.name)] else [])
  }

  function FieldFindings(ins: Instructions, refs: seq<string>, fields: seq<PlanField>): seq<Violation> {
    if fields == [] then []
    else FieldFindings(ins, refs, fields[..|fields| - 1]) + FieldFinding(ins, refs, fields[|fields| - 1])
  }

  // ---------------------------------------------------------------- joins

  function JoinBetween(joins: seq<Join>, left: string, right: string): (r: Option<Join>)
    ensures r.Some? ==> r.value in joins && r.value.left == left && r.value.right == right
    ensures r.None? ==> forall j <- joins :: j.left != left || j.right != right
  {
    if joins == [] then None
    else
      var last := joins[|joins| - 1];
      if last.left == left && last.right == right then Some(last) else JoinBetween(joins[..|joins| - 1], left, right)
  }

  function Arrow(left: string, right: string): string {
    left + "->" + right
  }

  function JoinFinding(ins: Instructions, j: PlanJoin): seq<Violation> {
    match JoinBetween(ins.joins, j.left, j.right)
    case None => [Violation(UnapprovedJoin, Error, Arrow(j.left, j.right))]
    case Some(g) =>
      if j.kind.Some? && j.kind.value != g.kind then [Violation(JoinTypeMismatch, Error, Arrow(j.left, j.right))] else []
  }

  function JoinFindings(ins: Instructions, joins: seq<PlanJoin>): seq<Violation> {
    if joins == [] then [] else JoinFindings(ins, joins[..|joins| - 1]) + JoinFinding(ins, joins[|joins| - 1])
  }

  // ---------------------------------------------------------------- filters

  function AsViolation(f: Finding<Key>): Violation {
    match f
    case MissingFilter(required) => Violation(MissingRequiredFilter, Error, required.text)
    case UndecidableFilter(required, _) => Violation(FilterUndecidable, Warning, required.text)
    case ExtraFilter(stated) => Violation(UnapprovedFilter, Warning, stated.text)
  }

  function AsViolations(fs: seq<Finding<Key>>): (vs: seq<Violation>)
    ensures |vs| == |fs| && forall i :: 0 <= i < |fs| ==> vs[i] == AsViolation(fs[i])
  {
    seq(|fs|, i requires 0 <= i < |fs| => AsViolation(fs[i]))
  }

  function FilterFindingsOf(ins: Instructions, plan: Plan): seq<Finding<Key>> {
    Findings(Unique(ins.filters), Unique(plan.filters))
  }

  // ---------------------------------------------------------------- grain, fan-out, classification

  /** The fragment of the empty text: what an unstated grain is compared as. */
  const BLANK: Fragment := TextPairing.Read("")

  function StatedGrain(plan: Plan): Fragment {
    if plan.grain.Some? then plan.grain.value else BLANK
  }

  function GrainFindings(ins: Instructions, plan: Plan): seq<Violation> {
    if ins.grain.None? then []
    else
      match Judge(ins.grain.value, StatedGrain(plan))
      case Equivalent => []
      case Different => [Violation(GrainMismatch, Error, StatedGrain(plan).text)]
      case Undecided => [Violation(GrainUndecidable, Warning, StatedGrain(plan).text)]
  }

  predicate Reads(plan: Plan, s: Source) {
    exists r <- s.Refs() :: r in plan.sources
  }

  predicate FansOut(plan: Plan, s: Source) {
    && plan.grain.Some? && s.grain.Some? && Reads(plan, s)
    && Judge(s.grain.value, plan.grain.value) == Different
    && !(exists r <- s.Refs() :: r in plan.aggregated)
  }

  predicate Undisclosed(ins: Instructions, plan: Plan, s: Source) {
    s.sensitive && Reads(plan, s) && !(exists r <- s.Refs() :: r in ins.handled)
  }

  function FanoutFindings(plan: Plan, sources: seq<Source>): seq<Violation> {
    if sources == [] then []
    else
      var s := sources[|sources| - 1];
      FanoutFindings(plan, sources[..|sources| - 1]) + if FansOut(plan, s) then [Violation(GrainFanout, Error, s.ref)] else []
  }

  function ClassificationFindings(ins: Instructions, plan: Plan, sources: seq<Source>): seq<Violation> {
    if sources == [] then []
    else
      var s := sources[|sources| - 1];
      ClassificationFindings(ins, plan, sources[..|sources| - 1])
      + if Undisclosed(ins, plan, s) then [Violation(ClassificationUndisclosed, Error, s.ref)] else []
  }

  // ---------------------------------------------------------------- checks and disputes

  function CheckFindings(checks: seq<string>, plan: Plan): seq<Violation> {
    if checks == [] then []
    else
      var c := checks[|checks| - 1];
      CheckFindings(checks[..|checks| - 1], plan) + if c in plan.checks then [] else [Violation(MissingRequiredCheck, Warning, c)]
  }

  predicate Plans(plan: Plan, name: string) {
    exists f <- plan.fields :: f.name == name
  }

  function DisputeFindings(disputed: seq<string>, plan: Plan): seq<Violation> {
    if disputed == [] then []
    else
      var d := disputed[|disputed| - 1];
      DisputeFindings(disputed[..|disputed| - 1], plan) + if Plans(plan, d) then [Violation(DisputedField, Warning, d)] else []
  }

  // ---------------------------------------------------------------- the verdict

  function Blocking(b: Bundle, plan: Plan): seq<Violation> {
    if plan.bundleId.Some? && plan.bundleId.value != b.id then [Violation(StaleBundle, Error, plan.bundleId.value)]
    else if b.status != Governed && b.status != Mixed then [Violation(NoGovernedContext, Error, "")]
    else if UniqueRefs(plan.sources) == [] then [Violation(NoDeclaredSources, Error, "")]
    else []
  }

  predicate IsBlocking(c: Code) {
    c == StaleBundle || c == NoGovernedContext || c == NoDeclaredSources
  }

  function StatusOf(vs: seq<Violation>): Status {
    if exists v <- vs :: IsBlocking(v.code) then Unverifiable
    else if exists v <- vs :: v.severity == Error then Invalid
    else if vs != [] then Warnings
    else Valid
  }

  /** The governed sections that declare nothing, in the order they are disclosed. */
  function NotCheckable(ins: Instructions): seq<Section> {
    (if ins.filters == [] then [Filters] else [])
    + (if ins.joins == [] then [Joins] else [])
    + (if ins.fields == [] then [Fields] else [])
    + (if ins.grain.None? then [Grain] else [])
    + (if ins.validations == [] then [Validations] else [])
  }

  function Result(ins: Instructions, vs: seq<Violation>): Validation {
    var status := StatusOf(vs);
    var gaps := if status == Valid || status == Warnings then NotCheckable(ins) else [];
    Validation(if gaps != [] && status == Valid then ValidWithGaps else status, vs, gaps)
  }

  /** Sources, fields, joins and filters against one entry. */
  function StructureFindings(e: Entry, plan: Plan): seq<Violation> {
    SourceFindings(e, UniqueRefs(plan.sources))
    + FieldFindings(e.instructions, plan.sources, plan.fields)
    + JoinFindings(e.instructions, plan.joins)
    + AsViolations(FilterFindingsOf(e.instructions, plan))
  }

  /** Classification, checks and disputes against one entry. */
  function DisclosureFindings(e: Entry, plan: Plan): seq<Violation> {
    ClassificationFindings(e.instructions, plan, e.instructions.sources)
    + CheckFindings(e.instructions.validations, plan)
    + DisputeFindings(e.evidence.disputed, plan)
  }

  function SoloFindings(e: Entry, plan: Plan): seq<Violation> {
    StructureFindings(e, plan)
    + GrainFindings(e.instructions, plan)
    + FanoutFindings(plan, e.instructions.sources)
    + DisclosureFindings(e, plan)
  }

  function ValidateSolo(b: Bundle, plan: Plan): Validation {
    var blocking := Blocking(b, plan);
    Result(b.entry.instructions, if blocking != [] then blocking else SoloFindings(b.entry, plan))
  }

  // ---------------------------------------------------------------- the source's loops

  method SourceViolations(e: Entry, plan: Plan) returns (violations: seq<Violation>)
    ensures violations == SourceFindings(e, UniqueRefs(plan.sources))
  {
    var refs := UniqueRefs(plan.sources);
    violations := [];
    for i := 0 to |refs|
      invariant violations == SourceFindings(e, refs[..i])
    {
      var ref := refs[i];
      assert refs[..i + 1][..i] == refs[..i];
      if Names(e.instructions.prohibited, ref) {
        violations := violations + [Violation(ProhibitedSource, Error, ref)];
      } else if ref in e.evidence.observedOnly {
        violations := violations + [Violation(ObservedOnlySource, Error, ref)];
      } else if !Names(e.instructions.sources, ref) {
        violations := violations + [Violation(UnapprovedSource, Error, ref)];
      }
    }
    assert refs[..|refs|] == refs;
  }

  method FieldViolation(ins: Instructions, refs: seq<string>, f: PlanField) returns (violations: seq<Violation>)
    ensures violations == FieldFinding(ins, refs, f)
  {
    var governed := FieldNamed(ins.fields, f.name);
    if governed.None? {
      return [Violation(UnapprovedField, Error, f.name)];
    }
    violations := [];
    var accepted := AcceptedRefs(ins.sources, governed.value.source);
    if f.expression.Some? {
      var verdict := Judge(governed.value.expression, f.expression.value);
      if verdict == Different {
        violations := violations + [Violation(FieldExpressionMismatch, Error, f.name)];
      } else if verdict != Equivalent {
        violations := violations + [Violation(FieldExpressionUndecidable, Warning, f.name)];
      }
    }
    if f.source.Some? && f.source.value !in accepted {
      violations := violations + [Violation(FieldSourceMismatch, Error, f.name)];
    }
    if !Declares(refs, accepted) {
      violations := violations + [Violation(UndeclaredFieldSource, Error, f.name)];
    }
  }

  method FieldViolations(ins: Instructions, plan: Plan) returns (violations: seq<Violation>)
    ensures violations == FieldFindings(ins, plan.sources, plan.fields)
  {
    violations := [];
    for i := 0 to |plan.fields|
      invariant violations == FieldFindings(ins, plan.sources, plan.fields[..i])
    {
      assert plan.fields[..i + 1][..i] == plan.fields[..i];
      var found := FieldViolation(ins, plan.sources, plan.fields[i]);
      violations := violations + found;
    }
    assert plan.fields[..|plan.fields|] == plan.fields;
  }

  method JoinViolations(ins: Instructions, plan: Plan) returns (violations: seq<Violation>)
    ensures violations == JoinFindings(ins, plan.joins)
  {
    violations := [];
    for i := 0 to |plan.joins|
      invariant violations == JoinFindings(ins, plan.joins[..i])
    {
      var j := plan.joins[i];
      assert plan.joins[..i + 1][..i] == plan.joins[..i];
      var governed := JoinBetween(ins.joins, j.left, j.right);
      if governed.None? {
        violations := violations + [Violation(UnapprovedJoin, Error, Arrow(j.left, j.right))];
      } else if j.kind.Some? && j.kind.value != governed.value.kind {
        violations := violations + [Violation(JoinTypeMismatch, Error, Arrow(j.left, j.right))];
      }
    }
    assert plan.joins[..|plan.joins|] == plan.joins;
  }

  method FilterViolations(ins: Instructions, plan: Plan) returns (violations: seq<Violation>)
    ensures violations == AsViolations(FilterFindingsOf(ins, plan))
  {
    var required := UniqueFragments(ins.filters);
    var stated := UniqueFragments(plan.filters);
    UniqueKeepsOnePerKey(ins.filters);
    UniqueKeepsOnePerKey(plan.filters);
    var findings := FilterFindings(required, stated);
    violations := AsViolations(findings);
  }

  method FanoutViolations(ins: Instructions, plan: Plan) returns (violations: seq<Violation>)
    ensures violations == FanoutFindings(plan, ins.sources)
  {
    violations := [];
    for i := 0 to |ins.sources|
      invariant violations == FanoutFindings(plan, ins.sources[..i])
    {
      assert ins.sources[..i + 1][..i] == ins.sources[..i];
      if FansOut(plan, ins.sources[i]) {
        violations := violations + [Violation(GrainFanout, Error, ins.sources[i].ref)];
      }
    }
    assert ins.sources[..|ins.sources|] == ins.sources;
  }

  method ClassificationViolations(ins: Instructions, plan: Plan) returns (violations: seq<Violation>)
    ensures violations == ClassificationFindings(ins, plan, ins.sources)
  {
    violations := [];
    for i := 0 to |ins.sources|
      invariant violations == ClassificationFindings(ins, plan, ins.sources[..i])
    {
      assert ins.sources[..i + 1][..i] == ins.sources[..i];
      if Undisclosed(ins, plan, ins.sources[i]) {
        violations := violations + [Violation(ClassificationUndisclosed, Error, ins.sources[i].ref)];
      }
    }
    assert ins.sources[..|ins.sources|] == ins.sources;
  }

  method ValidateSingleDomain(b: Bundle, plan: Plan) returns (v: Validation)
    ensures v == ValidateSolo(b, plan)
  {
    var blocking := Blocking(b, plan);
    if blocking != [] {
      return Result(b.entry.instructions, blocking);
    }
    var ins := b.entry.instructions;
    var sources := SourceViolations(b.entry, plan);
    var fields := FieldViolations(ins, plan);
    var joins := JoinViolations(ins, plan);
    var filters := FilterViolations(ins, plan);
    var fanout := FanoutViolations(ins, plan);
    var classification := ClassificationViolations(ins, plan);
    var structure := sources + fields + joins + filters;
    var disclosure := classification + CheckFindings(ins.validations, plan) + DisputeFindings(b.entry.evidence.disputed, plan);
    v := Result(ins, structure + GrainFindings(ins, plan) + fanout + disclosure);
  }
}
