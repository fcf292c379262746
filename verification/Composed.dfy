/** Plan validation against a composed bundle (`_validate_composed` of
    `hyperset/bundle/plan.py`): the plan is judged against the union of the components it reads
    a uniquely owned source from, and what has no single owner is disclosed instead. */
module Composed {
  import opened Prelude
  import opened Passes
  import opened Pairing
  import opened PairingLaws
  import opened Plan

  // ---------------------------------------------------------------- who owns a source

  /** The components that approve `ref`, each once, in order. */
  function OwnersOf(entries: seq<Entry>, ref: string): seq<nat> {
    if entries == [] then []
    else
      var n := |entries| - 1;
      OwnersOf(entries[..n], ref) + if Names(entries[n].instructions.sources, ref) then [n] else []
  }

  function Get(owners: map<string, seq<nat>>, ref: string): seq<nat> {
    if ref in owners then owners[ref] else []
  }

  method AddOwner(owners: map<string, seq<nat>>, ref: string, index: nat) returns (out: map<string, seq<nat>>)
    ensures forall r :: Get(out, r) == if r == ref && index !in Get(owners, r) then Get(owners, r) + [index] else Get(owners, r)
  {
    var bucket := Get(owners, ref);
    if index !in bucket {
      bucket := bucket + [index];
    }
    out := owners[ref := bucket];
  }

  method AddSource(owners: map<string, seq<nat>>, s: Source, index: nat) returns (out: map<string, seq<nat>>)
    ensures forall r :: Get(out, r) == if r in s.Refs() && index !in Get(owners, r) then Get(owners, r) + [index] else Get(owners, r)
  {
    out := AddOwner(owners, s.ref, index);
    if s.overridden.Some? {
      out := AddOwner(out, s.overridden.value, index);
    }
  }

  lemma NamesNext(sources: seq<Source>, s: Source, ref: string)
    ensures Names(sources + [s], ref) <==> Names(sources, ref) || ref in s.Refs()
  {
    if ref in s.Refs() {
      assert s in sources + [s];
    }
  }

  lemma {:induction false} OwnersAreEarlier(entries: seq<Entry>, ref: string)
    ensures forall i <- OwnersOf(entries, ref) :: i < |entries| && Names(entries[i].instructions.sources, ref)
    ensures forall i :: 0 <= i < |entries| && Names(entries[i].instructions.sources, ref) ==> i in OwnersOf(entries, ref)
    decreases |entries|
  {
    if entries != [] {
      OwnersAreEarlier(entries[..|entries| - 1], ref);
    }
  }

  /** Keyed by distinct component, however often one component lists a source. */
  method OwningComponents(entries: seq<Entry>) returns (owners: map<string, seq<nat>>)
    ensures forall ref :: Get(owners, ref) == OwnersOf(entries, ref)
  {
    owners := map[];
    for i := 0 to |entries|
      invariant forall ref :: Get(owners, ref) == OwnersOf(entries[..i], ref)
    {
      var sources := entries[i].instructions.sources;
      assert entries[..i + 1][..i] == entries[..i];
      forall ref
        ensures i !in OwnersOf(entries[..i], ref)
      {
        OwnersAreEarlier(entries[..i], ref);
      }
      for k := 0 to |sources|
        invariant forall ref :: Get(owners, ref) == OwnersOf(entries[..i], ref) + if Names(sources[..k], ref) then [i] else []
      {
        assert sources[..k + 1] == sources[..k] + [sources[k]];
        forall ref
          ensures Names(sources[..k + 1], ref) <==> Names(sources[..k], ref) || ref in sources[k].Refs()
        {
          NamesNext(sources[..k], sources[k], ref);
        }
        owners := AddSource(owners, sources[k], i);
      }
      assert sources[..|sources|] == sources;
    }
    assert entries[..|entries|] == entries;
  }

  /** The components the plan reads a uniquely owned source from. */
  function Engaged(entries: seq<Entry>, plan: Plan): set<nat> {
    set ref <- plan.sources | |OwnersOf(entries, ref)| == 1 :: OwnersOf(entries, ref)[0]
  }

  predicate Ambiguous(entries: seq<Entry>, ref: string) {
    1 < |OwnersOf(entries, ref)|
  }

  predicate DefinesField(e: Entry, name: string) {
    exists f <- e.instructions.fields :: f.name == name
  }

  /** A field name more than one engaged component defines. */
  predicate AmbiguousField(entries: seq<Entry>, engaged: set<nat>, name: string) {
    exists i <- engaged, j <- engaged :: i < |entries| && j < |entries| && i != j && DefinesField(entries[i], name) && DefinesField(entries[j], name)
  }

  // ---------------------------------------------------------------- joins across domains

  /** `str.split(c)[-1]`. */
  function LastPart(s: string, c: char): string {
    if c in s then LastPart(s[1..], c) else s
  }

  /** `str.split(c)[0]`. */
  function FirstPart(s: string, c: char): string {
    if s == "" || s[0] == c then "" else [s[0]] + FirstPart(s[1..], c)
  }

  function SourceTable(ref: string): string {
    LastPart(LastPart(ref, ':'), '.')
  }

  predicate HoldsTable(e: Entry, table: string) {
    exists s <- e.instructions.sources :: exists r <- s.Refs() :: table == r || table == SourceTable(r)
  }

  /** The first component with an approved source of that table. */
  function ComponentOf(entries: seq<Entry>, table: string): Option<nat> {
    if entries == [] then None
    else
      var n := |entries| - 1;
      match ComponentOf(entries[..n], table)
      case Some(i) => Some(i)
      case None => if HoldsTable(entries[n], table) then Some(n) else None
  }

  predicate CrossesDomains(entries: seq<Entry>, left: string, right: string) {
    var a := ComponentOf(entries, Stripped(FirstPart(left, '.')));
    var b := ComponentOf(entries, Stripped(FirstPart(right, '.')));
    a.Some? && b.Some? && a != b
  }

  // ---------------------------------------------------------------- the composite

  const EMPTY: Entry := Entry(Instructions([], [], [], [], None, [], [], {}), Evidence({}, []))

  /** Two components' governed content and evidence together; no grain. */
  function Merge(a: Entry, b: Entry): Entry {
    var x, y := a.instructions, b.instructions;
    Entry(
      Instructions(x.sources + y.sources, x.fields + y.fields, x.joins + y.joins, x.filters + y.filters, None,
                   x.validations + y.validations, x.prohibited + y.prohibited, x.handled + y.handled),
      Evidence(a.evidence.observedOnly + b.evidence.observedOnly, a.evidence.disputed + b.evidence.disputed))
  }

  /** The union of the engaged components, in order. */
  function Composite(entries: seq<Entry>, engaged: set<nat>): Entry {
    if entries == [] then EMPTY
    else
      var n := |entries| - 1;
      var before := Composite(entries[..n], engaged);
      if n in engaged then Merge(before, entries[n]) else before
  }

  // ---------------------------------------------------------------- the inner plan

  function KeptRefs(entries: seq<Entry>, refs: seq<string>): seq<string> {
    if refs == [] then []
    else KeptRefs(entries, refs[..|refs| - 1]) + if Ambiguous(entries, refs[|refs| - 1]) then [] else [refs[|refs| - 1]]
  }

  function KeptJoins(entries: seq<Entry>, joins: seq<PlanJoin>): seq<PlanJoin> {
    if joins == [] then []
    else
      var j := joins[|joins| - 1];
      KeptJoins(entries, joins[..|joins| - 1]) + if CrossesDomains(entries, j.left, j.right) then [] else [j]
  }

  function KeptFields(entries: seq<Entry>, engaged: set<nat>, fields: seq<PlanField>): seq<PlanField> {
    if fields == [] then []
    else
      var f := fields[|fields| - 1];
      KeptFields(entries, engaged, fields[..|fields| - 1]) + if AmbiguousField(entries, engaged, f.name) then [] else [f]
  }

  /** The plan reduced to the parts the single-domain sections may judge. */
  function InnerPlan(entries: seq<Entry>, plan: Plan): Plan {
    plan.(sources := KeptRefs(entries, plan.sources),
          joins := KeptJoins(entries, plan.joins),
          fields := KeptFields(entries, Engaged(entries, plan), plan.fields))
  }

  // ---------------------------------------------------------------- disclosures

  function AmbiguousSourceFindings(entries: seq<Entry>, refs: seq<string>): seq<Violation> {
    if refs == [] then []
    else
      var r := refs[|refs| - 1];
      AmbiguousSourceFindings(entries, refs[..|refs| - 1])
      + if Ambiguous(entries, r) then [Violation(AmbiguousSourceComponent, Warning, r)] else []
  }

  function FieldNames(fields: seq<PlanField>): seq<string> {
    seq(|fields|, i requires 0 <= i < |fields| => fields[i].name)
  }

  function AmbiguousFieldFindings(entries: seq<Entry>, engaged: set<nat>, names: seq<string>): seq<Violation> {
    if names == [] then []
    else
      var n := names[|names| - 1];
      AmbiguousFieldFindings(entries, engaged, names[..|names| - 1])
      + if AmbiguousField(entries, engaged, n) then [Violation(AmbiguousFieldComponent, Warning, n)] else []
  }

  function CrossDomainFindings(entries: seq<Entry>, joins: seq<PlanJoin>): seq<Violation> {
    if joins == [] then []
    else
      var j := joins[|joins| - 1];
      CrossDomainFindings(entries, joins[..|joins| - 1])
      + if CrossesDomains(entries, j.left, j.right) then [Violation(CrossDomainJoinUnverifiable, Warning, Arrow(j.left, j.right))] else []
  }

  function Disclosures(entries: seq<Entry>, plan: Plan): seq<Violation> {
    AmbiguousSourceFindings(entries, UniqueRefs(plan.sources))
    + AmbiguousFieldFindings(entries, Engaged(entries, plan), UniqueRefs(FieldNames(plan.fields)))
    + CrossDomainFindings(entries, plan.joins)
  }

  // ---------------------------------------------------------------- the verdict

  /** Source validation over the union; when every source the plan named is ambiguous there is
      nothing left of it to validate. */
  function ScopedSourceFindings(composite: Entry, inner: Plan, plan: Plan): seq<Violation> {
    if UniqueRefs(inner.sources) == [] && UniqueRefs(plan.sources) != [] then []
    else SourceFindings(composite, UniqueRefs(inner.sources))
  }

  function ComposedFindings(entries: seq<Entry>, plan: Plan): seq<Violation> {
    var composite := Composite(entries, Engaged(entries, plan));
    var inner := InnerPlan(entries, plan);
    ScopedSourceFindings(composite, inner, plan)
    + FieldFindings(composite.instructions, inner.sources, inner.fields)
    + JoinFindings(composite.instructions, inner.joins)
    + AsViolations(FilterFindingsOf(composite.instructions, inner))
    + DisclosureFindings(composite, inner)
    + Disclosures(entries, plan)
  }

  function ValidateComposed(b: Bundle, plan: Plan): Validation
    requires b.domains.Some?
  {
    var entries := b.domains.value;
    var blocking := Blocking(b, plan);
    Result(Composite(entries, Engaged(entries, plan)).instructions,
           if blocking != [] then blocking else ComposedFindings(entries, plan))
  }

  function Validate(b: Bundle, plan: Plan): Validation {
    if b.domains.Some? then ValidateComposed(b, plan) else ValidateSolo(b, plan)
  }
}
