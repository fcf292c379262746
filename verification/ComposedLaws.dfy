/** What the composed path promises: a component the plan does not engage cannot touch its
    verdict, and a plan that engages one component is judged as that component alone would
    judge it, grain and fan-out aside. */
module ComposedLaws {
  import opened Prelude
  import opened Passes
  import opened Pairing
  import opened PairingLaws
  import opened Plan
  import opened PlanLaws
  import opened Composed

  // ---------------------------------------------------------------- non-interference

  /** The two lists of components approve the same sources, place by place. */
  ghost predicate SameSources(a: seq<Entry>, b: seq<Entry>) {
    |a| == |b| && forall i :: 0 <= i < |a| ==> a[i].instructions.sources == b[i].instructions.sources
  }

  lemma {:induction false} OwnersDependOnSources(a: seq<Entry>, b: seq<Entry>, ref: string)
    requires SameSources(a, b)
    ensures OwnersOf(a, ref) == OwnersOf(b, ref)
    decreases |a|
  {
    if a != [] {
      OwnersDependOnSources(a[..|a| - 1], b[..|a| - 1], ref);
    }
  }

  lemma {:induction false} TablesDependOnSources(a: seq<Entry>, b: seq<Entry>, table: string)
    requires SameSources(a, b)
    ensures ComponentOf(a, table) == ComponentOf(b, table)
    decreases |a|
  {
    if a != [] {
      TablesDependOnSources(a[..|a| - 1], b[..|a| - 1], table);
    }
  }

  lemma CrossingDependsOnSources(a: seq<Entry>, b: seq<Entry>, left: string, right: string)
    requires SameSources(a, b)
    ensures CrossesDomains(a, left, right) == CrossesDomains(b, left, right)
  {
    TablesDependOnSources(a, b, Stripped(FirstPart(left, '.')));
    TablesDependOnSources(a, b, Stripped(FirstPart(right, '.')));
  }

  lemma EngagedDependsOnSources(a: seq<Entry>, b: seq<Entry>, plan: Plan)
    requires SameSources(a, b)
    ensures Engaged(a, plan) == Engaged(b, plan)
  {
    forall ref
      ensures OwnersOf(a, ref) == OwnersOf(b, ref)
    {
      OwnersDependOnSources(a, b, ref);
    }
  }

  lemma {:induction false} CompositeDependsOnEngaged(a: seq<Entry>, b: seq<Entry>, engaged: set<nat>)
    requires |a| == |b| && forall i :: 0 <= i < |a| && i in engaged ==> a[i] == b[i]
    ensures Composite(a, engaged) == Composite(b, engaged)
    decreases |a|
  {
    if a != [] {
      CompositeDependsOnEngaged(a[..|a| - 1], b[..|a| - 1], engaged);
    }
  }

  lemma AmbiguityDependsOnEngaged(a: seq<Entry>, b: seq<Entry>, engaged: set<nat>, name: string)
    requires |a| == |b| && forall i :: 0 <= i < |a| && i in engaged ==> a[i] == b[i]
    ensures AmbiguousField(a, engaged, name) == AmbiguousField(b, engaged, name)
  {
  }

  lemma {:induction false} KeptRefsAgree(a: seq<Entry>, b: seq<Entry>, refs: seq<string>)
    requires SameSources(a, b)
    ensures KeptRefs(a, refs) == KeptRefs(b, refs)
    ensures AmbiguousSourceFindings(a, refs) == AmbiguousSourceFindings(b, refs)
    decreases |refs|
  {
    if refs != [] {
      KeptRefsAgree(a, b, refs[..|refs| - 1]);
      OwnersDependOnSources(a, b, refs[|refs| - 1]);
    }
  }

  lemma {:induction false} KeptJoinsAgree(a: seq<Entry>, b: seq<Entry>, joins: seq<PlanJoin>)
    requires SameSources(a, b)
    ensures KeptJoins(a, joins) == KeptJoins(b, joins)
    ensures CrossDomainFindings(a, joins) == CrossDomainFindings(b, joins)
    decreases |joins|
  {
    if joins != [] {
      var j := joins[|joins| - 1];
      KeptJoinsAgree(a, b, joins[..|joins| - 1]);
      CrossingDependsOnSources(a, b, j.left, j.right);
    }
  }

  lemma {:induction false} KeptFieldsAgree(a: seq<Entry>, b: seq<Entry>, engaged: set<nat>, fields: seq<PlanField>)
    requires |a| == |b| && forall i :: 0 <= i < |a| && i in engaged ==> a[i] == b[i]
    ensures KeptFields(a, engaged, fields) == KeptFields(b, engaged, fields)
    decreases |fields|
  {
    if fields != [] {
      KeptFieldsAgree(a, b, engaged, fields[..|fields| - 1]);
      AmbiguityDependsOnEngaged(a, b, engaged, fields[|fields| - 1].name);
    }
  }

  lemma {:induction false} AmbiguousFieldsAgree(a: seq<Entry>, b: seq<Entry>, engaged: set<nat>, names: seq<string>)
    requires |a| == |b| && forall i :: 0 <= i < |a| && i in engaged ==> a[i] == b[i]
    ensures AmbiguousFieldFindings(a, engaged, names) == AmbiguousFieldFindings(b, engaged, names)
    decreases |names|
  {
    if names != [] {
      AmbiguousFieldsAgree(a, b, engaged, names[..|names| - 1]);
      AmbiguityDependsOnEngaged(a, b, engaged, names[|names| - 1]);
    }
  }

  /** Whatever the unengaged components hold besides their approved sources, the verdict is the
      same: status, violations and disclosed gaps. */
  lemma UnengagedComponentsDoNotInterfere(b: Bundle, c: Bundle, plan: Plan)
    requires b.domains.Some? && c.domains.Some? && b.id == c.id && b.status == c.status
    requires SameSources(b.domains.value, c.domains.value)
    requires forall i :: 0 <= i < |b.domains.value| && i in Engaged(b.domains.value, plan)
                         ==> b.domains.value[i] == c.domains.value[i]
    ensures Validate(b, plan) == Validate(c, plan)
  {
    SameParts(b.domains.value, c.domains.value, plan);
    SameVerdict(b, c, plan);
  }

  lemma SameParts(x: seq<Entry>, y: seq<Entry>, plan: Plan)
    requires SameSources(x, y) && forall i :: 0 <= i < |x| && i in Engaged(x, plan) ==> x[i] == y[i]
    ensures Composite(x, Engaged(x, plan)) == Composite(y, Engaged(y, plan))
    ensures InnerPlan(x, plan) == InnerPlan(y, plan)
    ensures Disclosures(x, plan) == Disclosures(y, plan)
  {
    var engaged := Engaged(x, plan);
    EngagedDependsOnSources(x, y, plan);
    CompositeDependsOnEngaged(x, y, engaged);
    KeptRefsAgree(x, y, plan.sources);
    KeptRefsAgree(x, y, UniqueRefs(plan.sources));
    KeptJoinsAgree(x, y, plan.joins);
    KeptFieldsAgree(x, y, engaged, plan.fields);
    AmbiguousFieldsAgree(x, y, engaged, UniqueRefs(FieldNames(plan.fields)));
  }

  lemma SameVerdict(b: Bundle, c: Bundle, plan: Plan)
    requires b.domains.Some? && c.domains.Some? && b.id == c.id && b.status == c.status
    requires var x, y := b.domains.value, c.domains.value;
             && Composite(x, Engaged(x, plan)) == Composite(y, Engaged(y, plan))
             && InnerPlan(x, plan) == InnerPlan(y, plan) && Disclosures(x, plan) == Disclosures(y, plan)
    ensures Validate(b, plan) == Validate(c, plan)
  {
  }

  // ---------------------------------------------------------------- one engaged component

  function NoGrain(e: Entry): Entry {
    Entry(e.instructions.(grain := None), e.evidence)
  }

  lemma {:induction false} CompositeOfOne(entries: seq<Entry>, engaged: set<nat>, k: nat)
    requires k < |entries| && (forall i :: 0 <= i < |entries| ==> (i in engaged <==> i == k))
    ensures Composite(entries, engaged) == NoGrain(entries[k])
    decreases |entries|
  {
    var n := |entries| - 1;
    if n == k {
      CompositeOfNone(entries[..n], engaged);
      MergeWithEmpty(entries[k]);
    } else {
      CompositeOfOne(entries[..n], engaged, k);
    }
  }

  lemma MergeWithEmpty(e: Entry)
    ensures Merge(EMPTY, e) == NoGrain(e)
  {
    var m, x := Merge(EMPTY, e).instructions, e.instructions;
    assert m.sources == x.sources && m.fields == x.fields && m.joins == x.joins && m.filters == x.filters;
    assert m.validations == x.validations && m.prohibited == x.prohibited && m.handled == x.handled;
    assert Merge(EMPTY, e).evidence == e.evidence by {
      assert {} + e.evidence.observedOnly == e.evidence.observedOnly && [] + e.evidence.disputed == e.evidence.disputed;
    }
  }

  lemma {:induction false} CompositeOfNone(entries: seq<Entry>, engaged: set<nat>)
    requires forall i :: 0 <= i < |entries| ==> i !in engaged
    ensures Composite(entries, engaged) == EMPTY
    decreases |entries|
  {
    if entries != [] {
      CompositeOfNone(entries[..|entries| - 1], engaged);
    }
  }

  lemma {:induction false} AllRefsKept(entries: seq<Entry>, refs: seq<string>)
    requires forall r <- refs :: !Ambiguous(entries, r)
    ensures KeptRefs(entries, refs) == refs && AmbiguousSourceFindings(entries, refs) == []
    decreases |refs|
  {
    if refs != [] {
      assert refs[..|refs| - 1] + [refs[|refs| - 1]] == refs;
      AllRefsKept(entries, refs[..|refs| - 1]);
    }
  }

  lemma {:induction false} AllJoinsKept(entries: seq<Entry>, joins: seq<PlanJoin>)
    requires forall j <- joins :: !CrossesDomains(entries, j.left, j.right)
    ensures KeptJoins(entries, joins) == joins && CrossDomainFindings(entries, joins) == []
    decreases |joins|
  {
    if joins != [] {
      assert joins[..|joins| - 1] + [joins[|joins| - 1]] == joins;
      AllJoinsKept(entries, joins[..|joins| - 1]);
    }
  }

  lemma {:induction false} AllFieldsKept(entries: seq<Entry>, engaged: set<nat>, k: nat, fields: seq<PlanField>)
    requires engaged == {k}
    ensures KeptFields(entries, engaged, fields) == fields
    decreases |fields|
  {
    if fields != [] {
      assert fields[..|fields| - 1] + [fields[|fields| - 1]] == fields;
      AllFieldsKept(entries, engaged, k, fields[..|fields| - 1]);
    }
  }

  lemma {:induction false} NoAmbiguousFields(entries: seq<Entry>, engaged: set<nat>, k: nat, names: seq<string>)
    requires engaged == {k}
    ensures AmbiguousFieldFindings(entries, engaged, names) == []
    decreases |names|
  {
    if names != [] {
      NoAmbiguousFields(entries, engaged, k, names[..|names| - 1]);
    }
  }

  lemma {:induction false} SourcesIgnoreGrain(e: Entry, refs: seq<string>)
    ensures SourceFindings(NoGrain(e), refs) == SourceFindings(e, refs)
    decreases |refs|
  {
    if refs != [] {
      SourcesIgnoreGrain(e, refs[..|refs| - 1]);
    }
  }

  lemma FieldIgnoresGrain(ins: Instructions, bare: Instructions, refs: seq<string>, f: PlanField)
    requires bare == ins.(grain := None)
    ensures FieldFinding(bare, refs, f) == FieldFinding(ins, refs, f)
  {
    assert bare.fields == ins.fields && bare.sources == ins.sources;
  }

  lemma {:induction false} FieldsIgnoreGrain(ins: Instructions, refs: seq<string>, fields: seq<PlanField>)
    ensures FieldFindings(ins.(grain := None), refs, fields) == FieldFindings(ins, refs, fields)
    decreases |fields|
  {
    if fields != [] {
      FieldIgnoresGrain(ins, ins.(grain := None), refs, fields[|fields| - 1]);
      FieldsIgnoreGrain(ins, refs, fields[..|fields| - 1]);
    }
  }

  lemma {:induction false} JoinsIgnoreGrain(ins: Instructions, joins: seq<PlanJoin>)
    ensures JoinFindings(ins.(grain := None), joins) == JoinFindings(ins, joins)
    decreases |joins|
  {
    if joins != [] {
      JoinsIgnoreGrain(ins, joins[..|joins| - 1]);
    }
  }

  lemma {:induction false} ClassificationIgnoresGrain(ins: Instructions, plan: Plan, sources: seq<Source>)
    ensures ClassificationFindings(ins.(grain := None), plan, sources) == ClassificationFindings(ins, plan, sources)
    decreases |sources|
  {
    if sources != [] {
      ClassificationIgnoresGrain(ins, plan, sources[..|sources| - 1]);
    }
  }

  /** The engaged components are components. */
  lemma EngagedAreComponents(entries: seq<Entry>, plan: Plan)
    ensures forall i <- Engaged(entries, plan) :: i < |entries|
  {
    forall i | i in Engaged(entries, plan)
      ensures i < |entries|
    {
      var ref :| ref in plan.sources && |OwnersOf(entries, ref)| == 1 && OwnersOf(entries, ref)[0] == i;
      OwnersAreEarlier(entries, ref);
      assert i in OwnersOf(entries, ref);
    }
  }

  lemma InnerPlanOfOne(entries: seq<Entry>, plan: Plan, k: nat)
    requires Engaged(entries, plan) == {k}
    requires forall r <- plan.sources :: !Ambiguous(entries, r)
    requires forall j <- plan.joins :: !CrossesDomains(entries, j.left, j.right)
    ensures InnerPlan(entries, plan) == plan && Disclosures(entries, plan) == []
  {
    AllRefsKept(entries, plan.sources);
    UniqueRefsKeepMembers(plan.sources);
    AllRefsKept(entries, UniqueRefs(plan.sources));
    AllJoinsKept(entries, plan.joins);
    AllFieldsKept(entries, {k}, k, plan.fields);
    NoAmbiguousFields(entries, {k}, k, UniqueRefs(FieldNames(plan.fields)));
  }

  lemma FindingsIgnoreGrain(e: Entry, plan: Plan)
    ensures StructureFindings(NoGrain(e), plan) == StructureFindings(e, plan)
    ensures DisclosureFindings(NoGrain(e), plan) == DisclosureFindings(e, plan)
  {
    SourcesIgnoreGrain(e, UniqueRefs(plan.sources));
    FieldsIgnoreGrain(e.instructions, plan.sources, plan.fields);
    JoinsIgnoreGrain(e.instructions, plan.joins);
    ClassificationIgnoresGrain(e.instructions, plan, e.instructions.sources);
  }

  /** The composed path refines the single-domain one: with one component engaged, no ambiguous
      source and no join across domains, the violations are that component's own, less what its
      grain and its sources' grains would add. */
  lemma OneEngagedIsSolo(b: Bundle, plan: Plan, k: nat)
    requires b.domains.Some? && Blocking(b, plan) == []
    requires Engaged(b.domains.value, plan) == {k}
    requires forall r <- plan.sources :: !Ambiguous(b.domains.value, r)
    requires forall j <- plan.joins :: !CrossesDomains(b.domains.value, j.left, j.right)
    ensures k < |b.domains.value|
    ensures Validate(b, plan).violations == WithoutGrain(SoloFindings(b.domains.value[k], plan))
  {
    var entries := b.domains.value;
    EngagedAreComponents(entries, plan);
    assert k in Engaged(entries, plan);
    CompositeOfOne(entries, {k}, k);
    InnerPlanOfOne(entries, plan, k);
    FindingsIgnoreGrain(entries[k], plan);
    GrainIsolated(entries[k], plan);
    var structure, disclosure := StructureFindings(entries[k], plan), DisclosureFindings(entries[k], plan);
    assert ComposedFindings(entries, plan) == structure + disclosure + [];
  }

  // ---------------------------------------------------------------- grain and fan-out, taken out

  predicate IsGrain(c: Code) {
    c == GrainMismatch || c == GrainUndecidable || c == GrainFanout
  }

  function WithoutGrain(vs: seq<Violation>): seq<Violation> {
    if vs == [] then []
    else WithoutGrain(vs[..|vs| - 1]) + if IsGrain(vs[|vs| - 1].code) then [] else [vs[|vs| - 1]]
  }

  lemma {:induction false} WithoutGrainAdds(a: seq<Violation>, b: seq<Violation>)
    ensures WithoutGrain(a + b) == WithoutGrain(a) + WithoutGrain(b)
    decreases |b|
  {
    if b == [] {
      assert a + b == a;
    } else {
      assert (a + b)[..|a + b| - 1] == a + b[..|b| - 1];
      WithoutGrainAdds(a, b[..|b| - 1]);
    }
  }

  lemma {:induction false} NothingTakenOut(vs: seq<Violation>)
    requires forall v <- vs :: !IsGrain(v.code)
    ensures WithoutGrain(vs) == vs
    decreases |vs|
  {
    if vs != [] {
      NothingTakenOut(vs[..|vs| - 1]);
      assert vs == vs[..|vs| - 1] + [vs[|vs| - 1]];
    }
  }

  lemma {:induction false} AllTakenOut(vs: seq<Violation>)
    requires forall v <- vs :: IsGrain(v.code)
    ensures WithoutGrain(vs) == []
    decreases |vs|
  {
    if vs != [] {
      AllTakenOut(vs[..|vs| - 1]);
    }
  }

  lemma {:induction false} SourcesSpeakOfNoGrain(e: Entry, refs: seq<string>)
    ensures forall v <- SourceFindings(e, refs) :: !IsGrain(v.code)
    decreases |refs|
  {
    if refs != [] {
      SourcesSpeakOfNoGrain(e, refs[..|refs| - 1]);
    }
  }

  lemma FieldSpeaksOfNoGrain(ins: Instructions, refs: seq<string>, f: PlanField)
    ensures forall v <- FieldFinding(ins, refs, f) :: !IsGrain(v.code)
  {
  }

  lemma {:induction false} FieldsSpeakOfNoGrain(ins: Instructions, refs: seq<string>, fields: seq<PlanField>)
    ensures forall v <- FieldFindings(ins, refs, fields) :: !IsGrain(v.code)
    decreases |fields|
  {
    if fields != [] {
      FieldsSpeakOfNoGrain(ins, refs, fields[..|fields| - 1]);
      FieldSpeaksOfNoGrain(ins, refs, fields[|fields| - 1]);
    }
  }

  lemma {:induction false} JoinsSpeakOfNoGrain(ins: Instructions, joins: seq<PlanJoin>)
    ensures forall v <- JoinFindings(ins, joins) :: !IsGrain(v.code)
    decreases |joins|
  {
    if joins != [] {
      JoinsSpeakOfNoGrain(ins, joins[..|joins| - 1]);
    }
  }

  lemma {:induction false} ClassificationSpeaksOfNoGrain(ins: Instructions, plan: Plan, sources: seq<Source>)
    ensures forall v <- ClassificationFindings(ins, plan, sources) :: !IsGrain(v.code)
    decreases |sources|
  {
    if sources != [] {
      ClassificationSpeaksOfNoGrain(ins, plan, sources[..|sources| - 1]);
    }
  }

  lemma {:induction false} ChecksSpeakOfNoGrain(checks: seq<string>, plan: Plan)
    ensures forall v <- CheckFindings(checks, plan) :: !IsGrain(v.code)
    decreases |checks|
  {
    if checks != [] {
      ChecksSpeakOfNoGrain(checks[..|checks| - 1], plan);
    }
  }

  lemma {:induction false} DisputesSpeakOfNoGrain(disputed: seq<string>, plan: Plan)
    ensures forall v <- DisputeFindings(disputed, plan) :: !IsGrain(v.code)
    decreases |disputed|
  {
    if disputed != [] {
      DisputesSpeakOfNoGrain(disputed[..|disputed| - 1], plan);
    }
  }

  lemma {:induction false} FanoutSpeaksOfGrain(plan: Plan, sources: seq<Source>)
    ensures forall v <- FanoutFindings(plan, sources) :: IsGrain(v.code)
    decreases |sources|
  {
    if sources != [] {
      FanoutSpeaksOfGrain(plan, sources[..|sources| - 1]);
    }
  }

  lemma StructureSpeaksOfNoGrain(e: Entry, plan: Plan)
    ensures forall v <- StructureFindings(e, plan) :: !IsGrain(v.code)
  {
    SourcesSpeakOfNoGrain(e, UniqueRefs(plan.sources));
    FieldsSpeakOfNoGrain(e.instructions, plan.sources, plan.fields);
    JoinsSpeakOfNoGrain(e.instructions, plan.joins);
    var filters := AsViolations(FilterFindingsOf(e.instructions, plan));
    assert forall v <- filters :: !IsGrain(v.code);
  }

  lemma DisclosureSpeaksOfNoGrain(e: Entry, plan: Plan)
    ensures forall v <- DisclosureFindings(e, plan) :: !IsGrain(v.code)
  {
    ClassificationSpeaksOfNoGrain(e.instructions, plan, e.instructions.sources);
    ChecksSpeakOfNoGrain(e.instructions.validations, plan);
    DisputesSpeakOfNoGrain(e.evidence.disputed, plan);
  }

  lemma GrainIsolated(e: Entry, plan: Plan)
    ensures WithoutGrain(SoloFindings(e, plan)) == StructureFindings(e, plan) + DisclosureFindings(e, plan)
  {
    var a, b := StructureFindings(e, plan), GrainFindings(e.instructions, plan);
    var c, d := FanoutFindings(plan, e.instructions.sources), DisclosureFindings(e, plan);
    StructureSpeaksOfNoGrain(e, plan);
    FanoutSpeaksOfGrain(plan, e.instructions.sources);
    DisclosureSpeaksOfNoGrain(e, plan);
    OuterPartsStay(a, b, c, d);
  }

  lemma OuterPartsStay(a: seq<Violation>, b: seq<Violation>, c: seq<Violation>, d: seq<Violation>)
    requires forall v <- a :: !IsGrain(v.code)
    requires forall v <- b :: IsGrain(v.code)
    requires forall v <- c :: IsGrain(v.code)
    requires forall v <- d :: !IsGrain(v.code)
    ensures WithoutGrain(a + b + c + d) == a + d
  {
    NothingTakenOut(a);
    NothingTakenOut(d);
    GrainAdds(a, b);
    GrainAdds(a + b, c);
    WithoutGrainAdds(a + b + c, d);
  }

  lemma GrainAdds(a: seq<Violation>, b: seq<Violation>)
    requires forall v <- b :: IsGrain(v.code)
    ensures WithoutGrain(a + b) == WithoutGrain(a)
  {
    AllTakenOut(b);
    WithoutGrainAdds(a, b);
  }

  /** A composed answer drops the grain, so it always discloses a gap and is never plainly valid. */
  lemma ComposedIsNeverPlainlyValid(b: Bundle, plan: Plan)
    requires b.domains.Some?
    ensures Validate(b, plan).status != Valid
  {
    CompositeHasNoGrain(b.domains.value, Engaged(b.domains.value, plan));
  }

  lemma {:induction false} CompositeHasNoGrain(entries: seq<Entry>, engaged: set<nat>)
    ensures Composite(entries, engaged).instructions.grain.None?
    decreases |entries|
  {
    if entries != [] {
      CompositeHasNoGrain(entries[..|entries| - 1], engaged);
    }
  }

  // ---------------------------------------------------------------- several engaged components

  /** Some engaged component requires the filter. */
  ghost predicate Requires(entries: seq<Entry>, engaged: set<nat>, f: Fragment) {
    exists i :: i in engaged && i < |entries| && f in entries[i].instructions.filters
  }

  /** Some engaged component approves the source. */
  ghost predicate Approves(entries: seq<Entry>, engaged: set<nat>, s: Source) {
    exists i :: i in engaged && i < |entries| && s in entries[i].instructions.sources
  }

  lemma {:induction false} CompositeRequires(entries: seq<Entry>, engaged: set<nat>, f: Fragment)
    ensures f in Composite(entries, engaged).instructions.filters <==> Requires(entries, engaged, f)
    decreases |entries|
  {
    if entries != [] {
      var n := |entries| - 1;
      CompositeRequires(entries[..n], engaged, f);
      if Requires(entries[..n], engaged, f) {
        var i :| i in engaged && i < n && f in entries[..n][i].instructions.filters;
        assert f in entries[i].instructions.filters;
      }
      if Requires(entries, engaged, f) {
        var i :| i in engaged && i < |entries| && f in entries[i].instructions.filters;
        assert i < n ==> entries[..n][i] == entries[i];
      }
    }
  }

  lemma {:induction false} CompositeApproves(entries: seq<Entry>, engaged: set<nat>, s: Source)
    requires s in Composite(entries, engaged).instructions.sources
    ensures Approves(entries, engaged, s)
    decreases |entries|
  {
    if entries != [] {
      var n := |entries| - 1;
      if s in Composite(entries[..n], engaged).instructions.sources {
        CompositeApproves(entries[..n], engaged, s);
        var i :| i in engaged && i < n && s in entries[..n][i].instructions.sources;
        assert s in entries[i].instructions.sources;
      } else {
        assert n in engaged && s in entries[n].instructions.sources;
      }
    }
  }

  /** What one engaged component prohibits or observes, the composite does. */
  lemma {:induction false} CompositeRefuses(entries: seq<Entry>, engaged: set<nat>, i: nat, ref: string)
    requires i in engaged && i < |entries|
    ensures Names(entries[i].instructions.prohibited, ref) ==> Names(Composite(entries, engaged).instructions.prohibited, ref)
    ensures ref in entries[i].evidence.observedOnly ==> ref in Composite(entries, engaged).evidence.observedOnly
    decreases |entries|
  {
    var n := |entries| - 1;
    var before := Composite(entries[..n], engaged);
    if i < n {
      CompositeRefuses(entries[..n], engaged, i, ref);
      if n in engaged && Names(before.instructions.prohibited, ref) {
        var s :| s in before.instructions.prohibited && ref in s.Refs();
        assert s in before.instructions.prohibited + entries[n].instructions.prohibited;
      }
    } else if Names(entries[n].instructions.prohibited, ref) {
      var s :| s in entries[n].instructions.prohibited && ref in s.Refs();
      assert s in before.instructions.prohibited + entries[n].instructions.prohibited;
    }
  }

  lemma {:induction false} NothingAmbiguous(entries: seq<Entry>, refs: seq<string>)
    requires AmbiguousSourceFindings(entries, refs) == []
    ensures forall r <- refs :: !Ambiguous(entries, r)
    decreases |refs|
  {
    if refs != [] {
      NothingAmbiguous(entries, refs[..|refs| - 1]);
      assert refs == refs[..|refs| - 1] + [refs[|refs| - 1]];
    }
  }

  lemma {:induction false} NothingCrosses(entries: seq<Entry>, joins: seq<PlanJoin>)
    requires CrossDomainFindings(entries, joins) == []
    ensures forall j <- joins :: !CrossesDomains(entries, j.left, j.right)
    decreases |joins|
  {
    if joins != [] {
      NothingCrosses(entries, joins[..|joins| - 1]);
      assert joins == joins[..|joins| - 1] + [joins[|joins| - 1]];
    }
  }

  lemma CleanComposed(b: Bundle, plan: Plan)
    requires b.domains.Some? && Validate(b, plan).status == ValidWithGaps
    ensures ComposedFindings(b.domains.value, plan) == [] && plan.sources != []
  {
    StatusOfNothing(if Blocking(b, plan) != [] then Blocking(b, plan) else ComposedFindings(b.domains.value, plan));
  }

  lemma StatusOfNothing(vs: seq<Violation>)
    ensures StatusOf(vs) == Valid <==> vs == []
  {
  }

  lemma CleanParts(entries: seq<Entry>, plan: Plan)
    requires ComposedFindings(entries, plan) == []
    ensures var composite, inner := Composite(entries, Engaged(entries, plan)), InnerPlan(entries, plan);
      && ScopedSourceFindings(composite, inner, plan) == []
      && AsViolations(FilterFindingsOf(composite.instructions, inner)) == []
      && AmbiguousSourceFindings(entries, UniqueRefs(plan.sources)) == []
      && CrossDomainFindings(entries, plan.joins) == []
  {
  }

  lemma SourcesAreApproved(entries: seq<Entry>, plan: Plan)
    requires ComposedFindings(entries, plan) == []
    ensures forall ref <- plan.sources :: !Ambiguous(entries, ref) && SourceApproved(Composite(entries, Engaged(entries, plan)), ref)
  {
    CleanParts(entries, plan);
    UniqueRefsKeepMembers(plan.sources);
    NothingAmbiguous(entries, UniqueRefs(plan.sources));
    AllRefsKept(entries, plan.sources);
    SourceReport(Composite(entries, Engaged(entries, plan)), UniqueRefs(plan.sources));
  }

  lemma ApprovedHasOneOwner(entries: seq<Entry>, engaged: set<nat>, ref: string)
    requires !Ambiguous(entries, ref) && Names(Composite(entries, engaged).instructions.sources, ref)
    ensures |OwnersOf(entries, ref)| == 1
  {
    var s :| s in Composite(entries, engaged).instructions.sources && ref in s.Refs();
    CompositeApproves(entries, engaged, s);
    var i :| i in engaged && i < |entries| && s in entries[i].instructions.sources;
    OwnersAreEarlier(entries, ref);
    assert Names(entries[i].instructions.sources, ref);
  }

  /** Of a composed answer that faults nothing: every source the plan reads has exactly one owner,
      which the plan engages, and no engaged component prohibits or merely observes it. */
  lemma CleanSourcesAreOwned(b: Bundle, plan: Plan)
    requires b.domains.Some? && Validate(b, plan).status == ValidWithGaps
    ensures var entries := b.domains.value; var engaged := Engaged(entries, plan);
      && (forall ref <- plan.sources :: |OwnersOf(entries, ref)| == 1 && OwnersOf(entries, ref)[0] in engaged)
      && (forall ref <- plan.sources :: forall i <- engaged :: i < |entries| ==>
            !Names(entries[i].instructions.prohibited, ref) && ref !in entries[i].evidence.observedOnly)
  {
    var entries := b.domains.value;
    var engaged := Engaged(entries, plan);
    CleanComposed(b, plan);
    SourcesAreApproved(entries, plan);
    forall ref | ref in plan.sources
      ensures |OwnersOf(entries, ref)| == 1
    {
      ApprovedHasOneOwner(entries, engaged, ref);
    }
    forall ref, i | ref in plan.sources && i in engaged && i < |entries|
      ensures !Names(entries[i].instructions.prohibited, ref) && ref !in entries[i].evidence.observedOnly
    {
      CompositeRefuses(entries, engaged, i, ref);
    }
  }

  /** Of a composed answer that faults nothing: the plan's filters state exactly the computations
      the engaged components require, and no join leaves a domain. */
  lemma CleanFiltersAreTheUnion(b: Bundle, plan: Plan)
    requires b.domains.Some? && Validate(b, plan).status == ValidWithGaps
    ensures var entries := b.domains.value; var engaged := Engaged(entries, plan);
      && (forall i <- engaged :: i < |entries| ==> Fines(entries[i].instructions.filters) <= Fines(plan.filters))
      && (forall f <- plan.filters :: exists g :: Requires(entries, engaged, g) && g.fine == f.fine)
      && (forall j <- plan.joins :: !CrossesDomains(entries, j.left, j.right))
  {
    var entries := b.domains.value;
    var engaged := Engaged(entries, plan);
    CleanComposed(b, plan);
    CleanParts(entries, plan);
    NothingCrosses(entries, plan.joins);
    FilterReport(Composite(entries, engaged).instructions, InnerPlan(entries, plan));
    FiltersOfComposite(entries, engaged, plan);
  }

  lemma FiltersOfComposite(entries: seq<Entry>, engaged: set<nat>, plan: Plan)
    requires Fines(Composite(entries, engaged).instructions.filters) == Fines(plan.filters)
    ensures forall i <- engaged :: i < |entries| ==> Fines(entries[i].instructions.filters) <= Fines(plan.filters)
    ensures forall f <- plan.filters :: exists g :: Requires(entries, engaged, g) && g.fine == f.fine
  {
    var composite := Composite(entries, engaged).instructions.filters;
    forall i, k | i in engaged && i < |entries| && k in Fines(entries[i].instructions.filters)
      ensures k in Fines(plan.filters)
    {
      var f :| f in entries[i].instructions.filters && f.fine == k;
      CompositeRequires(entries, engaged, f);
    }
    forall f | f in plan.filters
      ensures exists g :: Requires(entries, engaged, g) && g.fine == f.fine
    {
      assert f.fine in Fines(plan.filters);
      var g :| g in composite && g.fine == f.fine;
      CompositeRequires(entries, engaged, g);
    }
  }
}
