/** What a verdict on a plan means: each status stands for a condition on the plan and the
    governed context, in both directions. */
module PlanLaws {
  import opened Prelude
  import opened Passes
  import opened Pairing
  import opened PairingLaws
  import opened Plan

  // ---------------------------------------------------------------- what a plan may be

  predicate SourceApproved(e: Entry, ref: string) {
    && Names(e.instructions.sources, ref)
    && !Names(e.instructions.prohibited, ref)
    && ref !in e.evidence.observedOnly
  }

  /** The plan's field is governed, and nothing it says of it contradicts what governs it. */
  predicate FieldSupported(ins: Instructions, refs: seq<string>, f: PlanField) {
    var governed := FieldNamed(ins.fields, f.name);
    && governed.Some?
    && (f.expression.Some? ==> Judge(governed.value.expression, f.expression.value) != Different)
    && (f.source.Some? ==> f.source.value in AcceptedRefs(ins.sources, governed.value.source))
    && Declares(refs, AcceptedRefs(ins.sources, governed.value.source))
  }

  predicate ExpressionSettled(ins: Instructions, f: PlanField) {
    var governed := FieldNamed(ins.fields, f.name);
    governed.Some? && f.expression.Some? ==> Judge(governed.value.expression, f.expression.value) != Undecided
  }

  predicate JoinSupported(ins: Instructions, j: PlanJoin) {
    var governed := JoinBetween(ins.joins, j.left, j.right);
    governed.Some? && (j.kind.Some? ==> j.kind.value == governed.value.kind)
  }

  /** In every class of fragments that are not DIFFERENT, no more computations are required than stated. */
  ghost predicate FiltersCovered(ins: Instructions, plan: Plan) {
    forall c: Key :: |OfClass(ins.filters, c)| <= |OfClass(plan.filters, c)|
  }

  /** Nothing in the plan contradicts the governed context. */
  ghost predicate Supported(e: Entry, plan: Plan) {
    var ins := e.instructions;
    && (forall ref <- plan.sources :: SourceApproved(e, ref))
    && (forall f <- plan.fields :: FieldSupported(ins, plan.sources, f))
    && (forall j <- plan.joins :: JoinSupported(ins, j))
    && FiltersCovered(ins, plan)
    && (ins.grain.Some? ==> Judge(ins.grain.value, StatedGrain(plan)) != Different)
    && (forall s <- ins.sources :: !FansOut(plan, s) && !Undisclosed(ins, plan, s))
  }

  /** Nothing is left to disclose either. */
  ghost predicate Settled(e: Entry, plan: Plan) {
    var ins := e.instructions;
    && (forall f <- plan.fields :: ExpressionSettled(ins, f))
    && Fines(ins.filters) == Fines(plan.filters)
    && (ins.grain.Some? ==> Judge(ins.grain.value, StatedGrain(plan)) != Undecided)
    && (forall c <- ins.validations :: c in plan.checks)
    && (forall d <- e.evidence.disputed :: !Plans(plan, d))
  }

  // ---------------------------------------------------------------- reports

  ghost predicate HasError(vs: seq<Violation>) {
    exists v <- vs :: v.severity == Error
  }

  ghost predicate Judges(vs: seq<Violation>) {
    forall v <- vs :: !IsBlocking(v.code)
  }

  lemma ReportsAdd(a: seq<Violation>, b: seq<Violation>)
    ensures HasError(a + b) <==> HasError(a) || HasError(b)
    ensures Judges(a + b) <==> Judges(a) && Judges(b)
    ensures a + b == [] <==> a == [] && b == []
  {
    assert forall v :: v in a + b <==> v in a || v in b;
  }

  lemma OneReported(v: Violation)
    ensures HasError([v]) <==> v.severity == Error
    ensures Judges([v]) <==> !IsBlocking(v.code)
  {
    assert v in [v];
  }

  lemma SourceReportOne(e: Entry, ref: string)
    ensures var vs := SourceFinding(e, ref);
            Judges(vs) && (vs == [] <==> SourceApproved(e, ref)) && (HasError(vs) <==> vs != [])
  {
    var vs := SourceFinding(e, ref);
    if vs != [] {
      OneReported(vs[0]);
    }
  }

  lemma {:induction false} SourceReport(e: Entry, refs: seq<string>)
    ensures var vs := SourceFindings(e, refs);
            && Judges(vs)
            && (vs == [] <==> forall ref <- refs :: SourceApproved(e, ref))
            && (HasError(vs) <==> vs != [])
    decreases |refs|
  {
    if refs != [] {
      var before, last := refs[..|refs| - 1], refs[|refs| - 1];
      assert refs == before + [last];
      SourceReport(e, before);
      SourceReportOne(e, last);
      ReportsAdd(SourceFindings(e, before), SourceFinding(e, last));
    }
  }

  lemma FieldReportOne(ins: Instructions, refs: seq<string>, f: PlanField)
    ensures var vs := FieldFinding(ins, refs, f);
            && Judges(vs)
            && (vs == [] <==> FieldSupported(ins, refs, f) && ExpressionSettled(ins, f))
            && (HasError(vs) <==> !FieldSupported(ins, refs, f))
  {
    OneReported(Violation(UnapprovedField, Error, f.name));
    OneReported(Violation(FieldExpressionMismatch, Error, f.name));
    OneReported(Violation(FieldExpressionUndecidable, Warning, f.name));
    OneReported(Violation(FieldSourceMismatch, Error, f.name));
    OneReported(Violation(UndeclaredFieldSource, Error, f.name));
    var governed := FieldNamed(ins.fields, f.name);
    if governed.Some? {
      var accepted := AcceptedRefs(ins.sources, governed.value.source);
      var expression :=
        if f.expression.None? then []
        else match Judge(governed.value.expression, f.expression.value)
             case Different => [Violation(FieldExpressionMismatch, Error, f.name)]
             case Undecided => [Violation(FieldExpressionUndecidable, Warning, f.name)]
             case Equivalent => [];
      var source := if f.source.Some? && f.source.value !in accepted then [Violation(FieldSourceMismatch, Error, f.name)] else [];
      var undeclared := if !Declares(refs, accepted) then [Violation(UndeclaredFieldSource, Error, f.name)] else [];
      ReportsAdd(expression, source);
      ReportsAdd(expression + source, undeclared);
      assert FieldFinding(ins, refs, f) == expression + source + undeclared;
    }
  }

  lemma {:induction false} FieldReport(ins: Instructions, refs: seq<string>, fields: seq<PlanField>)
    ensures var vs := FieldFindings(ins, refs, fields);
            && Judges(vs)
            && (vs == [] <==> forall f <- fields :: FieldSupported(ins, refs, f) && ExpressionSettled(ins, f))
            && (HasError(vs) <==> exists f <- fields :: !FieldSupported(ins, refs, f))
    decreases |fields|
  {
    if fields != [] {
      var before, last := fields[..|fields| - 1], fields[|fields| - 1];
      assert fields == before + [last];
      FieldReport(ins, refs, before);
      FieldReportOne(ins, refs, last);
      ReportsAdd(FieldFindings(ins, refs, before), FieldFinding(ins, refs, last));
    }
  }

  lemma JoinReportOne(ins: Instructions, j: PlanJoin)
    ensures var vs := JoinFinding(ins, j);
            Judges(vs) && (vs == [] <==> JoinSupported(ins, j)) && (HasError(vs) <==> vs != [])
  {
    var vs := JoinFinding(ins, j);
    if vs != [] {
      OneReported(vs[0]);
    }
  }

  lemma {:induction false} JoinReport(ins: Instructions, joins: seq<PlanJoin>)
    ensures var vs := JoinFindings(ins, joins);
            && Judges(vs)
            && (vs == [] <==> forall j <- joins :: JoinSupported(ins, j))
            && (HasError(vs) <==> vs != [])
    decreases |joins|
  {
    if joins != [] {
      var before, last := joins[..|joins| - 1], joins[|joins| - 1];
      assert joins == before + [last];
      JoinReport(ins, before);
      JoinReportOne(ins, last);
      ReportsAdd(JoinFindings(ins, before), JoinFinding(ins, last));
    }
  }

  lemma {:induction false} RequiredReport(governed: seq<Stated<Key>>, proposed: seq<Stated<Key>>, n: nat)
    requires n <= |governed|
    ensures (exists f <- RequiredFindings(governed, proposed, n) :: f.MissingFilter?)
            <==> (exists i: nat :: i < n && FateOf(governed, proposed, i) == Missing)
    decreases n
  {
    if 0 < n {
      RequiredReport(governed, proposed, n - 1);
      var before, all := RequiredFindings(governed, proposed, n - 1), RequiredFindings(governed, proposed, n);
      assert forall f :: f in before ==> f in all;
      if FateOf(governed, proposed, n - 1) == Missing {
        assert MissingFilter(governed[n - 1]) in all;
      }
    }
  }

  lemma {:induction false} ExtraReport(governed: seq<Stated<Key>>, proposed: seq<Stated<Key>>, n: nat)
    requires n <= |proposed|
    ensures forall f <- ExtraFindings(governed, proposed, n) :: f.ExtraFilter?
    decreases n
  {
    if 0 < n {
      ExtraReport(governed, proposed, n - 1);
    }
  }

  lemma FilterReport(ins: Instructions, plan: Plan)
    ensures var vs := AsViolations(FilterFindingsOf(ins, plan));
            && Judges(vs)
            && (vs == [] <==> Fines(ins.filters) == Fines(plan.filters))
            && (HasError(vs) <==> !FiltersCovered(ins, plan))
  {
    var governed, proposed := Unique(ins.filters), Unique(plan.filters);
    var fs := FilterFindingsOf(ins, plan);
    var vs := AsViolations(fs);
    UniqueKeepsOnePerKey(ins.filters);
    UniqueKeepsOnePerKey(plan.filters);
    NoFindingIffSameKeys(governed, proposed);
    RequiredReport(governed, proposed, |governed|);
    ExtraReport(governed, proposed, |proposed|);
    ErrorsAreMissing(fs);
    MissingReported(governed, proposed);
    NoneMissingIffCovered(ins, plan);
  }

  lemma FragmentsAreCoherent(fs: seq<Fragment>, gs: seq<Fragment>)
    ensures Coherent(fs + gs)
  {
    var all: seq<Fragment> := fs + gs;
    assert forall i :: 0 <= i < |all| ==> all[i].coarse == TextPairing.CoarseKey(all[i].fine);
  }

  lemma OneEntryKeepsTheClass(fs: seq<Fragment>, c: Key)
    ensures OfClass(Unique(fs), c) == OfClass(fs, c)
  {
    UniqueKeepsOnePerKey(fs);
    forall k | k in OfClass(fs, c)
      ensures k in OfClass(Unique(fs), c)
    {
      assert k in Fines(Unique(fs));
      var u :| u in Unique(fs) && u.fine == k;
      assert u in fs;
    }
  }

  lemma OneClassCovered(ins: Instructions, plan: Plan, c: Key)
    ensures MissingOf(Unique(ins.filters), Unique(plan.filters), c, |Unique(ins.filters)|) == {}
       <==> |OfClass(ins.filters, c)| <= |OfClass(plan.filters, c)|
  {
    var governed, proposed := Unique(ins.filters), Unique(plan.filters);
    UniqueKeepsOnePerKey(ins.filters);
    UniqueKeepsOnePerKey(plan.filters);
    FragmentsAreCoherent(ins.filters, plan.filters);
    UniqueIsCoherent(ins.filters, plan.filters);
    OneEntryKeepsTheClass(ins.filters, c);
    OneEntryKeepsTheClass(plan.filters, c);
    MissingIsTheShortfall(governed, proposed, c);
  }

  lemma NoneMissingIffCovered(ins: Instructions, plan: Plan)
    ensures MissingSet(Unique(ins.filters), Unique(plan.filters)) == {} <==> FiltersCovered(ins, plan)
  {
    var governed, proposed := Unique(ins.filters), Unique(plan.filters);
    forall c: Key
      ensures MissingOf(governed, proposed, c, |governed|) == {} <==> |OfClass(ins.filters, c)| <= |OfClass(plan.filters, c)|
    {
      OneClassCovered(ins, plan, c);
    }
    NoneMissingByClass(governed, proposed);
  }

  lemma NoneMissingByClass(governed: seq<Stated<Key>>, proposed: seq<Stated<Key>>)
    ensures MissingSet(governed, proposed) == {} <==> forall c: Key :: MissingOf(governed, proposed, c, |governed|) == {}
  {
    forall i | i in MissingSet(governed, proposed)
      ensures i in MissingOf(governed, proposed, governed[i].coarse, |governed|)
    {
    }
    forall c: Key
      ensures MissingOf(governed, proposed, c, |governed|) <= MissingSet(governed, proposed)
    {
    }
  }

  lemma MissingReported(governed: seq<Stated<Key>>, proposed: seq<Stated<Key>>)
    ensures (exists f <- Findings(governed, proposed) :: f.MissingFilter?) <==> MissingSet(governed, proposed) != {}
  {
    RequiredReport(governed, proposed, |governed|);
    ExtraReport(governed, proposed, |proposed|);
    var required, extra := RequiredFindings(governed, proposed, |governed|), ExtraFindings(governed, proposed, |proposed|);
    assert forall f :: f in required + extra <==> f in required || f in extra;
    if exists i: nat :: i < |governed| && FateOf(governed, proposed, i) == Missing {
      var i: nat :| i < |governed| && FateOf(governed, proposed, i) == Missing;
      assert i in MissingSet(governed, proposed);
    }
  }

  lemma ErrorsAreMissing(fs: seq<Finding<Key>>)
    ensures Judges(AsViolations(fs))
    ensures HasError(AsViolations(fs)) <==> exists f <- fs :: f.MissingFilter?
  {
    var vs := AsViolations(fs);
    if exists f <- fs :: f.MissingFilter? {
      var f :| f in fs && f.MissingFilter?;
      var i :| 0 <= i < |fs| && fs[i] == f;
      assert vs[i] in vs;
    }
    if HasError(vs) {
      var v :| v in vs && v.severity == Error;
      var i :| 0 <= i < |vs| && vs[i] == v;
      assert fs[i] in fs;
    }
  }

  lemma GrainReport(ins: Instructions, plan: Plan)
    ensures var vs := GrainFindings(ins, plan);
            && Judges(vs)
            && (vs == [] <==> (ins.grain.Some? ==> Judge(ins.grain.value, StatedGrain(plan)) == Equivalent))
            && (HasError(vs) <==> (ins.grain.Some? && Judge(ins.grain.value, StatedGrain(plan)) == Different))
  {
    OneReported(Violation(GrainMismatch, Error, StatedGrain(plan).text));
    OneReported(Violation(GrainUndecidable, Warning, StatedGrain(plan).text));
  }

  lemma {:induction false} FanoutReport(plan: Plan, sources: seq<Source>)
    ensures var vs := FanoutFindings(plan, sources);
            && Judges(vs) && (HasError(vs) <==> vs != [])
            && (vs == [] <==> forall s <- sources :: !FansOut(plan, s))
    decreases |sources|
  {
    if sources != [] {
      var before, last := sources[..|sources| - 1], sources[|sources| - 1];
      assert sources == before + [last];
      FanoutReport(plan, before);
      OneReported(Violation(GrainFanout, Error, last.ref));
      ReportsAdd(FanoutFindings(plan, before), if FansOut(plan, last) then [Violation(GrainFanout, Error, last.ref)] else []);
    }
  }

  lemma {:induction false} ClassificationReport(ins: Instructions, plan: Plan, sources: seq<Source>)
    ensures var vs := ClassificationFindings(ins, plan, sources);
            && Judges(vs) && (HasError(vs) <==> vs != [])
            && (vs == [] <==> forall s <- sources :: !Undisclosed(ins, plan, s))
    decreases |sources|
  {
    if sources != [] {
      var before, last := sources[..|sources| - 1], sources[|sources| - 1];
      assert sources == before + [last];
      ClassificationReport(ins, plan, before);
      OneReported(Violation(ClassificationUndisclosed, Error, last.ref));
      ReportsAdd(ClassificationFindings(ins, plan, before),
                 if Undisclosed(ins, plan, last) then [Violation(ClassificationUndisclosed, Error, last.ref)] else []);
    }
  }

  lemma {:induction false} CheckReport(checks: seq<string>, plan: Plan)
    ensures var vs := CheckFindings(checks, plan);
            && Judges(vs) && !HasError(vs) && (vs == [] <==> forall c <- checks :: c in plan.checks)
    decreases |checks|
  {
    if checks != [] {
      var before, last := checks[..|checks| - 1], checks[|checks| - 1];
      assert checks == before + [last];
      CheckReport(before, plan);
      OneReported(Violation(MissingRequiredCheck, Warning, last));
      ReportsAdd(CheckFindings(before, plan), if last in plan.checks then [] else [Violation(MissingRequiredCheck, Warning, last)]);
    }
  }

  lemma {:induction false} DisputeReport(disputed: seq<string>, plan: Plan)
    ensures var vs := DisputeFindings(disputed, plan);
            && Judges(vs) && !HasError(vs) && (vs == [] <==> forall d <- disputed :: !Plans(plan, d))
    decreases |disputed|
  {
    if disputed != [] {
      var before, last := disputed[..|disputed| - 1], disputed[|disputed| - 1];
      assert disputed == before + [last];
      DisputeReport(before, plan);
      OneReported(Violation(DisputedField, Warning, last));
      ReportsAdd(DisputeFindings(before, plan), if Plans(plan, last) then [Violation(DisputedField, Warning, last)] else []);
    }
  }

  lemma {:induction false} UniqueRefsKeepMembers(refs: seq<string>)
    ensures forall r :: r in UniqueRefs(refs) <==> r in refs
    ensures forall i, j :: 0 <= i < j < |UniqueRefs(refs)| ==> UniqueRefs(refs)[i] != UniqueRefs(refs)[j]
    decreases |refs|
  {
    if refs != [] {
      UniqueRefsKeepMembers(refs[..|refs| - 1]);
      assert refs == refs[..|refs| - 1] + [refs[|refs| - 1]];
    }
  }

  lemma StructureReport(e: Entry, plan: Plan)
    ensures var vs := StructureFindings(e, plan); var ins := e.instructions;
            && Judges(vs)
            && (HasError(vs) <==>
                !(&& (forall ref <- plan.sources :: SourceApproved(e, ref))
                  && (forall f <- plan.fields :: FieldSupported(ins, plan.sources, f))
                  && (forall j <- plan.joins :: JoinSupported(ins, j))
                  && FiltersCovered(ins, plan)))
            && (vs == [] <==>
                (&& (forall ref <- plan.sources :: SourceApproved(e, ref))
                 && (forall f <- plan.fields :: FieldSupported(ins, plan.sources, f) && ExpressionSettled(ins, f))
                 && (forall j <- plan.joins :: JoinSupported(ins, j))
                 && Fines(ins.filters) == Fines(plan.filters)))
  {
    var ins := e.instructions;
    var a, b := SourceFindings(e, UniqueRefs(plan.sources)), FieldFindings(ins, plan.sources, plan.fields);
    var c, d := JoinFindings(ins, plan.joins), AsViolations(FilterFindingsOf(ins, plan));
    UniqueRefsKeepMembers(plan.sources);
    SourceReport(e, UniqueRefs(plan.sources));
    FieldReport(ins, plan.sources, plan.fields);
    JoinReport(ins, plan.joins);
    FilterReport(ins, plan);
    ReportsAdd(a, b);
    ReportsAdd(a + b, c);
    ReportsAdd(a + b + c, d);
    assert StructureFindings(e, plan) == a + b + c + d;
  }

  lemma DisclosureReport(e: Entry, plan: Plan)
    ensures var vs := DisclosureFindings(e, plan); var ins := e.instructions;
            && Judges(vs)
            && (HasError(vs) <==> exists s <- ins.sources :: Undisclosed(ins, plan, s))
            && (vs == [] <==>
                (&& (forall s <- ins.sources :: !Undisclosed(ins, plan, s))
                 && (forall c <- ins.validations :: c in plan.checks)
                 && (forall d <- e.evidence.disputed :: !Plans(plan, d))))
  {
    var ins := e.instructions;
    var a := ClassificationFindings(ins, plan, ins.sources);
    var b, c := CheckFindings(ins.validations, plan), DisputeFindings(e.evidence.disputed, plan);
    ClassificationReport(ins, plan, ins.sources);
    CheckReport(ins.validations, plan);
    DisputeReport(e.evidence.disputed, plan);
    ReportsAdd(a, b);
    ReportsAdd(a + b, c);
  }

  /** The violations of one domain, as a whole: an error is a contradiction, and silence means
      there is neither a contradiction nor anything to disclose. */
  lemma SoloReport(e: Entry, plan: Plan)
    ensures var vs := SoloFindings(e, plan);
            && Judges(vs)
            && (HasError(vs) <==> !Supported(e, plan))
            && (vs == [] <==> Supported(e, plan) && Settled(e, plan))
  {
    var ins := e.instructions;
    var a, b := StructureFindings(e, plan), GrainFindings(ins, plan);
    var c, d := FanoutFindings(plan, ins.sources), DisclosureFindings(e, plan);
    StructureReport(e, plan);
    GrainReport(ins, plan);
    FanoutReport(plan, ins.sources);
    DisclosureReport(e, plan);
    ReportsAdd(a, b);
    ReportsAdd(a + b, c);
    ReportsAdd(a + b + c, d);
    NoneMissingWhenSame(ins, plan);
  }

  lemma NoneMissingWhenSame(ins: Instructions, plan: Plan)
    ensures Fines(ins.filters) == Fines(plan.filters) ==> FiltersCovered(ins, plan)
  {
    FilterReport(ins, plan);
  }

  // ---------------------------------------------------------------- the five statuses

  /** The verdict is sound and complete: every status is given exactly when its condition holds. */
  lemma StatusIsExact(b: Bundle, plan: Plan)
    ensures var status := ValidateSolo(b, plan).status; var judged := Blocking(b, plan) == [];
            && (status == Unverifiable <==> !judged)
            && (status == Invalid <==> judged && !Supported(b.entry, plan))
            && (status == Warnings <==> judged && Supported(b.entry, plan) && !Settled(b.entry, plan))
            && (status == Valid || status == ValidWithGaps <==> judged && Supported(b.entry, plan) && Settled(b.entry, plan))
            && (status == ValidWithGaps ==> NotCheckable(b.entry.instructions) != [])
            && (status == Valid ==> NotCheckable(b.entry.instructions) == [])
  {
    var ins, blocking := b.entry.instructions, Blocking(b, plan);
    if blocking != [] {
      BlockedStatus(ins, blocking);
    } else {
      SoloReport(b.entry, plan);
      JudgedStatus(ins, SoloFindings(b.entry, plan));
    }
  }

  lemma BlockedStatus(ins: Instructions, vs: seq<Violation>)
    requires vs != [] && forall v <- vs :: IsBlocking(v.code)
    ensures Result(ins, vs).status == Unverifiable
  {
    assert vs[0] in vs;
  }

  /** The status of findings none of which blocks. */
  lemma JudgedStatus(ins: Instructions, vs: seq<Violation>)
    requires Judges(vs)
    ensures var status := Result(ins, vs).status;
            && status != Unverifiable
            && (status == Invalid <==> HasError(vs))
            && (status == Warnings <==> !HasError(vs) && vs != [])
            && (status == Valid || status == ValidWithGaps <==> vs == [])
            && (status == ValidWithGaps ==> NotCheckable(ins) != [])
            && (status == Valid ==> NotCheckable(ins) == [])
  {
  }

  /** When a plan cannot be judged at all. */
  lemma UnverifiableWhen(b: Bundle, plan: Plan)
    ensures ValidateSolo(b, plan).status == Unverifiable
            <==> (|| (plan.bundleId.Some? && plan.bundleId.value != b.id)
                  || (b.status != Governed && b.status != Mixed)
                  || plan.sources == [])
  {
    StatusIsExact(b, plan);
    UniqueRefsKeepMembers(plan.sources);
    if plan.sources != [] {
      assert plan.sources[0] in plan.sources;
    }
    assert UniqueRefs(plan.sources) == [] <==> plan.sources == [] by {
      if UniqueRefs(plan.sources) != [] {
        assert UniqueRefs(plan.sources)[0] in UniqueRefs(plan.sources);
      }
    }
  }

  // ---------------------------------------------------------------- the echo

  /** A plan that states the governed instructions back. */
  ghost predicate Echoes(plan: Plan, b: Bundle) {
    var ins := b.entry.instructions;
    && (plan.bundleId.Some? ==> plan.bundleId.value == b.id)
    && |plan.sources| == |ins.sources| && (forall i :: 0 <= i < |ins.sources| ==> plan.sources[i] == ins.sources[i].ref)
    && |plan.fields| == |ins.fields|
    && (forall i :: 0 <= i < |ins.fields| ==>
          plan.fields[i] == PlanField(ins.fields[i].name, Some(ins.fields[i].expression), Some(ins.fields[i].source)))
    && |plan.joins| == |ins.joins|
    && (forall i :: 0 <= i < |ins.joins| ==>
          plan.joins[i] == PlanJoin(ins.joins[i].left, ins.joins[i].right, Some(ins.joins[i].kind)))
    && plan.filters == ins.filters && plan.grain == ins.grain && plan.checks == ins.validations
  }

  /** Instructions that agree with themselves and with the evidence beside them. */
  ghost predicate WellFormed(e: Entry, plan: Plan) {
    var ins := e.instructions;
    && (forall i, j :: 0 <= i < j < |ins.fields| ==> ins.fields[i].name != ins.fields[j].name)
    && (forall i, j :: 0 <= i < j < |ins.joins| ==> (ins.joins[i].left, ins.joins[i].right) != (ins.joins[j].left, ins.joins[j].right))
    && (forall f <- ins.fields :: exists s <- ins.sources :: s.ref == f.source)
    && (forall s <- ins.sources :: !Names(ins.prohibited, s.ref) && s.ref !in e.evidence.observedOnly)
    && (forall s <- ins.sources :: !FansOut(plan, s) && !Undisclosed(ins, plan, s))
    && (forall d <- e.evidence.disputed :: forall f <- ins.fields :: f.name != d)
  }

  lemma {:induction false} OnlyFieldNamed(fields: seq<Field>, i: nat)
    requires i < |fields| && forall j, k :: 0 <= j < k < |fields| ==> fields[j].name != fields[k].name
    ensures FieldNamed(fields, fields[i].name) == Some(fields[i])
    decreases |fields|
  {
    if i < |fields| - 1 {
      OnlyFieldNamed(fields[..|fields| - 1], i);
    }
  }

  lemma {:induction false} OnlyJoinBetween(joins: seq<Join>, i: nat)
    requires i < |joins|
    requires forall j, k :: 0 <= j < k < |joins| ==> (joins[j].left, joins[j].right) != (joins[k].left, joins[k].right)
    ensures JoinBetween(joins, joins[i].left, joins[i].right) == Some(joins[i])
    decreases |joins|
  {
    if i < |joins| - 1 {
      assert (joins[i].left, joins[i].right) != (joins[|joins| - 1].left, joins[|joins| - 1].right);
      OnlyJoinBetween(joins[..|joins| - 1], i);
    }
  }

  lemma {:induction false} OwnRefIsAccepted(sources: seq<Source>, ref: string)
    ensures ref in AcceptedRefs(sources, ref)
    decreases |sources|
  {
    if sources != [] && sources[|sources| - 1].ref != ref {
      OwnRefIsAccepted(sources[..|sources| - 1], ref);
    }
  }

  lemma EchoedFieldIsSupported(b: Bundle, plan: Plan, i: nat)
    requires Echoes(plan, b) && WellFormed(b.entry, plan) && i < |plan.fields|
    ensures FieldSupported(b.entry.instructions, plan.sources, plan.fields[i])
    ensures ExpressionSettled(b.entry.instructions, plan.fields[i])
  {
    var ins := b.entry.instructions;
    var f := ins.fields[i];
    OnlyFieldNamed(ins.fields, i);
    OwnRefIsAccepted(ins.sources, f.source);
    assert f in ins.fields;
    var s :| s in ins.sources && s.ref == f.source;
    var k :| 0 <= k < |ins.sources| && ins.sources[k] == s;
    assert plan.sources[k] in plan.sources;
  }

  lemma EchoedSourcesAreApproved(b: Bundle, plan: Plan)
    requires Echoes(plan, b) && WellFormed(b.entry, plan)
    ensures forall ref <- plan.sources :: SourceApproved(b.entry, ref)
  {
    var ins := b.entry.instructions;
    forall ref | ref in plan.sources
      ensures SourceApproved(b.entry, ref)
    {
      var k :| 0 <= k < |plan.sources| && plan.sources[k] == ref;
      assert ins.sources[k] in ins.sources;
    }
  }

  lemma EchoedJoinsAreSupported(b: Bundle, plan: Plan)
    requires Echoes(plan, b) && WellFormed(b.entry, plan)
    ensures forall j <- plan.joins :: JoinSupported(b.entry.instructions, j)
  {
    var ins := b.entry.instructions;
    forall j | j in plan.joins
      ensures JoinSupported(ins, j)
    {
      var i :| 0 <= i < |plan.joins| && plan.joins[i] == j;
      OnlyJoinBetween(ins.joins, i);
    }
  }

  lemma EchoPlansNothingDisputed(b: Bundle, plan: Plan)
    requires Echoes(plan, b) && WellFormed(b.entry, plan)
    ensures forall d <- b.entry.evidence.disputed :: !Plans(plan, d)
  {
    forall d, f | d in b.entry.evidence.disputed && f in plan.fields
      ensures f.name != d
    {
      var i :| 0 <= i < |plan.fields| && plan.fields[i] == f;
      assert b.entry.instructions.fields[i] in b.entry.instructions.fields;
    }
  }

  lemma EchoIsSupportedAndSettled(b: Bundle, plan: Plan)
    requires Echoes(plan, b) && WellFormed(b.entry, plan)
    ensures Supported(b.entry, plan) && Settled(b.entry, plan)
  {
    var ins := b.entry.instructions;
    EchoedSourcesAreApproved(b, plan);
    EchoedJoinsAreSupported(b, plan);
    EchoPlansNothingDisputed(b, plan);
    NoneMissingWhenSame(ins, plan);
    forall f | f in plan.fields
      ensures FieldSupported(ins, plan.sources, f) && ExpressionSettled(ins, f)
    {
      var i :| 0 <= i < |plan.fields| && plan.fields[i] == f;
      EchoedFieldIsSupported(b, plan, i);
    }
  }

  /** Completeness: a plan that echoes well-formed instructions is never faulted. */
  lemma EchoIsValid(b: Bundle, plan: Plan)
    requires Echoes(plan, b) && WellFormed(b.entry, plan)
    requires b.status == Governed || b.status == Mixed
    requires b.entry.instructions.sources != []
    ensures ValidateSolo(b, plan).status == if NotCheckable(b.entry.instructions) == [] then Valid else ValidWithGaps
  {
    EchoIsSupportedAndSettled(b, plan);
    UnverifiableWhen(b, plan);
    StatusIsExact(b, plan);
  }
}
