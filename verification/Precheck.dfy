/** The merge precheck (`scripts/merge_precheck.py`): which verdicts count, what blocks a merge,
    who authorises an unattended one, and which bead a merged change completes.

    A reason is kept by kind and subject; its prose is not modelled. */
module Precheck {
  import opened Prelude

  // ---------------------------------------------------------------- verdicts

  datatype Word = MERGE | BOUNCE | HOLD | Other

  datatype Kind = MergeAfter | DoNotClose | Unknown

  /** `raw` is the token as written, the key an acknowledgement names. */
  datatype Constraint = Constraint(kind: Kind, ref: string, raw: string)

  /** One ruling read from a comment. `author` and `comment` come from the forge, the rest from
      the comment's text. */
  datatype Verdict = Verdict(
    word: Word,
    sha: Option<string>,
    pr: Option<string>,
    author: Option<string>,
    constraints: seq<Constraint>,
    tree: Option<string>,
    role: Option<string>,
    comment: nat)

  const APPROVAL_ROLES := {"critic", "adversary"}

  /** Only a full oid names the head. */
  predicate NamesHead(v: Verdict, head: string) {
    v.sha.Some? && |v.sha.value| == 40 && Lower(head) == v.sha.value
  }

  predicate NamesPr(v: Verdict, pr: string) {
    v.pr == Some(pr)
  }

  predicate Trusts(trusted: Option<set<string>>, v: Verdict) {
    trusted.Some? && v.author.Some? && v.author.value in trusted.value
  }

  /** The verdict is at this head, for this PR, by a trusted author. */
  predicate Counts(v: Verdict, head: string, pr: string, trusted: Option<set<string>>) {
    NamesHead(v, head) && NamesPr(v, pr) && Trusts(trusted, v)
  }

  function Counted(vs: seq<Verdict>, head: string, pr: string, trusted: Option<set<string>>): (r: seq<Verdict>)
    ensures forall v :: v in r <==> v in vs && Counts(v, head, pr, trusted)
  {
    if vs == [] then []
    else if Counts(vs[0], head, pr, trusted) then [vs[0]] + Counted(vs[1..], head, pr, trusted)
    else Counted(vs[1..], head, pr, trusted)
  }

  /** Trusted verdicts for this PR that name an earlier head: voided, but not forgotten. */
  predicate Stale(v: Verdict, head: string, pr: string, trusted: Option<set<string>>) {
    && v.sha.Some? && |v.sha.value| == 40 && v.sha.value != Lower(head)
    && NamesPr(v, pr) && Trusts(trusted, v)
  }

  datatype Residue = NoResidue | RegradeRejected | RegateApproved

  function ResidueOf(vs: seq<Verdict>, head: string, pr: string, trusted: Option<set<string>>): Residue {
    if exists v <- vs :: Stale(v, head, pr, trusted) && (v.word == BOUNCE || v.word == HOLD) then RegradeRejected
    else if exists v <- vs :: Stale(v, head, pr, trusted) && v.word == MERGE then RegateApproved
    else NoResidue
  }

  // ---------------------------------------------------------------- completion trailers

  const TRAILER := "Completes-Bead: "

  /** Length of the first line of `s`. */
  function LineLength(s: string): (n: nat)
    ensures n <= |s|
  {
    if s == "" || s[0] == '\n' then 0 else 1 + LineLength(s[1..])
  }

  function Lines(s: string): seq<string>
    decreases |s|
  {
    var n := LineLength(s);
    if n == |s| then [s] else [s[..n]] + Lines(s[n + 1..])
  }

  predicate IsBeadId(s: string) {
    s != "" && forall i :: 0 <= i < |s| ==> !IsSpace(s[i])
  }

  /** The bead a line names, when the whole line is a completion trailer. */
  function TrailerOf(line: string): Option<string> {
    if |TRAILER| < |line| && line[..|TRAILER|] == TRAILER && IsBeadId(line[|TRAILER|..]) then Some(line[|TRAILER|..])
    else None
  }

  function AddBeads(lines: seq<string>, seen: seq<string>): seq<string> {
    if lines == [] then seen
    else
      match TrailerOf(lines[0])
      case None => AddBeads(lines[1..], seen)
      case Some(bead) => AddBeads(lines[1..], if bead in seen then seen else seen + [bead])
  }

  function BeadsFrom(messages: seq<string>, seen: seq<string>): seq<string> {
    if messages == [] then seen else BeadsFrom(messages[1..], AddBeads(Lines(messages[0]), seen))
  }

  /** Every distinct bead a trailer names, in first-seen order. */
  function CompletionBeads(messages: seq<string>): seq<string> {
    BeadsFrom(messages, [])
  }

  predicate HasTrailer(messages: seq<string>, bead: string) {
    exists m <- messages :: TRAILER + bead in Lines(m)
  }

  method CompletionBeadList(messages: seq<string>) returns (seen: seq<string>)
    ensures seen == CompletionBeads(messages)
  {
    seen := [];
    for i := 0 to |messages|
      invariant BeadsFrom(messages[i..], seen) == CompletionBeads(messages)
    {
      ghost var before := seen;
      var lines := Lines(messages[i]);
      for k := 0 to |lines|
        invariant AddBeads(lines[k..], seen) == AddBeads(lines, before)
      {
        var bead := TrailerOf(lines[k]);
        if bead.Some? && bead.value !in seen {
          seen := seen + [bead.value];
        }
      }
    }
  }

  // ---------------------------------------------------------------- what blocks a merge

  datatype Check = Check(name: string, completed: bool, success: bool)

  datatype Reason =
    | NoHead | HeadIsBase | NoTrailer(bead: string)
    | CheckDidNotRun(name: string) | NoChecks | CheckPending(name: string) | CheckFailed(name: string)
    | NobodyTrusted | Rejected(word: Word) | NoMergeVerdict(residue: Residue) | ConstraintBlocks(constraint: Constraint)
    | NotOpen | NotMergeable | MissingSha | Unauthorised(roles: set<string>) | MergedTreeRed(tree: string) | GitFault

  /** `str.lstrip("#")`. */
  function WithoutHash(ref: string): string {
    if ref != "" && ref[0] == '#' then WithoutHash(ref[1..]) else ref
  }

  /** Whether a constraint is satisfied: a merge blocker once its PR merged, a close blocker once
      it is acknowledged, an unreadable one never. */
  predicate Honoured(c: Constraint, merged: set<string>, acknowledged: set<string>) {
    match c.kind
    case MergeAfter => WithoutHash(c.ref) in merged
    case DoNotClose => c.raw in acknowledged
    case Unknown => false
  }

  /** What the precheck reads: the live PR and the merger's configuration. */
  datatype Live = Live(
    head: string,
    base: string,
    open: bool,
    mergeable: bool,
    checks: seq<Check>,
    verdicts: seq<Verdict>,
    messages: seq<string>,
    bead: Option<string>)

  datatype Config = Config(trusted: Option<set<string>>, required: seq<string>, acknowledged: set<string>, approvals: Option<int>)

  function RequiredReasons(required: seq<string>, checks: seq<Check>): seq<Reason> {
    if required == [] then []
    else
      var n := required[|required| - 1];
      RequiredReasons(required[..|required| - 1], checks) + if exists c <- checks :: c.name == n then [] else [CheckDidNotRun(n)]
  }

  function CheckReasons(checks: seq<Check>): seq<Reason> {
    if checks == [] then []
    else
      var c := checks[|checks| - 1];
      CheckReasons(checks[..|checks| - 1])
      + if !c.completed then [CheckPending(c.name)] else if !c.success then [CheckFailed(c.name)] else []
  }

  function ConstraintReasons(cs: seq<Constraint>, merged: set<string>, acknowledged: set<string>): seq<Reason> {
    if cs == [] then []
    else
      var c := cs[|cs| - 1];
      ConstraintReasons(cs[..|cs| - 1], merged, acknowledged) + if Honoured(c, merged, acknowledged) then [] else [ConstraintBlocks(c)]
  }

  /** Every constraint the counted MERGE verdicts carry. */
  function MergeConstraints(counted: seq<Verdict>): seq<Constraint> {
    if counted == [] then []
    else
      var v := counted[|counted| - 1];
      MergeConstraints(counted[..|counted| - 1]) + if v.word == MERGE then v.constraints else []
  }

  predicate Rejects(v: Verdict) {
    v.word == BOUNCE || v.word == HOLD
  }

  /** The first counted rejection, else a reason when no counted verdict says MERGE. */
  function VerdictReasons(live: Live, pr: string, trusted: Option<set<string>>): seq<Reason> {
    var counted := Counted(live.verdicts, live.head, pr, trusted);
    var blocking := FirstRejection(counted);
    if blocking.Some? then [Rejected(blocking.value.word)]
    else if trusted.Some? && !(exists v <- counted :: v.word == MERGE) then
      [NoMergeVerdict(ResidueOf(live.verdicts, live.head, pr, trusted))]
    else []
  }

  function FirstRejection(vs: seq<Verdict>): (r: Option<Verdict>)
    ensures r.Some? <==> exists v <- vs :: Rejects(v)
    ensures r.Some? ==> r.value in vs && Rejects(r.value)
  {
    if vs == [] then None else if Rejects(vs[0]) then Some(vs[0]) else FirstRejection(vs[1..])
  }

  /** The pin and the completion trailer. */
  function ChangeReasons(live: Live): seq<Reason> {
    (if live.base != "" && Lower(live.head) == Lower(live.base) then [HeadIsBase] else [])
    + (if live.bead.Some? && !HasTrailer(live.messages, live.bead.value) then [NoTrailer(live.bead.value)] else [])
  }

  /** The required checks, then every check. */
  function CiReasons(required: seq<string>, checks: seq<Check>): seq<Reason> {
    RequiredReasons(required, checks) + (if checks == [] then [NoChecks] else []) + CheckReasons(checks)
  }

  /** The verdicts, and the constraints they bind the merge to. */
  function ReviewReasons(pr: string, live: Live, config: Config, merged: set<string>): seq<Reason> {
    (if config.trusted.None? then [NobodyTrusted] else [])
    + VerdictReasons(live, pr, config.trusted)
    + ConstraintReasons(MergeConstraints(Counted(live.verdicts, live.head, pr, config.trusted)), merged, config.acknowledged)
  }

  /** `evaluate`: the reasons a merge must be blocked, in order. */
  function Evaluate(pr: string, live: Live, config: Config, merged: set<string>): seq<Reason> {
    if live.head == "" then [NoHead]
    else
      ChangeReasons(live) + CiReasons(config.required, live.checks) + ReviewReasons(pr, live, config, merged)
  }

  // ---------------------------------------------------------------- who authorises

  /** The verdict is a counted MERGE that pins the tree that would land, in a known role. */
  predicate Authorises(v: Verdict, wouldLand: Option<string>) {
    && v.word == MERGE
    && v.tree.Some? && v.tree.value != "" && v.tree.value != "unknown"
    && v.role.Some? && v.role.value in APPROVAL_ROLES
    && wouldLand == Some(v.tree.value)
  }

  /** The known roles one comment names in qualifying verdicts. */
  function RolesOf(vs: seq<Verdict>, wouldLand: Option<string>, comment: nat): set<string> {
    set v <- vs | v.comment == comment && Authorises(v, wouldLand) :: v.role.value
  }

  /** The roles that authorise: a comment contributes one only when it names exactly one. */
  function AuthorisersIn(counted: seq<Verdict>, wouldLand: Option<string>): set<string> {
    set v <- counted | Authorises(v, wouldLand) && RolesOf(counted, wouldLand, v.comment) == {v.role.value} :: v.role.value
  }

  function Authorisers(pr: string, live: Live, config: Config, wouldLand: Option<string>): set<string> {
    if live.base == "" || live.head == "" then {}
    else AuthorisersIn(Counted(live.verdicts, live.head, pr, config.trusted), wouldLand)
  }

  function RolesAt(roles: map<nat, set<string>>, comment: nat): set<string> {
    if comment in roles then roles[comment] else {}
  }

  /** The map holds each comment's known roles, and no comment without one. */
  ghost predicate Gathered(roles: map<nat, set<string>>, vs: seq<Verdict>, wouldLand: Option<string>) {
    && (forall c: nat :: RolesAt(roles, c) == RolesOf(vs, wouldLand, c))
    && (forall c <- roles :: roles[c] != {})
  }

  /** `merge_authorizers`: roles gathered per comment, then the comments that name exactly one. */
  method MergeAuthorisers(counted: seq<Verdict>, wouldLand: Option<string>) returns (authorised: set<string>)
    ensures authorised == AuthorisersIn(counted, wouldLand)
  {
    var roles: map<nat, set<string>> := map[];
    for i := 0 to |counted|
      invariant Gathered(roles, counted[..i], wouldLand)
    {
      var v := counted[i];
      assert counted[..i + 1] == counted[..i] + [v];
      GatheredNext(roles, counted[..i], v, wouldLand);
      if Authorises(v, wouldLand) {
        roles := roles[v.comment := RolesAt(roles, v.comment) + {v.role.value}];
      }
    }
    assert counted[..|counted|] == counted;
    authorised := set c <- roles.Keys, r <- roles[c] | |roles[c]| == 1 :: r;
    SingleRoles(counted, wouldLand, roles, authorised);
  }

  lemma GatheredNext(roles: map<nat, set<string>>, vs: seq<Verdict>, v: Verdict, wouldLand: Option<string>)
    requires Gathered(roles, vs, wouldLand)
    ensures Gathered(if Authorises(v, wouldLand) then roles[v.comment := RolesAt(roles, v.comment) + {v.role.value}] else roles,
                     vs + [v], wouldLand)
  {
    forall c: nat
      ensures RolesOf(vs + [v], wouldLand, c)
              == RolesOf(vs, wouldLand, c) + if v.comment == c && Authorises(v, wouldLand) then {v.role.value} else {}
    {
    }
  }

  lemma OneElement<T>(s: set<T>, x: T)
    requires x in s
    ensures |s| == 1 <==> s == {x}
  {
    if |s| == 1 {
      assert s == {x} + (s - {x});
      assert |s - {x}| == 0;
    }
  }

  lemma SingleRoles(counted: seq<Verdict>, wouldLand: Option<string>, roles: map<nat, set<string>>, authorised: set<string>)
    requires Gathered(roles, counted, wouldLand)
    requires authorised == set c <- roles.Keys, r <- roles[c] | |roles[c]| == 1 :: r
    ensures authorised == AuthorisersIn(counted, wouldLand)
  {
    forall r | r in authorised
      ensures r in AuthorisersIn(counted, wouldLand)
    {
      var c :| c in roles && r in roles[c] && |roles[c]| == 1;
      OneElement(roles[c], r);
      assert RolesAt(roles, c) == RolesOf(counted, wouldLand, c);
      var v :| v in counted && v.comment == c && Authorises(v, wouldLand) && v.role.value == r;
    }
    forall r | r in AuthorisersIn(counted, wouldLand)
      ensures r in authorised
    {
      var v :| v in counted && Authorises(v, wouldLand) && RolesOf(counted, wouldLand, v.comment) == {v.role.value} && v.role.value == r;
      assert RolesAt(roles, v.comment) == RolesOf(counted, wouldLand, v.comment);
      OneElement(roles[v.comment], r);
    }
  }

  // ---------------------------------------------------------------- the source's loop

  method EvaluateReasons(pr: string, live: Live, config: Config, merged: set<string>) returns (reasons: seq<Reason>)
    ensures reasons == Evaluate(pr, live, config, merged)
  {
    if live.head == "" {
      return [NoHead];
    }
    var ci := CiReasonList(config.required, live.checks);
    var review := ReviewReasonList(pr, live, config, merged);
    reasons := ChangeReasons(live) + ci + review;
  }

  method CiReasonList(required: seq<string>, checks: seq<Check>) returns (reasons: seq<Reason>)
    ensures reasons == CiReasons(required, checks)
  {
    var missing := RequiredCheckReasons(required, checks);
    var failing := CheckReasonList(checks);
    reasons := missing + (if checks == [] then [NoChecks] else []) + failing;
  }

  method ReviewReasonList(pr: string, live: Live, config: Config, merged: set<string>) returns (reasons: seq<Reason>)
    ensures reasons == ReviewReasons(pr, live, config, merged)
  {
    var counted := Counted(live.verdicts, live.head, pr, config.trusted);
    var blocked := ConstraintReasonList(MergeConstraints(counted), merged, config.acknowledged);
    reasons := (if config.trusted.None? then [NobodyTrusted] else []) + VerdictReasons(live, pr, config.trusted) + blocked;
  }

  method RequiredCheckReasons(required: seq<string>, checks: seq<Check>) returns (reasons: seq<Reason>)
    ensures reasons == RequiredReasons(required, checks)
  {
    reasons := [];
    for i := 0 to |required|
      invariant reasons == RequiredReasons(required[..i], checks)
    {
      assert required[..i + 1][..i] == required[..i];
      if !(exists c <- checks :: c.name == required[i]) {
        reasons := reasons + [CheckDidNotRun(required[i])];
      }
    }
    assert required[..|required|] == required;
  }

  method CheckReasonList(checks: seq<Check>) returns (reasons: seq<Reason>)
    ensures reasons == CheckReasons(checks)
  {
    reasons := [];
    for i := 0 to |checks|
      invariant reasons == CheckReasons(checks[..i])
    {
      assert checks[..i + 1][..i] == checks[..i];
      if !checks[i].completed {
        reasons := reasons + [CheckPending(checks[i].name)];
      } else if !checks[i].success {
        reasons := reasons + [CheckFailed(checks[i].name)];
      }
    }
    assert checks[..|checks|] == checks;
  }

  method ConstraintReasonList(cs: seq<Constraint>, merged: set<string>, acknowledged: set<string>) returns (reasons: seq<Reason>)
    ensures reasons == ConstraintReasons(cs, merged, acknowledged)
  {
    reasons := [];
    for i := 0 to |cs|
      invariant reasons == ConstraintReasons(cs[..i], merged, acknowledged)
    {
      assert cs[..i + 1][..i] == cs[..i];
      if !Honoured(cs[i], merged, acknowledged) {
        reasons := reasons + [ConstraintBlocks(cs[i])];
      }
    }
    assert cs[..|cs|] == cs;
  }
}
