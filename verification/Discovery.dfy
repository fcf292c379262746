/** Ranked candidate sources for a claim no governed context covers, and the one proposal the
    ranking may earn (`hyperset/bundle/discovery.py`). Statements and disclosures are not modelled. */
module Discovery {
  import opened Prelude
  import Passes

  // ---------------------------------------------------------------- facts

  /** One observed asset: `modified` is the time it last reported, `findings` the severities of its
      open findings, `referencedBy` the assets that reference it. */
  datatype Source = Source(ref: string, modified: Option<int>, deleted: bool, metrics: seq<string>,
                           findings: seq<string>, referencedBy: seq<string>)

  /** What the Git corpus says of each ref, and the expressions the named domain declares. */
  datatype Governed = Governed(approved: map<string, seq<string>>, evidence: map<string, seq<string>>,
                               prohibited: map<string, seq<string>>, expressions: seq<Option<string>>)

  datatype Disagreement = ProhibitedByContext | SourceDeleted | OpenFinding(severity: string)

  datatype Candidate = Candidate(source: Source, engagement: nat, agreements: nat, references: nat,
                                 disagreements: seq<Disagreement>, prohibited: bool)

  const DECIDED_SEVERITIES := {"error", "critical"}

  function Entries(entries: map<string, seq<string>>, ref: string): seq<string> {
    if ref in entries then entries[ref] else []
  }

  /** The source computes the declared expression, as a computation and not as a spelling. */
  predicate Computes(source: Source, declared: Option<string>) {
    && declared.Some? && declared.value != ""
    && exists metric <- source.metrics :: Passes.Canonical(declared.value) == Passes.Canonical(metric)
  }

  function Agreements(source: Source, declared: seq<Option<string>>): nat {
    if declared == [] then 0
    else Agreements(source, declared[..|declared| - 1]) + if Computes(source, declared[|declared| - 1]) then 1 else 0
  }

  method CountAgreements(source: Source, declared: seq<Option<string>>) returns (matched: nat)
    ensures matched == Agreements(source, declared)
  {
    matched := 0;
    for i := 0 to |declared|
      invariant matched == Agreements(source, declared[..i])
    {
      assert declared[..i + 1][..i] == declared[..i];
      if declared[i].None? || declared[i].value == "" {
        continue;
      }
      var agrees := false;
      var key := Passes.CanonicalKey(declared[i].value);
      for k := 0 to |source.metrics|
        invariant agrees <==> exists metric <- source.metrics[..k] :: key == Passes.Canonical(metric)
      {
        var observed := Passes.CanonicalKey(source.metrics[k]);
        agrees := agrees || key == observed;
        assert source.metrics[..k + 1] == source.metrics[..k] + [source.metrics[k]];
      }
      assert source.metrics[..|source.metrics|] == source.metrics;
      if agrees {
        matched := matched + 1;
      }
    }
    assert declared[..|declared|] == declared;
  }

  function Disagreements(source: Source, prohibitions: seq<string>): seq<Disagreement> {
    seq(|prohibitions|, i => ProhibitedByContext)
    + (if source.deleted then [SourceDeleted] else [])
    + seq(|source.findings|, i requires 0 <= i < |source.findings| => OpenFinding(source.findings[i]))
  }

  function AsCandidate(source: Source, governed: Governed): Candidate {
    var prohibitions := Entries(governed.prohibited, source.ref);
    Candidate(source, |Entries(governed.approved, source.ref)| + |Entries(governed.evidence, source.ref)|,
              Agreements(source, governed.expressions), |source.referencedBy|,
              Disagreements(source, prohibitions), prohibitions != [])
  }

  // ---------------------------------------------------------------- the order

  predicate IsDecided(d: Disagreement) {
    d.OpenFinding? ==> d.severity in DECIDED_SEVERITIES
  }

  /** 0 agrees, 1 disagrees where nothing could settle it, 2 disagrees. One decided disagreement
      is enough. */
  function Tier(c: Candidate): int {
    if c.disagreements == [] then 0
    else if exists d <- c.disagreements :: IsDecided(d) then 2
    else 1
  }

  function Codes(s: string): seq<int> {
    seq(|s|, i requires 0 <= i < |s| => s[i] as int)
  }

  /** The sort key, least first; the ref's characters come last. */
  function Key(c: Candidate): seq<int> {
    [Tier(c), if c.prohibited then 1 else 0, -(c.engagement as int), -(c.agreements as int), -(c.references as int),
     if c.source.modified.None? then 1 else 0, if c.source.modified.Some? then -c.source.modified.value else 0]
    + Codes(c.source.ref)
  }

  /** Lexicographic order. */
  predicate Leq(a: seq<int>, b: seq<int>) {
    a == [] || (b != [] && (a[0] < b[0] || (a[0] == b[0] && Leq(a[1..], b[1..]))))
  }

  /** Places a candidate after everything that does not come after it. */
  function Place(ranked: seq<Candidate>, c: Candidate): seq<Candidate> {
    if ranked == [] || Leq(Key(ranked[|ranked| - 1]), Key(c)) then ranked + [c]
    else Place(ranked[..|ranked| - 1], c) + [ranked[|ranked| - 1]]
  }

  /** A stable sort by key. */
  function Ranked(cs: seq<Candidate>): seq<Candidate> {
    if cs == [] then [] else Place(Ranked(cs[..|cs| - 1]), cs[|cs| - 1])
  }

  // ---------------------------------------------------------------- the proposal

  datatype Signal = GitEngagement | ExpressionAgreement

  datatype Decline = NoGitRelativeSignal | NotSeparated | EveryCandidateDisagrees | NoGoverningDomain

  datatype Proposal = Proposed(ref: string, basis: seq<Signal>) | Declined(outcome: Decline)

  predicate Clean(c: Candidate) {
    c.disagreements == []
  }

  /** `_git_relative` compared as a pair: engagement first. */
  predicate Above(c: Candidate, d: Candidate) {
    c.engagement > d.engagement || (c.engagement == d.engagement && c.agreements > d.agreements)
  }

  predicate Engaged(c: Candidate) {
    c.engagement != 0 || c.agreements != 0
  }

  function FirstClean(ranked: seq<Candidate>): Option<Candidate> {
    if ranked == [] then None else if Clean(ranked[0]) then Some(ranked[0]) else FirstClean(ranked[1..])
  }

  /** The Git-relative signals that separate a candidate from the next one that could be proposed. */
  function Basis(leader: Candidate, runnerUp: Option<Candidate>): seq<Signal> {
    (if leader.engagement > (if runnerUp.Some? then runnerUp.value.engagement else 0) then [GitEngagement] else [])
    + (if leader.agreements > (if runnerUp.Some? then runnerUp.value.agreements else 0) then [ExpressionAgreement] else [])
  }

  function Propose(ranked: seq<Candidate>, served: nat, configured: bool): Proposal {
    if !configured then Declined(NoGoverningDomain)
    else if ranked == [] || served == 0 then Declined(NoGitRelativeSignal)
    else
      var leader, runnerUp := ranked[0], FirstClean(ranked[1..]);
      if !Clean(leader) then Declined(EveryCandidateDisagrees)
      else if !Engaged(leader) then Declined(NoGitRelativeSignal)
      else if runnerUp.Some? && !Above(leader, runnerUp.value) then Declined(NotSeparated)
      else Proposed(leader.source.ref, Basis(leader, runnerUp))
  }

  // ---------------------------------------------------------------- the section

  /** Candidates in rank order, the first at rank 1. */
  datatype Section = Section(candidates: seq<Candidate>, proposal: Proposal, considered: nat, returned: nat, bound: int)

  /** `ranked[:limit]`, whose bound counts from the end when it is negative. */
  function Served(ranked: seq<Candidate>, limit: int): seq<Candidate> {
    if limit >= |ranked| then ranked
    else if limit >= 0 then ranked[..limit]
    else if limit + |ranked| >= 0 then ranked[..limit + |ranked|]
    else []
  }

  function Candidates(sources: seq<Source>, governed: Governed): (r: seq<Candidate>)
    ensures |r| == |sources| && forall i :: 0 <= i < |r| ==> r[i] == AsCandidate(sources[i], governed)
  {
    seq(|sources|, i requires 0 <= i < |sources| => AsCandidate(sources[i], governed))
  }

  /** `candidate_sources`. */
  function CandidateSources(sources: seq<Source>, governed: Governed, configured: bool, limit: int): Option<Section> {
    if sources == [] then None
    else
      var ranked := Ranked(Candidates(sources, governed));
      var served := Served(ranked, limit);
      Some(Section(served, Propose(ranked, |served|, configured), |ranked|, |served|, limit))
  }
}
