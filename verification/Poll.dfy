/** The unattended merge poll (`scripts/refinery_poll.py`) as a state machine: pushes, comments,
    CI reports, base moves and other people's merges interleave with the poll's own steps of
    fetching a change, deciding on it, pressing the head-pinned button and reconciling the bead.

    Git is a deterministic function from a base and a head to the tree that would land. */
module Poll {
  import opened Prelude
  import opened Precheck

  /** What git and the test suite answer. `wouldLand` has no tree for a conflict. */
  datatype World = World(
    wouldLand: (string, string) -> Option<string>,
    treeOf: string -> string,
    suiteGreen: (string, string) -> bool)

  const DUAL_MODEL_FLOOR: int := 2

  /** The configuration can only raise the bar. */
  function MinApprovals(configured: Option<int>): int {
    if configured.Some? && DUAL_MODEL_FLOOR < configured.value then configured.value else DUAL_MODEL_FLOOR
  }

  // ---------------------------------------------------------------- deciding

  /** The suite is owed only by a tree that neither head nor base was tested at. */
  function MergedTreeReasons(w: World, live: Live): seq<Reason> {
    match w.wouldLand(live.base, live.head)
    case None => []
    case Some(tree) =>
      if tree == w.treeOf(live.head) || w.suiteGreen(tree, live.base) then [] else [MergedTreeRed(tree)]
  }

  function AuthorisationReasons(w: World, pr: string, live: Live, config: Config): seq<Reason> {
    var roles := Authorisers(pr, live, config, w.wouldLand(live.base, live.head));
    if |roles| < MinApprovals(config.approvals) then [Unauthorised(roles)] else []
  }

  function GateReasons(w: World, pr: string, live: Live, config: Config, merged: set<string>): seq<Reason> {
    (if live.open then [] else [NotOpen])
    + (if live.mergeable then [] else [NotMergeable])
    + Evaluate(pr, live, config, merged)
    + (if live.head == "" || live.base == "" then [MissingSha] else [])
    + AuthorisationReasons(w, pr, live, config)
  }

  /** `decide`: why the poll may not land this change. No reason is the only path to the button. */
  function Decide(w: World, pr: string, live: Live, config: Config, merged: set<string>): seq<Reason> {
    var reasons := GateReasons(w, pr, live, config, merged);
    if reasons == [] && live.head != "" && live.base != "" then MergedTreeReasons(w, live) else reasons
  }

  method DecideReasons(w: World, pr: string, live: Live, config: Config, merged: set<string>) returns (reasons: seq<Reason>)
    ensures reasons == Decide(w, pr, live, config, merged)
  {
    reasons := GateReasonList(w, pr, live, config, merged);
    if reasons == [] && live.head != "" && live.base != "" {
      reasons := MergedTreeReasons(w, live);
    }
  }

  /** The forge's own conditions, the precheck's reasons, and the missing shas, one after the other. */
  method GateReasonList(w: World, pr: string, live: Live, config: Config, merged: set<string>) returns (reasons: seq<Reason>)
    ensures reasons == GateReasons(w, pr, live, config, merged)
  {
    reasons := [];
    if !live.open {
      reasons := reasons + [NotOpen];
    }
    if !live.mergeable {
      reasons := reasons + [NotMergeable];
    }
    var blocking := EvaluateReasons(pr, live, config, merged);
    reasons := reasons + blocking;
    if live.head == "" || live.base == "" {
      reasons := reasons + [MissingSha];
    }
    var unauthorised := AuthorisationReasonList(w, pr, live, config);
    reasons := reasons + unauthorised;
  }

  method AuthorisationReasonList(w: World, pr: string, live: Live, config: Config) returns (reasons: seq<Reason>)
    ensures reasons == AuthorisationReasons(w, pr, live, config)
  {
    var roles: set<string> := {};
    if live.head != "" && live.base != "" {
      roles := MergeAuthorisers(Counted(live.verdicts, live.head, pr, config.trusted), w.wouldLand(live.base, live.head));
    }
    reasons := if |roles| < MinApprovals(config.approvals) then [Unauthorised(roles)] else [];
  }

  // ---------------------------------------------------------------- reconciling

  /** The one bead a merged change closes: only when the tree that landed is the tree that was
      graded, one trailer names it, it resolves, and it is not closed already. */
  function BeadToClose(messages: seq<string>, graded: Option<string>, landed: Option<string>, beads: map<string, bool>): Option<string> {
    if graded.None? || landed.None? || graded != landed then None
    else
      var named := CompletionBeads(messages);
      if |named| != 1 then None
      else if named[0] !in beads || beads[named[0]] then None
      else Some(named[0])
  }

  // ---------------------------------------------------------------- the town

  /** One ruling as a comment states it. */
  datatype Ruling = Ruling(word: Word, sha: Option<string>, pr: Option<string>, constraints: seq<Constraint>,
                           tree: Option<string>, role: Option<string>)

  datatype Comment = Comment(author: Option<string>, rulings: seq<Ruling>)

  /** How a change landed: the head, the base it landed onto, and the tree that resulted. */
  datatype Landing = Landing(head: string, base: string, tree: string)

  datatype Pr = Pr(head: string, open: bool, mergeable: bool, checks: seq<Check>, comments: seq<Comment>,
                   messages: seq<string>, bead: Option<string>, landed: Option<Landing>)

  /** A bead the poll closed, for which change, at which head, graded on which base, at which tree. */
  datatype Closure = Closure(bead: string, pr: string, head: string, base: string, tree: string)

  datatype Poller = Idle | Fetched(pr: string, live: Live) | Cleared(pr: string, live: Live) | Pressed(pr: string, live: Live)

  /** `beads` says of each known bead whether it is closed. */
  datatype Town = Town(base: string, prs: map<string, Pr>, beads: map<string, bool>, poller: Poller, closures: seq<Closure>)

  function AsVerdict(c: Comment, id: nat, r: Ruling): Verdict {
    Verdict(r.word, r.sha, r.pr, c.author, r.constraints, r.tree, r.role, id)
  }

  function RulingsOf(c: Comment, id: nat): (vs: seq<Verdict>)
    ensures |vs| == |c.rulings| && forall k :: 0 <= k < |vs| ==> vs[k] == AsVerdict(c, id, c.rulings[k])
  {
    seq(|c.rulings|, k requires 0 <= k < |c.rulings| => AsVerdict(c, id, c.rulings[k]))
  }

  /** Every verdict of every comment, each under its comment's author and identity. */
  function Verdicts(comments: seq<Comment>): seq<Verdict> {
    if comments == [] then []
    else Verdicts(comments[..|comments| - 1]) + RulingsOf(comments[|comments| - 1], |comments| - 1)
  }

  function LiveOf(s: Town, pr: string): Live
    requires pr in s.prs
  {
    var p := s.prs[pr];
    Live(p.head, s.base, p.open, p.mergeable, p.checks, Verdicts(p.comments), p.messages, p.bead)
  }

  function MergedPrs(prs: map<string, Pr>): set<string> {
    set pr <- prs.Keys | prs[pr].landed.Some?
  }

  // ---------------------------------------------------------------- events

  datatype Event =
    // anyone, at any time
    | Push(pr: string, head: string, messages: seq<string>)
    | Post(pr: string, comment: Comment)
    | Report(pr: string, checks: seq<Check>, mergeable: bool)
    | AdvanceBase(base: string)
    | LandByHand(pr: string, newBase: string)
    | Close(pr: string)
    | Reopen(pr: string)
    | SetBead(bead: string, closed: bool)
    // the poll; a fault is a git, forge or ledger call that failed
    | Fetch(pr: string)
    | DecideNow(fault: bool, unread: set<string>)
    | Press(accepted: bool, newBase: string)
    | Reconcile(gradedKnown: bool, landedKnown: bool, closes: bool)

  /** The change lands onto the base as it is now, if it is open and does not conflict. */
  function Land(w: World, s: Town, pr: string, newBase: string): Town
    requires pr in s.prs
  {
    var p := s.prs[pr];
    match w.wouldLand(s.base, p.head)
    case None => s
    case Some(tree) =>
      if !p.open then s
      else s.(base := newBase, prs := s.prs[pr := p.(open := false, landed := Some(Landing(p.head, s.base, tree)))])
  }

  /** The poll presses the button, pinned to the head it decided on. */
  function PressButton(w: World, s: Town, accepted: bool, newBase: string): Town
    requires s.poller.Cleared?
  {
    var pr, live := s.poller.pr, s.poller.live;
    if accepted && pr in s.prs && s.prs[pr].open && s.prs[pr].head == live.head && w.wouldLand(s.base, live.head).Some? then
      Land(w, s, pr, newBase).(poller := Pressed(pr, live))
    else s.(poller := Idle)
  }

  /** No reason against it readies a fetched change for the button; any reason skips it. */
  function Settle(s: Town, reasons: seq<Reason>): Town
    requires s.poller.Fetched?
  {
    if reasons == [] then s.(poller := Cleared(s.poller.pr, s.poller.live)) else s.(poller := Idle)
  }

  function ReconcileNow(w: World, s: Town, gradedKnown: bool, landedKnown: bool, closes: bool): Town
    requires s.poller.Pressed?
  {
    var pr, live := s.poller.pr, s.poller.live;
    var graded := if gradedKnown then w.wouldLand(live.base, live.head) else None;
    var landed := if landedKnown && pr in s.prs && s.prs[pr].landed.Some? then Some(s.prs[pr].landed.value.tree) else None;
    match BeadToClose(live.messages, graded, landed, s.beads)
    case None => s.(poller := Idle)
    case Some(bead) =>
      if closes then
        s.(poller := Idle, beads := s.beads[bead := true],
           closures := s.closures + [Closure(bead, pr, live.head, live.base, landed.value)])
      else s.(poller := Idle)
  }

  function Step(w: World, config: Config, s: Town, e: Event): Town {
    match e
    case Push(pr, head, messages) =>
      if pr in s.prs && s.prs[pr].open then
        s.(prs := s.prs[pr := s.prs[pr].(head := head, messages := messages, checks := [], mergeable := false)])
      else s
    case Post(pr, comment) =>
      if pr in s.prs then s.(prs := s.prs[pr := s.prs[pr].(comments := s.prs[pr].comments + [comment])]) else s
    case Report(pr, checks, mergeable) =>
      if pr in s.prs then s.(prs := s.prs[pr := s.prs[pr].(checks := checks, mergeable := mergeable)]) else s
    case AdvanceBase(base) => s.(base := base)
    case LandByHand(pr, newBase) => if pr in s.prs then Land(w, s, pr, newBase) else s
    case Close(pr) => if pr in s.prs then s.(prs := s.prs[pr := s.prs[pr].(open := false)]) else s
    case Reopen(pr) =>
      if pr in s.prs && s.prs[pr].landed.None? then s.(prs := s.prs[pr := s.prs[pr].(open := true)]) else s
    case SetBead(bead, closed) => s.(beads := s.beads[bead := closed])
    case Fetch(pr) =>
      if s.poller.Idle? && pr in s.prs then s.(poller := Fetched(pr, LiveOf(s, pr))) else s
    case DecideNow(fault, unread) =>
      if !s.poller.Fetched? then s
      else Settle(s, if fault then [GitFault] else Decide(w, s.poller.pr, s.poller.live, config, MergedPrs(s.prs) - unread))
    case Press(accepted, newBase) => if s.poller.Cleared? then PressButton(w, s, accepted, newBase) else s
    case Reconcile(gradedKnown, landedKnown, closes) =>
      if s.poller.Pressed? then ReconcileNow(w, s, gradedKnown, landedKnown, closes) else s
  }

  function Run(w: World, config: Config, s: Town, events: seq<Event>): Town {
    if events == [] then s else Step(w, config, Run(w, config, s, events[..|events| - 1]), events[|events| - 1])
  }

  /** Where a run starts: the poll has done nothing yet. */
  predicate Starts(s: Town) {
    s.poller.Idle? && s.closures == []
  }
}
