/** Safety of the unattended merge over every interleaving of its steps with everyone else's. */
module PollLaws {
  import opened Prelude
  import opened Precheck
  import opened PrecheckLaws
  import opened Poll

  // ---------------------------------------------------------------- the decision

  /** Everything the poll must have seen to press the button. */
  ghost predicate Clear(w: World, pr: string, live: Live, config: Config, merged: set<string>) {
    && live.open && live.mergeable
    && Pinned(live) && live.base != ""
    && Green(config.required, live.checks)
    && Reviewed(pr, live, config, merged)
    && (config.approvals.Some? ==> config.approvals.value <= DUAL_MODEL_FLOOR)
    && CriticAndAdversary(Counted(live.verdicts, live.head, pr, config.trusted), w.wouldLand(live.base, live.head))
    && SuiteHolds(w, live)
  }

  /** The tree that would land is one the head was tested at, or the suite is green at it. */
  predicate SuiteHolds(w: World, live: Live) {
    var tree := w.wouldLand(live.base, live.head);
    tree.Some? ==> tree.value == w.treeOf(live.head) || w.suiteGreen(tree.value, live.base)
  }

  lemma AuthorisedIff(w: World, pr: string, live: Live, config: Config)
    requires live.head != "" && live.base != ""
    ensures AuthorisationReasons(w, pr, live, config) == []
       <==> && (config.approvals.Some? ==> config.approvals.value <= DUAL_MODEL_FLOOR)
            && CriticAndAdversary(Counted(live.verdicts, live.head, pr, config.trusted), w.wouldLand(live.base, live.head))
  {
    AuthorisedIffCriticAndAdversary(Counted(live.verdicts, live.head, pr, config.trusted), w.wouldLand(live.base, live.head));
  }

  /** The poll may land a change exactly when it is clear on every count; raising the approvals
      above two makes the poll inert. */
  lemma DecisionIsExact(w: World, pr: string, live: Live, config: Config, merged: set<string>)
    ensures Decide(w, pr, live, config, merged) == [] <==> Clear(w, pr, live, config, merged)
  {
    PrecheckIsExact(pr, live, config, merged);
    if live.head != "" && live.base != "" {
      AuthorisedIff(w, pr, live, config);
    }
  }

  /** The verdict bit depends on the verdicts only through those that count. */
  lemma DecisionReadsCountedVerdicts(w: World, pr: string, live: Live, vs: seq<Verdict>, config: Config, merged: set<string>)
    requires Counted(vs, live.head, pr, config.trusted) == Counted(live.verdicts, live.head, pr, config.trusted)
    ensures Decide(w, pr, live.(verdicts := vs), config, merged) == [] <==> Decide(w, pr, live, config, merged) == []
  {
    var other := live.(verdicts := vs);
    DecisionIsExact(w, pr, live, config, merged);
    DecisionIsExact(w, pr, other, config, merged);
    assert Reviewed(pr, other, config, merged) <==> Reviewed(pr, live, config, merged);
  }

  /** Posting a verdict that is untrusted, or names another change or another head, wherever among
      the comments, neither clears nor blocks a merge. */
  lemma UncountedVerdictNeverDecides(w: World, pr: string, live: Live, before: seq<Verdict>, v: Verdict, after: seq<Verdict>,
                                     config: Config, merged: set<string>)
    requires live.verdicts == before + after
    requires !Counts(v, live.head, pr, config.trusted)
    ensures Decide(w, pr, live.(verdicts := before + [v] + after), config, merged) == [] <==> Decide(w, pr, live, config, merged) == []
  {
    UncountedIsAbsent(before, v, after, live.head, pr, config.trusted);
    DecisionReadsCountedVerdicts(w, pr, live, before + [v] + after, config, merged);
  }

  // ---------------------------------------------------------------- who signed what

  /** The comment carries a trusted MERGE ruling for this change, at this head, pinning this tree. */
  ghost predicate Signs(c: Comment, config: Config, pr: string, head: string, tree: string, role: string) {
    && config.trusted.Some? && c.author.Some? && c.author.value in config.trusted.value
    && exists r <- c.rulings ::
      && r.word == MERGE && r.sha == Some(Lower(head)) && r.pr == Some(pr)
      && r.tree == Some(tree) && r.role == Some(role)
  }

  /** Critic and adversary signed the tree, in two different comments. */
  ghost predicate Graded(comments: seq<Comment>, config: Config, pr: string, head: string, tree: string) {
    exists i, j ::
      && 0 <= i < |comments| && 0 <= j < |comments| && i != j
      && Signs(comments[i], config, pr, head, tree, "critic")
      && Signs(comments[j], config, pr, head, tree, "adversary")
  }

  /** A verdict is some ruling of the comment whose identity it carries. */
  lemma {:induction false} VerdictsComeFromComments(comments: seq<Comment>, v: Verdict)
    requires v in Verdicts(comments)
    ensures v.comment < |comments|
    ensures exists r <- comments[v.comment].rulings :: v == AsVerdict(comments[v.comment], v.comment, r)
  {
    var n := |comments| - 1;
    if v in RulingsOf(comments[n], n) {
    } else {
      VerdictsComeFromComments(comments[..n], v);
      assert comments[..n][v.comment] == comments[v.comment];
    }
  }

  lemma CountedAuthorisationIsSigned(comments: seq<Comment>, v: Verdict, config: Config, pr: string, head: string, tree: string)
    requires v in Verdicts(comments) && Counts(v, head, pr, config.trusted) && Authorises(v, Some(tree))
    ensures v.comment < |comments| && Signs(comments[v.comment], config, pr, head, tree, v.role.value)
  {
    VerdictsComeFromComments(comments, v);
    var r :| r in comments[v.comment].rulings && v == AsVerdict(comments[v.comment], v.comment, r);
    assert r.word == MERGE && r.sha == Some(Lower(head)) && r.tree == Some(tree) && r.role == Some(v.role.value);
  }

  lemma SpeakerSigned(comments: seq<Comment>, v: Verdict, config: Config, pr: string, head: string, tree: string, role: string)
    requires RolesOf(Counted(Verdicts(comments), head, pr, config.trusted), Some(tree), v.comment) == {role}
    ensures v.comment < |comments| && Signs(comments[v.comment], config, pr, head, tree, role)
  {
    var counted := Counted(Verdicts(comments), head, pr, config.trusted);
    assert role in RolesOf(counted, Some(tree), v.comment);
    var u :| u in counted && u.comment == v.comment && Authorises(u, Some(tree)) && u.role.value == role;
    CountedAuthorisationIsSigned(comments, u, config, pr, head, tree);
  }

  /** A clear decision rests on two comments that graded the very tree that would land. */
  lemma ClearIsGraded(w: World, pr: string, live: Live, config: Config, merged: set<string>, comments: seq<Comment>)
    requires live.verdicts == Verdicts(comments) && Clear(w, pr, live, config, merged)
    ensures w.wouldLand(live.base, live.head).Some?
    ensures Graded(comments, config, pr, live.head, w.wouldLand(live.base, live.head).value)
  {
    var counted := Counted(live.verdicts, live.head, pr, config.trusted);
    var landing := w.wouldLand(live.base, live.head);
    var v, u :| v in counted && u in counted
                && RolesOf(counted, landing, v.comment) == {"critic"} && RolesOf(counted, landing, u.comment) == {"adversary"};
    assert "critic" in RolesOf(counted, landing, v.comment);
    SpeakerSigned(comments, v, config, pr, live.head, landing.value, "critic");
    SpeakerSigned(comments, u, config, pr, live.head, landing.value, "adversary");
    assert v.comment != u.comment by {
      assert "adversary" in RolesOf(counted, landing, u.comment) && |"critic"| != |"adversary"|;
    }
  }

  // ---------------------------------------------------------------- the invariant

  /** A landed change is shut, and its tree is the one git makes of the base and head it names. */
  ghost predicate LandedAt(w: World, p: Pr, head: string) {
    && !p.open && p.landed.Some? && p.landed.value.head == head
    && w.wouldLand(p.landed.value.base, head) == Some(p.landed.value.tree)
  }

  /** The poll's snapshot is what the change's comments said at some earlier time. */
  ghost predicate Read(p: Pr, live: Live) {
    exists n :: 0 <= n <= |p.comments| && live.verdicts == Verdicts(p.comments[..n])
  }

  ghost predicate GradedFor(w: World, config: Config, p: Pr, pr: string, live: Live) {
    var tree := w.wouldLand(live.base, live.head);
    tree.Some? && Graded(p.comments, config, pr, live.head, tree.value)
  }

  ghost predicate PollerSound(w: World, config: Config, s: Town) {
    match s.poller
    case Idle => true
    case Fetched(pr, live) => pr in s.prs && Read(s.prs[pr], live)
    case Cleared(pr, live) => pr in s.prs && GradedFor(w, config, s.prs[pr], pr, live)
    case Pressed(pr, live) =>
      pr in s.prs && GradedFor(w, config, s.prs[pr], pr, live) && LandedAt(w, s.prs[pr], live.head)
  }

  /** What a closed bead attests: its change landed at the head that was decided on, the tree that
      landed is the tree that would have landed when it was decided, and that tree was graded by
      critic and adversary in two different comments. */
  ghost predicate ClosureSound(w: World, config: Config, s: Town, c: Closure) {
    && c.pr in s.prs
    && LandedAt(w, s.prs[c.pr], c.head)
    && s.prs[c.pr].landed.value.tree == c.tree
    && w.wouldLand(c.base, c.head) == Some(c.tree)
    && Graded(s.prs[c.pr].comments, config, c.pr, c.head, c.tree)
  }

  ghost predicate Sound(w: World, config: Config, s: Town) {
    PollerSound(w, config, s) && forall c <- s.closures :: ClosureSound(w, config, s, c)
  }

  /** Comments are only added, changes never vanish, and what has landed stays shut as it landed. */
  ghost predicate Grows(s: Town, t: Town) {
    forall pr <- s.prs ::
      && pr in t.prs
      && s.prs[pr].comments <= t.prs[pr].comments
      && (s.prs[pr].landed.Some? && !s.prs[pr].open ==> !t.prs[pr].open && t.prs[pr].landed == s.prs[pr].landed)
  }

  lemma OneChangeGrows(s: Town, t: Town, pr: string, p: Pr)
    requires pr in s.prs && t.prs == s.prs[pr := p] && s.prs[pr].comments <= p.comments
    requires s.prs[pr].landed.Some? && !s.prs[pr].open ==> !p.open && p.landed == s.prs[pr].landed
    ensures Grows(s, t)
  {
  }

  lemma LandGrows(w: World, s: Town, pr: string, newBase: string)
    requires pr in s.prs
    ensures Grows(s, Land(w, s, pr, newBase))
  {
    var t := Land(w, s, pr, newBase);
    if t != s {
      OneChangeGrows(s, t, pr, t.prs[pr]);
    }
  }

  lemma StepsGrow(w: World, config: Config, s: Town, e: Event)
    ensures Grows(s, Step(w, config, s, e))
  {
    match e
    case LandByHand(pr, newBase) =>
      if pr in s.prs {
        LandGrows(w, s, pr, newBase);
      }
    case Press(_, newBase) => PressGrows(w, config, s, e);
    case Fetch(_) =>
    case DecideNow(_, _) =>
    case Reconcile(_, _, _) => ReconcileGrows(w, config, s, e);
    case _ => OutsideGrows(w, config, s, e);
  }

  lemma PressGrows(w: World, config: Config, s: Town, e: Event)
    requires e.Press?
    ensures Grows(s, Step(w, config, s, e))
  {
    if s.poller.Cleared? && s.poller.pr in s.prs {
      LandGrows(w, s, s.poller.pr, e.newBase);
    }
  }

  lemma ReconcileGrows(w: World, config: Config, s: Town, e: Event)
    requires e.Reconcile?
    ensures Grows(s, Step(w, config, s, e))
  {
    assert Step(w, config, s, e).prs == s.prs;
  }

  lemma OutsideGrows(w: World, config: Config, s: Town, e: Event)
    requires e.Push? || e.Post? || e.Report? || e.Close? || e.Reopen? || e.AdvanceBase? || e.SetBead?
    ensures Grows(s, Step(w, config, s, e))
  {
    var t := Step(w, config, s, e);
    if t.prs != s.prs {
      OneChangeGrows(s, t, e.pr, t.prs[e.pr]);
    }
  }

  lemma PollerGrows(w: World, config: Config, s: Town, t: Town)
    requires Grows(s, t) && PollerSound(w, config, s) && t.poller == s.poller
    ensures PollerSound(w, config, t)
  {
    match s.poller
    case Idle =>
    case Fetched(pr, live) =>
      var n :| 0 <= n <= |s.prs[pr].comments| && live.verdicts == Verdicts(s.prs[pr].comments[..n]);
      assert t.prs[pr].comments[..n] == s.prs[pr].comments[..n];
    case Cleared(pr, live) =>
    case Pressed(pr, live) =>
  }

  lemma FetchKeepsSound(w: World, config: Config, s: Town, pr: string)
    requires PollerSound(w, config, s)
    ensures PollerSound(w, config, Step(w, config, s, Fetch(pr)))
  {
    if s.poller.Idle? && pr in s.prs {
      assert s.prs[pr].comments[..|s.prs[pr].comments|] == s.prs[pr].comments;
    }
  }

  /** A decision with no reason against it is graded. */
  lemma DecisionIsGraded(w: World, config: Config, p: Pr, pr: string, live: Live, merged: set<string>)
    requires Read(p, live) && Decide(w, pr, live, config, merged) == []
    ensures GradedFor(w, config, p, pr, live)
  {
    var n :| 0 <= n <= |p.comments| && live.verdicts == Verdicts(p.comments[..n]);
    DecisionIsExact(w, pr, live, config, merged);
    ClearIsGraded(w, pr, live, config, merged, p.comments[..n]);
  }

  lemma DecideKeepsSound(w: World, config: Config, s: Town, fault: bool, unread: set<string>)
    requires PollerSound(w, config, s)
    ensures PollerSound(w, config, Step(w, config, s, DecideNow(fault, unread)))
  {
    if s.poller.Fetched? {
      var pr, live, merged := s.poller.pr, s.poller.live, MergedPrs(s.prs) - unread;
      if Decide(w, pr, live, config, merged) == [] {
        DecisionIsGraded(w, config, s.prs[pr], pr, live, merged);
      }
    }
  }

  lemma PressKeepsSound(w: World, config: Config, s: Town, accepted: bool, newBase: string)
    requires PollerSound(w, config, s)
    ensures PollerSound(w, config, Step(w, config, s, Press(accepted, newBase)))
  {
  }

  /** A closure the poll adds is sound when it is added. */
  lemma ReconcileClosesSoundly(w: World, config: Config, s: Town, gradedKnown: bool, landedKnown: bool, closes: bool)
    requires PollerSound(w, config, s) && s.poller.Pressed?
    ensures forall c <- ReconcileNow(w, s, gradedKnown, landedKnown, closes).closures ::
              c in s.closures || ClosureSound(w, config, ReconcileNow(w, s, gradedKnown, landedKnown, closes), c)
  {
  }

  lemma StepKeepsPollerSound(w: World, config: Config, s: Town, e: Event)
    requires PollerSound(w, config, s)
    ensures PollerSound(w, config, Step(w, config, s, e))
  {
    match e
    case Fetch(pr) => FetchKeepsSound(w, config, s, pr);
    case DecideNow(fault, unread) => DecideKeepsSound(w, config, s, fault, unread);
    case Press(accepted, newBase) => PressKeepsSound(w, config, s, accepted, newBase);
    case Reconcile(_, _, _) =>
    case _ =>
      StepsGrow(w, config, s, e);
      PollerGrows(w, config, s, Step(w, config, s, e));
  }

  lemma StepKeepsSound(w: World, config: Config, s: Town, e: Event)
    requires Sound(w, config, s)
    ensures Sound(w, config, Step(w, config, s, e))
  {
    StepKeepsPollerSound(w, config, s, e);
    StepsGrow(w, config, s, e);
    if e.Reconcile? && s.poller.Pressed? {
      ReconcileClosesSoundly(w, config, s, e.gradedKnown, e.landedKnown, e.closes);
    }
    forall c | c in s.closures
      ensures ClosureSound(w, config, Step(w, config, s, e), c)
    {
    }
  }

  lemma {:induction false} RunIsSound(w: World, config: Config, s: Town, events: seq<Event>)
    requires Starts(s)
    ensures Sound(w, config, Run(w, config, s, events))
  {
    if events != [] {
      RunIsSound(w, config, s, events[..|events| - 1]);
      StepKeepsSound(w, config, Run(w, config, s, events[..|events| - 1]), events[|events| - 1]);
    }
  }

  // ---------------------------------------------------------------- which bead

  /** The town is as the poll read it: this change, at this head, onto this base, with these messages. */
  ghost predicate IsReading(t: Town, pr: string, live: Live) {
    pr in t.prs && live == LiveOf(t, pr)
  }

  /** The town is one in which the closed change stood at the closed head on the graded base, and the
      trailers of its messages named the closed bead and no other. */
  ghost predicate NamesTheBead(t: Town, c: Closure) {
    && c.pr in t.prs && t.prs[c.pr].head == c.head && t.base == c.base
    && forall b: string :: IsBeadId(b) && HasTrailer(t.prs[c.pr].messages, b) <==> b == c.bead
  }

  /** What the poll holds it held before, or reads now. */
  lemma PollerHoldsOrReads(w: World, config: Config, s: Town, e: Event)
    ensures var t := Step(w, config, s, e);
            || t.poller.Idle?
            || (!s.poller.Idle? && t.poller.pr == s.poller.pr && t.poller.live == s.poller.live)
            || (t.poller.Fetched? && IsReading(t, t.poller.pr, t.poller.live))
  {
  }

  /** A closure a step adds is of the change the poll holds, and of the one bead its messages name. */
  lemma NewClosureIsOfTheOnlyBead(w: World, config: Config, s: Town, e: Event, c: Closure)
    requires c in Step(w, config, s, e).closures && c !in s.closures
    ensures s.poller.Pressed? && c.pr == s.poller.pr && c.head == s.poller.live.head && c.base == s.poller.live.base
    ensures CompletionBeads(s.poller.live.messages) == [c.bead]
  {
    if e.Reconcile? && s.poller.Pressed? {
      var named := CompletionBeads(s.poller.live.messages);
      assert |named| == 1 ==> named == [named[0]];
    }
  }

  /** Some earlier town is what the poll holds. */
  ghost predicate HeldWasRead(w: World, config: Config, s: Town, events: seq<Event>) {
    var p := Run(w, config, s, events).poller;
    !p.Idle? ==> exists k :: 0 <= k <= |events| && IsReading(Run(w, config, s, events[..k]), p.pr, p.live)
  }

  /** At some point of the run the closed change's trailers named the closed bead and no other. */
  ghost predicate BeadWasNamed(w: World, config: Config, s: Town, events: seq<Event>, c: Closure) {
    exists k :: 0 <= k <= |events| && NamesTheBead(Run(w, config, s, events[..k]), c)
  }

  lemma {:induction false} WhatIsHeldWasRead(w: World, config: Config, s: Town, events: seq<Event>)
    requires Starts(s)
    ensures HeldWasRead(w, config, s, events)
    decreases |events|
  {
    if events != [] {
      var before := events[..|events| - 1];
      WhatIsHeldWasRead(w, config, s, before);
      HeldStaysRead(w, config, s, before, events);
    }
  }

  lemma HeldStaysRead(w: World, config: Config, s: Town, before: seq<Event>, events: seq<Event>)
    requires events != [] && before == events[..|events| - 1] && HeldWasRead(w, config, s, before)
    ensures HeldWasRead(w, config, s, events)
  {
    var now, p := Run(w, config, s, before), Run(w, config, s, events).poller;
    PollerHoldsOrReads(w, config, now, events[|events| - 1]);
    if !p.Idle? {
      if p.Fetched? && IsReading(Run(w, config, s, events), p.pr, p.live) {
        assert events[..|events|] == events;
      } else {
        var k :| 0 <= k <= |before| && IsReading(Run(w, config, s, before[..k]), p.pr, p.live);
        assert before[..k] == events[..k];
      }
    }
  }

  lemma ReadingNamesTheBead(t: Town, live: Live, c: Closure)
    requires IsReading(t, c.pr, live) && c.head == live.head && c.base == live.base && CompletionBeads(live.messages) == [c.bead]
    ensures NamesTheBead(t, c)
  {
    OneBeadIffOnlyTrailer(live.messages, c.bead);
  }

  lemma NewClosureWasNamed(w: World, config: Config, s: Town, before: seq<Event>, e: Event, c: Closure) returns (k: nat)
    requires Starts(s) && c in Step(w, config, Run(w, config, s, before), e).closures && c !in Run(w, config, s, before).closures
    ensures k <= |before| && NamesTheBead(Run(w, config, s, before[..k]), c)
  {
    var held := Run(w, config, s, before).poller;
    WhatIsHeldWasRead(w, config, s, before);
    NewClosureIsOfTheOnlyBead(w, config, Run(w, config, s, before), e, c);
    k :| 0 <= k <= |before| && IsReading(Run(w, config, s, before[..k]), held.pr, held.live);
    ReadingNamesTheBead(Run(w, config, s, before[..k]), held.live, c);
  }

  lemma {:induction false} ClosedBeadWasNamed(w: World, config: Config, s: Town, events: seq<Event>, c: Closure)
    requires Starts(s) && c in Run(w, config, s, events).closures
    ensures BeadWasNamed(w, config, s, events, c)
    decreases |events|
  {
    var before := events[..|events| - 1];
    if c in Run(w, config, s, before).closures {
      ClosedBeadWasNamed(w, config, s, before, c);
      var k :| 0 <= k <= |before| && NamesTheBead(Run(w, config, s, before[..k]), c);
      assert before[..k] == events[..k];
    } else {
      var k := NewClosureWasNamed(w, config, s, before, events[|events| - 1], c);
      assert before[..k] == events[..k];
    }
  }

  /** Over every interleaving, a bead the poll closed was the one bead that the trailers of its change
      named when the change was read, and that change landed at the graded tree, which critic and
      adversary signed in two different comments. */
  lemma OnlyGradedTreesCloseBeads(w: World, config: Config, s: Town, events: seq<Event>, c: Closure)
    requires Starts(s) && c in Run(w, config, s, events).closures
    ensures ClosureSound(w, config, Run(w, config, s, events), c)
    ensures BeadWasNamed(w, config, s, events, c)
  {
    RunIsSound(w, config, s, events);
    ClosedBeadWasNamed(w, config, s, events, c);
  }
}
