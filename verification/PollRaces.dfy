/** What the button pins and what it does not: the head, but not the base. And that a bead is
    closed once. */
module PollRaces {
  import opened Prelude
  import opened Precheck
  import opened PrecheckLaws
  import opened Poll
  import opened PollLaws

  // ---------------------------------------------------------------- the base may have moved

  /** The button is pressed and the forge takes it. */
  ghost predicate Lands(w: World, s: Town) {
    && s.poller.Cleared? && s.poller.pr in s.prs
    && s.prs[s.poller.pr].open && s.prs[s.poller.pr].head == s.poller.live.head
    && w.wouldLand(s.base, s.poller.live.head).Some?
  }

  /** An event that may change the base everyone merges onto. */
  predicate MovesBase(e: Event) {
    e.AdvanceBase? || e.LandByHand?
  }

  /** The poll has read a change and has not yet pressed the button on it or let it go. */
  predicate IsBetween(p: Poller) {
    p.Fetched? || p.Cleared?
  }

  /** The base may have moved, but the change still merges to the tree it merged to. */
  ghost predicate KeepsTheTree(w: World, s: Town, t: Town) {
    IsBetween(s.poller) ==> w.wouldLand(t.base, s.poller.live.head) == w.wouldLand(s.base, s.poller.live.head)
  }

  /** From step `m` up to step `n` of the run, no move of the base changes the tree of the change the
      poll holds. */
  ghost predicate Steady(w: World, config: Config, s: Town, events: seq<Event>, m: nat, n: nat)
    requires n <= |events|
  {
    forall k :: m <= k < n && MovesBase(events[k]) ==> KeepsTheTree(w, Run(w, config, s, events[..k]), Run(w, config, s, events[..k + 1]))
  }

  /** The tree the poll read the change at is the tree that would land now. */
  ghost predicate ReadsTheTree(w: World, s: Town) {
    IsBetween(s.poller) ==> w.wouldLand(s.base, s.poller.live.head) == w.wouldLand(s.poller.live.base, s.poller.live.head)
  }

  lemma StepReadsTheTree(w: World, config: Config, s: Town, e: Event)
    requires ReadsTheTree(w, s) && (MovesBase(e) ==> KeepsTheTree(w, s, Step(w, config, s, e)))
    ensures ReadsTheTree(w, Step(w, config, s, e))
  {
  }

  lemma {:induction false} SteadyRunReadsTheTree(w: World, config: Config, s: Town, events: seq<Event>, m: nat, n: nat)
    requires m <= n <= |events| && Steady(w, config, s, events, m, n)
    requires !IsBetween(Run(w, config, s, events[..m]).poller)
    ensures ReadsTheTree(w, Run(w, config, s, events[..n]))
    decreases n
  {
    if m < n {
      SteadyRunReadsTheTree(w, config, s, events, m, n - 1);
      assert events[..n][..n - 1] == events[..n - 1];
      StepReadsTheTree(w, config, Run(w, config, s, events[..n - 1]), events[n - 1]);
    }
  }

  /** The `n`th step of the run is the poll landing the change. */
  ghost predicate PollLands(w: World, config: Config, s: Town, events: seq<Event>, n: nat, pr: string)
    requires n < |events|
  {
    && Run(w, config, s, events[..n]).poller.Cleared?
    && Run(w, config, s, events[..n + 1]).poller.Pressed?
    && Run(w, config, s, events[..n + 1]).poller.pr == pr
  }

  /** The change landed, and critic and adversary signed the very tree, at the very head, in two
      different comments. */
  ghost predicate LandedGraded(config: Config, s: Town, pr: string) {
    && pr in s.prs && s.prs[pr].landed.Some? && !s.prs[pr].open
    && Graded(s.prs[pr].comments, config, pr, s.prs[pr].landed.value.head, s.prs[pr].landed.value.tree)
  }

  lemma PressLandsGraded(w: World, config: Config, s: Town, e: Event)
    requires PollerSound(w, config, s) && ReadsTheTree(w, s) && s.poller.Cleared? && Step(w, config, s, e).poller.Pressed?
    ensures LandedGraded(config, Step(w, config, s, e), s.poller.pr) && Step(w, config, s, e).poller.pr == s.poller.pr
  {
  }

  lemma {:induction false} LandedGradedStays(w: World, config: Config, s: Town, events: seq<Event>, n: nat, pr: string)
    requires n <= |events| && LandedGraded(config, Run(w, config, s, events[..n]), pr)
    ensures LandedGraded(config, Run(w, config, s, events), pr)
    decreases |events|
  {
    if n == |events| {
      assert events[..n] == events;
    } else {
      var before := events[..|events| - 1];
      assert before[..n] == events[..n];
      LandedGradedStays(w, config, s, before, n, pr);
      StepsGrow(w, config, Run(w, config, s, before), events[|events| - 1]);
    }
  }

  /** On every run, a change the poll lands has landed at the tree that critic and adversary signed,
      unless a base move since the poll last held nothing, so since it read this change, changed
      that tree. What happened before, and to other changes, does not matter. */
  lemma SteadyLandingsAreGraded(w: World, config: Config, s: Town, events: seq<Event>, m: nat, n: nat, pr: string)
    requires Starts(s) && m <= n < |events| && PollLands(w, config, s, events, n, pr)
    requires !IsBetween(Run(w, config, s, events[..m]).poller) && Steady(w, config, s, events, m, n)
    ensures LandedGraded(config, Run(w, config, s, events), pr)
  {
    SteadyRunReadsTheTree(w, config, s, events, m, n);
    LandingIsGraded(w, config, s, events, n, pr);
  }

  lemma LandingIsGraded(w: World, config: Config, s: Town, events: seq<Event>, n: nat, pr: string)
    requires Starts(s) && n < |events| && PollLands(w, config, s, events, n, pr)
    requires ReadsTheTree(w, Run(w, config, s, events[..n]))
    ensures LandedGraded(config, Run(w, config, s, events), pr)
  {
    RunIsSound(w, config, s, events[..n]);
    assert events[..n + 1][..n] == events[..n];
    PressLandsGraded(w, config, Run(w, config, s, events[..n]), events[n]);
    LandedGradedStays(w, config, s, events, n + 1, pr);
  }

  /** On every run, a change that landed at a tree the two did not sign closes no bead. */
  lemma UngradedLandingClosesNothing(w: World, config: Config, s: Town, events: seq<Event>, pr: string)
    requires Starts(s) && !LandedGraded(config, Run(w, config, s, events), pr)
    ensures forall c <- Run(w, config, s, events).closures :: c.pr != pr
  {
    RunIsSound(w, config, s, events);
  }

  /** After a press, the bead is closed exactly when nothing was unreadable, the base move did not
      change the tree, one trailer names one bead, and that bead is known to be open. */
  lemma ClosesIff(w: World, config: Config, s: Town, newBase: string, gradedKnown: bool, landedKnown: bool, closes: bool, bead: string)
    requires Lands(w, s)
    ensures var t := Step(w, config, s, Press(true, newBase));
            var u := Step(w, config, t, Reconcile(gradedKnown, landedKnown, closes));
            var live := s.poller.live;
            (exists tree :: u.closures == s.closures + [Closure(bead, s.poller.pr, live.head, live.base, tree)])
            <==> && gradedKnown && landedKnown && closes
                 && w.wouldLand(s.base, live.head) == w.wouldLand(live.base, live.head)
                 && (forall b: string :: IsBeadId(b) && HasTrailer(live.messages, b) <==> b == bead)
                 && bead in s.beads && !s.beads[bead]
  {
    var t := Step(w, config, s, Press(true, newBase));
    var u := Step(w, config, t, Reconcile(gradedKnown, landedKnown, closes));
    var live := s.poller.live;
    OneBeadIffOnlyTrailer(live.messages, bead);
    if gradedKnown && landedKnown && closes && w.wouldLand(s.base, live.head) == w.wouldLand(live.base, live.head)
       && CompletionBeads(live.messages) == [bead] && bead in s.beads && !s.beads[bead] {
      assert u.closures == s.closures + [Closure(bead, s.poller.pr, live.head, live.base, w.wouldLand(live.base, live.head).value)];
    }
    if tree :| u.closures == s.closures + [Closure(bead, s.poller.pr, live.head, live.base, tree)] {
      assert u.closures[|s.closures|].bead == bead;
      assert BeadToClose(live.messages, w.wouldLand(live.base, live.head), Some(t.prs[s.poller.pr].landed.value.tree), t.beads) == Some(bead);
    }
  }

  /** A change held to the trailer of its branch's bead closes that bead or none. */
  lemma ClosesTheBranchBead(w: World, pr: string, live: Live, config: Config, merged: set<string>,
                            graded: Option<string>, landed: Option<string>, beads: map<string, bool>)
    requires Decide(w, pr, live, config, merged) == []
    requires live.bead.Some? && IsBeadId(live.bead.value)
    ensures BeadToClose(live.messages, graded, landed, beads) in {None, live.bead}
  {
    DecisionIsExact(w, pr, live, config, merged);
    GateAndExtractorAgree(live.messages, live.bead.value);
    var named := CompletionBeads(live.messages);
    if |named| == 1 {
      assert named == [named[0]];
    }
  }

  lemma DecideStep(w: World, config: Config, s: Town, unread: set<string>)
    requires s.poller.Fetched? && Decide(w, s.poller.pr, s.poller.live, config, MergedPrs(s.prs) - unread) == []
    ensures Step(w, config, s, DecideNow(false, unread)) == s.(poller := Cleared(s.poller.pr, s.poller.live))
  {
  }

  /** Deciding on a clear change leaves the poll ready to press, and changes nothing else. */
  lemma ClearIsCleared(w: World, config: Config, s: Town, pr: string, unread: set<string>)
    requires s.poller.Idle? && pr in s.prs && Clear(w, pr, LiveOf(s, pr), config, MergedPrs(s.prs) - unread)
    ensures Step(w, config, s.(poller := Fetched(pr, LiveOf(s, pr))), DecideNow(false, unread)) == s.(poller := Cleared(pr, LiveOf(s, pr)))
  {
    var live := LiveOf(s, pr);
    DecisionIsExact(w, pr, live, config, MergedPrs(s.prs) - unread);
    DecideStep(w, config, s.(poller := Fetched(pr, live)), unread);
  }

  /** The change as it stands once it has landed. */
  function Shut(p: Pr, base: string, tree: string): Pr {
    p.(open := false, landed := Some(Landing(p.head, base, tree)))
  }

  /** Left alone, the poll then lands the change at the graded tree and closes its bead: the gate is
      not so strict that nothing passes it. */
  lemma ButtonLandsAndCloses(w: World, config: Config, s: Town, pr: string, live: Live, events: seq<Event>, newBase: string, bead: string, tree: string)
    requires |events| == 4 && events[2] == Press(true, newBase) && events[3] == Reconcile(true, true, true)
    requires pr in s.prs && s.prs[pr].open && live == LiveOf(s, pr) && w.wouldLand(s.base, live.head) == Some(tree)
    requires s.poller.Idle? && Run(w, config, s, events[..2]) == s.(poller := Cleared(pr, live))
    requires forall b: string :: IsBeadId(b) && HasTrailer(live.messages, b) <==> b == bead
    requires bead in s.beads && !s.beads[bead]
    ensures Run(w, config, s, events)
         == s.(base := newBase, beads := s.beads[bead := true], prs := s.prs[pr := Shut(s.prs[pr], s.base, tree)],
               closures := s.closures + [Closure(bead, pr, live.head, s.base, tree)])
  {
    var cleared := s.(poller := Cleared(pr, live));
    var pressed := Step(w, config, cleared, events[2]);
    RunPrefix(w, config, s, events, 2, cleared, pressed);
    CloseStep(w, config, pressed, pr, live, bead, tree);
    RunPrefix(w, config, s, events, 3, pressed, Step(w, config, pressed, events[3]));
    assert events[..4] == events;
  }

  lemma DecidedRun(w: World, config: Config, s: Town, events: seq<Event>, pr: string, live: Live)
    requires s.poller.Idle? && pr in s.prs && live == LiveOf(s, pr)
    requires |events| >= 2 && events[0] == Fetch(pr)
    requires Step(w, config, s.(poller := Fetched(pr, live)), events[1]) == s.(poller := Cleared(pr, live))
    ensures Run(w, config, s, events[..2]) == s.(poller := Cleared(pr, live))
  {
    RunPrefix(w, config, s, events, 0, s, s.(poller := Fetched(pr, live)));
    RunPrefix(w, config, s, events, 1, s.(poller := Fetched(pr, live)), s.(poller := Cleared(pr, live)));
  }

  /** A run that starts by fetching a clear change and deciding on it comes to the button. */
  lemma ClearChangeReachesTheButton(w: World, config: Config, s: Town, pr: string, unread: set<string>, events: seq<Event>)
    requires s.poller.Idle? && pr in s.prs && Clear(w, pr, LiveOf(s, pr), config, MergedPrs(s.prs) - unread)
    requires |events| >= 2 && events[0] == Fetch(pr) && events[1] == DecideNow(false, unread)
    ensures Run(w, config, s, events[..2]) == s.(poller := Cleared(pr, LiveOf(s, pr)))
  {
    ClearIsCleared(w, config, s, pr, unread);
    DecidedRun(w, config, s, events, pr, LiveOf(s, pr));
  }

  lemma CloseStep(w: World, config: Config, s: Town, pr: string, live: Live, bead: string, tree: string)
    requires s.poller == Pressed(pr, live) && pr in s.prs && s.prs[pr].landed.Some? && s.prs[pr].landed.value.tree == tree
    requires w.wouldLand(live.base, live.head) == Some(tree)
    requires forall b: string :: IsBeadId(b) && HasTrailer(live.messages, b) <==> b == bead
    requires bead in s.beads && !s.beads[bead]
    ensures Step(w, config, s, Reconcile(true, true, true))
         == s.(poller := Idle, beads := s.beads[bead := true], closures := s.closures + [Closure(bead, pr, live.head, live.base, tree)])
  {
    OneBeadIffOnlyTrailer(live.messages, bead);
  }

  lemma RunPrefix(w: World, config: Config, s: Town, events: seq<Event>, k: nat, before: Town, after: Town)
    requires k < |events| && Run(w, config, s, events[..k]) == before && Step(w, config, before, events[k]) == after
    ensures Run(w, config, s, events[..k + 1]) == after
  {
    assert events[..k + 1][..k] == events[..k];
  }

  // ---------------------------------------------------------------- a bead is closed once

  ghost predicate Reopens(e: Event) {
    e.SetBead? && !e.closed
  }

  ghost predicate ClosedOnce(s: Town) {
    && (forall c <- s.closures :: c.bead in s.beads && s.beads[c.bead])
    && (forall i, j :: 0 <= i < j < |s.closures| ==> s.closures[i].bead != s.closures[j].bead)
  }

  lemma StepClosesOnce(w: World, config: Config, s: Town, e: Event)
    requires ClosedOnce(s) && !Reopens(e)
    ensures ClosedOnce(Step(w, config, s, e))
  {
    if e.Reconcile? && s.poller.Pressed? {
      ReconcileClosesAnOpenBead(w, s, e.gradedKnown, e.landedKnown, e.closes);
    }
  }

  /** Reconciling closes at most one bead, a known one that was not closed. */
  lemma ReconcileClosesAnOpenBead(w: World, s: Town, gradedKnown: bool, landedKnown: bool, closes: bool)
    requires s.poller.Pressed?
    ensures var t := ReconcileNow(w, s, gradedKnown, landedKnown, closes);
            || (t.closures == s.closures && t.beads == s.beads)
            || (exists c: Closure :: t.closures == s.closures + [c] && c.bead in s.beads && !s.beads[c.bead]
                                     && t.beads == s.beads[c.bead := true])
  {
    var t := ReconcileNow(w, s, gradedKnown, landedKnown, closes);
    if t.closures != s.closures {
      var c := t.closures[|s.closures|];
      assert t.closures == s.closures + [c] && c.bead in s.beads && !s.beads[c.bead] && t.beads == s.beads[c.bead := true];
    }
  }

  /** Unless someone reopens one, no run closes the same bead twice. */
  lemma {:induction false} NoBeadIsClosedTwice(w: World, config: Config, s: Town, events: seq<Event>)
    requires Starts(s) && forall e <- events :: !Reopens(e)
    ensures ClosedOnce(Run(w, config, s, events))
  {
    if events != [] {
      NoBeadIsClosedTwice(w, config, s, events[..|events| - 1]);
      StepClosesOnce(w, config, Run(w, config, s, events[..|events| - 1]), events[|events| - 1]);
    }
  }

  // ---------------------------------------------------------------- a run that lands an ungraded tree

  /** If the base moves between the decision and the press, the poll lands whatever tree the new
      base merges to. */
  lemma BaseMoveLandsTheNewTree(w: World, config: Config, s: Town, pr: string, live: Live, events: seq<Event>, moved: string, newBase: string, tree: string)
    requires |events| == 4 && events[2] == AdvanceBase(moved) && events[3] == Press(true, newBase)
    requires pr in s.prs && s.prs[pr].open && live == LiveOf(s, pr) && w.wouldLand(moved, live.head) == Some(tree)
    requires Run(w, config, s, events[..2]) == s.(poller := Cleared(pr, live))
    ensures Run(w, config, s, events)
         == s.(base := newBase, poller := Pressed(pr, live), prs := s.prs[pr := Shut(s.prs[pr], moved, tree)])
  {
    var cleared := s.(poller := Cleared(pr, live));
    RunPrefix(w, config, s, events, 2, cleared, cleared.(base := moved));
  }

  /** A change approved by both roles at one tree, and ready to land. */
  function Approved(head: string, base: string, tree: string): Town {
    Town(base, map["7" := Pr(head, true, true, [Check("ci", true, true)], [Approval("critic", head, tree), Approval("adversary", head, tree)],
                             [], None, None)], map[], Idle, [])
  }

  function Approval(role: string, head: string, tree: string): Comment {
    Comment(Some("town"), [Ruling(MERGE, Some(head), Some("7"), [], Some(tree), Some(role))])
  }

  const CONFIG := Config(Some({"town"}), ["ci"], {}, None)

  /** The two approvals, as the poll reads them. */
  function Approvals(head: string, tree: string): seq<Verdict> {
    [AsVerdict(Approval("critic", head, tree), 0, Approval("critic", head, tree).rulings[0]),
     AsVerdict(Approval("adversary", head, tree), 1, Approval("adversary", head, tree).rulings[0])]
  }

  lemma ApprovalsAreRead(head: string, tree: string)
    requires |head| == 40 && Lower(head) == head
    ensures Verdicts([Approval("critic", head, tree), Approval("adversary", head, tree)]) == Approvals(head, tree)
    ensures Counted(Approvals(head, tree), head, "7", CONFIG.trusted) == Approvals(head, tree)
  {
    var critic, adversary := Approval("critic", head, tree), Approval("adversary", head, tree);
    assert RulingsOf(critic, 0) == [Approvals(head, tree)[0]];
    assert RulingsOf(adversary, 1) == [Approvals(head, tree)[1]];
    assert Verdicts([critic]) == RulingsOf(critic, 0) by {
      assert [critic][..0] == [];
    }
    assert [critic, adversary][..1] == [critic];
    var vs := Approvals(head, tree);
    assert Counts(vs[0], head, "7", CONFIG.trusted) && Counts(vs[1], head, "7", CONFIG.trusted);
    assert vs == [vs[0]] + [vs[1]];
    CountedConcat([vs[0]], [vs[1]], head, "7", CONFIG.trusted);
  }

  lemma BothReviewed(head: string, tree: string)
    requires tree != "" && tree != "unknown"
    ensures CriticAndAdversary(Approvals(head, tree), Some(tree))
  {
    var vs := Approvals(head, tree);
    assert Authorises(vs[0], Some(tree)) && Authorises(vs[1], Some(tree));
    assert RolesOf(vs, Some(tree), vs[0].comment) == {"critic"};
    assert RolesOf(vs, Some(tree), vs[1].comment) == {"adversary"};
    assert vs[0] in vs && vs[1] in vs;
  }

  lemma ApprovedIsClear(w: World, head: string, base: string, tree: string, merged: set<string>)
    requires |head| == 40 && Lower(head) == head && base != "" && Lower(base) != head
    requires tree != "" && tree != "unknown"
    requires w.wouldLand(base, head) == Some(tree) && w.suiteGreen(tree, base)
    ensures Clear(w, "7", LiveOf(Approved(head, base, tree), "7"), CONFIG, merged)
  {
    ApprovalsAreRead(head, tree);
    BothReviewed(head, tree);
    ApprovedIsGreen();
    ApprovedIsReviewed(head, base, tree, merged);
  }

  lemma ApprovedIsGreen()
    ensures Green(CONFIG.required, [Check("ci", true, true)])
  {
    var checks := [Check("ci", true, true)];
    assert checks[0] in checks && Ran("ci", checks);
  }

  lemma ApprovedIsReviewed(head: string, base: string, tree: string, merged: set<string>)
    requires |head| == 40 && Lower(head) == head
    ensures Reviewed("7", LiveOf(Approved(head, base, tree), "7"), CONFIG, merged)
  {
    ApprovalsAreRead(head, tree);
    assert Approvals(head, tree)[0] in Approvals(head, tree);
  }

  /** So the promise that a raced base cannot land an unreviewed tree fails: for any two bases that
      merge with the head to different trees there is a run, from a change approved at the one
      tree, in which only a base move comes between decision and press, and the other tree lands,
      which nobody signed. */
  lemma BaseMoveLandsAnUngradedTree(w: World, head: string, base: string, tree: string, unread: set<string>, moved: string, other: string,
                                    newBase: string, events: seq<Event>)
    requires |head| == 40 && Lower(head) == head && base != "" && Lower(base) != head
    requires tree != "" && tree != "unknown"
    requires w.wouldLand(base, head) == Some(tree) && w.suiteGreen(tree, base)
    requires w.wouldLand(moved, head) == Some(other) && other != tree
    requires events == [Fetch("7"), DecideNow(false, unread), AdvanceBase(moved), Press(true, newBase)]
    ensures Starts(Approved(head, base, tree))
    ensures var t := Run(w, CONFIG, Approved(head, base, tree), events);
            && "7" in t.prs && t.poller.Pressed?
            && t.prs["7"].landed == Some(Landing(head, moved, other))
            && !LandedGraded(CONFIG, t, "7")
  {
    var s := Approved(head, base, tree);
    ApprovedIsReady(w, head, base, tree, unread, events);
    BaseMoveLandsTheNewTree(w, CONFIG, s, "7", LiveOf(s, "7"), events, moved, newBase, other);
  }

  lemma ApprovedIsReady(w: World, head: string, base: string, tree: string, unread: set<string>, events: seq<Event>)
    requires |head| == 40 && Lower(head) == head && base != "" && Lower(base) != head
    requires tree != "" && tree != "unknown"
    requires w.wouldLand(base, head) == Some(tree) && w.suiteGreen(tree, base)
    requires |events| >= 2 && events[0] == Fetch("7") && events[1] == DecideNow(false, unread)
    ensures var s := Approved(head, base, tree); Run(w, CONFIG, s, events[..2]) == s.(poller := Cleared("7", LiveOf(s, "7")))
  {
    var s := Approved(head, base, tree);
    ApprovedIsClear(w, head, base, tree, MergedPrs(s.prs) - unread);
    ClearChangeReachesTheButton(w, CONFIG, s, "7", unread, events);
  }
}
