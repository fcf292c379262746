/** One pass of the poll's loop (`poll_once` in `scripts/refinery_poll.py`): every open change is
    fetched, decided on, and landed when clear, while the town goes on around it. The pass only ever
    takes steps of the state machine, and its counters add up. */
module PollPass {
  import opened Prelude
  import opened Precheck
  import opened Poll
  import opened PollLaws

  /** What happens around one change in one pass: the events of others before each of the poll's
      steps, and how its calls to git, the forge and the ledger turn out. */
  datatype Turn = Turn(pr: string, beforeFetch: seq<Event>, beforeDecision: seq<Event>, fault: bool, unread: set<string>,
                       beforePress: seq<Event>, accepted: bool, newBase: string,
                       beforeReconcile: seq<Event>, gradedKnown: bool, landedKnown: bool, closes: bool)

  /** A step of someone other than the poll. */
  predicate IsOutside(e: Event) {
    !e.Fetch? && !e.DecideNow? && !e.Press? && !e.Reconcile?
  }

  predicate IsTurn(t: Turn) {
    && (forall e <- t.beforeFetch :: IsOutside(e)) && (forall e <- t.beforeDecision :: IsOutside(e))
    && (forall e <- t.beforePress :: IsOutside(e)) && (forall e <- t.beforeReconcile :: IsOutside(e))
  }

  lemma {:induction false} RunConcat(w: World, config: Config, s: Town, before: seq<Event>, after: seq<Event>)
    ensures Run(w, config, s, before + after) == Run(w, config, Run(w, config, s, before), after)
    decreases |after|
  {
    if after == [] {
      assert before + after == before;
    } else {
      var n := |after| - 1;
      RunConcat(w, config, s, before, after[..n]);
      assert (before + after)[..|before + after| - 1] == before + after[..n];
    }
  }

  /** Others neither move the poll nor close a bead in its name. */
  lemma {:induction false} OutsideLeavesThePoll(w: World, config: Config, s: Town, events: seq<Event>)
    requires forall e <- events :: IsOutside(e)
    ensures var t := Run(w, config, s, events);
            t.poller == s.poller && t.closures == s.closures && forall pr :: pr in s.prs ==> pr in t.prs
  {
    if events != [] {
      OutsideLeavesThePoll(w, config, s, events[..|events| - 1]);
      OutsideStep(w, config, Run(w, config, s, events[..|events| - 1]), events[|events| - 1]);
    }
  }

  lemma OutsideStep(w: World, config: Config, s: Town, e: Event)
    requires IsOutside(e)
    ensures var t := Step(w, config, s, e); t.poller == s.poller && t.closures == s.closures && forall pr :: pr in s.prs ==> pr in t.prs
  {
  }

  /** The town has come from `start` by the trace, and every change of `start` is still there. */
  ghost predicate Came(w: World, config: Config, start: Town, trace: seq<Event>, s: Town) {
    s == Run(w, config, start, trace) && forall pr :: pr in start.prs ==> pr in s.prs
  }

  /** The town after others acted and the poll then took its step. */
  method Advance(w: World, config: Config, start: Town, s: Town, others: seq<Event>, e: Event, ghost before: seq<Event>)
    returns (t: Town, ghost trace: seq<Event>)
    requires Came(w, config, start, before, s) && forall other <- others :: IsOutside(other)
    ensures t == Step(w, config, Run(w, config, s, others), e)
    ensures Came(w, config, start, trace, t)
  {
    RunConcat(w, config, start, before, others);
    OutsideLeavesThePoll(w, config, s, others);
    StepsGrow(w, config, Run(w, config, s, others), e);
    trace := before + others + [e];
    t := Step(w, config, Run(w, config, s, others), e);
  }

  lemma PollsStep(w: World, config: Config, s: Town, e: Event)
    ensures var t := Step(w, config, s, e);
            && (e.Fetch? && s.poller.Idle? && e.pr in s.prs ==> t.poller.Fetched? && t.closures == s.closures)
            && (e.DecideNow? && s.poller.Fetched? ==> (t.poller.Cleared? || t.poller.Idle?) && t.closures == s.closures)
            && (e.Press? && s.poller.Cleared? ==> (t.poller.Idle? || (t.poller.Pressed? && e.accepted)) && t.closures == s.closures)
            && (e.Reconcile? && s.poller.Pressed? ==> t.poller.Idle? && s.closures <= t.closures && |t.closures| <= |s.closures| + 1)
  {
  }

  /** Fetches the change and decides on it. */
  method Consider(w: World, config: Config, start: Town, s: Town, turn: Turn, ghost before: seq<Event>)
    returns (t: Town, ghost trace: seq<Event>)
    requires Came(w, config, start, before, s) && s.poller.Idle? && turn.pr in s.prs && IsTurn(turn)
    ensures Came(w, config, start, trace, t) && (t.poller.Cleared? || t.poller.Idle?) && t.closures == s.closures
  {
    OutsideLeavesThePoll(w, config, s, turn.beforeFetch);
    PollsStep(w, config, Run(w, config, s, turn.beforeFetch), Fetch(turn.pr));
    t, trace := Advance(w, config, start, s, turn.beforeFetch, Fetch(turn.pr), before);
    OutsideLeavesThePoll(w, config, t, turn.beforeDecision);
    PollsStep(w, config, Run(w, config, t, turn.beforeDecision), DecideNow(turn.fault, turn.unread));
    t, trace := Advance(w, config, start, t, turn.beforeDecision, DecideNow(turn.fault, turn.unread), trace);
  }

  /** Presses the button on a cleared change and, if it lands, reconciles. In a dry run the button
      is not pressed. */
  method LandAndReconcile(w: World, config: Config, start: Town, s: Town, dryRun: bool, turn: Turn, ghost before: seq<Event>)
    returns (t: Town, landed: bool, ghost trace: seq<Event>)
    requires Came(w, config, start, before, s) && s.poller.Cleared? && IsTurn(turn)
    ensures Came(w, config, start, trace, t) && t.poller.Idle?
    ensures dryRun ==> !landed
    ensures s.closures <= t.closures && |t.closures| <= |s.closures| + if landed then 1 else 0
  {
    var press := Press(turn.accepted && !dryRun, turn.newBase);
    OutsideLeavesThePoll(w, config, s, turn.beforePress);
    PollsStep(w, config, Run(w, config, s, turn.beforePress), press);
    t, trace := Advance(w, config, start, s, turn.beforePress, press, before);
    landed := t.poller.Pressed?;
    if landed {
      var reconcile := Reconcile(turn.gradedKnown, turn.landedKnown, turn.closes);
      OutsideLeavesThePoll(w, config, t, turn.beforeReconcile);
      PollsStep(w, config, Run(w, config, t, turn.beforeReconcile), reconcile);
      t, trace := Advance(w, config, start, t, turn.beforeReconcile, reconcile, trace);
    }
  }

  /** `poll_once`: the town after the pass and the pass's counters. Every change is counted once, as
      cleared or as skipped; only a cleared one lands; and each bead closed is owed to a landing. */
  method PollOnce(w: World, config: Config, start: Town, dryRun: bool, turns: seq<Turn>)
    returns (after: Town, considered: nat, wouldMerge: nat, merged: nat, skipped: nat, ghost trace: seq<Event>)
    requires start.poller.Idle?
    requires forall turn <- turns :: turn.pr in start.prs && IsTurn(turn)
    ensures after == Run(w, config, start, trace) && after.poller.Idle?
    ensures considered == |turns| == wouldMerge + skipped && merged <= wouldMerge
    ensures start.closures <= after.closures && |after.closures| <= |start.closures| + merged
    ensures dryRun ==> merged == 0 && after.closures == start.closures
  {
    after, trace := start, [];
    considered, wouldMerge, merged, skipped := 0, 0, 0, 0;
    for i := 0 to |turns|
      invariant Came(w, config, start, trace, after) && after.poller.Idle?
      invariant considered == i == wouldMerge + skipped && merged <= wouldMerge
      invariant start.closures <= after.closures && |after.closures| <= |start.closures| + merged
      invariant dryRun ==> merged == 0
    {
      assert turns[i] in turns;
      considered := considered + 1;
      after, trace := Consider(w, config, start, after, turns[i], trace);
      if after.poller.Cleared? {
        wouldMerge := wouldMerge + 1;
        var landed;
        after, landed, trace := LandAndReconcile(w, config, start, after, dryRun, turns[i], trace);
        if landed {
          merged := merged + 1;
        }
      } else {
        skipped := skipped + 1;
      }
    }
  }
}
