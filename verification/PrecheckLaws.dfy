/** What the precheck's reasons mean: when there are none, whom a merge is authorised by, which
    verdicts can matter, and that the trailer gate and the trailer reader agree. */
module PrecheckLaws {
  import opened Prelude
  import opened Precheck

  // ---------------------------------------------------------------- counted verdicts

  lemma {:induction false} CountedConcat(vs: seq<Verdict>, us: seq<Verdict>, head: string, pr: string, trusted: Option<set<string>>)
    ensures Counted(vs + us, head, pr, trusted) == Counted(vs, head, pr, trusted) + Counted(us, head, pr, trusted)
  {
    if vs == [] {
      assert vs + us == us;
    } else {
      CountedConcat(vs[1..], us, head, pr, trusted);
      CountedTakesOne(vs + us, vs[0], vs[1..] + us, head, pr, trusted);
      CountedTakesOne(vs, vs[0], vs[1..], head, pr, trusted);
    }
  }

  lemma CountedTakesOne(vs: seq<Verdict>, first: Verdict, later: seq<Verdict>, head: string, pr: string, trusted: Option<set<string>>)
    requires vs != [] && vs[0] == first && vs[1..] == later
    ensures Counted(vs, head, pr, trusted)
         == (if Counts(first, head, pr, trusted) then [first] else []) + Counted(later, head, pr, trusted)
  {
  }

  /** A verdict that is untrusted, or names another change or another head, is as good as absent. */
  lemma UncountedIsAbsent(before: seq<Verdict>, v: Verdict, after: seq<Verdict>, head: string, pr: string, trusted: Option<set<string>>)
    requires !Counts(v, head, pr, trusted)
    ensures Counted(before + [v] + after, head, pr, trusted) == Counted(before + after, head, pr, trusted)
  {
    CountedConcat(before + [v], after, head, pr, trusted);
    CountedConcat(before, [v], head, pr, trusted);
    CountedConcat(before, after, head, pr, trusted);
    assert Counted([v], head, pr, trusted) == [];
  }

  // ---------------------------------------------------------------- a clear precheck

  ghost predicate Ran(name: string, checks: seq<Check>) {
    exists c <- checks :: c.name == name
  }

  ghost predicate Green(required: seq<string>, checks: seq<Check>) {
    && (forall n <- required :: Ran(n, checks))
    && checks != []
    && (forall c <- checks :: c.completed && c.success)
  }

  ghost predicate Reviewed(pr: string, live: Live, config: Config, merged: set<string>) {
    var counted := Counted(live.verdicts, live.head, pr, config.trusted);
    && config.trusted.Some?
    && (exists v <- counted :: v.word == MERGE)
    && (forall v <- counted :: !Rejects(v))
    && (forall v <- counted | v.word == MERGE :: forall c <- v.constraints :: Honoured(c, merged, config.acknowledged))
  }

  ghost predicate Pinned(live: Live) {
    && live.head != ""
    && (live.base != "" ==> Lower(live.head) != Lower(live.base))
    && (live.bead.Some? ==> HasTrailer(live.messages, live.bead.value))
  }

  lemma {:induction false} NoRequiredReason(required: seq<string>, checks: seq<Check>)
    ensures RequiredReasons(required, checks) == [] <==> forall n <- required :: Ran(n, checks)
  {
    if required != [] {
      var last := required[|required| - 1];
      NoRequiredReason(required[..|required| - 1], checks);
      assert required == required[..|required| - 1] + [last];
      assert Ran(last, checks) <==> exists c <- checks :: c.name == last;
      assert RequiredReasons(required, checks) == [] <==> RequiredReasons(required[..|required| - 1], checks) == [] && Ran(last, checks);
    }
  }

  lemma {:induction false} NoCheckReason(checks: seq<Check>)
    ensures CheckReasons(checks) == [] <==> forall c <- checks :: c.completed && c.success
  {
    if checks != [] {
      NoCheckReason(checks[..|checks| - 1]);
      assert checks == checks[..|checks| - 1] + [checks[|checks| - 1]];
    }
  }

  lemma {:induction false} NoConstraintReason(cs: seq<Constraint>, merged: set<string>, acknowledged: set<string>)
    ensures ConstraintReasons(cs, merged, acknowledged) == [] <==> forall c <- cs :: Honoured(c, merged, acknowledged)
  {
    if cs != [] {
      NoConstraintReason(cs[..|cs| - 1], merged, acknowledged);
      assert cs == cs[..|cs| - 1] + [cs[|cs| - 1]];
    }
  }

  /** No constraint of a counted MERGE verdict is dropped, and none comes from anywhere else. */
  lemma {:induction false} MergeConstraintsAreComplete(counted: seq<Verdict>, c: Constraint)
    ensures c in MergeConstraints(counted) <==> exists v <- counted :: v.word == MERGE && c in v.constraints
  {
    if counted != [] {
      MergeConstraintsAreComplete(counted[..|counted| - 1], c);
      assert counted == counted[..|counted| - 1] + [counted[|counted| - 1]];
    }
  }

  lemma NoReviewReason(pr: string, live: Live, config: Config, merged: set<string>)
    ensures ReviewReasons(pr, live, config, merged) == [] <==> Reviewed(pr, live, config, merged)
  {
    var counted := Counted(live.verdicts, live.head, pr, config.trusted);
    NoConstraintReason(MergeConstraints(counted), merged, config.acknowledged);
    forall c: Constraint
      ensures c in MergeConstraints(counted) <==> exists v <- counted :: v.word == MERGE && c in v.constraints
    {
      MergeConstraintsAreComplete(counted, c);
    }
  }

  /** The precheck is clear exactly when the pin, the trailer, the checks and the review all are. */
  lemma PrecheckIsExact(pr: string, live: Live, config: Config, merged: set<string>)
    ensures Evaluate(pr, live, config, merged) == []
       <==> Pinned(live) && Green(config.required, live.checks) && Reviewed(pr, live, config, merged)
  {
    NoRequiredReason(config.required, live.checks);
    NoCheckReason(live.checks);
    NoReviewReason(pr, live, config, merged);
  }

  /** The residue is a note on a block, never a block of its own: a voided rejection does not
      outweigh a fresh approval. */
  lemma StaleVerdictsDoNotBlock(pr: string, live: Live, v: Verdict, config: Config, merged: set<string>)
    requires Stale(v, live.head, pr, config.trusted)
    ensures Evaluate(pr, live.(verdicts := live.verdicts + [v]), config, merged) == []
       <==> Evaluate(pr, live, config, merged) == []
  {
    UncountedIsAbsent(live.verdicts, v, [], live.head, pr, config.trusted);
    assert live.verdicts + [v] + [] == live.verdicts + [v] && live.verdicts + [] == live.verdicts;
    PrecheckIsExact(pr, live, config, merged);
    PrecheckIsExact(pr, live.(verdicts := live.verdicts + [v]), config, merged);
  }

  // ---------------------------------------------------------------- two roles, two comments

  /** One comment names the critic and nothing else, another the adversary and nothing else. */
  ghost predicate CriticAndAdversary(counted: seq<Verdict>, wouldLand: Option<string>) {
    exists v <- counted, u <- counted ::
      && RolesOf(counted, wouldLand, v.comment) == {"critic"}
      && RolesOf(counted, wouldLand, u.comment) == {"adversary"}
  }

  lemma TwoOfTwo(s: set<string>)
    requires s <= APPROVAL_ROLES
    ensures |s| <= 2
    ensures |s| == 2 <==> s == APPROVAL_ROLES
  {
    if "critic" in s {
      if "adversary" in s {
        assert s == {"critic", "adversary"};
      } else {
        assert s == {"critic"};
      }
    } else if "adversary" in s {
      assert s == {"adversary"};
    } else {
      assert s == {};
    }
    assert "critic" != "adversary" by {
      assert |"critic"| == 6 && |"adversary"| == 9;
    }
  }

  /** Two distinct roles authorise exactly when critic and adversary each speak alone in a comment
      of their own, and no configuration can be met by more. */
  lemma AuthorisedIffCriticAndAdversary(counted: seq<Verdict>, wouldLand: Option<string>)
    ensures |AuthorisersIn(counted, wouldLand)| <= 2
    ensures |AuthorisersIn(counted, wouldLand)| == 2 <==> CriticAndAdversary(counted, wouldLand)
  {
    var roles := AuthorisersIn(counted, wouldLand);
    TwoOfTwo(roles);
    assert roles == APPROVAL_ROLES <==> "critic" in roles && "adversary" in roles;
  }

  /** A comment whose qualifying verdicts name both roles lends neither. */
  lemma OneCommentIsNotTwo(counted: seq<Verdict>, wouldLand: Option<string>, comment: nat)
    requires forall v <- counted | Authorises(v, wouldLand) :: v.comment == comment
    ensures |AuthorisersIn(counted, wouldLand)| <= 1
  {
    AuthorisedIffCriticAndAdversary(counted, wouldLand);
    forall v, u | v in counted && u in counted && RolesOf(counted, wouldLand, v.comment) == {"critic"}
      ensures RolesOf(counted, wouldLand, u.comment) != {"adversary"}
    {
      assert "critic" in RolesOf(counted, wouldLand, v.comment) && |"critic"| != |"adversary"|;
      if u.comment != comment {
        assert RolesOf(counted, wouldLand, u.comment) == {};
      }
    }
  }

  // ---------------------------------------------------------------- trailers

  lemma {:induction false} AddBeadsAddsTheNamed(lines: seq<string>, seen: seq<string>, bead: string)
    ensures bead in AddBeads(lines, seen) <==> bead in seen || exists line <- lines :: TrailerOf(line) == Some(bead)
    decreases |lines|
  {
    if lines != [] {
      var first := TrailerOf(lines[0]);
      AddBeadsAddsTheNamed(lines[1..], if first.None? || first.value in seen then seen else seen + [first.value], bead);
      assert lines == [lines[0]] + lines[1..];
    }
  }

  lemma NamedInLines(lines: seq<string>, bead: string)
    ensures (exists line <- lines :: TrailerOf(line) == Some(bead)) <==> IsBeadId(bead) && TRAILER + bead in lines
  {
    forall line | line in lines
      ensures TrailerOf(line) == Some(bead) <==> IsBeadId(bead) && line == TRAILER + bead
    {
    }
  }

  lemma {:induction false} BeadsFromNames(messages: seq<string>, seen: seq<string>, bead: string)
    ensures bead in BeadsFrom(messages, seen) <==> bead in seen || (IsBeadId(bead) && HasTrailer(messages, bead))
    decreases |messages|
  {
    if messages != [] {
      BeadsFromNames(messages[1..], AddBeads(Lines(messages[0]), seen), bead);
      AddBeadsAddsTheNamed(Lines(messages[0]), seen, bead);
      NamedInLines(Lines(messages[0]), bead);
      assert messages == [messages[0]] + messages[1..];
    }
  }

  /** The extractor names a bead exactly when the gate would find its trailer. */
  lemma GateAndExtractorAgree(messages: seq<string>, bead: string)
    ensures bead in CompletionBeads(messages) <==> IsBeadId(bead) && HasTrailer(messages, bead)
  {
    BeadsFromNames(messages, [], bead);
  }

  ghost predicate Distinct(s: seq<string>) {
    forall i, j :: 0 <= i < j < |s| ==> s[i] != s[j]
  }

  lemma {:induction false} AddBeadsKeepsDistinct(lines: seq<string>, seen: seq<string>)
    requires Distinct(seen)
    ensures Distinct(AddBeads(lines, seen))
    decreases |lines|
  {
    if lines != [] {
      var first := TrailerOf(lines[0]);
      AddBeadsKeepsDistinct(lines[1..], if first.None? || first.value in seen then seen else seen + [first.value]);
    }
  }

  lemma {:induction false} BeadsFromAreDistinct(messages: seq<string>, seen: seq<string>)
    requires Distinct(seen)
    ensures Distinct(BeadsFrom(messages, seen))
    decreases |messages|
  {
    if messages != [] {
      AddBeadsKeepsDistinct(Lines(messages[0]), seen);
      BeadsFromAreDistinct(messages[1..], AddBeads(Lines(messages[0]), seen));
    }
  }

  /** Exactly one bead is listed just when one bead, however often, is named by a trailer. */
  lemma OneBeadIffOnlyTrailer(messages: seq<string>, bead: string)
    ensures CompletionBeads(messages) == [bead]
       <==> forall b: string :: IsBeadId(b) && HasTrailer(messages, b) <==> b == bead
  {
    var beads := CompletionBeads(messages);
    BeadsFromAreDistinct(messages, []);
    forall b: string
      ensures b in beads <==> IsBeadId(b) && HasTrailer(messages, b)
    {
      GateAndExtractorAgree(messages, b);
    }
    if forall b: string :: IsBeadId(b) && HasTrailer(messages, b) <==> b == bead {
      OnlyElement(beads, bead);
    }
  }

  lemma OnlyElement(beads: seq<string>, bead: string)
    requires Distinct(beads) && forall b: string :: b in beads <==> b == bead
    ensures beads == [bead]
  {
    assert bead in beads;
    forall i | 0 <= i < |beads|
      ensures beads[i] == bead
    {
      assert beads[i] in beads;
    }
    assert beads[0] == beads[|beads| - 1];
  }
}
