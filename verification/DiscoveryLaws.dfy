/** The ranking is one order on the estate, and a proposal is a fact about that estate: neither the
    serving bound, nor the order the sources came in, nor freshness can make one. */
module DiscoveryLaws {
  import opened Prelude
  import opened Discovery

  // ---------------------------------------------------------------- a total order

  lemma {:induction false} LeqIsTotal(a: seq<int>, b: seq<int>)
    ensures Leq(a, b) || Leq(b, a)
    decreases |a|
  {
    if a != [] && b != [] && a[0] == b[0] {
      LeqIsTotal(a[1..], b[1..]);
    }
  }

  lemma {:induction false} LeqIsTransitive(a: seq<int>, b: seq<int>, c: seq<int>)
    requires Leq(a, b) && Leq(b, c)
    ensures Leq(a, c)
    decreases |a|
  {
    if a != [] && a[0] == b[0] == c[0] {
      LeqIsTransitive(a[1..], b[1..], c[1..]);
    }
  }

  lemma {:induction false} LeqIsAntisymmetric(a: seq<int>, b: seq<int>)
    requires Leq(a, b) && Leq(b, a)
    ensures a == b
    decreases |a|
  {
    if a != [] {
      LeqIsAntisymmetric(a[1..], b[1..]);
      assert a == [a[0]] + a[1..] && b == [b[0]] + b[1..];
    }
  }

  /** Two candidates with the same key have the same ref. */
  lemma KeyNamesTheRef(c: Candidate, d: Candidate)
    requires Key(c) == Key(d)
    ensures c.source.ref == d.source.ref
  {
    var r, t := c.source.ref, d.source.ref;
    assert Key(c)[7..] == Codes(r) && Key(d)[7..] == Codes(t);
    assert |Codes(r)| == |r| && |Codes(t)| == |t|;
    forall i | 0 <= i < |r|
      ensures r[i] == t[i]
    {
      assert Codes(r)[i] == Codes(t)[i];
    }
  }

  // ---------------------------------------------------------------- the ranking is the sorted estate

  ghost predicate Sorted(cs: seq<Candidate>) {
    forall i, j :: 0 <= i < j < |cs| ==> Leq(Key(cs[i]), Key(cs[j]))
  }

  lemma {:induction false} PlaceKeepsAll(ranked: seq<Candidate>, c: Candidate)
    ensures multiset(Place(ranked, c)) == multiset(ranked) + multiset{c}
  {
    if !(ranked == [] || Leq(Key(ranked[|ranked| - 1]), Key(c))) {
      PlaceKeepsAll(ranked[..|ranked| - 1], c);
      assert ranked == ranked[..|ranked| - 1] + [ranked[|ranked| - 1]];
    }
  }

  lemma {:induction false} PlaceKeepsSorted(ranked: seq<Candidate>, c: Candidate)
    requires Sorted(ranked)
    ensures Sorted(Place(ranked, c))
  {
    if ranked == [] {
    } else if Leq(Key(ranked[|ranked| - 1]), Key(c)) {
      forall i | 0 <= i < |ranked|
        ensures Leq(Key(ranked[i]), Key(c))
      {
        if i < |ranked| - 1 {
          LeqIsTransitive(Key(ranked[i]), Key(ranked[|ranked| - 1]), Key(c));
        }
      }
    } else {
      var before, last := ranked[..|ranked| - 1], ranked[|ranked| - 1];
      PlaceKeepsSorted(before, c);
      PlaceKeepsAll(before, c);
      LeqIsTotal(Key(last), Key(c));
      forall i | 0 <= i < |Place(before, c)|
        ensures Leq(Key(Place(before, c)[i]), Key(last))
      {
        assert Place(before, c)[i] in multiset(Place(before, c));
        if Place(before, c)[i] != c {
          assert Place(before, c)[i] in before;
        }
      }
    }
  }

  /** The ranking holds every candidate once, in key order. */
  lemma {:induction false} RankedIsSorted(cs: seq<Candidate>)
    ensures Sorted(Ranked(cs)) && multiset(Ranked(cs)) == multiset(cs)
  {
    if cs != [] {
      RankedIsSorted(cs[..|cs| - 1]);
      PlaceKeepsSorted(Ranked(cs[..|cs| - 1]), cs[|cs| - 1]);
      PlaceKeepsAll(Ranked(cs[..|cs| - 1]), cs[|cs| - 1]);
      assert cs == cs[..|cs| - 1] + [cs[|cs| - 1]];
    }
  }

  ghost predicate DistinctRefs(cs: seq<Candidate>) {
    forall i, j :: 0 <= i < j < |cs| ==> cs[i].source.ref != cs[j].source.ref
  }

  /** The first of a sorted list is the least of its members. */
  lemma FirstIsLeast(cs: seq<Candidate>, c: Candidate)
    requires Sorted(cs) && c in cs
    ensures Leq(Key(cs[0]), Key(c))
  {
    LeqIsTotal(Key(c), Key(c));
  }

  /** With distinct refs there is one sorted list of given members. */
  lemma {:induction false} SortedIsUnique(cs: seq<Candidate>, ds: seq<Candidate>)
    requires Sorted(cs) && Sorted(ds) && multiset(cs) == multiset(ds) && DistinctRefs(cs)
    ensures cs == ds
    decreases |cs|
  {
    assert |multiset(cs)| == |cs| && |multiset(ds)| == |ds|;
    if cs != [] {
      SameFirst(cs, ds);
      RestsAlike(cs, ds);
      SortedIsUnique(cs[1..], ds[1..]);
      assert cs == [cs[0]] + cs[1..] && ds == [ds[0]] + ds[1..];
    }
  }

  lemma RestsAlike(cs: seq<Candidate>, ds: seq<Candidate>)
    requires cs != [] && ds != [] && cs[0] == ds[0] && multiset(cs) == multiset(ds)
    ensures multiset(cs[1..]) == multiset(ds[1..])
  {
    assert cs == [cs[0]] + cs[1..] && ds == [ds[0]] + ds[1..];
    assert multiset(cs[1..]) == multiset(cs) - multiset{cs[0]};
    assert multiset(ds[1..]) == multiset(ds) - multiset{ds[0]};
  }

  lemma SameFirst(cs: seq<Candidate>, ds: seq<Candidate>)
    requires Sorted(cs) && Sorted(ds) && multiset(cs) == multiset(ds) && DistinctRefs(cs) && cs != [] && ds != []
    ensures cs[0] == ds[0]
  {
    assert cs[0] in multiset(ds) && ds[0] in multiset(cs);
    FirstIsLeast(cs, ds[0]);
    FirstIsLeast(ds, cs[0]);
    LeqIsAntisymmetric(Key(cs[0]), Key(ds[0]));
    KeyNamesTheRef(cs[0], ds[0]);
  }

  /** The ranking does not depend on the order the sources came in. */
  lemma RankingIgnoresInputOrder(cs: seq<Candidate>, ds: seq<Candidate>)
    requires multiset(cs) == multiset(ds) && DistinctRefs(Ranked(cs))
    ensures Ranked(cs) == Ranked(ds)
  {
    RankedIsSorted(cs);
    RankedIsSorted(ds);
    SortedIsUnique(Ranked(cs), Ranked(ds));
  }

  // ---------------------------------------------------------------- what the order says

  /** Lists in order agree up to a position that is in order too. */
  lemma {:induction false} LeqAt(a: seq<int>, b: seq<int>, k: nat)
    requires Leq(a, b) && k < |a| && k < |b| && a[..k] == b[..k]
    ensures a[k] <= b[k]
    decreases k
  {
    if k > 0 {
      assert a[0] == a[..k][0] && b[0] == b[..k][0];
      assert a[1..][..k - 1] == a[..k][1..] && b[1..][..k - 1] == b[..k][1..];
      LeqAt(a[1..], b[1..], k - 1);
    }
  }

  /** A prohibited source always carries the prohibition as a disagreement. */
  ghost predicate Consistent(cs: seq<Candidate>) {
    forall c <- cs :: c.prohibited ==> !Clean(c)
  }

  /** In key order, tiers rise, and among clean candidates the pair never does. */
  lemma KeyOrders(c: Candidate, d: Candidate)
    requires Leq(Key(c), Key(d))
    ensures Tier(c) <= Tier(d)
    ensures Clean(c) && Clean(d) && !c.prohibited && !d.prohibited ==> !Above(d, c)
  {
    var a, b := Key(c), Key(d);
    assert a[..0] == b[..0];
    LeqAt(a, b, 0);
    if a[0] == b[0] && a[1] == b[1] {
      assert a[..2] == [a[0], a[1]] && b[..2] == [b[0], b[1]];
      LeqAt(a, b, 2);
      if a[2] == b[2] {
        assert a[..3] == [a[0], a[1], a[2]] && b[..3] == [b[0], b[1], b[2]];
        LeqAt(a, b, 3);
      }
    }
  }

  /** Every clean candidate stands above every disagreeing one, and an undecided disagreement above
      a decided one, whatever their signals. */
  lemma DisagreementSinks(cs: seq<Candidate>, i: nat, j: nat)
    requires i < j < |Ranked(cs)|
    ensures Tier(Ranked(cs)[i]) <= Tier(Ranked(cs)[j])
    ensures Clean(Ranked(cs)[j]) ==> Clean(Ranked(cs)[i])
  {
    RankedIsSorted(cs);
    KeyOrders(Ranked(cs)[i], Ranked(cs)[j]);
  }

  // ---------------------------------------------------------------- when a proposal is made

  /** Clean candidates come first, and the pair never rises among them. */
  ghost predicate Ladder(cs: seq<Candidate>) {
    forall i, j :: 0 <= i < j < |cs| && Clean(cs[j]) ==> Clean(cs[i]) && !Above(cs[j], cs[i])
  }

  lemma RankedIsALadder(cs: seq<Candidate>)
    requires Consistent(cs)
    ensures Ladder(Ranked(cs))
  {
    var ranked := Ranked(cs);
    RankedIsSorted(cs);
    forall i, j | 0 <= i < j < |ranked| && Clean(ranked[j])
      ensures Clean(ranked[i]) && !Above(ranked[j], ranked[i])
    {
      assert ranked[i] in multiset(ranked) && ranked[j] in multiset(ranked);
      KeyOrders(ranked[i], ranked[j]);
    }
  }

  lemma InOrder(ranked: seq<Candidate>, i: nat, j: nat)
    requires Ladder(ranked) && i < j < |ranked|
    ensures Clean(ranked[j]) ==> Clean(ranked[i]) && !Above(ranked[j], ranked[i])
  {
  }

  /** The candidate is clean, Git engages it, and it is strictly ahead of every other clean one. */
  ghost predicate StandsOut(cs: seq<Candidate>, i: nat) {
    && i < |cs| && Clean(cs[i]) && Engaged(cs[i])
    && forall j :: 0 <= j < |cs| && j != i && Clean(cs[j]) ==> Above(cs[i], cs[j])
  }

  lemma {:induction false} FirstCleanIs(cs: seq<Candidate>)
    ensures FirstClean(cs).None? ==> forall c <- cs :: !Clean(c)
    ensures FirstClean(cs).Some? ==> exists k :: 0 <= k < |cs| && cs[k] == FirstClean(cs).value && Clean(cs[k])
                                                 && forall j :: 0 <= j < k ==> !Clean(cs[j])
  {
    if cs != [] && !Clean(cs[0]) {
      FirstCleanIs(cs[1..]);
      if FirstClean(cs[1..]).Some? {
        var k :| 0 <= k < |cs[1..]| && cs[1..][k] == FirstClean(cs).value && Clean(cs[1..][k]) && forall j :: 0 <= j < k ==> !Clean(cs[1..][j]);
        assert cs[k + 1] == cs[1..][k];
        forall j | 0 <= j < k + 1
          ensures !Clean(cs[j])
        {
          assert j == 0 || cs[j] == cs[1..][j - 1];
        }
      }
    }
  }

  /** The best clean candidate after the first: its place, or that there is none. */
  lemma RunnerUp(ranked: seq<Candidate>) returns (k: nat)
    requires Ladder(ranked) && ranked != []
    ensures FirstClean(ranked[1..]).None? ==> forall j :: 1 <= j < |ranked| ==> !Clean(ranked[j])
    ensures FirstClean(ranked[1..]).Some? ==> 1 <= k < |ranked| && ranked[k] == FirstClean(ranked[1..]).value && Clean(ranked[k])
                                              && forall j :: 1 <= j < |ranked| && Clean(ranked[j]) ==> !Above(ranked[j], ranked[k])
  {
    var rest := ranked[1..];
    FirstCleanIs(rest);
    k := 0;
    if FirstClean(rest).None? {
      forall j | 1 <= j < |ranked|
        ensures !Clean(ranked[j])
      {
        assert ranked[j] == rest[j - 1];
      }
    } else {
      var p :| 0 <= p < |rest| && rest[p] == FirstClean(rest).value && Clean(rest[p]) && forall j :: 0 <= j < p ==> !Clean(rest[j]);
      k := p + 1;
      forall j | 1 <= j < |ranked| && Clean(ranked[j])
        ensures !Above(ranked[j], ranked[k])
      {
        assert ranked[j] == rest[j - 1];
        if k < j {
          InOrder(ranked, k, j);
        }
      }
    }
  }

  lemma OnlyTheFirstStandsOut(ranked: seq<Candidate>, i: nat)
    requires Ladder(ranked) && StandsOut(ranked, i)
    ensures i == 0
  {
    if i > 0 {
      InOrder(ranked, 0, i);
    }
  }

  /** A proposal is made exactly when a domain governs the question, something is served, and one
      candidate stands out; it is that candidate, and some signal separated it. */
  lemma ProposedIffStandsOut(ranked: seq<Candidate>, served: nat, configured: bool)
    requires Ladder(ranked)
    ensures var p := Propose(ranked, served, configured);
            && (p.Proposed? <==> configured && served > 0 && exists i: nat :: StandsOut(ranked, i))
            && (p.Proposed? ==> p.basis != [] && forall i: nat :: StandsOut(ranked, i) ==> ranked[i].source.ref == p.ref)
  {
    if ranked != [] {
      var k := RunnerUp(ranked);
      forall i: nat | StandsOut(ranked, i)
        ensures i == 0
      {
        OnlyTheFirstStandsOut(ranked, i);
      }
      if Propose(ranked, served, configured).Proposed? {
        FirstStandsOut(ranked, k);
      }
    }
  }

  lemma FirstStandsOut(ranked: seq<Candidate>, k: nat)
    requires Ladder(ranked) && ranked != [] && Clean(ranked[0]) && Engaged(ranked[0])
    requires (forall j :: 1 <= j < |ranked| ==> !Clean(ranked[j]))
          || (1 <= k < |ranked| && Above(ranked[0], ranked[k])
              && forall j :: 1 <= j < |ranked| && Clean(ranked[j]) ==> !Above(ranked[j], ranked[k]))
    ensures StandsOut(ranked, 0)
  {
  }

  /** No clean candidate. */
  ghost predicate AllDisagree(cs: seq<Candidate>) {
    forall c <- cs :: !Clean(c)
  }

  /** Two clean candidates Git engages equally, and more than any other clean one. */
  ghost predicate TiedAtTheTop(cs: seq<Candidate>) {
    exists i, j ::
      && 0 <= i < j < |cs| && Clean(cs[i]) && Clean(cs[j]) && Engaged(cs[i])
      && cs[i].engagement == cs[j].engagement && cs[i].agreements == cs[j].agreements
      && forall d <- cs :: Clean(d) ==> !Above(d, cs[i])
  }

  /** Each decline means what it is called. */
  lemma DeclinesAreExact(ranked: seq<Candidate>, served: nat, configured: bool)
    requires Ladder(ranked) && ranked != []
    ensures var p := Propose(ranked, served, configured);
            && (p == Declined(NoGoverningDomain) <==> !configured)
            && (p == Declined(EveryCandidateDisagrees) <==> configured && served > 0 && AllDisagree(ranked))
            && (p == Declined(NoGitRelativeSignal) <==>
                  configured && (served == 0 || (!AllDisagree(ranked) && forall c <- ranked :: Clean(c) ==> !Engaged(c))))
            && (p == Declined(NotSeparated) <==> configured && served > 0 && TiedAtTheTop(ranked))
  {
    forall j | 0 < j < |ranked|
      ensures Clean(ranked[j]) ==> Clean(ranked[0]) && !Above(ranked[j], ranked[0])
    {
      InOrder(ranked, 0, j);
    }
    assert AllDisagree(ranked) <==> !Clean(ranked[0]) by {
      assert ranked[0] in ranked;
    }
    if Clean(ranked[0]) {
      TieIsNotSeparated(ranked);
      assert (forall c <- ranked :: Clean(c) ==> !Engaged(c)) <==> !Engaged(ranked[0]) by {
        assert ranked[0] in ranked;
      }
    } else {
      assert !TiedAtTheTop(ranked);
    }
  }

  lemma TieIsNotSeparated(ranked: seq<Candidate>)
    requires Ladder(ranked) && ranked != [] && Clean(ranked[0])
    ensures var runnerUp := FirstClean(ranked[1..]);
            TiedAtTheTop(ranked) <==> Engaged(ranked[0]) && runnerUp.Some? && !Above(ranked[0], runnerUp.value)
  {
    var k := RunnerUp(ranked);
    assert ranked[0] in ranked;
    forall j | 0 < j < |ranked|
      ensures Clean(ranked[j]) ==> !Above(ranked[j], ranked[0])
    {
      InOrder(ranked, 0, j);
    }
    if Engaged(ranked[0]) && FirstClean(ranked[1..]).Some? && !Above(ranked[0], ranked[k]) {
      assert 0 <= 0 < k < |ranked|;
      assert TiedAtTheTop(ranked);
    }
    if TiedAtTheTop(ranked) {
    }
  }

  // ---------------------------------------------------------------- what a proposal depends on

  /** `d` is `c` as far as a proposal goes. */
  ghost predicate SameGit(c: Candidate, d: Candidate) {
    d.source.ref == c.source.ref && d.engagement == c.engagement && d.agreements == c.agreements
  }

  ghost predicate HasMatch(c: Candidate, ds: seq<Candidate>) {
    exists j :: 0 <= j < |ds| && Clean(ds[j]) && SameGit(c, ds[j])
  }

  /** Every clean candidate of the one is matched in the other. */
  ghost predicate Matched(cs: seq<Candidate>, ds: seq<Candidate>) {
    forall i {:trigger HasMatch(cs[i], ds)} :: 0 <= i < |cs| && Clean(cs[i]) ==> HasMatch(cs[i], ds)
  }

  lemma MatchOf(cs: seq<Candidate>, ds: seq<Candidate>, i: nat) returns (j: nat)
    requires Matched(cs, ds) && i < |cs| && Clean(cs[i])
    ensures j < |ds| && Clean(ds[j]) && SameGit(cs[i], ds[j])
  {
    assert HasMatch(cs[i], ds);
    j :| 0 <= j < |ds| && Clean(ds[j]) && SameGit(cs[i], ds[j]);
  }

  /** The leader of one ranking is not above the leader of a ranking that matches it. */
  lemma LeaderIsMatched(cs: seq<Candidate>, ds: seq<Candidate>)
    requires Ladder(cs) && Ladder(ds) && cs != [] && ds != [] && Matched(cs, ds) && Clean(cs[0])
    ensures Clean(ds[0]) && !Above(cs[0], ds[0])
  {
    var j := MatchOf(cs, ds, 0);
    if j > 0 {
      InOrder(ds, 0, j);
    }
  }

  /** Nor is its runner-up above the other's, when the leaders are the same source. */
  lemma RunnerUpIsMatched(cs: seq<Candidate>, ds: seq<Candidate>, k: nat, m: nat)
    requires Ladder(cs) && Ladder(ds) && ds != [] && Matched(cs, ds) && DistinctRefs(cs)
    requires 1 <= k < |cs| && Clean(cs[k]) && SameGit(cs[0], ds[0])
    requires FirstClean(ds[1..]).Some? ==> 1 <= m < |ds| && forall j :: 1 <= j < |ds| && Clean(ds[j]) ==> !Above(ds[j], ds[m])
    requires FirstClean(ds[1..]).None? ==> forall j :: 1 <= j < |ds| ==> !Clean(ds[j])
    ensures FirstClean(ds[1..]).Some? && !Above(cs[k], ds[m])
  {
    var j := MatchOf(cs, ds, k);
    assert cs[0].source.ref != cs[k].source.ref;
    assert j != 0;
  }

  /** If the leaders are different sources they tie, and neither ranking separates them. */
  lemma DifferentLeadersTie(cs: seq<Candidate>, ds: seq<Candidate>)
    requires Ladder(cs) && Ladder(ds) && cs != [] && ds != [] && Matched(cs, ds) && Matched(ds, cs) && Clean(cs[0])
    requires cs[0].source.ref != ds[0].source.ref
    ensures FirstClean(cs[1..]).Some? && !Above(cs[0], FirstClean(cs[1..]).value)
  {
    LeaderIsMatched(cs, ds);
    LeaderIsMatched(ds, cs);
    var j := MatchOf(ds, cs, 0);
    var k := RunnerUp(cs);
    assert j != 0;
  }

  /** Rankings whose clean candidates match, source for source, carry the same proposal. */
  lemma ProposalReadsOnlyCleanPairs(cs: seq<Candidate>, ds: seq<Candidate>, served: nat, other: nat, configured: bool)
    requires Ladder(cs) && Ladder(ds) && cs != [] && ds != [] && DistinctRefs(cs) && DistinctRefs(ds)
    requires Matched(cs, ds) && Matched(ds, cs) && (served > 0 <==> other > 0)
    ensures Propose(cs, served, configured) == Propose(ds, other, configured)
  {
    if Clean(cs[0]) || Clean(ds[0]) {
      if Clean(cs[0]) {
        LeaderIsMatched(cs, ds);
      }
      LeaderIsMatched(ds, cs);
      LeaderIsMatched(cs, ds);
      if cs[0].source.ref != ds[0].source.ref {
        DifferentLeadersTie(cs, ds);
        DifferentLeadersTie(ds, cs);
      } else {
        SameRunnerUp(cs, ds);
      }
    }
  }

  lemma SameRunnerUp(cs: seq<Candidate>, ds: seq<Candidate>)
    requires Ladder(cs) && Ladder(ds) && cs != [] && ds != [] && DistinctRefs(cs) && DistinctRefs(ds)
    requires Matched(cs, ds) && Matched(ds, cs) && SameGit(cs[0], ds[0]) && Clean(cs[0]) && Clean(ds[0])
    ensures FirstClean(cs[1..]).Some? <==> FirstClean(ds[1..]).Some?
    ensures FirstClean(cs[1..]).Some? ==> FirstClean(cs[1..]).value.engagement == FirstClean(ds[1..]).value.engagement
                                          && FirstClean(cs[1..]).value.agreements == FirstClean(ds[1..]).value.agreements
  {
    var k := RunnerUp(cs);
    var m := RunnerUp(ds);
    if FirstClean(cs[1..]).Some? {
      RunnerUpIsMatched(cs, ds, k, m);
    }
    if FirstClean(ds[1..]).Some? {
      RunnerUpIsMatched(ds, cs, m, k);
    }
  }

  // ---------------------------------------------------------------- on the estate itself

  lemma {:induction false} PlaceKeepsDistinct(ranked: seq<Candidate>, c: Candidate)
    requires DistinctRefs(ranked) && forall d <- ranked :: d.source.ref != c.source.ref
    ensures DistinctRefs(Place(ranked, c))
  {
    if !(ranked == [] || Leq(Key(ranked[|ranked| - 1]), Key(c))) {
      var before, last := ranked[..|ranked| - 1], ranked[|ranked| - 1];
      PlaceKeepsDistinct(before, c);
      PlaceKeepsAll(before, c);
      forall i | 0 <= i < |Place(before, c)|
        ensures Place(before, c)[i].source.ref != last.source.ref
      {
        assert Place(before, c)[i] in multiset(Place(before, c));
        assert Place(before, c)[i] == c || Place(before, c)[i] in before;
        assert last in ranked;
      }
    }
  }

  lemma {:induction false} RankedIsDistinct(cs: seq<Candidate>)
    requires DistinctRefs(cs)
    ensures DistinctRefs(Ranked(cs))
  {
    if cs != [] {
      var before, last := cs[..|cs| - 1], cs[|cs| - 1];
      RankedIsDistinct(before);
      RankedIsSorted(before);
      forall d | d in Ranked(before)
        ensures d.source.ref != last.source.ref
      {
        assert d in multiset(Ranked(before));
        assert d in before;
      }
      PlaceKeepsDistinct(Ranked(before), last);
    }
  }

  /** The candidate is put forward by the estate: clean, engaged, and strictly ahead of every other
      clean source in it. */
  ghost predicate Leads(cs: seq<Candidate>, c: Candidate) {
    && c in cs && Clean(c) && Engaged(c)
    && forall d <- cs :: d.source.ref != c.source.ref && Clean(d) ==> Above(c, d)
  }

  lemma LeadsIffStandsOut(cs: seq<Candidate>, i: nat)
    requires DistinctRefs(cs) && i < |cs|
    ensures Leads(cs, cs[i]) <==> StandsOut(cs, i)
  {
    if StandsOut(cs, i) {
      forall d | d in cs && d.source.ref != cs[i].source.ref && Clean(d)
        ensures Above(cs[i], d)
      {
        var j :| 0 <= j < |cs| && cs[j] == d;
      }
    }
  }

  lemma SameMembersSameLeader(cs: seq<Candidate>, ds: seq<Candidate>, c: Candidate)
    requires multiset(cs) == multiset(ds)
    ensures Leads(cs, c) <==> Leads(ds, c)
  {
    forall d: Candidate
      ensures d in cs <==> d in ds
    {
      assert d in multiset(cs) <==> d in multiset(ds);
    }
  }

  ghost predicate DistinctSources(sources: seq<Source>) {
    forall i, j :: 0 <= i < j < |sources| ==> sources[i].ref != sources[j].ref
  }

  lemma RankingOf(sources: seq<Source>, governed: Governed) returns (ranked: seq<Candidate>)
    requires DistinctSources(sources)
    ensures ranked == Ranked(Candidates(sources, governed))
    ensures Ladder(ranked) && DistinctRefs(ranked) && multiset(ranked) == multiset(Candidates(sources, governed)) && |ranked| == |sources|
  {
    var cs := Candidates(sources, governed);
    ranked := Ranked(cs);
    RankedIsALadder(cs);
    RankedIsDistinct(cs);
    RankedIsSorted(cs);
    assert |multiset(ranked)| == |ranked|;
  }

  /** A proposal is issued exactly when a domain governs the question and one source leads the whole
      estate, and it names that source. Nothing about the serving bound enters, once it is 1. */
  lemma ProposalIsAFactAboutTheEstate(sources: seq<Source>, governed: Governed, configured: bool, limit: int)
    requires sources != [] && DistinctSources(sources) && limit >= 1
    ensures var p, cs := CandidateSources(sources, governed, configured, limit).value.proposal, Candidates(sources, governed);
            && (p.Proposed? <==> configured && exists c :: Leads(cs, c))
            && (p.Proposed? ==> p.basis != [] && forall c :: Leads(cs, c) ==> c.source.ref == p.ref)
  {
    var cs := Candidates(sources, governed);
    var ranked := RankingOf(sources, governed);
    ProposedIffStandsOut(ranked, |Served(ranked, limit)|, configured);
    forall c: Candidate
      ensures Leads(cs, c) <==> exists i: nat :: i < |ranked| && ranked[i] == c && StandsOut(ranked, i)
    {
      SameMembersSameLeader(ranked, cs, c);
      if Leads(ranked, c) {
        var i :| 0 <= i < |ranked| && ranked[i] == c;
        LeadsIffStandsOut(ranked, i);
      }
      if i: nat :| i < |ranked| && ranked[i] == c && StandsOut(ranked, i) {
        LeadsIffStandsOut(ranked, i);
      }
    }
    if i: nat :| StandsOut(ranked, i) {
      assert Leads(cs, ranked[i]);
    }
  }

  lemma RankedIsAsLong(cs: seq<Candidate>)
    ensures |Ranked(cs)| == |cs|
  {
    RankedIsSorted(cs);
    assert |multiset(Ranked(cs))| == |Ranked(cs)| && |multiset(cs)| == |cs|;
  }

  /** The bound decides how much is served and nothing else. */
  lemma BoundOnlyCuts(sources: seq<Source>, governed: Governed, configured: bool, limit: int, more: int)
    requires sources != [] && 1 <= limit <= more
    ensures var a, b := CandidateSources(sources, governed, configured, limit).value, CandidateSources(sources, governed, configured, more).value;
            a.proposal == b.proposal && a.candidates <= b.candidates && a.considered == b.considered == |sources|
  {
    var ranked := Ranked(Candidates(sources, governed));
    RankedIsAsLong(Candidates(sources, governed));
  }

  lemma CandidatesConcat(sources: seq<Source>, others: seq<Source>, governed: Governed)
    ensures Candidates(sources + others, governed) == Candidates(sources, governed) + Candidates(others, governed)
  {
  }

  lemma WithoutOne(before: seq<Source>, source: Source, after: seq<Source>, governed: Governed)
    ensures multiset(before + [source] + after) == multiset(before + after) + multiset{source}
    ensures multiset(Candidates(before + [source] + after, governed))
         == multiset(Candidates(before + after, governed)) + multiset{AsCandidate(source, governed)}
  {
    CandidatesConcat(before + [source], after, governed);
    CandidatesConcat(before, [source], governed);
    CandidatesConcat(before, after, governed);
    assert Candidates([source], governed) == [AsCandidate(source, governed)];
  }

  lemma Around(sources: seq<Source>, source: Source) returns (before: seq<Source>, after: seq<Source>)
    requires source in multiset(sources)
    ensures sources == before + [source] + after
  {
    var k :| 0 <= k < |sources| && sources[k] == source;
    before, after := sources[..k], sources[k + 1..];
  }

  lemma SameRest(source: Source, rest: seq<Source>, before: seq<Source>, after: seq<Source>)
    requires multiset([source] + rest) == multiset(before + [source] + after)
    ensures multiset(rest) == multiset(before + after)
  {
    assert multiset([source] + rest) == multiset(rest) + multiset{source};
    assert multiset(before + [source] + after) == multiset(before + after) + multiset{source};
    assert multiset(rest) == multiset([source] + rest) - multiset{source};
  }

  lemma {:induction false} SameSourcesSameCandidates(sources: seq<Source>, others: seq<Source>, governed: Governed)
    requires multiset(sources) == multiset(others)
    ensures multiset(Candidates(sources, governed)) == multiset(Candidates(others, governed))
    decreases |sources|
  {
    if sources == [] {
      assert |multiset(others)| == |others|;
    } else {
      var source, rest := sources[0], sources[1..];
      assert sources == [source] + rest && [source] + rest == [] + [source] + rest && [] + rest == rest;
      var before, after := Around(others, source);
      SameRest(source, rest, before, after);
      SameSourcesSameCandidates(rest, before + after, governed);
      WithoutOne([], source, rest, governed);
      WithoutOne(before, source, after, governed);
    }
  }

  /** The order the sources came in decides nothing: the whole section is the same. */
  lemma InputOrderNeverMatters(sources: seq<Source>, others: seq<Source>, governed: Governed, configured: bool, limit: int)
    requires multiset(sources) == multiset(others) && DistinctSources(sources)
    ensures CandidateSources(sources, governed, configured, limit) == CandidateSources(others, governed, configured, limit)
  {
    assert |multiset(sources)| == |sources| && |multiset(others)| == |others|;
    SameSourcesSameCandidates(sources, others, governed);
    var ranked := RankingOf(sources, governed);
    RankingIgnoresInputOrder(Candidates(sources, governed), Candidates(others, governed));
  }

  /** Matching estates give matching rankings. */
  lemma EstatesMatch(cs: seq<Candidate>, ds: seq<Candidate>, ranked: seq<Candidate>, other: seq<Candidate>)
    requires multiset(ranked) == multiset(cs) && multiset(other) == multiset(ds) && Matched(cs, ds)
    ensures Matched(ranked, other)
  {
    forall i | 0 <= i < |ranked| && Clean(ranked[i])
      ensures HasMatch(ranked[i], other)
    {
      assert ranked[i] in multiset(cs);
      var k :| 0 <= k < |cs| && cs[k] == ranked[i];
      var j := MatchOf(cs, ds, k);
      assert ds[j] in multiset(other);
      var m :| 0 <= m < |other| && other[m] == ds[j];
    }
  }

  lemma MatchingEstatesMatchProposals(sources: seq<Source>, others: seq<Source>, governed: Governed, configured: bool, limit: int)
    requires sources != [] && others != [] && limit >= 1 && DistinctSources(sources) && DistinctSources(others)
    requires Matched(Candidates(sources, governed), Candidates(others, governed))
    requires Matched(Candidates(others, governed), Candidates(sources, governed))
    ensures CandidateSources(sources, governed, configured, limit).value.proposal
         == CandidateSources(others, governed, configured, limit).value.proposal
  {
    var cs, ds := Candidates(sources, governed), Candidates(others, governed);
    var ranked := RankingOf(sources, governed);
    var other := RankingOf(others, governed);
    EstatesMatch(cs, ds, ranked, other);
    EstatesMatch(ds, cs, other, ranked);
    ProposalReadsOnlyCleanPairs(ranked, other, |Served(ranked, limit)|, |Served(other, limit)|, configured);
  }

  /** The same source, read at another time and referenced by other assets. */
  ghost predicate SameButFreshness(s: Source, t: Source) {
    t.ref == s.ref && t.deleted == s.deleted && t.metrics == s.metrics && t.findings == s.findings
  }

  lemma {:induction false} SameAgreements(s: Source, t: Source, declared: seq<Option<string>>)
    requires t.metrics == s.metrics
    ensures Agreements(s, declared) == Agreements(t, declared)
  {
    if declared != [] {
      SameAgreements(s, t, declared[..|declared| - 1]);
    }
  }

  lemma SameButFreshnessMatches(sources: seq<Source>, others: seq<Source>, governed: Governed)
    requires |sources| == |others| && forall i :: 0 <= i < |sources| ==> SameButFreshness(sources[i], others[i])
    ensures Matched(Candidates(sources, governed), Candidates(others, governed))
  {
    var cs, ds := Candidates(sources, governed), Candidates(others, governed);
    forall i | 0 <= i < |cs| && Clean(cs[i])
      ensures HasMatch(cs[i], ds)
    {
      SameAgreements(sources[i], others[i], governed.expressions);
      assert Clean(ds[i]) && SameGit(cs[i], ds[i]);
    }
  }

  /** Neither freshness nor the references the estate declares can make, move or withhold a
      proposal. */
  lemma FreshnessNeverDecides(sources: seq<Source>, others: seq<Source>, governed: Governed, configured: bool, limit: int)
    requires sources != [] && limit >= 1 && DistinctSources(sources)
    requires |sources| == |others| && forall i :: 0 <= i < |sources| ==> SameButFreshness(sources[i], others[i])
    ensures CandidateSources(sources, governed, configured, limit).value.proposal
         == CandidateSources(others, governed, configured, limit).value.proposal
  {
    SameButFreshnessMatches(sources, others, governed);
    SameButFreshnessMatches(others, sources, governed);
    MatchingEstatesMatchProposals(sources, others, governed, configured, limit);
  }

  /** A source that disagrees with Git neither earns a proposal nor blocks another's. */
  lemma DisagreeingSourceNeverDecides(sources: seq<Source>, extra: Source, governed: Governed, configured: bool, limit: int)
    requires sources != [] && limit >= 1 && DistinctSources(sources + [extra]) && !Clean(AsCandidate(extra, governed))
    ensures CandidateSources(sources + [extra], governed, configured, limit).value.proposal
         == CandidateSources(sources, governed, configured, limit).value.proposal
  {
    var cs, ds := Candidates(sources, governed), Candidates(sources + [extra], governed);
    assert ds == cs + [AsCandidate(extra, governed)];
    forall i, j | 0 <= i < j < |sources|
      ensures sources[i].ref != sources[j].ref
    {
      assert (sources + [extra])[i] == sources[i] && (sources + [extra])[j] == sources[j];
    }
    forall i | 0 <= i < |cs| && Clean(cs[i])
      ensures HasMatch(cs[i], ds)
    {
      assert ds[i] == cs[i];
    }
    forall i | 0 <= i < |ds| && Clean(ds[i])
      ensures HasMatch(ds[i], cs)
    {
      assert ds[i] == cs[i];
    }
    MatchingEstatesMatchProposals(sources, sources + [extra], governed, configured, limit);
  }
}
