/** What the budget search returns: never too much, and the most it can under one condition. */
module BudgetLaws {
  import opened Prelude
  import opened Walk
  import opened WalkLaws
  import opened Budget

  // ---------------------------------------------------------------- the search

  /** `best` is the breadth below `low`, which fits; the one above `high` does not, or is `full`. */
  ghost predicate Bracketed(fits: int -> bool, low: int, high: int, full: int, best: Option<int>) {
    && 1 <= low <= high + 1
    && (if low == 1 then best.None? else best == Some(low - 1) && fits(low - 1))
    && (high + 1 == full || (high + 1 < full && !fits(high + 1)))
  }

  /** Whatever the sizes, the search ends at a breadth that fits while the next one does not. */
  lemma {:induction false} SearchEndsAtAnEdge(fits: int -> bool, low: int, high: int, full: int, best: Option<int>)
    requires Bracketed(fits, low, high, full, best)
    ensures match Search(fits, low, high, best)
            case None => full == 1 || !fits(1)
            case Some(k) => 1 <= k < full && fits(k) && (k + 1 == full || !fits(k + 1))
    decreases high - low
  {
    if low <= high {
      var breadth := (low + high) / 2;
      if fits(breadth) {
        SearchEndsAtAnEdge(fits, breadth + 1, high, full, Some(breadth));
      } else {
        SearchEndsAtAnEdge(fits, low, breadth - 1, full, best);
      }
    }
  }

  /** A breadth that fits leaves every smaller breadth fitting. */
  ghost predicate DownwardClosed(fits: int -> bool, full: int) {
    forall j, k :: 1 <= j <= k < full && fits(k) ==> fits(j)
  }

  /** When fitting is downward closed, the search finds the largest breadth that fits, and none
      only when none does. */
  lemma SearchFindsTheLargest(fits: int -> bool, full: int)
    requires full >= 1 && DownwardClosed(fits, full)
    ensures match Search(fits, 1, full - 1, None)
            case None => forall k :: 1 <= k < full ==> !fits(k)
            case Some(best) => 1 <= best < full && fits(best) && forall k :: best < k < full ==> !fits(k)
  {
    SearchEndsAtAnEdge(fits, 1, full - 1, full, None);
  }

  /** The breadths the search asks about, up to `m`, on its way to `m`. */
  function Probes(low: int, high: int, m: int): seq<int>
    decreases high - low
  {
    if low > high then []
    else
      var breadth := (low + high) / 2;
      if breadth <= m then [breadth] + Probes(breadth + 1, high, m) else Probes(low, breadth - 1, m)
  }

  lemma {:induction false} SearchStaysWithin(fits: int -> bool, low: int, high: int, best: Option<int>)
    ensures var found := Search(fits, low, high, best); found == best || (found.Some? && low <= found.value <= high)
    decreases high - low
  {
    if low <= high {
      var breadth := (low + high) / 2;
      if fits(breadth) {
        SearchStaysWithin(fits, breadth + 1, high, Some(breadth));
      } else {
        SearchStaysWithin(fits, low, breadth - 1, best);
      }
    }
  }

  /** Whatever the sizes, the search finds the largest breadth that fits exactly when every breadth it
      asks about on the way there fits too. */
  lemma {:induction false} SearchFindsTheLargestIff(fits: int -> bool, low: int, high: int, best: Option<int>, m: int)
    requires low - 1 <= m <= high && (m < low ==> best == Some(m)) && (best.Some? ==> best.value < low)
    requires forall k :: m < k <= high ==> !fits(k)
    ensures Search(fits, low, high, best) == Some(m) <==> forall breadth <- Probes(low, high, m) :: fits(breadth)
    decreases high - low
  {
    if low <= high {
      var breadth := (low + high) / 2;
      if breadth > m {
        SearchFindsTheLargestIff(fits, low, breadth - 1, best, m);
      } else if fits(breadth) {
        SearchFindsTheLargestIff(fits, breadth + 1, high, Some(breadth), m);
        OneMoreProbe(fits, breadth, Probes(breadth + 1, high, m));
      } else {
        SearchStaysWithin(fits, low, breadth - 1, best);
        assert breadth in Probes(low, high, m);
      }
    }
  }

  lemma OneMoreProbe(fits: int -> bool, first: int, rest: seq<int>)
    requires fits(first)
    ensures (forall breadth <- [first] + rest :: fits(breadth)) <==> (forall breadth <- rest :: fits(breadth))
  {
    assert forall breadth <- rest :: breadth in [first] + rest;
  }

  // ---------------------------------------------------------------- the answer

  lemma BreadthIsAPrefix(e: Estate, hops: int, components: int, breadth: nat)
    requires breadth <= |WalkFrom(e, RootChildren(e), Some(hops), Some(components))|
    ensures WalkFrom(e, RootChildren(e), Some(hops), Some(breadth)) == WalkFrom(e, RootChildren(e), Some(hops), Some(components))[..breadth]
  {
    WalkIsFirstOfBreadthOrder(e, RootChildren(e), Some(hops), Some(components));
    WalkIsFirstOfBreadthOrder(e, RootChildren(e), Some(hops), Some(breadth));
  }

  /** How the answer to a request within bounds relates to the whole walk: it is the whole walk, or
      a proper prefix of it that fits and says how many domains were cut, or a refusal. */
  ghost predicate Serves(e: Estate, costs: Costs, hops: int, components: int, budget: int, answer: Answer) {
    var whole := Whole(e, hops, components);
    match answer
    case TooSmallABudget => false
    case Refused => Size(costs, components, whole.reached, whole.dropped, 0) > budget
    case Walked(reached, dropped, cut) =>
      && reached <= whole.reached
      && cut == |whole.reached| - |reached|
      && Size(costs, components, reached, dropped, cut) <= budget
      && (cut == 0 ==> answer == whole)
  }

  lemma BreadthServes(e: Estate, costs: Costs, hops: int, components: int, budget: int, breadth: nat)
    requires var full := |Whole(e, hops, components).reached|; 1 <= breadth < full && Fits(e, costs, hops, components, budget, full, breadth)
    ensures Serves(e, costs, hops, components, budget, OfBreadth(e, hops, |Whole(e, hops, components).reached|, breadth))
  {
    BreadthIsAPrefix(e, hops, components, breadth);
  }

  lemma BudgetedServes(e: Estate, costs: Costs, hops: int, components: int, budget: int)
    ensures Serves(e, costs, hops, components, budget, Budgeted(e, costs, hops, components, budget))
  {
    var full := |Whole(e, hops, components).reached|;
    var fits := breadth => Fits(e, costs, hops, components, budget, full, breadth);
    var found := Search(fits, 1, full - 1, None);
    if full >= 1 {
      SearchEndsAtAnEdge(fits, 1, full - 1, full, None);
      if found.Some? {
        BreadthServes(e, costs, hops, components, budget, found.value);
      }
    }
    FoundServes(e, costs, hops, components, budget, found);
  }

  lemma FoundServes(e: Estate, costs: Costs, hops: int, components: int, budget: int, found: Option<int>)
    requires var full := |Whole(e, hops, components).reached|;
             && found == Search(breadth => Fits(e, costs, hops, components, budget, full, breadth), 1, full - 1, None)
             && (found.Some? ==> Serves(e, costs, hops, components, budget, OfBreadth(e, hops, full, found.value)))
    ensures Serves(e, costs, hops, components, budget, Budgeted(e, costs, hops, components, budget))
  {
  }

  /** No populated answer is larger than the budget; a domain is only ever cut from the far end of
      the breadth order, and the cut is counted. */
  lemma NeverOverBudget(e: Estate, costs: Costs, maxHops: Option<int>, maxComponents: Option<int>, contextBudget: Option<int>)
    ensures var hops := EffectiveBound(maxHops, DEFAULT_MAX_HOPS, MAX_MAX_HOPS);
            var components := EffectiveBound(maxComponents, DEFAULT_MAX_COMPONENTS, MAX_MAX_COMPONENTS);
            var budget := EffectiveBound(contextBudget, DEFAULT_CONTEXT_BUDGET, MAX_CONTEXT_BUDGET);
            var answer := Expand(e, costs, maxHops, maxComponents, contextBudget);
            if budget < MIN_CONTEXT_BUDGET then answer.TooSmallABudget? else Serves(e, costs, hops, components, budget, answer)
  {
    BudgetedServes(e, costs, EffectiveBound(maxHops, DEFAULT_MAX_HOPS, MAX_MAX_HOPS),
                   EffectiveBound(maxComponents, DEFAULT_MAX_COMPONENTS, MAX_MAX_COMPONENTS),
                   EffectiveBound(contextBudget, DEFAULT_CONTEXT_BUDGET, MAX_CONTEXT_BUDGET));
  }

  ghost predicate ShrinkingHelps(e: Estate, costs: Costs, hops: int, components: int, budget: int) {
    var full := |Whole(e, hops, components).reached|;
    DownwardClosed(breadth => Fits(e, costs, hops, components, budget, full, breadth), full)
  }

  lemma BreadthShows(e: Estate, hops: int, components: int, breadth: nat)
    requires breadth < |Whole(e, hops, components).reached|
    ensures var answer := OfBreadth(e, hops, |Whole(e, hops, components).reached|, breadth); answer.Walked? && |answer.reached| == breadth
  {
    BreadthIsAPrefix(e, hops, components, breadth);
  }

  /** If shrinking the walk never makes it outgrow the budget, the answer shows as many domains as
      any breadth that fits, and the refusal is given only when no breadth fits. */
  lemma ShowsTheMost(e: Estate, costs: Costs, hops: int, components: int, budget: int, breadth: nat)
    requires ShrinkingHelps(e, costs, hops, components, budget)
    requires 1 <= breadth < |Whole(e, hops, components).reached|
    requires Fits(e, costs, hops, components, budget, |Whole(e, hops, components).reached|, breadth)
    ensures var answer := Budgeted(e, costs, hops, components, budget); answer.Walked? && |answer.reached| >= breadth
  {
    var whole := Whole(e, hops, components);
    var full := |whole.reached|;
    var fits := k => Fits(e, costs, hops, components, budget, full, k);
    assert fits(breadth);
    SearchFindsTheLargest(fits, full);
    BreadthShows(e, hops, components, Search(fits, 1, full - 1, None).value);
  }

  /** The breadth is the largest, short of the whole walk, whose answer fits. */
  ghost predicate IsLargestFitting(e: Estate, costs: Costs, hops: int, components: int, budget: int, m: nat) {
    var full := |Whole(e, hops, components).reached|;
    && 1 <= m < full && Fits(e, costs, hops, components, budget, full, m)
    && forall k {:trigger Fits(e, costs, hops, components, budget, full, k)} :: m < k < full ==> !Fits(e, costs, hops, components, budget, full, k)
  }

  /** Every breadth up to `m` that the search tries on its way to `m` fits. */
  ghost predicate TriedBreadthsFit(e: Estate, costs: Costs, hops: int, components: int, budget: int, full: nat, m: nat) {
    forall breadth <- Probes(1, full - 1, m) :: Fits(e, costs, hops, components, budget, full, breadth)
  }

  /** When the whole walk does not fit, the answer shows the largest breadth that does exactly when
      every breadth the search tries below it fits as well. */
  lemma ShowsTheMostIff(e: Estate, costs: Costs, hops: int, components: int, budget: int, full: nat, m: nat)
    requires var whole := Whole(e, hops, components); full == |whole.reached| && Size(costs, components, whole.reached, whole.dropped, 0) > budget
    requires IsLargestFitting(e, costs, hops, components, budget, m)
    ensures var answer := Budgeted(e, costs, hops, components, budget);
            (answer.Walked? && |answer.reached| == m) <==> TriedBreadthsFit(e, costs, hops, components, budget, full, m)
  {
    var fits := k => Fits(e, costs, hops, components, budget, full, k);
    TriedIff(e, costs, hops, components, budget, fits, full, m);
    AnswerShowsIff(e, costs, hops, components, budget, fits, full, m);
  }

  lemma TriedIff(e: Estate, costs: Costs, hops: int, components: int, budget: int, fits: int -> bool, full: nat, m: nat)
    requires fits == (k => Fits(e, costs, hops, components, budget, full, k))
    requires full == |Whole(e, hops, components).reached| && IsLargestFitting(e, costs, hops, components, budget, m)
    ensures Search(fits, 1, full - 1, None) == Some(m) <==> TriedBreadthsFit(e, costs, hops, components, budget, full, m)
  {
    assert Tells(fits, e, costs, hops, components, budget, full);
    SearchedIff(e, costs, hops, components, budget, fits, full, m, Probes(1, full - 1, m));
  }

  lemma SearchedIff(e: Estate, costs: Costs, hops: int, components: int, budget: int, fits: int -> bool, full: nat, m: nat, probes: seq<int>)
    requires Tells(fits, e, costs, hops, components, budget, full) && probes == Probes(1, full - 1, m)
    requires full == |Whole(e, hops, components).reached| && IsLargestFitting(e, costs, hops, components, budget, m)
    ensures Search(fits, 1, full - 1, None) == Some(m) <==> forall k <- probes :: Fits(e, costs, hops, components, budget, full, k)
  {
    NothingLargerFits(e, costs, hops, components, budget, fits, full, m);
    SearchFindsTheLargestIff(fits, 1, full - 1, None, m);
    ProbesAgree(e, costs, hops, components, budget, fits, full, probes);
  }

  lemma NothingLargerFits(e: Estate, costs: Costs, hops: int, components: int, budget: int, fits: int -> bool, full: nat, m: nat)
    requires Tells(fits, e, costs, hops, components, budget, full)
    requires full == |Whole(e, hops, components).reached| && IsLargestFitting(e, costs, hops, components, budget, m)
    ensures forall k :: m < k <= full - 1 ==> !fits(k)
  {
    forall k | m < k <= full - 1
      ensures !fits(k)
    {
      assert !Fits(e, costs, hops, components, budget, full, k);
    }
  }

  lemma ProbesAgree(e: Estate, costs: Costs, hops: int, components: int, budget: int, fits: int -> bool, full: nat, probes: seq<int>)
    requires Tells(fits, e, costs, hops, components, budget, full)
    ensures (forall k <- probes :: fits(k)) <==> (forall k <- probes :: Fits(e, costs, hops, components, budget, full, k))
  {
    forall k | k in probes
      ensures fits(k) <==> Fits(e, costs, hops, components, budget, full, k)
    {
    }
  }

  lemma AnswerShowsIff(e: Estate, costs: Costs, hops: int, components: int, budget: int, fits: int -> bool, full: nat, m: nat)
    requires var whole := Whole(e, hops, components); full == |whole.reached| && Size(costs, components, whole.reached, whole.dropped, 0) > budget
    requires fits == (k => Fits(e, costs, hops, components, budget, full, k))
    ensures var answer := Budgeted(e, costs, hops, components, budget);
            (answer.Walked? && |answer.reached| == m) <==> Search(fits, 1, full - 1, None) == Some(m)
  {
    var found := Search(fits, 1, full - 1, None);
    SearchStaysWithin(fits, 1, full - 1, None);
    AnswerIsFound(e, costs, hops, components, budget, fits, full, found);
    if found.Some? {
      BreadthShows(e, hops, components, found.value);
    }
  }

  lemma AnswerIsFound(e: Estate, costs: Costs, hops: int, components: int, budget: int, fits: int -> bool, full: nat, found: Option<int>)
    requires var whole := Whole(e, hops, components); full == |whole.reached| && Size(costs, components, whole.reached, whole.dropped, 0) > budget
    requires fits == (k => Fits(e, costs, hops, components, budget, full, k)) && found == Search(fits, 1, full - 1, None)
    ensures Budgeted(e, costs, hops, components, budget) == if found.None? then Refused else OfBreadth(e, hops, full, found.value)
  {
  }

  // ---------------------------------------------------------------- why the condition is needed

  /** Exclusions are disclosed in the room the walk leaves, so a smaller walk outweighs a larger one
      exactly when the exclusion it makes room for outweighs the domain it leaves out. */
  lemma ShrinkingGrowsIff(costs: Costs, components: int, reached: seq<string>, dropped: int, other: int, cut: int)
    requires reached != [] && |reached| <= components && components - |reached| < MAX_EXCLUDED_DISCLOSURES
    requires components - |reached| < |costs.excluded|
    ensures var room := components - |reached|; var omitted := |costs.excluded| - room;
            Size(costs, components, reached[..|reached| - 1], other, cut + 1) > Size(costs, components, reached, dropped, cut)
            <==> costs.excluded[room] + costs.warnings(other, omitted - 1, cut + 1)
                 > costs.domain(reached[|reached| - 1]) + costs.warnings(dropped, omitted, cut)
  {
    var room := components - |reached|;
    assert costs.excluded[..room + 1][..room] == costs.excluded[..room];
  }

  lemma {:induction false} NoChildren(e: Estate, domains: seq<string>, parent: string)
    requires e.parent == map[]
    ensures ChildrenAmong(e, domains, parent) == []
  {
    if domains != [] {
      NoChildren(e, domains[1..], parent);
    }
  }

  lemma {:induction false} FlatWalk(e: Estate, roots: seq<string>, domains: seq<string>, reached: seq<string>, hops: int)
    requires e.parent == map[] && NoRepeats(reached + domains) && Inside(Nodes(e, roots), AtDepth(domains, 1)) && hops >= 1
    ensures Walk.Walked(e, roots, AtDepth(domains, 1), reached, Some(hops), None) == reached + domains
    decreases |domains|
  {
    if domains == [] {
      assert reached + domains == reached;
    } else {
      var frontier := AtDepth(domains, 1);
      assert (reached + domains)[|reached|] == domains[0];
      LaterIsNew(reached + domains, reached, |reached|);
      assert Children(e, domains[0]) == [] by {
        NoChildren(e, e.domains, domains[0]);
      }
      assert frontier[1..] + Next(e, frontier[0], reached) == AtDepth(domains[1..], 1);
      assert (reached + [domains[0]]) + domains[1..] == reached + domains;
      FlatWalk(e, roots, domains[1..], reached + [domains[0]], hops);
    }
  }

  /** Four domains under the root, the last with many approved sources, and two excluded domains, the
      second with a long name. */
  const FLAT := Estate(["a", "b", "c", "d"], map[])
  const HEAVY := Costs(400, (domain: string) => if domain == "d" then 900 else 350, [240, 1000],
                       (dropped: int, omitted: int, cut: int) =>
                         (if dropped == 0 then 0 else 190) + (if omitted == 0 then 0 else 160) + (if cut == 0 then 0 else 170))

  lemma FlatOrder(hops: int)
    requires hops >= 1
    ensures RootChildren(FLAT) == FLAT.domains
    ensures WalkFrom(FLAT, FLAT.domains, Some(hops), None) == FLAT.domains
  {
    RootsOfFlat(FLAT.domains);
    FlatWalkFrom(FLAT, FLAT.domains, hops);
  }

  lemma FlatWalkFrom(e: Estate, domains: seq<string>, hops: int)
    requires e.parent == map[] && NoRepeats(domains) && hops >= 1
    ensures WalkFrom(e, domains, Some(hops), None) == domains
  {
    assert [] + domains == domains;
    FlatWalk(e, domains, domains, [], hops);
  }

  lemma FlatBreadth(breadth: nat)
    requires breadth <= 4
    ensures WalkFrom(FLAT, RootChildren(FLAT), Some(1), Some(breadth)) == FLAT.domains[..breadth]
    ensures Dropped(FLAT, RootChildren(FLAT), Some(1), Some(breadth)) == if breadth < 4 then 1 else 0
  {
    FlatOrder(1);
    FlatOrder(2);
    WalkIsFirstOfBreadthOrder(FLAT, FLAT.domains, Some(1), Some(breadth));
    WalkIsFirstOfBreadthOrder(FLAT, FLAT.domains, Some(2), Some(breadth + 1));
  }

  lemma {:induction false} RootsOfFlat(domains: seq<string>)
    ensures RootsAmong(FLAT, domains) == domains
  {
    if domains != [] {
      RootsOfFlat(domains[1..]);
    }
  }

  lemma FlatExclusions()
    ensures Sum(HEAVY.excluded[..0]) == 0 && Sum(HEAVY.excluded[..1]) == 240 && Sum(HEAVY.excluded[..2]) == 1240
  {
    var one, two := HEAVY.excluded[..1], HEAVY.excluded[..2];
    assert one == [240] && one[..0] == [] && two == [240, 1000] && two[..1] == one;
  }

  lemma WeightOfFlat()
    ensures Weight(HEAVY.domain, FLAT.domains[..1]) == 350 && Weight(HEAVY.domain, FLAT.domains[..2]) == 700
    ensures Weight(HEAVY.domain, FLAT.domains[..3]) == 1050 && Weight(HEAVY.domain, FLAT.domains[..4]) == 1950
  {
    forall n: nat | 1 <= n <= 4
      ensures FLAT.domains[..n][..n - 1] == FLAT.domains[..n - 1] && FLAT.domains[..n][n - 1] == FLAT.domains[n - 1]
    {
    }
    assert Weight(HEAVY.domain, FLAT.domains[..0]) == 0;
  }

  lemma FlatSize(breadth: nat)
    requires 1 <= breadth <= 4
    ensures Size(HEAVY, 4, FLAT.domains[..breadth], if breadth < 4 then 1 else 0, 4 - breadth)
         == if breadth == 1 then 2350 else if breadth == 2 then 2700 else if breadth == 3 then 2210 else 2510
  {
    FlatExclusions();
    WeightOfFlat();
    assert |FLAT.domains[..breadth]| == breadth;
    assert Disclosed(HEAVY, 4, breadth) == if breadth == 4 then 0 else if breadth == 3 then 1 else 2;
  }

  lemma FlatFits(breadth: nat)
    requires 1 <= breadth <= 4
    ensures Fits(FLAT, HEAVY, 1, 4, 2300, 4, breadth) <==> breadth == 3
  {
    FlatBreadth(breadth);
    FlatSize(breadth);
  }

  /** So the condition is needed: here three of the four domains fit, and the answer is a refusal. */
  lemma CanRefuseThoughAWalkFits()
    ensures |Whole(FLAT, 1, 4).reached| == 4 && IsLargestFitting(FLAT, HEAVY, 1, 4, 2300, 3)
    ensures Budgeted(FLAT, HEAVY, 1, 4, 2300) == Refused
  {
    FlatBreadth(4);
    FlatSize(4);
    FlatFits(1);
    FlatFits(2);
    FlatFits(3);
  }

  /** Every answer short of the whole walk says that the bound dropped a domain: the probe's extra
      slot finds exactly one. */
  lemma ShortAnswersDropOne(e: Estate, hops: int, components: int, breadth: nat)
    requires breadth < |Whole(e, hops, components).reached|
    ensures OfBreadth(e, hops, |Whole(e, hops, components).reached|, breadth).dropped == 1
  {
    var roots := RootChildren(e);
    WalkIsFirstOfBreadthOrder(e, roots, Some(hops), Some(components));
    WalkIsFirstOfBreadthOrder(e, roots, Some(hops), Some(breadth));
    WalkIsFirstOfBreadthOrder(e, roots, Some(hops + 1), Some(breadth + 1));
    WalkGrowsByExtension(e, roots, Some(hops), None, Some(hops + 1), None);
  }

  /** Between two answers short of the whole walk, cutting one domain more never adds more to the
      warnings than a domain weighs. Their warnings differ in a count, so in a digit. */
  ghost predicate LightWarnings(costs: Costs) {
    forall domain: string, less: nat, cut: nat | less >= 1 && cut == less + 1 ::
      costs.warnings(1, 0, cut) <= costs.warnings(1, 0, less) + costs.domain(domain)
  }

  lemma OneLessIsLighter(e: Estate, costs: Costs, hops: int, components: int, k: nat)
    requires costs.excluded == [] && LightWarnings(costs) && 1 < k < |Whole(e, hops, components).reached|
    ensures var full := |Whole(e, hops, components).reached|;
            var more, less := OfBreadth(e, hops, full, k), OfBreadth(e, hops, full, k - 1);
            Size(costs, components, less.reached, less.dropped, less.cut) <= Size(costs, components, more.reached, more.dropped, more.cut)
  {
    var full := |Whole(e, hops, components).reached|;
    var more, less := OfBreadth(e, hops, full, k), OfBreadth(e, hops, full, k - 1);
    BreadthIsAPrefix(e, hops, components, k);
    BreadthIsAPrefix(e, hops, components, k - 1);
    ShortAnswersDropOne(e, hops, components, k);
    ShortAnswersDropOne(e, hops, components, k - 1);
    LighterByOne(costs, components, more.reached, less.reached, more.cut);
  }

  lemma LighterByOne(costs: Costs, components: int, more: seq<string>, less: seq<string>, cut: nat)
    requires costs.excluded == [] && LightWarnings(costs) && cut >= 1 && more != [] && less == more[..|more| - 1]
    ensures Size(costs, components, less, 1, cut + 1) <= Size(costs, components, more, 1, cut)
  {
    assert costs.warnings(1, 0, cut + 1) <= costs.warnings(1, 0, cut) + costs.domain(more[|more| - 1]);
  }

  lemma {:induction false} SmallerFits(e: Estate, costs: Costs, hops: int, components: int, budget: int, j: nat, k: nat)
    requires costs.excluded == [] && LightWarnings(costs) && 1 <= j <= k < |Whole(e, hops, components).reached|
    requires Fits(e, costs, hops, components, budget, |Whole(e, hops, components).reached|, k)
    ensures Fits(e, costs, hops, components, budget, |Whole(e, hops, components).reached|, j)
    decreases k - j
  {
    if j < k {
      OneLessIsLighter(e, costs, hops, components, k);
      SmallerFits(e, costs, hops, components, budget, j, k - 1);
    }
  }

  /** It holds for a caller to whom nothing is excluded, as long as warnings grow by no more than a
      domain weighs. */
  lemma WithoutExclusionsShrinkingHelps(e: Estate, costs: Costs, hops: int, components: int, budget: int)
    requires costs.excluded == [] && LightWarnings(costs)
    ensures ShrinkingHelps(e, costs, hops, components, budget)
  {
    var full := |Whole(e, hops, components).reached|;
    forall j, k | 1 <= j <= k < full && Fits(e, costs, hops, components, budget, full, k)
      ensures Fits(e, costs, hops, components, budget, full, j)
    {
      SmallerFits(e, costs, hops, components, budget, j, k);
    }
  }

  // ---------------------------------------------------------------- bounds

  /** A caller held to bounds of one or more always gets an exact disclosure. */
  lemma ServedDisclosureIsExact(e: Estate, maxHops: Option<int>, maxComponents: Option<int>)
    requires (maxHops.Some? ==> maxHops.value >= 1) && (maxComponents.Some? ==> maxComponents.value >= 1)
    ensures var whole := Whole(e, EffectiveBound(maxHops, DEFAULT_MAX_HOPS, MAX_MAX_HOPS),
                               EffectiveBound(maxComponents, DEFAULT_MAX_COMPONENTS, MAX_MAX_COMPONENTS));
            whole.dropped == 0 <==> ReachesAll(e, RootChildren(e), whole.reached)
  {
    ProbeIsExact(e, RootChildren(e), Some(EffectiveBound(maxHops, DEFAULT_MAX_HOPS, MAX_MAX_HOPS)),
                 Some(EffectiveBound(maxComponents, DEFAULT_MAX_COMPONENTS, MAX_MAX_COMPONENTS)));
  }
}
