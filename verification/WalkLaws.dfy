/** What the bounded root walk reaches, and when its probe tells the truth. */
module WalkLaws {
  import opened Prelude
  import opened Reach
  import opened Walk

  // ---------------------------------------------------------------- bounds only cut

  predicate Looser(bound: Option<int>, other: Option<int>) {
    other.None? || (bound.Some? && bound.value <= other.value)
  }

  /** Depths never fall along the queue, and span at most two levels. */
  ghost predicate Levelled(frontier: seq<Stop>) {
    forall i, j :: 0 <= i <= j < |frontier| ==> frontier[i].depth <= frontier[j].depth <= frontier[0].depth + 1
  }

  lemma {:induction false} ReachedIsKept(e: Estate, roots: seq<string>, frontier: seq<Stop>, reached: seq<string>,
                                         hops: Option<int>, components: Option<int>)
    requires Inside(Nodes(e, roots), frontier)
    ensures reached <= Walked(e, roots, frontier, reached, hops, components)
    decreases Left(e, roots, reached), |frontier|
  {
    if frontier != [] {
      var stop := frontier[0];
      if stop.domain in reached || !WithinHops(hops, stop.depth) {
        ReachedIsKept(e, roots, frontier[1..], reached, hops, components);
      } else if !Full(components, reached) {
        Shrinks(e, roots, reached, stop.domain);
        ReachedIsKept(e, roots, frontier[1..] + Next(e, stop, reached), reached + [stop.domain], hops, components);
      }
    }
  }

  function First(s: seq<string>, n: nat): seq<string> {
    if n <= |s| then s[..n] else s
  }

  /** A component bound returns the first so many of the unbounded walk. */
  lemma {:induction false} CapTakesTheFirst(e: Estate, roots: seq<string>, frontier: seq<Stop>, reached: seq<string>,
                                            hops: Option<int>, components: nat)
    requires Inside(Nodes(e, roots), frontier) && |reached| <= components
    ensures Walked(e, roots, frontier, reached, hops, Some(components))
         == First(Walked(e, roots, frontier, reached, hops, None), components)
    decreases Left(e, roots, reached), |frontier|
  {
    if frontier != [] {
      var stop := frontier[0];
      if stop.domain in reached || !WithinHops(hops, stop.depth) {
        CapTakesTheFirst(e, roots, frontier[1..], reached, hops, components);
      } else {
        Shrinks(e, roots, reached, stop.domain);
        if |reached| == components {
          ReachedIsKept(e, roots, frontier, reached, hops, None);
        } else {
          CapTakesTheFirst(e, roots, frontier[1..] + Next(e, stop, reached), reached + [stop.domain], hops, components);
        }
      }
    }
  }

  lemma {:induction false} BeyondHopsNothingIsReached(e: Estate, roots: seq<string>, frontier: seq<Stop>, reached: seq<string>, hops: Option<int>)
    requires Inside(Nodes(e, roots), frontier) && forall stop <- frontier :: !WithinHops(hops, stop.depth)
    ensures Walked(e, roots, frontier, reached, hops, None) == reached
    decreases |frontier|
  {
    if frontier != [] {
      assert frontier[0] in frontier;
      BeyondHopsNothingIsReached(e, roots, frontier[1..], reached, hops);
    }
  }

  /** Raising the hop bound only extends the walk. */
  lemma {:induction false} HopsExtend(e: Estate, roots: seq<string>, frontier: seq<Stop>, reached: seq<string>,
                                      hops: Option<int>, more: Option<int>)
    requires Inside(Nodes(e, roots), frontier) && Levelled(frontier) && Looser(hops, more)
    ensures Walked(e, roots, frontier, reached, hops, None) <= Walked(e, roots, frontier, reached, more, None)
    decreases Left(e, roots, reached), |frontier|
  {
    if frontier != [] {
      var stop := frontier[0];
      if stop.domain in reached {
        HopsExtend(e, roots, frontier[1..], reached, hops, more);
      } else if WithinHops(hops, stop.depth) {
        Shrinks(e, roots, reached, stop.domain);
        HopsExtend(e, roots, frontier[1..] + Next(e, stop, reached), reached + [stop.domain], hops, more);
      } else {
        forall other | other in frontier
          ensures !WithinHops(hops, other.depth)
        {
          var i :| 0 <= i < |frontier| && frontier[i] == other;
        }
        BeyondHopsNothingIsReached(e, roots, frontier, reached, hops);
        ReachedIsKept(e, roots, frontier, reached, more, None);
      }
    }
  }

  /** Below zero components the walk is empty, like at zero. */
  lemma {:induction false} NegativeCapIsEmpty(e: Estate, roots: seq<string>, frontier: seq<Stop>, hops: Option<int>, components: int)
    requires Inside(Nodes(e, roots), frontier) && components <= 0
    ensures Walked(e, roots, frontier, [], hops, Some(components)) == []
    decreases |frontier|
  {
    if frontier != [] {
      NegativeCapIsEmpty(e, roots, frontier[1..], hops, components);
    }
  }

  /** The walk is the first `components` of the breadth order cut at `hops`. */
  lemma WalkIsFirstOfBreadthOrder(e: Estate, roots: seq<string>, hops: Option<int>, components: Option<int>)
    ensures WalkFrom(e, roots, hops, components)
         == if components.None? then WalkFrom(e, roots, hops, None)
            else First(WalkFrom(e, roots, hops, None), if components.value < 0 then 0 else components.value)
  {
    if components.Some? {
      if components.value < 0 {
        NegativeCapIsEmpty(e, roots, AtDepth(roots, 1), hops, components.value);
      } else {
        CapTakesTheFirst(e, roots, AtDepth(roots, 1), [], hops, components.value);
      }
    }
  }

  /** Raising either bound only extends what is reached. */
  lemma WalkGrowsByExtension(e: Estate, roots: seq<string>, hops: Option<int>, components: Option<int>,
                             moreHops: Option<int>, moreComponents: Option<int>)
    requires Looser(hops, moreHops) && Looser(components, moreComponents)
    ensures WalkFrom(e, roots, hops, components) <= WalkFrom(e, roots, moreHops, moreComponents)
  {
    WalkIsFirstOfBreadthOrder(e, roots, hops, components);
    WalkIsFirstOfBreadthOrder(e, roots, moreHops, moreComponents);
    HopsExtend(e, roots, AtDepth(roots, 1), [], hops, moreHops);
  }

  // ---------------------------------------------------------------- what is reached

  ghost predicate NoRepeats(s: seq<string>) {
    forall i, j :: 0 <= i < j < |s| ==> s[i] != s[j]
  }

  lemma {:induction false} WalkedHasNoRepeats(e: Estate, roots: seq<string>, frontier: seq<Stop>, reached: seq<string>,
                                              hops: Option<int>, components: Option<int>)
    requires Inside(Nodes(e, roots), frontier) && NoRepeats(reached)
    ensures NoRepeats(Walked(e, roots, frontier, reached, hops, components))
    decreases Left(e, roots, reached), |frontier|
  {
    if frontier != [] {
      var stop := frontier[0];
      if stop.domain in reached || !WithinHops(hops, stop.depth) {
        WalkedHasNoRepeats(e, roots, frontier[1..], reached, hops, components);
      } else if !Full(components, reached) {
        Shrinks(e, roots, reached, stop.domain);
        WalkedHasNoRepeats(e, roots, frontier[1..] + Next(e, stop, reached), reached + [stop.domain], hops, components);
      }
    }
  }

  /** The domain is a root, or one of `before` is its parent. */
  ghost predicate Rooted(e: Estate, roots: seq<string>, before: seq<string>, domain: string) {
    domain in roots || exists parent <- before :: IsChild(e, parent, domain)
  }

  ghost predicate ParentsFirst(e: Estate, roots: seq<string>, reached: seq<string>) {
    forall i :: 0 <= i < |reached| ==> Rooted(e, roots, reached[..i], reached[i])
  }

  lemma {:induction false} WalkedListsParentsFirst(e: Estate, roots: seq<string>, frontier: seq<Stop>, reached: seq<string>,
                                                   hops: Option<int>, components: Option<int>)
    requires Inside(Nodes(e, roots), frontier) && ParentsFirst(e, roots, reached)
    requires forall stop <- frontier :: Rooted(e, roots, reached, stop.domain)
    ensures ParentsFirst(e, roots, Walked(e, roots, frontier, reached, hops, components))
    decreases Left(e, roots, reached), |frontier|
  {
    if frontier != [] {
      var stop := frontier[0];
      if stop.domain in reached || !WithinHops(hops, stop.depth) {
        WalkedListsParentsFirst(e, roots, frontier[1..], reached, hops, components);
      } else if !Full(components, reached) {
        Shrinks(e, roots, reached, stop.domain);
        NextIsRooted(e, roots, frontier, reached);
        WalkedListsParentsFirst(e, roots, frontier[1..] + Next(e, stop, reached), reached + [stop.domain], hops, components);
      }
    }
  }

  lemma NextIsRooted(e: Estate, roots: seq<string>, frontier: seq<Stop>, reached: seq<string>)
    requires frontier != [] && ParentsFirst(e, roots, reached)
    requires forall stop <- frontier :: Rooted(e, roots, reached, stop.domain)
    ensures ParentsFirst(e, roots, reached + [frontier[0].domain])
    ensures forall stop <- frontier[1..] + Next(e, frontier[0], reached) :: Rooted(e, roots, reached + [frontier[0].domain], stop.domain)
  {
    var grown := reached + [frontier[0].domain];
    assert frontier[0] in frontier;
    forall i | 0 <= i < |grown|
      ensures Rooted(e, roots, grown[..i], grown[i])
    {
      assert grown[..i] == reached[..i];
    }
    forall stop | stop in frontier[1..] + Next(e, frontier[0], reached)
      ensures Rooted(e, roots, grown, stop.domain)
    {
      if stop in frontier[1..] {
        assert Rooted(e, roots, reached, stop.domain);
      } else {
        assert frontier[0].domain in grown && IsChild(e, frontier[0].domain, stop.domain);
      }
    }
  }

  /** A walk lists no domain twice, and every domain after the parent that leads to it. */
  lemma WalkListsParentsOnceAndFirst(e: Estate, roots: seq<string>, hops: Option<int>, components: Option<int>)
    ensures NoRepeats(WalkFrom(e, roots, hops, components))
    ensures ParentsFirst(e, roots, WalkFrom(e, roots, hops, components))
  {
    WalkedHasNoRepeats(e, roots, AtDepth(roots, 1), [], hops, components);
    WalkedListsParentsFirst(e, roots, AtDepth(roots, 1), [], hops, components);
  }

  // ---------------------------------------------------------------- exactly the near domains

  ghost function ChildSet(e: Estate): string -> set<string> {
    (parent: string) => Elements(Children(e, parent))
  }

  /** The domain is at depth at most `depth`, the root's children being at depth 1. */
  ghost predicate AtMostDeep(e: Estate, roots: seq<string>, depth: int, domain: string) {
    depth >= 1 && Near(ChildSet(e), Elements(roots), depth - 1, domain)
  }

  ghost predicate AreDeep(e: Estate, roots: seq<string>, frontier: seq<Stop>) {
    forall i :: 0 <= i < |frontier| ==> AtMostDeep(e, roots, frontier[i].depth, frontier[i].domain)
  }

  lemma ChildIsDeeper(e: Estate, roots: seq<string>, depth: int, parent: string, child: string)
    requires AtMostDeep(e, roots, depth, parent) && IsChild(e, parent, child)
    ensures AtMostDeep(e, roots, depth + 1, child)
  {
    assert child in ChildSet(e)(parent);
  }

  lemma NextAreDeep(e: Estate, roots: seq<string>, frontier: seq<Stop>, reached: seq<string>)
    requires frontier != [] && AreDeep(e, roots, frontier)
    ensures AreDeep(e, roots, frontier[1..] + Next(e, frontier[0], reached))
  {
    var stop, next := frontier[0], Next(e, frontier[0], reached);
    forall i | 0 <= i < |next|
      ensures AtMostDeep(e, roots, next[i].depth, next[i].domain)
    {
      assert next[i].domain in Unseen(Children(e, stop.domain), reached + [stop.domain]);
      ChildIsDeeper(e, roots, stop.depth, stop.domain, next[i].domain);
    }
  }

  lemma {:induction false} WalkedIsNear(e: Estate, roots: seq<string>, frontier: seq<Stop>, reached: seq<string>, hops: Option<int>, domain: string)
    requires Inside(Nodes(e, roots), frontier) && AreDeep(e, roots, frontier)
    requires domain in Walked(e, roots, frontier, reached, hops, None) && domain !in reached
    ensures exists depth: int :: WithinHops(hops, depth) && AtMostDeep(e, roots, depth, domain)
    decreases Left(e, roots, reached), |frontier|
  {
    var stop := frontier[0];
    if stop.domain in reached || !WithinHops(hops, stop.depth) {
      WalkedIsNear(e, roots, frontier[1..], reached, hops, domain);
    } else if domain == stop.domain {
      assert AtMostDeep(e, roots, stop.depth, domain);
    } else {
      Shrinks(e, roots, reached, stop.domain);
      NextAreDeep(e, roots, frontier, reached);
      WalkedIsNear(e, roots, frontier[1..] + Next(e, stop, reached), reached + [stop.domain], hops, domain);
    }
  }

  /** Whatever waits in the queue within the hops is reached. */
  lemma {:induction false} QueuedIsReached(e: Estate, roots: seq<string>, frontier: seq<Stop>, reached: seq<string>, hops: Option<int>, queued: Stop)
    requires Inside(Nodes(e, roots), frontier) && queued in frontier && WithinHops(hops, queued.depth)
    ensures queued.domain in Walked(e, roots, frontier, reached, hops, None)
    decreases Left(e, roots, reached), |frontier|
  {
    var stop := frontier[0];
    ReachedIsKept(e, roots, frontier, reached, hops, None);
    if stop.domain in reached || !WithinHops(hops, stop.depth) {
      if stop != queued {
        QueuedIsReached(e, roots, frontier[1..], reached, hops, queued);
      }
    } else {
      Shrinks(e, roots, reached, stop.domain);
      ReachedIsKept(e, roots, frontier[1..] + Next(e, stop, reached), reached + [stop.domain], hops, None);
      if stop != queued {
        QueuedIsReached(e, roots, frontier[1..] + Next(e, stop, reached), reached + [stop.domain], hops, queued);
      }
    }
  }

  /** The children of what one walk reaches are reached by the walk with a hop more. */
  lemma {:induction false} ChildrenAreReached(e: Estate, roots: seq<string>, frontier: seq<Stop>, reached: seq<string>,
                                              hops: Option<int>, parent: string, child: string)
    requires Inside(Nodes(e, roots), frontier) && Levelled(frontier)
    requires parent in Walked(e, roots, frontier, reached, hops, None) && parent !in reached && IsChild(e, parent, child)
    ensures child in Walked(e, roots, frontier, reached, OneMore(hops), None)
    decreases Left(e, roots, reached), |frontier|
  {
    var stop := frontier[0];
    if stop.domain in reached {
      ChildrenAreReached(e, roots, frontier[1..], reached, hops, parent, child);
    } else if !WithinHops(hops, stop.depth) {
      forall other | other in frontier
        ensures !WithinHops(hops, other.depth)
      {
        var i :| 0 <= i < |frontier| && frontier[i] == other;
      }
      BeyondHopsNothingIsReached(e, roots, frontier, reached, hops);
      assert false;
    } else {
      Shrinks(e, roots, reached, stop.domain);
      var later, grown := frontier[1..] + Next(e, stop, reached), reached + [stop.domain];
      if parent == stop.domain {
        ReachedIsKept(e, roots, later, grown, OneMore(hops), None);
        if child !in grown {
          ChildIsNext(e, stop, reached, child);
          QueuedIsReached(e, roots, later, grown, OneMore(hops), Stop(child, stop.depth + 1));
        }
      } else {
        ChildrenAreReached(e, roots, later, grown, hops, parent, child);
      }
    }
  }

  lemma ChildIsNext(e: Estate, stop: Stop, reached: seq<string>, child: string)
    requires IsChild(e, stop.domain, child) && child !in reached + [stop.domain]
    ensures Stop(child, stop.depth + 1) in Next(e, stop, reached)
  {
    var domains := Unseen(Children(e, stop.domain), reached + [stop.domain]);
    var i :| 0 <= i < |domains| && domains[i] == child;
    assert AtDepth(domains, stop.depth + 1)[i] == Stop(child, stop.depth + 1);
  }

  lemma RootIsReached(e: Estate, roots: seq<string>, hops: Option<int>, domain: string)
    requires domain in roots && WithinHops(hops, 1)
    ensures domain in WalkFrom(e, roots, hops, None)
  {
    var i :| 0 <= i < |roots| && roots[i] == domain;
    assert AtDepth(roots, 1)[i] == Stop(domain, 1);
    QueuedIsReached(e, roots, AtDepth(roots, 1), [], hops, Stop(domain, 1));
  }

  lemma DeepHasParent(e: Estate, roots: seq<string>, depth: int, domain: string) returns (parent: string)
    requires AtMostDeep(e, roots, depth, domain) && !AtMostDeep(e, roots, depth - 1, domain) && domain !in roots
    ensures AtMostDeep(e, roots, depth - 1, parent) && IsChild(e, parent, domain)
  {
    assert depth > 1;
    parent := LastStep(ChildSet(e), Elements(roots), depth - 1, domain);
  }

  lemma ChildIsWalked(e: Estate, roots: seq<string>, hops: Option<int>, parent: string, child: string)
    requires parent in WalkFrom(e, roots, hops, None) && IsChild(e, parent, child)
    ensures child in WalkFrom(e, roots, OneMore(hops), None)
  {
    ChildrenAreReached(e, roots, AtDepth(roots, 1), [], hops, parent, child);
  }

  lemma {:induction false} NearIsWalked(e: Estate, roots: seq<string>, depth: nat, domain: string)
    requires AtMostDeep(e, roots, depth, domain)
    ensures domain in WalkFrom(e, roots, Some(depth), None)
    decreases depth
  {
    if domain in roots {
      RootIsReached(e, roots, Some(depth), domain);
    } else if AtMostDeep(e, roots, depth - 1, domain) {
      NearIsWalked(e, roots, depth - 1, domain);
      WalkGrowsByExtension(e, roots, Some(depth - 1), None, Some(depth), None);
    } else {
      var parent := DeepHasParent(e, roots, depth, domain);
      NearIsWalked(e, roots, depth - 1, parent);
      ChildIsWalked(e, roots, Some(depth - 1), parent, domain);
    }
  }

  /** With no component bound the walk reaches exactly the domains at most `hops` down. */
  lemma WalkReachesTheNear(e: Estate, roots: seq<string>, hops: int, domain: string)
    ensures domain in WalkFrom(e, roots, Some(hops), None) <==> AtMostDeep(e, roots, hops, domain)
  {
    if domain in WalkFrom(e, roots, Some(hops), None) {
      WalkedIsNear(e, roots, AtDepth(roots, 1), [], Some(hops), domain);
      var depth: int :| WithinHops(Some(hops), depth) && AtMostDeep(e, roots, depth, domain);
      NearIsMonotone(ChildSet(e), Elements(roots), depth - 1, hops - 1, domain);
    }
    if AtMostDeep(e, roots, hops, domain) {
      NearIsWalked(e, roots, hops, domain);
    }
  }

  /** With no bound at all it reaches exactly the domains some path leads to. */
  lemma WalkReachesTheReachable(e: Estate, roots: seq<string>, domain: string)
    ensures domain in WalkFrom(e, roots, None, None) <==> Reachable(ChildSet(e), Elements(roots), domain)
  {
    if domain in WalkFrom(e, roots, None, None) {
      WalkedIsNear(e, roots, AtDepth(roots, 1), [], None, domain);
    }
    if n: nat :| Near(ChildSet(e), Elements(roots), n, domain) {
      assert AtMostDeep(e, roots, n + 1, domain);
      NearIsWalked(e, roots, n + 1, domain);
      HopsExtend(e, roots, AtDepth(roots, 1), [], Some(n + 1), None);
    }
  }

  // ---------------------------------------------------------------- the probe

  ghost predicate ReachesAll(e: Estate, roots: seq<string>, reached: seq<string>) {
    forall domain: string :: domain in reached <==> Reachable(ChildSet(e), Elements(roots), domain)
  }

  predicate Sensible(bound: Option<int>) {
    bound.Some? ==> bound.value >= 0
  }

  /** If one hop more finds nothing new, no number of hops does. */
  lemma {:induction false} NothingNewMeansAll(e: Estate, roots: seq<string>, hops: nat, depth: nat, domain: string)
    requires WalkFrom(e, roots, Some(hops + 1), None) == WalkFrom(e, roots, Some(hops), None)
    requires AtMostDeep(e, roots, depth, domain)
    ensures domain in WalkFrom(e, roots, Some(hops), None)
    decreases depth
  {
    if domain in roots {
      RootIsReached(e, roots, Some(hops + 1), domain);
    } else if AtMostDeep(e, roots, depth - 1, domain) {
      NothingNewMeansAll(e, roots, hops, depth - 1, domain);
    } else {
      var parent := DeepHasParent(e, roots, depth, domain);
      NothingNewMeansAll(e, roots, hops, depth - 1, parent);
      ChildIsWalked(e, roots, Some(hops), parent, domain);
    }
  }

  /** The probe never finds less than was reached. */
  lemma DroppedIsACount(e: Estate, roots: seq<string>, hops: Option<int>, components: Option<int>)
    ensures Dropped(e, roots, hops, components) >= 0
  {
    WalkGrowsByExtension(e, roots, hops, components, OneMore(hops), OneMore(components));
  }

  lemma UnboundedHopsAreAll(e: Estate, roots: seq<string>, hops: Option<int>)
    requires Sensible(hops) && WalkFrom(e, roots, OneMore(hops), None) == WalkFrom(e, roots, hops, None)
    ensures ReachesAll(e, roots, WalkFrom(e, roots, hops, None))
  {
    forall domain: string
      ensures domain in WalkFrom(e, roots, hops, None) <==> Reachable(ChildSet(e), Elements(roots), domain)
    {
      WalkReachesTheReachable(e, roots, domain);
      HopsExtend(e, roots, AtDepth(roots, 1), [], hops, None);
      if n: nat :| hops.Some? && Near(ChildSet(e), Elements(roots), n, domain) {
        NothingNewMeansAll(e, roots, hops.value, n + 1, domain);
      }
    }
  }

  /** One extra slot of each suffices: with bounds of zero or more, nothing is disclosed as dropped
      exactly when the walk reached every domain reachable from the root, cycles included. */
  lemma ProbeIsExact(e: Estate, roots: seq<string>, hops: Option<int>, components: Option<int>)
    requires Sensible(hops) && Sensible(components)
    ensures Dropped(e, roots, hops, components) == 0 <==> ReachesAll(e, roots, WalkFrom(e, roots, hops, components))
  {
    var reached := WalkFrom(e, roots, hops, components);
    var full := WalkFrom(e, roots, OneMore(hops), OneMore(components));
    WalkGrowsByExtension(e, roots, hops, components, OneMore(hops), OneMore(components));
    WalkIsFirstOfBreadthOrder(e, roots, hops, components);
    WalkIsFirstOfBreadthOrder(e, roots, OneMore(hops), OneMore(components));
    HopsExtend(e, roots, AtDepth(roots, 1), [], hops, OneMore(hops));
    if |full| == |reached| {
      assert full == WalkFrom(e, roots, OneMore(hops), None);
      assert reached == WalkFrom(e, roots, hops, None);
      UnboundedHopsAreAll(e, roots, hops);
    }
    if ReachesAll(e, roots, reached) {
      WalkGrowsByExtension(e, roots, OneMore(hops), OneMore(components), None, None);
      NothingBeyondAll(e, roots, reached, full);
    }
  }

  lemma NothingBeyondAll(e: Estate, roots: seq<string>, reached: seq<string>, full: seq<string>)
    requires ReachesAll(e, roots, reached) && reached <= full <= WalkFrom(e, roots, None, None)
    ensures full == reached
  {
    WalkListsParentsOnceAndFirst(e, roots, None, None);
    if |reached| < |full| {
      var extra := full[|reached|];
      LaterIsNew(WalkFrom(e, roots, None, None), reached, |reached|);
      WalkReachesTheReachable(e, roots, extra);
    }
  }

  lemma LaterIsNew(all: seq<string>, reached: seq<string>, k: nat)
    requires NoRepeats(all) && reached <= all && |reached| <= k < |all|
    ensures all[k] !in reached
  {
  }

  /** A bound below zero makes both walks empty, so nothing is ever disclosed as dropped: the probe
      is exact if and only if both bounds are sensible or there is nothing to reach. */
  lemma ProbeIsExactIff(e: Estate, roots: seq<string>, hops: Option<int>, components: Option<int>)
    ensures (Dropped(e, roots, hops, components) == 0 <==> ReachesAll(e, roots, WalkFrom(e, roots, hops, components)))
       <==> (Sensible(hops) && Sensible(components)) || roots == []
  {
    if Sensible(hops) && Sensible(components) {
      ProbeIsExact(e, roots, hops, components);
    } else if roots == [] {
      forall domain: string
        ensures !Reachable(ChildSet(e), Elements(roots), domain)
      {
        WalkReachesTheReachable(e, roots, domain);
      }
    } else {
      NegativeBoundReachesNothing(e, roots, hops, components);
      assert Near(ChildSet(e), Elements(roots), 0, roots[0]);
    }
  }

  lemma NegativeBoundReachesNothing(e: Estate, roots: seq<string>, hops: Option<int>, components: Option<int>)
    requires !(Sensible(hops) && Sensible(components))
    ensures WalkFrom(e, roots, hops, components) == [] && WalkFrom(e, roots, OneMore(hops), OneMore(components)) == []
  {
    WalkIsFirstOfBreadthOrder(e, roots, hops, components);
    WalkIsFirstOfBreadthOrder(e, roots, OneMore(hops), OneMore(components));
    if !Sensible(hops) {
      BeyondHopsNothingIsReached(e, roots, AtDepth(roots, 1), [], hops);
      BeyondHopsNothingIsReached(e, roots, AtDepth(roots, 1), [], OneMore(hops));
    }
  }

  // ---------------------------------------------------------------- who is reachable

  /** `n` parents up from the domain is one of `roots`. */
  predicate Descends(e: Estate, roots: set<string>, domain: string, n: nat)
    decreases n
  {
    if n == 0 then domain in roots
    else domain in e.parent && IsChild(e, e.parent[domain], domain) && Descends(e, roots, e.parent[domain], n - 1)
  }

  lemma {:induction false} DescendsIsNear(e: Estate, roots: set<string>, domain: string, n: nat)
    requires Descends(e, roots, domain, n)
    ensures Near(ChildSet(e), roots, n, domain)
    decreases n
  {
    if n > 0 {
      DescendsIsNear(e, roots, e.parent[domain], n - 1);
      assert domain in ChildSet(e)(e.parent[domain]);
    }
  }

  lemma {:induction false} NearDescends(e: Estate, roots: set<string>, domain: string, n: nat) returns (k: nat)
    requires Near(ChildSet(e), roots, n, domain)
    ensures Descends(e, roots, domain, k)
    decreases n
  {
    if n == 0 {
      k := 0;
    } else if Near(ChildSet(e), roots, n - 1, domain) {
      k := NearDescends(e, roots, domain, n - 1);
    } else {
      var parent := LastStep(ChildSet(e), roots, n, domain);
      k := NearDescends(e, roots, parent, n - 1);
      assert domain in ChildSet(e)(parent);
      k := k + 1;
    }
  }

  /** Following declared parents upwards ends at a root child. */
  ghost predicate Grounded(e: Estate, roots: set<string>, domain: string) {
    exists n: nat :: Descends(e, roots, domain, n)
  }

  lemma GroundedIsReachable(e: Estate, roots: set<string>, domain: string)
    requires Grounded(e, roots, domain)
    ensures Reachable(ChildSet(e), roots, domain)
  {
    var n: nat :| Descends(e, roots, domain, n);
    DescendsIsNear(e, roots, domain, n);
  }

  lemma ReachableIsGrounded(e: Estate, roots: set<string>, domain: string)
    requires Reachable(ChildSet(e), roots, domain)
    ensures Grounded(e, roots, domain)
  {
    var n: nat :| Near(ChildSet(e), roots, n, domain);
    var k := NearDescends(e, roots, domain, n);
  }

  /** The unbounded walk from the root shows a domain exactly when its line of visible parents ends:
      only domains on, or below, a cycle of parents are out of its reach. */
  lemma OnlyCyclesAreUnreachable(e: Estate, domain: string)
    ensures domain in WalkFrom(e, RootChildren(e), None, None) <==> Grounded(e, Elements(RootChildren(e)), domain)
  {
    WalkReachesTheReachable(e, RootChildren(e), domain);
    var roots := Elements(RootChildren(e));
    if Grounded(e, roots, domain) {
      GroundedIsReachable(e, roots, domain);
    } else if Reachable(ChildSet(e), roots, domain) {
      ReachableIsGrounded(e, roots, domain);
    }
  }
}
