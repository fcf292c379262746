/** The bounded walk down from the synthetic root (`hyperset/bundle/expansion.py`): breadth first
    over the visible domains, capped in hops and in components, and run a second time with one slot
    more of each to decide whether anything was dropped. */
module Walk {
  import opened Prelude

  /** The visible domains in sorted order, and the parents they declare. */
  datatype Estate = Estate(domains: seq<string>, parent: map<string, string>)

  /** `domain` is a visible domain that declares `parent` as its parent. */
  predicate IsChild(e: Estate, parent: string, domain: string) {
    domain in e.domains && domain in e.parent && e.parent[domain] == parent && parent in e.domains
  }

  /** The children of a domain, in sorted order. */
  function Children(e: Estate, parent: string): (r: seq<string>)
    ensures forall d :: d in r <==> IsChild(e, parent, d)
  {
    ChildrenAmong(e, e.domains, parent)
  }

  function ChildrenAmong(e: Estate, domains: seq<string>, parent: string): (r: seq<string>)
    ensures forall d :: d in r <==> d in domains && d in e.parent && e.parent[d] == parent && parent in e.domains
  {
    if domains == [] then []
    else if domains[0] in e.parent && e.parent[domains[0]] == parent && parent in e.domains then
      [domains[0]] + ChildrenAmong(e, domains[1..], parent)
    else ChildrenAmong(e, domains[1..], parent)
  }

  /** No parent, or a parent that is not visible: never orphaned behind an invisible ancestor. */
  function RootChildren(e: Estate): (r: seq<string>)
    ensures forall d :: d in r <==> d in e.domains && (d in e.parent ==> e.parent[d] !in e.domains)
  {
    RootsAmong(e, e.domains)
  }

  function RootsAmong(e: Estate, domains: seq<string>): (r: seq<string>)
    ensures forall d :: d in r <==> d in domains && (d in e.parent ==> e.parent[d] !in e.domains)
  {
    if domains == [] then []
    else if domains[0] in e.parent && e.parent[domains[0]] in e.domains then RootsAmong(e, domains[1..])
    else [domains[0]] + RootsAmong(e, domains[1..])
  }

  datatype Stop = Stop(domain: string, depth: int)

  predicate WithinHops(hops: Option<int>, depth: int) {
    hops.Some? ==> depth <= hops.value
  }

  predicate Full(components: Option<int>, reached: seq<string>) {
    components.Some? && |reached| >= components.value
  }

  function AtDepth(domains: seq<string>, depth: int): (r: seq<Stop>)
    ensures |r| == |domains| && forall i :: 0 <= i < |r| ==> r[i] == Stop(domains[i], depth)
  {
    seq(|domains|, i requires 0 <= i < |domains| => Stop(domains[i], depth))
  }

  function Unseen(domains: seq<string>, seen: seq<string>): (r: seq<string>)
    ensures forall d :: d in r <==> d in domains && d !in seen
  {
    if domains == [] then []
    else if domains[0] in seen then Unseen(domains[1..], seen)
    else [domains[0]] + Unseen(domains[1..], seen)
  }

  function Elements(s: seq<string>): (r: set<string>)
    ensures forall d :: d in r <==> d in s
  {
    set d <- s
  }

  ghost predicate Inside(nodes: set<string>, frontier: seq<Stop>) {
    forall stop <- frontier :: stop.domain in nodes
  }

  /** The domains a walk may visit. */
  function Nodes(e: Estate, roots: seq<string>): set<string> {
    Elements(e.domains) + Elements(roots)
  }

  /** The domains not reached yet. */
  function Left(e: Estate, roots: seq<string>, reached: seq<string>): set<string> {
    Nodes(e, roots) - Elements(reached)
  }

  lemma Shrinks(e: Estate, roots: seq<string>, reached: seq<string>, domain: string)
    requires domain in Nodes(e, roots) && domain !in reached
    ensures Left(e, roots, reached + [domain]) < Left(e, roots, reached)
  {
    assert domain in Left(e, roots, reached) && domain !in Left(e, roots, reached + [domain]);
  }

  /** What the walk has reached once it has worked off `frontier`. */
  function Walked(e: Estate, roots: seq<string>, frontier: seq<Stop>, reached: seq<string>,
                  hops: Option<int>, components: Option<int>): seq<string>
    requires Inside(Nodes(e, roots), frontier)
    decreases Left(e, roots, reached), |frontier|
  {
    if frontier == [] then reached
    else
      var stop := frontier[0];
      if stop.domain in reached || !WithinHops(hops, stop.depth) then
        Walked(e, roots, frontier[1..], reached, hops, components)
      else if Full(components, reached) then reached
      else
        Shrinks(e, roots, reached, stop.domain);
        Walked(e, roots, frontier[1..] + Next(e, stop, reached), reached + [stop.domain], hops, components)
  }

  /** What a visited domain adds to the frontier. */
  function Next(e: Estate, stop: Stop, reached: seq<string>): seq<Stop> {
    AtDepth(Unseen(Children(e, stop.domain), reached + [stop.domain]), stop.depth + 1)
  }

  function WalkFrom(e: Estate, roots: seq<string>, hops: Option<int>, components: Option<int>): seq<string> {
    Walked(e, roots, AtDepth(roots, 1), [], hops, components)
  }

  function OneMore(bound: Option<int>): Option<int> {
    if bound.Some? then Some(bound.value + 1) else None
  }

  /** How many domains the walk says it is not showing; no message when it is 0. */
  function Dropped(e: Estate, roots: seq<string>, hops: Option<int>, components: Option<int>): int {
    |WalkFrom(e, roots, OneMore(hops), OneMore(components))| - |WalkFrom(e, roots, hops, components)|
  }

  /** The inner walk: a queue, and what it has reached. `reached` doubles as the seen set. */
  method WalkDown(e: Estate, roots: seq<string>, hops: Option<int>, components: Option<int>) returns (reached: seq<string>)
    ensures reached == WalkFrom(e, roots, hops, components)
  {
    reached := [];
    var frontier := AtDepth(roots, 1);
    while frontier != []
      invariant Inside(Nodes(e, roots), frontier)
      invariant Walked(e, roots, frontier, reached, hops, components) == WalkFrom(e, roots, hops, components)
      decreases Left(e, roots, reached), |frontier|
    {
      var stop := frontier[0];
      frontier := frontier[1..];
      if stop.domain in reached {
        continue;
      }
      if hops.Some? && stop.depth > hops.value {
        continue;
      }
      if components.Some? && |reached| >= components.value {
        break;
      }
      Shrinks(e, roots, reached, stop.domain);
      frontier := frontier + Next(e, stop, reached);
      reached := reached + [stop.domain];
    }
  }

  /** `_walk_from_root`: the domains reached, and how many more the wider probe found. */
  method WalkFromRoot(e: Estate, roots: seq<string>, hops: Option<int>, components: Option<int>)
    returns (reached: seq<string>, dropped: int)
    ensures reached == WalkFrom(e, roots, hops, components)
    ensures dropped == Dropped(e, roots, hops, components)
  {
    reached := WalkDown(e, roots, hops, components);
    var full := WalkDown(e, roots, OneMore(hops), OneMore(components));
    dropped := |full| - |reached|;
  }
}
