/** The budgeted root walk (`hyperset/bundle/expansion.py`): the whole walk if it fits, else the
    breadth a binary search finds, else an explicit refusal. Sizes are natural numbers. */
module Budget {
  import opened Prelude
  import opened Walk
  import opened WalkLaws

  const DEFAULT_MAX_HOPS: int := 6
  const MAX_MAX_HOPS: int := 32
  const DEFAULT_MAX_COMPONENTS: int := 100
  const MAX_MAX_COMPONENTS: int := 1000
  const DEFAULT_CONTEXT_BUDGET: int := 256000
  const MAX_CONTEXT_BUDGET: int := 2000000
  const MIN_CONTEXT_BUDGET: int := 512
  const MAX_EXCLUDED_DISCLOSURES: int := 50

  /** An absent bound is the default, a present one is capped; nothing raises a low one. */
  function EffectiveBound(value: Option<int>, default: int, maximum: int): int {
    match value
    case None => default
    case Some(v) => if v < maximum then v else maximum
  }

  /** What the parts of an answer weigh: the envelope around them, each domain with its pointers and
      edges, each excluded domain that is disclosed, and the warnings (for what the hop and component
      bounds dropped, for the exclusions left out, and for what the budget dropped). */
  datatype Costs = Costs(envelope: nat, domain: string -> nat, excluded: seq<nat>, warnings: (int, int, int) -> nat)

  function Weight(cost: string -> nat, reached: seq<string>): nat {
    if reached == [] then 0 else Weight(cost, reached[..|reached| - 1]) + cost(reached[|reached| - 1])
  }

  function Sum(s: seq<nat>): nat {
    if s == [] then 0 else Sum(s[..|s| - 1]) + s[|s| - 1]
  }

  /** How many exclusions are disclosed beside `reached` domains. */
  function Disclosed(costs: Costs, components: int, reached: int): (n: nat)
    ensures n <= |costs.excluded|
  {
    var room := if components < reached then 0 else components - reached;
    var limit := if room < MAX_EXCLUDED_DISCLOSURES then room else MAX_EXCLUDED_DISCLOSURES;
    if limit < |costs.excluded| then limit else |costs.excluded|
  }

  /** The serialised size of an answer. `dropped` counts what the bounds dropped, `cut` what the
      budget did. */
  function Size(costs: Costs, components: int, reached: seq<string>, dropped: int, cut: int): nat {
    var disclosed := Disclosed(costs, components, |reached|);
    costs.envelope + Weight(costs.domain, reached) + Sum(costs.excluded[..disclosed])
    + costs.warnings(dropped, |costs.excluded| - disclosed, cut)
  }

  datatype Answer = TooSmallABudget | Refused | Walked(reached: seq<string>, dropped: int, cut: int)

  /** The answer of a given breadth. */
  function OfBreadth(e: Estate, hops: int, full: int, breadth: int): Answer {
    var reached := WalkFrom(e, RootChildren(e), Some(hops), Some(breadth));
    Answer.Walked(reached, Dropped(e, RootChildren(e), Some(hops), Some(breadth)), full - |reached|)
  }

  predicate Fits(e: Estate, costs: Costs, hops: int, components: int, budget: int, full: int, breadth: int) {
    var answer := OfBreadth(e, hops, full, breadth);
    Size(costs, components, answer.reached, answer.dropped, answer.cut) <= budget
  }

  /** Halving between the breadths known to fit and known not to. */
  function Search(fits: int -> bool, low: int, high: int, best: Option<int>): Option<int>
    decreases high - low
  {
    if low > high then best
    else
      var breadth := (low + high) / 2;
      if fits(breadth) then Search(fits, breadth + 1, high, Some(breadth)) else Search(fits, low, breadth - 1, best)
  }

  function Expand(e: Estate, costs: Costs, maxHops: Option<int>, maxComponents: Option<int>, contextBudget: Option<int>): Answer {
    var hops := EffectiveBound(maxHops, DEFAULT_MAX_HOPS, MAX_MAX_HOPS);
    var components := EffectiveBound(maxComponents, DEFAULT_MAX_COMPONENTS, MAX_MAX_COMPONENTS);
    var budget := EffectiveBound(contextBudget, DEFAULT_CONTEXT_BUDGET, MAX_CONTEXT_BUDGET);
    if budget < MIN_CONTEXT_BUDGET then TooSmallABudget
    else Budgeted(e, costs, hops, components, budget)
  }

  function Budgeted(e: Estate, costs: Costs, hops: int, components: int, budget: int): Answer {
    var whole := Whole(e, hops, components);
    if Size(costs, components, whole.reached, whole.dropped, 0) <= budget then whole
    else
      var full := |whole.reached|;
      match Search(breadth => Fits(e, costs, hops, components, budget, full, breadth), 1, full - 1, None)
      case None => Refused
      case Some(breadth) => OfBreadth(e, hops, full, breadth)
  }

  function Whole(e: Estate, hops: int, components: int): Answer {
    Answer.Walked(WalkFrom(e, RootChildren(e), Some(hops), Some(components)), Dropped(e, RootChildren(e), Some(hops), Some(components)), 0)
  }

  /** `expand_from_root`. */
  method ExpandFromRoot(e: Estate, costs: Costs, maxHops: Option<int>, maxComponents: Option<int>, contextBudget: Option<int>)
    returns (answer: Answer)
    ensures answer == Expand(e, costs, maxHops, maxComponents, contextBudget)
  {
    var hops := EffectiveBound(maxHops, DEFAULT_MAX_HOPS, MAX_MAX_HOPS);
    var components := EffectiveBound(maxComponents, DEFAULT_MAX_COMPONENTS, MAX_MAX_COMPONENTS);
    var budget := EffectiveBound(contextBudget, DEFAULT_CONTEXT_BUDGET, MAX_CONTEXT_BUDGET);
    if budget < MIN_CONTEXT_BUDGET {
      return TooSmallABudget;
    }
    answer := LargestFitting(e, costs, hops, components, budget);
  }

  method LargestFitting(e: Estate, costs: Costs, hops: int, components: int, budget: int) returns (answer: Answer)
    ensures answer == Budgeted(e, costs, hops, components, budget)
  {
    var reached, dropped := WalkFromRoot(e, RootChildren(e), Some(hops), Some(components));
    answer := Answer.Walked(reached, dropped, 0);
    if Size(costs, components, reached, dropped, 0) <= budget {
      return;
    }
    var full := |reached|;
    ghost var fits := breadth => Fits(e, costs, hops, components, budget, full, breadth);
    var fitting := LargestBreadth(e, costs, hops, components, budget, full, fits);
    answer := Refused;
    if fitting.Some? {
      answer := Assemble(e, hops, full, fitting.value);
    }
  }

  /** The answer of a breadth, walked anew. */
  method Assemble(e: Estate, hops: int, full: int, breadth: int) returns (answer: Answer)
    ensures answer == OfBreadth(e, hops, full, breadth)
  {
    var reached, dropped := WalkFromRoot(e, RootChildren(e), Some(hops), Some(breadth));
    answer := Answer.Walked(reached, dropped, full - |reached|);
  }

  /** `fits` says of a breadth what `Fits` does. */
  ghost predicate Tells(fits: int -> bool, e: Estate, costs: Costs, hops: int, components: int, budget: int, full: int) {
    forall breadth: int {:trigger Fits(e, costs, hops, components, budget, full, breadth)} ::
      fits(breadth) <==> Fits(e, costs, hops, components, budget, full, breadth)
  }

  method Measure(e: Estate, costs: Costs, hops: int, components: int, budget: int, full: int, breadth: int, ghost fits: int -> bool)
    returns (enough: bool)
    requires Tells(fits, e, costs, hops, components, budget, full)
    ensures enough == fits(breadth)
  {
    var candidate := Assemble(e, hops, full, breadth);
    enough := Size(costs, components, candidate.reached, candidate.dropped, candidate.cut) <= budget;
    assert enough == Fits(e, costs, hops, components, budget, full, breadth);
  }

  /** The binary search over breadths. */
  method LargestBreadth(e: Estate, costs: Costs, hops: int, components: int, budget: int, full: int, ghost fits: int -> bool)
    returns (fitting: Option<int>)
    requires Tells(fits, e, costs, hops, components, budget, full)
    ensures fitting == Search(fits, 1, full - 1, None)
  {
    var low, high := 1, full - 1;
    fitting := None;
    while low <= high
      invariant Search(fits, low, high, fitting) == Search(fits, 1, full - 1, None)
      decreases high - low
    {
      var breadth := (low + high) / 2;
      var enough := Measure(e, costs, hops, components, budget, full, breadth, fits);
      if enough {
        fitting := Some(breadth);
        low := breadth + 1;
      } else {
        high := breadth - 1;
      }
    }
  }
}
