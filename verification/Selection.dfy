/** Which governed domains a directive selects (`hyperset/bundle/resolver.py`), and the directive
    that asks (`hyperset/bundle/directive.py`). Nothing is matched by similarity. */
module Selection {
  import opened Prelude

  // ---------------------------------------------------------------- the directive

  datatype Directive = Directive(domains: seq<string>, concepts: seq<string>, assetRefs: seq<string>)

  datatype Construction = Made(directive: Directive) | ConceptsWithoutDomains | DomainsWithoutConcepts

  function Canonical(domain: string): string {
    Lower(Stripped(domain))
  }

  function Canonicals(domains: seq<string>): (r: seq<string>)
    ensures |r| == |domains| && forall i :: 0 <= i < |r| ==> r[i] == Canonical(domains[i])
  {
    if domains == [] then [] else [Canonical(domains[0])] + Canonicals(domains[1..])
  }

  /** `ContextDirective(...)`: a claim and the domains it is made of come together or not at all. */
  function Construct(domains: seq<string>, concepts: seq<string>, assetRefs: seq<string>): Construction {
    if concepts != [] && domains == [] then ConceptsWithoutDomains
    else if domains != [] && concepts == [] then DomainsWithoutConcepts
    else Made(Directive(Canonicals(domains), concepts, assetRefs))
  }

  // ---------------------------------------------------------------- the corpus

  /** A configured source: the domain its snapshot declares, and the terms that domain defines. */
  datatype Source = Source(id: string, domain: string, terms: seq<string>)

  datatype Refusal =
    | NoContextSource
    | UnknownDomain(names: set<string>)
    | DomainAmbiguous(names: set<string>)
    | NoneDeclares(terms: set<string>)
    | AddsNothing(domains: set<string>)
    | NotDeclared(source: Source, terms: set<string>)

  /** `discover` names the subject a refusal leaves discovery to answer about. */
  datatype Selected =
    | EvidenceOnly
    | One(source: Source)
    | Several(sources: seq<Source>)
    | Refused(refusal: Refusal, discover: Option<string>)

  // ---------------------------------------------------------------- selecting

  /** `list(dict.fromkeys(...))`: first occurrences, in order. */
  function Once(s: seq<string>): (r: seq<string>)
    ensures forall x :: x in r <==> x in s
    ensures forall i, j :: 0 <= i < j < |r| ==> r[i] != r[j]
  {
    if s == [] then []
    else
      var before, last := Once(s[..|s| - 1]), s[|s| - 1];
      assert s == s[..|s| - 1] + [last];
      if last in before then before else before + [last]
  }

  function Matching(sources: seq<Source>, wanted: seq<string>): (r: seq<Source>)
    ensures forall s :: s in r <==> s in sources && s.domain in wanted
  {
    if sources == [] then []
    else if sources[0].domain in wanted then [sources[0]] + Matching(sources[1..], wanted)
    else Matching(sources[1..], wanted)
  }

  function DomainsOf(sources: seq<Source>): set<string> {
    set s <- sources :: s.domain
  }

  function Unknown(matches: seq<Source>, wanted: seq<string>): set<string> {
    set d <- wanted | d !in DomainsOf(matches)
  }

  /** Domains that more than one source claims. */
  function Ambiguous(matches: seq<Source>): set<string> {
    set i, j | 0 <= i < j < |matches| && matches[i].domain == matches[j].domain :: matches[i].domain
  }

  predicate DeclaredBySome(sources: seq<Source>, term: string) {
    exists s <- sources :: term in s.terms
  }

  predicate DeclaresSome(source: Source, terms: seq<string>) {
    exists term <- terms :: term in source.terms
  }

  function Uncovered(matches: seq<Source>, claimed: seq<string>): set<string> {
    set term <- claimed | !DeclaredBySome(matches, term)
  }

  function Vacuous(matches: seq<Source>, claimed: seq<string>): set<string> {
    set s <- matches | !DeclaresSome(s, claimed) :: s.domain
  }

  /** `_covered`. */
  function Covered(source: Source, claimed: seq<string>): Selected {
    var missing := set term <- claimed | term !in source.terms;
    if missing != {} then Refused(NotDeclared(source, missing), Some(source.domain)) else One(source)
  }

  /** `_select`. */
  function Select(sources: seq<Source>, directive: Directive): Selected {
    if directive.domains == [] then EvidenceOnly
    else if sources == [] then Refused(NoContextSource, None)
    else
      var wanted := Once(directive.domains);
      var matches := Matching(sources, wanted);
      var unknown := Unknown(matches, wanted);
      if unknown != {} then
        Refused(UnknownDomain(unknown), if matches == [] && |wanted| == 1 then Some(wanted[0]) else None)
      else if Ambiguous(matches) != {} then Refused(DomainAmbiguous(Ambiguous(matches)), None)
      else if |matches| > 1 then
        var claimed := Once(directive.concepts);
        if Uncovered(matches, claimed) != {} then Refused(NoneDeclares(Uncovered(matches, claimed)), None)
        else if Vacuous(matches, claimed) != {} then Refused(AddsNothing(Vacuous(matches, claimed)), None)
        else Several(matches)
      else
        assert directive.domains[0] in wanted && directive.domains[0] !in unknown;
        Covered(matches[0], directive.concepts)
  }

  // ---------------------------------------------------------------- one directive per domain

  function CoveredTerms(concepts: seq<string>, source: Source): (r: seq<string>)
    ensures forall t :: t in r <==> t in concepts && t in source.terms
  {
    if concepts == [] then []
    else if concepts[0] in source.terms then [concepts[0]] + CoveredTerms(concepts[1..], source)
    else CoveredTerms(concepts[1..], source)
  }

  /** The directive a domain's own answer is resolved with. */
  function SubDirective(source: Source, directive: Directive): Construction {
    Construct([source.domain], CoveredTerms(directive.concepts, source), directive.assetRefs)
  }
}
