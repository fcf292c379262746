/** A directive that names several domains selects them only when every later step can go through. */
module SelectionLaws {
  import opened Prelude
  import opened Selection

  /** Exactly one configured source declares the domain. */
  ghost predicate DeclaredOnce(sources: seq<Source>, domain: string) {
    exists i :: 0 <= i < |sources| && sources[i].domain == domain && forall j :: 0 <= j < |sources| && sources[j].domain == domain ==> j == i
  }

  ghost predicate DistinctDomains(sources: seq<Source>) {
    forall i, j :: 0 <= i < j < |sources| ==> sources[i].domain != sources[j].domain
  }

  lemma AmbiguousIffShared(matches: seq<Source>)
    ensures Ambiguous(matches) == {} <==> DistinctDomains(matches)
  {
    if Ambiguous(matches) != {} {
      var d :| d in Ambiguous(matches);
    }
    if !DistinctDomains(matches) {
      var i, j :| 0 <= i < j < |matches| && matches[i].domain == matches[j].domain;
      assert matches[i].domain in Ambiguous(matches);
    }
  }

  /** The places of the sources `Matching` keeps. */
  lemma {:induction false} MatchingKeepsRepeats(sources: seq<Source>, wanted: seq<string>)
    ensures DistinctDomains(Matching(sources, wanted))
       <==> forall i, j :: 0 <= i < j < |sources| && sources[i].domain == sources[j].domain ==> sources[i].domain !in wanted
    decreases |sources|
  {
    if sources != [] {
      var rest, kept := sources[1..], Matching(sources[1..], wanted);
      MatchingKeepsRepeats(rest, wanted);
      if sources[0].domain in wanted {
        assert Matching(sources, wanted) == [sources[0]] + kept;
        HeadIsNew(sources[0], kept);
        assert (forall s <- kept :: s.domain != sources[0].domain) <==> (forall s <- rest :: s.domain != sources[0].domain) by {
          assert forall s :: s in kept <==> s in rest && s.domain in wanted;
        }
      }
    }
  }

  lemma HeadIsNew(head: Source, kept: seq<Source>)
    ensures DistinctDomains([head] + kept) <==> DistinctDomains(kept) && forall s <- kept :: s.domain != head.domain
  {
    var all := [head] + kept;
    if DistinctDomains(all) {
      forall i, j | 0 <= i < j < |kept|
        ensures kept[i].domain != kept[j].domain
      {
        assert all[i + 1] == kept[i] && all[j + 1] == kept[j];
      }
      forall s | s in kept
        ensures s.domain != head.domain
      {
        var i :| 0 <= i < |kept| && kept[i] == s;
        assert all[i + 1] == s && all[0] == head;
      }
    }
  }

  ghost predicate NoRepeatWanted(sources: seq<Source>, wanted: seq<string>) {
    forall i, j :: 0 <= i < j < |sources| && sources[i].domain == sources[j].domain ==> sources[i].domain !in wanted
  }

  /** Every wanted domain is declared by exactly one source. */
  ghost predicate Resolves(sources: seq<Source>, wanted: seq<string>) {
    forall d <- wanted :: DeclaredOnce(sources, d)
  }

  lemma TwiceIsNotOnce(sources: seq<Source>, i: nat, j: nat)
    requires i < j < |sources| && sources[i].domain == sources[j].domain
    ensures !DeclaredOnce(sources, sources[i].domain)
  {
  }

  lemma OnceIsMatched(sources: seq<Source>, wanted: seq<string>, d: string)
    requires DeclaredOnce(sources, d) && d in wanted
    ensures d in DomainsOf(Matching(sources, wanted))
  {
    var i :| 0 <= i < |sources| && sources[i].domain == d && forall j :: 0 <= j < |sources| && sources[j].domain == d ==> j == i;
    assert sources[i] in Matching(sources, wanted);
  }

  lemma MatchedUnlessRepeatedIsOnce(sources: seq<Source>, wanted: seq<string>, d: string)
    requires d in wanted && d in DomainsOf(Matching(sources, wanted)) && NoRepeatWanted(sources, wanted)
    ensures DeclaredOnce(sources, d)
  {
    var s :| s in Matching(sources, wanted) && s.domain == d;
    var i :| 0 <= i < |sources| && sources[i] == s;
    assert forall j :: 0 <= j < |sources| && sources[j].domain == d ==> j == i;
  }

  lemma ResolvesIff(sources: seq<Source>, wanted: seq<string>)
    ensures Resolves(sources, wanted)
       <==> Unknown(Matching(sources, wanted), wanted) == {} && Ambiguous(Matching(sources, wanted)) == {}
  {
    var matches := Matching(sources, wanted);
    AmbiguousIffShared(matches);
    MatchingKeepsRepeats(sources, wanted);
    if Resolves(sources, wanted) {
      forall d | d in wanted
        ensures d in DomainsOf(matches)
      {
        OnceIsMatched(sources, wanted, d);
      }
      forall i, j | 0 <= i < j < |sources| && sources[i].domain == sources[j].domain
        ensures sources[i].domain !in wanted
      {
        TwiceIsNotOnce(sources, i, j);
      }
    }
    if Unknown(matches, wanted) == {} && NoRepeatWanted(sources, wanted) {
      WantedAreMatched(sources, wanted);
      forall d | d in wanted
        ensures DeclaredOnce(sources, d)
      {
        assert d in (set x <- wanted);
        MatchedUnlessRepeatedIsOnce(sources, wanted, d);
      }
    }
  }

  /** With distinct domains there are as many matches as wanted domains. */
  lemma MatchesCount(matches: seq<Source>, wanted: seq<string>)
    requires DistinctDomains(matches) && DomainsOf(matches) == (set d <- wanted)
    requires forall i, j :: 0 <= i < j < |wanted| ==> wanted[i] != wanted[j]
    ensures |matches| == |wanted|
  {
    DistinctDomainsCount(matches);
    DistinctCount(wanted);
  }

  lemma {:induction false} DistinctDomainsCount(matches: seq<Source>)
    requires DistinctDomains(matches)
    ensures |DomainsOf(matches)| == |matches|
  {
    if matches != [] {
      var before, last := matches[..|matches| - 1], matches[|matches| - 1];
      DistinctDomainsCount(before);
      assert matches == before + [last];
      assert DomainsOf(matches) == DomainsOf(before) + {last.domain};
      assert last.domain !in DomainsOf(before);
    }
  }

  lemma {:induction false} DistinctCount(s: seq<string>)
    requires forall i, j :: 0 <= i < j < |s| ==> s[i] != s[j]
    ensures |(set x <- s)| == |s|
  {
    if s != [] {
      var before, last := s[..|s| - 1], s[|s| - 1];
      DistinctCount(before);
      assert s == before + [last];
      assert (set x <- s) == (set x <- before) + {last};
      assert last !in before;
    }
  }

  /** Every claimed concept has a named domain that declares it, and every named domain declares a
      claimed concept. */
  ghost predicate SharesTheClaim(matches: seq<Source>, concepts: seq<string>) {
    && (forall term <- concepts :: DeclaredBySome(matches, term))
    && (forall s <- matches :: DeclaresSome(s, concepts))
  }

  lemma SharesIff(matches: seq<Source>, concepts: seq<string>)
    ensures SharesTheClaim(matches, concepts) <==> Uncovered(matches, Once(concepts)) == {} && Vacuous(matches, Once(concepts)) == {}
  {
    var claimed := Once(concepts);
    forall s: Source
      ensures DeclaresSome(s, claimed) <==> DeclaresSome(s, concepts)
    {
    }
    assert Uncovered(matches, claimed) == {} <==> forall term <- concepts :: DeclaredBySome(matches, term) by {
      assert forall term :: term in Uncovered(matches, claimed) <==> term in concepts && !DeclaredBySome(matches, term);
    }
    assert forall s <- matches :: !DeclaresSome(s, claimed) ==> s.domain in Vacuous(matches, claimed);
  }

  /** A directive as its constructor leaves it. */
  predicate IsDirective(d: Directive) {
    d.domains == [] <==> d.concepts == []
  }

  /** Several domains are selected exactly when two or more are named, each is declared by exactly
      one configured source, and they share the claim out among them with none left over. */
  lemma SeveralIff(sources: seq<Source>, d: Directive)
    requires IsDirective(d)
    ensures Select(sources, d).Several?
       <==> sources != [] && |Once(d.domains)| > 1 && Resolves(sources, Once(d.domains))
            && SharesTheClaim(Matching(sources, Once(d.domains)), d.concepts)
  {
    var wanted := Once(d.domains);
    var matches := Matching(sources, wanted);
    ResolvesIff(sources, wanted);
    SharesIff(matches, d.concepts);
    AmbiguousIffShared(matches);
    if Resolves(sources, wanted) {
      WantedAreMatched(sources, wanted);
      MatchesCount(matches, wanted);
    }
  }

  lemma WantedAreMatched(sources: seq<Source>, wanted: seq<string>)
    requires Unknown(Matching(sources, wanted), wanted) == {}
    ensures DomainsOf(Matching(sources, wanted)) == (set d <- wanted)
  {
    var matches := Matching(sources, wanted);
    forall d | d in wanted
      ensures d in DomainsOf(matches)
    {
      assert d !in Unknown(matches, wanted);
    }
  }

  /** One is selected exactly when one domain is named, one source declares it, and it declares the
      whole claim. */
  lemma OneIff(sources: seq<Source>, d: Directive, source: Source)
    requires IsDirective(d)
    ensures Select(sources, d) == One(source)
       <==> |Once(d.domains)| == 1 && Resolves(sources, Once(d.domains))
            && source in sources && source.domain == Once(d.domains)[0] && forall term <- d.concepts :: term in source.terms
  {
    var wanted := Once(d.domains);
    var matches := Matching(sources, wanted);
    ResolvesIff(sources, wanted);
    AmbiguousIffShared(matches);
    if sources != [] && d.domains != [] && Resolves(sources, wanted) {
      WantedAreMatched(sources, wanted);
      MatchesCount(matches, wanted);
      assert d.domains[0] in wanted;
      if |wanted| == 1 {
        CoveredIff(matches[0], d.concepts);
      }
    }
    if |wanted| == 1 && Resolves(sources, wanted) {
      assert wanted[0] in d.domains;
      assert DeclaredOnce(sources, wanted[0]);
    }
  }

  lemma CoveredIff(source: Source, concepts: seq<string>)
    ensures Covered(source, concepts) == One(source) <==> forall term <- concepts :: term in source.terms
    ensures Covered(source, concepts).One? || Covered(source, concepts).Refused?
  {
    var missing := set term <- concepts | term !in source.terms;
    assert forall term <- concepts :: term !in source.terms ==> term in missing;
  }

  // ---------------------------------------------------------------- what follows is safe

  /** The constructor refuses exactly a claim without domains and domains without a claim, and what
      it makes is canonical. */
  lemma ConstructionIsExact(domains: seq<string>, concepts: seq<string>, assetRefs: seq<string>)
    ensures Construct(domains, concepts, assetRefs).Made? <==> (domains == [] <==> concepts == [])
    ensures Construct(domains, concepts, assetRefs).Made? ==> IsDirective(Construct(domains, concepts, assetRefs).directive)
  {
  }

  /** The concepts the sub-directives claim between them. */
  function SubClaims(matches: seq<Source>, concepts: seq<string>): set<string> {
    set s <- matches, t <- CoveredTerms(concepts, s) :: t
  }

  lemma SubClaimsAddUp(matches: seq<Source>, concepts: seq<string>)
    requires forall term <- concepts :: DeclaredBySome(matches, term)
    ensures SubClaims(matches, concepts) == (set t <- concepts)
  {
    forall t | t in concepts
      ensures t in SubClaims(matches, concepts)
    {
      assert DeclaredBySome(matches, t);
      var s :| s in matches && t in s.terms;
      assert t in CoveredTerms(concepts, s);
    }
  }

  /** Once several are selected, the domains are distinct and at least two, they are the ones the
      directive names, no sub-directive is malformed, and the sub-claims add up to the claim. */
  lemma SeveralIsSafe(sources: seq<Source>, d: Directive)
    requires IsDirective(d) && Select(sources, d).Several?
    ensures var matches := Select(sources, d).sources;
            && |matches| >= 2 && DistinctDomains(matches)
            && DomainsOf(matches) == (set x <- d.domains)
            && (forall s <- matches :: SubDirective(s, d).Made? && SubDirective(s, d).directive.concepts != [])
            && SubClaims(matches, d.concepts) == (set t <- d.concepts)
  {
    SeveralMeans(sources, d);
    var matches := Select(sources, d).sources;
    forall s | s in matches
      ensures SubDirective(s, d).Made? && SubDirective(s, d).directive.concepts != []
    {
    }
    SubClaimsAddUp(matches, d.concepts);
  }

  lemma SeveralMeans(sources: seq<Source>, d: Directive)
    requires IsDirective(d) && Select(sources, d).Several?
    ensures var matches := Select(sources, d).sources;
            && |matches| >= 2 && DistinctDomains(matches)
            && DomainsOf(matches) == (set x <- d.domains)
            && SharesTheClaim(matches, d.concepts)
  {
    var wanted := Once(d.domains);
    var matches := Matching(sources, wanted);
    SeveralIff(sources, d);
    AmbiguousIffShared(matches);
    WantedAreMatched(sources, wanted);
  }

  /** The sub-directives of a selection, built one after the other as the resolver builds them: none
      of the constructions is refused. */
  method SubDirectives(matches: seq<Source>, d: Directive) returns (subs: seq<Directive>)
    requires forall s <- matches :: SubDirective(s, d).Made?
    ensures |subs| == |matches| && forall i :: 0 <= i < |subs| ==> Made(subs[i]) == SubDirective(matches[i], d)
  {
    subs := [];
    for i := 0 to |matches|
      invariant |subs| == i && forall k :: 0 <= k < i ==> Made(subs[k]) == SubDirective(matches[k], d)
    {
      assert matches[i] in matches;
      var sub := SubDirective(matches[i], d);
      subs := subs + [sub.directive];
    }
  }

  /** `_multi_domain` on what `_select` selects. */
  method MultiDomain(sources: seq<Source>, d: Directive) returns (subs: seq<Directive>)
    requires IsDirective(d) && Select(sources, d).Several?
    ensures |subs| == |Select(sources, d).sources| >= 2
    ensures forall i :: 0 <= i < |subs| ==> Made(subs[i]) == SubDirective(Select(sources, d).sources[i], d)
  {
    SeveralIsSafe(sources, d);
    subs := SubDirectives(Select(sources, d).sources, d);
  }

  /** Discovery is offered a subject only when the whole request has a single one: a lone domain that
      nothing declares, or a lone domain that does not declare part of the claim. */
  lemma DiscoverableIff(sources: seq<Source>, d: Directive)
    requires IsDirective(d) && Select(sources, d).Refused?
    ensures Select(sources, d).discover.Some?
       <==> && sources != [] && |Once(d.domains)| == 1
            && ((forall s <- sources :: s.domain != Once(d.domains)[0]) || DeclaredOnce(sources, Once(d.domains)[0]))
    ensures Select(sources, d).discover.Some? ==> Select(sources, d).discover.value in d.domains
  {
    var wanted := Once(d.domains);
    var matches := Matching(sources, wanted);
    ResolvesIff(sources, wanted);
    AmbiguousIffShared(matches);
    if |wanted| == 1 {
      assert wanted[0] in d.domains;
      assert Resolves(sources, wanted) <==> DeclaredOnce(sources, wanted[0]);
      if matches != [] {
        assert matches[0] in matches;
      }
    }
    if Resolves(sources, wanted) && d.domains != [] {
      WantedAreMatched(sources, wanted);
      MatchesCount(matches, wanted);
    }
  }
}
