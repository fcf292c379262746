/** The pairing of filters on the texts themselves: fragments are read into the comparator's two keys,
    de-duplicated, and paired, and everything the pairing promises holds of the texts. */
module TextPairing {
  import opened Prelude
  import opened Passes
  import opened Pairing
  import opened PairingLaws

  type Key = seq<string>

  /** The key a fragment is loosely compared by. One whose relaxation has no end is in a class of its
      own; nothing else is ever compared with it. */
  function CoarseKey(key: Key): Key {
    if Relaxable(key) then Relaxed(key) else key
  }

  /** A fragment, read into its two keys. */
  function Read(text: string): Stated<Key> {
    Stated(text, Canonical(text), CoarseKey(Canonical(text)))
  }

  function ReadAll(texts: seq<string>): (fs: seq<Stated<Key>>)
    ensures |fs| == |texts| && forall i :: 0 <= i < |texts| ==> fs[i] == Read(texts[i])
  {
    seq(|texts|, i requires 0 <= i < |texts| => Read(texts[i]))
  }

  /** The comparator comes to an end on every required and stated filter. */
  ghost predicate AllCompare(governed: seq<string>, proposed: seq<string>) {
    forall g <- governed, p <- proposed :: Comparable(Canonical(g), Canonical(p))
  }

  /** Read fragments are judged as the comparator judges their texts. */
  lemma ReadIsJudged(g: string, p: string)
    requires Comparable(Canonical(g), Canonical(p))
    ensures Judge(Read(g), Read(p)) == CompareKeys(Canonical(g), Canonical(p))
  {
  }

  // ---------------------------------------------------------------- one entry per computation

  function Filters(texts: seq<string>): seq<Stated<Key>> {
    Unique(ReadAll(texts))
  }

  /** De-duplicated fragments are read texts, one per computation, and their fine keys determine their
      coarse ones: every law of the pairing holds of them. */
  lemma FiltersAreOrderly(governed: seq<string>, proposed: seq<string>)
    ensures Distinct(Filters(governed)) && Distinct(Filters(proposed)) && Coherent(Filters(governed) + Filters(proposed))
  {
    UniqueKeepsOnePerKey(ReadAll(governed));
    UniqueKeepsOnePerKey(ReadAll(proposed));
    UniqueIsCoherent(ReadAll(governed), ReadAll(proposed));
  }

  lemma FilterIsRead(texts: seq<string>, i: nat)
    requires i < |Filters(texts)|
    ensures var f := Filters(texts)[i]; f.text in texts && f == Read(f.text)
  {
    UniqueKeepsOnePerKey(ReadAll(texts));
    var f := Filters(texts)[i];
    assert f in ReadAll(texts);
    var k :| 0 <= k < |texts| && ReadAll(texts)[k] == f;
  }

  // ---------------------------------------------------------------- how many are missing

  function CountMissing(findings: seq<Finding<Key>>): nat {
    if findings == [] then 0
    else CountMissing(findings[..|findings| - 1]) + if findings[|findings| - 1].MissingFilter? then 1 else 0
  }

  lemma {:induction false} CountAppends(a: seq<Finding<Key>>, b: seq<Finding<Key>>)
    ensures CountMissing(a + b) == CountMissing(a) + CountMissing(b)
    decreases |b|
  {
    if b == [] {
      assert a + b == a;
    } else {
      assert (a + b)[..|a + b| - 1] == a + b[..|b| - 1];
      CountAppends(a, b[..|b| - 1]);
    }
  }

  function MissingBefore(governed: seq<Stated<Key>>, proposed: seq<Stated<Key>>, n: nat): set<nat>
    requires n <= |governed|
  {
    set i: nat | i < n && FateOf(governed, proposed, i) == Missing
  }

  lemma {:induction false} MissingAreReported(governed: seq<Stated<Key>>, proposed: seq<Stated<Key>>, n: nat)
    requires n <= |governed|
    ensures CountMissing(RequiredFindings(governed, proposed, n)) == |MissingBefore(governed, proposed, n)|
    decreases n
  {
    if n == 0 {
      assert MissingBefore(governed, proposed, 0) == {};
    } else {
      MissingAreReported(governed, proposed, n - 1);
      var missing := FateOf(governed, proposed, n - 1) == Missing;
      var before := MissingBefore(governed, proposed, n - 1);
      assert MissingBefore(governed, proposed, n) == if missing then before + {n - 1} else before;
    }
  }

  lemma {:induction false} ExtrasAreNotMissing(governed: seq<Stated<Key>>, proposed: seq<Stated<Key>>, n: nat)
    requires n <= |proposed|
    ensures CountMissing(ExtraFindings(governed, proposed, n)) == 0
    decreases n
  {
    if n > 0 {
      ExtrasAreNotMissing(governed, proposed, n - 1);
    }
  }

  lemma FindingsCountTheMissing(governed: seq<Stated<Key>>, proposed: seq<Stated<Key>>)
    ensures CountMissing(Findings(governed, proposed)) == |MissingSet(governed, proposed)|
  {
    MissingAreReported(governed, proposed, |governed|);
    ExtrasAreNotMissing(governed, proposed, |proposed|);
    CountAppends(RequiredFindings(governed, proposed, |governed|), ExtraFindings(governed, proposed, |proposed|));
    assert MissingBefore(governed, proposed, |governed|) == MissingSet(governed, proposed);
  }

  // ---------------------------------------------------------------- the promises, on texts

  /** A pairing of the required computations with the stated ones: injective, and the comparator calls
      no pair DIFFERENT. */
  ghost predicate IsPairing(governed: seq<string>, proposed: seq<string>, m: map<nat, nat>) {
    var g, p := Filters(governed), Filters(proposed);
    && (forall i <- m :: i < |g| && m[i] < |p| && NotDifferent(g[i].text, p[m[i]].text))
    && (forall a <- m, b <- m :: a != b ==> m[a] != m[b])
  }

  predicate NotDifferent(g: string, p: string) {
    Comparable(Canonical(g), Canonical(p)) && CompareKeys(Canonical(g), Canonical(p)) != Different
  }

  lemma PairingIsMatching(governed: seq<string>, proposed: seq<string>, m: map<nat, nat>)
    requires AllCompare(governed, proposed)
    ensures IsPairing(governed, proposed, m) <==> Matching(Filters(governed), Filters(proposed), m)
  {
    var g, p := Filters(governed), Filters(proposed);
    forall i <- m | i < |g| && m[i] < |p|
      ensures NotDifferent(g[i].text, p[m[i]].text) <==> Judge(g[i], p[m[i]]) != Different
    {
      FilterIsRead(governed, i);
      FilterIsRead(proposed, m[i]);
      ReadIsJudged(g[i].text, p[m[i]].text);
    }
  }

  /** The number of required filters reported missing is the least over all pairings of the texts. */
  lemma FewestAreMissing(governed: seq<string>, proposed: seq<string>)
    requires AllCompare(governed, proposed)
    ensures var g, p := Filters(governed), Filters(proposed); var missing := CountMissing(Findings(g, p));
            && (forall m :: IsPairing(governed, proposed, m) ==> |m| + missing <= |g|)
            && (exists m :: IsPairing(governed, proposed, m) && |m| + missing == |g|)
  {
    var g, p := Filters(governed), Filters(proposed);
    FiltersAreOrderly(governed, proposed);
    FindingsCountTheMissing(g, p);
    PairsMatch(g, p);
    PairingLosesNothing(g, p);
    PairingIsMatching(governed, proposed, Pairs(g, p));
    forall m | IsPairing(governed, proposed, m)
      ensures |m| + |MissingSet(g, p)| <= |g|
    {
      PairingIsMatching(governed, proposed, m);
      PairingIsOptimal(g, p, m);
    }
  }

  /** The distinct computations among the texts that share a relaxed key. */
  function Class(texts: seq<string>, c: Key): set<Key> {
    set t <- texts | CoarseKey(Canonical(t)) == c :: Canonical(t)
  }

  lemma ClassOfFilters(texts: seq<string>, c: Key)
    ensures OfClass(Filters(texts), c) == Class(texts, c)
  {
    var fs := ReadAll(texts);
    UniqueKeepsOnePerKey(fs);
    forall k | k in OfClass(Filters(texts), c)
      ensures k in Class(texts, c)
    {
      var i :| 0 <= i < |Filters(texts)| && Filters(texts)[i].fine == k && Filters(texts)[i].coarse == c;
      FilterIsRead(texts, i);
      assert Filters(texts)[i].text in texts;
    }
    forall k | k in Class(texts, c)
      ensures k in OfClass(Filters(texts), c)
    {
      var t :| t in texts && CoarseKey(Canonical(t)) == c && Canonical(t) == k;
      var n :| 0 <= n < |texts| && texts[n] == t;
      assert fs[n].fine in Fines(fs) && fs[n].fine == k;
      assert k in Fines(Filters(texts));
      var i :| 0 <= i < |Filters(texts)| && Filters(texts)[i].fine == k;
      FilterIsRead(texts, i);
    }
  }

  /** In each relaxed class of the texts, as many required computations are missing as are required
      beyond what is stated. */
  lemma MissingIsTheTextShortfall(governed: seq<string>, proposed: seq<string>, c: Key)
    ensures var required, stated := |Class(governed, c)|, |Class(proposed, c)|;
            |MissingOf(Filters(governed), Filters(proposed), c, |Filters(governed)|)| == if stated < required then required - stated else 0
  {
    FiltersAreOrderly(governed, proposed);
    ClassOfFilters(governed, c);
    ClassOfFilters(proposed, c);
    MissingIsTheShortfall(Filters(governed), Filters(proposed), c);
  }

  /** `_filter_violations` on the fragments' texts. */
  method FilterFindingsOfTexts(governed: seq<string>, proposed: seq<string>) returns (findings: seq<Finding<Key>>)
    requires AllCompare(governed, proposed)
    ensures findings == Findings(Filters(governed), Filters(proposed))
    ensures findings == [] <==> (set g <- governed :: Canonical(g)) == (set p <- proposed :: Canonical(p))
    ensures forall m :: IsPairing(governed, proposed, m) ==> |m| + CountMissing(findings) <= |Filters(governed)|
  {
    var required := UniqueFragments(ReadAll(governed));
    var stated := UniqueFragments(ReadAll(proposed));
    FiltersAreOrderly(governed, proposed);
    findings := FilterFindings(required, stated);
    NoFindingIffSameKeys(required, stated);
    KeysOfTexts(governed);
    KeysOfTexts(proposed);
    FewestAreMissing(governed, proposed);
  }

  lemma KeysOfTexts(texts: seq<string>)
    ensures Fines(Filters(texts)) == set t <- texts :: Canonical(t)
  {
    UniqueKeepsOnePerKey(ReadAll(texts));
    forall t | t in texts
      ensures Canonical(t) in Fines(ReadAll(texts))
    {
      var n :| 0 <= n < |texts| && texts[n] == t;
      assert ReadAll(texts)[n].fine == Canonical(t);
    }
    forall f | f in ReadAll(texts)
      ensures f.text in texts && f.fine == Canonical(f.text)
    {
      var n :| 0 <= n < |texts| && ReadAll(texts)[n] == f;
    }
  }
}
