/** What the two-pass pairing promises: it is injective, it loses nothing, no other pairing of
    fragments that are not DIFFERENT leaves fewer required filters out, and the set it leaves
    out does not depend on the order the plan states its filters in. */
module PairingLaws {
  import opened Prelude
  import opened Passes
  import opened Pairing

  // ---------------------------------------------------------------- one entry per computation

  lemma {:induction false} UniqueKeepsOnePerKey<K>(fs: seq<Stated<K>>)
    ensures Distinct(Unique(fs)) && Fines(Unique(fs)) == Fines(fs)
    ensures forall k :: 0 <= k < |Unique(fs)| ==> Unique(fs)[k] in fs
    decreases |fs|
  {
    if fs != [] {
      var before, last := fs[..|fs| - 1], fs[|fs| - 1];
      UniqueKeepsOnePerKey(before);
      assert fs == before + [last];
      var u := Unique(before);
      forall k | 0 <= k < |u|
        ensures u[k].fine in Fines(before)
      {
        assert u[k] in u;
      }
      if last.fine in Fines(before) {
        assert Fines(fs) == Fines(before);
      } else {
        assert Fines(fs) == Fines(before) + {last.fine};
        assert Fines(u + [last]) == Fines(u) + {last.fine};
      }
    }
  }

  /** The words kept for a computation are the caller's own, from the statement that came first. */
  lemma {:induction false} UniqueKeepsTheFirst<K>(fs: seq<Stated<K>>, i: nat)
    requires i < |fs| && (forall j :: 0 <= j < i ==> fs[j].fine != fs[i].fine)
    ensures fs[i] in Unique(fs)
    decreases |fs|
  {
    var before := fs[..|fs| - 1];
    if i < |fs| - 1 {
      UniqueKeepsTheFirst(before, i);
    } else {
      assert fs[i].fine !in Fines(before);
    }
  }

  // ---------------------------------------------------------------- the pairing

  function Indices(n: nat): (r: set<nat>)
    ensures forall i: nat :: i in r <==> i < n
  {
    if n == 0 then {} else Indices(n - 1) + {n - 1}
  }

  lemma {:induction false} IndicesHaveSize(n: nat)
    ensures |Indices(n)| == n
  {
    if 0 < n {
      IndicesHaveSize(n - 1);
    }
  }

  /** A pairing of required filters with stated ones: injective, and never across DIFFERENT. */
  ghost predicate Matching<K>(governed: seq<Stated<K>>, proposed: seq<Stated<K>>, m: map<nat, nat>) {
    && (forall i <- m :: i < |governed| && m[i] < |proposed| && Judge(governed[i], proposed[m[i]]) != Different)
    && (forall a <- m, b <- m :: a != b ==> m[a] != m[b])
  }

  function MissingSet<K(==)>(governed: seq<Stated<K>>, proposed: seq<Stated<K>>): set<nat> {
    set i: nat | i < |governed| && FateOf(governed, proposed, i) == Missing
  }

  function ExtraSet<K(==)>(governed: seq<Stated<K>>, proposed: seq<Stated<K>>): set<nat> {
    set j: nat | j < |proposed| && Extra(governed, proposed, j)
  }

  /** The stated filter a required one is settled with. */
  ghost predicate Settles<K>(governed: seq<Stated<K>>, proposed: seq<Stated<K>>, i: nat, j: nat)
    requires i < |governed|
  {
    && j < |proposed|
    && match FateOf(governed, proposed, i)
       case Exact => proposed[j].fine == governed[i].fine
       case Open(k) => j == k
       case Missing => false
  }

  ghost function Partner<K>(governed: seq<Stated<K>>, proposed: seq<Stated<K>>, i: nat): (j: nat)
    requires i < |governed| && FateOf(governed, proposed, i) != Missing
    ensures Settles(governed, proposed, i, j)
  {
    if FateOf(governed, proposed, i).Exact? then
      var p :| p in proposed && p.fine == governed[i].fine;
      var j: nat :| j < |proposed| && proposed[j] == p;
      j
    else FateOf(governed, proposed, i).partner
  }

  ghost function Pairs<K>(governed: seq<Stated<K>>, proposed: seq<Stated<K>>): map<nat, nat> {
    map i <- Indices(|governed|) - MissingSet(governed, proposed) :: Partner(governed, proposed, i)
  }

  lemma InFines<K>(fs: seq<Stated<K>>, i: nat)
    requires i < |fs|
    ensures fs[i].fine in Fines(fs)
  {
    assert fs[i] in fs;
  }

  lemma SettledKeepsClass<K>(governed: seq<Stated<K>>, proposed: seq<Stated<K>>, i: nat, j: nat)
    requires Coherent(governed + proposed)
    requires i < |governed| && Settles(governed, proposed, i, j)
    ensures governed[i].coarse == proposed[j].coarse
  {
    var all := governed + proposed;
    assert all[i] == governed[i] && all[|governed| + j] == proposed[j];
  }

  lemma PartnersDiffer<K>(governed: seq<Stated<K>>, proposed: seq<Stated<K>>, a: nat, b: nat, j: nat)
    requires Distinct(governed)
    requires a < b < |governed| && Settles(governed, proposed, a, j)
    ensures !Settles(governed, proposed, b, j)
  {
    InFines(governed, a);
    InFines(governed, b);
    InFines(proposed, j);
    LooseGrows(governed, Fines(proposed), governed[a].coarse, a, b);
  }

  /** The pairing the two passes find is a pairing: injective, and never across DIFFERENT. */
  lemma PairsMatch<K>(governed: seq<Stated<K>>, proposed: seq<Stated<K>>)
    requires Distinct(governed) && Coherent(governed + proposed)
    ensures Matching(governed, proposed, Pairs(governed, proposed))
    ensures Pairs(governed, proposed).Keys == Indices(|governed|) - MissingSet(governed, proposed)
  {
    var m := Pairs(governed, proposed);
    forall i <- m
      ensures i < |governed| && m[i] < |proposed| && Judge(governed[i], proposed[m[i]]) != Different
    {
      SettledKeepsClass(governed, proposed, i, m[i]);
    }
    forall a <- m, b <- m | a != b
      ensures m[a] != m[b]
    {
      if a < b {
        PartnersDiffer(governed, proposed, a, b, m[a]);
      } else {
        PartnersDiffer(governed, proposed, b, a, m[b]);
      }
    }
  }

  lemma SameRankSameIndex<K>(fs: seq<Stated<K>>, taken: set<K>, c: K, a: nat, b: nat)
    requires a < |fs| && b < |fs| && fs[a].coarse == c && fs[b].coarse == c && fs[a].fine !in taken && fs[b].fine !in taken
    requires Loose(fs, taken, c, a) == Loose(fs, taken, c, b)
    ensures a == b
  {
    if a < b {
      LooseGrows(fs, taken, c, a, b);
    } else if b < a {
      LooseGrows(fs, taken, c, b, a);
    }
  }

  /** A stated filter that is not extra settles some required one. */
  lemma NotExtraIsPaired<K>(governed: seq<Stated<K>>, proposed: seq<Stated<K>>, j: nat)
    requires Distinct(governed) && Distinct(proposed) && Coherent(governed + proposed)
    requires j < |proposed| && !Extra(governed, proposed, j)
    ensures exists i :: i in Pairs(governed, proposed) && Pairs(governed, proposed)[i] == j
  {
    var p := proposed[j];
    InFines(proposed, j);
    var i: nat;
    if p.fine in Fines(governed) {
      var g :| g in governed && g.fine == p.fine;
      i :| i < |governed| && governed[i] == g;
    } else {
      var rank := Loose(proposed, Fines(governed), p.coarse, j);
      LooseGrows(proposed, Fines(governed), p.coarse, j, |proposed|);
      i := Nth(governed, Fines(proposed), p.coarse, rank, |governed|).value;
      var found := Nth(proposed, Fines(governed), p.coarse, rank, |proposed|).value;
      SameRankSameIndex(proposed, Fines(governed), p.coarse, found, j);
    }
    assert Settles(governed, proposed, i, j);
    assert i in Pairs(governed, proposed);
    var k := Pairs(governed, proposed)[i];
    assert proposed[k].fine == p.fine;
    assert k == j;
  }

  lemma ExtraIsUnpaired<K>(governed: seq<Stated<K>>, proposed: seq<Stated<K>>, i: nat, j: nat)
    requires i < |governed| && j < |proposed| && Extra(governed, proposed, j)
    ensures !Settles(governed, proposed, i, j)
  {
    InFines(governed, i);
    LooseGrows(governed, Fines(proposed), governed[i].coarse, i, |governed|);
  }

  lemma {:induction false} InjectiveSize(m: map<nat, nat>)
    requires forall a <- m, b <- m :: a != b ==> m[a] != m[b]
    ensures |m.Values| == |m|
    decreases |m|
  {
    if |m| != 0 {
      var a :| a in m;
      var rest := m - {a};
      InjectiveSize(rest);
      assert m.Keys == rest.Keys + {a};
      assert m.Values == rest.Values + {m[a]} by {
        forall v <- m.Values
          ensures v in rest.Values + {m[a]}
        {
          var k :| k in m && m[k] == v;
          assert k != a ==> k in rest;
        }
      }
    }
  }

  lemma {:induction false} SubsetSize(a: set<nat>, b: set<nat>)
    requires a <= b
    ensures |a| <= |b|
  {
    assert b == a + (b - a);
  }

  /** The stated filters that settle a required one are exactly those that are not extra. */
  lemma PairedIsNotExtra<K>(governed: seq<Stated<K>>, proposed: seq<Stated<K>>)
    requires Distinct(governed) && Distinct(proposed) && Coherent(governed + proposed)
    ensures Pairs(governed, proposed).Values == Indices(|proposed|) - ExtraSet(governed, proposed)
  {
    var m := Pairs(governed, proposed);
    PairsMatch(governed, proposed);
    forall j | j in Indices(|proposed|) - ExtraSet(governed, proposed)
      ensures j in m.Values
    {
      NotExtraIsPaired(governed, proposed, j);
    }
    forall j | j in m.Values
      ensures j in Indices(|proposed|) - ExtraSet(governed, proposed)
    {
      var i :| i in m && m[i] == j;
      if j in ExtraSet(governed, proposed) {
        ExtraIsUnpaired(governed, proposed, i, j);
      }
    }
  }

  /** Nothing is lost: every required filter is settled or missing, every stated filter is
      settled or extra, and the settled ones on both sides are as many. */
  lemma PairingLosesNothing<K>(governed: seq<Stated<K>>, proposed: seq<Stated<K>>)
    requires Distinct(governed) && Distinct(proposed) && Coherent(governed + proposed)
    ensures Pairs(governed, proposed).Values == Indices(|proposed|) - ExtraSet(governed, proposed)
    ensures |Pairs(governed, proposed)| + |MissingSet(governed, proposed)| == |governed|
    ensures |Pairs(governed, proposed)| + |ExtraSet(governed, proposed)| == |proposed|
  {
    var m := Pairs(governed, proposed);
    PairsMatch(governed, proposed);
    PairedIsNotExtra(governed, proposed);
    InjectiveSize(m);
    IndicesHaveSize(|governed|);
    IndicesHaveSize(|proposed|);
  }

  // ---------------------------------------------------------------- no pairing does better

  /** More required filters than stated ones are left over in this class. */
  predicate Deficient<K(==)>(governed: seq<Stated<K>>, proposed: seq<Stated<K>>, c: K) {
    Loose(proposed, Fines(governed), c, |proposed|) < Loose(governed, Fines(proposed), c, |governed|)
  }

  function DeficientSet<K(==)>(governed: seq<Stated<K>>, proposed: seq<Stated<K>>, fs: seq<Stated<K>>): set<nat> {
    set i: nat | i < |fs| && Deficient(governed, proposed, fs[i].coarse)
  }

  lemma MissingIsInShortClass<K>(governed: seq<Stated<K>>, proposed: seq<Stated<K>>, i: nat)
    requires i in MissingSet(governed, proposed)
    ensures i in DeficientSet(governed, proposed, governed)
  {
    InFines(governed, i);
    LooseGrows(governed, Fines(proposed), governed[i].coarse, i, |governed|);
  }

  /** In a class that falls short every stated filter settles a required one of that class. */
  lemma ShortClassIsUsedUp<K>(governed: seq<Stated<K>>, proposed: seq<Stated<K>>, j: nat) returns (i: nat)
    requires Distinct(governed) && Distinct(proposed) && Coherent(governed + proposed)
    requires j in DeficientSet(governed, proposed, proposed)
    ensures i in Pairs(governed, proposed) && Pairs(governed, proposed)[i] == j
    ensures i in DeficientSet(governed, proposed, governed)
  {
    LooseGrows(proposed, Fines(governed), proposed[j].coarse, j, |proposed|);
    NotExtraIsPaired(governed, proposed, j);
    i :| i in Pairs(governed, proposed) && Pairs(governed, proposed)[i] == j;
    SettledKeepsClass(governed, proposed, i, j);
  }

  ghost function ShortPairs<K>(governed: seq<Stated<K>>, proposed: seq<Stated<K>>): map<nat, nat> {
    map i | i in Pairs(governed, proposed) && i in DeficientSet(governed, proposed, governed) :: Pairs(governed, proposed)[i]
  }

  lemma ShortPairsUseTheSupply<K>(governed: seq<Stated<K>>, proposed: seq<Stated<K>>)
    requires Distinct(governed) && Distinct(proposed) && Coherent(governed + proposed)
    ensures ShortPairs(governed, proposed).Values == DeficientSet(governed, proposed, proposed)
  {
    var used := ShortPairs(governed, proposed);
    forall i | i in used
      ensures used[i] in DeficientSet(governed, proposed, proposed)
    {
      SettledKeepsClass(governed, proposed, i, used[i]);
    }
    forall j | j in DeficientSet(governed, proposed, proposed)
      ensures j in used.Values
    {
      var i := ShortClassIsUsedUp(governed, proposed, j);
      assert i in used;
    }
  }

  /** In the classes that fall short, what is missing is what is required beyond what is stated. */
  lemma DeficientClassesAreUsedUp<K>(governed: seq<Stated<K>>, proposed: seq<Stated<K>>)
    requires Distinct(governed) && Distinct(proposed) && Coherent(governed + proposed)
    ensures var short, supply := DeficientSet(governed, proposed, governed), DeficientSet(governed, proposed, proposed);
            |short| == |supply| + |MissingSet(governed, proposed)|
  {
    var short, missing := DeficientSet(governed, proposed, governed), MissingSet(governed, proposed);
    PairsMatch(governed, proposed);
    ShortPairsUseTheSupply(governed, proposed);
    forall i | i in missing
      ensures i in short
    {
      MissingIsInShortClass(governed, proposed, i);
    }
    InjectiveSize(ShortPairs(governed, proposed));
    assert ShortPairs(governed, proposed).Keys == short - missing;
  }

  /** Another pairing cannot settle more of the classes that fall short than they have stated. */
  lemma ShortClassesLimit<K>(governed: seq<Stated<K>>, proposed: seq<Stated<K>>, other: map<nat, nat>)
    requires Coherent(governed + proposed) && Matching(governed, proposed, other)
    ensures |other.Keys * DeficientSet(governed, proposed, governed)| <= |DeficientSet(governed, proposed, proposed)|
  {
    var short, supply := DeficientSet(governed, proposed, governed), DeficientSet(governed, proposed, proposed);
    var inside := map i | i in other.Keys * short :: other[i];
    forall i | i in inside
      ensures inside[i] in supply
    {
      var all := governed + proposed;
      assert all[i] == governed[i] && all[|governed| + other[i]] == proposed[other[i]];
    }
    InjectiveSize(inside);
    SubsetSize(inside.Values, supply);
    assert inside.Keys == other.Keys * short;
  }

  /** The two passes are optimal: no pairing of fragments that are not DIFFERENT settles more
      required filters, so none leaves fewer of them missing. */
  lemma PairingIsOptimal<K>(governed: seq<Stated<K>>, proposed: seq<Stated<K>>, other: map<nat, nat>)
    requires Distinct(governed) && Distinct(proposed) && Coherent(governed + proposed)
    requires Matching(governed, proposed, other)
    ensures |other| <= |Pairs(governed, proposed)|
    ensures |MissingSet(governed, proposed)| <= |governed| - |other|
  {
    ShortClassesLimit(governed, proposed, other);
    DeficientClassesAreUsedUp(governed, proposed);
    PairingLosesNothing(governed, proposed);
    IndicesHaveSize(|governed|);
    OutsideLimit(other.Keys, DeficientSet(governed, proposed, governed), Indices(|governed|));
  }

  lemma OutsideLimit(some: set<nat>, part: set<nat>, whole: set<nat>)
    requires some <= whole && part <= whole
    ensures |some| <= |some * part| + |whole| - |part|
  {
    SubsetSize(some - part, whole - part);
    assert some == some * part + (some - part);
    assert whole == part + (whole - part);
  }

  // ---------------------------------------------------------------- order does not matter

  function LooseKeys<K(==)>(fs: seq<Stated<K>>, taken: set<K>, c: K): set<K> {
    set f <- fs | f.coarse == c && f.fine !in taken :: f.fine
  }

  lemma LooseKeysNext<K>(before: seq<Stated<K>>, last: Stated<K>, taken: set<K>, c: K)
    requires forall i :: 0 <= i < |before| ==> before[i].fine != last.fine
    ensures |LooseKeys(before + [last], taken, c)|
            == |LooseKeys(before, taken, c)| + if last.coarse == c && last.fine !in taken then 1 else 0
  {
    var keys := LooseKeys(before, taken, c);
    assert last.fine !in keys;
    assert LooseKeys(before + [last], taken, c) == if last.coarse == c && last.fine !in taken then keys + {last.fine} else keys;
  }

  lemma {:induction false} LooseCountsKeys<K>(fs: seq<Stated<K>>, taken: set<K>, c: K, n: nat)
    requires n <= |fs| && Distinct(fs)
    ensures Loose(fs, taken, c, n) == |LooseKeys(fs[..n], taken, c)|
    decreases n
  {
    if n == 0 {
      assert LooseKeys(fs[..0], taken, c) == {};
    } else {
      LooseCountsKeys(fs, taken, c, n - 1);
      assert fs[..n] == fs[..n - 1] + [fs[n - 1]];
      LooseKeysNext(fs[..n - 1], fs[n - 1], taken, c);
    }
  }

  lemma UniqueKeepsLooseKeys<K>(fs: seq<Stated<K>>, taken: set<K>, c: K)
    requires Coherent(fs)
    ensures LooseKeys(Unique(fs), taken, c) == LooseKeys(fs, taken, c)
  {
    UniqueKeepsOnePerKey(fs);
    forall k | k in LooseKeys(fs, taken, c)
      ensures k in LooseKeys(Unique(fs), taken, c)
    {
      var f :| f in fs && f.coarse == c && f.fine == k;
      assert k in Fines(fs);
      var u :| u in Unique(fs) && u.fine == k;
      var a :| 0 <= a < |Unique(fs)| && Unique(fs)[a] == u;
      var i :| 0 <= i < |fs| && fs[i] == f;
      var j :| 0 <= j < |fs| && fs[j] == u;
    }
    forall k | k in LooseKeys(Unique(fs), taken, c)
      ensures k in LooseKeys(fs, taken, c)
    {
      var u :| u in Unique(fs) && u.coarse == c && u.fine == k;
      var a :| 0 <= a < |Unique(fs)| && Unique(fs)[a] == u;
    }
  }

  /** Which required filters are missing depends on what the plan states, not on the order or
      the number of times it states it. */
  lemma MissingIgnoresOrder<K>(governed: seq<Stated<K>>, p: seq<Stated<K>>, q: seq<Stated<K>>)
    requires Coherent(p) && Coherent(q)
    requires forall f :: f in p <==> f in q
    ensures MissingSet(Unique(governed), Unique(p)) == MissingSet(Unique(governed), Unique(q))
  {
    var g, up, uq := Unique(governed), Unique(p), Unique(q);
    UniqueKeepsOnePerKey(p);
    UniqueKeepsOnePerKey(q);
    assert Fines(up) == Fines(p) == Fines(q) == Fines(uq);
    forall c
      ensures Loose(up, Fines(g), c, |up|) == Loose(uq, Fines(g), c, |uq|)
    {
      LooseCountsKeys(up, Fines(g), c, |up|);
      LooseCountsKeys(uq, Fines(g), c, |uq|);
      assert up[..|up|] == up && uq[..|uq|] == uq;
      UniqueKeepsLooseKeys(p, Fines(g), c);
      UniqueKeepsLooseKeys(q, Fines(g), c);
      assert LooseKeys(p, Fines(g), c) == LooseKeys(q, Fines(g), c);
    }
  }

  // ---------------------------------------------------------------- how many are missing

  function OfClass<K(==)>(fs: seq<Stated<K>>, c: K): set<K> {
    set f <- fs | f.coarse == c :: f.fine
  }

  /** The missing filters of one class among the first `n`. */
  function MissingOf<K(==)>(governed: seq<Stated<K>>, proposed: seq<Stated<K>>, c: K, n: nat): set<nat>
    requires n <= |governed|
  {
    set i: nat | i < n && IsMissingOf(governed, proposed, c, i)
  }

  predicate IsMissingOf<K(==)>(governed: seq<Stated<K>>, proposed: seq<Stated<K>>, c: K, i: nat)
    requires i < |governed|
  {
    governed[i].coarse == c && FateOf(governed, proposed, i) == Missing
  }

  lemma MissingByRank<K>(governed: seq<Stated<K>>, proposed: seq<Stated<K>>, i: nat)
    requires i < |governed|
    ensures var g := governed[i];
            FateOf(governed, proposed, i) == Missing
            <==> (&& g.fine !in Fines(proposed)
                  && Loose(proposed, Fines(governed), g.coarse, |proposed|) <= Loose(governed, Fines(proposed), g.coarse, i))
  {
  }

  function Below(some: set<nat>, n: nat): set<nat> {
    set i <- some | i < n
  }

  lemma NextBelow(some: set<nat>, n: nat)
    ensures |Below(some, n + 1)| == |Below(some, n)| + if n in some then 1 else 0
  {
    assert Below(some, n + 1) == if n in some then Below(some, n) + {n} else Below(some, n);
  }

  lemma MissingIsBelow<K>(governed: seq<Stated<K>>, proposed: seq<Stated<K>>, c: K, some: set<nat>, n: nat)
    requires some == MissingOf(governed, proposed, c, |governed|) && n <= |governed|
    ensures MissingOf(governed, proposed, c, n) == Below(some, n)
  {
  }

  lemma MissingOfNext<K>(governed: seq<Stated<K>>, proposed: seq<Stated<K>>, c: K, n: nat)
    requires n < |governed|
    ensures |MissingOf(governed, proposed, c, n + 1)|
            == |MissingOf(governed, proposed, c, n)| + if IsMissingOf(governed, proposed, c, n) then 1 else 0
  {
    var some := MissingOf(governed, proposed, c, |governed|);
    MissingIsBelow(governed, proposed, c, some, n);
    MissingIsBelow(governed, proposed, c, some, n + 1);
    NextBelow(some, n);
  }

  /** How many of `wanted` a supply leaves without. */
  function Beyond(wanted: nat, supply: nat): nat {
    if supply < wanted then wanted - supply else 0
  }

  lemma {:induction false} MissingFromRank<K>(governed: seq<Stated<K>>, proposed: seq<Stated<K>>, c: K, n: nat)
    requires n <= |governed|
    ensures |MissingOf(governed, proposed, c, n)|
         == Beyond(Loose(governed, Fines(proposed), c, n), Loose(proposed, Fines(governed), c, |proposed|))
    decreases n
  {
    if n == 0 {
      NoneMissingBefore(governed, proposed, c);
    } else {
      MissingFromRank(governed, proposed, c, n - 1);
      MissingOfNext(governed, proposed, c, n - 1);
      NextIsBeyond(governed, proposed, c, n - 1);
    }
  }

  lemma NoneMissingBefore<K>(governed: seq<Stated<K>>, proposed: seq<Stated<K>>, c: K)
    ensures |MissingOf(governed, proposed, c, 0)| == 0
    ensures Beyond(Loose(governed, Fines(proposed), c, 0), Loose(proposed, Fines(governed), c, |proposed|)) == 0
  {
    assert MissingOf(governed, proposed, c, 0) == {};
  }

  lemma NextIsBeyond<K>(governed: seq<Stated<K>>, proposed: seq<Stated<K>>, c: K, n: nat)
    requires n < |governed|
    ensures var wanted, supply := Loose(governed, Fines(proposed), c, n), Loose(proposed, Fines(governed), c, |proposed|);
            Beyond(Loose(governed, Fines(proposed), c, n + 1), supply)
            == Beyond(wanted, supply) + if IsMissingOf(governed, proposed, c, n) then 1 else 0
  {
    MissingByRank(governed, proposed, n);
  }

  lemma SharedKeysShareClass<K>(fs: seq<Stated<K>>, gs: seq<Stated<K>>, c: K, k: K)
    requires Coherent(fs + gs) && k in OfClass(fs, c) && k in Fines(gs)
    ensures k in OfClass(gs, c)
  {
    var f :| f in fs && f.coarse == c && f.fine == k;
    var g :| g in gs && g.fine == k;
    var i :| 0 <= i < |fs| && fs[i] == f;
    var j :| 0 <= j < |gs| && gs[j] == g;
    assert (fs + gs)[i] == f && (fs + gs)[|fs| + j] == g;
  }

  lemma ClassesAgree<K>(fs: seq<Stated<K>>, gs: seq<Stated<K>>, c: K)
    requires Distinct(fs) && Coherent(fs + gs)
    ensures |OfClass(fs, c)| == Loose(fs, Fines(gs), c, |fs|) + |OfClass(fs, c) * OfClass(gs, c)|
  {
    LooseCountsKeys(fs, Fines(gs), c, |fs|);
    assert fs[..|fs|] == fs;
    var loose, both := LooseKeys(fs, Fines(gs), c), OfClass(fs, c) * OfClass(gs, c);
    forall k | k in OfClass(fs, c) && k in Fines(gs)
      ensures k in OfClass(gs, c)
    {
      SharedKeysShareClass(fs, gs, c, k);
    }
    assert OfClass(gs, c) <= Fines(gs);
    assert OfClass(fs, c) == loose + both && loose !! both;
  }

  /** In each class of fragments that are not DIFFERENT, the missing filters are exactly those the
      plan has too few statements for. */
  lemma MissingIsTheShortfall<K>(governed: seq<Stated<K>>, proposed: seq<Stated<K>>, c: K)
    requires Distinct(governed) && Distinct(proposed) && Coherent(governed + proposed)
    ensures var required, stated := |OfClass(governed, c)|, |OfClass(proposed, c)|;
            |MissingOf(governed, proposed, c, |governed|)| == if stated < required then required - stated else 0
  {
    MissingFromRank(governed, proposed, c, |governed|);
    ClassesAgree(governed, proposed, c);
    CoherentCommutes(governed, proposed);
    ClassesAgree(proposed, governed, c);
    assert OfClass(proposed, c) * OfClass(governed, c) == OfClass(governed, c) * OfClass(proposed, c);
  }

  lemma CoherentCommutes<K>(fs: seq<Stated<K>>, gs: seq<Stated<K>>)
    requires Coherent(fs + gs)
    ensures Coherent(gs + fs)
  {
    var a, b := fs + gs, gs + fs;
    forall i, j | 0 <= i < |b| && 0 <= j < |b| && b[i].fine == b[j].fine
      ensures b[i].coarse == b[j].coarse
    {
      var x := if i < |gs| then |fs| + i else i - |gs|;
      var y := if j < |gs| then |fs| + j else j - |gs|;
      assert a[x] == b[i] && a[y] == b[j];
    }
  }

  // ---------------------------------------------------------------- the clean report

  lemma {:induction false} NoRequiredFindings<K>(governed: seq<Stated<K>>, proposed: seq<Stated<K>>, n: nat)
    requires n <= |governed|
    ensures RequiredFindings(governed, proposed, n) == [] <==> (forall i :: 0 <= i < n ==> governed[i].fine in Fines(proposed))
    decreases n
  {
    if 0 < n {
      NoRequiredFindings(governed, proposed, n - 1);
    }
  }

  lemma {:induction false} NoExtraFindings<K>(governed: seq<Stated<K>>, proposed: seq<Stated<K>>, n: nat)
    requires n <= |proposed|
    ensures ExtraFindings(governed, proposed, n) == [] <==> (forall j :: 0 <= j < n ==> !Extra(governed, proposed, j))
    decreases n
  {
    if 0 < n {
      NoExtraFindings(governed, proposed, n - 1);
    }
  }

  /** Nothing is reported exactly when both sides state the same computations. */
  lemma NoFindingIffSameKeys<K>(governed: seq<Stated<K>>, proposed: seq<Stated<K>>)
    ensures Findings(governed, proposed) == [] <==> Fines(governed) == Fines(proposed)
  {
    NoRequiredFindings(governed, proposed, |governed|);
    NoExtraFindings(governed, proposed, |proposed|);
    if Findings(governed, proposed) == [] {
      forall k | k in Fines(governed)
        ensures k in Fines(proposed)
      {
        var g :| g in governed && g.fine == k;
        var i :| 0 <= i < |governed| && governed[i] == g;
      }
      forall k | k in Fines(proposed)
        ensures k in Fines(governed)
      {
        var p :| p in proposed && p.fine == k;
        var j :| 0 <= j < |proposed| && proposed[j] == p;
        FlagsSkipSettled(governed, proposed, p.coarse, 0, |governed|);
        assert !Extra(governed, proposed, j);
      }
    } else if Fines(governed) == Fines(proposed) {
      forall i | 0 <= i < |governed|
        ensures governed[i].fine in Fines(proposed)
      {
        InFines(governed, i);
      }
      forall j | 0 <= j < |proposed|
        ensures !Extra(governed, proposed, j)
      {
        InFines(proposed, j);
      }
    }
  }

  lemma UniqueIsCoherent<K>(fs: seq<Stated<K>>, gs: seq<Stated<K>>)
    requires Coherent(fs + gs)
    ensures Coherent(Unique(fs) + Unique(gs))
  {
    var a, b := fs + gs, Unique(fs) + Unique(gs);
    UniqueKeepsOnePerKey(fs);
    UniqueKeepsOnePerKey(gs);
    forall i | 0 <= i < |b|
      ensures b[i] in a
    {
      if i < |Unique(fs)| {
        assert Unique(fs)[i] in fs;
      } else {
        assert Unique(gs)[i - |Unique(fs)|] in gs;
      }
    }
    forall i, j | 0 <= i < |b| && 0 <= j < |b| && b[i].fine == b[j].fine
      ensures b[i].coarse == b[j].coarse
    {
      var x :| 0 <= x < |a| && a[x] == b[i];
      var y :| 0 <= y < |a| && a[y] == b[j];
    }
  }
}
