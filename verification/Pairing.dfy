/** How the validator pairs the filters the governed context requires with the filters a plan
    states (`_unique_fragments`, `_first_match` and `_filter_violations` of
    `hyperset/bundle/plan.py`): two greedy passes over a list of `paired` flags.

    A fragment is seen here through its two keys only: the fine key decides EQUIVALENT, the
    coarse key decides UNDECIDED, and the fine key determines the coarse one. */
module Pairing {
  import opened Prelude
  import opened Passes

  datatype Stated<K> = Stated(text: string, fine: K, coarse: K)

  /** The fine key determines the coarse one. */
  ghost predicate Coherent<K>(fs: seq<Stated<K>>) {
    forall i, j :: 0 <= i < |fs| && 0 <= j < |fs| && fs[i].fine == fs[j].fine ==> fs[i].coarse == fs[j].coarse
  }

  function Judge<K(==)>(a: Stated<K>, b: Stated<K>): Verdict {
    if a.fine == b.fine then Equivalent
    else if a.coarse == b.coarse then Undecided
    else Different
  }

  function Fines<K(==)>(fs: seq<Stated<K>>): set<K> {
    set f <- fs :: f.fine
  }

  ghost predicate Distinct<K>(fs: seq<Stated<K>>) {
    forall i, j :: 0 <= i < j < |fs| ==> fs[i].fine != fs[j].fine
  }

  // ---------------------------------------------------------------- one entry per computation

  function Unique<K(==)>(fs: seq<Stated<K>>): seq<Stated<K>> {
    if fs == [] then []
    else
      var before := fs[..|fs| - 1];
      var last := fs[|fs| - 1];
      if last.fine in Fines(before) then Unique(before) else Unique(before) + [last]
  }

  method UniqueFragments<K(==)>(fs: seq<Stated<K>>) returns (out: seq<Stated<K>>)
    ensures out == Unique(fs)
  {
    out := [];
    var seen: set<K> := {};
    for i := 0 to |fs|
      invariant out == Unique(fs[..i])
      invariant seen == Fines(fs[..i])
    {
      assert fs[..i + 1][..i] == fs[..i];
      if fs[i].fine !in seen {
        out := out + [fs[i]];
        seen := seen + {fs[i].fine};
      }
    }
    assert fs[..|fs|] == fs;
  }

  // ---------------------------------------------------------------- the closed form

  /** How many of the first `n` fragments of coarse key `c` have a fine key outside `taken`. */
  function Loose<K(==)>(fs: seq<Stated<K>>, taken: set<K>, c: K, n: nat): nat
    requires n <= |fs|
  {
    if n == 0 then 0
    else Loose(fs, taken, c, n - 1) + if fs[n - 1].coarse == c && fs[n - 1].fine !in taken then 1 else 0
  }

  /** Index of the loose fragment of coarse key `c` that has `rank` others before it. */
  function Nth<K(==)>(fs: seq<Stated<K>>, taken: set<K>, c: K, rank: nat, n: nat): (r: Option<nat>)
    requires n <= |fs|
    ensures r.Some? <==> rank < Loose(fs, taken, c, n)
    ensures r.Some? ==>
      && r.value < n && fs[r.value].coarse == c && fs[r.value].fine !in taken
      && Loose(fs, taken, c, r.value) == rank
  {
    if n == 0 then None
    else if fs[n - 1].coarse == c && fs[n - 1].fine !in taken && Loose(fs, taken, c, n - 1) == rank then Some(n - 1)
    else Nth(fs, taken, c, rank, n - 1)
  }

  /** What becomes of one required filter. */
  datatype Fate = Exact | Open(partner: nat) | Missing

  function FateOf<K(==)>(governed: seq<Stated<K>>, proposed: seq<Stated<K>>, i: nat): Fate
    requires i < |governed|
  {
    var g := governed[i];
    if g.fine in Fines(proposed) then Exact
    else
      match Nth(proposed, Fines(governed), g.coarse, Loose(governed, Fines(proposed), g.coarse, i), |proposed|)
      case Some(j) => Open(j)
      case None => Missing
  }

  /** A proposed filter no required filter accounts for. */
  predicate Extra<K(==)>(governed: seq<Stated<K>>, proposed: seq<Stated<K>>, j: nat)
    requires j < |proposed|
  {
    var p := proposed[j];
    && p.fine !in Fines(governed)
    && Loose(governed, Fines(proposed), p.coarse, |governed|) <= Loose(proposed, Fines(governed), p.coarse, j)
  }

  datatype Finding<K> =
    | MissingFilter(required: Stated<K>)
    | UndecidableFilter(required: Stated<K>, stated: Stated<K>)
    | ExtraFilter(stated: Stated<K>)

  function RequiredFindings<K(==)>(governed: seq<Stated<K>>, proposed: seq<Stated<K>>, n: nat): seq<Finding<K>>
    requires n <= |governed|
  {
    if n == 0 then []
    else
      var before := RequiredFindings(governed, proposed, n - 1);
      match FateOf(governed, proposed, n - 1)
      case Exact => before
      case Open(j) => before + [UndecidableFilter(governed[n - 1], proposed[j])]
      case Missing => before + [MissingFilter(governed[n - 1])]
  }

  function ExtraFindings<K(==)>(governed: seq<Stated<K>>, proposed: seq<Stated<K>>, n: nat): seq<Finding<K>>
    requires n <= |proposed|
  {
    if n == 0 then []
    else
      var before := ExtraFindings(governed, proposed, n - 1);
      if Extra(governed, proposed, n - 1) then before + [ExtraFilter(proposed[n - 1])] else before
  }

  function Findings<K(==)>(governed: seq<Stated<K>>, proposed: seq<Stated<K>>): seq<Finding<K>> {
    RequiredFindings(governed, proposed, |governed|) + ExtraFindings(governed, proposed, |proposed|)
  }

  // ---------------------------------------------------------------- the source's two passes

  method FirstMatch<K(==)>(item: Stated<K>, candidates: seq<Stated<K>>, paired: seq<bool>, verdict: Verdict)
    returns (index: Option<nat>)
    requires |paired| == |candidates|
    ensures index.Some? ==>
      && index.value < |candidates| && !paired[index.value] && Judge(item, candidates[index.value]) == verdict
      && forall j :: 0 <= j < index.value ==> paired[j] || Judge(item, candidates[j]) != verdict
    ensures index.None? ==> forall j :: 0 <= j < |candidates| ==> paired[j] || Judge(item, candidates[j]) != verdict
  {
    for i := 0 to |candidates|
      invariant forall j :: 0 <= j < i ==> paired[j] || Judge(item, candidates[j]) != verdict
    {
      if !paired[i] && Judge(item, candidates[i]) == verdict {
        return Some(i);
      }
    }
    return None;
  }

  /** First pass: every exact statement of a required filter is settled. */
  method PairExact<K(==)>(governed: seq<Stated<K>>, proposed: seq<Stated<K>>)
    returns (unmatched: seq<nat>, paired: seq<bool>)
    requires Distinct(governed) && Distinct(proposed)
    ensures |paired| == |proposed|
    ensures forall j :: 0 <= j < |proposed| ==> paired[j] == (proposed[j].fine in Fines(governed))
    ensures Leftovers(governed, proposed, unmatched, |governed|)
  {
    paired := seq(|proposed|, _ => false);
    unmatched := [];
    for i := 0 to |governed|
      invariant |paired| == |proposed|
      invariant forall j :: 0 <= j < |proposed| ==> paired[j] == (proposed[j].fine in Fines(governed[..i]))
      invariant Leftovers(governed, proposed, unmatched, i)
    {
      var index := FirstMatch(governed[i], proposed, paired, Equivalent);
      assert governed[..i + 1] == governed[..i] + [governed[i]];
      if index.None? {
        unmatched := unmatched + [i];
      } else {
        assert proposed[index.value] in proposed;
        paired := paired[index.value := true];
      }
    }
    assert governed[..|governed|] == governed;
  }

  /** `u` lists, in order, the required filters before the `n`th that no filter states exactly. */
  ghost predicate Leftovers<K>(governed: seq<Stated<K>>, proposed: seq<Stated<K>>, u: seq<nat>, n: nat)
    requires n <= |governed|
  {
    && (forall k :: 0 <= k < |u| ==> u[k] < n && governed[u[k]].fine !in Fines(proposed))
    && (forall a, b :: 0 <= a < b < |u| ==> u[a] < u[b])
    && (forall i :: 0 <= i < n && governed[i].fine !in Fines(proposed) ==> i in u)
  }

  /** The flags after the first `n` required filters have been offered their partners. */
  ghost predicate PairedUpTo<K>(governed: seq<Stated<K>>, proposed: seq<Stated<K>>, paired: seq<bool>, n: nat)
    requires n <= |governed|
  {
    && |paired| == |proposed|
    && forall j :: 0 <= j < |proposed| ==>
         (paired[j] <==> (proposed[j].fine in Fines(governed)
                          || Loose(proposed, Fines(governed), proposed[j].coarse, j)
                             < Loose(governed, Fines(proposed), proposed[j].coarse, n)))
  }

  /** The flags do not change while the filters passed over are settled ones. */
  lemma {:induction false} FlagsSkipSettled<K>(governed: seq<Stated<K>>, proposed: seq<Stated<K>>, c: K, m: nat, n: nat)
    requires m <= n <= |governed|
    requires forall i :: m <= i < n ==> governed[i].fine in Fines(proposed)
    ensures Loose(governed, Fines(proposed), c, m) == Loose(governed, Fines(proposed), c, n)
    decreases n
  {
    if m < n {
      FlagsSkipSettled(governed, proposed, c, m, n - 1);
    }
  }

  lemma {:induction false} LooseGrows<K>(fs: seq<Stated<K>>, taken: set<K>, c: K, m: nat, n: nat)
    requires m <= n <= |fs|
    ensures Loose(fs, taken, c, m) <= Loose(fs, taken, c, n)
    ensures m < n && fs[m].coarse == c && fs[m].fine !in taken ==> Loose(fs, taken, c, m) < Loose(fs, taken, c, n)
    decreases n
  {
    if m < n {
      LooseGrows(fs, taken, c, m, n - 1);
    }
  }

  /** The first candidate the second pass finds for a required filter is the one its rank names. */
  lemma FirstFreeIsNth<K>(governed: seq<Stated<K>>, proposed: seq<Stated<K>>, paired: seq<bool>, i: nat, index: Option<nat>)
    requires i < |governed| && governed[i].fine !in Fines(proposed)
    requires PairedUpTo(governed, proposed, paired, i)
    requires index.Some? ==>
      && index.value < |proposed| && !paired[index.value] && Judge(governed[i], proposed[index.value]) == Undecided
      && forall j :: 0 <= j < index.value ==> paired[j] || Judge(governed[i], proposed[j]) != Undecided
    requires index.None? ==> forall j :: 0 <= j < |proposed| ==> paired[j] || Judge(governed[i], proposed[j]) != Undecided
    ensures FateOf(governed, proposed, i) == if index.Some? then Open(index.value) else Missing
  {
    var c, taken := governed[i].coarse, Fines(governed);
    var rank := Loose(governed, Fines(proposed), c, i);
    var nth := Nth(proposed, taken, c, rank, |proposed|);
    if nth.Some? {
      var j := nth.value;
      assert proposed[j] in proposed;
      assert !paired[j] && Judge(governed[i], proposed[j]) == Undecided;
      if index.value < j {
        LooseGrows(proposed, taken, c, index.value, j);
      }
    } else if index.Some? {
      LooseGrows(proposed, taken, c, index.value, |proposed|);
    }
  }

  /** Marking the partner of the `i`th required filter brings the flags up to `i + 1`. */
  lemma FlagsAdvance<K>(governed: seq<Stated<K>>, proposed: seq<Stated<K>>, paired: seq<bool>, i: nat)
    requires i < |governed| && governed[i].fine !in Fines(proposed)
    requires PairedUpTo(governed, proposed, paired, i)
    ensures var fate := FateOf(governed, proposed, i);
            PairedUpTo(governed, proposed, if fate.Open? then paired[fate.partner := true] else paired, i + 1)
  {
    var c, taken := governed[i].coarse, Fines(governed);
    var rank := Loose(governed, Fines(proposed), c, i);
    var fate := FateOf(governed, proposed, i);
    forall j | 0 <= j < |proposed| && proposed[j].fine !in taken && proposed[j].coarse == c
      ensures Loose(proposed, taken, c, j) == rank <==> fate == Open(j)
    {
      LooseGrows(proposed, taken, c, j, |proposed|);
      if fate.Open? {
        if fate.partner < j {
          LooseGrows(proposed, taken, c, fate.partner, j);
        } else if j < fate.partner {
          LooseGrows(proposed, taken, c, j, fate.partner);
        }
      }
    }
  }

  /** The findings of the required filters before the `k`th unmatched one. */
  lemma {:induction false} FindingsSkipSettled<K>(governed: seq<Stated<K>>, proposed: seq<Stated<K>>, m: nat, n: nat)
    requires m <= n <= |governed|
    requires forall i :: m <= i < n ==> governed[i].fine in Fines(proposed)
    ensures RequiredFindings(governed, proposed, m) == RequiredFindings(governed, proposed, n)
    decreases n
  {
    if m < n {
      FindingsSkipSettled(governed, proposed, m, n - 1);
    }
  }

  /** How far into the required filters the second pass is after `k` leftovers. */
  function Reach(unmatched: seq<nat>, k: nat): nat
    requires k <= |unmatched|
  {
    if k == 0 then 0 else unmatched[k - 1] + 1
  }

  /** What the second pass has done once it has reached the `reach`th required filter. */
  ghost predicate SecondPass<K>(governed: seq<Stated<K>>, proposed: seq<Stated<K>>, findings: seq<Finding<K>>, paired: seq<bool>, reach: nat)
  {
    && reach <= |governed|
    && PairedUpTo(governed, proposed, paired, reach)
    && findings == RequiredFindings(governed, proposed, reach)
  }

  /** The filters between two leftovers are settled, so nothing happens between them. */
  lemma SecondPassSkips<K>(governed: seq<Stated<K>>, proposed: seq<Stated<K>>, u: seq<nat>, findings: seq<Finding<K>>, paired: seq<bool>, k: nat)
    requires Leftovers(governed, proposed, u, |governed|) && k <= |u|
    requires SecondPass(governed, proposed, findings, paired, Reach(u, k))
    ensures SecondPass(governed, proposed, findings, paired, if k < |u| then u[k] else |governed|)
  {
    var low, high := Reach(u, k), if k < |u| then u[k] else |governed|;
    forall i | low <= i < high
      ensures governed[i].fine in Fines(proposed)
    {
      NoneBetween(u, k, high, i);
    }
    FindingsSkipSettled(governed, proposed, low, high);
    FlagsAgree(governed, proposed, paired, low, high);
  }

  /** Nothing in an increasing list lies strictly between two neighbours. */
  lemma NoneBetween(u: seq<nat>, k: nat, high: nat, i: nat)
    requires k <= |u| && (forall a, b :: 0 <= a < b < |u| ==> u[a] < u[b]) && (k < |u| ==> high == u[k])
    requires Reach(u, k) <= i < high
    ensures i !in u
  {
    forall at | 0 <= at < |u|
      ensures u[at] != i
    {
      assert at < k ==> u[at] <= u[k - 1];
    }
  }

  /** One leftover is offered the relaxed comparison. */
  method PairLeftover<K(==)>(governed: seq<Stated<K>>, proposed: seq<Stated<K>>, i: nat, before: seq<Finding<K>>, flags: seq<bool>)
    returns (findings: seq<Finding<K>>, paired: seq<bool>)
    requires i < |governed| && governed[i].fine !in Fines(proposed)
    requires SecondPass(governed, proposed, before, flags, i)
    ensures SecondPass(governed, proposed, findings, paired, i + 1)
  {
    paired := flags;
    var index := FirstMatch(governed[i], proposed, flags, Undecided);
    FirstFreeIsNth(governed, proposed, flags, i, index);
    FlagsAdvance(governed, proposed, flags, i);
    if index.None? {
      findings := before + [MissingFilter(governed[i])];
    } else {
      findings := before + [UndecidableFilter(governed[i], proposed[index.value])];
      paired := paired[index.value := true];
    }
  }

  /** Second pass: only the leftovers are offered the relaxed comparison. */
  method PairLeftovers<K(==)>(governed: seq<Stated<K>>, proposed: seq<Stated<K>>, unmatched: seq<nat>, flags: seq<bool>)
    returns (findings: seq<Finding<K>>, paired: seq<bool>)
    requires Leftovers(governed, proposed, unmatched, |governed|)
    requires SecondPass(governed, proposed, [], flags, 0)
    ensures SecondPass(governed, proposed, findings, paired, |governed|)
  {
    paired := flags;
    findings := [];
    for k := 0 to |unmatched|
      invariant SecondPass(governed, proposed, findings, paired, Reach(unmatched, k))
    {
      SecondPassSkips(governed, proposed, unmatched, findings, paired, k);
      findings, paired := PairLeftover(governed, proposed, unmatched[k], findings, paired);
    }
    SecondPassSkips(governed, proposed, unmatched, findings, paired, |unmatched|);
  }

  method FilterFindings<K(==)>(governed: seq<Stated<K>>, proposed: seq<Stated<K>>) returns (findings: seq<Finding<K>>)
    requires Distinct(governed) && Distinct(proposed)
    ensures findings == Findings(governed, proposed)
  {
    var unmatched, flags := PairExact(governed, proposed);
    var required, paired := PairLeftovers(governed, proposed, unmatched, flags);
    var extra := ReportExtra(governed, proposed, paired);
    findings := required + extra;
  }

  /** What no governed filter was paired with. */
  method ReportExtra<K(==)>(governed: seq<Stated<K>>, proposed: seq<Stated<K>>, paired: seq<bool>) returns (findings: seq<Finding<K>>)
    requires |paired| == |proposed| && forall j :: 0 <= j < |proposed| ==> (Extra(governed, proposed, j) <==> !paired[j])
    ensures findings == ExtraFindings(governed, proposed, |proposed|)
  {
    findings := [];
    for j := 0 to |proposed|
      invariant findings == ExtraFindings(governed, proposed, j)
    {
      if !paired[j] {
        findings := findings + [ExtraFilter(proposed[j])];
      }
    }
  }

  lemma FlagsAgree<K>(governed: seq<Stated<K>>, proposed: seq<Stated<K>>, paired: seq<bool>, m: nat, n: nat)
    requires m <= n <= |governed| && PairedUpTo(governed, proposed, paired, m)
    requires forall i :: m <= i < n ==> governed[i].fine in Fines(proposed)
    ensures PairedUpTo(governed, proposed, paired, n)
  {
    forall j | 0 <= j < |proposed|
      ensures Loose(governed, Fines(proposed), proposed[j].coarse, m) == Loose(governed, Fines(proposed), proposed[j].coarse, n)
    {
      FlagsSkipSettled(governed, proposed, proposed[j].coarse, m, n);
    }
  }
}
