/** Distance in a graph, the reference both bounded walks are measured against. */
module Reach {

  /** The node is at most `n` steps from one of the starts. */
  ghost predicate Near(next: string -> set<string>, starts: set<string>, n: nat, node: string)
    decreases n
  {
    if n == 0 then node in starts
    else Near(next, starts, n - 1, node) || exists from: string :: Near(next, starts, n - 1, from) && node in next(from)
  }

  ghost predicate Reachable(next: string -> set<string>, starts: set<string>, node: string) {
    exists n: nat :: Near(next, starts, n, node)
  }

  /** A walk along the edges from a start. */
  ghost predicate IsPath(next: string -> set<string>, starts: set<string>, path: seq<string>) {
    && path != [] && path[0] in starts
    && forall i :: 0 < i < |path| ==> path[i] in next(path[i - 1])
  }

  lemma {:induction false} NearIsMonotone(next: string -> set<string>, starts: set<string>, n: nat, m: nat, node: string)
    requires n <= m && Near(next, starts, n, node)
    ensures Near(next, starts, m, node)
    decreases m
  {
    if n < m {
      NearIsMonotone(next, starts, n, m - 1, node);
    }
  }

  /** What is near but was not a step earlier is next to something that was. */
  lemma LastStep(next: string -> set<string>, starts: set<string>, n: nat, node: string) returns (from: string)
    requires n > 0 && Near(next, starts, n, node) && !Near(next, starts, n - 1, node)
    ensures Near(next, starts, n - 1, from) && node in next(from)
  {
    from :| Near(next, starts, n - 1, from) && node in next(from);
  }

  lemma {:induction false} NearHasPath(next: string -> set<string>, starts: set<string>, n: nat, node: string) returns (path: seq<string>)
    requires Near(next, starts, n, node)
    ensures IsPath(next, starts, path) && |path| <= n + 1 && path[|path| - 1] == node
    decreases n
  {
    if n == 0 {
      path := [node];
    } else if Near(next, starts, n - 1, node) {
      path := NearHasPath(next, starts, n - 1, node);
    } else {
      var from: string :| Near(next, starts, n - 1, from) && node in next(from);
      var before := NearHasPath(next, starts, n - 1, from);
      path := before + [node];
    }
  }

  lemma {:induction false} PathIsNear(next: string -> set<string>, starts: set<string>, path: seq<string>)
    requires IsPath(next, starts, path)
    ensures Near(next, starts, |path| - 1, path[|path| - 1])
    decreases |path|
  {
    if |path| > 1 {
      var before := path[..|path| - 1];
      assert IsPath(next, starts, before);
      PathIsNear(next, starts, before);
      assert path[|path| - 1] in next(before[|before| - 1]);
    }
  }

  /** Near means what it says: the shortest walk takes at most `n` steps. */
  lemma NearIffShortPath(next: string -> set<string>, starts: set<string>, n: nat, node: string)
    ensures Near(next, starts, n, node)
       <==> exists path :: IsPath(next, starts, path) && |path| <= n + 1 && path[|path| - 1] == node
  {
    if Near(next, starts, n, node) {
      var path := NearHasPath(next, starts, n, node);
    }
    if path :| IsPath(next, starts, path) && |path| <= n + 1 && path[|path| - 1] == node {
      PathIsNear(next, starts, path);
      NearIsMonotone(next, starts, |path| - 1, n, node);
    }
  }
}
