/** Finite directed graphs: node `c` has the successors `g[c]`. */
module Graphs {
  import opened Sorting

  type Graph = seq<seq<nat>>

  ghost predicate WellFormed(g: Graph) {
    forall c, j :: 0 <= c < |g| && 0 <= j < |g[c]| ==> g[c][j] < |g|
  }

  ghost predicate Walk(g: Graph, p: seq<nat>) {
    && p != []
    && (forall i :: 0 <= i < |p| ==> p[i] < |g|)
    && (forall i :: 0 < i < |p| ==> p[i] in g[p[i - 1]])
  }

  /** Some walk from `c` meets a node twice. */
  ghost predicate CycleReachable(g: Graph, c: nat) {
    exists p: seq<nat> :: Walk(g, p) && p[0] == c && !Distinct(p)
  }

  /** `d` is a direct or transitive successor of `c`. */
  ghost predicate DependsOn(g: Graph, c: nat, d: nat) {
    exists p :: Walk(g, p) && |p| > 1 && p[0] == c && p[|p| - 1] == d
  }

  /** A walk without repetition is no longer than the graph is large. */
  lemma DistinctWalkBound(g: Graph, p: seq<nat>)
    requires Distinct(p) && forall i :: 0 <= i < |p| ==> p[i] < |g|
    ensures |p| <= |g|
  {
    DistinctBelow(p, |g|);
  }

  lemma {:induction false} DistinctBelow(p: seq<nat>, n: nat)
    requires Distinct(p) && forall i :: 0 <= i < |p| ==> p[i] < n
    ensures |p| <= n
  {
    if p != [] {
      assert p[0] < n;
      if k :| 0 <= k < |p| && p[k] == n - 1 {
        var rest := p[..k] + p[k + 1..];
        assert forall i :: 0 <= i < |rest| ==> rest[i] == if i < k then p[i] else p[i + 1];
        DistinctBelow(rest, n - 1);
      } else {
        DistinctBelow(p, n - 1);
      }
    }
  }

  lemma CycleBelow(g: Graph, c: nat, d: nat)
    requires c < |g| && d in g[c] && CycleReachable(g, d)
    ensures CycleReachable(g, c)
  {
    var p: seq<nat> :| Walk(g, p) && p[0] == d && !Distinct(p);
    var i, j :| 0 <= i < j < |p| && p[i] == p[j];
    var q := [c] + p;
    assert q[i + 1] == q[j + 1];
    assert Walk(g, q);
  }

  /** An acyclic start makes every walk from it short. */
  lemma WalkBound(g: Graph, p: seq<nat>)
    requires Walk(g, p) && !CycleReachable(g, p[0])
    ensures Distinct(p) && |p| <= |g|
  {
    DistinctWalkBound(g, p);
  }
}
