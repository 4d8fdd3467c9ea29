/** Directed graphs as successor maps, their paths, and path reachability. */
module Graphs {

  /** Block id to successor ids. An id that is not a key has no successors. */
  type Graph = map<nat, seq<nat>>

  function Succs(g: Graph, v: nat): seq<nat> {
    if v in g then g[v] else []
  }

  predicate Edge(g: Graph, u: nat, v: nat) {
    v in Succs(g, u)
  }

  /** Every id the graph mentions, as a source or as a target. */
  function Nodes(g: Graph): set<nat> {
    g.Keys + set u, v | u in g && v in g[u] :: v
  }

  ghost predicate IsPath(g: Graph, p: seq<nat>) {
    |p| > 0 && forall i :: 0 <= i < |p| - 1 ==> Edge(g, p[i], p[i + 1])
  }

  ghost predicate PathBetween(g: Graph, a: nat, p: seq<nat>, b: nat) {
    IsPath(g, p) && p[0] == a && p[|p| - 1] == b
  }

  ghost predicate Reaches(g: Graph, a: nat, b: nat) {
    exists p :: PathBetween(g, a, p, b)
  }

  lemma ReachesSelf(g: Graph, a: nat)
    ensures Reaches(g, a, a)
  {
    assert PathBetween(g, a, [a], a);
  }

  lemma PathExtends(g: Graph, a: nat, p: seq<nat>, b: nat, c: nat)
    requires PathBetween(g, a, p, b) && Edge(g, b, c)
    ensures PathBetween(g, a, p + [c], c)
  {
  }

  lemma ReachesStep(g: Graph, a: nat, b: nat, c: nat)
    requires Reaches(g, a, b) && Edge(g, b, c)
    ensures Reaches(g, a, c)
  {
    var p :| PathBetween(g, a, p, b);
    PathExtends(g, a, p, b, c);
  }

  /** The path without its last node, which is a path to a predecessor of that node. */
  lemma PathShrinks(g: Graph, a: nat, p: seq<nat>, b: nat)
    requires PathBetween(g, a, p, b) && |p| > 1
    ensures PathBetween(g, a, p[..|p| - 1], p[|p| - 2]) && Edge(g, p[|p| - 2], b)
  {
  }

  lemma EveryNodeOfAPathIsReached(g: Graph, a: nat, p: seq<nat>, b: nat, i: nat)
    requires PathBetween(g, a, p, b) && i < |p|
    ensures Reaches(g, a, p[i])
  {
    assert PathBetween(g, a, p[..i + 1], p[i]);
  }

  /** A set that holds the start and is closed under edges holds everything the start reaches. */
  lemma {:induction false} ClosedHoldsPath(g: Graph, s: set<nat>, a: nat, p: seq<nat>, b: nat)
    requires PathBetween(g, a, p, b)
    requires a in s && forall u, v :: u in s && Edge(g, u, v) ==> v in s
    ensures b in s
    decreases |p|
  {
    if |p| > 1 {
      PathShrinks(g, a, p, b);
      ClosedHoldsPath(g, s, a, p[..|p| - 1], p[|p| - 2]);
    }
  }

  lemma ClosedHoldsReachable(g: Graph, s: set<nat>, a: nat)
    requires a in s && forall u, v :: u in s && Edge(g, u, v) ==> v in s
    ensures forall b :: Reaches(g, a, b) ==> b in s
  {
    forall b | Reaches(g, a, b) ensures b in s {
      var p :| PathBetween(g, a, p, b);
      ClosedHoldsPath(g, s, a, p, b);
    }
  }
}
