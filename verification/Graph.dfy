/** Directed graphs over module ids: walks, reachability, cycles, and the ranking
    argument by which a graph that only receives cycle-free edges stays acyclic. */
module Graph {
  type Node = nat
  type Edges = set<(Node, Node)>

  /** A walk is a non-empty sequence of nodes, each joined to the next by an edge. */
  ghost predicate IsWalk(e: Edges, p: seq<Node>) {
    |p| > 0 && forall i :: 0 <= i < |p| - 1 ==> (p[i], p[i + 1]) in e
  }

  /** A walk with at least one edge from `a` to `b`. */
  ghost predicate IsPath(e: Edges, a: Node, b: Node, p: seq<Node>) {
    IsWalk(e, p) && |p| >= 2 && p[0] == a && p[|p| - 1] == b
  }

  ghost predicate Reach(e: Edges, a: Node, b: Node) {
    exists p :: IsPath(e, a, b, p)
  }

  ghost predicate HasCycle(e: Edges) {
    exists a :: Reach(e, a, a)
  }

  ghost predicate Ranks(e: Edges, rank: Node -> nat) {
    forall a, b :: (a, b) in e ==> rank(b) < rank(a)
  }

  /** Acyclicity by witness: every edge descends in some ranking. */
  ghost predicate Acyclic(e: Edges) {
    exists rank :: Ranks(e, rank)
  }

  lemma WalkStep(e: Edges, p: seq<Node>, i: nat)
    requires IsWalk(e, p) && i < |p| - 1
    ensures (p[i], p[i + 1]) in e
  {
  }

  lemma WalkTail(e: Edges, p: seq<Node>)
    requires IsWalk(e, p) && |p| >= 2
    ensures (p[0], p[1]) in e && IsWalk(e, p[1..])
  {
    assert (p[0], p[0 + 1]) in e;
    forall i | 0 <= i < |p[1..]| - 1 ensures (p[1..][i], p[1..][i + 1]) in e {
      assert (p[i + 1], p[i + 1 + 1]) in e;
    }
  }

  lemma EdgeReach(e: Edges, a: Node, b: Node)
    requires (a, b) in e
    ensures Reach(e, a, b)
  {
    assert IsPath(e, a, b, [a, b]);
  }

  lemma ReachTransitive(e: Edges, a: Node, b: Node, c: Node)
    requires Reach(e, a, b) && Reach(e, b, c)
    ensures Reach(e, a, c)
  {
    var p :| IsPath(e, a, b, p);
    var q :| IsPath(e, b, c, q);
    assert IsPath(e, a, c, p + q[1..]);
  }

  lemma ReachMonotone(e: Edges, f: Edges, a: Node, b: Node)
    requires e <= f && Reach(e, a, b)
    ensures Reach(f, a, b)
  {
    var p :| IsPath(e, a, b, p);
    assert IsPath(f, a, b, p);
  }

  lemma CycleMonotone(e: Edges, f: Edges)
    requires e <= f && HasCycle(e)
    ensures HasCycle(f)
  {
    var a :| Reach(e, a, a);
    ReachMonotone(e, f, a, a);
  }

  lemma AcyclicSubset(e: Edges, f: Edges)
    requires e <= f && Acyclic(f)
    ensures Acyclic(e)
  {
    var rank :| Ranks(f, rank);
    assert Ranks(e, rank);
  }

  lemma {:induction false} RankDescends(e: Edges, rank: Node -> nat, p: seq<Node>)
    requires Ranks(e, rank) && IsWalk(e, p)
    ensures |p| >= 2 ==> rank(p[|p| - 1]) < rank(p[0])
  {
    if |p| >= 2 {
      WalkTail(e, p);
      RankDescends(e, rank, p[1..]);
    }
  }

  /** A ranked graph has no closed path. */
  lemma AcyclicHasNoCycle(e: Edges)
    requires Acyclic(e)
    ensures !HasCycle(e)
  {
    var rank :| Ranks(e, rank);
    forall a, p | IsPath(e, a, a, p) ensures false {
      RankDescends(e, rank, p);
    }
  }

  /** An edge m -> d may be added to an acyclic graph when d does not already lead to m. */
  lemma AddEdge(e: Edges, m: Node, d: Node)
    requires Acyclic(e) && m != d && !Reach(e, d, m)
    ensures Acyclic(e + {(m, d)})
  {
    var rank :| Ranks(e, rank);
    // Lift m and everything that leads to it above d.
    var lifted: Node -> nat := x => if x == m || Reach(e, x, m) then rank(x) + rank(d) + 1 else rank(x);
    forall a, b | (a, b) in e + {(m, d)} ensures lifted(b) < lifted(a) {
      if (a, b) in e {
        EdgeReach(e, a, b);
        if b == m || Reach(e, b, m) {
          if b != m { ReachTransitive(e, a, b, m); }
        }
      }
    }
    assert Ranks(e + {(m, d)}, lifted);
  }

  /** A walk that starts in a set closed under the edges stays in it. */
  lemma {:induction false} ClosedWalk(e: Edges, s: set<Node>, p: seq<Node>)
    requires IsWalk(e, p) && p[0] in s
    requires forall a, b :: (a, b) in e && a in s ==> b in s
    ensures forall i :: 0 <= i < |p| ==> p[i] in s
  {
    if |p| >= 2 {
      WalkTail(e, p);
      ClosedWalk(e, s, p[1..]);
      assert forall i :: 1 <= i < |p| ==> p[i] == p[1..][i - 1];
    }
  }
}
