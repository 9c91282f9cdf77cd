/** The two searches the module manager makes over the dependency lists it still holds. */
module LoaderSearch {
  import opened Common
  import opened Graph
  import opened LoaderState

  /** All dependencies of `x` have been looked at: none is the target and the defined ones are queued. */
  ghost predicate Scanned(modules: map<Id, Module>, inQueue: set<Id>, toId: Id, x: Id) {
    forall d :: (x, d) in VisibleEdges(modules) ==> d != toId && (d in modules ==> d in inQueue)
  }

  /** Breadth-first search for a dependency path with at least one edge. */
  method HasDependencyPath(modules: map<Id, Module>, fromId: Id, toId: Id) returns (found: bool)
    ensures found <==> Reach(VisibleEdges(modules), fromId, toId)
  {
    ghost var e := VisibleEdges(modules);
    if fromId !in modules {
      UndefinedLeadsNowhere(modules, fromId, toId);
      return false;
    }
    var inQueue: set<Id> := {fromId};
    var queue: seq<Id> := [fromId];
    while |queue| > 0
      invariant fromId in inQueue && inQueue <= modules.Keys
      invariant forall x :: x in queue ==> x in inQueue
      invariant forall x :: x in inQueue ==> x == fromId || Reach(e, fromId, x)
      invariant forall x :: x in inQueue && x !in queue ==> Scanned(modules, inQueue, toId, x)
      decreases modules.Keys - inQueue, |queue|
    {
      hide Reach;
      var element := queue[0];
      ghost var queued, seen := queue, inQueue;
      queue := queue[1..];
      assert forall x :: x in queued ==> x == element || x in queue;
      if modules[element].dependencies.Some? {
        var dependencies := modules[element].dependencies.value;
        var i := 0;
        while i < |dependencies|
          invariant 0 <= i <= |dependencies|
          invariant seen <= inQueue <= modules.Keys
          invariant seen == inQueue ==> queue == queued[1..]
          invariant forall x :: x in queued[1..] ==> x in queue
          invariant forall x :: x in inQueue ==> x in seen || x in queue
          invariant forall x :: x in queue ==> x in inQueue
          invariant forall x :: x in inQueue ==> x == fromId || Reach(e, fromId, x)
          invariant forall k :: 0 <= k < i ==>
            && dependencies[k].Target() != toId
            && (dependencies[k].Target() in modules ==> dependencies[k].Target() in inQueue)
        {
          var dependency := dependencies[i].Target();
          StepFurther(e, fromId, element, dependency);
          if dependency == toId { return true; }
          if dependency in modules && dependency !in inQueue {
            inQueue := inQueue + {dependency};
            queue := queue + [dependency];
          }
          i := i + 1;
        }
      }
      assert Scanned(modules, inQueue, toId, element);
      forall x | x in inQueue && x !in queue ensures Scanned(modules, inQueue, toId, x) {
        if x != element { assert Scanned(modules, seen, toId, x); }
      }
    }
    Exhausted(modules, inQueue, fromId, toId);
    return false;
  }

  lemma UndefinedLeadsNowhere(modules: map<Id, Module>, fromId: Id, toId: Id)
    requires fromId !in modules
    ensures !Reach(VisibleEdges(modules), fromId, toId)
  {
    forall p | IsPath(VisibleEdges(modules), fromId, toId, p) ensures p[0] in modules {
      WalkTail(VisibleEdges(modules), p);
    }
  }

  lemma StepFurther(e: Edges, a: Id, b: Id, c: Id)
    requires (b, c) in e && (b == a || Reach(e, a, b))
    ensures Reach(e, a, c)
  {
    EdgeReach(e, b, c);
    if b != a { ReachTransitive(e, a, b, c); }
  }

  lemma Exhausted(modules: map<Id, Module>, inQueue: set<Id>, fromId: Id, toId: Id)
    requires fromId in inQueue && forall x :: x in inQueue ==> Scanned(modules, inQueue, toId, x)
    ensures !Reach(VisibleEdges(modules), fromId, toId)
  {
    var e := VisibleEdges(modules);
    forall p | IsPath(e, fromId, toId, p) ensures false { ScannedWalk(modules, inQueue, toId, p); }
  }

  /** A walk that leaves a scanned set never arrives at the target. */
  lemma {:induction false} ScannedWalk(modules: map<Id, Module>, inQueue: set<Id>, toId: Id, p: seq<Id>)
    requires forall x :: x in inQueue ==> Scanned(modules, inQueue, toId, x)
    requires IsWalk(VisibleEdges(modules), p) && |p| >= 2 && p[0] in inQueue
    ensures p[|p| - 1] != toId
  {
    WalkTail(VisibleEdges(modules), p);
    assert Scanned(modules, inQueue, toId, p[0]);
    if |p| > 2 {
      WalkTail(VisibleEdges(modules), p[1..]);
      ScannedWalk(modules, inQueue, toId, p[1..]);
    }
  }

  // ------------------------------------------------------------------ the cycle path shown to the user

  const MAX_DEPTH: nat := 50

  function Reverse(q: seq<Id>): (r: seq<Id>)
    ensures |r| == |q| && forall i :: 0 <= i < |q| ==> r[i] == q[|q| - 1 - i]
  {
    if q == [] then [] else Reverse(q[1..]) + [q[0]]
  }

  /** A walk worth showing: it arrives at the target, or it is as long as the search is deep. */
  ghost predicate Witness(modules: map<Id, Module>, fromId: Id, toId: Id, depth: nat, p: seq<Id>) {
    && IsWalk(VisibleEdges(modules), p) && p[0] == fromId
    && depth + |p| <= 51
    && (p[|p| - 1] == toId || depth + |p| == 51)
  }

  ghost predicate NoWitness(modules: map<Id, Module>, fromId: Id, toId: Id, depth: nat) {
    forall p :: !Witness(modules, fromId, toId, depth, p)
  }

  /** Depth-first search; the path comes back deepest node first, as the source pushes it. */
  method FindCyclePath(modules: map<Id, Module>, fromId: Id, toId: Id, depth: nat) returns (path: Option<seq<Id>>)
    requires depth <= MAX_DEPTH
    ensures path.Some? ==> Witness(modules, fromId, toId, depth, Reverse(path.value))
    ensures path.None? ==> NoWitness(modules, fromId, toId, depth)
    decreases MAX_DEPTH - depth
  {
    if fromId == toId || depth == MAX_DEPTH {
      return Some([fromId]);
    }
    if fromId !in modules || modules[fromId].dependencies.None? {
      forall p | Witness(modules, fromId, toId, depth, p) ensures false {
        if |p| >= 2 { WalkTail(VisibleEdges(modules), p); }
      }
      return None;
    }
    var dependencies := modules[fromId].dependencies.value;
    var i := 0;
    while i < |dependencies|
      invariant 0 <= i <= |dependencies|
      invariant forall k :: 0 <= k < i ==> NoWitness(modules, dependencies[k].Target(), toId, depth + 1)
    {
      var deeper := FindCyclePath(modules, dependencies[i].Target(), toId, depth + 1);
      if deeper.Some? {
        path := Some(deeper.value + [fromId]);
        PrependWitness(modules, fromId, toId, depth, Reverse(deeper.value));
        assert Reverse(path.value) == [fromId] + Reverse(deeper.value);
        return;
      }
      i := i + 1;
    }
    forall p | Witness(modules, fromId, toId, depth, p) ensures false {
      assert |p| >= 2;
      WalkTail(VisibleEdges(modules), p);
      var k :| 0 <= k < |dependencies| && dependencies[k].Target() == p[1];
      assert Witness(modules, dependencies[k].Target(), toId, depth + 1, p[1..]);
    }
    return None;
  }

  lemma PrependWitness(modules: map<Id, Module>, a: Id, toId: Id, depth: nat, p: seq<Id>)
    requires |p| > 0 && (a, p[0]) in VisibleEdges(modules) && Witness(modules, p[0], toId, depth + 1, p)
    ensures Witness(modules, a, toId, depth, [a] + p)
  {
    var q := [a] + p;
    forall i | 0 <= i < |q| - 1 ensures (q[i], q[i + 1]) in VisibleEdges(modules) {
      if i > 0 { assert (p[i - 1], p[i - 1 + 1]) in VisibleEdges(modules); }
    }
  }

  /** Whenever the cycle check succeeds, the search for the path to show finds one. */
  lemma CyclePathExists(modules: map<Id, Module>, fromId: Id, toId: Id)
    requires Reach(VisibleEdges(modules), fromId, toId)
    ensures !NoWitness(modules, fromId, toId, 0)
  {
    var p :| IsPath(VisibleEdges(modules), fromId, toId, p);
    var q := if |p| <= 51 then p else p[..51];
    forall i | 0 <= i < |q| - 1 ensures (q[i], q[i + 1]) in VisibleEdges(modules) {
      assert (p[i], p[i + 1]) in VisibleEdges(modules);
    }
    assert Witness(modules, fromId, toId, 0, q);
  }
}
