/** What the cycle flag says. The entries `exports`, `module` and `require` are passed over without a
    look, but searches follow them by their ids; so the flag is exact unless modules are defined under
    those names and close a cycle that no regular entries close. */
module LoaderCycleFlag {
  import opened Common
  import opened Graph
  import opened LoaderState
  import opened LoaderSteps
  import opened LoaderSearch
  import opened Loader
  import opened LoaderTheorems

  // ------------------------------------------------------------------ bounds in every state

  lemma AllHandled(s: State)
    requires Idle(s) && s.stopped == {}
    ensures RegularEdges(s.declared) == HandledEdges(s.declared, s.cursor)
  {
    assert s.cursor - {} == s.cursor;
    forall m, d | m in s.declared && d in s.declared[m] && d.Regular?
      ensures (m, d.to) in HandledEdges(s.declared, s.cursor)
    {
      var i :| 0 <= i < |s.declared[m]| && s.declared[m][i] == d;
      assert i < Handled(s.declared, s.cursor, m);
    }
  }

  /** At every moment the flag lies between two graphs: without an error in a record it is set whenever the
      regular entries handled so far have a cycle, and it is set only if the entries, all of them, have one.
      With no call in progress, and no dependency loop stopped by an exception, all entries are handled. */
  lemma CycleFlagBounds(s: State)
    requires Inv(s)
    ensures ErrorFree(s.modules) && HasCycle(HandledEdges(s.declared, s.cursor)) ==> s.hasCycle
    ensures ErrorFree(s.modules) && Idle(s) && s.stopped == {} && HasCycle(RegularEdges(s.declared)) ==> s.hasCycle
    ensures s.hasCycle ==> HasCycle(DeclaredEdges(s.declared))
  {
    hide Core, Accounted, Topological, HasCycle, Acyclic, Abandoned;
    if ErrorFree(s.modules) && !s.hasCycle { AcyclicHasNoCycle(HandledEdges(s.declared, s.cursor)); }
    if Idle(s) && s.stopped == {} { AllHandled(s); }
  }

  /** The flag is exact for lists whose cycles, if any, show in their regular entries. */
  lemma CycleFlagExact(s: State)
    requires Inv(s) && Idle(s) && NoErrors(s)
    requires HasCycle(DeclaredEdges(s.declared)) ==> HasCycle(RegularEdges(s.declared))
    ensures s.hasCycle <==> HasCycle(DeclaredEdges(s.declared))
  {
    NothingStopped(s);
    hide Inv, Idle, HasCycle, ErrorFree;
    CycleFlagBounds(s);
  }

  lemma NothingStopped(s: State)
    requires Inv(s) && s.escaped == {}
    ensures s.stopped == {} && s.lost == multiset{}
  {
    hide Core, Ordered, Acyclic, HasCycle;
  }

  ghost predicate Reserved(m: Id) {
    m == Exports.Target() || m == ModuleItself.Target() || m == Require.Target()
  }

  /** In particular when no module is defined under a reserved name, or none of those is on a cycle. */
  lemma CyclesAvoidReserved(declared: Lists)
    requires forall m :: Reserved(m) && m in declared ==> !Reach(DeclaredEdges(declared), m, m)
    ensures HasCycle(DeclaredEdges(declared)) ==> HasCycle(RegularEdges(declared))
  {
    var e := DeclaredEdges(declared);
    if HasCycle(e) {
      var a :| Reach(e, a, a);
      var p :| IsPath(e, a, a, p);
      forall i | 0 <= i < |p| - 1 ensures (p[i], p[i + 1]) in RegularEdges(declared) {
        WalkStep(e, p, i);
        var d :| d in declared[p[i]] && d.Target() == p[i + 1];
        OnCycle(e, p, i + 1);
        if Reserved(p[i + 1]) { StartsFrom(declared, p[i + 1]); }
      }
      assert IsPath(RegularEdges(declared), a, a, p);
      assert Reach(RegularEdges(declared), a, a);
    }
  }

  lemma StartsFrom(declared: Lists, a: Id)
    requires Reach(DeclaredEdges(declared), a, a)
    ensures a in declared
  {
    var p :| IsPath(DeclaredEdges(declared), a, a, p);
    WalkTail(DeclaredEdges(declared), p);
  }

  /** Every node of a closed path leads back to itself. */
  lemma OnCycle(e: Edges, p: seq<Node>, i: nat)
    requires IsWalk(e, p) && |p| >= 2 && p[0] == p[|p| - 1] && 0 < i < |p|
    ensures Reach(e, p[i], p[i])
  {
    assert IsPath(e, p[0], p[i], p[..i + 1]);
    if i < |p| - 1 {
      assert IsPath(e, p[i], p[0], p[i..]);
      ReachTransitive(e, p[i], p[0], p[i]);
    }
  }

  // ------------------------------------------------------------------ an order of definitions that evades the flag

  ghost predicate Needed(e: Edges, r: set<Node>, m: Node) {
    exists x :: x in r && (x, m) in e
  }

  /** Some module of a finite set without a cycle is an entry of none of them. */
  lemma NobodyNeeds(e: Edges, r: set<Node>) returns (m: Node)
    requires r != {} && !HasCycle(e)
    ensures m in r && !Needed(e, r, m)
  {
    hide Needed, HasCycle, IsWalk;
    if forall x :: x in r ==> Needed(e, r, x) {
      var p := BackwardWalkIn(e, r, |r| + 1);
      var i, j := Repeats(p, r);
      ClosedPart(e, p, i, j);
      assert false;
    }
    m :| m in r && !Needed(e, r, m);
  }

  lemma ClosedPart(e: Edges, p: seq<Node>, i: nat, j: nat)
    requires IsWalk(e, p) && i < j < |p| && p[i] == p[j]
    ensures HasCycle(e)
  {
    assert IsPath(e, p[i], p[i], p[i..j + 1]);
    assert Reach(e, p[i], p[i]);
  }

  lemma {:induction false} BackwardWalkIn(e: Edges, r: set<Node>, n: nat) returns (p: seq<Node>)
    requires n > 0 && r != {} && forall m :: m in r ==> Needed(e, r, m)
    ensures IsWalk(e, p) && |p| == n && forall i :: 0 <= i < n ==> p[i] in r
  {
    hide Needed, IsWalk;
    if n == 1 {
      var m :| m in r;
      p := [m];
      OneNode(e, m);
    } else {
      var q := BackwardWalkIn(e, r, n - 1);
      var x := WhoNeeds(e, r, q[0]);
      p := [x] + q;
      Prepended(e, x, q);
    }
  }

  lemma WhoNeeds(e: Edges, r: set<Node>, m: Node) returns (x: Node)
    requires Needed(e, r, m)
    ensures x in r && (x, m) in e
  {
    x :| x in r && (x, m) in e;
  }

  lemma OneNode(e: Edges, m: Node)
    ensures IsWalk(e, [m])
  {
  }

  lemma Prepended(e: Edges, x: Node, q: seq<Node>)
    requires IsWalk(e, q) && (x, q[0]) in e
    ensures IsWalk(e, [x] + q)
  {
    var p := [x] + q;
    forall i | 0 <= i < |p| - 1 ensures (p[i], p[i + 1]) in e {
      if i > 0 { WalkStep(e, q, i - 1); }
    }
  }

  /** The pigeonhole principle. */
  lemma {:induction false} Repeats(p: seq<Node>, r: set<Node>) returns (i: nat, j: nat)
    requires |p| > |r| && forall k :: 0 <= k < |p| ==> p[k] in r
    ensures i < j < |p| && p[i] == p[j]
    decreases |p|
  {
    var last := p[|p| - 1];
    var init := p[..|p| - 1];
    if last in init {
      i :| 0 <= i < |init| && init[i] == last;
      j := |p| - 1;
    } else {
      i, j := Repeats(init, r - {last});
    }
  }

  /** Nothing has gone wrong so far, and nothing is left to be done apart from `ready` and `unasked`. */
  ghost predicate Smooth(steps: seq<Step>, ready: set<Id>, unasked: set<Id>) {
    && IsRun(InitialState, steps)
    && var s := After(InitialState, steps);
      && Inv(s) && NoErrors(s) && !s.hasCycle && Settled(s, ready, unasked)
      && s.stopped == {} && s.lost == multiset{}
  }

  predicate Harmless(a: Step) {
    match a
    case BreakCycle(_) => false
    case DependencyFailed(_) => false
    case LoadFails(_, _) => false
    case EndFactory(_, thrown) => thrown.None?
    case Escape(_) => false
    case StopLoop(_) => false
    case LoseDebt(_) => false
    case _ => true
  }

  lemma HarmlessStep(s: State, a: Step)
    requires NoErrors(s) && Harmless(a) && Enabled(s, a)
    ensures NoErrors(Apply(s, a)) && Apply(s, a).hasCycle == s.hasCycle
    ensures Apply(s, a).stopped == s.stopped && Apply(s, a).lost == s.lost
  {
    StaysErrorFree(s, a);
    hide Reach, VisibleEdges, ErrorFree, WaitersOf, Returned, Decremented;
  }

  lemma StaysErrorFree(s: State, a: Step)
    requires ErrorFree(s.modules) && Harmless(a) && Enabled(s, a)
    ensures ErrorFree(Apply(s, a).modules)
  {
    hide Reach, VisibleEdges, ErrorFree, WaitersOf, Returned, Decremented;
    match a {
      case Define(m, ds, _) => OneErrorFree(s.modules, m, Apply(s, a).modules[m]);
      case Skip(m) => CountedErrorFree(s.modules, m);
      case StartFactory(m) => OneErrorFree(s.modules, m, Apply(s, a).modules[m]);
      case EndFactory(m, _) => ReturnedErrorFree(s.modules, m, WaitersOf(s.inverse, m));
      case Notify(m) => CountedErrorFree(s.modules, m);
      case _ =>
    }
  }

  lemma OneErrorFree(modules: map<Id, Module>, m: Id, r: Module)
    requires ErrorFree(modules) && (m in modules ==> r.error == modules[m].error) && (m !in modules ==> r.error.None?)
    ensures ErrorFree(modules[m := r])
  {
  }

  lemma CountedErrorFree(modules: map<Id, Module>, m: Id)
    requires ErrorFree(modules) && m in modules
    ensures ErrorFree(Decremented(modules, m))
  {
  }

  lemma ReturnedErrorFree(modules: map<Id, Module>, m: Id, waiters: seq<Id>)
    requires ErrorFree(modules) && m in modules
    ensures ErrorFree(modules[m := Returned(modules[m], m, waiters, None)])
  {
  }

  lemma GoOn(steps: seq<Step>, a: Step, ready: set<Id>, unasked: set<Id>) returns (more: seq<Step>)
    requires Smooth(steps, ready, unasked) && Harmless(a) && Enabled(After(InitialState, steps), a)
    ensures var s := After(InitialState, steps);
      && Smooth(more, ReadyAfter(a, ready), UnaskedAfter(s, a, unasked))
      && After(InitialState, more) == Apply(s, a)
  {
    hide IsRun, After, Inv, NoErrors, Settled, Enabled, Apply, Harmless;
    var s := After(InitialState, steps);
    RunSnoc(InitialState, steps, a);
    more := steps + [a];
    HarmlessStep(s, a);
    StepKeepsInv(s, a);
    StepSettles(s, a, ready, unasked);
  }

  lemma EndOne(steps: seq<Step>, ready: set<Id>, m: Id) returns (more: seq<Step>)
    requires Smooth(steps, ready, {}) && m in After(InitialState, steps).running
    ensures Smooth(more, ready, {})
    ensures var s, s' := After(InitialState, steps), After(InitialState, more);
      && s'.cursor == s.cursor && s'.declared == s.declared
      && Incomplete(s'.modules) == Incomplete(s.modules) && s'.running == s.running - {m}
  {
    hide IsRun, After, Inv, ErrorFree, Settled, Reach, VisibleEdges, Incomplete, WaitersOf;
    var s := After(InitialState, steps);
    RunningIsDefined(s);
    more := GoOn(steps, EndFactory(m, None), ready, {});
    ReplacedIncomplete(s.modules, m, After(InitialState, more).modules[m]);
  }

  lemma StartOne(steps: seq<Step>, ready: set<Id>, m: Id) returns (more: seq<Step>)
    requires Smooth(steps, ready, {}) && Ready(After(InitialState, steps).modules, m)
    ensures Smooth(more, ready - {m}, {})
    ensures var s, s' := After(InitialState, steps), After(InitialState, more);
      && s'.cursor == s.cursor && s'.declared == s.declared
      && Incomplete(s'.modules) < Incomplete(s.modules)
  {
    hide IsRun, After, Inv, NoErrors, Settled, Reach, VisibleEdges, Incomplete, WaitersOf;
    var s := After(InitialState, steps);
    more := GoOn(steps, StartFactory(m), ready, {});
    FewerIncomplete(s.modules, m, After(InitialState, more).modules[m]);
  }

  lemma NotifyNext(steps: seq<Step>, ready: set<Id>, x: Id) returns (more: seq<Step>)
    requires Smooth(steps, ready, {}) && x in After(InitialState, steps).owed
    ensures Smooth(more, ready + {x}, {})
    ensures var s, s' := After(InitialState, steps), After(InitialState, more);
      && s'.cursor == s.cursor && s'.declared == s.declared
      && Incomplete(s'.modules) == Incomplete(s.modules) && s'.running == s.running
      && s'.owed == s.owed - multiset{x}
  {
    hide IsRun, After, Inv, NoErrors, Settled, Reach, VisibleEdges, Incomplete, WaitersOf;
    var s := After(InitialState, steps);
    OwedIsDefined(s, x);
    more := GoOn(steps, Notify(x), ready, {});
    SameIncomplete(s.modules, x);
  }

  /** Everything that can be completed is. */
  lemma {:induction false} Finish(steps: seq<Step>, ready: set<Id>) returns (more: seq<Step>)
    requires Smooth(steps, ready, {}) && After(InitialState, steps).cursor == map[]
    ensures Smooth(more, {}, {}) && Idle(After(InitialState, more))
    ensures After(InitialState, more).declared == After(InitialState, steps).declared
    decreases |Incomplete(After(InitialState, steps).modules)|, |After(InitialState, steps).running|,
      |After(InitialState, steps).owed|
  {
    hide IsRun, After, Inv, NoErrors, Incomplete, Settled, Idle;
    var s := After(InitialState, steps);
    if m :| m in s.running {
      more := EndOne(steps, ready, m);
      more := Finish(more, ready);
    } else if m :| Ready(s.modules, m) {
      more := StartOne(steps, ready, m);
      Smaller(Incomplete(After(InitialState, more).modules), Incomplete(s.modules));
      more := Finish(more, ready - {m});
    } else if x :| x in s.owed {
      more := NotifyNext(steps, ready, x);
      more := Finish(more, ready + {x});
    } else {
      more := steps;
      NothingReady(s, ready);
    }
  }

  lemma NothingReady(s: State, ready: set<Id>)
    requires Settled(s, ready, {}) && s.cursor == map[]
    requires (forall m :: !Ready(s.modules, m)) && (forall m :: m !in s.running) && (forall x :: x !in s.owed)
    ensures Settled(s, {}, {}) && Idle(s)
  {
    forall m | m in s.modules && !s.modules[m].isComplete ensures s.modules[m].unresolvedDependenciesCount != 0 {
      assert !Ready(s.modules, m);
    }
    assert s.cursor - s.stopped == map[] && s.running - s.escaped == {};
    assert s.owed == multiset{};
  }

  lemma Smaller(a: set<Id>, b: set<Id>)
    requires a < b
    ensures |a| < |b|
  {
    var x :| x in b && x !in a;
    assert a <= b - {x};
    Fewer(a, b - {x});
  }

  lemma {:induction false} Fewer(a: set<Id>, b: set<Id>)
    requires a <= b
    ensures |a| <= |b|
  {
    if x :| x in a { Fewer(a - {x}, b - {x}); }
  }

  lemma RunningIsDefined(s: State)
    requires Inv(s)
    ensures s.running <= s.modules.Keys
  {
    hide Queues, Debts, Bookkeeping, Waiting, RunsOnce, Acyclic, Ordered;
  }

  /** The rest of a dependency loop whose regular entries are not defined yet. */
  lemma {:induction false} WaitForAll(steps: seq<Step>, m: Id, i: nat) returns (more: seq<Step>)
    requires Smooth(steps, {m}, {})
    requires var s := After(InitialState, steps);
      && m in s.declared && m in s.modules && i <= |s.declared[m]| && s.cursor == map[m := i]
      && forall d :: Regular(d) in s.declared[m] ==> d !in s.modules
    ensures Smooth(more, {m}, {})
    ensures var s, s' := After(InitialState, steps), After(InitialState, more);
      s'.declared == s.declared && s'.cursor == map[m := |s.declared[m]|]
    decreases |After(InitialState, steps).declared[m]| - i
  {
    hide IsRun, After, Inv, NoErrors, Settled, Reach, VisibleEdges, WaitersOf;
    var s := After(InitialState, steps);
    more := steps;
    if i < |s.declared[m]| {
      var entry := Entry(s, m);
      if entry.Regular? {
        assert Regular(entry.to) in s.declared[m];
        UndefinedLeadsNowhere(s.modules, entry.to, m);
        more := GoOn(more, Record(m), {m}, {});
        assert {} + {entry.to} == {entry.to} && {entry.to} - {entry.to} == {};
        more := GoOn(more, Ask(entry.to), {m}, {entry.to});
      } else {
        more := GoOn(more, Skip(m), {m}, {});
        assert {m} + {m} == {m};
      }
      assert After(InitialState, more).cursor == map[m := i + 1];
      more := WaitForAll(more, m, i + 1);
    }
  }

  lemma NoLoops(s: State)
    requires Idle(s) && s.stopped == {}
    ensures s.cursor == map[]
  {
    assert s.cursor - {} == s.cursor;
  }

  lemma DefineNext(steps: seq<Step>, m: Id, ds: seq<Dependency>) returns (more: seq<Step>)
    requires Smooth(steps, {}, {}) && Idle(After(InitialState, steps))
    requires var s := After(InitialState, steps);
      m !in s.modules && forall d :: Regular(d) in ds ==> d !in s.modules && d != m
    ensures Smooth(more, {}, {}) && Idle(After(InitialState, more))
    ensures After(InitialState, more).declared == After(InitialState, steps).declared[m := ds]
  {
    hide IsRun, After, Inv, NoErrors, Settled, Reach, VisibleEdges, WaitersOf;
    more := GoOn(steps, Define(m, ds, false), {}, {});
    assert {} + {m} == {m};
    NoLoops(After(InitialState, steps));
    more := WaitForAll(more, m, 0);
    more := GoOn(more, EndLoop(m), {m}, {});
    assert After(InitialState, more).cursor == map[];
    more := Finish(more, {m});
  }

  /** What is still to be defined: nothing that is defined already is an entry of it. */
  ghost predicate Remaining(declared: Lists, defined: Lists, rest: set<Id>) {
    && rest <= declared.Keys && defined == declared - rest
    && forall m, d :: m in rest && Regular(d) in declared[m] ==> d !in defined
  }

  lemma EntryIsNeeded(declared: Lists, r: set<Id>, m: Id, x: Id)
    requires x in r && x in declared && Regular(m) in declared[x]
    ensures Needed(RegularEdges(declared), r, m)
  {
    assert (x, Regular(m).to) in RegularEdges(declared);
  }

  lemma OneLess(declared: Lists, defined: Lists, rest: set<Id>, m: Id)
    requires Remaining(declared, defined, rest) && m in rest && !Needed(RegularEdges(declared), rest, m)
    ensures m !in defined && forall d :: Regular(d) in declared[m] ==> d !in defined && d != m
    ensures Remaining(declared, defined[m := declared[m]], rest - {m})
  {
    hide Needed, RegularEdges;
    forall x | x in rest ensures Regular(m) !in declared[x] {
      if Regular(m) in declared[x] { EntryIsNeeded(declared, rest, m, x); }
    }
    assert defined[m := declared[m]] == declared - (rest - {m});
  }

  /** What needs others is defined before what it needs. */
  lemma {:induction false} DefineRest(declared: Lists, steps: seq<Step>, rest: set<Id>) returns (more: seq<Step>)
    requires !HasCycle(RegularEdges(declared)) && rest <= declared.Keys
    requires Smooth(steps, {}, {}) && Idle(After(InitialState, steps))
    requires Remaining(declared, After(InitialState, steps).declared, rest)
    ensures Smooth(more, {}, {}) && Idle(After(InitialState, more))
    ensures After(InitialState, more).declared == declared
    decreases rest
  {
    hide IsRun, After, Inv, Settled, HasCycle, RegularEdges, Needed, Remaining, ErrorFree, Idle;
    var s := After(InitialState, steps);
    more := steps;
    if rest == {} {
      NothingRemains(declared, s.declared);
    } else {
      var m := NobodyNeeds(RegularEdges(declared), rest);
      KeysAgree(s);
      OneLess(declared, s.declared, rest, m);
      more := DefineNext(steps, m, declared[m]);
      more := DefineRest(declared, more, rest - {m});
    }
  }

  lemma NothingRemains(declared: Lists, defined: Lists)
    requires Remaining(declared, defined, {})
    ensures defined == declared
  {
  }

  /** Lists whose regular entries have no cycle can be defined, without any error and to the end, in an
      order in which the flag stays unset. */
  lemma EvadingOrder(declared: Lists) returns (steps: seq<Step>)
    requires !HasCycle(RegularEdges(declared))
    ensures IsRun(InitialState, steps)
    ensures var s := After(InitialState, steps);
      s.declared == declared && Idle(s) && Settled(s, {}, {}) && NoErrors(s) && !s.hasCycle
  {
    InitialInv();
    EmptyRun(InitialState);
    assert declared - declared.Keys == map[];
    hide IsRun, After, Inv, HasCycle, RegularEdges;
    steps := DefineRest(declared, [], declared.Keys);
  }

  /** The cycle flag tells the truth about the given lists, whatever the order of definitions. */
  ghost predicate FlagExactFor(declared: Lists) {
    forall steps {:trigger IsRun(InitialState, steps)} :: IsRun(InitialState, steps) ==>
      var s := After(InitialState, steps);
      s.declared == declared && Idle(s) && NoErrors(s) ==> (s.hasCycle <==> HasCycle(DeclaredEdges(declared)))
  }

  /** It does so for every order of definitions if and only if a cycle of entries comes with a cycle of
      regular entries. */
  lemma FlagExactlyWhen(declared: Lists)
    ensures FlagExactFor(declared) <==>
      (HasCycle(DeclaredEdges(declared)) ==> HasCycle(RegularEdges(declared)))
  {
    hide IsRun, After, Inv, Idle, HasCycle, ErrorFree;
    if HasCycle(DeclaredEdges(declared)) ==> HasCycle(RegularEdges(declared)) {
      forall steps | IsRun(InitialState, steps)
        ensures var s := After(InitialState, steps);
          s.declared == declared && Idle(s) && NoErrors(s) ==>
            (s.hasCycle <==> HasCycle(DeclaredEdges(declared)))
      {
        var s := After(InitialState, steps);
        if s.declared == declared && Idle(s) && NoErrors(s) {
          Reachable(steps);
          NothingStopped(s);
          CycleFlagBounds(s);
        }
      }
    } else {
      var steps := EvadingOrder(declared);
      assert IsRun(InitialState, steps);
    }
  }

  /** Such lists exist: here `exports` (0) needs 3, and 3 has the entry `exports`. */
  lemma ReservedIdHidesCycle()
    ensures !FlagExactFor(map[0 := [Regular(3)], 3 := [Exports]])
  {
    var declared: Lists := map[0 := [Regular(3)], 3 := [Exports]];
    var e := DeclaredEdges(declared);
    hide FlagExactFor;
    FlagExactlyWhen(declared);
    assert Regular(3) in declared[0] && Exports in declared[3];
    assert (0, Regular(3).Target()) in e && (3, Exports.Target()) in e;
    EdgeReach(e, 0, 3);
    EdgeReach(e, 3, 0);
    ReachTransitive(e, 0, 3, 0);
    var rank: Node -> nat := x => if x == 0 then 1 else 0;
    assert Ranks(RegularEdges(declared), rank);
    AcyclicHasNoCycle(RegularEdges(declared));
  }
}
