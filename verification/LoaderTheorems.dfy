/** What the invariant says about whole runs of the module manager. */
module LoaderTheorems {
  import opened Common
  import opened Graph
  import opened LoaderState
  import opened LoaderSteps

  ghost predicate IsRun(s: State, steps: seq<Step>)
    decreases |steps|
  {
    steps == [] || (Enabled(s, steps[0]) && IsRun(Apply(s, steps[0]), steps[1..]))
  }

  ghost function After(s: State, steps: seq<Step>): State
    requires IsRun(s, steps)
    decreases |steps|
  {
    if steps == [] then s else After(Apply(s, steps[0]), steps[1..])
  }

  lemma {:induction false} RunKeepsInv(s: State, steps: seq<Step>)
    requires Inv(s) && IsRun(s, steps)
    ensures Inv(After(s, steps))
    decreases |steps|
  {
    hide Inv, Enabled, Apply;
    if steps != [] {
      StepKeepsInv(s, steps[0]);
      RunKeepsInv(Apply(s, steps[0]), steps[1..]);
    }
  }

  lemma {:induction false} RunSnoc(s: State, steps: seq<Step>, a: Step)
    requires IsRun(s, steps) && Enabled(After(s, steps), a)
    ensures IsRun(s, steps + [a]) && After(s, steps + [a]) == Apply(After(s, steps), a)
    decreases |steps|
  {
    hide Enabled, Apply;
    if steps == [] {
      assert steps + [a] == [a];
      assert [a][1..] == [];
    } else {
      RunSnoc(Apply(s, steps[0]), steps[1..], a);
      assert (steps + [a])[1..] == steps[1..] + [a];
    }
  }

  lemma EmptyRun(s: State)
    ensures IsRun(s, []) && After(s, []) == s
  {
  }

  lemma Reachable(steps: seq<Step>)
    requires IsRun(InitialState, steps)
    ensures Inv(After(InitialState, steps))
  {
    hide Inv, IsRun, After;
    InitialInv();
    RunKeepsInv(InitialState, steps);
  }

  /** In every run the wait-for graph has no cycle. */
  lemma WaitsNeverCycle(steps: seq<Step>)
    requires IsRun(InitialState, steps)
    ensures !HasCycle(WaitEdges(After(InitialState, steps).inverse))
  {
    hide Core, Ordered, IsRun, After, HasCycle;
    Reachable(steps);
    AcyclicHasNoCycle(WaitEdges(After(InitialState, steps).inverse));
  }

  /** In every run, uncaught exceptions included, the counter of an incomplete module is what is still
      outstanding for it: its occurrences in the inverse lists, the decrements that completion loops have
      still to make, those that abandoned loops will never make, and the entries its own dependency loop
      has not handled. Each factory has been started at most once, and a module whose factory has started
      is in no inverse list and is owed nothing. */
  lemma CountersAreExact(steps: seq<Step>, m: Id)
    requires IsRun(InitialState, steps) && m in After(InitialState, steps).modules
    ensures var s := After(InitialState, steps);
      && m in s.declared
      && (!s.modules[m].isComplete ==>
            s.modules[m].unresolvedDependenciesCount
              == Waiting(s.inverse)[m] + Live(s).debts[m] + s.lost[m]
                 + (|s.declared[m]| - Handled(s.declared, s.cursor, m)))
      && NoDuplicates(s.ran)
      && (m in s.ran ==> Waiting(s.inverse)[m] == 0 && s.owed[m] == 0)
  {
    hide IsRun, After, Acyclic, Ordered, HasCycle, Waiting;
    Reachable(steps);
    WaitingMember(After(InitialState, steps).inverse, m);
    assert After(InitialState, steps).lost <= After(InitialState, steps).owed;
  }

  /** Every factory is started with `catchError` set. */
  ghost predicate CatchingRun(s: State, steps: seq<Step>)
    requires IsRun(s, steps)
    decreases |steps|
  {
    steps == [] || ((steps[0].StartFactory? ==> s.catchError) && CatchingRun(Apply(s, steps[0]), steps[1..]))
  }

  ghost predicate AllGuarded(s: State) {
    s.started <= s.guarded
  }

  lemma {:induction false} GuardedAllAlong(s: State, steps: seq<Step>)
    requires Inv(s) && AllGuarded(s) && IsRun(s, steps) && CatchingRun(s, steps)
    ensures AllGuarded(After(s, steps))
    decreases |steps|
  {
    hide Inv, Enabled, Apply, AllGuarded;
    if steps != [] {
      StepKeepsInv(s, steps[0]);
      StaysGuarded(s, steps[0]);
      GuardedAllAlong(Apply(s, steps[0]), steps[1..]);
    }
  }

  lemma StaysGuarded(s: State, a: Step)
    requires AllGuarded(s) && Enabled(s, a) && (a.StartFactory? ==> s.catchError)
    ensures AllGuarded(Apply(s, a))
  {
    hide Reach, VisibleEdges, MarkFailed, WaitersOf;
  }

  /** With `catchError` set whenever a factory is started, no call is ever abandoned. */
  lemma CaughtErrorsAbandonNothing(steps: seq<Step>)
    requires IsRun(InitialState, steps) && CatchingRun(InitialState, steps)
    ensures var s := After(InitialState, steps);
      s.escaped == {} && s.stopped == {} && s.lost == multiset{}
  {
    InitialInv();
    hide IsRun, After, CatchingRun, Acyclic, Ordered, HasCycle, Queues, Debts, Bookkeeping, Records;
    GuardedAllAlong(InitialState, steps);
    Reachable(steps);
    var s := After(InitialState, steps);
    assert s.escaped <= s.running <= s.started <= s.guarded;
  }

  /** Without errors and without a cycle, a factory starts after those of all its dependencies. */
  lemma FactoriesStartInDependencyOrder(steps: seq<Step>, k: nat, d: Id)
    requires IsRun(InitialState, steps)
    requires var s := After(InitialState, steps);
      && ErrorFree(s.modules) && !s.hasCycle
      && k < |s.ran| && s.ran[k] in s.declared && Regular(d) in s.declared[s.ran[k]]
    ensures exists j :: 0 <= j < k && After(InitialState, steps).ran[j] == d
  {
    hide IsRun, After, Acyclic, Core, HasCycle, Accounted;
    Reachable(steps);
    var s := After(InitialState, steps);
    assert d in s.ran[..k];
  }

  /** A load error reaches no module whose factory has started, save the failed module itself. */
  lemma LoadErrorSparesTheCompleted(s: State, failed: Id, reason: nat, x: Id)
    requires Inv(s) && x in s.started && x in s.modules
    ensures LoadFailed(s, failed, reason).modules[x] == s.modules[x] <==>
      x != failed || s.modules[x] == s.modules[x].OnDependencyError(LoadFailure(s.inverse, failed, reason))
  {
    hide Ordered, HasCycle, Acyclic, Bookkeeping, Debts, Affected;
    if x != failed && Affected(s.inverse, failed, x) { AffectedHasNotStarted(s, failed, x); }
    AffectsItself(s.inverse, failed);
  }
}
