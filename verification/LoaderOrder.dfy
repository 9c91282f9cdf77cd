/** When dependencies have not only been started but have returned. The manager marks a module complete
    before its factory runs, so a module defined inside a factory may pass over the one being run. */
module LoaderOrder {
  import opened Common
  import opened Graph
  import opened LoaderState
  import opened LoaderSteps
  import opened LoaderTheorems

  /** The factory of d has been started and its waiters have been fetched. */
  ghost predicate HasReturned(s: State, d: Id) {
    d in s.started && d !in s.running
  }

  /** No entry is passed over while its factory is running, unless the module waits for it already. */
  ghost predicate Patient(s: State, a: Step) {
    a.Skip? && InLoop(s, a.id) && Entry(s, a.id).Regular? ==>
      Next(s, a.id) !in s.running || a.id in WaitersOf(s.inverse, Next(s, a.id))
  }

  ghost predicate PatientRun(s: State, steps: seq<Step>)
    requires IsRun(s, steps)
    decreases |steps|
  {
    steps == [] || (Patient(s, steps[0]) && PatientRun(Apply(s, steps[0]), steps[1..]))
  }

  /** A handled entry has returned or is waited for. */
  ghost predicate ReturnedOrWaitedFor(s: State) {
    forall m, i :: m in s.declared && 0 <= i < |s.declared[m]| &&
                   i < Handled(s.declared, s.cursor, m) && s.declared[m][i].Regular? ==>
      HasReturned(s, s.declared[m][i].to) || m in WaitersOf(s.inverse, s.declared[m][i].to)
  }

  /** The dependencies of a module whose factory has been started have returned. */
  ghost predicate DependenciesReturned(s: State) {
    forall m, d :: m in s.started && m in s.declared && Regular(d) in s.declared[m] ==> HasReturned(s, d)
  }

  ghost predicate InOrder(s: State) {
    ReturnedOrWaitedFor(s) && DependenciesReturned(s)
  }

  ghost predicate Clean(s: State) {
    ErrorFree(s.modules) && !s.hasCycle
  }

  lemma CleanBefore(s: State, a: Step)
    requires Inv(s) && Enabled(s, a) && Clean(Apply(s, a))
    ensures Clean(s) && !a.BreakCycle? && !a.DependencyFailed? && !a.LoadFails?
  {
    KeysAgree(s);
    RunningHasRun(s);
    hide Inv, Apply, Enabled;
    StepExtends(s, a);
    ErrorFreeBefore(s.modules, Apply(s, a).modules);
    DirtySteps(s, a);
  }

  lemma DirtySteps(s: State, a: Step)
    requires Enabled(s, a)
    ensures a.BreakCycle? ==> Apply(s, a).hasCycle
    ensures a.DependencyFailed? ==> !ErrorFree(Apply(s, a).modules)
    ensures a.LoadFails? ==> !ErrorFree(Apply(s, a).modules)
  {
    hide LoadFailed, Reach, VisibleEdges, ErrorFree;
    if a.LoadFails? { NotErrorFree(s, a.id, a.reason); }
    if a.DependencyFailed? { HasAnError(Apply(s, a).modules, a.id); }
  }

  lemma HasAnError(modules: map<Id, Module>, m: Id)
    requires m in modules && modules[m].error.Some?
    ensures !ErrorFree(modules)
  {
  }

  /** One more entry has been handled. */
  lemma HandleInOrder(s: State, m: Id, inverse: map<Id, seq<Id>>, modules: map<Id, Module>)
    requires InOrder(s) && InLoop(s, m)
    requires forall d, x :: x in WaitersOf(s.inverse, d) ==> x in WaitersOf(inverse, d)
    requires Entry(s, m).Regular? ==> HasReturned(s, Next(s, m)) || m in WaitersOf(inverse, Next(s, m))
    ensures InOrder(s.(modules := modules, inverse := inverse, cursor := s.cursor[m := s.cursor[m] + 1]))
  {
    var s' := s.(modules := modules, inverse := inverse, cursor := s.cursor[m := s.cursor[m] + 1]);
    forall x, i | x in s.declared && 0 <= i < |s.declared[x]| &&
                  i < Handled(s.declared, s'.cursor, x) && s.declared[x][i].Regular?
      ensures HasReturned(s', s.declared[x][i].to) || x in WaitersOf(inverse, s.declared[x][i].to)
    {
      if x != m || i != s.cursor[m] {
        assert i < Handled(s.declared, s.cursor, x);
        assert HasReturned(s, s.declared[x][i].to) || x in WaitersOf(s.inverse, s.declared[x][i].to);
      }
    }
    forall x, d | x in s.started && x in s.declared && Regular(d) in s.declared[x] ensures HasReturned(s', d) {
      assert HasReturned(s, d);
    }
  }

  lemma SkipInOrder(s: State, m: Id)
    requires Inv(s) && InOrder(s) && Clean(s) && Enabled(s, Skip(m))
    ensures InOrder(Ticked(s, m)) <==> Patient(s, Skip(m))
  {
    hide Queues, Debts, RunsOnce, CursorOk, Bookkeeping, Waiting, Ordered, Acyclic, HasCycle, InOrder;
    var d := Next(s, m);
    if Entry(s, m).Regular? {
      assert RecordOk(s.modules[d], s.declared[d], d in s.started, d in s.running);
    }
    if Patient(s, Skip(m)) {
      HandleInOrder(s, m, s.inverse, Ticked(s, m).modules);
    } else {
      ImpatientSkip(s, m);
    }
  }

  lemma ImpatientSkip(s: State, m: Id)
    requires InLoop(s, m) && !Patient(s, Skip(m))
    ensures !InOrder(Ticked(s, m))
  {
    var s' := Ticked(s, m);
    var i := s.cursor[m];
    assert i < Handled(s'.declared, s'.cursor, m) && s'.declared[m][i] == Entry(s, m);
    assert !HasReturned(s', Next(s, m)) && m !in WaitersOf(s'.inverse, Next(s, m));
  }

  lemma RecordInOrder(s: State, m: Id)
    requires InOrder(s) && Enabled(s, Record(m))
    ensures InOrder(Recorded(s, m))
  {
    hide InOrder, Reach, VisibleEdges;
    HandleInOrder(s, m, Recorded(s, m).inverse, s.modules);
  }

  lemma StartInOrder(s: State, m: Id)
    requires Inv(s) && InOrder(s) && Ready(s.modules, m)
    ensures InOrder(FactoryStarted(s, m))
  {
    hide Queues, Debts, RunsOnce, CursorOk, Bookkeeping, Waiting, Ordered, Acyclic, HasCycle, Records, Started;
    NothingPending(s, m);
    var s' := FactoryStarted(s, m);
    forall x, d | x in s'.started && x in s.declared && Regular(d) in s.declared[x] ensures HasReturned(s', d) {
      if x == m {
        var i :| 0 <= i < |s.declared[m]| && s.declared[m][i] == Regular(d);
        assert HasReturned(s, s.declared[m][i].to) || m in WaitersOf(s.inverse, d);
      } else {
        assert HasReturned(s, d);
      }
    }
    forall x, i | x in s.declared && 0 <= i < |s.declared[x]| &&
                  i < Handled(s.declared, s.cursor, x) && s.declared[x][i].Regular?
      ensures HasReturned(s', s.declared[x][i].to) || x in WaitersOf(s.inverse, s.declared[x][i].to)
    {
      assert HasReturned(s, s.declared[x][i].to) || x in WaitersOf(s.inverse, s.declared[x][i].to);
    }
  }

  lemma EndInOrder(s: State, m: Id, thrown: Option<nat>)
    requires InOrder(s) && Returns(s, m) && m in s.started
    ensures InOrder(FactoryEnded(s, m, thrown))
  {
    var s' := FactoryEnded(s, m, thrown);
    forall d | HasReturned(s, d) ensures HasReturned(s', d) {
    }
    forall x, i | x in s.declared && 0 <= i < |s.declared[x]| &&
                  i < Handled(s.declared, s.cursor, x) && s.declared[x][i].Regular?
      ensures HasReturned(s', s.declared[x][i].to) || x in WaitersOf(s'.inverse, s.declared[x][i].to)
    {
      assert HasReturned(s, s.declared[x][i].to) || x in WaitersOf(s.inverse, s.declared[x][i].to);
    }
  }

  lemma DefineInOrder(s: State, m: Id, ds: seq<Dependency>, eb: bool)
    requires Inv(s) && InOrder(s) && m !in s.modules
    ensures InOrder(Defined(s, m, ds, eb))
  {
    hide Queues, Debts, RunsOnce, CursorOk, Bookkeeping, Waiting, Ordered, Acyclic, HasCycle;
    var s' := Defined(s, m, ds, eb);
    forall x, i | x in s'.declared && 0 <= i < |s'.declared[x]| &&
                  i < Handled(s'.declared, s'.cursor, x) && s'.declared[x][i].Regular?
      ensures HasReturned(s', s'.declared[x][i].to) || x in WaitersOf(s.inverse, s'.declared[x][i].to)
    {
      assert HasReturned(s, s.declared[x][i].to) || x in WaitersOf(s.inverse, s.declared[x][i].to);
    }
    forall x, d | x in s.started && x in s'.declared && Regular(d) in s'.declared[x] ensures HasReturned(s', d) {
      assert HasReturned(s, d);
    }
  }

  lemma EndLoopInOrder(s: State, m: Id)
    requires InOrder(s) && Enabled(s, EndLoop(m))
    ensures InOrder(s.(cursor := s.cursor - {m}))
  {
    var s' := s.(cursor := s.cursor - {m});
    forall x, i | x in s.declared && 0 <= i < |s.declared[x]| &&
                  i < Handled(s.declared, s'.cursor, x) && s.declared[x][i].Regular?
      ensures HasReturned(s', s.declared[x][i].to) || x in WaitersOf(s.inverse, s.declared[x][i].to)
    {
      assert i < Handled(s.declared, s.cursor, x);
      assert HasReturned(s, s.declared[x][i].to) || x in WaitersOf(s.inverse, s.declared[x][i].to);
    }
    forall x, d | x in s.started && x in s.declared && Regular(d) in s.declared[x] ensures HasReturned(s', d) {
      assert HasReturned(s, d);
    }
  }

  lemma SameInOrder(s: State, s': State)
    requires InOrder(s) && s'.declared == s.declared && s'.cursor == s.cursor && s'.inverse == s.inverse
    requires s'.started == s.started && s'.running == s.running
    ensures InOrder(s')
  {
    assert forall d :: HasReturned(s', d) <==> HasReturned(s, d);
  }

  /** The stronger property that carries the order forward is broken, of all steps without an error or a
      cycle, exactly by passing over a running entry. */
  lemma InOrderWhilePatient(s: State, a: Step)
    requires Inv(s) && InOrder(s) && Enabled(s, a) && Clean(Apply(s, a))
    ensures InOrder(Apply(s, a)) <==> Patient(s, a)
  {
    if !a.Skip? { OthersArePatient(s, a); }
    CleanBefore(s, a);
    RunningHasRun(s);
    RanIsStarted(s);
    hide Inv, InOrder, Clean, Patient, Reach, VisibleEdges, Defined, Ticked, Recorded, FactoryStarted, FactoryEnded,
         CountedDown;
    match a {
      case Define(m, ds, eb) => DefineInOrder(s, m, ds, eb);
      case Skip(m) => SkipInOrder(s, m);
      case Record(m) => RecordInOrder(s, m);
      case EndLoop(m) => EndLoopInOrder(s, m);
      case StartFactory(m) => StartInOrder(s, m);
      case EndFactory(m, thrown) => EndInOrder(s, m, thrown);
      case _ => SmallStepInOrder(s, a);
    }
  }

  lemma SmallStepInOrder(s: State, a: Step)
    requires InOrder(s) && Enabled(s, a)
    requires a.Ask? || a.Notify? || a.Configure? || a.Escape? || a.StopLoop? || a.LoseDebt?
    ensures InOrder(Apply(s, a))
  {
    hide InOrder, Reach, VisibleEdges;
    SameInOrder(s, Apply(s, a));
  }

  lemma OthersArePatient(s: State, a: Step)
    requires !a.Skip?
    ensures Patient(s, a)
  {
  }

  lemma RanIsStarted(s: State)
    requires Inv(s)
    ensures forall m :: m in s.ran <==> m in s.started
    ensures s.started <= s.declared.Keys && s.running <= s.started
  {
    hide Queues, Debts, Bookkeeping, Waiting, Records, Acyclic, Ordered;
  }

  lemma {:induction false} CleanAllAlong(s: State, steps: seq<Step>)
    requires Inv(s) && IsRun(s, steps) && Clean(After(s, steps))
    ensures Clean(s)
    decreases |steps|
  {
    hide Inv, Enabled, Apply, Clean;
    if steps != [] {
      StepKeepsInv(s, steps[0]);
      CleanAllAlong(Apply(s, steps[0]), steps[1..]);
      CleanBefore(s, steps[0]);
    }
  }

  lemma {:induction false} RunInOrder(s: State, steps: seq<Step>)
    requires Inv(s) && InOrder(s) && IsRun(s, steps) && PatientRun(s, steps) && Clean(After(s, steps))
    ensures InOrder(After(s, steps))
    decreases |steps|
  {
    hide Inv, Enabled, Apply, Clean, InOrder, Patient;
    if steps != [] {
      StepKeepsInv(s, steps[0]);
      CleanAllAlong(Apply(s, steps[0]), steps[1..]);
      InOrderWhilePatient(s, steps[0]);
      RunInOrder(Apply(s, steps[0]), steps[1..]);
    }
  }

  /** Without errors and cycles, as long as no entry is passed over while its factory is running, the
      factories of all dependencies have returned before a factory is started: in every state of the run
      the dependencies of each started module have returned. */
  lemma FactoriesRunAfterTheirDependencies(steps: seq<Step>, m: Id, d: Id)
    requires IsRun(InitialState, steps) && PatientRun(InitialState, steps)
    requires var s := After(InitialState, steps);
      Clean(s) && m in s.started && m in s.declared && Regular(d) in s.declared[m]
    ensures HasReturned(After(InitialState, steps), d)
  {
    assert InOrder(InitialState);
    InitialInv();
    hide Inv, IsRun, After, PatientRun, Clean;
    RunInOrder(InitialState, steps);
  }

  // ------------------------------------------------------------------ exactly when the order is kept

  /** The factory of m is not started while that of a dependency is running, or was left by an exception. */
  ghost predicate Timely(s: State, a: Step) {
    a.StartFactory? && a.id in s.declared ==> forall d :: Regular(d) in s.declared[a.id] ==> d !in s.running
  }

  /** What starting a factory does to the order, in a state that is in order. */
  lemma StartKeepsDependencies(s: State, m: Id)
    requires Inv(s) && DependenciesReturned(s) && Ready(s.modules, m)
    requires Topological(s.declared, s.ran + [m]) && m in s.declared && m !in s.started
    requires forall x :: x in s.ran <==> x in s.started
    ensures DependenciesReturned(FactoryStarted(s, m)) <==>
      forall d :: Regular(d) in s.declared[m] ==> d !in s.running
  {
    hide Inv;
    var s' := FactoryStarted(s, m);
    var ran' := s.ran + [m];
    assert ran'[|s.ran|] == m && ran'[..|s.ran|] == s.ran;
    forall d | Regular(d) in s.declared[m] ensures d in s.started && (HasReturned(s', d) <==> d !in s.running) {
      assert d in ran'[..|s.ran|];
    }
    forall x, d | x in s.started && x in s.declared && Regular(d) in s.declared[x] ensures HasReturned(s', d) {
      assert HasReturned(s, d);
    }
  }

  lemma OthersKeepDependencies(s: State, a: Step)
    requires Inv(s) && DependenciesReturned(s) && Enabled(s, a) && !a.StartFactory?
    ensures DependenciesReturned(Apply(s, a))
  {
    KeysAgree(s);
    RanIsStarted(s);
    RunningHasRun(s);
    SameStarted(s, a);
    hide Inv, Enabled, Apply;
    StepExtends(s, a);
    var s' := Apply(s, a);
    forall x, d | x in s'.started && x in s'.declared && Regular(d) in s'.declared[x] ensures HasReturned(s', d) {
      assert HasReturned(s, d);
    }
  }

  lemma SameStarted(s: State, a: Step)
    requires Enabled(s, a) && !a.StartFactory?
    ensures Apply(s, a).started == s.started && Apply(s, a).running <= s.running
  {
    hide Reach, VisibleEdges, MarkFailed, WaitersOf, Returned, LoadFailure, WithPlaceholder, Decremented;
  }

  /** The order is broken by exactly those steps that start a factory too early. */
  lemma OnlyEarlyStartBreaksOrder(s: State, a: Step)
    requires Inv(s) && DependenciesReturned(s) && Enabled(s, a) && Clean(Apply(s, a))
    ensures DependenciesReturned(Apply(s, a)) <==> Timely(s, a)
  {
    if a.StartFactory? {
      StartIsTopological(s, a.id);
      StartKeepsDependencies(s, a.id);
    } else {
      OthersKeepDependencies(s, a);
    }
  }

  lemma StartIsTopological(s: State, m: Id)
    requires Inv(s) && Ready(s.modules, m) && Clean(FactoryStarted(s, m))
    ensures Topological(s.declared, s.ran + [m]) && m in s.declared && m !in s.started
    ensures forall x :: x in s.ran <==> x in s.started
  {
    StartFactoryKeepsInv(s, m);
    RanIsStarted(s);
    hide Acyclic, HasCycle, Accounted, Queues, Debts, Bookkeeping, Waiting, Topological;
    NothingPending(s, m);
  }

  ghost predicate TimelyRun(s: State, steps: seq<Step>)
    requires IsRun(s, steps)
    decreases |steps|
  {
    steps == [] || (Timely(s, steps[0]) && TimelyRun(Apply(s, steps[0]), steps[1..]))
  }

  /** In every state of the run the dependencies of each started module have returned. */
  ghost predicate InOrderThroughout(s: State, steps: seq<Step>)
    requires IsRun(s, steps)
    decreases |steps|
  {
    DependenciesReturned(s) && (steps == [] || InOrderThroughout(Apply(s, steps[0]), steps[1..]))
  }

  lemma {:induction false} OrderOfRuns(s: State, steps: seq<Step>)
    requires Inv(s) && DependenciesReturned(s) && IsRun(s, steps) && Clean(After(s, steps))
    ensures InOrderThroughout(s, steps) <==> TimelyRun(s, steps)
    decreases |steps|
  {
    hide Inv, Enabled, Apply, Clean, DependenciesReturned, Timely;
    if steps != [] {
      var s' := Apply(s, steps[0]);
      StepKeepsInv(s, steps[0]);
      CleanAllAlong(s', steps[1..]);
      OnlyEarlyStartBreaksOrder(s, steps[0]);
      if DependenciesReturned(s') {
        OrderOfRuns(s', steps[1..]);
      } else {
        NotInOrder(s', steps[1..]);
      }
    }
  }

  lemma NotInOrder(s: State, steps: seq<Step>)
    requires IsRun(s, steps) && !DependenciesReturned(s)
    ensures !InOrderThroughout(s, steps)
  {
  }

  /** Without errors and cycles, dependencies have always returned before a factory is started if and only
      if no factory is started while that of a dependency is running. */
  lemma DependenciesReturnExactlyWhen(steps: seq<Step>)
    requires IsRun(InitialState, steps) && Clean(After(InitialState, steps))
    ensures InOrderThroughout(InitialState, steps) <==> TimelyRun(InitialState, steps)
  {
    InitialInv();
    assert DependenciesReturned(InitialState);
    hide Inv, IsRun, After, Clean, DependenciesReturned;
    OrderOfRuns(InitialState, steps);
  }

  /** The factory of module 3 is running. */
  ghost function InsideFactory(): State {
    InitialState.(modules := map[3 := Module(Some([]), 0, true, None, false)], declared := map[3 := []],
                  started := {3}, ran := [3], running := {3})
  }

  lemma ReachesInsideFactory() returns (steps: seq<Step>)
    ensures IsRun(InitialState, steps) && After(InitialState, steps) == InsideFactory()
  {
    hide IsRun, After, Reach, VisibleEdges;
    steps := [];
    EmptyRun(InitialState);
    RunSnoc(InitialState, steps, Define(3, [], false));
    steps := steps + [Define(3, [], false)];
    RunSnoc(InitialState, steps, EndLoop(3));
    steps := steps + [EndLoop(3)];
    RunSnoc(InitialState, steps, StartFactory(3));
    steps := steps + [StartFactory(3)];
    assert After(InitialState, steps).cursor == map[];
  }

  /** A factory that defines a module which needs the one being run: 4 is defined inside the factory of
      3, passes over 3, and its factory is started before that of 3 has returned. */
  lemma NestingBreaksOrder() returns (steps: seq<Step>)
    ensures IsRun(InitialState, steps)
    ensures var s := After(InitialState, steps);
      && Clean(s) && 4 in s.started && s.declared == map[3 := [], 4 := [Regular(3)]]
      && !HasReturned(s, 3)
  {
    hide IsRun, After, Reach, VisibleEdges;
    steps := ReachesInsideFactory();
    RunSnoc(InitialState, steps, Define(4, [Regular(3)], false));
    steps := steps + [Define(4, [Regular(3)], false)];
    RunSnoc(InitialState, steps, Skip(4));
    steps := steps + [Skip(4)];
    RunSnoc(InitialState, steps, EndLoop(4));
    steps := steps + [EndLoop(4)];
    RunSnoc(InitialState, steps, StartFactory(4));
    steps := steps + [StartFactory(4)];
  }
}
