/** Managers in use: from the constructor through any client behaviour to the promises made of a manager
    that has come to rest, and how often errorbacks are called. */
module LoaderSessions {
  import opened Common
  import opened Graph
  import opened LoaderState
  import opened LoaderSteps
  import opened LoaderSearch
  import opened LoaderDriven
  import opened LoaderHistory
  import opened Loader
  import opened LoaderTheorems
  import opened LoaderProgress
  import opened LoaderCycleFlag

  ghost predicate AllComplete(modules: map<Id, Module>) {
    forall m :: m in modules ==> modules[m].isComplete
  }

  lemma AtRest(s: State)
    requires Inv(s) && Idle(s) && Settled(s, {}, {})
    ensures s.known <= s.modules.Keys ==> (AllComplete(s.modules) <==> NobodyLeftBehind(s))
    ensures NoErrors(s) ==> NobodyLeftBehind(s)
    ensures NoErrors(s) && HasCycle(RegularEdges(s.declared)) ==> s.hasCycle
    ensures s.hasCycle ==> HasCycle(DeclaredEdges(s.declared))
  {
    hide Inv, Idle, Settled, ErrorFree, NobodyLeftBehind, HasCycle;
    if NoErrors(s) { NothingStopped(s); }
    if s.known <= s.modules.Keys { NoDeadlock(s); }
    if NoErrors(s) { WithoutErrorsNobodyIsLeftBehind(s); }
    CycleFlagBounds(s);
  }

  /** What a client that has nothing more to do can rely on: its definitions were all taken, every error is one
      that it threw or reported, each module started or asked for was handed to it, in the order of the starts
      and once each; and when it reported and threw nothing there is no error at all and, with everything asked
      for defined, every module has run. */
  ghost predicate Dependable(behaviour: seq<Act>, n: Moment) {
    var s := n.state;
    && (forall a :: a in behaviour && a.CallDefine? ==> a.id in s.modules)
    && (forall m :: m in s.modules && s.modules[m].error.Some? ==>
          Caused(behaviour, s.started, s.modules[m].error.value))
    && Factories(n.control) == s.ran && NoDuplicates(s.ran)
    && NoDuplicates(Loaders(n.control)) && (forall d :: d in s.known <==> LoaderFor(d) in n.control)
    && (Clean(behaviour) ==> NoErrors(s) && n.calls == [] && n.reported == [])
    && (Clean(behaviour) && s.known <= s.modules.Keys ==>
          forall m :: m in s.modules ==> m in s.ran && FactoryOf(m) in n.control)
  }

  lemma IsDependable(behaviour: seq<Act>, n: Moment)
    requires Inv(n.state) && Idle(n.state) && Settled(n.state, {}, {})
    requires Told(behaviour, n) && n.script == [] && n.due.Nothing?
    ensures Dependable(behaviour, n)
  {
    hide Inv, Idle, Settled, Clean, NobodyLeftBehind, HasCycle, NoErrors, AllComplete;
    AtRest(n.state);
    StartedOrFailed(n.state);
    AllTold(behaviour, n);
    if Clean(behaviour) { CleanMeansNoErrors(behaviour, n); }
    hide Told;
  }

  lemma AllTold(behaviour: seq<Act>, n: Moment)
    requires Told(behaviour, n) && n.script == [] && n.due.Nothing?
    ensures var s := n.state;
      && (forall a :: a in behaviour && a.CallDefine? ==> a.id in s.modules)
      && (forall m :: m in s.modules && s.modules[m].error.Some? ==>
            Caused(behaviour, s.started, s.modules[m].error.value))
      && Factories(n.control) == s.ran && (forall m :: m in s.ran <==> FactoryOf(m) in n.control)
      && NoDuplicates(Loaders(n.control)) && (forall d :: d in s.known <==> LoaderFor(d) in n.control)
  {
    hide Factories, Loaders, Caused, Introduced, Owed, Configured, NoDuplicates;
    assert Taken(behaviour, []) == behaviour;
    assert Given(n) == n.control + [] == n.control;
    forall m ensures m in Factories(n.control) <==> FactoryOf(m) in n.control { FactoriesMember(n.control, m); }
    forall d ensures d in Loaders(n.control) <==> LoaderFor(d) in n.control { FactoriesMember(n.control, d); }
  }

  lemma StartedOrFailed(s: State)
    requires Inv(s)
    ensures NoDuplicates(s.ran)
    ensures AllComplete(s.modules) && NoErrors(s) ==> forall m :: m in s.modules ==> m in s.ran
  {
    hide Queues, Debts, Bookkeeping, Waiting, Ordered, Acyclic, HasCycle, CursorOk, NoDuplicates;
    forall m | m in s.modules && s.modules[m].isComplete && s.modules[m].error.None? ensures m in s.ran {
      assert RecordOk(s.modules[m], s.declared[m], m in s.started, m in s.running);
    }
  }

  /** A whole session: client code calls into a new manager as `behaviour` says, its factories and script
      loaders calling back to any depth, until it has nothing more to do. Then nothing is in progress, and all
      of it is accounted for; with everything asked for defined, every module is complete exactly when nobody
      has been left behind, which without errors is always so; and the cycle flag lies between its bounds. */
  method Session(behaviour: seq<Act>) returns (manager: ModuleManager)
    ensures fresh(manager) && manager.script == []
    ensures Follows(Begin(behaviour), manager.Now())
    ensures Inv(manager.S()) && Idle(manager.S()) && Settled(manager.S(), {}, {})
    ensures Dependable(behaviour, manager.Now())
    ensures manager.knownModules <= manager.modules.Keys ==>
      (AllComplete(manager.modules) <==> NobodyLeftBehind(manager.S()))
    ensures NoErrors(manager.S()) ==> NobodyLeftBehind(manager.S())
    ensures NoErrors(manager.S()) && HasCycle(RegularEdges(manager.declared)) ==> manager.hasDependencyCycle
    ensures manager.hasDependencyCycle ==> HasCycle(DeclaredEdges(manager.declared))
  {
    hide Inv, Settled, Follows, NobodyLeftBehind, HasCycle, NoErrors, AllComplete, Told, Dependable;
    manager := new ModuleManager(behaviour);
    FollowsReflexive(Begin(behaviour));
    while |manager.script| > 0
      invariant fresh(manager)
      invariant Inv(manager.S()) && Idle(manager.S()) && Settled(manager.S(), {}, {})
      invariant Follows(Begin(behaviour), manager.Now())
      decreases |manager.script|
    {
      ghost var n := manager.Now();
      var _ := manager.ClientCode(None);
      FollowsTransitive(Begin(behaviour), n, manager.Now());
    }
    AtRest(manager.S());
    InitialInv();
    BeginTold(behaviour);
    FollowsTold(behaviour, Begin(behaviour), manager.Now());
    IsDependable(behaviour, manager.Now());
  }

  // ------------------------------------------------------------------ how often an errorback is called

  function CallsTo(calls: seq<(Id, Failure)>, m: Id): nat {
    if calls == [] then 0
    else CallsTo(calls[..|calls| - 1], m) + (if calls[|calls| - 1].0 == m then 1 else 0)
  }

  lemma {:induction false} CallsAppend(a: seq<(Id, Failure)>, b: seq<(Id, Failure)>, m: Id)
    ensures CallsTo(a + b, m) == CallsTo(a, m) + CallsTo(b, m)
  {
    if b == [] {
      assert a + b == a;
    } else {
      CallsAppend(a, b[..|b| - 1], m);
      assert (a + b)[..|a + b| - 1] == a + b[..|b| - 1];
    }
  }

  function Once(affected: bool, modules: map<Id, Module>, m: Id): nat {
    if affected && m in modules && modules[m].hasErrorback then 1 else 0
  }

  /** One call for each of two errors that affects the module. */
  ghost function OncePerError(s: State, first: Id, second: Id, m: Id): nat {
    Once(Affected(s.inverse, first, m), s.modules, m) + Once(Affected(s.inverse, second, m), s.modules, m)
  }

  lemma {:induction false} NotifiedOnce(visited: seq<Id>, modules: map<Id, Module>, err: Failure, m: Id)
    requires NoDuplicates(visited)
    ensures CallsTo(Notified(visited, modules, err), m) == Once(m in visited, modules, m)
  {
    if visited != [] {
      var init, last := visited[..|visited| - 1], visited[|visited| - 1];
      NotifiedOnce(init, modules, err, m);
      var n := Notified(init, modules, err);
      assert (n + [(last, err)])[..|n|] == n;
      assert m in visited <==> m in init || m == last;
      assert last !in init;
    }
  }

  lemma SameErrorbacks(s: State, failed: Id, reason: nat, m: Id)
    ensures Once(true, LoadFailed(s, failed, reason).modules, m) == Once(true, s.modules, m)
  {
    hide Affected;
  }

  /** Two load errors, reported one after the other: an errorback is called once for each that affects its
      module, so twice exactly when the module waits, directly or not, for both (or is one of them). */
  method TwoLoadErrors(manager: ModuleManager, first: Id, reason1: nat, second: Id, reason2: nat)
    requires Inv(manager.S()) && Settled(manager.S(), {}, {})
    requires first in manager.knownModules && second in manager.knownModules
    modifies manager
    ensures forall m :: CallsTo(manager.errorbackCalls, m) == old(CallsTo(manager.errorbackCalls, m)) +
                                                              OncePerError(old(manager.S()), first, second, m)
  {
    hide Inv, Settled, Follows, Affected, LoadFailed, Notified, NoDuplicates, FailedWith, ToldOf, AnyErrorback,
         BreadthFirst;
    ghost var s, calls := manager.S(), manager.errorbackCalls;
    ghost var visited1, _ := manager.OnLoadError(first, reason1);
    ghost var s1, calls1 := manager.S(), manager.errorbackCalls;
    SameInverse(s, first, reason1);
    ghost var visited2, _ := manager.OnLoadError(second, reason2);
    forall m ensures CallsTo(manager.errorbackCalls, m) == CallsTo(calls, m) + OncePerError(s, first, second, m) {
      var err1, err2 := LoadFailure(s.inverse, first, reason1), LoadFailure(s.inverse, second, reason2);
      CallsAppend(calls, Notified(visited1, s.modules, err1), m);
      NotifiedOnce(visited1, s.modules, err1, m);
      CallsAppend(calls1, Notified(visited2, s1.modules, err2), m);
      NotifiedOnce(visited2, s1.modules, err2, m);
      SameErrorbacks(s, first, reason1, m);
    }
  }

  lemma SameInverse(s: State, failed: Id, reason: nat)
    ensures LoadFailed(s, failed, reason).inverse == s.inverse
  {
    hide Affected;
  }

  /** Such a module: 3 has an errorback and waits for 4 and for 5, which have been asked for. */
  lemma WaitsForTwo() returns (steps: seq<Step>)
    ensures IsRun(InitialState, steps)
    ensures var s := After(InitialState, steps);
      && Idle(s) && Settled(s, {}, {}) && 4 in s.known && 5 in s.known
      && OncePerError(s, 4, 5, 3) == 2
  {
    hide IsRun, After, Reach, VisibleEdges, HasCycle;
    steps := [];
    EmptyRun(InitialState);
    RunSnoc(InitialState, steps, Define(3, [Regular(4), Regular(5)], true));
    steps := steps + [Define(3, [Regular(4), Regular(5)], true)];
    UndefinedLeadsNowhere(After(InitialState, steps).modules, 4, 3);
    RunSnoc(InitialState, steps, Record(3));
    steps := steps + [Record(3)];
    RunSnoc(InitialState, steps, Ask(4));
    steps := steps + [Ask(4)];
    UndefinedLeadsNowhere(After(InitialState, steps).modules, 5, 3);
    RunSnoc(InitialState, steps, Record(3));
    steps := steps + [Record(3)];
    RunSnoc(InitialState, steps, Ask(5));
    steps := steps + [Ask(5)];
    RunSnoc(InitialState, steps, EndLoop(3));
    steps := steps + [EndLoop(3)];
    var s := After(InitialState, steps);
    assert s.cursor == map[];
    assert 3 in WaitersOf(s.inverse, 4) && 3 in WaitersOf(s.inverse, 5);
    EdgeReach(WaitEdges(s.inverse), 3, 4);
    EdgeReach(WaitEdges(s.inverse), 3, 5);
  }

  /** The calls of m's errorback that a step makes; `GiveUp` and `OnLoadError` make just these. */
  ghost function CallsBy(s: State, a: Step, m: Id): nat
    requires Enabled(s, a)
  {
    match a
    case DependencyFailed(x) => Once(x == m, s.modules, m)
    case LoadFails(failed, _) => Once(Affected(s.inverse, failed, m), s.modules, m)
    case _ => 0
  }

  ghost function CallsIn(s: State, steps: seq<Step>, m: Id): nat
    requires IsRun(s, steps)
    decreases |steps|
  {
    if steps == [] then 0 else CallsBy(s, steps[0], m) + CallsIn(Apply(s, steps[0]), steps[1..], m)
  }

  /** The load errors of a run that reach m while it has an errorback. */
  ghost function LoadErrorsReaching(s: State, steps: seq<Step>, m: Id): nat
    requires IsRun(s, steps)
    decreases |steps|
  {
    if steps == [] then 0
    else
      (if steps[0].LoadFails? then CallsBy(s, steps[0], m) else 0)
      + LoadErrorsReaching(Apply(s, steps[0]), steps[1..], m)
  }

  /** Whether m, having an errorback, gives up in the run. */
  ghost predicate GivesUp(s: State, steps: seq<Step>, m: Id)
    requires IsRun(s, steps)
    decreases |steps|
  {
    steps != [] &&
    ((steps[0] == DependencyFailed(m) && CallsBy(s, steps[0], m) == 1) || GivesUp(Apply(s, steps[0]), steps[1..], m))
  }

  ghost predicate OutOfLoop(s: State, m: Id) {
    m in s.modules && m !in s.cursor
  }

  lemma StaysOutOfLoop(s: State, a: Step, m: Id)
    requires OutOfLoop(s, m) && Enabled(s, a)
    ensures OutOfLoop(Apply(s, a), m) && a != DependencyFailed(m)
  {
    hide Reach, VisibleEdges, Affected, WaitersOf, Returned, LoadFailure;
  }

  /** A module whose dependency loop is over does not give up any more. */
  lemma {:induction false} GivesUpNoMore(s: State, steps: seq<Step>, m: Id)
    requires IsRun(s, steps) && OutOfLoop(s, m)
    ensures !GivesUp(s, steps, m)
    decreases |steps|
  {
    hide Enabled, Apply, OutOfLoop, CallsBy;
    if steps != [] {
      StaysOutOfLoop(s, steps[0], m);
      GivesUpNoMore(Apply(s, steps[0]), steps[1..], m);
    }
  }

  lemma GaveUpIsOutOfLoop(s: State, m: Id)
    requires Enabled(s, DependencyFailed(m))
    ensures OutOfLoop(GivenUp(s, m), m)
  {
  }

  lemma OthersCallNobody(s: State, a: Step, m: Id)
    requires Enabled(s, a) && !a.LoadFails? && a != DependencyFailed(m)
    ensures CallsBy(s, a, m) == 0
  {
  }

  lemma CallsAtMostOnce(s: State, a: Step, m: Id)
    requires Enabled(s, a)
    ensures CallsBy(s, a, m) <= 1
  {
    hide Affected;
  }

  /** Over a whole run, from any state, an errorback is called once for each load error that reaches its
      module, and once more if the module gives up, which it does at most once. */
  lemma {:induction false} ErrorbackCalls(s: State, steps: seq<Step>, m: Id)
    requires IsRun(s, steps)
    ensures CallsIn(s, steps, m) == LoadErrorsReaching(s, steps, m) + if GivesUp(s, steps, m) then 1 else 0
    decreases |steps|
  {
    if steps != [] {
      if steps[0] == DependencyFailed(m) {
        GaveUpIsOutOfLoop(s, m);
        GivesUpNoMore(Apply(s, steps[0]), steps[1..], m);
      } else if !steps[0].LoadFails? {
        OthersCallNobody(s, steps[0], m);
      }
      CallsAtMostOnce(s, steps[0], m);
      hide Enabled, Apply, CallsBy, OutOfLoop;
      ErrorbackCalls(Apply(s, steps[0]), steps[1..], m);
    }
  }

  /** And so many calls are made in a story: those of its steps. */
  lemma {:induction false} StoryCalls(n: Moment, story: seq<Event>, m: Id)
    requires IsStory(n, story)
    ensures IsRun(n.state, Steps(story))
    ensures CallsTo(End(n, story).calls, m) == CallsTo(n.calls, m) + CallsIn(n.state, Steps(story), m)
    decreases |story|
  {
    StoryIsRun(n, story);
    if story != [] {
      EventCalls(n, story[0], m);
      EventIsStep(n, story[0]);
      hide Possible, Happens, Enabled, Apply, CallsBy, CallsTo;
      StoryCalls(Happens(n, story[0]), story[1..], m);
      FirstStep(story);
    }
  }

  lemma EventCalls(n: Moment, e: Event, m: Id)
    requires Possible(n, e)
    ensures CallsTo(Happens(n, e).calls, m) ==
      CallsTo(n.calls, m) + if e.Do? then CallsBy(n.state, e.step, m) else 0
  {
    hide CallsTo, Affected, Apply, Notified, NoDuplicates, Reach, VisibleEdges;
    if e.Do? {
      var s := n.state;
      CallsAppend(n.calls, CallsMade(s, e.step, e.order), m);
      NoCalls(m);
      match e.step {
        case DependencyFailed(x) => NotifiedOnce([x], s.modules, s.modules[Next(s, x)].error.value, m);
        case LoadFails(x, reason) => NotifiedOnce(e.order, s.modules, LoadFailure(s.inverse, x, reason), m);
        case _ =>
      }
    }
  }

  lemma NoCalls(m: Id)
    ensures CallsTo([], m) == 0 && forall x: Id :: NoDuplicates([x])
  {
  }

  /** Over a whole session, by any client: one call of m's errorback for each load error that reaches m while it
      has one, and one more if m gives up. */
  lemma SessionCalls(behaviour: seq<Act>, n: Moment, m: Id)
    requires Follows(Begin(behaviour), n)
    ensures exists steps :: (IsRun(InitialState, steps) && After(InitialState, steps) == n.state &&
              CallsTo(n.calls, m) == LoadErrorsReaching(InitialState, steps, m) +
                                     if GivesUp(InitialState, steps, m) then 1 else 0)
  {
    hide IsStory, End, IsRun, After, CallsTo, CallsIn, GivesUp, LoadErrorsReaching;
    var story :| Leads(Begin(behaviour), story, n);
    StoryIsRun(Begin(behaviour), story);
    StoryCalls(Begin(behaviour), story, m);
    ErrorbackCalls(InitialState, Steps(story), m);
    NoCalls(m);
  }
}
