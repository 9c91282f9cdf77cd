/** The module manager as a mutable object. Factories and script loaders are client code that may
    call back into the manager before they return; what they do is read from `script`, so the
    contracts hold for every behaviour of the client, however deeply its calls nest. An exception that a
    factory throws and nobody catches unwinds the methods through their results. */
module Loader {
  import opened Common
  import opened Graph
  import opened LoaderState
  import opened LoaderSteps
  import opened LoaderDriven
  import opened LoaderHistory
  import opened LoaderSearch

  /** How client code ends: it returns, throws, or lets an exception of a call it made pass. */
  datatype Outcome = Finished | Threw(error: nat) | Passed(error: nat)

  function Thrown(outcome: Outcome): Option<nat> {
    match outcome
    case Finished => None
    case Threw(e) => Some(e)
    case Passed(e) => Some(e)
  }

  /** What becomes of one entry: it is dealt with, the module gives up, or an exception passes through. */
  datatype EntryOutcome = DealtWith | GaveUp | Interrupted(error: nat)

  function Incomplete(modules: map<Id, Module>): set<Id> {
    set m | m in modules && !modules[m].isComplete
  }

  lemma LessSettled(s: State, m: Id)
    requires Settled(s, {}, {})
    ensures Settled(s, {m}, {})
  {
  }

  lemma AlreadyAsked(s: State, d: Id)
    requires Settled(s, {}, {d}) && (d in s.modules || d in s.known)
    ensures Settled(s, {}, {})
  {
  }

  lemma KeepsErrorback(n: Moment, n': Moment, m: Id)
    requires Follows(n, n') && m in n.state.modules
    ensures m in n'.state.modules
    ensures n'.state.modules[m].dependencies.Some? ==>
      n'.state.modules[m].hasErrorback == n.state.modules[m].hasErrorback
  {
    hide *;
    FollowsExtends(n, n');
    KeptErrorback(n.state, n'.state, m);
  }

  lemma FollowsExtends(n: Moment, n': Moment)
    requires Follows(n, n')
    ensures Extends(n.state, n'.state)
  {
  }

  lemma KeptErrorback(s: State, s': State, m: Id)
    requires Extends(s, s') && m in s.modules
    ensures m in s'.modules && Outlives(s.modules[m], s'.modules[m])
    ensures s'.modules[m].dependencies.Some? ==> s'.modules[m].hasErrorback == s.modules[m].hasErrorback
  {
  }

  lemma KeepsDeclared(n: Moment, n': Moment, m: Id)
    requires Inv(n.state) && Inv(n'.state) && Follows(n, n') && (m in n.state.declared || m in n.state.modules)
    ensures var s, s' := n.state, n'.state;
      m in s.declared && m in s'.declared && s'.declared[m] == s.declared[m] && m in s'.modules
  {
    hide Queues, Debts, Bookkeeping, Waiting, Started, RunsOnce, Ordered, Acyclic, CursorOk;
  }

  lemma AskedStaysAsked(n: Moment, n': Moment, d: Id)
    requires Follows(n, n') && d in n.state.known
    ensures d in n'.state.known
  {
  }

  lemma OwedIsDefined(s: State, x: Id)
    requires Inv(s) && x in s.owed
    ensures x in s.modules
  {
    hide Queues, Bookkeeping, Waiting, Started, RunsOnce, Ordered, Acyclic, CursorOk;
  }

  /** A factory that was being run still is, and its exceptions are caught or not as they were. */
  lemma StillRunning(n: Moment, n': Moment, m: Id)
    requires Inv(n.state) && Inv(n'.state) && Follows(n, n') && Live(n'.state) == Live(n.state)
    requires m in Live(n.state).factories && m in n.state.started
    ensures Returns(n'.state, m) && (m in n'.state.guarded <==> m in n.state.guarded)
  {
    assert m in Live(n'.state).factories;
    hide Follows, Extends, Queues, Debts, Bookkeeping, Waiting, RunsOnce, Ordered, Acyclic, CursorOk, HasCycle;
    FollowsExtends(n, n');
    GuardSettled(n.state, n'.state, m);
  }

  lemma GuardSettled(s: State, s': State, m: Id)
    requires Extends(s, s') && m in s.started
    ensures m in s'.guarded <==> m in s.guarded
  {
  }

  /** What handling one entry comes to: it is passed over, the module is given up, or the entry is dropped as
      cyclic, and nothing else happens; or the module is first recorded as waiting, and in the end the entry
      has been asked for. */
  ghost predicate Resolved(n: Moment, m: Id, n': Moment)
    requires InLoop(n.state, m) && n.due.Nothing?
  {
    var s, d := n.state, Next(n.state, m);
    if Enabled(s, Skip(m)) then n' == n.(state := Ticked(s, m))
    else if Enabled(s, DependencyFailed(m)) then
      var err := s.modules[d].error.value;
      n' == n.(state := GivenUp(s, m), calls := n.calls + if s.modules[m].hasErrorback then [(m, err)] else [])
    else if Enabled(s, BreakCycle(m)) then n' == n.(state := Ticked(s, m).(hasCycle := true))
    else Follows(n.(state := Recorded(s, m)), n') && (d in n'.state.modules || d in n'.state.known)
  }

  /** The record after its factory has returned or thrown, given the waiters it had. */
  predicate Closed(r: Module, m: Id, waiters: seq<Id>, thrown: Option<nat>, r': Module) {
    && r'.error == (if thrown.Some? then Some(Failure(Factory, m, waiters, thrown.value)) else r.error)
    && r'.dependencies.None? && !r'.hasErrorback
    && r'.unresolvedDependenciesCount == r.unresolvedDependenciesCount && r'.isComplete == r.isComplete
  }

  /** A load error in the records: exactly the modules visited have it, and the failed one has a record. */
  ghost predicate FailedWith(before: map<Id, Module>, failed: Id, visited: seq<Id>, err: Failure,
                             after: map<Id, Module>) {
    && after.Keys == before.Keys + {failed}
    && (forall m :: m in before ==>
          after[m] == if m in visited then before[m].(isComplete := true, error := Some(err)) else before[m])
    && (failed !in before ==> after[failed] == Module(Some([]), 0, true, Some(err), false))
  }

  /** The errorbacks of the modules visited have been called with it, once each, and no others. */
  ghost predicate ToldOf(before: map<Id, Module>, visited: seq<Id>, err: Failure, calls0: seq<(Id, Failure)>,
                         calls: seq<(Id, Failure)>) {
    && calls0 <= calls
    && (forall i, j :: |calls0| <= i < j < |calls| ==> calls[i] != calls[j])
    && (forall c :: c in calls[|calls0|..] <==>
          c.1 == err && c.0 in visited && c.0 in before && before[c.0].hasErrorback)
  }

  predicate AnyErrorback(visited: seq<Id>, modules: map<Id, Module>) {
    exists m :: m in visited && m in modules && modules[m].hasErrorback
  }

  lemma {:induction false} NotifiedMeans(visited: seq<Id>, modules: map<Id, Module>, err: Failure)
    requires NoDuplicates(visited)
    ensures var told := Notified(visited, modules, err);
      && (forall i, j :: 0 <= i < j < |told| ==> told[i] != told[j])
      && (forall c :: c in told <==> c.1 == err && c.0 in visited && c.0 in modules && modules[c.0].hasErrorback)
      && (told == [] <==> !AnyErrorback(visited, modules))
  {
    if visited != [] {
      var init, last := visited[..|visited| - 1], visited[|visited| - 1];
      NotifiedMeans(init, modules, err);
      assert forall x :: x in visited <==> x in init || x == last;
      assert last !in init;
      var told := Notified(visited, modules, err);
      forall m | m in visited && m in modules && modules[m].hasErrorback ensures told != [] { assert (m, err) in told; }
      assert told != [] ==> told[0] in told;
    }
  }

  lemma FailedMeans(s: State, failed: Id, reason: nat, visited: seq<Id>)
    requires NoDuplicates(visited) && forall x :: x in visited <==> Affected(s.inverse, failed, x)
    ensures var err := Failure(Loading, failed, WaitersOf(s.inverse, failed), reason);
      && FailedWith(s.modules, failed, visited, err, LoadFailed(s, failed, reason).modules)
      && LoadFailure(s.inverse, failed, reason) == err
      && (forall calls: seq<(Id, Failure)> ::
            ToldOf(s.modules, visited, err, calls, calls + Notified(visited, s.modules, err)))
      && Unclaimed(visited, s.modules, err) == if AnyErrorback(visited, s.modules) then [] else [err]
  {
    hide Affected, WaitersOf, NoDuplicates;
    var err := Failure(Loading, failed, WaitersOf(s.inverse, failed), reason);
    NotifiedMeans(visited, s.modules, err);
    var told := Notified(visited, s.modules, err);
    forall calls: seq<(Id, Failure)> ensures ToldOf(s.modules, visited, err, calls, calls + told) {
      assert (calls + told)[|calls|..] == told;
    }
    assert failed in visited by { AffectsItself(s.inverse, failed); }
  }

  /** The waiters are counted down one after another: at[k] is the moment before the k-th decrement. */
  ghost predicate InTurn(at: seq<Moment>, waiters: seq<Id>) {
    && 0 < |at| <= |waiters| + 1
    && forall k :: 0 <= k < |at| - 1 ==> Counted(at[k], waiters[k], at[k + 1])
  }

  ghost predicate Counted(n: Moment, x: Id, n': Moment) {
    x in n.state.modules && Follows(n.(state := CountedDown(n.state, x)), n')
  }

  lemma FirstInTurn(n: Moment, waiters: seq<Id>)
    ensures InTurn([n], waiters)
  {
  }

  lemma NextInTurn(at: seq<Moment>, waiters: seq<Id>, n: Moment)
    requires InTurn(at, waiters) && 0 < |at| <= |waiters| && Counted(at[|at| - 1], waiters[|at| - 1], n)
    ensures InTurn(at + [n], waiters)
  {
    hide Counted;
  }

  lemma GivenControl(n: Moment, n': Moment, giver: Giver)
    requires Follows(n, n') && n.due == Hand(giver) && n'.due.Nothing?
    ensures n.control + [giver] <= n'.control && n.state.ran <= n'.state.ran
  {
  }

  class ModuleManager {
    var modules: map<Id, Module>
    var inverseDependencies: map<Id, seq<Id>>
    var hasDependencyCycle: bool
    var knownModules: set<Id>
    /** The one field of the configuration that matters here. */
    var catchError: bool
    /** Errorback calls made and errors handed to the configured handler. */
    var errorbackCalls: seq<(Id, Failure)>
    var reportedErrors: seq<Failure>
    /** The cycles shown on the console. */
    var cycleWarnings: seq<seq<Id>>
    /** What client code will do, the client code that was given control, and what was thrown. */
    var script: seq<Act>
    var control: seq<Giver>
    ghost var raised: set<nat>

    ghost var declared: Lists
    ghost var cursor: map<Id, nat>
    ghost var owed: multiset<Id>
    ghost var started: set<Id>
    ghost var ran: seq<Id>
    ghost var running: set<Id>
    ghost var guarded: set<Id>
    ghost var escaped: set<Id>
    ghost var stopped: set<Id>
    ghost var lost: multiset<Id>

    ghost function S(): State
      reads this
    {
      State(modules, inverseDependencies, hasDependencyCycle, knownModules, catchError,
            declared, cursor, owed, started, ran, running, guarded, escaped, stopped, lost)
    }

    ghost function Now(): Moment
      reads this
    {
      Moment(S(), script, Nothing, control, raised, errorbackCalls, reportedErrors)
    }

    constructor (behaviour: seq<Act>)
      ensures Now() == Begin(behaviour)
      ensures Inv(S()) && Settled(S(), {}, {}) && Idle(S())
    {
      modules, inverseDependencies, hasDependencyCycle, knownModules, catchError := map[], map[], false, {}, false;
      errorbackCalls, reportedErrors, cycleWarnings := [], [], [];
      script, control, raised := behaviour, [], {};
      declared, cursor, owed, started, ran, running := map[], map[], multiset{}, {}, [], {};
      guarded, escaped, stopped, lost := {}, {}, {}, multiset{};
      new;
      InitialInv();
    }

    /** Client code: a factory or a script loader, if it is given control by the manager. An exception that
        leaves one of its calls passes on through it, unless the call is guarded. */
    method ClientCode(giver: Option<Giver>) returns (outcome: Outcome)
      requires Inv(S()) && Settled(S(), {}, {})
      modifies this
      ensures Inv(S()) && Settled(S(), {}, {}) && Live(S()) == old(Live(S()))
      ensures Follows(old(Now()).(due := if giver.Some? then Hand(giver.value) else Nothing), Now())
      ensures if |old(script)| > 0 then |script| < |old(script)| else script == old(script) && S() == old(S())
      ensures outcome.Passed? ==> escaped != {}
      ensures outcome != Finished ==> outcome.error in raised
      decreases |script|, 0, Incomplete(modules), 0
    {
      hide Inv, Settled, Follows, Live, Incomplete, DueFor;
      outcome := Finished;
      ghost var s0 := S();
      ghost var n0 := Now().(due := if giver.Some? then Hand(giver.value) else Nothing);
      FollowsReflexive(n0);
      if giver.Some? {
        control := control + [giver.value];
        HandsOver(n0, giver.value);
      }
      while |script| > 0
        invariant Inv(S()) && Settled(S(), {}, {}) && Follows(n0, Now()) && Live(S()) == Live(s0)
        invariant |script| < |old(script)| || (script == old(script) && S() == s0)
        decreases |script|
      {
        ghost var n1 := Now();
        var act := NextAct();
        ghost var n := Now().(due := DueFor(n1.state, act));
        FollowsTransitive(n0, n1, n);
        if act.Return? { return if act.thrown.Some? then Threw(act.thrown.value) else Finished; }
        var thrown := Perform(act);
        FollowsTransitive(n0, n, Now());
        if thrown.Some? { return Passed(thrown.value); }
      }
    }

    method NextAct() returns (act: Act)
      requires |script| > 0
      modifies this`script, this`raised
      ensures act == old(script)[0] && script == old(script)[1..]
      ensures raised == old(raised) + if act.Return? && act.thrown.Some? then {act.thrown.value} else {}
      ensures Follows(old(Now()), Now().(due := DueFor(S(), act)))
      ensures act.Return? ==> DueFor(S(), act) == Nothing
    {
      hide Follows;
      Takes(Now());
      act := script[0];
      script := script[1..];
      raised := raised + RaisedBy(act);
    }

    /** One call of client code into the manager. */
    method Perform(act: Act) returns (thrown: Option<nat>)
      requires Inv(S()) && Settled(S(), {}, {}) && !act.Return?
      modifies this
      ensures Inv(S()) && Settled(S(), {}, {}) && Live(S()) == old(Live(S()))
      ensures Follows(old(Now()).(due := DueFor(old(S()), act)), Now())
      ensures |script| <= |old(script)|
      ensures thrown.Some? ==> escaped != {} && thrown.value in raised
      decreases |script|, 1, Incomplete(modules), 1
    {
      hide Inv, Settled, Follows, Live, Incomplete;
      thrown := None;
      match act {
        case CallDefine(id, dependencies, hasErrorback, guarded) =>
          thrown := DefineModule(id, dependencies, hasErrorback);
          if guarded { thrown := None; }
        case ReportLoadError(id, reason) => Report(id, reason);
        case CallConfigure(c) => Configuration(c);
        case Return(_) =>
      }
    }

    /** The script loader reports an error only for a module it was asked for. */
    method Report(id: Id, reason: nat)
      requires Inv(S()) && Settled(S(), {}, {})
      modifies this`modules, this`declared, this`errorbackCalls, this`reportedErrors
      ensures Inv(S()) && Settled(S(), {}, {}) && Live(S()) == old(Live(S()))
      ensures Follows(old(Now()).(due := if id in knownModules then Must(LoadFails(id, reason)) else Nothing), Now())
    {
      hide Inv, Settled, Follows, Live, LoadFailed, FramesAfter;
      if id in knownModules {
        var _, _ := OnLoadError(id, reason);
      } else {
        FollowsReflexive(Now());
      }
    }

    /** `configure`, as far as it matters here. */
    method Configuration(c: bool)
      requires Inv(S()) && Settled(S(), {}, {})
      modifies this`catchError
      ensures Inv(S()) && Settled(S(), {}, {}) && Live(S()) == old(Live(S()))
      ensures Follows(old(Now()).(due := Must(Configure(c))), Now())
      ensures catchError == c
    {
      hide Inv, Settled, Follows, Live, Reach, VisibleEdges, LoadFailed;
      ConfigureAdvances(Now().(due := Must(Configure(c))), c);
      catchError := c;
    }

    /** Creates a module and resolves it at once; a second definition is ignored. */
    method DefineModule(id: Id, dependencies: seq<Dependency>, hasErrorback: bool) returns (thrown: Option<nat>)
      requires Inv(S()) && Settled(S(), {}, {})
      modifies this
      ensures Inv(S()) && Settled(S(), {}, {}) && Live(S()) == old(Live(S()))
      ensures Follows(old(Now()).(due := DueFor(old(S()), CallDefine(id, dependencies, hasErrorback, false))), Now())
      ensures |script| <= |old(script)|
      ensures id in old(modules) ==> Now() == old(Now()) && thrown == None
      ensures id !in old(modules) ==>
        && id in modules && id in declared && declared[id] == dependencies
        && (modules[id].dependencies.Some? ==> modules[id].hasErrorback == hasErrorback)
      ensures thrown.Some? ==> escaped != {} && thrown.value in raised
      decreases |script|, 1, Incomplete(modules), 0
    {
      hide Inv, Settled, Follows, Live, Incomplete, Reach, VisibleEdges, LoadFailed, MarkFailed, WaitersOf, Notified,
           Defined;
      ghost var s0 := S();
      if id in modules {
        FollowsReflexive(Now());
        return None;
      }
      ghost var n0 := Now().(due := Must(Define(id, dependencies, hasErrorback)));
      UndefinedIsNotStopped(s0, id);
      DefineAdvances(n0, id, dependencies, hasErrorback);
      NotLive(s0, id);
      AddModule(id, dependencies, hasErrorback);
      ghost var n := Now();
      thrown := Resolve(id);
      FollowsTransitive(n0, n, Now());
      KeepsDeclared(n, Now(), id);
      KeepsErrorback(n, Now(), id);
      RemoveAdded(Live(s0).loops, id, 0);
    }

    method AddModule(id: Id, dependencies: seq<Dependency>, hasErrorback: bool)
      modifies this`modules, this`declared, this`cursor
      ensures S() == Defined(old(S()), id, dependencies, hasErrorback)
      ensures modules == old(modules)[id := Module(Some(dependencies), |dependencies|, false, None, hasErrorback)]
      ensures declared == old(declared)[id := dependencies] && cursor == old(cursor)[id := 0]
    {
      modules := modules[id := Module(Some(dependencies), |dependencies|, false, None, hasErrorback)];
      declared, cursor := declared[id := dependencies], cursor[id := 0];
    }

    /** Examines the dependencies of a module that was just defined. */
    method Resolve(m: Id) returns (thrown: Option<nat>)
      requires Inv(S()) && Settled(S(), {m}, {})
      requires m in modules && m in declared && modules[m].dependencies == Some(declared[m])
      requires m in cursor && m !in stopped && cursor[m] == 0
      modifies this
      ensures Inv(S()) && Settled(S(), {}, {}) && Follows(old(Now()), Now())
      ensures Live(S()) == old(Live(S()).(loops := Live(S()).loops - {m}))
      ensures |script| <= |old(script)|
      ensures thrown.Some? ==> escaped != {} && thrown.value in raised
      decreases |script|, 0, Incomplete(modules), 5
    {
      hide Inv, Settled, Follows, Live, Incomplete, Reach, VisibleEdges, LoadFailed, MarkFailed, WaitersOf, Notified,
           FramesAfter;
      ghost var n0 := Now();
      thrown := None;
      var outcome := ResolveEntries(m);
      KeepsDeclared(n0, Now(), m);
      RemoveUpdated(Live(n0.state).loops, m, |declared[m]|);
      match outcome {
        case GaveUp =>
        case Interrupted(error) =>
          thrown := Some(error);
        case DealtWith =>
          EndResolving(n0, m, |declared[m]|);
          ghost var n1 := Now();
          if modules[m].unresolvedDependenciesCount == 0 {
            thrown := OnModuleComplete(m);
            FollowsTransitive(n0, n1, Now());
          } else {
            NotReady(n1.state, m);
          }
      }
    }

    /** The dependency loop. */
    method ResolveEntries(m: Id) returns (outcome: EntryOutcome)
      requires Inv(S()) && Settled(S(), {m}, {})
      requires m in modules && m in declared && modules[m].dependencies == Some(declared[m])
      requires m in cursor && m !in stopped && cursor[m] == 0
      modifies this
      ensures Inv(S()) && Follows(old(Now()), Now()) && Settled(S(), if outcome.DealtWith? then {m} else {}, {})
      ensures outcome.DealtWith? ==> Live(S()) == old(Live(S()).(loops := Live(S()).loops[m := |declared[m]|]))
      ensures !outcome.DealtWith? ==> Live(S()) == old(Live(S()).(loops := Live(S()).loops - {m}))
      ensures |script| <= |old(script)|
      ensures |script| == |old(script)| ==> Incomplete(modules) <= old(Incomplete(modules))
      ensures outcome.Interrupted? ==> escaped != {} && outcome.error in raised
      decreases |script|, 0, Incomplete(modules), 4
    {
      hide Inv, Settled, Follows, Live, Incomplete, Reach, VisibleEdges, LoadFailed, MarkFailed, WaitersOf, Notified,
           FramesAfter, Resolved, Complete;
      ghost var n0 := Now();
      ghost var f := Live(n0.state);
      FollowsReflexive(n0);
      StartsAt(n0.state, m);
      var dependencies := modules[m].dependencies.value;
      var i := 0;
      while i < |dependencies|
        invariant 0 <= i <= |dependencies|
        invariant Inv(S()) && Settled(S(), {m}, {}) && Follows(n0, Now())
        invariant Live(S()) == f.(loops := f.loops[m := i])
        invariant m in modules && m in declared && declared[m] == dependencies
        invariant |script| <= |old(script)|
        invariant |script| == |old(script)| ==> Incomplete(modules) <= Incomplete(n0.state.modules)
        decreases |dependencies| - i
      {
        ghost var n := Now();
        AtEntry(n.state, m, i);
        outcome := ResolveEntry(m, dependencies[i]);
        FollowsTransitive(n0, n, Now());
        KeepsDeclared(n, Now(), m);
        RemoveUpdated(f.loops, m, i);
        RemoveUpdated(f.loops, m, i + 1);
        UpdateTwice(f.loops, m, i, i + 1);
        if outcome.GaveUp? { return; }
        if outcome.Interrupted? {
          StopResolving(n0, m, i + 1);
          return;
        }
        i := i + 1;
      }
      outcome := DealtWith;
    }

    /** The dependency loop has come to its end. */
    ghost method EndResolving(n0: Moment, m: Id, i: nat)
      requires Inv(S()) && Settled(S(), {m}, {}) && Follows(n0, Now())
      requires m in declared && i == |declared[m]| && m in Live(S()).loops && Live(S()).loops[m] == i
      modifies this`cursor
      ensures Inv(S()) && Settled(S(), {m}, {}) && Follows(n0, Now())
      ensures Live(S()) == old(Live(S()).(loops := Live(S()).loops - {m}))
    {
      hide Inv, Settled, Follows, Reach, VisibleEdges, LoadFailed, CallsMade, ErrorsHandled, Happens;
      ghost var n := Now();
      QuietStep(n, EndLoop(m));
      Advance(n0, n, EndLoop(m), [], {m}, {});
      cursor := cursor - {m};
    }

    /** An exception passes through the dependency loop. */
    ghost method StopResolving(n0: Moment, m: Id, i: nat)
      requires Inv(S()) && Settled(S(), {}, {}) && Follows(n0, Now()) && escaped != {}
      requires m in Live(S()).loops
      modifies this`stopped
      ensures Inv(S()) && Settled(S(), {}, {}) && Follows(n0, Now())
      ensures Live(S()) == old(Live(S()).(loops := Live(S()).loops - {m}))
    {
      hide Inv, Settled, Follows, Reach, VisibleEdges, LoadFailed, CallsMade, ErrorsHandled, Happens;
      ghost var n := Now();
      QuietStep(n, StopLoop(m));
      Advance(n0, n, StopLoop(m), [], {}, {});
      stopped := stopped + {m};
    }

    /** One round of the loop in `Resolve`: the module is given up exactly when the entry has an error,
        and otherwise the entry is passed over, dropped as cyclic, or waited for. */
    method ResolveEntry(m: Id, dependency: Dependency) returns (outcome: EntryOutcome)
      requires Inv(S()) && Settled(S(), {m}, {}) && InLoop(S(), m) && Entry(S(), m) == dependency
      modifies this
      ensures Inv(S()) && Follows(old(Now()), Now())
      ensures Settled(S(), if outcome.DealtWith? then {m} else {}, {})
      ensures outcome.GaveUp? ==> Live(S()) == old(Live(S()).(loops := Live(S()).loops - {m}))
      ensures !outcome.GaveUp? ==> Live(S()) == old(Live(S()).(loops := Live(S()).loops[m := cursor[m] + 1]))
      ensures |script| <= |old(script)|
      ensures |script| == |old(script)| ==> Incomplete(modules) <= old(Incomplete(modules))
      ensures outcome.GaveUp? <==>
        dependency.Regular? && Complete(old(modules), dependency.to) && old(modules)[dependency.to].error.Some?
      ensures Resolved(old(Now()), m, Now())
      ensures outcome.Interrupted? ==> escaped != {} && outcome.error in raised
      decreases |script|, 0, Incomplete(modules), 3
    {
      hide Inv, Settled, Follows, Live, Incomplete, Reach, VisibleEdges, LoadFailed, MarkFailed, WaitersOf, Notified,
           Recorded, FramesAfter;
      outcome := DealtWith;
      if !dependency.Regular? {
        PassOver(m);
      } else if dependency.to in modules && modules[dependency.to].isComplete {
        if modules[dependency.to].error.Some? {
          GiveUp(m, modules[dependency.to].error.value);
          outcome := GaveUp;
        } else {
          PassOver(m);
        }
      } else {
        var thrown := WaitFor(m, dependency.to);
        if thrown.Some? { outcome := Interrupted(thrown.value); }
      }
    }

    /** The entry needs no waiting for. */
    method PassOver(m: Id)
      requires Inv(S()) && Settled(S(), {m}, {}) && Enabled(S(), Skip(m))
      modifies this`modules, this`cursor
      ensures Inv(S()) && Settled(S(), {m}, {}) && Follows(old(Now()), Now())
      ensures S() == Ticked(old(S()), m) && Incomplete(modules) == old(Incomplete(modules))
      ensures Live(S()) == old(Live(S()).(loops := Live(S()).loops[m := cursor[m] + 1]))
    {
      hide Inv, Settled, Follows, Live, Incomplete, Reach, VisibleEdges, LoadFailed, MarkFailed, WaitersOf, Notified;
      ghost var n := Now();
      modules := Decremented(modules, m);
      cursor := cursor[m := cursor[m] + 1];
      assert S() == Ticked(n.state, m);
      SameIncomplete(n.state.modules, m);
      hide Ticked;
      SkipAdvances(n, m);
    }

    /** The entry has an error, and so has the module now. */
    method GiveUp(m: Id, err: Failure)
      requires Inv(S()) && Settled(S(), {m}, {}) && Enabled(S(), DependencyFailed(m))
      requires modules[Next(S(), m)].error == Some(err)
      modifies this`modules, this`errorbackCalls, this`cursor
      ensures Inv(S()) && Settled(S(), {}, {}) && Follows(old(Now()), Now())
      ensures S() == GivenUp(old(S()), m) && Incomplete(modules) <= old(Incomplete(modules))
      ensures Live(S()) == old(Live(S()).(loops := Live(S()).loops - {m}))
      ensures m in old(modules)
      ensures modules == old(modules)[m := old(modules)[m].(isComplete := true, error := Some(err))]
      ensures errorbackCalls == old(errorbackCalls) + if old(modules)[m].hasErrorback then [(m, err)] else []
    {
      hide Inv, Settled, Follows, Live, Incomplete, Reach, VisibleEdges, LoadFailed, MarkFailed, WaitersOf, Notified;
      ghost var n := Now();
      NotifiedStep([], modules, m, err);
      assert [] + [m] == [m];
      var _ := GiveError(m, err);
      cursor := cursor - {m};
      assert S() == GivenUp(n.state, m);
      FewerIncomplete(n.state.modules, m, modules[m]);
      hide GivenUp;
      assert errorbackCalls == n.calls + Notified([m], n.state.modules, err);
      GiveUpAdvances(n, m);
    }

    /** An entry that is not complete: dropped with the flag set if it already leads back to m, and
        otherwise recorded and asked for. */
    method WaitFor(m: Id, dependency: Id) returns (thrown: Option<nat>)
      requires Inv(S()) && Settled(S(), {m}, {}) && InLoop(S(), m) && Entry(S(), m) == Regular(dependency)
      requires !Complete(modules, dependency)
      modifies this
      ensures Inv(S()) && Settled(S(), if thrown.Some? then {} else {m}, {}) && Follows(old(Now()), Now())
      ensures Live(S()) == old(Live(S()).(loops := Live(S()).loops[m := cursor[m] + 1]))
      ensures |script| <= |old(script)|
      ensures |script| == |old(script)| ==> Incomplete(modules) <= old(Incomplete(modules))
      ensures Reach(VisibleEdges(old(modules)), dependency, m) ==>
        thrown == None && Now() == old(Now()).(state := Ticked(old(S()), m).(hasCycle := true))
      ensures !Reach(VisibleEdges(old(modules)), dependency, m) ==>
        && Follows(old(Now()).(state := Recorded(old(S()), m)), Now())
        && (dependency in modules || dependency in knownModules)
      ensures thrown.Some? ==> escaped != {} && thrown.value in raised
      decreases |script|, 0, Incomplete(modules), 2
    {
      hide Inv, Settled, Follows, Live, Incomplete, Reach, VisibleEdges, LoadFailed, MarkFailed, WaitersOf, Notified,
           FramesAfter;
      ghost var n := Now();
      var recorded := CheckCycle(m, dependency);
      thrown := None;
      if recorded {
        ghost var n1 := Now();
        thrown := LoadModule(dependency);
        FollowsTransitive(n, n1, Now());
        LessSettled(S(), m);
      }
    }

    /** The cycle check, and what it decides. */
    method CheckCycle(m: Id, dependency: Id) returns (recorded: bool)
      requires Inv(S()) && Settled(S(), {m}, {}) && InLoop(S(), m) && Entry(S(), m) == Regular(dependency)
      requires !Complete(modules, dependency)
      modifies this`modules, this`inverseDependencies, this`hasDependencyCycle, this`cycleWarnings, this`cursor
      ensures recorded <==> !Reach(VisibleEdges(old(modules)), dependency, m)
      ensures S() == if recorded then Recorded(old(S()), m) else Ticked(old(S()), m).(hasCycle := true)
      ensures Inv(S()) && Follows(old(Now()), Now())
      ensures if recorded then Settled(S(), {}, {dependency}) else Settled(S(), {m}, {})
      ensures Live(S()) == old(Live(S()).(loops := Live(S()).loops[m := cursor[m] + 1]))
      ensures Incomplete(modules) == old(Incomplete(modules))
      ensures recorded ==> cycleWarnings == old(cycleWarnings)
      ensures !recorded ==> exists path ::
        Witness(old(modules), dependency, m, 0, path) && cycleWarnings == old(cycleWarnings) + [path + [dependency]]
    {
      hide Inv, Settled, Follows, Live, Incomplete, Reach, VisibleEdges, LoadFailed, MarkFailed, WaitersOf, Notified,
           Witness, Ticked, Recorded;
      var found := HasDependencyPath(modules, dependency, m);
      recorded := !found;
      if found {
        var path := FindCyclePath(modules, dependency, m, 0);
        CyclePathExists(modules, dependency, m);
        cycleWarnings := cycleWarnings + [Reverse(path.value) + [dependency]];
        ghost var n := Now();
        DropEntry(m);
        BreakCycleAdvances(n, m);
      } else {
        RecordEntry(m, dependency);
      }
    }

    method DropEntry(m: Id)
      requires InLoop(S(), m)
      modifies this`modules, this`hasDependencyCycle, this`cursor
      ensures S() == Ticked(old(S()), m).(hasCycle := true) && Incomplete(modules) == old(Incomplete(modules))
    {
      hide Incomplete;
      SameIncomplete(modules, m);
      hasDependencyCycle := true;
      modules := Decremented(modules, m);
      cursor := cursor[m := cursor[m] + 1];
    }

    method RecordEntry(m: Id, dependency: Id)
      requires Inv(S()) && Settled(S(), {m}, {}) && Enabled(S(), Record(m)) && Next(S(), m) == dependency
      modifies this`inverseDependencies, this`cursor
      ensures S() == Recorded(old(S()), m)
      ensures Inv(S()) && Settled(S(), {}, {dependency}) && Follows(old(Now()), Now())
      ensures Live(S()) == old(Live(S()).(loops := Live(S()).loops[m := cursor[m] + 1]))
    {
      hide Inv, Settled, Follows, Live, Incomplete, Reach, VisibleEdges, LoadFailed;
      ghost var n := Now();
      inverseDependencies := inverseDependencies[dependency := WaitersOf(inverseDependencies, dependency) + [m]];
      cursor := cursor[m := cursor[m] + 1];
      assert S() == Recorded(n.state, m);
      hide Recorded, WaitersOf;
      RecordAdvances(n, m);
    }

    /** Asks the script loader for a module, once. The loader may call back before it returns. It catches
        what a script throws of itself, but not what passes through from a call the loader made. */
    method LoadModule(d: Id) returns (thrown: Option<nat>)
      requires Inv(S()) && Settled(S(), {}, {d})
      modifies this
      ensures Inv(S()) && Settled(S(), {}, {}) && Follows(old(Now()), Now()) && Live(S()) == old(Live(S()))
      ensures |script| <= |old(script)|
      ensures |script| == |old(script)| ==> Incomplete(modules) == old(Incomplete(modules))
      ensures d in modules || d in knownModules
      ensures d in old(modules) || d in old(knownModules) ==> Now() == old(Now()) && thrown == None
      ensures !(d in old(modules) || d in old(knownModules)) ==> old(control) + [LoaderFor(d)] <= control
      ensures thrown.Some? ==> escaped != {} && thrown.value in raised
      decreases |script|, 0, Incomplete(modules), 1
    {
      hide Inv, Settled, Follows, Live, Incomplete, Reach, VisibleEdges, LoadFailed, MarkFailed, WaitersOf, Notified;
      ghost var n0 := Now();
      if d in modules || d in knownModules {
        FollowsReflexive(n0);
        AlreadyAsked(n0.state, d);
        return None;
      }
      AskAdvances(n0, d);
      knownModules := knownModules + {d};
      ghost var n := Now().(due := Hand(LoaderFor(d)));
      var outcome := ClientCode(Some(LoaderFor(d)));
      GivenControl(n, Now(), LoaderFor(d));
      FollowsTransitive(n0, n, Now());
      AskedStaysAsked(n, Now(), d);
      thrown := if outcome.Passed? then Some(outcome.error) else None;
    }

    /** Runs the factory of a module that waits for nothing, then counts down its waiters. An exception
        that is not caught leaves the waiters where they are. */
    method OnModuleComplete(m: Id) returns (thrown: Option<nat>)
      requires Inv(S()) && Settled(S(), {m}, {})
      requires m in modules && modules[m].unresolvedDependenciesCount == 0
      modifies this
      ensures Inv(S()) && Settled(S(), {}, {}) && Follows(old(Now()), Now()) && Live(S()) == old(Live(S()))
      ensures old(modules)[m].isComplete ==> Now() == old(Now()) && thrown == None
      ensures !old(modules)[m].isComplete ==>
        && old(ran) + [m] <= ran && old(control) + [FactoryOf(m)] <= control
        && Follows(old(Now()).(state := FactoryStarted(old(S()), m), due := Hand(FactoryOf(m))), Now())
        && m in modules
        && (modules[m].error.Some? ==> OwnError(m, modules[m].error.value, raised, Taken(old(script), script)))
      ensures |script| <= |old(script)|
      ensures |script| == |old(script)| ==> Incomplete(modules) <= old(Incomplete(modules))
      ensures thrown.Some? ==> escaped != {} && thrown.value in raised
      decreases |script|, 0, Incomplete(modules), 2
    {
      hide Inv, Settled, Follows, Live, Incomplete, Reach, VisibleEdges, LoadFailed, MarkFailed, WaitersOf, Notified,
           FramesAfter, FactoryStarted, OwnError, Taken;
      ghost var n0 := Now();
      if modules[m].isComplete {
        FollowsReflexive(n0);
        NotReady(n0.state, m);
        return None;
      }
      var caught := catchError;
      ReadyIsNotEscaped(n0.state, m);
      NotRunning(n0.state, m);
      NotGuardedBefore(n0.state, m);
      StartFactoryAdvances(n0, m);
      StartFactoryOf(m);
      ghost var n1 := Now().(due := Hand(FactoryOf(m)));
      var outcome := ClientCode(Some(FactoryOf(m)));
      ghost var n2 := Now();
      StillRunning(n1, n2, m);
      thrown := FactoryDone(m, outcome, caught);
      FollowsTransitive(n1, n2, Now());
      FollowsTransitive(n0, n1, Now());
      GivenControl(n1, Now(), FactoryOf(m));
      ErrorIsOwn(n1, Now(), m);
      AddedAndRemoved(Live(n0.state).factories, m);
    }

    /** What follows when the factory is left: either the exception gets out, or `complete` ends and the
        waiters are counted down. */
    method FactoryDone(m: Id, outcome: Outcome, caught: bool) returns (thrown: Option<nat>)
      requires Inv(S()) && Settled(S(), {}, {}) && Returns(S(), m) && (m in guarded <==> caught)
      requires outcome != Finished ==> outcome.error in raised
      modifies this
      ensures Inv(S()) && Settled(S(), {}, {}) && Follows(old(Now()), Now())
      ensures Live(S()) == old(Live(S()).(factories := Live(S()).factories - {m}))
      ensures outcome != Finished && !caught ==>
        thrown == Some(outcome.error) && Now() == old(Now()).(state := old(S()).(escaped := old(escaped) + {m}))
      ensures outcome == Finished || caught ==>
        var waiters := WaitersOf(old(inverseDependencies), m);
        Follows(old(Now()).(state := FactoryEnded(old(S()), m, Thrown(outcome)),
                            reported := old(reportedErrors) + FactoryErrors(m, waiters, Thrown(outcome))), Now())
      ensures |script| <= |old(script)|
      ensures |script| == |old(script)| ==> Incomplete(modules) <= old(Incomplete(modules))
      ensures thrown.Some? ==> escaped != {} && thrown.value in raised
      decreases |script|, 0, Incomplete(modules), 5
    {
      hide Inv, Settled, Follows, Live, Incomplete, Reach, VisibleEdges, LoadFailed, MarkFailed, WaitersOf, Notified,
           Unpaid, Owes, Returned, FramesAfter, FactoryEnded;
      ghost var n := Now();
      if outcome != Finished && !caught {
        FollowsReflexive(n);
        LeaveFactory(n, m);
        return Thrown(outcome);
      }
      EndFactoryAdvances(n, m, Thrown(outcome));
      var waiters := EndFactoryOf(m, Thrown(outcome));
      ghost var n1 := Now();
      FramesBack(Live(n.state), waiters);
      ghost var at;
      thrown, at := NotifyWaiters(waiters);
      FollowsTransitive(n, n1, Now());
    }

    /** The exception passes through `complete`: the module stays complete, with its list and its waiters. */
    ghost method LeaveFactory(n0: Moment, m: Id)
      requires Inv(S()) && Settled(S(), {}, {}) && Follows(n0, Now())
      requires Returns(S(), m) && m !in guarded && raised != {}
      modifies this`escaped
      ensures Inv(S()) && Settled(S(), {}, {}) && Follows(n0, Now()) && escaped == old(escaped) + {m}
      ensures Live(S()) == old(Live(S()).(factories := Live(S()).factories - {m}))
    {
      hide Inv, Settled, Follows, Live, Reach, VisibleEdges, LoadFailed, CallsMade, ErrorsHandled, Happens;
      ghost var n := Now();
      QuietStep(n, Escape(m));
      Advance(n0, n, Escape(m), [], {}, {});
      escaped := escaped + {m};
    }

    /** The beginning of `complete`: from here on the module counts as complete. */
    method StartFactoryOf(m: Id)
      requires m in modules && !modules[m].isComplete
      modifies this`modules, this`started, this`ran, this`running, this`guarded
      ensures S() == FactoryStarted(old(S()), m)
      ensures modules == old(modules)[m := old(modules)[m].(isComplete := true)]
      ensures ran == old(ran) + [m] && started == old(started) + {m} && running == old(running) + {m}
      ensures guarded == if catchError then old(guarded) + {m} else old(guarded)
      ensures Incomplete(modules) < old(Incomplete(modules))
    {
      hide Incomplete;
      FewerIncomplete(modules, m, modules[m].(isComplete := true));
      modules := modules[m := modules[m].(isComplete := true)];
      started, ran, running := started + {m}, ran + [m], running + {m};
      if catchError { guarded := guarded + {m}; }
    }

    /** The end of `complete`, and fetching and clearing the list of waiters. */
    method EndFactoryOf(m: Id, thrown: Option<nat>) returns (waiters: seq<Id>)
      requires m in modules
      modifies this`modules, this`inverseDependencies, this`reportedErrors, this`owed, this`running
      ensures S() == FactoryEnded(old(S()), m, thrown)
      ensures waiters == WaitersOf(old(inverseDependencies), m) && inverseDependencies == old(inverseDependencies) - {m}
      ensures Closed(old(modules)[m], m, waiters, thrown, modules[m])
      ensures reportedErrors == old(reportedErrors) + if thrown.Some? then [modules[m].error.value] else []
      ensures Incomplete(modules) == old(Incomplete(modules))
    {
      ghost var e := FactoryEnded(S(), m, thrown);
      hide Incomplete, WaitersOf, Returned;
      waiters := WaitersOf(inverseDependencies, m);
      ReplacedIncomplete(modules, m, Returned(modules[m], m, waiters, thrown));
      CloseRecord(m, waiters, thrown);
      inverseDependencies := inverseDependencies - {m};
      owed, running := e.owed, e.running;
      hide FactoryEnded;
    }

    /** A caught exception goes into the record and to the configured handler; the record drops the rest. */
    method CloseRecord(m: Id, waiters: seq<Id>, thrown: Option<nat>)
      requires m in modules
      modifies this`modules, this`reportedErrors
      ensures modules == old(modules)[m := Returned(old(modules)[m], m, waiters, thrown)]
      ensures Closed(old(modules)[m], m, waiters, thrown, modules[m])
      ensures reportedErrors == old(reportedErrors) + if thrown.Some? then [modules[m].error.value] else []
    {
      reportedErrors := reportedErrors + FactoryErrors(m, waiters, thrown);
      modules := modules[m := Returned(modules[m], m, waiters, thrown)];
    }

    /** One round of the completion loop. */
    method NotifyOne(x: Id) returns (thrown: Option<nat>)
      requires Inv(S()) && Settled(S(), {}, {}) && x in Live(S()).debts
      modifies this
      ensures Inv(S()) && Settled(S(), {}, {}) && Follows(old(Now()), Now())
      ensures x in old(modules) && Follows(old(Now()).(state := CountedDown(old(S()), x)), Now())
      ensures Live(S()) == old(Live(S()).(debts := Live(S()).debts - multiset{x}))
      ensures |script| <= |old(script)|
      ensures |script| == |old(script)| ==> Incomplete(modules) <= old(Incomplete(modules))
      ensures thrown.Some? ==> escaped != {} && thrown.value in raised
      decreases |script|, 0, Incomplete(modules), 3
    {
      hide Inv, Settled, Follows, Live, Incomplete, Reach, VisibleEdges, LoadFailed, MarkFailed, WaitersOf, Notified;
      ghost var n := Now();
      LiveDebt(n.state, x);
      OwedIsDefined(n.state, x);
      NotifyAdvances(n, x);
      modules := Decremented(modules, x);
      owed := owed - multiset{x};
      SameIncomplete(n.state.modules, x);
      ghost var n1 := Now();
      thrown := None;
      if modules[x].unresolvedDependenciesCount == 0 {
        thrown := OnModuleComplete(x);
        FollowsTransitive(n, n1, Now());
      } else {
        FollowsReflexive(n1);
        NotReady(n1.state, x);
      }
    }

    /** Resolves one inverse dependency at a time, in the order of the list, completing each module that
        becomes ready. An exception that passes through leaves the rest of the list without its decrements. */
    method NotifyWaiters(waiters: seq<Id>) returns (thrown: Option<nat>, ghost at: seq<Moment>)
      requires Inv(S()) && Settled(S(), {}, {}) && Owes(Live(S()).debts, waiters)
      modifies this
      ensures Inv(S()) && Settled(S(), {}, {}) && Follows(old(Now()), Now())
      ensures Live(S()) == old(Live(S()).(debts := Unpaid(Live(S()).debts, waiters, |waiters|)))
      ensures |at| > 0 && at[0] == old(Now()) && InTurn(at, waiters)
      ensures thrown.None? ==> |at| == |waiters| + 1 && at[|waiters|] == Now()
      ensures |script| <= |old(script)|
      ensures |script| == |old(script)| ==> Incomplete(modules) <= old(Incomplete(modules))
      ensures thrown.Some? ==> escaped != {} && thrown.value in raised
      decreases |script|, 0, Incomplete(modules), 4
    {
      hide Inv, Settled, Follows, Live, Incomplete, Reach, VisibleEdges, LoadFailed, MarkFailed, WaitersOf, Notified,
           FramesAfter, CountedDown, Unpaid, Owes, InTurn;
      ghost var n0 := Now();
      FirstInTurn(n0, waiters);
      ghost var f := Live(n0.state);
      FollowsReflexive(n0);
      UnpaidEnds(f.debts, waiters);
      thrown, at := None, [n0];
      var i := 0;
      while i < |waiters|
        invariant 0 <= i <= |waiters| && thrown == None
        invariant Inv(S()) && Settled(S(), {}, {}) && Follows(n0, Now())
        invariant Live(S()) == f.(debts := Unpaid(f.debts, waiters, i))
        invariant |at| == i + 1 && at[0] == n0 && at[i] == Now() && InTurn(at, waiters)
        invariant |script| <= |old(script)|
        invariant |script| == |old(script)| ==> Incomplete(modules) <= Incomplete(n0.state.modules)
      {
        ghost var n := Now();
        StillOwed(f.debts, waiters, i);
        thrown := NotifyOne(waiters[i]);
        FollowsTransitive(n0, n, Now());
        NextInTurn(at, waiters, Now());
        at := at + [Now()];
        i := i + 1;
        if thrown.Some? {
          LeaveLoop(n0, f, waiters, i);
          return;
        }
      }
    }

    /** The exception passes through a completion loop: the decrements it has still to make are lost. */
    ghost method LeaveLoop(n0: Moment, f: Frames, waiters: seq<Id>, i: nat)
      requires Inv(S()) && Settled(S(), {}, {}) && Follows(n0, Now()) && escaped != {}
      requires i <= |waiters| && Owes(f.debts, waiters) && Live(S()) == f.(debts := Unpaid(f.debts, waiters, i))
      modifies this`lost
      ensures Inv(S()) && Settled(S(), {}, {}) && Follows(n0, Now())
      ensures Live(S()) == f.(debts := Unpaid(f.debts, waiters, |waiters|))
    {
      hide Inv, Settled, Follows, Live, Reach, VisibleEdges, LoadFailed, Unpaid, Owes, CallsMade, ErrorsHandled,
           Happens;
      var k := i;
      while k < |waiters|
        invariant i <= k <= |waiters|
        invariant Inv(S()) && Settled(S(), {}, {}) && Follows(n0, Now())
        invariant Live(S()) == f.(debts := Unpaid(f.debts, waiters, k))
      {
        ghost var n := Now();
        StillOwed(f.debts, waiters, k);
        LiveDebt(n.state, waiters[k]);
        QuietStep(n, LoseDebt(waiters[k]));
        Advance(n0, n, LoseDebt(waiters[k]), [], {}, {});
        lost := lost + multiset{waiters[k]};
        k := k + 1;
      }
    }

    /** `Module.onDependencyError`: the record takes the error and its errorback, if any, is called. */
    method GiveError(m: Id, err: Failure) returns (notified: bool)
      requires m in modules
      modifies this`modules, this`errorbackCalls
      ensures modules == old(modules)[m := old(modules)[m].OnDependencyError(err)]
      ensures notified == old(modules)[m].hasErrorback
      ensures errorbackCalls == old(errorbackCalls) + (if notified then [(m, err)] else [])
    {
      notified := modules[m].hasErrorback;
      if notified { errorbackCalls := errorbackCalls + [(m, err)]; }
      modules := modules[m := modules[m].OnDependencyError(err)];
    }

    /** A script could not be loaded: everything that waits for the module, directly or not, fails with it. */
    method OnLoadError(failed: Id, reason: nat) returns (ghost visited: seq<Id>, ghost from: seq<nat>)
      requires Inv(S()) && Settled(S(), {}, {}) && failed in knownModules
      modifies this`modules, this`declared, this`errorbackCalls, this`reportedErrors
      ensures Inv(S()) && Settled(S(), {}, {}) && Live(S()) == old(Live(S()))
      ensures Follows(old(Now()).(due := Must(LoadFails(failed, reason))), Now())
      ensures S() == LoadFailed(old(S()), failed, reason)
      ensures NoDuplicates(visited) && forall x :: x in visited <==> Affected(old(inverseDependencies), failed, x)
      ensures BreadthFirst(old(inverseDependencies), failed, visited, from)
      ensures errorbackCalls == old(errorbackCalls) +
        Notified(visited, old(modules), LoadFailure(old(inverseDependencies), failed, reason))
      ensures var err := Failure(Loading, failed, WaitersOf(old(inverseDependencies), failed), reason);
        && FailedWith(old(modules), failed, visited, err, modules)
        && ToldOf(old(modules), visited, err, old(errorbackCalls), errorbackCalls)
        && reportedErrors == old(reportedErrors) + if AnyErrorback(visited, old(modules)) then [] else [err]
    {
      hide Inv, Settled, Follows, Live, Affected, LoadFailed, LoadFailure, Notified, Unclaimed, NoDuplicates,
           BreadthFirst;
      ghost var n := Now().(due := Must(LoadFails(failed, reason)));
      KeysAgree(n.state);
      WaitersAreDefined(n.state);
      visited, from := FailAll(failed, reason);
      LoadFailsAdvances(n, failed, reason, visited);
      FailedMeans(n.state, failed, reason, visited);
    }

    method FailAll(failed: Id, reason: nat) returns (ghost visited: seq<Id>, ghost from: seq<nat>)
      requires modules.Keys == declared.Keys
      requires forall m, x :: x in WaitersOf(inverseDependencies, m) ==> x in modules
      modifies this`modules, this`declared, this`errorbackCalls, this`reportedErrors
      ensures S() == LoadFailed(old(S()), failed, reason)
      ensures NoDuplicates(visited) && forall x :: x in visited <==> Affected(old(inverseDependencies), failed, x)
      ensures errorbackCalls == old(errorbackCalls) +
        Notified(visited, old(modules), LoadFailure(old(inverseDependencies), failed, reason))
      ensures reportedErrors == old(reportedErrors) +
        Unclaimed(visited, old(modules), LoadFailure(old(inverseDependencies), failed, reason))
      ensures BreadthFirst(old(inverseDependencies), failed, visited, from)
    {
      hide Affected, Reach, MarkFailed, LoadFailure, WithPlaceholder, Notified, VisibleEdges, NoDuplicates, WaitersOf,
           BreadthFirst;
      ghost var known := modules;
      var err := LoadFailure(inverseDependencies, failed, reason);
      WithPlaceholderIs(modules, failed);
      if failed !in modules {
        modules := modules[failed := Module(Some([]), 0, false, None, false)];
        declared := declared[failed := []];
      }
      var someoneNotified;
      someoneNotified, visited, from := FailInverse(failed, err);
      PlaceholderIsSilent(visited, known, failed, err);
      if !someoneNotified {
        reportedErrors := reportedErrors + [err];
      }
    }

    /** The walk along the chain of inverse dependencies, breadth first. */
    method FailInverse(failed: Id, err: Failure)
        returns (someoneNotified: bool, ghost visited: seq<Id>, ghost from: seq<nat>)
      requires failed in modules
      requires forall m, x :: x in WaitersOf(inverseDependencies, m) ==> x in modules
      modifies this`modules, this`errorbackCalls
      ensures modules == MarkFailed(old(modules), inverseDependencies, failed, err)
      ensures NoDuplicates(visited) && forall x :: x in visited <==> Affected(inverseDependencies, failed, x)
      ensures errorbackCalls == old(errorbackCalls) + Notified(visited, old(modules), err)
      ensures someoneNotified <==> Notified(visited, old(modules), err) != []
      ensures BreadthFirst(inverseDependencies, failed, visited, from)
    {
      hide Affected, Reach, MarkFailed, WaitersOf, Notified, NoDuplicates, Searching, Marked, BreadthFirst, Place,
           InListOrder;
      var seen: set<Id> := {failed};
      var queue: seq<Id> := [failed];
      someoneNotified, visited, from := false, [], [0];
      SearchBegins(inverseDependencies, failed);
      MarkedStarts(modules, err);
      NotifiedStep([], modules, failed, err);
      while |queue| > 0
        invariant Searching(inverseDependencies, failed, visited, queue, seen, from)
        invariant Marked(old(modules), modules, visited, err)
        invariant modules.Keys == old(modules).Keys
        invariant errorbackCalls == old(errorbackCalls) + Notified(visited, old(modules), err)
        invariant someoneNotified <==> Notified(visited, old(modules), err) != []
        invariant seen <= modules.Keys
        decreases old(modules).Keys - seen, |queue|
      {
        var m := queue[0];
        ghost var queue0, seen0, visited0 := queue, seen, visited;
        NextInSearch(inverseDependencies, failed, visited, queue, seen, from);
        queue := queue[1..];
        MarkOneMore(old(modules), modules, visited, m, err);
        NotifiedStep(visited, old(modules), m, err);
        if m in modules {
          var notified := GiveError(m, err);
          someoneNotified := notified || someoneNotified;
        }
        visited := visited + [m];
        queue, seen := Enqueue(WaitersOf(inverseDependencies, m), queue, seen);
        from := SearchMoves(inverseDependencies, failed, visited0, queue0, seen0, from, queue, seen);
      }
      SearchEnds(inverseDependencies, failed, visited, queue, seen, from);
      MarkedAll(old(modules), modules, inverseDependencies, failed, visited, err);
    }
  }

  /** The inner loop over one list of waiters: those not seen before join the queue, once each. */
  method Enqueue(waiters: seq<Id>, queue0: seq<Id>, seen0: set<Id>) returns (queue: seq<Id>, seen: set<Id>)
    requires forall x :: x in queue0 ==> x in seen0
    requires NoDuplicates(queue0)
    ensures queue0 <= queue && NoDuplicates(queue)
    ensures seen == seen0 + set x | x in waiters
    ensures forall x :: x in queue[|queue0|..] <==> x in waiters && x !in seen0
    ensures seen == seen0 ==> queue == queue0
    ensures InListOrder(waiters, queue[|queue0|..], |waiters|)
  {
    hide Place, InListOrder, NoDuplicates;
    NothingListed(waiters);
    queue, seen := queue0, seen0;
    ghost var added: seq<Id> := [];
    var i := 0;
    while i < |waiters|
      invariant 0 <= i <= |waiters|
      invariant queue == queue0 + added && NoDuplicates(queue)
      invariant seen == seen0 + set x | x in waiters[..i]
      invariant forall x :: x in added <==> x in waiters[..i] && x !in seen0
      invariant InListOrder(waiters, added, i)
    {
      var x := waiters[i];
      assert waiters[..i + 1] == waiters[..i] + [x];
      ListedNext(waiters, added, i);
      if x !in seen {
        SnocFresh(queue, x);
        assert queue + [x] == queue0 + (added + [x]);
        queue, added := queue + [x], added + [x];
        seen := seen + {x};
      }
      i := i + 1;
    }
    assert waiters[..i] == waiters;
    assert queue[|queue0|..] == added;
    assert added != [] ==> added[0] in added;
  }

  lemma SnocFresh(q: seq<Id>, x: Id)
    requires NoDuplicates(q) && x !in q
    ensures NoDuplicates(q + [x])
  {
  }

  /** Where x is in q for the first time. */
  function Place(q: seq<Id>, x: Id): nat {
    if q == [] || q[0] == x then 0 else 1 + Place(q[1..], x)
  }

  lemma {:induction false} PlaceIs(q: seq<Id>, i: nat)
    requires i < |q| && q[i] !in q[..i]
    ensures Place(q, q[i]) == i
  {
    if i > 0 {
      assert q[0] == q[..i][0];
      assert q[1..][..i - 1] == q[..i][1..];
      PlaceIs(q[1..], i - 1);
    }
  }

  /** Those found among the first n of a list, in the order of the list. */
  ghost predicate InListOrder(waiters: seq<Id>, added: seq<Id>, n: nat) {
    && (forall i :: 0 <= i < |added| ==> Place(waiters, added[i]) < n)
    && forall i, j :: 0 <= i < j < |added| ==> Place(waiters, added[i]) < Place(waiters, added[j])
  }

  lemma NothingListed(waiters: seq<Id>)
    ensures InListOrder(waiters, [], 0)
  {
  }

  lemma ListedNext(waiters: seq<Id>, added: seq<Id>, n: nat)
    requires n < |waiters| && InListOrder(waiters, added, n)
    ensures InListOrder(waiters, added, n + 1)
    ensures waiters[n] !in waiters[..n] ==> InListOrder(waiters, added + [waiters[n]], n + 1)
  {
    hide Place;
    if waiters[n] !in waiters[..n] { PlaceIs(waiters, n); }
  }

  /** The order of a breadth-first walk from the failed module: from says who each module was first found to
      wait for; those found earlier come first, and those found in one list in the order of the list. */
  ghost predicate BreadthFirst(inverse: map<Id, seq<Id>>, failed: Id, order: seq<Id>, from: seq<nat>) {
    && |order| == |from| > 0 && order[0] == failed
    && forall k :: 0 < k < |order| ==> Discovered(inverse, order, from, k)
  }

  ghost predicate Discovered(inverse: map<Id, seq<Id>>, order: seq<Id>, from: seq<nat>, k: nat)
    requires 0 < k < |order| == |from|
  {
    && from[k] < k && order[k] in WaitersOf(inverse, order[from[k]])
    && (forall j :: 0 <= j < from[k] ==> order[k] !in WaitersOf(inverse, order[j]))
    && (k > 1 ==> from[k - 1] <= from[k])
    && (k > 1 && from[k - 1] == from[k] ==>
          var waiters := WaitersOf(inverse, order[from[k]]);
          Place(waiters, order[k - 1]) < Place(waiters, order[k]))
  }

  lemma BreadthStarts(inverse: map<Id, seq<Id>>, failed: Id)
    ensures BreadthFirst(inverse, failed, [] + [failed], [0])
  {
  }

  lemma BreadthGoesOn(inverse: map<Id, seq<Id>>, failed: Id, visited: seq<Id>, queue0: seq<Id>, seen0: set<Id>,
                      queue: seq<Id>, from: seq<nat>)
    requires Frontier(inverse, failed, visited, queue0, seen0) && |queue0| > 0
    requires BreadthFirst(inverse, failed, visited + queue0, from)
    requires forall k :: 0 < k < |from| ==> from[k] < |visited|
    requires queue0[1..] <= queue
    requires var added, waiters := queue[|queue0| - 1..], WaitersOf(inverse, queue0[0]);
      InListOrder(waiters, added, |waiters|) && forall x :: x in added <==> x in waiters && x !in seen0
    ensures var from' := from + seq(|queue| + 1 - |queue0|, _ => |visited|);
      && BreadthFirst(inverse, failed, visited + [queue0[0]] + queue, from')
      && forall k :: 0 < k < |from'| ==> from'[k] < |visited| + 1
  {
    hide Affected, WaitersOf, Place, NoDuplicates, Discovered, InListOrder;
    var n := |visited|;
    var all, added := visited + queue0, queue[|queue0| - 1..];
    var more := seq(|queue| + 1 - |queue0|, _ => n);
    assert visited + [queue0[0]] + queue == all + added && all[n] == queue0[0];
    assert |added| == |more| && forall i :: 0 <= i < |more| ==> more[i] == n;
    forall k | 0 < k < |all + added| ensures Discovered(inverse, all + added, from + more, k) {
      if k < |all| {
        StaysDiscovered(inverse, all, from, added, more, k);
      } else {
        FoundInFrontier(inverse, failed, visited, queue0, seen0, added, k - |all|);
        NowDiscovered(inverse, all, from, added, more, n, k - |all|);
      }
    }
  }

  lemma StaysDiscovered(inverse: map<Id, seq<Id>>, all: seq<Id>, from: seq<nat>, added: seq<Id>, more: seq<nat>, k: nat)
    requires 0 < k < |all| == |from| && |added| == |more| && Discovered(inverse, all, from, k)
    ensures Discovered(inverse, all + added, from + more, k)
  {
    hide WaitersOf, Place;
  }

  /** Nobody visited before the head of the queue is waited for by what is found now. */
  lemma FoundInFrontier(inverse: map<Id, seq<Id>>, failed: Id, visited: seq<Id>, queue0: seq<Id>, seen0: set<Id>,
                        added: seq<Id>, i: nat)
    requires Frontier(inverse, failed, visited, queue0, seen0) && |queue0| > 0 && i < |added|
    requires forall x :: x in added <==> x in WaitersOf(inverse, queue0[0]) && x !in seen0
    ensures added[i] in WaitersOf(inverse, queue0[0])
    ensures forall j :: 0 <= j < |visited| ==> added[i] !in WaitersOf(inverse, (visited + queue0)[j])
  {
    hide Affected, WaitersOf, NoDuplicates;
    assert added[i] in added;
    forall j | 0 <= j < |visited| ensures added[i] !in WaitersOf(inverse, (visited + queue0)[j]) {
      assert (visited + queue0)[j] in visited;
    }
  }

  lemma NowDiscovered(inverse: map<Id, seq<Id>>, all: seq<Id>, from: seq<nat>, added: seq<Id>, more: seq<nat>, n: nat,
                      i: nat)
    requires n < |all| == |from| && i < |added| == |more| && (forall j :: 0 <= j < |more| ==> more[j] == n)
    requires forall k :: 0 < k < |from| ==> from[k] < n
    requires added[i] in WaitersOf(inverse, all[n])
    requires forall j :: 0 <= j < n ==> added[i] !in WaitersOf(inverse, all[j])
    requires InListOrder(WaitersOf(inverse, all[n]), added, |WaitersOf(inverse, all[n])|)
    ensures Discovered(inverse, all + added, from + more, |all| + i)
  {
    hide WaitersOf, Place;
    var order, k := all + added, |all| + i;
    assert forall j :: 0 <= j < n ==> order[j] == all[j];
    assert order[k] == added[i] && order[n] == all[n];
    assert i > 0 ==> order[k - 1] == added[i - 1];
  }

  /** The state of the walk along inverse edges: visited modules, then queued ones, no module twice,
      all of them affected, and every waiter of a visited module already seen. */
  ghost predicate Frontier(inverse: map<Id, seq<Id>>, failed: Id, visited: seq<Id>, queue: seq<Id>, seen: set<Id>) {
    && NoDuplicates(visited + queue)
    && (forall x :: x in seen <==> x in visited + queue)
    && (forall x :: x in seen ==> Affected(inverse, failed, x))
    && failed in seen
    && (forall m, x :: m in visited && x in WaitersOf(inverse, m) ==> x in seen)
  }

  lemma NextInFrontier(inverse: map<Id, seq<Id>>, failed: Id, visited: seq<Id>, queue: seq<Id>, seen: set<Id>)
    requires Frontier(inverse, failed, visited, queue, seen) && |queue| > 0
    ensures queue[0] in seen && queue[0] !in visited
    ensures NoDuplicates(queue[1..]) && forall x :: x in queue[1..] ==> x in seen
  {
    hide Affected, WaitersOf;
    var all := visited + queue;
    assert all[|visited|] == queue[0];
    assert forall i :: 0 <= i < |queue| ==> all[|visited| + i] == queue[i];
    forall i | 0 <= i < |visited| ensures visited[i] != queue[0] { assert all[i] != all[|visited|]; }
  }

  lemma FrontierStarts(inverse: map<Id, seq<Id>>, failed: Id)
    ensures Frontier(inverse, failed, [], [failed], {failed})
  {
    AffectsItself(inverse, failed);
  }

  lemma FrontierMoves(inverse: map<Id, seq<Id>>, failed: Id, visited: seq<Id>, queue0: seq<Id>, seen0: set<Id>,
                      queue: seq<Id>, seen: set<Id>)
    requires Frontier(inverse, failed, visited, queue0, seen0) && |queue0| > 0
    requires queue0[1..] <= queue && NoDuplicates(queue)
    requires seen == seen0 + set x | x in WaitersOf(inverse, queue0[0])
    requires forall x :: x in queue[|queue0| - 1..] <==> x in WaitersOf(inverse, queue0[0]) && x !in seen0
    ensures Frontier(inverse, failed, visited + [queue0[0]], queue, seen)
  {
    hide Affected, WaitersOf;
    var m := queue0[0];
    var added := queue[|queue0| - 1..];
    assert queue == queue0[1..] + added;
    assert visited + [m] + queue == (visited + queue0) + added;
    forall x | x in seen ensures Affected(inverse, failed, x) {
      if x !in seen0 { AffectsWaiter(inverse, failed, m, x); }
    }
    AppendFresh(visited + queue0, added);
  }

  lemma AppendFresh(q: seq<Id>, added: seq<Id>)
    requires NoDuplicates(q) && NoDuplicates(added) && forall x :: x in added ==> x !in q
    ensures NoDuplicates(q + added)
  {
    forall i, j | 0 <= i < j < |q + added| ensures (q + added)[i] != (q + added)[j] {
      if i < |q| <= j { assert added[j - |q|] in added; }
    }
  }

  lemma FrontierDone(inverse: map<Id, seq<Id>>, failed: Id, visited: seq<Id>, queue: seq<Id>, seen: set<Id>)
    requires Frontier(inverse, failed, visited, queue, seen) && queue == []
    ensures NoDuplicates(visited) && forall x :: x in visited <==> Affected(inverse, failed, x)
  {
    assert visited + [] == visited;
    forall x | Affected(inverse, failed, x) && x != failed ensures x in visited {
      var p :| IsPath(WaitEdges(inverse), x, failed, p);
      BackwardWalk(inverse, visited, p);
    }
  }

  /** A walk of waits that ends in a set closed under waiters lies in it. */
  lemma {:induction false} BackwardWalk(inverse: map<Id, seq<Id>>, visited: seq<Id>, p: seq<Id>)
    requires IsWalk(WaitEdges(inverse), p) && p[|p| - 1] in visited
    requires forall m, x :: m in visited && x in WaitersOf(inverse, m) ==> x in visited
    ensures p[0] in visited
  {
    if |p| >= 2 {
      WalkTail(WaitEdges(inverse), p);
      BackwardWalk(inverse, visited, p[1..]);
      assert p[0] in WaitersOf(inverse, p[1]);
    }
  }

  /** All that holds of the walk between two rounds. */
  ghost predicate Searching(inverse: map<Id, seq<Id>>, failed: Id, visited: seq<Id>, queue: seq<Id>, seen: set<Id>,
                            from: seq<nat>) {
    && Frontier(inverse, failed, visited, queue, seen)
    && BreadthFirst(inverse, failed, visited + queue, from)
    && forall k :: 0 < k < |from| ==> from[k] < |visited|
  }

  lemma SearchBegins(inverse: map<Id, seq<Id>>, failed: Id)
    ensures Searching(inverse, failed, [], [failed], {failed}, [0])
  {
    hide Frontier, BreadthFirst;
    FrontierStarts(inverse, failed);
    BreadthStarts(inverse, failed);
  }

  lemma NextInSearch(inverse: map<Id, seq<Id>>, failed: Id, visited: seq<Id>, queue: seq<Id>, seen: set<Id>,
                     from: seq<nat>)
    requires Searching(inverse, failed, visited, queue, seen, from) && |queue| > 0
    ensures queue[0] in seen && queue[0] !in visited
    ensures NoDuplicates(queue[1..]) && forall x :: x in queue[1..] ==> x in seen
  {
    hide Frontier, BreadthFirst;
    NextInFrontier(inverse, failed, visited, queue, seen);
  }

  lemma SearchMoves(inverse: map<Id, seq<Id>>, failed: Id, visited: seq<Id>, queue0: seq<Id>, seen0: set<Id>,
                    from: seq<nat>, queue: seq<Id>, seen: set<Id>) returns (from': seq<nat>)
    requires Searching(inverse, failed, visited, queue0, seen0, from) && |queue0| > 0
    requires queue0[1..] <= queue && NoDuplicates(queue)
    requires seen == seen0 + set x | x in WaitersOf(inverse, queue0[0])
    requires var added, waiters := queue[|queue0| - 1..], WaitersOf(inverse, queue0[0]);
      InListOrder(waiters, added, |waiters|) && forall x :: x in added <==> x in waiters && x !in seen0
    ensures Searching(inverse, failed, visited + [queue0[0]], queue, seen, from')
  {
    hide Frontier, BreadthFirst, NoDuplicates, InListOrder, WaitersOf;
    FrontierMoves(inverse, failed, visited, queue0, seen0, queue, seen);
    BreadthGoesOn(inverse, failed, visited, queue0, seen0, queue, from);
    from' := from + seq(|queue| + 1 - |queue0|, _ => |visited|);
  }

  lemma SearchEnds(inverse: map<Id, seq<Id>>, failed: Id, visited: seq<Id>, queue: seq<Id>, seen: set<Id>,
                   from: seq<nat>)
    requires Searching(inverse, failed, visited, queue, seen, from) && queue == []
    ensures NoDuplicates(visited) && forall x :: x in visited <==> Affected(inverse, failed, x)
    ensures BreadthFirst(inverse, failed, visited, from)
  {
    hide Frontier, BreadthFirst, Affected;
    assert visited + queue == visited;
    FrontierDone(inverse, failed, visited, queue, seen);
  }

  /** The records after the modules visited so far have been given the error. */
  ghost predicate Marked(base: map<Id, Module>, modules: map<Id, Module>, visited: seq<Id>, err: Failure) {
    && modules.Keys == base.Keys
    && forall m :: m in base ==> modules[m] == if m in visited then base[m].OnDependencyError(err) else base[m]
  }

  lemma MarkedStarts(modules: map<Id, Module>, err: Failure)
    ensures Marked(modules, modules, [], err)
  {
  }

  lemma NotifiedStep(visited: seq<Id>, modules: map<Id, Module>, m: Id, err: Failure)
    ensures Notified([], modules, err) == []
    ensures Notified(visited + [m], modules, err) == Notified(visited, modules, err) +
      (if m in modules && modules[m].hasErrorback then [(m, err)] else [])
  {
    assert (visited + [m])[..|visited|] == visited;
  }

  lemma MarkOneMore(base: map<Id, Module>, modules: map<Id, Module>, visited: seq<Id>, m: Id, err: Failure)
    requires Marked(base, modules, visited, err) && m !in visited
    ensures modules.Keys == base.Keys && (m in modules ==> modules[m] == base[m])
    ensures m in modules ==> Marked(base, modules[m := modules[m].OnDependencyError(err)], visited + [m], err)
    ensures m !in modules ==> Marked(base, modules, visited + [m], err)
  {
  }

  lemma MarkedAll(base: map<Id, Module>, modules: map<Id, Module>, inverse: map<Id, seq<Id>>, failed: Id,
                  visited: seq<Id>, err: Failure)
    requires Marked(base, modules, visited, err)
    requires forall x :: x in visited <==> Affected(inverse, failed, x)
    ensures modules == MarkFailed(base, inverse, failed, err)
  {
    hide Affected;
  }

  lemma WithPlaceholderIs(modules: map<Id, Module>, m: Id)
    ensures m in modules ==> WithPlaceholder(modules, m) == modules
    ensures m !in modules ==> WithPlaceholder(modules, m) == modules[m := Module(Some([]), 0, false, None, false)]
  {
  }

  lemma {:induction false} PlaceholderIsSilent(visited: seq<Id>, modules: map<Id, Module>, failed: Id, err: Failure)
    ensures Notified(visited, WithPlaceholder(modules, failed), err) == Notified(visited, modules, err)
  {
    if visited != [] { PlaceholderIsSilent(visited[..|visited| - 1], modules, failed, err); }
  }

  lemma ReplacedIncomplete(modules: map<Id, Module>, m: Id, r: Module)
    requires m in modules && r.isComplete == modules[m].isComplete
    ensures Incomplete(modules[m := r]) == Incomplete(modules)
  {
  }

  lemma AddedAndRemoved(factories: set<Id>, m: Id)
    requires m !in factories
    ensures factories + {m} - {m} == factories
  {
  }

  lemma FramesBack(f: Frames, waiters: seq<Id>)
    ensures Owes(f.debts + multiset(waiters), waiters)
    ensures Unpaid(f.debts + multiset(waiters), waiters, |waiters|) == f.debts
  {
    assert waiters[..|waiters|] == waiters;
  }

  lemma SameIncomplete(modules: map<Id, Module>, m: Id)
    requires m in modules
    ensures Incomplete(Decremented(modules, m)) == Incomplete(modules)
  {
  }

  lemma FewerIncomplete(modules: map<Id, Module>, m: Id, r: Module)
    requires m in modules && r.isComplete
    ensures Incomplete(modules[m := r]) == Incomplete(modules) - {m}
    ensures !modules[m].isComplete ==> Incomplete(modules[m := r]) < Incomplete(modules)
  {
    assert !modules[m].isComplete ==> m in Incomplete(modules);
  }

  lemma RemoveAdded(cursor: map<Id, nat>, m: Id, n: nat)
    requires m !in cursor
    ensures cursor[m := n] - {m} == cursor
  {
  }

  lemma UpdateTwice(cursor: map<Id, nat>, m: Id, n: nat, k: nat)
    ensures cursor[m := n][m := k] == cursor[m := k]
  {
  }

  lemma RemoveUpdated(cursor: map<Id, nat>, m: Id, n: nat)
    ensures cursor[m := n] - {m} == cursor - {m}
  {
  }

  /** What is owed after the first i of the waiters have been counted down. */
  ghost function Unpaid(owed: multiset<Id>, waiters: seq<Id>, i: nat): multiset<Id>
    requires i <= |waiters|
  {
    owed - multiset(waiters[..i])
  }

  ghost predicate Owes(owed: multiset<Id>, waiters: seq<Id>) {
    multiset(waiters) <= owed
  }

  lemma UnpaidEnds(owed: multiset<Id>, waiters: seq<Id>)
    ensures Unpaid(owed, waiters, 0) == owed
    ensures Unpaid(owed, waiters, |waiters|) == owed - multiset(waiters)
  {
    assert waiters[..|waiters|] == waiters;
  }

  lemma StillOwed(owed: multiset<Id>, waiters: seq<Id>, i: nat)
    requires Owes(owed, waiters) && i < |waiters|
    ensures waiters[i] in Unpaid(owed, waiters, i)
    ensures Unpaid(owed, waiters, i) - multiset{waiters[i]} == Unpaid(owed, waiters, i + 1)
  {
    assert waiters[..i + 1] == waiters[..i] + [waiters[i]];
    assert waiters == waiters[..i + 1] + waiters[i + 1..];
  }

  lemma NotLive(s: State, m: Id)
    requires m !in s.cursor
    ensures m !in Live(s).loops
  {
  }

  lemma NotRunning(s: State, m: Id)
    requires m !in s.running
    ensures m !in Live(s).factories
  {
  }

  lemma StartsAt(s: State, m: Id)
    requires m in s.cursor && m !in s.stopped && s.cursor[m] == 0
    ensures Live(s) == Live(s).(loops := Live(s).loops[m := 0])
  {
    assert Live(s).loops == Live(s).loops[m := 0];
  }

  /** The dependency loop of m is in progress and has handled i entries. */
  lemma AtEntry(s: State, m: Id, i: nat)
    requires m in Live(s).loops && Live(s).loops[m] == i
    requires m in s.declared && i < |s.declared[m]| && m in s.modules
    ensures InLoop(s, m) && s.cursor[m] == i && Entry(s, m) == s.declared[m][i]
  {
  }

  lemma LiveDebt(s: State, x: Id)
    requires x in Live(s).debts
    ensures s.owed[x] > s.lost[x] && x in s.owed
  {
  }

  lemma NotGuardedBefore(s: State, m: Id)
    requires Inv(s) && Ready(s.modules, m)
    ensures m !in s.guarded && s.modules[m].error.None?
  {
    hide Queues, Bookkeeping, Waiting, RunsOnce, Ordered, Acyclic, CursorOk;
    assert RecordOk(s.modules[m], s.declared[m], m in s.started, m in s.running);
  }
}
