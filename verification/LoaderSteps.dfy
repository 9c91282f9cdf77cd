/** The module manager as a machine of atomic steps. Any step may follow any other whenever it
    is enabled, so a run covers every way in which factories and script loaders that call back
    into the manager can interleave with loops that are still in progress. */
module LoaderSteps {
  import opened Common
  import opened Graph
  import opened LoaderState

  datatype Step =
    | Define(id: Id, dependencies: seq<Dependency>, hasErrorback: bool)
    | Skip(id: Id)               // the current entry is special or complete
    | BreakCycle(id: Id)         // the current entry already leads back to the module
    | Record(id: Id)             // wait for the current entry
    | Ask(dependency: Id)        // hand a module to the script loader
    | DependencyFailed(id: Id)   // the current entry has an error: give up
    | EndLoop(id: Id)
    | StartFactory(id: Id)
    | EndFactory(id: Id, thrown: Option<nat>)
    | Notify(id: Id)             // one decrement of a completion loop
    | LoadFails(id: Id, reason: nat)
    | Configure(catchError: bool)
    | Escape(id: Id)             // the factory throws an exception and `complete` does not catch it
    | StopLoop(id: Id)           // such an exception passes through the dependency loop
    | LoseDebt(id: Id)           // such an exception passes through a completion loop

  /** Module id is inside its dependency loop with an entry left to handle. */
  ghost predicate InLoop(s: State, m: Id) {
    m in s.cursor && m !in s.stopped && m in s.declared && s.cursor[m] < |s.declared[m]| && m in s.modules
  }

  ghost function Entry(s: State, m: Id): Dependency
    requires InLoop(s, m)
  {
    s.declared[m][s.cursor[m]]
  }

  ghost function Next(s: State, m: Id): Id
    requires InLoop(s, m)
  {
    Entry(s, m).Target()
  }

  predicate Complete(modules: map<Id, Module>, d: Id) {
    d in modules && modules[d].isComplete
  }

  ghost predicate Enabled(s: State, a: Step) {
    match a
    case Define(m, _, _) => m !in s.modules
    case Skip(m) => InLoop(s, m) &&
      (Entry(s, m).Regular? ==> Complete(s.modules, Next(s, m)) && s.modules[Next(s, m)].error.None?)
    case BreakCycle(m) => InLoop(s, m) && Entry(s, m).Regular? && !Complete(s.modules, Next(s, m)) &&
      Reach(VisibleEdges(s.modules), Next(s, m), m)
    case Record(m) => InLoop(s, m) && Entry(s, m).Regular? && !Complete(s.modules, Next(s, m)) &&
      !Reach(VisibleEdges(s.modules), Next(s, m), m)
    case Ask(_) => true
    case DependencyFailed(m) => InLoop(s, m) && Entry(s, m).Regular? &&
      Complete(s.modules, Next(s, m)) && s.modules[Next(s, m)].error.Some?
    case EndLoop(m) => m in s.cursor && m !in s.stopped && m in s.declared && s.cursor[m] == |s.declared[m]|
    case StartFactory(m) => Ready(s.modules, m)
    case EndFactory(m, thrown) => Returns(s, m) && (thrown.Some? ==> m in s.guarded)
    case Notify(x) => s.owed[x] > s.lost[x] && x in s.modules
    case LoadFails(m, _) => m in s.known
    case Configure(_) => true
    case Escape(m) => m in s.running && m !in s.escaped && m !in s.guarded
    case StopLoop(m) => m in s.cursor && m !in s.stopped && s.escaped != {}
    case LoseDebt(x) => s.owed[x] > s.lost[x] && s.escaped != {}
  }

  /** The factory of m is being run. */
  ghost predicate Returns(s: State, m: Id) {
    m in s.running && m !in s.escaped && m in s.modules
  }

  /** All dependencies are accounted for and the factory has not started. */
  predicate Ready(modules: map<Id, Module>, m: Id) {
    m in modules && !modules[m].isComplete && modules[m].unresolvedDependenciesCount == 0
  }

  function Decremented(modules: map<Id, Module>, m: Id): (r: map<Id, Module>)
    requires m in modules
    ensures r.Keys == modules.Keys
  {
    modules[m := modules[m].(unresolvedDependenciesCount := modules[m].unresolvedDependenciesCount - 1)]
  }

  ghost function Apply(s: State, a: Step): State
    requires Enabled(s, a)
  {
    match a
    case Define(m, ds, eb) => Defined(s, m, ds, eb)
    case Skip(m) => Ticked(s, m)
    case BreakCycle(m) => Ticked(s, m).(hasCycle := true)
    case Record(m) => Recorded(s, m)
    case Ask(d) => s.(known := s.known + {d})
    case DependencyFailed(m) => GivenUp(s, m)
    case EndLoop(m) => s.(cursor := s.cursor - {m})
    case StartFactory(m) => FactoryStarted(s, m)
    case EndFactory(m, thrown) => FactoryEnded(s, m, thrown)
    case Notify(x) => CountedDown(s, x)
    case LoadFails(m, reason) => LoadFailed(s, m, reason)
    case Configure(c) => s.(catchError := c)
    case Escape(m) => s.(escaped := s.escaped + {m})
    case StopLoop(m) => s.(stopped := s.stopped + {m})
    case LoseDebt(x) => s.(lost := s.lost + multiset{x})
  }

  ghost function Defined(s: State, m: Id, ds: seq<Dependency>, eb: bool): State {
    s.(modules := s.modules[m := Module(Some(ds), |ds|, false, None, eb)],
       declared := s.declared[m := ds],
       cursor := s.cursor[m := 0])
  }

  /** Count one dependency less and move on to the next entry. */
  ghost function Ticked(s: State, m: Id): State
    requires InLoop(s, m)
  {
    s.(modules := Decremented(s.modules, m), cursor := s.cursor[m := s.cursor[m] + 1])
  }

  ghost function Recorded(s: State, m: Id): State
    requires InLoop(s, m)
  {
    s.(inverse := s.inverse[Next(s, m) := WaitersOf(s.inverse, Next(s, m)) + [m]],
       cursor := s.cursor[m := s.cursor[m] + 1])
  }

  ghost function GivenUp(s: State, m: Id): State
    requires Enabled(s, DependencyFailed(m))
  {
    s.(modules := s.modules[m := s.modules[m].OnDependencyError(s.modules[Next(s, m)].error.value)],
       cursor := s.cursor - {m})
  }

  ghost function FactoryStarted(s: State, m: Id): State
    requires m in s.modules
  {
    s.(modules := s.modules[m := s.modules[m].(isComplete := true)],
       started := s.started + {m},
       ran := s.ran + [m],
       running := s.running + {m},
       guarded := if s.catchError then s.guarded + {m} else s.guarded)
  }

  ghost function FactoryEnded(s: State, m: Id, thrown: Option<nat>): State
    requires m in s.modules
  {
    s.(modules := s.modules[m := Returned(s.modules[m], m, WaitersOf(s.inverse, m), thrown)],
       inverse := s.inverse - {m},
       owed := s.owed + multiset(WaitersOf(s.inverse, m)),
       running := s.running - {m})
  }

  ghost function CountedDown(s: State, x: Id): State
    requires x in s.modules
  {
    s.(modules := Decremented(s.modules, x), owed := s.owed - multiset{x})
  }

  ghost function LoadFailed(s: State, m: Id, reason: nat): State {
    s.(modules := MarkFailed(WithPlaceholder(s.modules, m), s.inverse, m, LoadFailure(s.inverse, m, reason)),
       declared := if m in s.declared then s.declared else s.declared[m := []])
  }

  /** The record once its factory has returned, or thrown. */
  function Returned(r: Module, m: Id, waiters: seq<Id>, thrown: Option<nat>): (r': Module)
    ensures r'.isComplete == r.isComplete && Outlives(r, r')
  {
    var error := if thrown.Some? then Some(Failure(Factory, m, waiters, thrown.value)) else r.error;
    r.(dependencies := None, hasErrorback := false, error := error)
  }

  function LoadFailure(inverse: map<Id, seq<Id>>, m: Id, reason: nat): Failure {
    Failure(Loading, m, WaitersOf(inverse, m), reason)
  }

  /** A module whose script failed is given an empty record if it has none. */
  function WithPlaceholder(modules: map<Id, Module>, m: Id): map<Id, Module> {
    if m in modules then modules else modules[m := Module(Some([]), 0, false, None, false)]
  }

  /** The failed module and everything that waits for it, directly or not. */
  ghost predicate Affected(inverse: map<Id, seq<Id>>, failed: Id, m: Id) {
    m == failed || Reach(WaitEdges(inverse), m, failed)
  }

  ghost function MarkFailed(modules: map<Id, Module>, inverse: map<Id, seq<Id>>, failed: Id,
                            err: Failure): map<Id, Module> {
    map m | m in modules :: if Affected(inverse, failed, m) then modules[m].OnDependencyError(err) else modules[m]
  }

  // ------------------------------------------------------------------ every step keeps the invariant

  /** Errors are never taken back. */
  lemma ErrorFreeBefore(m: map<Id, Module>, m': map<Id, Module>)
    requires ErrorFree(m')
    requires forall x :: x in m ==> x in m' && (m[x].error.Some? ==> m'[x].error.Some?)
    ensures ErrorFree(m)
  {
  }

  lemma DefineKeepsQueues(s: State, m: Id, ds: seq<Dependency>)
    requires Queues(s.declared, s.inverse, s.started, s.running) && m !in s.declared
    requires Debts(s.declared, s.owed, s.started)
    ensures Queues(s.declared[m := ds], s.inverse, s.started, s.running)
    ensures Debts(s.declared[m := ds], s.owed, s.started)
  {
    forall d, x | d in s.inverse && x in s.inverse[d]
      ensures Waits(s.declared[m := ds], s.started, s.running, d, x)
    {
      assert Waits(s.declared, s.started, s.running, d, x);
    }
  }

  lemma DefineKeepsRecords(s: State, m: Id, ds: seq<Dependency>, eb: bool)
    requires Records(s.modules, s.declared, s.started, s.running) && m !in s.modules
    requires Started(s.declared, s.cursor, s.started, s.running) && CursorOk(s.declared, s.cursor)
    ensures var s' := Defined(s, m, ds, eb);
      && Records(s'.modules, s'.declared, s.started, s.running)
      && Started(s'.declared, s'.cursor, s.started, s.running) && CursorOk(s'.declared, s'.cursor)
  {
  }

  lemma DefineKeepsBookkeeping(s: State, m: Id, ds: seq<Dependency>, eb: bool)
    requires Queues(s.declared, s.inverse, s.started, s.running) && m !in s.modules && m !in s.declared
    requires Debts(s.declared, s.owed, s.started)
    requires Bookkeeping(s.modules, s.declared, s.cursor, Waiting(s.inverse), s.owed)
    ensures var s' := Defined(s, m, ds, eb);
      Bookkeeping(s'.modules, s'.declared, s'.cursor, Waiting(s.inverse), s.owed)
  {
    WaitingMember(s.inverse, m);
  }

  lemma DefineKeepsOrdered(s: State, m: Id, ds: seq<Dependency>, eb: bool)
    requires Ordered(s) && m !in s.declared && RunsOnce(s.started, s.ran) && s.started <= s.declared.Keys
    ensures Ordered(Defined(s, m, ds, eb))
  {
    var s' := Defined(s, m, ds, eb);
    AcyclicSubset(HandledEdges(s'.declared, s'.cursor), HandledEdges(s.declared, s.cursor));
  }

  lemma MoreLists(declared: Lists, m: Id, ds: seq<Dependency>)
    requires m !in declared && HasCycle(DeclaredEdges(declared))
    ensures HasCycle(DeclaredEdges(declared[m := ds]))
  {
    hide HasCycle;
    var e := DeclaredEdges(declared[m := ds]);
    forall a, d | a in declared && d in declared[a] ensures (a, d.Target()) in e {
      assert d in declared[m := ds][a];
    }
    CycleMonotone(DeclaredEdges(declared), e);
  }

  lemma DefineKeepsInv(s: State, m: Id, ds: seq<Dependency>, eb: bool)
    requires Inv(s) && m !in s.modules
    ensures Inv(Defined(s, m, ds, eb))
  {
    hide Queues, Debts, Bookkeeping, RecordOk, RunsOnce, CursorOk, Ordered, Waiting, Acyclic, HasCycle;
    var s' := Defined(s, m, ds, eb);
    DefineKeepsRecords(s, m, ds, eb);
    DefineKeepsQueues(s, m, ds);
    DefineKeepsBookkeeping(s, m, ds, eb);
    if s.hasCycle { MoreLists(s.declared, m, ds); }
    if ErrorFree(s'.modules) && !s'.hasCycle {
      ErrorFreeBefore(s.modules, s'.modules);
      DefineKeepsOrdered(s, m, ds, eb);
    }
  }

  /** One record changes, and with it whether its own factory has started and is running. */
  lemma UpdateRecord(s: State, m: Id, r: Module, started: set<Id>, running: set<Id>)
    requires Records(s.modules, s.declared, s.started, s.running) && m in s.modules
    requires started - {m} == s.started - {m} && running - {m} == s.running - {m}
    requires RecordOk(r, s.declared[m], m in started, m in running)
    ensures Records(s.modules[m := r], s.declared, started, running)
  {
    forall x | x in s.modules && x != m ensures RecordOk(s.modules[x], s.declared[x], x in started, x in running) {
      assert x in started <==> x in started - {m};
      assert x in running <==> x in running - {m};
      assert RecordOk(s.modules[x], s.declared[x], x in s.started, x in s.running);
    }
  }

  /** One record changes and the others have as much outstanding as before. */
  lemma UpdateBookkeeping(s: State, m: Id, r: Module, cursor: map<Id, nat>, inverse: map<Id, seq<Id>>,
                          owed: multiset<Id>)
    requires Bookkeeping(s.modules, s.declared, s.cursor, Waiting(s.inverse), s.owed)
    requires m in s.modules && m in s.declared
    requires forall x :: x in s.declared && x != m ==>
      Outstanding(Waiting(inverse), owed, s.declared, cursor, x) ==
      Outstanding(Waiting(s.inverse), s.owed, s.declared, s.cursor, x)
    requires !r.isComplete ==>
      r.unresolvedDependenciesCount == Outstanding(Waiting(inverse), owed, s.declared, cursor, m)
    ensures Bookkeeping(s.modules[m := r], s.declared, cursor, Waiting(inverse), owed)
  {
    hide Waiting, Outstanding;
  }

  lemma AdvanceCursor(s: State, m: Id)
    requires CursorOk(s.declared, s.cursor) && Started(s.declared, s.cursor, s.started, s.running) && InLoop(s, m)
    ensures m !in s.started
    ensures CursorOk(s.declared, s.cursor[m := s.cursor[m] + 1])
    ensures Started(s.declared, s.cursor[m := s.cursor[m] + 1], s.started, s.running)
  {
  }

  lemma TickKeepsCore(s: State, m: Id)
    requires Core(s) && InLoop(s, m)
    ensures Core(Ticked(s, m))
  {
    hide Queues, Debts, RunsOnce, CursorOk, Started, Bookkeeping, Waiting;
    AdvanceCursor(s, m);
    var s' := Ticked(s, m);
    var r := s'.modules[m];
    assert RecordOk(s.modules[m], s.declared[m], m in s.started, m in s.running);
    UpdateRecord(s, m, r, s.started, s.running);
    if !r.isComplete { BookkeepingAt(s, m); }
    UpdateBookkeeping(s, m, r, s'.cursor, s.inverse, s.owed);
  }

  lemma BookkeepingAt(s: State, m: Id)
    requires Bookkeeping(s.modules, s.declared, s.cursor, Waiting(s.inverse), s.owed)
    requires m in s.modules && m in s.declared && !s.modules[m].isComplete
    ensures s.modules[m].unresolvedDependenciesCount == Outstanding(Waiting(s.inverse), s.owed, s.declared, s.cursor, m)
  {
  }

  /** Handled edges never lead from a module whose factory has started to one whose has not. */
  lemma StartedIsClosed(s: State, a: Id, b: Id)
    requires Ordered(s) && RunsOnce(s.started, s.ran)
    requires Reach(HandledEdges(s.declared, s.cursor), a, b) && a in s.started
    ensures b in s.started
  {
    hide Accounted, Acyclic;
    var e := HandledEdges(s.declared, s.cursor);
    var p :| IsPath(e, a, b, p);
    forall x, y | (x, y) in e && x in s.started ensures y in s.started {
      var k :| 0 <= k < |s.ran| && s.ran[k] == x;
      assert y in s.ran[..k];
    }
    ClosedWalk(e, s.started, p);
  }

  /** Handling one more entry adds its edge, unless it is special. */
  lemma HandleOneMore(s: State, m: Id)
    requires InLoop(s, m)
    ensures HandledEdges(s.declared, s.cursor[m := s.cursor[m] + 1]) <=
      HandledEdges(s.declared, s.cursor) + (if Entry(s, m).Regular? then {(m, Next(s, m))} else {})
  {
    var cursor' := s.cursor[m := s.cursor[m] + 1];
    forall x, i | x in s.declared && 0 <= i < |s.declared[x]| &&
                  i < Handled(s.declared, cursor', x) && s.declared[x][i].Regular?
      ensures (x, s.declared[x][i].to) in HandledEdges(s.declared, s.cursor) + {(m, Next(s, m))}
      ensures !Entry(s, m).Regular? ==> (x, s.declared[x][i].to) in HandledEdges(s.declared, s.cursor)
    {
      if x != m || i != s.cursor[m] { assert i < Handled(s.declared, s.cursor, x); }
    }
  }

  lemma AccountOneMore(s: State, m: Id, inverse: map<Id, seq<Id>>)
    requires Accounted(s.declared, s.cursor, s.inverse, s.started) && InLoop(s, m)
    requires forall d, x :: x in WaitersOf(s.inverse, d) ==> x in WaitersOf(inverse, d)
    requires Entry(s, m).Regular? ==> Next(s, m) in s.started || m in WaitersOf(inverse, Next(s, m))
    ensures Accounted(s.declared, s.cursor[m := s.cursor[m] + 1], inverse, s.started)
  {
    var cursor' := s.cursor[m := s.cursor[m] + 1];
    forall x, i | x in s.declared && 0 <= i < |s.declared[x]| &&
                  i < Handled(s.declared, cursor', x) && s.declared[x][i].Regular?
      ensures s.declared[x][i].to in s.started || x in WaitersOf(inverse, s.declared[x][i].to)
    {
      if x != m || i != s.cursor[m] { assert i < Handled(s.declared, s.cursor, x); }
    }
  }

  lemma SkipKeepsOrdered(s: State, m: Id)
    requires Core(s) && Ordered(s) && ErrorFree(s.modules) && Enabled(s, Skip(m))
    ensures Ordered(Ticked(s, m))
  {
    hide Queues, Debts, RunsOnce, Bookkeeping, Waiting, Accounted, Topological, Acyclic, Handled, HandledEdges;
    var d := Next(s, m);
    var e := HandledEdges(s.declared, s.cursor);
    HandleOneMore(s, m);
    AdvanceCursor(s, m);
    if !Entry(s, m).Regular? {
      AcyclicSubset(HandledEdges(s.declared, s.cursor[m := s.cursor[m] + 1]), e);
    } else {
      assert RecordOk(s.modules[d], s.declared[d], d in s.started, d in s.running);
      if Reach(e, d, m) { StartedIsClosed(s, d, m); }
      AddEdge(e, m, d);
      AcyclicSubset(HandledEdges(s.declared, s.cursor[m := s.cursor[m] + 1]), e + {(m, d)});
    }
    AccountOneMore(s, m, s.inverse);
  }

  lemma SkipKeepsInv(s: State, m: Id)
    requires Inv(s) && Enabled(s, Skip(m))
    ensures Inv(Ticked(s, m))
  {
    hide Core, Ordered, Acyclic;
    var s' := Ticked(s, m);
    TickKeepsCore(s, m);
    if ErrorFree(s'.modules) && !s'.hasCycle {
      ErrorFreeBefore(s.modules, s'.modules);
      SkipKeepsOrdered(s, m);
    }
  }

  lemma CycleFound(s: State, m: Id)
    requires Records(s.modules, s.declared, s.started, s.running) && Enabled(s, BreakCycle(m))
    ensures HasCycle(DeclaredEdges(s.declared))
  {
    var d := Next(s, m);
    var e := DeclaredEdges(s.declared);
    forall a, b | (a, b) in VisibleEdges(s.modules) ensures (a, b) in e {
      assert RecordOk(s.modules[a], s.declared[a], a in s.started, a in s.running);
    }
    ReachMonotone(VisibleEdges(s.modules), e, d, m);
    EdgeReach(e, m, d);
    ReachTransitive(e, m, d, m);
  }

  lemma BreakCycleKeepsInv(s: State, m: Id)
    requires Inv(s) && Enabled(s, BreakCycle(m))
    ensures Inv(Ticked(s, m).(hasCycle := true))
  {
    hide Queues, Debts, RunsOnce, CursorOk, Started, Bookkeeping, Waiting, Acyclic, Ordered, Records;
    TickKeepsCore(s, m);
    CycleFound(s, m);
  }

  lemma EdgesOnRecord(s: State, m: Id)
    requires InLoop(s, m)
    ensures WaitEdges(Recorded(s, m).inverse) <= WaitEdges(s.inverse) + {(m, Next(s, m))}
  {
  }

  /** A module whose factory has not returned shows all its entries to the searches. */
  lemma EntryVisible(s: State, m: Id, entry: Dependency)
    requires Records(s.modules, s.declared, s.started, s.running)
    requires m in s.declared && entry in s.declared[m] && (m in s.started ==> m in s.running)
    ensures (m, entry.Target()) in VisibleEdges(s.modules)
  {
    assert RecordOk(s.modules[m], s.declared[m], m in s.started, m in s.running);
  }

  /** Recording a waiter cannot close a cycle of waits: the search would have seen it. */
  lemma RecordKeepsWaitsAcyclic(s: State, m: Id)
    requires Records(s.modules, s.declared, s.started, s.running)
    requires Queues(s.declared, s.inverse, s.started, s.running)
    requires Acyclic(WaitEdges(s.inverse)) && Enabled(s, Record(m)) && m !in s.started
    ensures Acyclic(WaitEdges(Recorded(s, m).inverse))
  {
    hide Acyclic, Reach;
    var d, e, v := Next(s, m), WaitEdges(s.inverse), VisibleEdges(s.modules);
    forall a, b | (a, b) in e ensures (a, b) in v { EntryVisible(s, a, Regular(b)); }
    if Reach(e, d, m) { ReachMonotone(e, v, d, m); }
    if m == d { SelfEdgeVisible(s, m); }
    AddEdge(e, m, d);
    EdgesOnRecord(s, m);
    AcyclicSubset(WaitEdges(Recorded(s, m).inverse), e + {(m, d)});
  }

  lemma SelfEdgeVisible(s: State, m: Id)
    requires Records(s.modules, s.declared, s.started, s.running)
    requires InLoop(s, m) && Next(s, m) == m && m !in s.started
    ensures Reach(VisibleEdges(s.modules), m, m)
  {
    EntryVisible(s, m, Entry(s, m));
    EdgeReach(VisibleEdges(s.modules), m, m);
  }

  lemma RecordKeepsQueues(s: State, m: Id)
    requires Queues(s.declared, s.inverse, s.started, s.running) && InLoop(s, m)
    requires m !in s.started && Entry(s, m).Regular? && Next(s, m) !in s.started
    ensures Queues(s.declared, Recorded(s, m).inverse, s.started, s.running)
  {
    var inverse := Recorded(s, m).inverse;
    forall d, x | d in inverse && x in inverse[d]
      ensures Waits(s.declared, s.started, s.running, d, x)
    {
      if d == Next(s, m) && x == m {
        assert Regular(d) == Entry(s, m);
      } else {
        assert d in s.inverse && x in s.inverse[d];
      }
    }
  }

  lemma IncompleteHasNotStarted(s: State, d: Id)
    requires Records(s.modules, s.declared, s.started, s.running)
    requires Started(s.declared, s.cursor, s.started, s.running) && !Complete(s.modules, d)
    ensures d !in s.started
  {
  }

  lemma RecordKeepsCore(s: State, m: Id)
    requires Core(s) && Enabled(s, Record(m))
    ensures Core(Recorded(s, m))
  {
    hide Queues, Debts, RunsOnce, CursorOk, Started, Bookkeeping, Waiting, Reach;
    var d, s' := Next(s, m), Recorded(s, m);
    AdvanceCursor(s, m);
    IncompleteHasNotStarted(s, d);
    RecordKeepsQueues(s, m);
    WaitingPush(s.inverse, d, m);
    var r := s.modules[m];
    if !r.isComplete { BookkeepingAt(s, m); }
    UpdateBookkeeping(s, m, r, s'.cursor, s'.inverse, s.owed);
    assert s.modules[m := r] == s.modules;
  }

  /** While factories have started in order, a handled path to a module whose factory has not
      started runs through modules that still hold their lists, so the search can see it. */
  lemma HandledPathVisible(s: State, d: Id, m: Id)
    requires Records(s.modules, s.declared, s.started, s.running) && RunsOnce(s.started, s.ran)
    requires Ordered(s) && ErrorFree(s.modules)
    requires Reach(HandledEdges(s.declared, s.cursor), d, m) && m !in s.started
    ensures Reach(VisibleEdges(s.modules), d, m)
  {
    hide Accounted, Topological, Acyclic, RunsOnce;
    var e, v := HandledEdges(s.declared, s.cursor), VisibleEdges(s.modules);
    var p :| IsPath(e, d, m, p);
    forall i | 0 <= i < |p| - 1 ensures (p[i], p[i + 1]) in v {
      assert (p[i], p[i + 1]) in e;
      PathSuffix(e, d, m, p, i);
      if p[i] in s.started { StartedIsClosed(s, p[i], m); }
      EntryVisible(s, p[i], Regular(p[i + 1]));
    }
    assert IsPath(v, d, m, p);
  }

  lemma PathSuffix(e: Edges, a: Id, b: Id, p: seq<Id>, i: nat)
    requires IsPath(e, a, b, p) && i < |p| - 1
    ensures Reach(e, p[i], b)
  {
    assert IsPath(e, p[i], b, p[i..]);
  }

  lemma RecordKeepsOrdered(s: State, m: Id)
    requires Core(s) && Ordered(s) && ErrorFree(s.modules) && Enabled(s, Record(m))
    ensures Ordered(Recorded(s, m))
  {
    hide Queues, Debts, RunsOnce, Bookkeeping, Waiting, Accounted, Topological, Acyclic, Handled, HandledEdges, Reach;
    var d := Next(s, m);
    var e := HandledEdges(s.declared, s.cursor);
    HandleOneMore(s, m);
    AdvanceCursor(s, m);
    if Reach(e, d, m) { HandledPathVisible(s, d, m); }
    if m == d { SelfEdgeVisible(s, m); }
    AddEdge(e, m, d);
    AcyclicSubset(HandledEdges(s.declared, s.cursor[m := s.cursor[m] + 1]), e + {(m, d)});
    AccountOneMore(s, m, Recorded(s, m).inverse);
  }

  lemma RecordKeepsInv(s: State, m: Id)
    requires Inv(s) && Enabled(s, Record(m))
    ensures Inv(Recorded(s, m))
  {
    hide Queues, Debts, RunsOnce, CursorOk, Records, Bookkeeping, Waiting, Ordered, Acyclic, Reach;
    AdvanceCursor(s, m);
    RecordKeepsCore(s, m);
    RecordKeepsWaitsAcyclic(s, m);
    if ErrorFree(s.modules) && !s.hasCycle { RecordKeepsOrdered(s, m); }
  }

  lemma DependencyFailedKeepsInv(s: State, m: Id)
    requires Inv(s) && Enabled(s, DependencyFailed(m))
    ensures Inv(GivenUp(s, m))
  {
    GiveUpKeepsCore(s, m);
    hide Core, Ordered, Acyclic, HasCycle;
    assert !ErrorFree(GivenUp(s, m).modules) by { assert GivenUp(s, m).modules[m].error.Some?; }
  }

  lemma GiveUpKeepsCore(s: State, m: Id)
    requires Core(s) && Enabled(s, DependencyFailed(m))
    ensures Core(GivenUp(s, m))
  {
    hide Queues, Debts, RunsOnce, Bookkeeping, Waiting;
    var s' := GivenUp(s, m);
    var r := s'.modules[m];
    AdvanceCursor(s, m);
    assert RecordOk(s.modules[m], s.declared[m], m in s.started, m in s.running);
    UpdateRecord(s, m, r, s.started, s.running);
    UpdateBookkeeping(s, m, r, s'.cursor, s.inverse, s.owed);
  }

  lemma SameHandled(declared: Lists, cursor: map<Id, nat>, cursor': map<Id, nat>)
    requires forall x :: x in declared ==> Handled(declared, cursor', x) == Handled(declared, cursor, x)
    ensures HandledEdges(declared, cursor') == HandledEdges(declared, cursor)
  {
  }

  lemma EndLoopKeepsInv(s: State, m: Id)
    requires Inv(s) && Enabled(s, EndLoop(m))
    ensures Inv(s.(cursor := s.cursor - {m}))
  {
    hide Queues, Debts, RunsOnce, Waiting, Acyclic, HandledEdges, Topological, RecordOk;
    SameHandled(s.declared, s.cursor, s.cursor - {m});
  }

  /** A module that is ready has handled all its entries and is waited for by no counter. */
  lemma NothingPending(s: State, m: Id)
    requires Core(s) && Ready(s.modules, m)
    ensures m in s.declared && Handled(s.declared, s.cursor, m) == |s.declared[m]| && m !in s.owed && m !in s.started
    ensures forall d :: m !in WaitersOf(s.inverse, d)
  {
    hide Queues, Debts, RunsOnce;
    BookkeepingAt(s, m);
    assert RecordOk(s.modules[m], s.declared[m], m in s.started, m in s.running);
    WaitingMember(s.inverse, m);
  }

  lemma StartKeepsQueues(s: State, m: Id)
    requires Queues(s.declared, s.inverse, s.started, s.running) && Debts(s.declared, s.owed, s.started)
    requires m !in s.owed && forall d :: m !in WaitersOf(s.inverse, d)
    ensures Queues(s.declared, s.inverse, s.started + {m}, s.running + {m})
    ensures Debts(s.declared, s.owed, s.started + {m})
  {
    forall d, x | d in s.inverse && x in s.inverse[d]
      ensures Waits(s.declared, s.started + {m}, s.running + {m}, d, x)
    {
      assert m !in WaitersOf(s.inverse, d);
      assert Waits(s.declared, s.started, s.running, d, x);
    }
  }

  lemma StartRunsOnce(s: State, m: Id)
    requires RunsOnce(s.started, s.ran) && m !in s.started
    ensures RunsOnce(s.started + {m}, s.ran + [m])
  {
  }

  lemma StartFactoryKeepsCore(s: State, m: Id)
    requires Core(s) && Ready(s.modules, m)
    ensures Core(FactoryStarted(s, m))
  {
    hide Queues, Debts, RunsOnce, Bookkeeping, Waiting;
    var s' := FactoryStarted(s, m);
    NothingPending(s, m);
    StartKeepsQueues(s, m);
    StartRunsOnce(s, m);
    assert RecordOk(s.modules[m], s.declared[m], m in s.started, m in s.running);
    UpdateRecord(s, m, s'.modules[m], s'.started, s'.running);
    UpdateBookkeeping(s, m, s'.modules[m], s.cursor, s.inverse, s.owed);
  }

  lemma StartFactoryKeepsOrdered(s: State, m: Id)
    requires Core(s) && Ordered(s) && Ready(s.modules, m)
    ensures Ordered(FactoryStarted(s, m))
  {
    hide Queues, Debts, Records, Bookkeeping, Acyclic, HandledEdges;
    var s' := FactoryStarted(s, m);
    NothingPending(s, m);
    forall d | Regular(d) in s.declared[m] ensures d in s.ran {
      var i :| 0 <= i < |s.declared[m]| && s.declared[m][i] == Regular(d);
      assert m !in WaitersOf(s.inverse, d);
    }
    forall k, d | 0 <= k < |s'.ran| && s'.ran[k] in s.declared && Regular(d) in s.declared[s'.ran[k]]
      ensures d in s'.ran[..k]
    {
      assert s'.ran[..k] == s.ran[..k];
      if k == |s.ran| { assert s.ran[..k] == s.ran; } else { assert d in s.ran[..k]; }
    }
  }

  lemma StartKeepsAbandoned(s: State, m: Id)
    requires Core(s) && Abandoned(s) && Ready(s.modules, m)
    ensures Abandoned(FactoryStarted(s, m))
  {
    hide Queues, Debts, Bookkeeping, Waiting, RunsOnce, CursorOk;
    NothingPending(s, m);
  }

  lemma StartFactoryKeepsInv(s: State, m: Id)
    requires Inv(s) && Ready(s.modules, m)
    ensures Inv(FactoryStarted(s, m))
  {
    StartKeepsAbandoned(s, m);
    hide Core, Ordered, Acyclic, Abandoned;
    var s' := FactoryStarted(s, m);
    StartFactoryKeepsCore(s, m);
    if ErrorFree(s'.modules) && !s'.hasCycle {
      ErrorFreeBefore(s.modules, s'.modules);
      StartFactoryKeepsOrdered(s, m);
    }
  }

  lemma EndKeepsQueues(s: State, m: Id)
    requires Queues(s.declared, s.inverse, s.started, s.running) && Debts(s.declared, s.owed, s.started)
    ensures Queues(s.declared, s.inverse - {m}, s.started, s.running - {m})
    ensures Debts(s.declared, s.owed + multiset(WaitersOf(s.inverse, m)), s.started)
  {
    forall d, x | d in s.inverse - {m} && x in (s.inverse - {m})[d]
      ensures Waits(s.declared, s.started, s.running - {m}, d, x)
    {
      assert d in s.inverse && x in s.inverse[d];
      assert Waits(s.declared, s.started, s.running, d, x);
    }
    forall x | x in s.owed + multiset(WaitersOf(s.inverse, m)) ensures x in s.declared && x !in s.started {
      if x !in s.owed { assert m in s.inverse && x in s.inverse[m]; }
    }
  }

  lemma FetchWaiters(inverse: map<Id, seq<Id>>, m: Id)
    ensures Waiting(inverse) == multiset(WaitersOf(inverse, m)) + Waiting(inverse - {m})
  {
    hide Waiting;
    if m in inverse { WaitingSplit(inverse, m); } else { assert inverse - {m} == inverse; }
  }

  lemma EndFactoryKeepsCore(s: State, m: Id, thrown: Option<nat>)
    requires Core(s) && m in s.running && m in s.modules
    ensures Core(FactoryEnded(s, m, thrown))
  {
    hide Queues, Debts, RunsOnce, Bookkeeping, Waiting;
    var s' := FactoryEnded(s, m, thrown);
    EndKeepsQueues(s, m);
    FetchWaiters(s.inverse, m);
    assert RecordOk(s.modules[m], s.declared[m], m in s.started, m in s.running);
    UpdateRecord(s, m, s'.modules[m], s'.started, s'.running);
    UpdateBookkeeping(s, m, s'.modules[m], s.cursor, s'.inverse, s'.owed);
  }

  lemma EndFactoryKeepsInv(s: State, m: Id, thrown: Option<nat>)
    requires Inv(s) && Returns(s, m)
    ensures Inv(FactoryEnded(s, m, thrown))
  {
    hide Queues, Debts, RunsOnce, Bookkeeping, Waiting, Records, Acyclic, Topological, HandledEdges, CursorOk;
    var s' := FactoryEnded(s, m, thrown);
    EndFactoryKeepsCore(s, m, thrown);
    AcyclicSubset(WaitEdges(s'.inverse), WaitEdges(s.inverse));
    if ErrorFree(s'.modules) && !s'.hasCycle { ErrorFreeBefore(s.modules, s'.modules); }
  }

  lemma NotifyKeepsCore(s: State, x: Id)
    requires Core(s) && x in s.owed && x in s.modules
    ensures Core(CountedDown(s, x))
  {
    hide Queues, RunsOnce, Bookkeeping, Waiting, CursorOk, Started;
    var s' := CountedDown(s, x);
    assert RecordOk(s.modules[x], s.declared[x], x in s.started, x in s.running);
    UpdateRecord(s, x, s'.modules[x], s.started, s.running);
    if !s.modules[x].isComplete { BookkeepingAt(s, x); }
    UpdateBookkeeping(s, x, s'.modules[x], s.cursor, s.inverse, s'.owed);
  }

  lemma NotifyKeepsInv(s: State, x: Id)
    requires Inv(s) && s.owed[x] > s.lost[x] && x in s.modules
    ensures Inv(CountedDown(s, x))
  {
    hide Core, Accounted, Topological, HandledEdges, Acyclic, WaitEdges, DeclaredEdges;
    NotifyKeepsCore(s, x);
    var s' := CountedDown(s, x);
    if ErrorFree(s'.modules) && !s'.hasCycle { ErrorFreeBefore(s.modules, s'.modules); }
  }

  /** Apart from the failed module itself, only modules whose factory has not started are affected. */
  lemma AffectedHasNotStarted(s: State, failed: Id, m: Id)
    requires Queues(s.declared, s.inverse, s.started, s.running)
    requires Affected(s.inverse, failed, m) && m != failed
    ensures m in s.declared && m !in s.started
  {
    var p :| IsPath(WaitEdges(s.inverse), m, failed, p);
    assert (p[0], p[0 + 1]) in WaitEdges(s.inverse);
  }

  lemma LoadFailsKeepsRecords(s: State, m: Id, reason: nat)
    requires Records(s.modules, s.declared, s.started, s.running) && Started(s.declared, s.cursor, s.started, s.running)
    ensures var s' := LoadFailed(s, m, reason); Records(s'.modules, s'.declared, s.started, s.running)
  {
    hide Affected;
    var s' := LoadFailed(s, m, reason);
    forall x | x in s'.modules ensures RecordOk(s'.modules[x], s'.declared[x], x in s.started, x in s.running) {
      if x in s.modules { assert RecordOk(s.modules[x], s.declared[x], x in s.started, x in s.running); }
      else { assert Affected(s.inverse, m, m) by { AffectsItself(s.inverse, m); } }
    }
  }

  lemma AffectsItself(inverse: map<Id, seq<Id>>, m: Id)
    ensures Affected(inverse, m, m)
  {
  }

  lemma LoadFailsKeepsBookkeeping(s: State, m: Id, reason: nat)
    requires Bookkeeping(s.modules, s.declared, s.cursor, Waiting(s.inverse), s.owed)
    requires Records(s.modules, s.declared, s.started, s.running) && CursorOk(s.declared, s.cursor)
    ensures var s' := LoadFailed(s, m, reason);
      Bookkeeping(s'.modules, s'.declared, s.cursor, Waiting(s.inverse), s.owed)
  {
    hide Affected, Waiting;
    AffectsItself(s.inverse, m);
  }

  lemma LoadFailsKeepsInv(s: State, m: Id, reason: nat)
    requires Inv(s)
    ensures Inv(LoadFailed(s, m, reason))
    ensures !ErrorFree(LoadFailed(s, m, reason).modules)
  {
    hide Queues, Debts, Bookkeeping, Waiting, Records, Ordered, Acyclic, RunsOnce, HasCycle, ErrorFree, MarkFailed,
         Started, CursorOk;
    var s' := LoadFailed(s, m, reason);
    LoadFailsKeepsRecords(s, m, reason);
    LoadFailsKeepsBookkeeping(s, m, reason);
    LoadFailsKeepsLoops(s, m);
    if m !in s.declared { DefineKeepsQueues(s, m, []); }
    if s.hasCycle && m !in s.declared { MoreLists(s.declared, m, []); }
    NotErrorFree(s, m, reason);
  }

  lemma LoadFailsKeepsLoops(s: State, m: Id)
    requires Started(s.declared, s.cursor, s.started, s.running) && CursorOk(s.declared, s.cursor)
    ensures var declared' := if m in s.declared then s.declared else s.declared[m := []];
      Started(declared', s.cursor, s.started, s.running) && CursorOk(declared', s.cursor)
  {
  }

  lemma NotErrorFree(s: State, m: Id, reason: nat)
    ensures !ErrorFree(LoadFailed(s, m, reason).modules)
  {
    hide Affected;
    AffectsItself(s.inverse, m);
    assert LoadFailed(s, m, reason).modules[m].error.Some?;
  }

  lemma AskKeepsInv(s: State, d: Id)
    requires Inv(s)
    ensures Inv(s.(known := s.known + {d}))
  {
    hide Queues, Debts, Bookkeeping, Waiting, Records, Acyclic, RunsOnce, Started, CursorOk, Accounted, Topological;
  }

  lemma StepKeepsInv(s: State, a: Step)
    requires Inv(s) && Enabled(s, a)
    ensures Inv(Apply(s, a))
  {
    hide Inv, Reach, VisibleEdges;
    match a
    case Define(m, ds, eb) => DefineKeepsInv(s, m, ds, eb);
    case Skip(m) => SkipKeepsInv(s, m);
    case BreakCycle(m) => BreakCycleKeepsInv(s, m);
    case Record(m) => RecordKeepsInv(s, m);
    case Ask(d) => AskKeepsInv(s, d);
    case DependencyFailed(m) => DependencyFailedKeepsInv(s, m);
    case EndLoop(m) => EndLoopKeepsInv(s, m);
    case StartFactory(m) => StartFactoryKeepsInv(s, m);
    case EndFactory(m, thrown) => EndFactoryKeepsInv(s, m, thrown);
    case Notify(x) => NotifyKeepsInv(s, x);
    case LoadFails(m, reason) => LoadFailsKeepsInv(s, m, reason);
    case Configure(c) => ConfigureKeepsInv(s, c);
    case Escape(m) => EscapeKeepsInv(s, m);
    case StopLoop(m) => EscapeGoesOn(s, a);
    case LoseDebt(x) => EscapeGoesOn(s, a);
  }

  lemma SameFieldsKeepsInv(s: State, s': State)
    requires Inv(s) && Abandoned(s')
    requires s' == s.(catchError := s'.catchError, escaped := s'.escaped, stopped := s'.stopped, lost := s'.lost)
    ensures Inv(s')
  {
    hide Queues, Debts, Bookkeeping, Waiting, Records, Acyclic, RunsOnce, Started, CursorOk, Accounted, Topological,
         Abandoned;
  }

  lemma ConfigureKeepsInv(s: State, c: bool)
    requires Inv(s)
    ensures Inv(s.(catchError := c))
  {
    hide Core, Ordered, Acyclic, HasCycle;
    assert Abandoned(s.(catchError := c));
    hide Inv, Abandoned;
    SameFieldsKeepsInv(s, s.(catchError := c));
  }

  /** An exception that is not caught changes no record, counter or list: all it does is to leave calls
      unfinished, and what they have not done stays on the books. */
  lemma EscapeKeepsInv(s: State, m: Id)
    requires Inv(s) && Enabled(s, Escape(m))
    ensures Inv(Apply(s, Escape(m)))
  {
    hide Core, Ordered, Acyclic, HasCycle;
    EscapeKeepsAbandoned(s, Escape(m));
    hide Inv, Abandoned;
    SameFieldsKeepsInv(s, Apply(s, Escape(m)));
  }

  lemma EscapeKeepsAbandoned(s: State, a: Step)
    requires Abandoned(s) && Enabled(s, a) && (a.Escape? || a.StopLoop? || a.LoseDebt?)
    ensures Abandoned(Apply(s, a))
  {
    hide Reach, VisibleEdges, Affected;
  }

  lemma EscapeGoesOn(s: State, a: Step)
    requires Inv(s) && Enabled(s, a) && (a.StopLoop? || a.LoseDebt?)
    ensures Inv(Apply(s, a))
  {
    hide Core, Ordered, Acyclic, HasCycle;
    EscapeKeepsAbandoned(s, a);
    hide Inv, Abandoned;
    SameFieldsKeepsInv(s, Apply(s, a));
  }

  // ------------------------------------------------------------------ what steps leave to be done

  /** Modules left ready, or left waiting for a module nobody was asked for, by a step. */
  ghost function ReadyAfter(a: Step, ready: set<Id>): set<Id> {
    match a
    case Define(m, _, _) => ready + {m}
    case Skip(m) => ready + {m}
    case BreakCycle(m) => ready + {m}
    case Notify(x) => ready + {x}
    case StartFactory(m) => ready - {m}
    case _ => ready
  }

  ghost function UnaskedAfter(s: State, a: Step, unasked: set<Id>): set<Id>
    requires Enabled(s, a)
  {
    match a
    case Record(m) => unasked + {Next(s, m)}
    case Ask(d) => unasked - {d}
    case _ => unasked
  }

  lemma StepSettles(s: State, a: Step, ready: set<Id>, unasked: set<Id>)
    requires Settled(s, ready, unasked) && Enabled(s, a)
    ensures Settled(Apply(s, a), ReadyAfter(a, ready), UnaskedAfter(s, a, unasked))
  {
    hide Reach, VisibleEdges, Affected, LoadFailed;
    match a {
      case LoadFails(m, reason) => LoadFailsSettles(s, m, reason, ready, unasked);
      case Record(m) => RecordSettles(s, m, ready, unasked);
      case EndFactory(m, thrown) => EndFactorySettles(s, m, thrown, ready, unasked);
      case _ =>
    }
  }

  lemma LoadFailsSettles(s: State, m: Id, reason: nat, ready: set<Id>, unasked: set<Id>)
    requires Settled(s, ready, unasked)
    ensures Settled(LoadFailed(s, m, reason), ready, unasked)
  {
    hide Affected;
    AffectsItself(s.inverse, m);
  }

  lemma RecordSettles(s: State, m: Id, ready: set<Id>, unasked: set<Id>)
    requires Settled(s, ready, unasked) && InLoop(s, m)
    ensures Settled(Recorded(s, m), ready, unasked + {Next(s, m)})
  {
  }

  lemma EndFactorySettles(s: State, m: Id, thrown: Option<nat>, ready: set<Id>, unasked: set<Id>)
    requires Settled(s, ready, unasked) && m in s.modules
    ensures Settled(FactoryEnded(s, m, thrown), ready, unasked)
  {
  }

  /** What any step, and so any call into the manager, preserves. */
  ghost predicate Extends(s: State, s': State) {
    && (forall m :: m in s.declared ==> m in s'.declared && s'.declared[m] == s.declared[m])
    && (forall m :: m in s.modules ==> m in s'.modules && Outlives(s.modules[m], s'.modules[m]))
    && s.ran <= s'.ran
    && s.known <= s'.known
    && (s.hasCycle ==> s'.hasCycle)
    && KeepsWaiters(s.inverse, s'.inverse, s'.ran)
    && KeepsGuards(s, s')
  }

  /** Whether exceptions of a factory are caught is settled when it is started. */
  ghost predicate KeepsGuards(s: State, s': State) {
    && s.started <= s'.started && s.escaped <= s'.escaped
    && forall m :: m in s.started ==> (m in s.guarded <==> m in s'.guarded)
  }

  /** Who waits for a module goes on waiting, in the order recorded, until its factory is started. */
  ghost predicate KeepsWaiters(inverse: map<Id, seq<Id>>, inverse': map<Id, seq<Id>>, ran': seq<Id>) {
    forall d :: WaitersOf(inverse, d) <= WaitersOf(inverse', d) || d in ran'
  }

  predicate Outlives(r: Module, r': Module) {
    && (r.isComplete ==> r'.isComplete)
    && (r.error.Some? ==> r'.error.Some?)
    && (r'.dependencies.Some? ==> r'.dependencies == r.dependencies && r'.hasErrorback == r.hasErrorback)
  }

  lemma ExtendsTransitive(a: State, b: State, c: State)
    requires Extends(a, b) && Extends(b, c)
    ensures Extends(a, c)
  {
    forall m | m in a.modules ensures m in c.modules && Outlives(a.modules[m], c.modules[m]) {
      assert Outlives(a.modules[m], b.modules[m]) && Outlives(b.modules[m], c.modules[m]);
    }
    forall d ensures WaitersOf(a.inverse, d) <= WaitersOf(c.inverse, d) || d in c.ran {
      assert WaitersOf(a.inverse, d) <= WaitersOf(b.inverse, d) || d in b.ran;
    }
  }

  lemma StepExtends(s: State, a: Step)
    requires Enabled(s, a) && s.modules.Keys == s.declared.Keys && forall m :: m in s.running ==> m in s.ran
    requires forall m :: m in s.started ==> Complete(s.modules, m)
    ensures Extends(s, Apply(s, a))
  {
    hide Reach, VisibleEdges, Affected, LoadFailed, Extends, Returned, Recorded, Defined;
    match a {
      case LoadFails(m, reason) => LoadFailsExtends(s, m, reason);
      case Define(m, ds, eb) => DefineExtends(s, m, ds, eb);
      case Skip(m) => OneRecordExtends(s, Apply(s, a), m);
      case BreakCycle(m) => OneRecordExtends(s, Apply(s, a), m);
      case DependencyFailed(m) => OneRecordExtends(s, Apply(s, a), m);
      case StartFactory(m) => OneRecordExtends(s, Apply(s, a), m);
      case EndFactory(m, thrown) => OneRecordExtends(s, Apply(s, a), m);
      case Notify(x) => OneRecordExtends(s, Apply(s, a), x);
      case _ => SmallStepExtends(s, a);
    }
  }

  lemma SmallStepExtends(s: State, a: Step)
    requires Enabled(s, a)
    requires a.Record? || a.Ask? || a.EndLoop? || a.Configure? || a.Escape? || a.StopLoop? || a.LoseDebt?
    ensures Extends(s, Apply(s, a))
  {
    hide Reach, VisibleEdges, Extends;
    match a {
      case Record(m) => SameRecordsExtends(s, Recorded(s, m));
      case Ask(_) => SameRecordsExtends(s, Apply(s, a));
      case EndLoop(_) => SameRecordsExtends(s, Apply(s, a));
      case Configure(_) => SameRecordsExtends(s, Apply(s, a));
      case Escape(_) => SameRecordsExtends(s, Apply(s, a));
      case StopLoop(_) => SameRecordsExtends(s, Apply(s, a));
      case LoseDebt(_) => SameRecordsExtends(s, Apply(s, a));
      case _ =>
    }
  }

  lemma OneRecordExtends(s: State, s': State, m: Id)
    requires m in s.modules && s'.declared == s.declared && KeepsWaiters(s.inverse, s'.inverse, s'.ran)
    requires KeepsGuards(s, s')
    requires s.ran <= s'.ran && s.known <= s'.known && (s.hasCycle ==> s'.hasCycle)
    requires m in s'.modules && s'.modules == s.modules[m := s'.modules[m]] && Outlives(s.modules[m], s'.modules[m])
    ensures Extends(s, s')
  {
  }

  lemma SameRecordsExtends(s: State, s': State)
    requires s'.declared == s.declared && s'.modules == s.modules && KeepsWaiters(s.inverse, s'.inverse, s'.ran)
    requires KeepsGuards(s, s')
    requires s.ran <= s'.ran && s.known <= s'.known && (s.hasCycle ==> s'.hasCycle)
    ensures Extends(s, s')
  {
  }

  lemma LoadFailsExtends(s: State, m: Id, reason: nat)
    requires s.modules.Keys == s.declared.Keys
    ensures Extends(s, LoadFailed(s, m, reason))
  {
    hide Affected;
  }

  lemma DefineExtends(s: State, m: Id, ds: seq<Dependency>, eb: bool)
    requires s.modules.Keys == s.declared.Keys && m !in s.modules
    ensures Extends(s, Defined(s, m, ds, eb))
  {
  }

  // ------------------------------------------------------------------ the calls in progress

  /** How a step moves the calls in progress. */
  ghost function FramesAfter(s: State, a: Step): Frames
    requires Enabled(s, a)
  {
    var f := Live(s);
    match a
    case Define(m, _, _) => f.(loops := f.loops[m := 0])
    case Skip(m) => f.(loops := f.loops[m := s.cursor[m] + 1])
    case BreakCycle(m) => f.(loops := f.loops[m := s.cursor[m] + 1])
    case Record(m) => f.(loops := f.loops[m := s.cursor[m] + 1])
    case DependencyFailed(m) => f.(loops := f.loops - {m})
    case EndLoop(m) => f.(loops := f.loops - {m})
    case StopLoop(m) => f.(loops := f.loops - {m})
    case StartFactory(m) => f.(factories := f.factories + {m})
    case EndFactory(m, _) => f.(debts := f.debts + multiset(WaitersOf(s.inverse, m)), factories := f.factories - {m})
    case Escape(m) => f.(factories := f.factories - {m})
    case Notify(x) => f.(debts := f.debts - multiset{x})
    case LoseDebt(x) => f.(debts := f.debts - multiset{x})
    case _ => f
  }

  lemma StepMovesFrames(s: State, a: Step)
    requires Inv(s) && Enabled(s, a)
    ensures Live(Apply(s, a)) == FramesAfter(s, a)
  {
    if a.Define? { UndefinedIsNotStopped(s, a.id); }
    if a.StartFactory? { ReadyIsNotEscaped(s, a.id); }
    EntryIsLive(s, a);
    assert s.lost <= s.owed;
    hide Inv, Live, Apply, FramesAfter, Enabled;
    match a {
      case Define(_, _, _) => StepEntersLoop(s, a);
      case Skip(_) => StepEntersLoop(s, a);
      case BreakCycle(_) => StepEntersLoop(s, a);
      case Record(_) => StepEntersLoop(s, a);
      case DependencyFailed(_) => StepLeavesLoop(s, a);
      case EndLoop(_) => StepLeavesLoop(s, a);
      case StopLoop(_) => StepLeavesLoop(s, a);
      case StartFactory(_) => StepMovesFactory(s, a);
      case EndFactory(_, _) => StepMovesFactory(s, a);
      case Escape(_) => StepMovesFactory(s, a);
      case Notify(_) => StepPaysDebt(s, a);
      case LoseDebt(_) => StepPaysDebt(s, a);
      case _ => StepMovesNothing(s, a);
    }
  }

  lemma EntryIsLive(s: State, a: Step)
    requires Enabled(s, a)
    ensures a.Skip? || a.BreakCycle? || a.Record? ==> a.id !in s.stopped
  {
    hide Reach, VisibleEdges;
  }

  lemma StepEntersLoop(s: State, a: Step)
    requires Enabled(s, a) && (a.Define? || a.Skip? || a.BreakCycle? || a.Record?)
    requires a.id !in s.stopped
    ensures Live(Apply(s, a)) == FramesAfter(s, a)
  {
    hide Reach, VisibleEdges, WaitersOf, Decremented;
  }

  lemma StepLeavesLoop(s: State, a: Step)
    requires Enabled(s, a) && (a.DependencyFailed? || a.EndLoop? || a.StopLoop?)
    ensures Live(Apply(s, a)) == FramesAfter(s, a)
  {
    hide Reach, VisibleEdges, WaitersOf;
    assert s.cursor - {a.id} - s.stopped == s.cursor - s.stopped - {a.id};
    if a.StopLoop? { assert s.cursor - (s.stopped + {a.id}) == s.cursor - s.stopped - {a.id}; }
  }

  lemma StartMovesFactory(s: State, m: Id)
    requires m in s.modules && m !in s.escaped
    ensures Live(FactoryStarted(s, m)) == Live(s).(factories := Live(s).factories + {m})
  {
    assert s.running + {m} - s.escaped == s.running - s.escaped + {m};
  }

  lemma EndMovesFactory(s: State, m: Id, thrown: Option<nat>)
    requires m in s.modules && s.lost <= s.owed
    ensures Live(FactoryEnded(s, m, thrown)) ==
      Live(s).(debts := Live(s).debts + multiset(WaitersOf(s.inverse, m)), factories := Live(s).factories - {m})
  {
    hide WaitersOf, Returned;
    DebtsAdded(s.owed, s.lost, multiset(WaitersOf(s.inverse, m)));
    assert s.running - {m} - s.escaped == s.running - s.escaped - {m};
  }

  lemma EscapeMovesFactory(s: State, m: Id)
    ensures Live(s.(escaped := s.escaped + {m})) == Live(s).(factories := Live(s).factories - {m})
  {
    assert s.running - (s.escaped + {m}) == s.running - s.escaped - {m};
  }

  lemma StepMovesFactory(s: State, a: Step)
    requires Enabled(s, a) && s.lost <= s.owed && (a.StartFactory? || a.EndFactory? || a.Escape?)
    requires a.StartFactory? ==> a.id !in s.escaped
    ensures Live(Apply(s, a)) == FramesAfter(s, a)
  {
    hide Reach, VisibleEdges, WaitersOf, Returned, Live, FactoryStarted, FactoryEnded, Ready;
    match a {
      case StartFactory(m) => ReadyIsDefined(s, m); StartMovesFactory(s, m);
      case EndFactory(m, thrown) => EndMovesFactory(s, m, thrown);
      case Escape(m) => EscapeMovesFactory(s, m);
      case _ =>
    }
  }

  lemma ReadyIsDefined(s: State, m: Id)
    requires Ready(s.modules, m)
    ensures m in s.modules
  {
  }

  lemma StepPaysDebt(s: State, a: Step)
    requires Enabled(s, a) && (a.Notify? || a.LoseDebt?)
    ensures Live(Apply(s, a)) == FramesAfter(s, a)
  {
    hide Reach, VisibleEdges, WaitersOf, Decremented;
    DebtPaid(s.owed, s.lost, a.id);
  }

  lemma StepMovesNothing(s: State, a: Step)
    requires Enabled(s, a) && (a.Ask? || a.LoadFails? || a.Configure?)
    ensures Live(Apply(s, a)) == FramesAfter(s, a)
  {
    hide Reach, VisibleEdges, WaitersOf, MarkFailed, LoadFailure, WithPlaceholder;
  }

  lemma DebtsAdded(owed: multiset<Id>, lost: multiset<Id>, more: multiset<Id>)
    requires lost <= owed
    ensures owed + more - lost == owed - lost + more
  {
  }

  lemma DebtPaid(owed: multiset<Id>, lost: multiset<Id>, x: Id)
    ensures owed - multiset{x} - lost == owed - lost - multiset{x}
    ensures owed - (lost + multiset{x}) == owed - lost - multiset{x}
  {
  }

  lemma UndefinedIsNotStopped(s: State, m: Id)
    requires Inv(s) && m !in s.modules
    ensures m !in s.stopped && m !in s.cursor
  {
    hide Queues, Debts, Bookkeeping, Waiting, Started, RunsOnce, Ordered, Acyclic;
  }

  lemma ReadyIsNotEscaped(s: State, m: Id)
    requires Inv(s) && Ready(s.modules, m)
    ensures m !in s.escaped && m !in s.running
  {
    hide Queues, Bookkeeping, Waiting, RunsOnce, Ordered, Acyclic, CursorOk;
    assert RecordOk(s.modules[m], s.declared[m], m in s.started, m in s.running);
  }

  /** All that is known of one step. */
  lemma StepAdvances(s: State, a: Step, ready: set<Id>, unasked: set<Id>)
    requires Inv(s) && Settled(s, ready, unasked) && Enabled(s, a)
    ensures Extends(s, Apply(s, a)) && Inv(Apply(s, a)) && Live(Apply(s, a)) == FramesAfter(s, a)
    ensures Settled(Apply(s, a), ReadyAfter(a, ready), UnaskedAfter(s, a, unasked))
  {
    assert s.modules.Keys == s.declared.Keys;
    RunningHasRun(s);
    hide *;
    StepKeepsInv(s, a);
    StepSettles(s, a, ready, unasked);
    StepMovesFrames(s, a);
    StepExtends(s, a);
  }

  lemma RunningHasRun(s: State)
    requires Inv(s)
    ensures forall m :: m in s.running ==> m in s.ran
    ensures forall m :: m in s.started ==> Complete(s.modules, m)
  {
    hide Queues, Debts, Bookkeeping, Waiting, Acyclic, Ordered;
    forall m | m in s.started ensures Complete(s.modules, m) {
      assert RecordOk(s.modules[m], s.declared[m], m in s.started, m in s.running);
    }
  }

  lemma ExtendsReflexive(s: State)
    ensures Extends(s, s)
  {
  }

  lemma InitialInv()
    ensures Inv(InitialState) && Settled(InitialState, {}, {}) && Idle(InitialState)
  {
    assert Ranks(WaitEdges(InitialState.inverse), (x: Node) => 0);
    assert Ranks(HandledEdges(InitialState.declared, InitialState.cursor), (x: Node) => 0);
  }

  lemma KeysAgree(s: State)
    requires Inv(s)
    ensures s.modules.Keys == s.declared.Keys
  {
    hide Debts, Bookkeeping, Waiting, Started, RunsOnce, Ordered, Acyclic, CursorOk, Queues;
  }

  lemma WaitersAreDefined(s: State)
    requires Inv(s)
    ensures forall m, x :: x in WaitersOf(s.inverse, m) ==> x in s.modules
  {
    hide Debts, Bookkeeping, Waiting, Started, RunsOnce, Ordered, Acyclic, CursorOk;
  }

  lemma AffectsWaiter(inverse: map<Id, seq<Id>>, failed: Id, m: Id, x: Id)
    requires Affected(inverse, failed, m) && x in WaitersOf(inverse, m)
    ensures Affected(inverse, failed, x)
  {
    EdgeReach(WaitEdges(inverse), x, m);
    if m != failed { ReachTransitive(WaitEdges(inverse), x, m, failed); }
  }
}
