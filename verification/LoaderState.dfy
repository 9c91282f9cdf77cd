/** The state of the AMD module manager and what must hold of it at every moment,
    including in the middle of a completion or of a module's dependency loop. */
module LoaderState {
  import opened Common
  import opened Graph

  type Id = Node

  /** An entry of a dependency list. The names `exports`, `module` and `require` make the first three,
      which are told apart by identity; `./exports` makes a regular entry with the same id. */
  datatype Dependency = Exports | ModuleItself | Require | Regular(to: Id)
  {
    /** The field `id`, by which searches follow an entry. */
    function Target(): Id {
      match this
      case Exports => 0
      case ModuleItself => 1
      case Require => 2
      case Regular(d) => d
    }
  }

  type Lists = map<Id, seq<Dependency>>

  datatype Phase = Loading | Factory

  datatype Failure = Failure(phase: Phase, moduleId: Id, neededBy: seq<Id>, reason: nat)

  /** A module record. `dependencies` becomes None once the factory has returned. */
  datatype Module = Module(
    dependencies: Option<seq<Dependency>>,
    unresolvedDependenciesCount: int,
    isComplete: bool,
    error: Option<Failure>,
    hasErrorback: bool)
  {
    function OnDependencyError(err: Failure): Module {
      this.(isComplete := true, error := Some(err))
    }
  }

  /** The manager's fields together with the history the invariants speak of.
      - declared: the dependency list each module was defined with
      - cursor:   for a module whose dependency loop has not returned, how many entries it has handled
      - owed:     decrements that completion loops in progress have still to make
      - started:  modules whose factory has been started
      - ran:      the same modules, in the order in which their factories were started
      - running:  modules whose factory has started but whose waiters have not been fetched yet
      - guarded:  modules whose factory was started with `catchError` set

      An exception that nobody catches abandons the calls it passes through. What they leave is kept:
      - escaped:  modules in `running` whose factory has thrown such an exception
      - stopped:  modules in `cursor` whose dependency loop such an exception has passed through
      - lost:     decrements in `owed` whose completion loop such an exception has passed through */
  datatype State = State(
    modules: map<Id, Module>,
    inverse: map<Id, seq<Id>>,
    hasCycle: bool,
    known: set<Id>,
    catchError: bool,
    declared: Lists,
    cursor: map<Id, nat>,
    owed: multiset<Id>,
    started: set<Id>,
    ran: seq<Id>,
    running: set<Id>,
    guarded: set<Id>,
    escaped: set<Id>,
    stopped: set<Id>,
    lost: multiset<Id>)

  /** `catchError` is off unless it is configured. */
  const InitialState: State :=
    State(map[], map[], false, {}, false, map[], map[], multiset{}, {}, [], {}, {}, {}, {}, multiset{})

  /** The calls in progress: dependency loops, decrements owed by completion loops, and factories. */
  datatype Frames = Frames(loops: map<Id, nat>, debts: multiset<Id>, factories: set<Id>)

  ghost function Live(s: State): Frames {
    Frames(s.cursor - s.stopped, s.owed - s.lost, s.running - s.escaped)
  }

  /** The modules recorded as waiting for `d`; an absent entry is the source's null. */
  function WaitersOf(inverse: map<Id, seq<Id>>, d: Id): seq<Id> {
    if d in inverse then inverse[d] else []
  }

  /** All waiters in all inverse lists, with multiplicity. */
  ghost function Waiting(inverse: map<Id, seq<Id>>): multiset<Id> {
    if inverse == map[] then multiset{}
    else
      var d :| d in inverse;
      multiset(inverse[d]) + Waiting(inverse - {d})
  }

  /** How many entries of m's list its dependency loop has handled. */
  ghost function Handled(declared: Lists, cursor: map<Id, nat>, m: Id): nat
    requires m in declared
  {
    if m in cursor then cursor[m] else |declared[m]|
  }

  /** The edges a dependency search can walk: those of modules that still hold their list. */
  ghost function VisibleEdges(modules: map<Id, Module>): Edges {
    set m, d | m in modules && modules[m].dependencies.Some? && d in modules[m].dependencies.value :: (m, d.Target())
  }

  ghost function DeclaredEdges(declared: Lists): Edges {
    set m, d | m in declared && d in declared[m] :: (m, d.Target())
  }

  /** The edges of regular entries. */
  ghost function RegularEdges(declared: Lists): Edges {
    set m, d | m in declared && d in declared[m] && d.Regular? :: (m, d.to)
  }

  /** Edges of regular entries that the dependency loop has handled. */
  ghost function HandledEdges(declared: Lists, cursor: map<Id, nat>): Edges {
    set m, i | m in declared && 0 <= i < |declared[m]| && i < Handled(declared, cursor, m) && declared[m][i].Regular? ::
      (m, declared[m][i].to)
  }

  /** x -> d when x is recorded as waiting for d. */
  ghost function WaitEdges(inverse: map<Id, seq<Id>>): Edges {
    set d, x | d in inverse && x in inverse[d] :: (x, d)
  }

  /** No load error and no factory error has happened. */
  ghost predicate ErrorFree(modules: map<Id, Module>) {
    forall m :: m in modules ==> modules[m].error.None?
  }

  /** And no exception has got out of a factory. */
  ghost predicate NoErrors(s: State) {
    ErrorFree(s.modules) && s.escaped == {}
  }

  ghost predicate NoDuplicates(q: seq<Id>) {
    forall i, j :: 0 <= i < j < |q| ==> q[i] != q[j]
  }

  // ------------------------------------------------------------------ invariants

  ghost predicate CursorOk(declared: Lists, cursor: map<Id, nat>) {
    forall m :: m in cursor ==> m in declared && cursor[m] <= |declared[m]|
  }

  /** A record holds its declared list until its factory has returned; it is complete exactly
      when its factory has started or it has failed. */
  predicate RecordOk(r: Module, declared: seq<Dependency>, started: bool, running: bool) {
    && (r.dependencies.Some? ==> r.dependencies.value == declared)
    && (r.dependencies.None? <==> started && !running)
    && (r.isComplete <==> started || r.error.Some?)
  }

  ghost predicate Records(modules: map<Id, Module>, declared: Lists, started: set<Id>, running: set<Id>) {
    && modules.Keys == declared.Keys
    && forall m :: m in modules ==> RecordOk(modules[m], declared[m], m in started, m in running)
  }

  /** Factories start only when the dependency loop has handled every entry. */
  ghost predicate Started(declared: Lists, cursor: map<Id, nat>, started: set<Id>, running: set<Id>) {
    && running <= started <= declared.Keys
    && forall m :: m in started && m in cursor ==> cursor[m] == |declared[m]|
  }

  /** Each factory is started at most once. */
  ghost predicate RunsOnce(started: set<Id>, ran: seq<Id>) {
    && (forall m :: m in ran <==> m in started)
    && NoDuplicates(ran)
  }

  /** Every waiter is a defined module that still needs the entry it is recorded for, and
      a module whose factory has returned has no waiters and waits for nothing. */
  ghost predicate Queues(declared: Lists, inverse: map<Id, seq<Id>>, started: set<Id>, running: set<Id>) {
    forall d, x :: d in inverse && x in inverse[d] ==> Waits(declared, started, running, d, x)
  }

  predicate Waits(declared: Lists, started: set<Id>, running: set<Id>, d: Id, x: Id) {
    x in declared && x !in started && Regular(d) in declared[x] && (d in started ==> d in running)
  }

  ghost predicate Debts(declared: Lists, owed: multiset<Id>, started: set<Id>) {
    forall x :: x in owed ==> x in declared && x !in started
  }

  /** What the counter of m still has to be decremented by: its occurrences in the inverse lists,
      the decrements owed to it, and the entries its dependency loop has not handled. */
  ghost function Outstanding(waiting: multiset<Id>, owed: multiset<Id>, declared: Lists, cursor: map<Id, nat>,
                             m: Id): int
    requires m in declared
  {
    waiting[m] + owed[m] + (|declared[m]| - Handled(declared, cursor, m))
  }

  ghost predicate Bookkeeping(modules: map<Id, Module>, declared: Lists, cursor: map<Id, nat>, waiting: multiset<Id>,
                              owed: multiset<Id>) {
    forall m :: m in modules && m in declared && !modules[m].isComplete ==>
      modules[m].unresolvedDependenciesCount == Outstanding(waiting, owed, declared, cursor, m)
  }

  /** A handled entry has had its factory started or is waited for. */
  ghost predicate Accounted(declared: Lists, cursor: map<Id, nat>, inverse: map<Id, seq<Id>>, started: set<Id>) {
    forall m, i :: m in declared && 0 <= i < |declared[m]| &&
                   i < Handled(declared, cursor, m) && declared[m][i].Regular? ==>
      declared[m][i].to in started || m in WaitersOf(inverse, declared[m][i].to)
  }

  /** Factories have started in dependency order. */
  ghost predicate Topological(declared: Lists, ran: seq<Id>) {
    forall k, d :: 0 <= k < |ran| && ran[k] in declared && Regular(d) in declared[ran[k]] ==> d in ran[..k]
  }

  ghost predicate Core(s: State) {
    && CursorOk(s.declared, s.cursor)
    && Records(s.modules, s.declared, s.started, s.running)
    && Started(s.declared, s.cursor, s.started, s.running)
    && RunsOnce(s.started, s.ran)
    && Queues(s.declared, s.inverse, s.started, s.running)
    && Debts(s.declared, s.owed, s.started)
    && Bookkeeping(s.modules, s.declared, s.cursor, Waiting(s.inverse), s.owed)
  }

  /** What uncaught exceptions leave, and only those of factories that were not started with `catchError`. */
  ghost predicate Abandoned(s: State) {
    && s.stopped <= s.cursor.Keys && s.lost <= s.owed && s.escaped <= s.running
    && s.escaped !! s.guarded && s.guarded <= s.started
    && (s.escaped == {} ==> s.stopped == {} && s.lost == multiset{})
  }

  ghost predicate Ordered(s: State) {
    && Accounted(s.declared, s.cursor, s.inverse, s.started)
    && Topological(s.declared, s.ran)
    && Acyclic(HandledEdges(s.declared, s.cursor))
  }

  /** What holds at every moment of every run. The last conjunct is about runs in which no
      error and no dependency cycle has been met so far. */
  ghost predicate Inv(s: State) {
    && Core(s)
    && Abandoned(s)
    && Acyclic(WaitEdges(s.inverse))
    && (s.hasCycle ==> HasCycle(DeclaredEdges(s.declared)))
    && (ErrorFree(s.modules) && !s.hasCycle ==> Ordered(s))
  }

  /** Nothing has been left to be done: apart from the modules in `ready`, the counter of an incomplete
      module is not zero, and apart from those in `unasked`, whatever is waited for is defined or has
      been asked of the script loader. */
  ghost predicate Settled(s: State, ready: set<Id>, unasked: set<Id>) {
    && (forall m :: m in s.modules && !s.modules[m].isComplete && m !in ready ==>
          s.modules[m].unresolvedDependenciesCount != 0)
    && (forall d :: WaitersOf(s.inverse, d) != [] && d !in unasked ==> d in s.modules || d in s.known)
  }

  /** No call into the manager is in progress. */
  ghost predicate Idle(s: State) {
    Live(s) == Frames(map[], multiset{}, {})
  }

  // ------------------------------------------------------------------ the inverse lists as a multiset

  lemma {:induction false} WaitingSplit(inverse: map<Id, seq<Id>>, d: Id)
    requires d in inverse
    ensures Waiting(inverse) == multiset(inverse[d]) + Waiting(inverse - {d})
    decreases |inverse|
  {
    var c :| c in inverse && Waiting(inverse) == multiset(inverse[c]) + Waiting(inverse - {c});
    if c != d {
      WaitingSplit(inverse - {c}, d);
      WaitingSplit(inverse - {d}, c);
      assert inverse - {c} - {d} == inverse - {d} - {c};
    }
  }

  lemma WaitingUpdate(inverse: map<Id, seq<Id>>, d: Id, l: seq<Id>)
    ensures Waiting(inverse[d := l]) + multiset(WaitersOf(inverse, d)) == Waiting(inverse) + multiset(l)
  {
    WaitingSplit(inverse[d := l], d);
    if d in inverse {
      WaitingSplit(inverse, d);
      assert inverse[d := l] - {d} == inverse - {d};
    } else {
      assert inverse[d := l] - {d} == inverse;
    }
  }

  lemma WaitingPush(inverse: map<Id, seq<Id>>, d: Id, m: Id)
    ensures Waiting(inverse[d := WaitersOf(inverse, d) + [m]]) == Waiting(inverse) + multiset{m}
  {
    hide Waiting;
    var l := WaitersOf(inverse, d);
    WaitingUpdate(inverse, d, l + [m]);
    assert multiset(l + [m]) == multiset(l) + multiset{m};
    var w := Waiting(inverse[d := l + [m]]);
    forall x ensures w[x] == (Waiting(inverse) + multiset{m})[x] {
      assert (w + multiset(l))[x] == (Waiting(inverse) + multiset(l + [m]))[x];
    }
  }

  lemma {:induction false} WaitingMember(inverse: map<Id, seq<Id>>, x: Id)
    ensures x in Waiting(inverse) <==> exists d :: d in inverse && x in inverse[d]
    decreases |inverse|
  {
    if inverse != map[] {
      var c :| c in inverse && Waiting(inverse) == multiset(inverse[c]) + Waiting(inverse - {c});
      var rest := inverse - {c};
      WaitingMember(rest, x);
      assert forall d :: d in rest ==> d in inverse && inverse[d] == rest[d];
      assert forall d :: d in inverse ==> d == c || d in rest;
    }
  }
}
