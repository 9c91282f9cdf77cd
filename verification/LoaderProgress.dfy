/** When every module completes. Modules are left behind in two ways: one that gives up because a
    dependency already has an error does not tell those that wait for it, and an exception of a factory
    that is not caught keeps the calls it passes through from doing the rest of their work. */
module LoaderProgress {
  import opened Common
  import opened Graph
  import opened LoaderState
  import opened LoaderSteps
  import opened LoaderSearch
  import opened LoaderTheorems

  /** x waits for a module that is complete and will not count it down: one that failed without having
      been started, or one whose factory threw an exception that was not caught. */
  ghost predicate Stranded(s: State, d: Id, x: Id) {
    && Complete(s.modules, d) && (d in s.started ==> d in s.escaped)
    && x in WaitersOf(s.inverse, d) && !Complete(s.modules, x)
  }

  /** Nobody waits in vain for d. */
  ghost predicate Spares(s: State, d: Id) {
    forall x :: !Stranded(s, d, x)
  }

  /** x has lost a decrement, or its dependency loop has been stopped before the last entry. */
  ghost predicate Held(s: State, x: Id) {
    s.lost[x] > 0 || (x in s.stopped && x in s.cursor && x in s.declared && s.cursor[x] < |s.declared[x]|)
  }

  ghost predicate CutShort(s: State, x: Id) {
    Held(s, x) && !Complete(s.modules, x)
  }

  ghost predicate NobodyLeftBehind(s: State) {
    (forall d :: Spares(s, d)) && (forall x :: !CutShort(s, x))
  }

  /** Everyone who waits for m is complete. */
  ghost predicate NobodyWaits(s: State, m: Id) {
    forall x :: x in WaitersOf(s.inverse, m) ==> Complete(s.modules, x)
  }

  /** Whoever gives up, and whoever an exception is let out of, has nobody left to tell; whatever an
      exception keeps from being done was not needed any more. */
  ghost predicate Considerate(s: State, a: Step) {
    match a
    case DependencyFailed(m) => NobodyWaits(s, m)
    case Escape(m) => NobodyWaits(s, m)
    case StopLoop(m) => Complete(s.modules, m) || !(m in s.cursor && m in s.declared && s.cursor[m] < |s.declared[m]|)
    case LoseDebt(x) => Complete(s.modules, x)
    case _ => true
  }

  ghost predicate ConsiderateRun(s: State, steps: seq<Step>)
    requires IsRun(s, steps)
    decreases |steps|
  {
    steps == [] || (Considerate(s, steps[0]) && ConsiderateRun(Apply(s, steps[0]), steps[1..]))
  }

  // ------------------------------------------------------------------ single steps

  lemma SameRecordsSpare(s: State, s': State, d: Id)
    requires Spares(s, d) && s'.modules == s.modules && s'.inverse == s.inverse
    requires s'.started == s.started && s'.escaped == s.escaped
    ensures Spares(s', d)
  {
    forall x ensures !Stranded(s', d, x) { assert !Stranded(s, d, x); }
  }

  lemma OneRecordSpares(s: State, s': State, m: Id, d: Id)
    requires Spares(s, d) && m in s.modules && s'.inverse == s.inverse
    requires m in s'.modules && s'.modules == s.modules[m := s'.modules[m]]
    requires s'.modules[m].isComplete == s.modules[m].isComplete
    requires s'.started == s.started && s'.escaped == s.escaped
    ensures Spares(s', d)
  {
    forall x ensures !Stranded(s', d, x) { assert !Stranded(s, d, x); }
  }

  lemma StartFactorySpares(s: State, m: Id, d: Id)
    requires Spares(s, d) && Inv(s) && Ready(s.modules, m)
    ensures Spares(FactoryStarted(s, m), d)
  {
    ReadyIsNotEscaped(s, m);
    hide Inv;
    forall x ensures !Stranded(FactoryStarted(s, m), d, x) { assert !Stranded(s, d, x); }
  }

  lemma EndFactorySpares(s: State, m: Id, thrown: Option<nat>, d: Id)
    requires Spares(s, d) && Returns(s, m)
    ensures Spares(FactoryEnded(s, m, thrown), d)
  {
    forall x ensures !Stranded(FactoryEnded(s, m, thrown), d, x) { assert !Stranded(s, d, x); }
  }

  /** A load error reaches everyone who waits, directly or not. */
  lemma LoadFailsSpares(s: State, m: Id, reason: nat, d: Id)
    requires Spares(s, d) && forall d, x :: x in WaitersOf(s.inverse, d) ==> x in s.modules
    ensures Spares(LoadFailed(s, m, reason), d)
  {
    hide Affected;
    var s' := LoadFailed(s, m, reason);
    forall x ensures !Stranded(s', d, x) {
      assert !Stranded(s, d, x);
      if Affected(s.inverse, m, d) && x in WaitersOf(s.inverse, d) { AffectsWaiter(s.inverse, m, d, x); }
    }
  }

  /** Nobody begins to wait for a module that has failed. */
  lemma RecordSpares(s: State, m: Id, d: Id)
    requires Spares(s, d) && Inv(s) && Enabled(s, Record(m))
    ensures Spares(Recorded(s, m), d)
  {
    hide Queues, Debts, RunsOnce, CursorOk, Started, Bookkeeping, Waiting, Ordered, Acyclic, HasCycle, Reach;
    if d in s.modules { assert RecordOk(s.modules[d], s.declared[d], d in s.started, d in s.running); }
    forall x ensures !Stranded(Recorded(s, m), d, x) { assert !Stranded(s, d, x); }
  }

  lemma DefineSpares(s: State, m: Id, ds: seq<Dependency>, eb: bool, d: Id)
    requires Spares(s, d) && m !in s.modules && forall d, x :: x in WaitersOf(s.inverse, d) ==> x in s.modules
    ensures Spares(Defined(s, m, ds, eb), d)
  {
    forall x ensures !Stranded(Defined(s, m, ds, eb), d, x) { assert !Stranded(s, d, x); }
  }

  lemma GivingUpSpares(s: State, m: Id, d: Id)
    requires Spares(s, d) && Inv(s) && Enabled(s, DependencyFailed(m))
    ensures Spares(GivenUp(s, m), d) <==> d != m || NobodyWaits(s, m)
  {
    AdvanceCursorOf(s, m);
    NobodyWaitsForItself(s, m);
    hide Inv, Reach, VisibleEdges, WaitersOf, Spares, NobodyWaits;
    CompletedSpares(s, GivenUp(s, m), m, d);
  }

  /** One module becomes complete without having been started. */
  lemma CompletedSpares(s: State, s': State, m: Id, d: Id)
    requires Spares(s, d) && m in s.modules && m !in s.started && m !in WaitersOf(s.inverse, m)
    requires s'.inverse == s.inverse && s'.started == s.started && s'.escaped == s.escaped
    requires m in s'.modules && s'.modules == s.modules[m := s'.modules[m]] && s'.modules[m].isComplete
    ensures Spares(s', d) <==> d != m || NobodyWaits(s, m)
  {
    forall x | x in WaitersOf(s.inverse, m) ensures Stranded(s', m, x) <==> !Complete(s.modules, x) {
    }
    if d != m {
      forall x ensures !Stranded(s', d, x) { assert !Stranded(s, d, x); }
    }
  }

  lemma NobodyWaitsForItself(s: State, m: Id)
    requires Inv(s)
    ensures m !in WaitersOf(s.inverse, m)
  {
    hide Core, Ordered, HasCycle, Abandoned;
    var rank :| Ranks(WaitEdges(s.inverse), rank);
    assert m in WaitersOf(s.inverse, m) ==> (m, m) in WaitEdges(s.inverse);
  }

  lemma AdvanceCursorOf(s: State, m: Id)
    requires Inv(s) && InLoop(s, m)
    ensures m !in s.started
  {
    hide Queues, Debts, RunsOnce, Bookkeeping, Waiting, Ordered, Acyclic, HasCycle, Records;
  }

  lemma EscapeSpares(s: State, m: Id, d: Id)
    requires Spares(s, d) && Inv(s) && Enabled(s, Escape(m))
    ensures Spares(s.(escaped := s.escaped + {m}), d) <==> d != m || NobodyWaits(s, m)
  {
    RunningHasRun(s);
    RanIsStarted(s);
    hide Inv;
    var s' := s.(escaped := s.escaped + {m});
    assert Complete(s.modules, m);
    forall x | x in WaitersOf(s.inverse, m) ensures Stranded(s', m, x) <==> !Complete(s.modules, x) {
    }
    if d != m {
      forall x ensures !Stranded(s', d, x) { assert !Stranded(s, d, x); }
    }
  }

  lemma RanIsStarted(s: State)
    requires Inv(s)
    ensures forall m :: m in s.ran ==> m in s.started
  {
    hide Queues, Debts, Bookkeeping, Waiting, Records, Acyclic, Ordered;
  }

  lemma StepSpares(s: State, a: Step, d: Id)
    requires Inv(s) && Spares(s, d) && Enabled(s, a)
    ensures Spares(Apply(s, a), d) <==> (a == DependencyFailed(d) || a == Escape(d) ==> NobodyWaits(s, d))
  {
    WaitersAreDefined(s);
    hide Inv, Reach, VisibleEdges, Affected, LoadFailed, FactoryEnded, Recorded, Defined, GivenUp, Spares, WaitersOf,
         Ticked, FactoryStarted, CountedDown, NobodyWaits;
    match a {
      case Define(m, ds, eb) => DefineSpares(s, m, ds, eb, d);
      case Record(m) => RecordSpares(s, m, d);
      case DependencyFailed(m) => GivingUpSpares(s, m, d);
      case StartFactory(m) => StartFactorySpares(s, m, d);
      case EndFactory(m, thrown) => EndFactorySpares(s, m, thrown, d);
      case LoadFails(m, reason) => LoadFailsSpares(s, m, reason, d);
      case Escape(m) => EscapeSpares(s, m, d);
      case _ => SmallStepSpares(s, a, d);
    }
  }

  lemma SmallStepSpares(s: State, a: Step, d: Id)
    requires Spares(s, d) && Enabled(s, a)
    requires a.Skip? || a.BreakCycle? || a.Ask? || a.EndLoop? || a.Notify? || a.Configure? || a.StopLoop? || a.LoseDebt?
    ensures Spares(Apply(s, a), d)
  {
    hide Reach, VisibleEdges, Spares, WaitersOf;
    match a {
      case Skip(m) => OneRecordSpares(s, Apply(s, a), m, d);
      case BreakCycle(m) => OneRecordSpares(s, Apply(s, a), m, d);
      case Notify(m) => OneRecordSpares(s, Apply(s, a), m, d);
      case Ask(_) => SameRecordsSpare(s, Apply(s, a), d);
      case EndLoop(_) => SameRecordsSpare(s, Apply(s, a), d);
      case Configure(_) => SameRecordsSpare(s, Apply(s, a), d);
      case StopLoop(_) => SameRecordsSpare(s, Apply(s, a), d);
      case LoseDebt(_) => SameRecordsSpare(s, Apply(s, a), d);
      case _ =>
    }
  }

  lemma StepCuts(s: State, a: Step, x: Id)
    requires Inv(s) && !CutShort(s, x) && Enabled(s, a)
    ensures !CutShort(Apply(s, a), x) <==> (a == StopLoop(x) || a == LoseDebt(x) ==> Considerate(s, a))
  {
    if a == StopLoop(x) || a == LoseDebt(x) {
      DefinedIsHeld(s);
      hide Inv, Reach, VisibleEdges;
    } else {
      hide Inv, Apply, Enabled, Held, CutShort, Considerate;
      HeldBefore(s, a, x);
      CompleteStaysComplete(s, a, x);
      NotCutShort(s, x);
      NotCutShort(Apply(s, a), x);
    }
  }

  lemma NotCutShort(s: State, x: Id)
    ensures CutShort(s, x) <==> Held(s, x) && !Complete(s.modules, x)
  {
  }

  lemma CompleteStaysComplete(s: State, a: Step, x: Id)
    requires Inv(s) && Enabled(s, a)
    ensures Complete(s.modules, x) ==> Complete(Apply(s, a).modules, x)
  {
    KeysAgree(s);
    RunningHasRun(s);
    hide Inv, Apply, Enabled;
    StepExtends(s, a);
    if Complete(s.modules, x) { assert Outlives(s.modules[x], Apply(s, a).modules[x]); }
  }

  lemma DefinedIsHeld(s: State)
    requires Inv(s)
    ensures forall x :: x in s.cursor ==> x in s.declared
    ensures forall x :: x !in s.modules ==> s.lost[x] == 0 && x !in s.stopped
  {
    hide Queues, RunsOnce, Bookkeeping, Waiting, Ordered, Acyclic, HasCycle, RecordOk;
    forall x | x !in s.modules ensures s.lost[x] == 0 {
      assert s.lost[x] <= s.owed[x];
    }
  }

  ghost predicate LoopStep(a: Step) {
    a.Define? || a.Skip? || a.BreakCycle? || a.Record? || a.DependencyFailed? || a.EndLoop?
  }

  /** What is abandoned grows only by the steps of an exception. */
  lemma SameAbandoned(s: State, a: Step)
    requires Enabled(s, a) && !a.Escape? && !a.StopLoop? && !a.LoseDebt?
    ensures var s' := Apply(s, a); s'.stopped == s.stopped && s'.lost == s.lost && s'.escaped == s.escaped
  {
    if LoopStep(a) { LoopStepAbandonsNothing(s, a); } else { OtherStepAbandonsNothing(s, a); }
  }

  lemma LoopStepAbandonsNothing(s: State, a: Step)
    requires Enabled(s, a) && LoopStep(a)
    ensures var s' := Apply(s, a); s'.stopped == s.stopped && s'.lost == s.lost && s'.escaped == s.escaped
  {
    hide Reach, VisibleEdges, WaitersOf, Decremented;
  }

  lemma OtherStepAbandonsNothing(s: State, a: Step)
    requires Enabled(s, a) && !LoopStep(a) && !a.Escape? && !a.StopLoop? && !a.LoseDebt?
    ensures var s' := Apply(s, a); s'.stopped == s.stopped && s'.lost == s.lost && s'.escaped == s.escaped
  {
    hide Reach, VisibleEdges, MarkFailed, WaitersOf, Returned, LoadFailure, WithPlaceholder, Decremented;
  }

  /** A stopped loop stands still. */
  lemma SameStopped(s: State, a: Step, x: Id)
    requires Inv(s) && Enabled(s, a) && x in s.stopped && x in s.modules
    ensures var s' := Apply(s, a);
      && (x in s'.cursor <==> x in s.cursor) && (x in s.cursor ==> s'.cursor[x] == s.cursor[x])
      && (x in s.declared ==> x in s'.declared && s'.declared[x] == s.declared[x])
  {
    KeysAgree(s);
    RunningHasRun(s);
    hide Inv, Apply, Enabled;
    StepExtends(s, a);
    hide LoopStep;
    if LoopStep(a) { LoopStepElsewhere(s, a, x); } else { OtherStepSameLoops(s, a); }
  }

  lemma LoopStepElsewhere(s: State, a: Step, x: Id)
    requires Enabled(s, a) && LoopStep(a) && x in s.stopped && x in s.modules
    ensures var s' := Apply(s, a);
      (x in s'.cursor <==> x in s.cursor) && (x in s.cursor ==> s'.cursor[x] == s.cursor[x])
  {
    hide Reach, VisibleEdges, WaitersOf, Decremented;
  }

  lemma OtherStepSameLoops(s: State, a: Step)
    requires Enabled(s, a) && !LoopStep(a)
    ensures Apply(s, a).cursor == s.cursor
  {
    hide Apply, Enabled;
    if a.StartFactory? || a.EndFactory? || a.Notify? {
      CompletionSameLoops(s, a);
    } else {
      OutsideSameLoops(s, a);
    }
  }

  lemma CompletionSameLoops(s: State, a: Step)
    requires Enabled(s, a) && (a.StartFactory? || a.EndFactory? || a.Notify?)
    ensures Apply(s, a).cursor == s.cursor
  {
    hide Reach, VisibleEdges, WaitersOf, Returned, Decremented;
  }

  lemma OutsideSameLoops(s: State, a: Step)
    requires Enabled(s, a) && !LoopStep(a) && !a.StartFactory? && !a.EndFactory? && !a.Notify?
    ensures Apply(s, a).cursor == s.cursor
  {
    hide Reach, VisibleEdges, MarkFailed, WaitersOf, LoadFailure, WithPlaceholder;
  }

  lemma ExceptionAbandons(s: State, a: Step)
    requires Enabled(s, a) && (a.Escape? || a.StopLoop? || a.LoseDebt?)
    ensures var s' := Apply(s, a);
      && s'.declared == s.declared && s'.cursor == s.cursor && s'.started == s.started && s'.inverse == s.inverse
      && s.escaped <= s'.escaped && s.stopped <= s'.stopped && s.lost <= s'.lost
      && (forall x :: a != StopLoop(x) ==> (x in s'.stopped <==> x in s.stopped))
      && (forall x :: a != LoseDebt(x) ==> s'.lost[x] == s.lost[x])
  {
    hide Reach, VisibleEdges;
  }

  lemma HeldBefore(s: State, a: Step, x: Id)
    requires Inv(s) && Enabled(s, a) && a != StopLoop(x) && a != LoseDebt(x)
    ensures Held(Apply(s, a), x) ==> Held(s, x)
  {
    DeclaredIfStopped(s);
    if x in s.stopped { SameStopped(s, a, x); }
    hide Inv, Apply, Enabled;
    if a.Escape? || a.StopLoop? || a.LoseDebt? { ExceptionAbandons(s, a); } else { SameAbandoned(s, a); }
  }

  lemma DeclaredIfStopped(s: State)
    requires Inv(s)
    ensures forall x :: x in s.stopped ==> x in s.cursor && x in s.declared && x in s.modules
  {
    hide Queues, Debts, RunsOnce, Bookkeeping, Waiting, Ordered, Acyclic, HasCycle, RecordOk;
  }

  lemma SparesAfter(s: State, a: Step)
    requires Inv(s) && NobodyLeftBehind(s) && Enabled(s, a)
    ensures (forall d :: Spares(Apply(s, a), d)) <==> (a.DependencyFailed? || a.Escape? ==> NobodyWaits(s, a.id))
  {
    hide Inv, Enabled, Apply, Spares, CutShort, NobodyWaits;
    var s' := Apply(s, a);
    forall d ensures Spares(s', d) <==> (a == DependencyFailed(d) || a == Escape(d) ==> NobodyWaits(s, d)) {
      assert Spares(s, d);
      StepSpares(s, a, d);
    }
    if a.DependencyFailed? || a.Escape? { assert Spares(s', a.id) <==> NobodyWaits(s, a.id); }
  }

  lemma CutsAfter(s: State, a: Step)
    requires Inv(s) && NobodyLeftBehind(s) && Enabled(s, a)
    ensures (forall x :: !CutShort(Apply(s, a), x)) <==> (a.StopLoop? || a.LoseDebt? ==> Considerate(s, a))
  {
    hide Inv, Enabled, Apply, Spares, CutShort, Considerate;
    var s' := Apply(s, a);
    forall x ensures !CutShort(s', x) <==> (a == StopLoop(x) || a == LoseDebt(x) ==> Considerate(s, a)) {
      assert !CutShort(s, x);
      StepCuts(s, a, x);
    }
    if a.StopLoop? || a.LoseDebt? { assert !CutShort(s', a.id) <==> Considerate(s, a); }
  }

  /** Of all steps only four kinds leave anybody behind: giving up and an exception that gets out of a
      factory, exactly when somebody who is not complete waits for the module; and such an exception
      passing through a dependency loop or a completion loop, exactly when what is left of the loop
      was still needed. */
  lemma OnlyTheseLeaveBehind(s: State, a: Step)
    requires Inv(s) && NobodyLeftBehind(s) && Enabled(s, a)
    ensures NobodyLeftBehind(Apply(s, a)) <==> Considerate(s, a)
  {
    SparesAfter(s, a);
    CutsAfter(s, a);
    hide Inv, Enabled, Apply, Spares, CutShort, NobodyWaits;
  }

  lemma {:induction false} ConsiderateRunLeavesNobody(s: State, steps: seq<Step>)
    requires Inv(s) && NobodyLeftBehind(s) && IsRun(s, steps) && ConsiderateRun(s, steps)
    ensures NobodyLeftBehind(After(s, steps))
    decreases |steps|
  {
    hide Inv, Enabled, Apply, NobodyLeftBehind, Considerate;
    if steps != [] {
      OnlyTheseLeaveBehind(s, steps[0]);
      StepKeepsInv(s, steps[0]);
      ConsiderateRunLeavesNobody(Apply(s, steps[0]), steps[1..]);
    }
  }

  lemma WithoutErrorsNobodyIsLeftBehind(s: State)
    requires Inv(s) && NoErrors(s)
    ensures NobodyLeftBehind(s)
  {
    hide Queues, Debts, RunsOnce, CursorOk, Bookkeeping, Waiting, Ordered, Acyclic, HasCycle;
    forall d ensures Spares(s, d) {
      if d in s.modules { assert RecordOk(s.modules[d], s.declared[d], d in s.started, d in s.running); }
    }
  }

  // ------------------------------------------------------------------ progress

  /** What holds up whoever waits for d: d was asked for and never defined, or it is complete and will
      not count anybody down. */
  ghost predicate Blocks(s: State, d: Id) {
    || (d !in s.modules && d in s.known)
    || (Complete(s.modules, d) && (d in s.started ==> d in s.escaped))
  }

  /** A module with no call in progress: what it waits for, unless it is held itself. */
  lemma WaitsFor(s: State, m: Id) returns (d: Id)
    requires Inv(s) && Idle(s) && Settled(s, {}, {})
    requires m in s.modules && !s.modules[m].isComplete && !Held(s, m)
    ensures (m, d) in WaitEdges(s.inverse) && m in WaitersOf(s.inverse, d)
    ensures (d in s.modules && !s.modules[d].isComplete) || Blocks(s, d)
  {
    hide Ordered, HasCycle, Acyclic, Waiting;
    BookkeepingAt(s, m);
    NothingInProgress(s, m);
    WaitingMember(s.inverse, m);
    d :| d in s.inverse && m in s.inverse[d];
    assert WaitersOf(s.inverse, d) != [];
    assert Waits(s.declared, s.started, s.running, d, m);
    assert d !in Live(s).factories;
  }

  lemma NothingInProgress(s: State, m: Id)
    requires Inv(s) && Idle(s) && m in s.declared && !Held(s, m)
    ensures s.owed[m] == 0 && Handled(s.declared, s.cursor, m) == |s.declared[m]|
  {
    hide Queues, Debts, RunsOnce, Bookkeeping, Waiting, Ordered, HasCycle, Acyclic, Records;
    assert (s.owed - s.lost)[m] == 0;
    assert m !in Live(s).loops;
  }

  /** The end of a chain of waits: a module that is held, or one that waits for a module that blocks it. */
  lemma {:induction false} BlockedOn(s: State, rank: Node -> nat, m: Id) returns (x: Id, d: Id)
    requires Inv(s) && Idle(s) && Settled(s, {}, {})
    requires Ranks(WaitEdges(s.inverse), rank) && m in s.modules && !s.modules[m].isComplete
    ensures x == m || Reach(WaitEdges(s.inverse), m, x)
    ensures x in s.modules && !s.modules[x].isComplete
    ensures Held(s, x) || ((x, d) in WaitEdges(s.inverse) && x in WaitersOf(s.inverse, d) && Blocks(s, d))
    decreases rank(m)
  {
    hide Inv, Idle, Settled, Reach, WaitersOf, Held;
    x, d := m, m;
    if !Held(s, m) {
      d := WaitsFor(s, m);
      if !Blocks(s, d) {
        var d0 := d;
        EdgeReach(WaitEdges(s.inverse), m, d0);
        x, d := BlockedOn(s, rank, d0);
        if x != d0 { ReachTransitive(WaitEdges(s.inverse), m, d0, x); }
      }
    }
  }

  lemma WaiterHasNotStarted(s: State, m: Id, d: Id)
    requires Queues(s.declared, s.inverse, s.started, s.running)
    requires Reach(WaitEdges(s.inverse), m, d)
    ensures m !in s.started
  {
    var p :| IsPath(WaitEdges(s.inverse), m, d, p);
    WalkTail(WaitEdges(s.inverse), p);
  }

  lemma HeldHasNotStarted(s: State, m: Id)
    requires Inv(s) && Held(s, m)
    ensures m in s.modules && m !in s.started
  {
    hide Queues, RunsOnce, Bookkeeping, Waiting, Ordered, Acyclic, HasCycle, RecordOk;
    assert s.lost[m] <= s.owed[m];
  }

  lemma CompleteMeans(s: State, m: Id)
    requires Inv(s) && m in s.modules
    ensures s.modules[m].isComplete <==> m in s.started || s.modules[m].error.Some?
  {
    hide Queues, Debts, RunsOnce, Bookkeeping, Waiting, Ordered, Acyclic, HasCycle;
    assert RecordOk(s.modules[m], s.declared[m], m in s.started, m in s.running);
  }

  /** With no call in progress a module is incomplete exactly when it has no error itself and either is
      held or waits, directly or not, for one that is held or blocks whoever waits for it. */
  lemma IncompleteMeansBlocked(s: State, m: Id)
    requires Inv(s) && Idle(s) && Settled(s, {}, {}) && m in s.modules
    ensures !s.modules[m].isComplete <==>
      && s.modules[m].error.None?
      && (Held(s, m) || exists d :: Reach(WaitEdges(s.inverse), m, d) && (Blocks(s, d) || Held(s, d)))
  {
    CompleteMeans(s, m);
    if Held(s, m) { HeldHasNotStarted(s, m); }
    hide Ordered, HasCycle, Idle, Settled, Held, Blocks, Abandoned;
    if !s.modules[m].isComplete {
      var rank :| Ranks(WaitEdges(s.inverse), rank);
      var x, d := BlockedOn(s, rank, m);
      if !Held(s, x) {
        EdgeReach(WaitEdges(s.inverse), x, d);
        if x != m { ReachTransitive(WaitEdges(s.inverse), m, x, d); }
      }
    }
    if d :| Reach(WaitEdges(s.inverse), m, d) { WaiterHasNotStarted(s, m, d); }
  }

  /** Deadlock freedom and exactly when there is any: with no call in progress and everything asked for
      defined, every module is complete if and only if nobody has been left behind. */
  lemma NoDeadlock(s: State)
    requires Inv(s) && Idle(s) && Settled(s, {}, {}) && s.known <= s.modules.Keys
    ensures (forall m :: m in s.modules ==> s.modules[m].isComplete) <==> NobodyLeftBehind(s)
  {
    WaitersAreDefined(s);
    hide Inv, Idle, Settled, Held, Spares, WaitersOf;
    forall m | m in s.modules && !s.modules[m].isComplete ensures !NobodyLeftBehind(s) {
      SomebodyLeftBehind(s, m);
    }
    forall d | !Spares(s, d) ensures exists m :: m in s.modules && !s.modules[m].isComplete {
      var x := WhoIsStranded(s, d);
    }
    forall x | CutShort(s, x) ensures exists m :: m in s.modules && !s.modules[m].isComplete {
      HeldHasNotStarted(s, x);
    }
  }

  lemma WhoIsStranded(s: State, d: Id) returns (x: Id)
    requires !Spares(s, d)
    ensures Stranded(s, d, x)
  {
    x :| Stranded(s, d, x);
  }

  lemma SomebodyLeftBehind(s: State, m: Id)
    requires Inv(s) && Idle(s) && Settled(s, {}, {}) && s.known <= s.modules.Keys
    requires m in s.modules && !s.modules[m].isComplete
    ensures !NobodyLeftBehind(s)
  {
    hide Core, Ordered, HasCycle, Idle, Settled, Held, Abandoned, WaitersOf;
    var rank :| Ranks(WaitEdges(s.inverse), rank);
    hide Inv, Ranks;
    var x, d := BlockedOn(s, rank, m);
    if Held(s, x) { assert CutShort(s, x); } else { assert Stranded(s, d, x) && !Spares(s, d); }
  }

  /** Without errors, exceptions that get out of a factory among them, there is no deadlock. */
  lemma NoDeadlockWithoutErrors(s: State, m: Id)
    requires Inv(s) && Idle(s) && Settled(s, {}, {}) && NoErrors(s)
    requires s.known <= s.modules.Keys && m in s.modules
    ensures s.modules[m].isComplete
  {
    hide Inv, Idle, Settled, NoErrors, NobodyLeftBehind;
    WithoutErrorsNobodyIsLeftBehind(s);
    NoDeadlock(s);
  }

  lemma NothingAtFirst()
    ensures NobodyLeftBehind(InitialState)
  {
  }

  /** Whole runs, with any load errors, factory errors and exceptions: as long as every step is
      considerate, everything completes once everything asked for is defined. */
  lemma NoDeadlockInRuns(steps: seq<Step>, m: Id)
    requires IsRun(InitialState, steps) && ConsiderateRun(InitialState, steps)
    requires var s := After(InitialState, steps);
      Idle(s) && Settled(s, {}, {}) && s.known <= s.modules.Keys && m in s.modules
    ensures After(InitialState, steps).modules[m].isComplete
  {
    hide Inv, Idle, Settled, IsRun, After, ConsiderateRun, NobodyLeftBehind;
    InitialInv();
    NothingAtFirst();
    ConsiderateRunLeavesNobody(InitialState, steps);
    Reachable(steps);
    NoDeadlock(After(InitialState, steps));
  }

  /** No module gives up while somebody who is not complete waits for it. */
  ghost predicate PoliteRun(s: State, steps: seq<Step>)
    requires IsRun(s, steps)
    decreases |steps|
  {
    steps == [] ||
    ((steps[0].DependencyFailed? ==> NobodyWaits(s, steps[0].id)) && PoliteRun(Apply(s, steps[0]), steps[1..]))
  }

  lemma GuardedIsConsiderate(s: State, a: Step)
    requires Inv(s) && AllGuarded(s) && Enabled(s, a) && (a.DependencyFailed? ==> NobodyWaits(s, a.id))
    ensures Considerate(s, a)
  {
    hide Queues, Debts, RunsOnce, CursorOk, Bookkeeping, Waiting, Ordered, Acyclic, HasCycle, Records, Reach,
         VisibleEdges, NobodyWaits;
    assert s.escaped <= s.running <= s.started <= s.guarded;
  }

  lemma {:induction false} PoliteIsConsiderate(s: State, steps: seq<Step>)
    requires Inv(s) && AllGuarded(s) && IsRun(s, steps) && CatchingRun(s, steps) && PoliteRun(s, steps)
    ensures ConsiderateRun(s, steps)
    decreases |steps|
  {
    hide Inv, Enabled, Apply, AllGuarded, Considerate, NobodyWaits;
    if steps != [] {
      GuardedIsConsiderate(s, steps[0]);
      StepKeepsInv(s, steps[0]);
      StaysGuarded(s, steps[0]);
      PoliteIsConsiderate(Apply(s, steps[0]), steps[1..]);
    }
  }

  /** With `catchError` set whenever a factory is started, it is enough that no module gives up while
      somebody incomplete waits for it: load errors and factory errors do no harm. */
  lemma NoDeadlockWithCatchError(steps: seq<Step>, m: Id)
    requires IsRun(InitialState, steps) && CatchingRun(InitialState, steps) && PoliteRun(InitialState, steps)
    requires var s := After(InitialState, steps);
      Idle(s) && Settled(s, {}, {}) && s.known <= s.modules.Keys && m in s.modules
    ensures After(InitialState, steps).modules[m].isComplete
  {
    InitialInv();
    hide Inv, Idle, Settled, IsRun, After, CatchingRun, PoliteRun;
    PoliteIsConsiderate(InitialState, steps);
    NoDeadlockInRuns(steps, m);
  }

  // ------------------------------------------------------------------ whoever is left behind stays behind

  /** What keeps x from ever being counted down to zero. */
  ghost predicate Forsaken(s: State, d: Id, x: Id) {
    || Held(s, x)
    || (Complete(s.modules, d) && (d in s.started ==> d in s.escaped) && x in WaitersOf(s.inverse, d))
  }

  lemma StaysForsaken(s: State, a: Step, d: Id, x: Id)
    requires Inv(s) && Enabled(s, a) && Forsaken(s, d, x)
    ensures Forsaken(Apply(s, a), d, x)
  {
    if Held(s, x) {
      StaysHeld(s, a, x);
    } else {
      StaysWaiting(s, a, d, x);
    }
  }

  lemma StaysHeld(s: State, a: Step, x: Id)
    requires Inv(s) && Enabled(s, a) && Held(s, x)
    ensures Held(Apply(s, a), x)
  {
    DeclaredIfStopped(s);
    if x in s.stopped { SameStopped(s, a, x); }
    hide Inv, Apply, Enabled;
    if a.Escape? || a.StopLoop? || a.LoseDebt? { ExceptionAbandons(s, a); } else { SameAbandoned(s, a); }
  }

  lemma StaysWaiting(s: State, a: Step, d: Id, x: Id)
    requires Inv(s) && Enabled(s, a)
    requires Complete(s.modules, d) && (d in s.started ==> d in s.escaped) && x in WaitersOf(s.inverse, d)
    ensures var s' := Apply(s, a);
      Complete(s'.modules, d) && (d in s'.started ==> d in s'.escaped) && x in WaitersOf(s'.inverse, d)
  {
    RunningIsStarted(s);
    NotBeingRun(s, a, d);
    CompleteStaysComplete(s, a, d);
    StartsOnlyReady(s, a, d);
    KeepsTheList(s, a, d, x);
    hide Inv, Apply, Enabled;
    if a.Escape? || a.StopLoop? || a.LoseDebt? { ExceptionAbandons(s, a); } else { SameAbandoned(s, a); }
  }

  lemma NotBeingRun(s: State, a: Step, d: Id)
    requires Enabled(s, a) && s.running <= s.started && (d in s.started ==> d in s.escaped)
    ensures !(a.EndFactory? && a.id == d)
  {
    hide Reach, VisibleEdges;
  }

  lemma StartsOnlyReady(s: State, a: Step, d: Id)
    requires Enabled(s, a) && Complete(s.modules, d)
    ensures d in Apply(s, a).started <==> d in s.started
  {
    hide Reach, VisibleEdges, MarkFailed, WaitersOf, Returned, LoadFailure, WithPlaceholder, Decremented;
  }

  lemma KeepsTheList(s: State, a: Step, d: Id, x: Id)
    requires Enabled(s, a) && x in WaitersOf(s.inverse, d) && !(a.EndFactory? && a.id == d)
    ensures x in WaitersOf(Apply(s, a).inverse, d)
  {
    hide Reach, VisibleEdges, MarkFailed, Returned, LoadFailure, WithPlaceholder, Decremented;
  }

  lemma RunningIsStarted(s: State)
    requires Inv(s)
    ensures s.running <= s.started
  {
    hide Queues, Debts, RunsOnce, CursorOk, Bookkeeping, Waiting, Ordered, Acyclic, HasCycle, Records;
  }

  lemma ForsakenHasNotStarted(s: State, d: Id, x: Id)
    requires Inv(s) && Forsaken(s, d, x)
    ensures x in s.modules && x !in s.started && x !in s.ran
  {
    RanIsStarted(s);
    WaitersAreDefined(s);
    if Held(s, x) {
      HeldHasNotStarted(s, x);
    } else {
      hide Debts, CursorOk, Bookkeeping, Waiting, Ordered, Acyclic, HasCycle, Records, RunsOnce;
      assert Waits(s.declared, s.started, s.running, d, x);
    }
  }

  lemma {:induction false} NeverCountedDown(s: State, steps: seq<Step>, d: Id, x: Id)
    requires Inv(s) && IsRun(s, steps) && Forsaken(s, d, x)
    ensures Inv(After(s, steps)) && Forsaken(After(s, steps), d, x)
    decreases |steps|
  {
    hide Inv, Enabled, Apply, Forsaken;
    if steps != [] {
      StaysForsaken(s, steps[0], d, x);
      StepKeepsInv(s, steps[0]);
      NeverCountedDown(Apply(s, steps[0]), steps[1..], d, x);
    }
  }

  /** A module that has been left behind, in either way, never runs its factory, whatever happens later:
      all it can still get is an error of its own. */
  lemma LeftBehindForGood(before: seq<Step>, later: seq<Step>, d: Id, x: Id)
    requires IsRun(InitialState, before)
    requires Stranded(After(InitialState, before), d, x) || CutShort(After(InitialState, before), x)
    requires IsRun(After(InitialState, before), later)
    ensures var s := After(After(InitialState, before), later);
      x !in s.ran && x in s.modules && (s.modules[x].isComplete <==> s.modules[x].error.Some?)
  {
    hide IsRun, After, Inv, WaitersOf, Held;
    Reachable(before);
    var s := After(InitialState, before);
    assert Forsaken(s, d, x);
    NeverCountedDown(s, later, d, x);
    ForsakenHasNotStarted(After(s, later), d, x);
    CompleteMeans(After(s, later), x);
  }

  // ------------------------------------------------------------------ three concrete runs

  /** Module 3 is defined, waits for 4, and 4 has been asked for. */
  ghost function OneWaiter(): State {
    InitialState.(modules := map[3 := Module(Some([Regular(4)]), 1, false, None, false)], inverse := map[4 := [3]],
                  known := {4}, declared := map[3 := [Regular(4)]])
  }

  lemma ReachesOneWaiter() returns (steps: seq<Step>)
    ensures IsRun(InitialState, steps) && After(InitialState, steps) == OneWaiter()
  {
    hide IsRun, After;
    EmptyRun(InitialState);
    steps := AddsWaiter([], 3, 4);
  }

  /** A module is defined, waits for one that is not, and that one is asked for. */
  lemma AddsWaiter(steps: seq<Step>, x: Id, d: Id) returns (more: seq<Step>)
    requires IsRun(InitialState, steps) && x != d
    requires var s := After(InitialState, steps);
      x !in s.modules && d !in s.modules && d !in s.inverse && s.cursor == map[] && s.stopped == {}
    ensures IsRun(InitialState, more)
    ensures var s := After(InitialState, steps);
      After(InitialState, more) == s.(modules := s.modules[x := Module(Some([Regular(d)]), 1, false, None, false)],
                                      declared := s.declared[x := [Regular(d)]], inverse := s.inverse[d := [x]],
                                      known := s.known + {d})
  {
    hide IsRun, After, Reach, VisibleEdges, HasCycle;
    RunSnoc(InitialState, steps, Define(x, [Regular(d)], false));
    more := steps + [Define(x, [Regular(d)], false)];
    UndefinedLeadsNowhere(After(InitialState, more).modules, d, x);
    RunSnoc(InitialState, more, Record(x));
    more := more + [Record(x)];
    assert [] + [x] == [x];
    RunSnoc(InitialState, more, Ask(d));
    more := more + [Ask(d)];
    RunSnoc(InitialState, more, EndLoop(x));
    more := more + [EndLoop(x)];
    assert After(InitialState, more).cursor == map[];
  }

  /** Then 6 is defined and waits for 5, which has been asked for. */
  ghost function TwoWaiters(): State {
    InitialState.(
      modules := map[3 := Module(Some([Regular(4)]), 1, false, None, false),
                     6 := Module(Some([Regular(5)]), 1, false, None, false)],
      inverse := map[4 := [3], 5 := [6]], known := {4, 5},
      declared := map[3 := [Regular(4)], 6 := [Regular(5)]])
  }

  lemma ReachesTwoWaiters() returns (steps: seq<Step>)
    ensures IsRun(InitialState, steps) && After(InitialState, steps) == TwoWaiters()
  {
    hide IsRun, After;
    steps := ReachesOneWaiter();
    steps := AddsWaiter(steps, 6, 5);
  }

  /** Then 5 cannot be loaded: 6 fails with it, and 3 still waits for 4. */
  lemma ReachesFailure() returns (steps: seq<Step>)
    ensures IsRun(InitialState, steps)
    ensures var s := After(InitialState, steps);
      && s == TwoWaiters().(modules := s.modules, declared := s.declared) && s.declared.Keys == {3, 5, 6}
      && s.modules.Keys == {3, 5, 6} && s.modules[3] == TwoWaiters().modules[3]
      && Complete(s.modules, 5) && s.modules[5].error.Some? && Complete(s.modules, 6)
  {
    hide IsRun, After, Reach, VisibleEdges, HasCycle;
    steps := ReachesTwoWaiters();
    OnlyWait(3, 4, 6, 5);
    EdgeReach(WaitEdges(TwoWaiters().inverse), 6, 5);
    RunSnoc(InitialState, steps, LoadFails(5, 0));
    steps := steps + [LoadFails(5, 0)];
  }

  /** A module that gives up because a dependency already has an error does not tell those that wait
      for it: nothing is in progress, everything asked for is defined, and module 3 never completes. */
  lemma GivingUpStrandsWaiters() returns (steps: seq<Step>)
    ensures IsRun(InitialState, steps)
    ensures var s := After(InitialState, steps);
      && Idle(s) && Settled(s, {}, {}) && s.known <= s.modules.Keys && s.escaped == {}
      && 3 in s.modules && !s.modules[3].isComplete && Stranded(s, 4, 3)
  {
    hide IsRun, After, Reach, VisibleEdges, HasCycle;
    steps := ReachesFailure();
    RunSnoc(InitialState, steps, Define(4, [Regular(5)], false));
    steps := steps + [Define(4, [Regular(5)], false)];
    RunSnoc(InitialState, steps, DependencyFailed(4));
    steps := steps + [DependencyFailed(4)];
  }

  lemma OnlyWait(x: Id, d: Id, y: Id, other: Id)
    requires other != d && d != x && d != y && x != y
    ensures !Reach(WaitEdges(map[d := [x], other := [y]]), x, other)
  {
    var e := WaitEdges(map[d := [x], other := [y]]);
    forall p | IsPath(e, x, other, p) ensures false {
      WalkTail(e, p);
      assert p[1] == d;
      if |p| > 2 { WalkTail(e, p[1..]); }
    }
  }

  /** After `OneWaiter` module 4 is defined, and its factory is running. */
  ghost function FactoryRunning(): State {
    OneWaiter().(modules := OneWaiter().modules[4 := Module(Some([]), 0, true, None, false)],
                 declared := OneWaiter().declared[4 := []], started := {4}, ran := [4], running := {4})
  }

  lemma ReachesFactoryRunning() returns (steps: seq<Step>)
    ensures IsRun(InitialState, steps) && After(InitialState, steps) == FactoryRunning()
  {
    hide IsRun, After, Reach, VisibleEdges, HasCycle;
    steps := ReachesOneWaiter();
    steps := StartsLeaf(steps, 4);
    assert [] + [4] == [4];
  }

  /** An exception that is not caught, as none is unless `catchError` is configured: the factory of 4
      throws, no record has an error, and 3 waits for 4 for good. */
  lemma EscapeStrandsWaiters() returns (steps: seq<Step>)
    ensures IsRun(InitialState, steps)
    ensures var s := After(InitialState, steps);
      && Idle(s) && Settled(s, {}, {}) && s.known <= s.modules.Keys && ErrorFree(s.modules)
      && 3 in s.modules && !s.modules[3].isComplete && Stranded(s, 4, 3)
  {
    hide IsRun, After, Reach, VisibleEdges, HasCycle;
    steps := ReachesFactoryRunning();
    RunSnoc(InitialState, steps, Escape(4));
    steps := steps + [Escape(4)];
  }

  /** Modules 3 and 6 both wait for 4, whose factory is running. */
  ghost function BothWait(): State {
    InitialState.(
      modules := map[3 := Module(Some([Regular(4)]), 1, false, None, false),
                     6 := Module(Some([Regular(4)]), 1, false, None, false),
                     4 := Module(Some([]), 0, true, None, false)],
      inverse := map[4 := [3, 6]], known := {4},
      declared := map[3 := [Regular(4)], 6 := [Regular(4)], 4 := []],
      started := {4}, ran := [4], running := {4})
  }

  lemma ReachesBothWait() returns (steps: seq<Step>)
    ensures IsRun(InitialState, steps) && After(InitialState, steps) == BothWait()
  {
    hide IsRun, After, Reach, VisibleEdges, HasCycle;
    steps := ReachesOneWaiter();
    RunSnoc(InitialState, steps, Define(6, [Regular(4)], false));
    steps := steps + [Define(6, [Regular(4)], false)];
    UndefinedLeadsNowhere(After(InitialState, steps).modules, 4, 6);
    RunSnoc(InitialState, steps, Record(6));
    steps := steps + [Record(6)];
    RunSnoc(InitialState, steps, EndLoop(6));
    steps := steps + [EndLoop(6)];
    var s := After(InitialState, steps);
    assert [3] + [6] == [3, 6] && s.cursor == map[] && s.inverse == map[4 := [3, 6]];
    steps := StartsLeaf(steps, 4);
    assert [] + [4] == [4];
  }

  /** A module without dependencies is defined and its factory started. */
  lemma StartsLeaf(steps: seq<Step>, m: Id) returns (more: seq<Step>)
    requires IsRun(InitialState, steps) && m !in After(InitialState, steps).modules
    requires After(InitialState, steps).cursor == map[] && After(InitialState, steps).stopped == {}
    requires !After(InitialState, steps).catchError
    ensures IsRun(InitialState, more)
    ensures var s := After(InitialState, steps);
      After(InitialState, more) == s.(modules := s.modules[m := Module(Some([]), 0, true, None, false)],
                                      declared := s.declared[m := []], started := s.started + {m},
                                      ran := s.ran + [m], running := s.running + {m})
  {
    hide IsRun, After, Reach, VisibleEdges, HasCycle;
    RunSnoc(InitialState, steps, Define(m, [], false));
    more := steps + [Define(m, [], false)];
    RunSnoc(InitialState, more, EndLoop(m));
    more := more + [EndLoop(m)];
    assert After(InitialState, more).cursor == map[];
    RunSnoc(InitialState, more, StartFactory(m));
    more := more + [StartFactory(m)];
  }

  /** The completion loop of 4 has counted 3 down, and the factory of 3 is running. */
  lemma ReachesNestedFactory() returns (steps: seq<Step>)
    ensures IsRun(InitialState, steps)
    ensures var s := After(InitialState, steps);
      && s.modules.Keys == {3, 4, 6} && Complete(s.modules, 3) && Complete(s.modules, 4) && ErrorFree(s.modules)
      && s.modules[6] == BothWait().modules[6] && s.inverse == map[] && s.known == {4}
      && s.cursor == map[] && s.owed == multiset{6} && s.lost == multiset{}
      && s.running == {3} && s.escaped == {} && s.stopped == {} && s.guarded == {}
  {
    hide IsRun, After, Reach, VisibleEdges, HasCycle;
    steps := ReachesBothWait();
    RunSnoc(InitialState, steps, EndFactory(4, None));
    steps := steps + [EndFactory(4, None)];
    assert multiset([3, 6]) == multiset{3, 6};
    assert After(InitialState, steps).owed == multiset{3, 6};
    RunSnoc(InitialState, steps, Notify(3));
    steps := steps + [Notify(3)];
    RunSnoc(InitialState, steps, StartFactory(3));
    steps := steps + [StartFactory(3)];
  }

  /** An exception that gets out in the middle of a completion loop: the factory of 3 throws, and the
      decrement that was due to 6 next is never made. Nobody is stranded, but 6 never completes. */
  lemma EscapeLosesADecrement() returns (steps: seq<Step>)
    ensures IsRun(InitialState, steps)
    ensures var s := After(InitialState, steps);
      && Idle(s) && Settled(s, {}, {}) && s.known <= s.modules.Keys && ErrorFree(s.modules)
      && (forall d :: Spares(s, d)) && 6 in s.modules && !s.modules[6].isComplete && CutShort(s, 6)
  {
    hide IsRun, After, Reach, VisibleEdges, HasCycle;
    steps := ReachesNestedFactory();
    RunSnoc(InitialState, steps, Escape(3));
    steps := steps + [Escape(3)];
    RunSnoc(InitialState, steps, LoseDebt(6));
    steps := steps + [LoseDebt(6)];
  }
}
