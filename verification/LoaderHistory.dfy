/** What can be told of any moment from the client's script alone: where every definition, every error and
    every start of a factory comes from, and that nothing the client did has been lost. */
module LoaderHistory {
  import opened Common
  import opened Graph
  import opened LoaderState
  import opened LoaderSteps
  import opened LoaderTheorems
  import opened LoaderDriven

  /** The acts of the client between two moments. */
  function Taken(before: seq<Act>, after: seq<Act>): seq<Act> {
    if |after| <= |before| then before[..|before| - |after|] else []
  }

  ghost predicate Rest(before: seq<Act>, after: seq<Act>) {
    |after| <= |before| && after == before[|before| - |after|..]
  }

  lemma TakenSnoc(before: seq<Act>, after: seq<Act>)
    requires Rest(before, after) && |after| > 0
    ensures Rest(before, after[1..]) && Taken(before, after[1..]) == Taken(before, after) + [after[0]]
  {
  }

  // ------------------------------------------------------------------ along a story

  /** An invariant of all events holds at the end of every story. */
  lemma {:induction false} EndKeeps(behaviour: seq<Act>, m: Moment, story: seq<Event>)
    requires Inv(m.state) && Told(behaviour, m) && IsStory(m, story)
    ensures Inv(End(m, story).state) && Told(behaviour, End(m, story))
    decreases |story|
  {
    hide Inv, Told, Possible, Happens;
    if story != [] {
      EventKeepsInv(m, story[0]);
      EventTold(behaviour, m, story[0]);
      EndKeeps(behaviour, Happens(m, story[0]), story[1..]);
    }
  }

  lemma EventKeepsInv(m: Moment, e: Event)
    requires Inv(m.state) && Possible(m, e)
    ensures Inv(Happens(m, e).state)
  {
    hide Inv, Apply, Enabled, CallsMade, ErrorsHandled, Enumerates;
    if e.Do? { StepKeepsInv(m.state, e.step); }
  }

  // ------------------------------------------------------------------ what is told

  /** An act is owed, or an exception has been thrown, only because the client did it. */
  ghost predicate ActsTold(behaviour: seq<Act>, m: Moment) {
    var acts := Taken(behaviour, m.script);
    && Rest(behaviour, m.script)
    && (forall t :: t in m.raised <==> Return(Some(t)) in acts)
    && (m.state.escaped != {} ==> m.raised != {})
    && (m.due.Must? ==> Owed(m.due.step, acts))
    && (if m.due.Must? && m.due.step.Configure? then m.due.step.catchError else m.state.catchError) == Configured(acts)
  }

  ghost predicate Owed(a: Step, acts: seq<Act>) {
    match a
    case Define(id, ds, eb) => exists g :: CallDefine(id, ds, eb, g) in acts
    case LoadFails(id, reason) => ReportLoadError(id, reason) in acts
    case Configure(_) => true
    case _ => false
  }

  /** What `catchError` was last configured to. */
  function Configured(acts: seq<Act>): bool {
    if acts == [] then false
    else
      var last := acts[|acts| - 1];
      if last.CallConfigure? then last.catchError else Configured(acts[..|acts| - 1])
  }

  /** Whatever the client defined is defined, or about to be; whatever is defined was defined by the client, with
      just these dependencies and this errorback, or stands for a script that could not be loaded. */
  ghost predicate ModulesTold(behaviour: seq<Act>, m: Moment) {
    var acts := Taken(behaviour, m.script);
    && (forall a :: a in acts && a.CallDefine? ==>
          a.id in m.state.modules || m.due == Must(Define(a.id, a.dependencies, a.hasErrorback)))
    && (forall x :: x in m.state.modules ==>
          x in m.state.declared && Introduced(acts, x, m.state.declared[x], m.state.modules[x]))
  }

  ghost predicate Introduced(acts: seq<Act>, x: Id, declared: seq<Dependency>, r: Module) {
    || (exists eb, g :: CallDefine(x, declared, eb, g) in acts && (r.dependencies.Some? ==> r.hasErrorback == eb))
    || (declared == [] && (r.dependencies.Some? ==> !r.hasErrorback) &&
        exists reason :: ReportLoadError(x, reason) in acts)
  }

  /** Every error, in a record or handed out, was reported by the loader or thrown by a factory. */
  ghost predicate ErrorsTold(behaviour: seq<Act>, m: Moment) {
    var acts := Taken(behaviour, m.script);
    && (forall x :: x in m.state.modules && m.state.modules[x].error.Some? ==>
          Caused(acts, m.state.started, m.state.modules[x].error.value))
    && (forall c :: c in m.calls ==> Caused(acts, m.state.started, c.1))
    && (forall e :: e in m.reported ==> Caused(acts, m.state.started, e))
  }

  predicate Caused(acts: seq<Act>, started: set<Id>, err: Failure) {
    match err.phase
    case Loading => ReportLoadError(err.moduleId, err.reason) in acts
    case Factory => Return(Some(err.reason)) in acts && err.moduleId in started
  }

  /** Control has been given to the factory of each module started, in order, and to the loader once for each
      module asked for. */
  ghost predicate ControlTold(m: Moment) {
    && Factories(Given(m)) == m.state.ran
    && NoDuplicates(Loaders(Given(m)))
    && forall d :: d in m.state.known <==> d in Loaders(Given(m))
  }

  function Factories(control: seq<Giver>): seq<Id> {
    if control == [] then []
    else
      var last := control[|control| - 1];
      Factories(control[..|control| - 1]) + if last.FactoryOf? then [last.id] else []
  }

  function Loaders(control: seq<Giver>): seq<Id> {
    if control == [] then []
    else
      var last := control[|control| - 1];
      Loaders(control[..|control| - 1]) + if last.LoaderFor? then [last.id] else []
  }

  ghost predicate Told(behaviour: seq<Act>, m: Moment) {
    ActsTold(behaviour, m) && ModulesTold(behaviour, m) && ErrorsTold(behaviour, m) && ControlTold(m)
  }

  lemma BeginTold(behaviour: seq<Act>)
    ensures Told(behaviour, Begin(behaviour))
  {
    assert behaviour[..0] == [];
  }

  // ------------------------------------------------------------------ every event keeps it

  lemma TakeTold(behaviour: seq<Act>, m: Moment)
    requires Told(behaviour, m) && Possible(m, Take)
    ensures Told(behaviour, Happens(m, Take))
  {
    hide Introduced, Caused, Factories, Loaders, NoDuplicates, Taken;
    var acts, act := Taken(behaviour, m.script), m.script[0];
    TakenSnoc(behaviour, m.script);
    ConfiguredSnoc(acts, act);
    assert forall a :: a in acts + [act] <==> a in acts || a == act;
    forall x | x in m.state.modules
      ensures Introduced(acts + [act], x, m.state.declared[x], m.state.modules[x])
    {
      IntroducedStill(acts, act, x, m.state.declared[x], m.state.modules[x]);
    }
    forall e | Caused(acts, m.state.started, e) ensures Caused(acts + [act], m.state.started, e) {
      CausedStill(acts, acts + [act], m.state.started, m.state.started, e);
    }
  }

  lemma ConfiguredSnoc(acts: seq<Act>, act: Act)
    ensures Configured(acts + [act]) == if act.CallConfigure? then act.catchError else Configured(acts)
  {
    assert (acts + [act])[..|acts|] == acts;
  }

  lemma IntroducedStill(acts: seq<Act>, act: Act, x: Id, declared: seq<Dependency>, r: Module)
    requires Introduced(acts, x, declared, r)
    ensures Introduced(acts + [act], x, declared, r)
  {
    assert forall a :: a in acts ==> a in acts + [act];
  }

  lemma CausedStill(acts: seq<Act>, acts': seq<Act>, started: set<Id>, started': set<Id>, err: Failure)
    requires Caused(acts, started, err) && started <= started' && forall a :: a in acts ==> a in acts'
    ensures Caused(acts', started', err)
  {
  }

  lemma GiveTold(behaviour: seq<Act>, m: Moment)
    requires Told(behaviour, m) && Possible(m, Give)
    ensures Told(behaviour, Happens(m, Give))
  {
    hide Introduced, Caused, Factories, Loaders, NoDuplicates, Taken, Configured, Owed;
    assert Given(Happens(m, Give)) == Given(m);
  }

  lemma DoActs(behaviour: seq<Act>, m: Moment, a: Step, order: seq<Id>)
    requires ActsTold(behaviour, m) && Possible(m, Do(a, order))
    ensures ActsTold(behaviour, Happens(m, Do(a, order)))
  {
    hide Taken, Configured, Owed, CallsMade, ErrorsHandled, Enumerates;
    SmallFields(m.state, a);
  }

  /** What the steps do to four fields. */
  ghost predicate FieldsAfter(s: State, a: Step, s': State) {
    && s'.catchError == (if a.Configure? then a.catchError else s.catchError)
    && s'.escaped == (if a.Escape? then s.escaped + {a.id} else s.escaped)
    && s'.ran == (if a.StartFactory? then s.ran + [a.id] else s.ran)
    && s'.known == (if a.Ask? then s.known + {a.dependency} else s.known)
    && s.started <= s'.started
  }

  lemma SmallFields(s: State, a: Step)
    requires Enabled(s, a)
    ensures FieldsAfter(s, a, Apply(s, a))
  {
    hide FieldsAfter, Enabled, Apply;
    if a.Skip? || a.BreakCycle? || a.Record? || a.DependencyFailed? {
      LoopFields(s, a);
    } else if a.StartFactory? || a.EndFactory? || a.Notify? {
      CompletionFields(s, a);
    } else {
      OtherFields(s, a);
    }
  }

  lemma LoopFields(s: State, a: Step)
    requires Enabled(s, a) && (a.Skip? || a.BreakCycle? || a.Record? || a.DependencyFailed?)
    ensures FieldsAfter(s, a, Apply(s, a))
  {
    hide Reach, VisibleEdges, WaitersOf, Decremented;
  }

  lemma CompletionFields(s: State, a: Step)
    requires Enabled(s, a) && (a.StartFactory? || a.EndFactory? || a.Notify?)
    ensures FieldsAfter(s, a, Apply(s, a))
  {
    hide Returned, WaitersOf, Decremented;
  }

  lemma OtherFields(s: State, a: Step)
    requires Enabled(s, a) && !(a.Skip? || a.BreakCycle? || a.Record? || a.DependencyFailed?)
    requires !(a.StartFactory? || a.EndFactory? || a.Notify?)
    ensures FieldsAfter(s, a, Apply(s, a))
  {
    hide MarkFailed, WithPlaceholder, LoadFailure;
  }

  lemma DoModules(behaviour: seq<Act>, m: Moment, a: Step, order: seq<Id>)
    requires Inv(m.state) && ActsTold(behaviour, m) && ModulesTold(behaviour, m) && Possible(m, Do(a, order))
    ensures ModulesTold(behaviour, Happens(m, Do(a, order)))
  {
    var s, acts := m.state, Taken(behaviour, m.script);
    hide Inv, Taken, Configured, CallsMade, ErrorsHandled, Enumerates, Apply, Enabled, Introduced, Owed;
    ModulesAfter(s, a, acts);
    KeysStay(s, a);
    if a.Define? { DefinedNow(s, a); }
  }

  lemma KeysStay(s: State, a: Step)
    requires Inv(s) && Enabled(s, a)
    ensures s.modules.Keys <= Apply(s, a).modules.Keys
  {
    RecordsAfter(s, a);
    hide Inv, Apply, Enabled;
  }

  lemma ModulesAfter(s: State, a: Step, acts: seq<Act>)
    requires Inv(s) && Enabled(s, a)
    requires forall x :: x in s.modules ==> x in s.declared && Introduced(acts, x, s.declared[x], s.modules[x])
    requires a.Define? || a.LoadFails? ==> Owed(a, acts)
    ensures var s' := Apply(s, a);
      forall x :: x in s'.modules ==> x in s'.declared && Introduced(acts, x, s'.declared[x], s'.modules[x])
  {
    var s' := Apply(s, a);
    RecordsAfter(s, a);
    hide Inv, Apply, Enabled, Introduced, Outlives, Owed;
    forall x | x in s'.modules ensures Introduced(acts, x, s'.declared[x], s'.modules[x]) {
      if x in s.modules {
        IntroducedBefore(acts, x, s.declared[x], s.modules[x], s'.modules[x]);
      } else {
        NewModule(s, a, x);
        IntroducedNow(acts, a, x, s'.modules[x]);
      }
    }
  }

  lemma RecordsAfter(s: State, a: Step)
    requires Inv(s) && Enabled(s, a)
    ensures var s' := Apply(s, a);
      && s.modules.Keys == s.declared.Keys && s'.modules.Keys == s'.declared.Keys
      && forall x :: x in s.modules ==>
           x in s'.modules && s'.declared[x] == s.declared[x] && Outlives(s.modules[x], s'.modules[x])
  {
    KeysAgree(s);
    RunningHasRun(s);
    hide Inv, Apply, Enabled, Outlives, Complete;
    StepExtends(s, a);
    StepKeepsInv(s, a);
    KeysAgree(Apply(s, a));
  }

  lemma DefinedNow(s: State, a: Step)
    requires a.Define? && Enabled(s, a)
    ensures a.id in Apply(s, a).modules
  {
  }

  lemma IntroducedBefore(acts: seq<Act>, x: Id, declared: seq<Dependency>, r: Module, r': Module)
    requires Introduced(acts, x, declared, r) && Outlives(r, r')
    ensures Introduced(acts, x, declared, r')
  {
  }

  /** Only a definition and a load error add a module. */
  lemma NewModule(s: State, a: Step, x: Id)
    requires s.modules.Keys == s.declared.Keys && Enabled(s, a) && x in Apply(s, a).modules && x !in s.modules
    ensures var s' := Apply(s, a);
      && x in s'.declared && (a.Define? || a.LoadFails?) && x == a.id
      && (if a.Define? then s'.declared[x] == a.dependencies && s'.modules[x].hasErrorback == a.hasErrorback
          else s'.declared[x] == [] && !s'.modules[x].hasErrorback)
  {
    hide Reach, VisibleEdges, Affected, Returned, WaitersOf;
  }

  lemma IntroducedNow(acts: seq<Act>, a: Step, x: Id, r: Module)
    requires (a.Define? || a.LoadFails?) && Owed(a, acts) && x == a.id
    ensures a.Define? && r.hasErrorback == a.hasErrorback ==> Introduced(acts, x, a.dependencies, r)
    ensures a.LoadFails? && !r.hasErrorback ==> Introduced(acts, x, [], r)
  {
  }

  lemma DoErrors(behaviour: seq<Act>, m: Moment, a: Step, order: seq<Id>)
    requires Inv(m.state) && ActsTold(behaviour, m) && ErrorsTold(behaviour, m) && Possible(m, Do(a, order))
    ensures ErrorsTold(behaviour, Happens(m, Do(a, order)))
  {
    var s, acts := m.state, Taken(behaviour, m.script);
    SmallFields(s, a);
    RunningHasStarted(s);
    hide Inv, Taken, Configured, Owed, Apply, Caused, Enabled, Enumerates, CallsMade, ErrorsHandled;
    RecordsCaused(m, a, acts);
    HandedOutCaused(m, a, order, acts);
  }

  lemma HandedOutCaused(m: Moment, a: Step, order: seq<Id>, acts: seq<Act>)
    requires Possible(m, Do(a, order))
    requires m.due.Must? ==> Owed(m.due.step, acts)
    requires forall t :: t in m.raised ==> Return(Some(t)) in acts
    requires m.state.running <= m.state.started <= Apply(m.state, a).started
    requires forall x :: x in m.state.modules && m.state.modules[x].error.Some? ==>
      Caused(acts, m.state.started, m.state.modules[x].error.value)
    requires forall c :: c in m.calls ==> Caused(acts, m.state.started, c.1)
    requires forall e :: e in m.reported ==> Caused(acts, m.state.started, e)
    ensures var started := Apply(m.state, a).started;
      && (forall c :: c in m.calls + CallsMade(m.state, a, order) ==> Caused(acts, started, c.1))
      && (forall e :: e in m.reported + ErrorsHandled(m.state, a, order) ==> Caused(acts, started, e))
  {
    hide Apply, Caused, Enabled, Enumerates, CallsMade, ErrorsHandled, Permitted, Owed;
    var s, started := m.state, Apply(m.state, a).started;
    CallsCaused(m, a, order, acts);
    forall e | Caused(acts, s.started, e) ensures Caused(acts, started, e) {
      CausedStill(acts, acts, s.started, started, e);
    }
    AllIn(m.calls, CallsMade(s, a, order));
    AllIn(m.reported, ErrorsHandled(s, a, order));
  }

  lemma AllIn<T>(p: seq<T>, q: seq<T>)
    ensures forall x :: x in p + q <==> x in p || x in q
  {
  }

  lemma RecordsCaused(m: Moment, a: Step, acts: seq<Act>)
    requires Enabled(m.state, a) && Permitted(m, a)
    requires m.due.Must? ==> Owed(m.due.step, acts)
    requires forall t :: t in m.raised ==> Return(Some(t)) in acts
    requires m.state.running <= m.state.started <= Apply(m.state, a).started
    requires forall x :: x in m.state.modules && m.state.modules[x].error.Some? ==>
      Caused(acts, m.state.started, m.state.modules[x].error.value)
    ensures var s' := Apply(m.state, a);
      forall x :: x in s'.modules && s'.modules[x].error.Some? ==> Caused(acts, s'.started, s'.modules[x].error.value)
  {
    hide Apply, Enabled, Caused, Owed, Permitted, NewError;
    var s' := Apply(m.state, a);
    forall x | x in s'.modules && s'.modules[x].error.Some?
      ensures Caused(acts, s'.started, s'.modules[x].error.value)
    {
      var e := s'.modules[x].error.value;
      ErrorSource(m.state, a, x);
      NewlyCaused(m, a, acts, e);
      CausedStill(acts, acts, m.state.started, s'.started, e);
    }
  }

  lemma RunningHasStarted(s: State)
    requires Inv(s)
    ensures s.running <= s.started
  {
  }

  /** The error a step makes of its own. */
  predicate NewError(a: Step, e: Failure) {
    || (a.EndFactory? && a.thrown.Some? && e.phase.Factory? && e.moduleId == a.id && e.reason == a.thrown.value)
    || (a.LoadFails? && e.phase.Loading? && e.moduleId == a.id && e.reason == a.reason)
  }

  /** An error in a record was in some record before, or is the step's own. */
  lemma ErrorSource(s: State, a: Step, x: Id)
    requires Enabled(s, a) && x in Apply(s, a).modules && Apply(s, a).modules[x].error.Some?
    ensures var e := Apply(s, a).modules[x].error;
      NewError(a, e.value) || exists y :: y in s.modules && s.modules[y].error == e
  {
    hide Reach, VisibleEdges, Affected, WaitersOf;
    if a.EndFactory? || a.LoadFails? {
      NewErrorSource(s, a, x);
    } else {
      OldErrorSource(s, a, x);
    }
  }

  lemma NewErrorSource(s: State, a: Step, x: Id)
    requires Enabled(s, a) && x in Apply(s, a).modules && Apply(s, a).modules[x].error.Some?
    requires a.EndFactory? || a.LoadFails?
    ensures var e := Apply(s, a).modules[x].error;
      NewError(a, e.value) || (x in s.modules && s.modules[x].error == e)
  {
    hide Reach, VisibleEdges, Affected, WaitersOf;
  }

  lemma OldErrorSource(s: State, a: Step, x: Id)
    requires Enabled(s, a) && x in Apply(s, a).modules && Apply(s, a).modules[x].error.Some?
    requires !a.EndFactory? && !a.LoadFails?
    ensures exists y :: y in s.modules && s.modules[y].error == Apply(s, a).modules[x].error
  {
    hide Reach, VisibleEdges, Affected, WaitersOf;
    if x in s.modules { assert s.modules[x].error == s.modules[x].error; }
    if a.DependencyFailed? { assert Next(s, a.id) in s.modules; }
  }

  lemma NewlyCaused(m: Moment, a: Step, acts: seq<Act>, e: Failure)
    requires Enabled(m.state, a) && Permitted(m, a)
    requires m.due.Must? ==> Owed(m.due.step, acts)
    requires forall t :: t in m.raised ==> Return(Some(t)) in acts
    requires m.state.running <= m.state.started
    ensures NewError(a, e) ==> Caused(acts, m.state.started, e)
  {
  }

  lemma CallsCaused(m: Moment, a: Step, order: seq<Id>, acts: seq<Act>)
    requires Possible(m, Do(a, order))
    requires m.due.Must? ==> Owed(m.due.step, acts)
    requires forall t :: t in m.raised ==> Return(Some(t)) in acts
    requires m.state.running <= m.state.started
    requires forall x :: x in m.state.modules && m.state.modules[x].error.Some? ==>
      Caused(acts, m.state.started, m.state.modules[x].error.value)
    ensures forall c :: c in CallsMade(m.state, a, order) ==> Caused(acts, m.state.started, c.1)
    ensures forall e :: e in ErrorsHandled(m.state, a, order) ==> Caused(acts, m.state.started, e)
  {
    hide Caused, Notified, Reach, VisibleEdges, Enumerates;
    var s := m.state;
    match a {
      case DependencyFailed(x) => NotifiedCarry([x], s.modules, s.modules[Next(s, x)].error.value);
      case LoadFails(x, reason) =>
        NotifiedCarry(order, s.modules, LoadFailure(s.inverse, x, reason));
        NewlyCaused(m, a, acts, LoadFailure(s.inverse, x, reason));
      case EndFactory(x, thrown) =>
        if thrown.Some? { NewlyCaused(m, a, acts, Failure(Factory, x, WaitersOf(s.inverse, x), thrown.value)); }
      case _ =>
    }
  }

  lemma {:induction false} NotifiedCarry(visited: seq<Id>, modules: map<Id, Module>, err: Failure)
    ensures forall c :: c in Notified(visited, modules, err) ==> c.1 == err
  {
    if visited != [] { NotifiedCarry(visited[..|visited| - 1], modules, err); }
  }

  lemma DoControl(m: Moment, a: Step, order: seq<Id>)
    requires ControlTold(m) && Possible(m, Do(a, order))
    ensures ControlTold(Happens(m, Do(a, order)))
  {
    var m' := Happens(m, Do(a, order));
    SmallFields(m.state, a);
    GivenAfter(m, a, order);
    hide Possible, Happens, Factories, Loaders, NoDuplicates, Given, Apply, Enabled;
    if a.StartFactory? {
      GiversSnoc(Given(m), FactoryOf(a.id));
      assert Loaders(Given(m')) == Loaders(Given(m)) + [] == Loaders(Given(m));
    } else if a.Ask? {
      GiversSnoc(Given(m), LoaderFor(a.dependency));
      assert Factories(Given(m')) == Factories(Given(m)) + [] == Factories(Given(m));
      NoDuplicatesSnoc(Loaders(Given(m)), a.dependency);
    }
  }

  lemma GivenAfter(m: Moment, a: Step, order: seq<Id>)
    requires Possible(m, Do(a, order))
    ensures var m' := Happens(m, Do(a, order));
      && Enabled(m.state, a) && m'.state == Apply(m.state, a)
      && Given(m') == (if a.StartFactory? then Given(m) + [FactoryOf(a.id)]
                       else if a.Ask? then Given(m) + [LoaderFor(a.dependency)] else Given(m))
      && (a.Ask? ==> a.dependency !in m.state.known)
  {
    hide Apply, Enabled, CallsMade, ErrorsHandled, Enumerates;
    assert m.control + [] == m.control;
  }

  lemma NoDuplicatesSnoc(q: seq<Id>, x: Id)
    requires NoDuplicates(q) && x !in q
    ensures NoDuplicates(q + [x])
  {
  }

  lemma GiversSnoc(control: seq<Giver>, giver: Giver)
    ensures Factories(control + [giver]) == Factories(control) + if giver.FactoryOf? then [giver.id] else []
    ensures Loaders(control + [giver]) == Loaders(control) + if giver.LoaderFor? then [giver.id] else []
  {
    assert (control + [giver])[..|control|] == control;
  }

  lemma EventTold(behaviour: seq<Act>, m: Moment, e: Event)
    requires Inv(m.state) && Told(behaviour, m) && Possible(m, e)
    ensures Told(behaviour, Happens(m, e))
  {
    hide Inv, ActsTold, ModulesTold, ErrorsTold, ControlTold, Happens;
    match e {
      case Take => TakeTold(behaviour, m);
      case Give => GiveTold(behaviour, m);
      case Do(a, order) =>
        DoActs(behaviour, m, a, order);
        DoModules(behaviour, m, a, order);
        DoErrors(behaviour, m, a, order);
        DoControl(m, a, order);
    }
  }

  /** So it can be told of any moment a method of the manager leads to. */
  lemma FollowsTold(behaviour: seq<Act>, m: Moment, m': Moment)
    requires Inv(m.state) && Told(behaviour, m) && Follows(m, m')
    ensures Told(behaviour, m')
  {
    hide Inv, Told, IsStory, End;
    var story :| Leads(m, story, m');
    EndKeeps(behaviour, m, story);
  }

  function Steps(story: seq<Event>): seq<Step> {
    if story == [] then [] else (if story[0].Do? then [story[0].step] else []) + Steps(story[1..])
  }

  lemma FirstStep(story: seq<Event>)
    requires story != []
    ensures story[0].Do? ==>
      |Steps(story)| > 0 && Steps(story)[0] == story[0].step && Steps(story)[1..] == Steps(story[1..])
    ensures !story[0].Do? ==> Steps(story) == Steps(story[1..])
  {
  }

  /** The steps of a story are a run of the machine, so what is known of runs is known of stories. */
  lemma {:induction false} StoryIsRun(m: Moment, story: seq<Event>)
    requires IsStory(m, story)
    ensures IsRun(m.state, Steps(story)) && After(m.state, Steps(story)) == End(m, story).state
    decreases |story|
  {
    if story != [] {
      EventIsStep(m, story[0]);
      hide Possible, Happens, Enabled, Apply;
      StoryIsRun(Happens(m, story[0]), story[1..]);
      FirstStep(story);
    }
  }

  lemma EventIsStep(m: Moment, e: Event)
    requires Possible(m, e)
    ensures e.Do? ==> Enabled(m.state, e.step) && Happens(m, e).state == Apply(m.state, e.step)
    ensures !e.Do? ==> Happens(m, e).state == m.state
  {
    hide Apply, Enabled;
  }

  // ------------------------------------------------------------------ what follows from it

  ghost predicate Clean(behaviour: seq<Act>) {
    forall a :: a in behaviour ==> !a.ReportLoadError? && !(a.Return? && a.thrown.Some?)
  }

  /** Without a reported load error and without an exception no module gets an error, none lets one out,
      and nothing is handed to an errorback or to the configured handler. */
  lemma CleanMeansNoErrors(behaviour: seq<Act>, m: Moment)
    requires Told(behaviour, m) && Clean(behaviour)
    ensures NoErrors(m.state) && m.calls == [] && m.reported == []
  {
    hide Configured, Owed, Introduced, Factories, Loaders, NoDuplicates, Rest, Caused;
    var acts := Taken(behaviour, m.script);
    assert forall a :: a in acts ==> a in behaviour;
    forall e ensures !Caused(acts, m.state.started, e) { CausedByNothing(acts, m.state.started, e); }
    forall t ensures t !in m.raised { assert Return(Some(t)) !in acts; }
    HasMember(m.calls);
    HasMember(m.reported);
  }

  lemma HasMember<T>(q: seq<T>)
    ensures q == [] || exists x :: x in q
  {
    if q != [] { assert q[0] in q; }
  }

  lemma CausedByNothing(acts: seq<Act>, started: set<Id>, e: Failure)
    requires Clean(acts)
    ensures !Caused(acts, started, e)
  {
  }

  lemma {:induction false} FactoriesMember(control: seq<Giver>, m: Id)
    ensures m in Factories(control) <==> FactoryOf(m) in control
    ensures m in Loaders(control) <==> LoaderFor(m) in control
  {
    if control != [] {
      var init, last := control[..|control| - 1], control[|control| - 1];
      assert forall g :: g in control <==> g in init || g == last;
      FactoriesMember(init, m);
    }
  }

  // ------------------------------------------------------------------ the error of a started module

  /** An error a module has got while its factory had been started: its factory threw it, or the loader
      reported it for this very module. */
  predicate OwnError(m: Id, err: Failure, raised: set<nat>, acts: seq<Act>) {
    && err.moduleId == m
    && (if err.phase.Factory? then err.reason in raised else ReportLoadError(m, err.reason) in acts)
  }

  ghost predicate Blameless(before: seq<Act>, m: Moment, x: Id) {
    var acts := Taken(before, m.script);
    && Rest(before, m.script)
    && x in m.state.modules && x in m.state.started
    && (m.state.modules[x].error.Some? ==> OwnError(x, m.state.modules[x].error.value, m.raised, acts))
    && (m.due.Must? && m.due.step.LoadFails? ==> ReportLoadError(m.due.step.id, m.due.step.reason) in acts)
  }

  /** A started module gets an error only of its own. */
  lemma StartedError(s: State, a: Step, x: Id)
    requires Inv(s) && Enabled(s, a) && x in s.modules && x in s.started
    ensures var s' := Apply(s, a);
      && x in s'.modules && x in s'.started
      && (s'.modules[x].error == s.modules[x].error
          || (s'.modules[x].error.Some? && NewError(a, s'.modules[x].error.value)
              && (a.EndFactory? || a.LoadFails?) && a.id == x))
  {
    hide Reach, VisibleEdges, Affected, WaitersOf, Records, Queues, Debts, Bookkeeping, Waiting, RunsOnce, Ordered,
         Acyclic, HasCycle;
    if a.LoadFails? && a.id != x && Affected(s.inverse, a.id, x) { AffectedHasNotStarted(s, a.id, x); }
  }

  lemma EventBlameless(before: seq<Act>, m: Moment, e: Event, x: Id)
    requires Inv(m.state) && Blameless(before, m, x) && Possible(m, e)
    ensures Blameless(before, Happens(m, e), x)
  {
    hide Inv, Taken, Enabled, Apply, CallsMade, ErrorsHandled, Enumerates;
    match e {
      case Take => TakenSnoc(before, m.script);
      case Give =>
      case Do(a, _) => StartedError(m.state, a, x);
    }
  }

  lemma {:induction false} EndBlameless(before: seq<Act>, m: Moment, story: seq<Event>, x: Id)
    requires Inv(m.state) && Blameless(before, m, x) && IsStory(m, story)
    ensures Blameless(before, End(m, story), x)
    decreases |story|
  {
    hide Inv, Blameless, Possible, Happens;
    if story != [] {
      EventKeepsInv(m, story[0]);
      EventBlameless(before, m, story[0], x);
      EndBlameless(before, Happens(m, story[0]), story[1..], x);
    }
  }

  lemma ErrorIsOwn(n: Moment, n': Moment, m: Id)
    requires Inv(n.state) && Follows(n, n') && n.due.Hand?
    requires m in n.state.modules && m in n.state.started && n.state.modules[m].error.None?
    ensures m in n'.state.modules
    ensures n'.state.modules[m].error.Some? ==>
      OwnError(m, n'.state.modules[m].error.value, n'.raised, Taken(n.script, n'.script))
  {
    hide Inv, IsStory, End, Extends;
    var story :| Leads(n, story, n');
    EndBlameless(n.script, n, story, m);
  }
}
