/** The manager driven by its client: the machine of `LoaderSteps` together with what client code has
    still to do, the calls into client code made so far, and the errors handed out. Some steps are taken
    only on behalf of the client, at once; starting a factory and asking the loader give control to the
    client, at once; and everything else the manager may do whenever the machine can. */
module LoaderDriven {
  import opened Common
  import opened Graph
  import opened LoaderState
  import opened LoaderSteps
  import opened LoaderTheorems

  /** One thing client code does when it is given control. A guarded call is made inside a `try`. */
  datatype Act =
    | CallDefine(id: Id, dependencies: seq<Dependency>, hasErrorback: bool, guarded: bool)
    | ReportLoadError(id: Id, reason: nat)
    | CallConfigure(catchError: bool)
    | Return(thrown: Option<nat>)

  /** Client code that is given control. */
  datatype Giver = FactoryOf(id: Id) | LoaderFor(id: Id)

  /** What has to come next: nothing in particular, a step on behalf of the client, or the client. */
  datatype Due = Nothing | Must(step: Step) | Hand(giver: Giver)

  /** - script:   what client code will do
      - control:  the client code that was given control
      - raised:   what client code has thrown so far
      - calls:    errorback calls made
      - reported: errors handed to the configured handler */
  datatype Moment = Moment(
    state: State,
    script: seq<Act>,
    due: Due,
    control: seq<Giver>,
    raised: set<nat>,
    calls: seq<(Id, Failure)>,
    reported: seq<Failure>)

  function Begin(behaviour: seq<Act>): Moment {
    Moment(InitialState, behaviour, Nothing, [], {}, [], [])
  }

  // ------------------------------------------------------------------ errors that are handed out

  /** Those among `visited` that have an errorback, in order, each with the error it is given. */
  function Notified(visited: seq<Id>, modules: map<Id, Module>, err: Failure): seq<(Id, Failure)> {
    if visited == [] then []
    else
      var n := Notified(visited[..|visited| - 1], modules, err);
      var m := visited[|visited| - 1];
      if m in modules && modules[m].hasErrorback then n + [(m, err)] else n
  }

  /** The configured handler is called exactly when nobody had an errorback. */
  function Unclaimed(visited: seq<Id>, modules: map<Id, Module>, err: Failure): seq<Failure> {
    if Notified(visited, modules, err) == [] then [err] else []
  }

  /** What the configured handler is given when a factory returns. */
  function FactoryErrors(m: Id, waiters: seq<Id>, thrown: Option<nat>): seq<Failure> {
    if thrown.Some? then [Failure(Factory, m, waiters, thrown.value)] else []
  }

  /** A listing of the modules a load error affects, once each. */
  ghost predicate Enumerates(order: seq<Id>, inverse: map<Id, seq<Id>>, failed: Id) {
    NoDuplicates(order) && forall x :: x in order <==> Affected(inverse, failed, x)
  }

  ghost function CallsMade(s: State, a: Step, order: seq<Id>): seq<(Id, Failure)>
    requires Enabled(s, a)
  {
    match a
    case DependencyFailed(m) => Notified([m], s.modules, s.modules[Next(s, m)].error.value)
    case LoadFails(m, reason) => Notified(order, s.modules, LoadFailure(s.inverse, m, reason))
    case _ => []
  }

  ghost function ErrorsHandled(s: State, a: Step, order: seq<Id>): seq<Failure>
    requires Enabled(s, a)
  {
    match a
    case EndFactory(m, thrown) => FactoryErrors(m, WaitersOf(s.inverse, m), thrown)
    case LoadFails(m, reason) => Unclaimed(order, s.modules, LoadFailure(s.inverse, m, reason))
    case _ => []
  }

  // ------------------------------------------------------------------ events

  datatype Event =
    | Take                             // the client does the next thing
    | Do(step: Step, order: seq<Id>)   // a step of the manager; a load error visits modules in this order
    | Give                             // the client is given control

  /** What the manager must do at once for an act of the client. A second definition is ignored, and the
      loader reports an error only for a module it was asked for. */
  function DueFor(s: State, act: Act): Due {
    match act
    case CallDefine(id, ds, eb, _) => if id in s.modules then Nothing else Must(Define(id, ds, eb))
    case ReportLoadError(id, reason) => if id in s.known then Must(LoadFails(id, reason)) else Nothing
    case CallConfigure(c) => Must(Configure(c))
    case Return(_) => Nothing
  }

  ghost predicate Permitted(m: Moment, a: Step) {
    match a
    case Define(_, _, _) => m.due == Must(a)
    case LoadFails(_, _) => m.due == Must(a)
    case Configure(_) => m.due == Must(a)
    case Ask(d) => m.due.Nothing? && d !in m.state.modules && d !in m.state.known
    case EndFactory(_, thrown) => m.due.Nothing? && (thrown.Some? ==> thrown.value in m.raised)
    case Escape(_) => m.due.Nothing? && m.raised != {}
    case _ => m.due.Nothing?
  }

  ghost predicate Possible(m: Moment, e: Event) {
    match e
    case Take => m.due.Nothing? && |m.script| > 0
    case Do(a, order) => Enabled(m.state, a) && Permitted(m, a) &&
      (a.LoadFails? ==> Enumerates(order, m.state.inverse, a.id))
    case Give => m.due.Hand?
  }

  function DueAfter(a: Step): Due {
    match a
    case StartFactory(m) => Hand(FactoryOf(m))
    case Ask(d) => Hand(LoaderFor(d))
    case _ => Nothing
  }

  function RaisedBy(act: Act): set<nat> {
    if act.Return? && act.thrown.Some? then {act.thrown.value} else {}
  }

  ghost function Happens(m: Moment, e: Event): Moment
    requires Possible(m, e)
  {
    match e
    case Take =>
      m.(script := m.script[1..], due := DueFor(m.state, m.script[0]), raised := m.raised + RaisedBy(m.script[0]))
    case Do(a, order) =>
      m.(state := Apply(m.state, a), due := DueAfter(a),
         calls := m.calls + CallsMade(m.state, a, order), reported := m.reported + ErrorsHandled(m.state, a, order))
    case Give => m.(control := m.control + [m.due.giver], due := Nothing)
  }

  ghost predicate IsStory(m: Moment, story: seq<Event>)
    decreases |story|
  {
    story == [] || (Possible(m, story[0]) && IsStory(Happens(m, story[0]), story[1..]))
  }

  ghost function End(m: Moment, story: seq<Event>): Moment
    requires IsStory(m, story)
    decreases |story|
  {
    if story == [] then m else End(Happens(m, story[0]), story[1..])
  }

  lemma {:induction false} StoryGoesOn(m: Moment, story: seq<Event>, more: seq<Event>)
    requires IsStory(m, story) && IsStory(End(m, story), more)
    ensures IsStory(m, story + more) && End(m, story + more) == End(End(m, story), more)
    decreases |story|
  {
    hide Possible, Happens;
    if story == [] {
      assert story + more == more;
    } else {
      StoryGoesOn(Happens(m, story[0]), story[1..], more);
      assert (story + more)[1..] == story[1..] + more;
    }
  }

  // ------------------------------------------------------------------ what leads from one moment to another

  ghost predicate Leads(m: Moment, story: seq<Event>, m': Moment) {
    IsStory(m, story) && End(m, story) == m'
  }

  /** Client code given control, and to be given it at once. */
  function Given(m: Moment): seq<Giver> {
    m.control + if m.due.Hand? then [m.due.giver] else []
  }

  /** The one promise every method makes: the manager has gone through a story of the driven machine. */
  ghost predicate Follows(m: Moment, m': Moment) {
    && (exists story :: Leads(m, story, m'))
    && Extends(m.state, m'.state)
    && Given(m) <= Given(m')
    && m.raised <= m'.raised
    && |m'.script| <= |m.script| && m'.script == m.script[|m.script| - |m'.script|..]
    && m.calls <= m'.calls && m.reported <= m'.reported
  }

  lemma FollowsReflexive(m: Moment)
    ensures Follows(m, m)
  {
    assert Leads(m, [], m);
    ExtendsReflexive(m.state);
  }

  lemma FollowsTransitive(a: Moment, b: Moment, c: Moment)
    requires Follows(a, b) && Follows(b, c)
    ensures Follows(a, c)
  {
    hide IsStory, End, Extends, Given;
    var first :| Leads(a, first, b);
    var second :| Leads(b, second, c);
    StoryGoesOn(a, first, second);
    assert Leads(a, first + second, c);
    ExtendsTransitive(a.state, b.state, c.state);
  }

  lemma FollowsOne(m: Moment, e: Event)
    requires Possible(m, e) && (e.Do? ==> Extends(m.state, Happens(m, e).state))
    ensures Follows(m, Happens(m, e))
  {
    OneEvent(m, e);
    EventAdds(m, e);
    if !e.Do? { ExtendsReflexive(m.state); }
  }

  lemma OneEvent(m: Moment, e: Event)
    requires Possible(m, e)
    ensures Leads(m, [e], Happens(m, e))
  {
    hide Possible, Happens;
    assert [e][1..] == [];
    assert End(Happens(m, e), []) == Happens(m, e);
  }

  lemma EventAdds(m: Moment, e: Event)
    requires Possible(m, e)
    ensures var m' := Happens(m, e);
      && Given(m) <= Given(m') && m.raised <= m'.raised
      && |m'.script| <= |m.script| && m'.script == m.script[|m.script| - |m'.script|..]
      && m.calls <= m'.calls && m.reported <= m'.reported
      && (!e.Do? ==> m'.state == m.state)
  {
    hide Enabled, Apply, CallsMade, ErrorsHandled, Enumerates, DueFor, RaisedBy;
    if e.Take? { TakeAdds(m); }
  }

  lemma TakeAdds(m: Moment)
    requires Possible(m, Take)
    ensures var m' := Happens(m, Take);
      && Given(m) <= Given(m') && m.raised <= m'.raised
      && |m'.script| <= |m.script| && m'.script == m.script[|m.script| - |m'.script|..]
  {
    hide RaisedBy;
  }

  /** A step of the manager, seen from the moment before it. */
  lemma Advance(m0: Moment, m: Moment, a: Step, order: seq<Id>, ready: set<Id>, unasked: set<Id>)
    requires Follows(m0, m) && Inv(m.state) && Settled(m.state, ready, unasked) && Possible(m, Do(a, order))
    ensures var s, m' := m.state, Happens(m, Do(a, order));
      && Follows(m0, m') && Inv(m'.state) && Live(m'.state) == FramesAfter(s, a)
      && Settled(m'.state, ReadyAfter(a, ready), UnaskedAfter(s, a, unasked))
  {
    hide Inv, Settled, Live, FramesAfter, Follows, Enumerates, CallsMade, ErrorsHandled, Permitted, Enabled, Apply,
         Extends;
    StepAdvances(m.state, a, ready, unasked);
    FollowsOne(m, Do(a, order));
    FollowsTransitive(m0, m, Happens(m, Do(a, order)));
  }

  lemma AdvanceFirst(m: Moment, a: Step, order: seq<Id>, ready: set<Id>, unasked: set<Id>)
    requires Inv(m.state) && Settled(m.state, ready, unasked) && Possible(m, Do(a, order))
    ensures var s, m' := m.state, Happens(m, Do(a, order));
      && Follows(m, m') && Inv(m'.state) && Live(m'.state) == FramesAfter(s, a)
      && Settled(m'.state, ReadyAfter(a, ready), UnaskedAfter(s, a, unasked))
  {
    hide *;
    FollowsReflexive(m);
    Advance(m, m, a, order, ready, unasked);
  }

  // ------------------------------------------------------------------ each step, from one moment to the next

  lemma NotReady(s: State, m: Id)
    requires Settled(s, {m}, {}) && !Ready(s.modules, m)
    ensures Settled(s, {}, {})
  {
  }

  /** A module that waits for something is not ready. */
  lemma WaiterIsNotReady(s: State, m: Id, d: Id)
    requires Inv(s) && Settled(s, {m}, {d}) && m in WaitersOf(s.inverse, d)
    ensures Settled(s, {}, {d})
  {
    hide Queues, Debts, RunsOnce, Ordered, Acyclic, HasCycle, Records, Started, Waiting;
    if m in s.modules && m in s.declared && !s.modules[m].isComplete {
      BookkeepingAt(s, m);
      WaitingMember(s.inverse, m);
    }
    KeysAgree(s);
  }

  /** Such steps hand out no errors. */
  predicate Quiet(a: Step) {
    !a.DependencyFailed? && !a.LoadFails? && !a.EndFactory?
  }

  lemma QuietStep(n: Moment, a: Step)
    requires Possible(n, Do(a, [])) && Quiet(a)
    ensures Happens(n, Do(a, [])) == n.(state := Apply(n.state, a), due := DueAfter(a))
  {
    hide Enabled, Apply, Permitted;
    assert n.calls + [] == n.calls && n.reported + [] == n.reported;
  }

  lemma GivingUpStep(n: Moment, m: Id)
    requires Possible(n, Do(DependencyFailed(m), []))
    ensures Happens(n, Do(DependencyFailed(m), [])) ==
      n.(state := GivenUp(n.state, m), due := Nothing,
         calls := n.calls + Notified([m], n.state.modules, n.state.modules[Next(n.state, m)].error.value))
  {
    hide GivenUp, Notified;
    assert n.reported + [] == n.reported;
  }

  lemma EndingStep(n: Moment, m: Id, thrown: Option<nat>)
    requires Possible(n, Do(EndFactory(m, thrown), []))
    ensures Happens(n, Do(EndFactory(m, thrown), [])) ==
      n.(state := FactoryEnded(n.state, m, thrown), due := Nothing,
         reported := n.reported + FactoryErrors(m, WaitersOf(n.state.inverse, m), thrown))
  {
    hide FactoryEnded, FactoryErrors, WaitersOf;
    assert n.calls + [] == n.calls;
  }

  lemma DefineAdvances(n: Moment, m: Id, ds: seq<Dependency>, eb: bool)
    requires n.due == Must(Define(m, ds, eb)) && Inv(n.state) && Settled(n.state, {}, {}) && m !in n.state.modules
    ensures var n' := n.(state := Defined(n.state, m, ds, eb), due := Nothing);
      && Follows(n, n') && Inv(n'.state) && Settled(n'.state, {m}, {})
      && Live(n'.state) == Live(n.state).(loops := Live(n.state).loops[m := 0])
  {
    hide Inv, Settled, Follows, Live, Reach, VisibleEdges, Defined, Ticked, Recorded, GivenUp, FactoryStarted,
         FactoryEnded, CountedDown, LoadFailed, Ready, Enumerates, Notified, Unclaimed, FactoryErrors, WaitersOf;
    QuietStep(n, Define(m, ds, eb));
    hide Happens, CallsMade, ErrorsHandled;
    AdvanceFirst(n, Define(m, ds, eb), [], {}, {});
    assert {} + {m} == {m};
  }

  lemma SkipAdvances(n: Moment, m: Id)
    requires n.due.Nothing? && Inv(n.state) && Settled(n.state, {m}, {}) && Enabled(n.state, Skip(m))
    ensures var n' := n.(state := Ticked(n.state, m));
      && Follows(n, n') && Inv(n'.state) && Settled(n'.state, {m}, {})
      && Live(n'.state) == Live(n.state).(loops := Live(n.state).loops[m := n.state.cursor[m] + 1])
  {
    hide Inv, Settled, Follows, Live, Reach, VisibleEdges, Defined, Ticked, Recorded, GivenUp, FactoryStarted,
         FactoryEnded, CountedDown, LoadFailed, Ready, Enumerates, Notified, Unclaimed, FactoryErrors, WaitersOf;
    QuietStep(n, Skip(m));
    hide Happens, CallsMade, ErrorsHandled;
    AdvanceFirst(n, Skip(m), [], {m}, {});
    assert {m} + {m} == {m};
  }

  lemma BreakCycleAdvances(n: Moment, m: Id)
    requires n.due.Nothing? && Inv(n.state) && Settled(n.state, {m}, {}) && Enabled(n.state, BreakCycle(m))
    ensures var n' := n.(state := Ticked(n.state, m).(hasCycle := true));
      && Follows(n, n') && Inv(n'.state) && Settled(n'.state, {m}, {})
      && Live(n'.state) == Live(n.state).(loops := Live(n.state).loops[m := n.state.cursor[m] + 1])
  {
    hide Inv, Settled, Follows, Live, Reach, VisibleEdges, Defined, Ticked, Recorded, GivenUp, FactoryStarted,
         FactoryEnded, CountedDown, LoadFailed, Ready, Enumerates, Notified, Unclaimed, FactoryErrors, WaitersOf;
    QuietStep(n, BreakCycle(m));
    hide Happens, CallsMade, ErrorsHandled;
    AdvanceFirst(n, BreakCycle(m), [], {m}, {});
    assert {m} + {m} == {m};
  }

  lemma RecordAdvances(n: Moment, m: Id)
    requires n.due.Nothing? && Inv(n.state) && Settled(n.state, {m}, {}) && Enabled(n.state, Record(m))
    ensures var n' := n.(state := Recorded(n.state, m));
      && Follows(n, n') && Inv(n'.state) && Settled(n'.state, {}, {Next(n.state, m)})
      && Live(n'.state) == Live(n.state).(loops := Live(n.state).loops[m := n.state.cursor[m] + 1])
  {
    hide Inv, Settled, Follows, Live, Reach, VisibleEdges, Defined, Ticked, Recorded, GivenUp, FactoryStarted,
         FactoryEnded, CountedDown, LoadFailed, Ready, Enumerates, Notified, Unclaimed, FactoryErrors, WaitersOf;
    QuietStep(n, Record(m));
    hide Happens, CallsMade, ErrorsHandled;
    AdvanceFirst(n, Record(m), [], {m}, {});
    assert {} + {Next(n.state, m)} == {Next(n.state, m)};
    RecordedIsNotReady(n.state, m);
  }

  lemma RecordedIsNotReady(s: State, m: Id)
    requires InLoop(s, m) && Inv(Recorded(s, m)) && Settled(Recorded(s, m), {m}, {Next(s, m)})
    ensures Settled(Recorded(s, m), {}, {Next(s, m)})
  {
    hide Inv, Settled;
    assert m in WaitersOf(Recorded(s, m).inverse, Next(s, m));
    WaiterIsNotReady(Recorded(s, m), m, Next(s, m));
  }

  lemma GiveUpAdvances(n: Moment, m: Id)
    requires n.due.Nothing? && Inv(n.state) && Settled(n.state, {m}, {}) && Enabled(n.state, DependencyFailed(m))
    ensures var n' := n.(state := GivenUp(n.state, m),
          calls := n.calls + Notified([m], n.state.modules, n.state.modules[Next(n.state, m)].error.value));
      && Follows(n, n') && Inv(n'.state) && Settled(n'.state, {}, {})
      && Live(n'.state) == Live(n.state).(loops := Live(n.state).loops - {m})
  {
    GivenUpIsNotReady(n.state, m);
    hide Inv, Settled, Follows, Live, Reach, VisibleEdges, Defined, Ticked, Recorded, GivenUp, FactoryStarted,
         FactoryEnded, CountedDown, LoadFailed, Ready, Enumerates, Notified, Unclaimed, FactoryErrors, WaitersOf;
    GivingUpStep(n, m);
    hide Happens, CallsMade, ErrorsHandled;
    AdvanceFirst(n, DependencyFailed(m), [], {m}, {});
    NotReady(GivenUp(n.state, m), m);
  }

  lemma GivenUpIsNotReady(s: State, m: Id)
    requires Enabled(s, DependencyFailed(m))
    ensures !Ready(GivenUp(s, m).modules, m)
  {
  }

  lemma AskAdvances(n: Moment, d: Id)
    requires n.due.Nothing? && Inv(n.state) && Settled(n.state, {}, {d})
    requires d !in n.state.modules && d !in n.state.known
    ensures var n' := n.(state := n.state.(known := n.state.known + {d}), due := Hand(LoaderFor(d)));
      && Follows(n, n') && Inv(n'.state) && Settled(n'.state, {}, {})
      && Live(n'.state) == Live(n.state)
  {
    hide Inv, Settled, Follows, Live, Reach, VisibleEdges, Defined, Ticked, Recorded, GivenUp, FactoryStarted,
         FactoryEnded, CountedDown, LoadFailed, Ready, Enumerates, Notified, Unclaimed, FactoryErrors, WaitersOf;
    QuietStep(n, Ask(d));
    hide Happens, CallsMade, ErrorsHandled;
    AdvanceFirst(n, Ask(d), [], {}, {d});
    assert {d} - {d} == {};
  }

  lemma StartFactoryAdvances(n: Moment, m: Id)
    requires n.due.Nothing? && Inv(n.state) && Settled(n.state, {m}, {}) && Ready(n.state.modules, m)
    ensures var n' := n.(state := FactoryStarted(n.state, m), due := Hand(FactoryOf(m)));
      && Follows(n, n') && Inv(n'.state) && Settled(n'.state, {}, {})
      && Live(n'.state) == Live(n.state).(factories := Live(n.state).factories + {m})
  {
    hide Inv, Settled, Follows, Live, Reach, VisibleEdges, Defined, Ticked, Recorded, GivenUp, FactoryStarted,
         FactoryEnded, CountedDown, LoadFailed, Ready, Enumerates, Notified, Unclaimed, FactoryErrors, WaitersOf;
    QuietStep(n, StartFactory(m));
    hide Happens, CallsMade, ErrorsHandled;
    AdvanceFirst(n, StartFactory(m), [], {m}, {});
    assert {m} - {m} == {};
  }

  lemma EndFactoryAdvances(n: Moment, m: Id, thrown: Option<nat>)
    requires n.due.Nothing? && Inv(n.state) && Settled(n.state, {}, {}) && Returns(n.state, m)
    requires thrown.Some? ==> m in n.state.guarded && thrown.value in n.raised
    ensures var n' := n.(state := FactoryEnded(n.state, m, thrown),
          reported := n.reported + FactoryErrors(m, WaitersOf(n.state.inverse, m), thrown));
      && Follows(n, n') && Inv(n'.state) && Settled(n'.state, {}, {})
      && Live(n'.state) == Live(n.state).(debts := Live(n.state).debts + multiset(WaitersOf(n.state.inverse, m)),
                                            factories := Live(n.state).factories - {m})
  {
    hide Inv, Settled, Follows, Live, Reach, VisibleEdges, Defined, Ticked, Recorded, GivenUp, FactoryStarted,
         FactoryEnded, CountedDown, LoadFailed, Ready, Enumerates, Notified, Unclaimed, FactoryErrors, WaitersOf;
    EndingStep(n, m, thrown);
    hide Happens, CallsMade, ErrorsHandled;
    AdvanceFirst(n, EndFactory(m, thrown), [], {}, {});
  }

  lemma LoadFailsAdvances(n: Moment, m: Id, reason: nat, order: seq<Id>)
    requires n.due == Must(LoadFails(m, reason)) && Inv(n.state) && Settled(n.state, {}, {})
    requires m in n.state.known && Enumerates(order, n.state.inverse, m)
    ensures var n' := n.(state := LoadFailed(n.state, m, reason), due := Nothing,
          calls := n.calls + Notified(order, n.state.modules, LoadFailure(n.state.inverse, m, reason)),
          reported := n.reported + Unclaimed(order, n.state.modules, LoadFailure(n.state.inverse, m, reason)));
      && Follows(n, n') && Inv(n'.state) && Settled(n'.state, {}, {})
      && Live(n'.state) == Live(n.state)
  {
    hide Inv, Settled, Follows, Live, Reach, VisibleEdges, Defined, Ticked, Recorded, GivenUp, FactoryStarted,
         FactoryEnded, CountedDown, LoadFailed, Ready, Enumerates, Notified, Unclaimed, FactoryErrors, WaitersOf;
    AdvanceFirst(n, LoadFails(m, reason), order, {}, {});
  }

  lemma NotifyAdvances(n: Moment, x: Id)
    requires n.due.Nothing? && Inv(n.state) && Settled(n.state, {}, {})
    requires x in n.state.modules && n.state.owed[x] > n.state.lost[x]
    ensures var n' := n.(state := CountedDown(n.state, x));
      && Follows(n, n') && Inv(n'.state) && Settled(n'.state, {x}, {})
      && Live(n'.state) == Live(n.state).(debts := Live(n.state).debts - multiset{x})
  {
    hide Inv, Settled, Follows, Live, Reach, VisibleEdges, Defined, Ticked, Recorded, GivenUp, FactoryStarted,
         FactoryEnded, CountedDown, LoadFailed, Ready, Enumerates, Notified, Unclaimed, FactoryErrors, WaitersOf;
    QuietStep(n, Notify(x));
    hide Happens, CallsMade, ErrorsHandled;
    AdvanceFirst(n, Notify(x), [], {}, {});
    assert {} + {x} == {x};
  }

  lemma ConfigureAdvances(n: Moment, c: bool)
    requires n.due == Must(Configure(c)) && Inv(n.state) && Settled(n.state, {}, {})
    ensures var n' := n.(state := n.state.(catchError := c), due := Nothing);
      && Follows(n, n') && Inv(n'.state) && Settled(n'.state, {}, {})
      && Live(n'.state) == Live(n.state)
  {
    hide Inv, Settled, Follows, Live, Reach, VisibleEdges, Defined, Ticked, Recorded, GivenUp, FactoryStarted,
         FactoryEnded, CountedDown, LoadFailed, Ready, Enumerates, Notified, Unclaimed, FactoryErrors, WaitersOf;
    QuietStep(n, Configure(c));
    hide Happens, CallsMade, ErrorsHandled;
    AdvanceFirst(n, Configure(c), [], {}, {});
  }

  lemma Takes(n: Moment)
    requires n.due.Nothing? && |n.script| > 0
    ensures Follows(n, n.(script := n.script[1..], due := DueFor(n.state, n.script[0]),
                          raised := n.raised + RaisedBy(n.script[0])))
  {
    FollowsOne(n, Take);
  }

  lemma HandsOver(n: Moment, giver: Giver)
    requires n.due == Hand(giver)
    ensures Follows(n, n.(due := Nothing, control := n.control + [giver]))
  {
    FollowsOne(n, Give);
  }
}
