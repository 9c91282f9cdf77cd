/** How the bundler's modules come to be: one promise per path, kept only after the promises of
    all its dependencies. */
module ModuleLoading {
  import opened Graph
  import B = Bundle
  import C = Common
  import M = Mappings
  import SM = SourceMap
  import V = Vlq

  type Path = Node

  /** Requested paths with what each file was found to request; paths whose file is no module; and
      the modules built, in the order in which their promises were kept. */
  datatype State = State(requested: map<Path, seq<Path>>, absent: set<Path>, built: seq<Path>)

  const Empty: State := State(map[], {}, [])

  datatype Step =
    | Request(path: Path, requests: seq<Path>)   // the first request reads and parses the file
    | NoModule(path: Path)                       // the file has no `define`: the promise is kept with nothing
    | Build(path: Path)                          // all the awaited promises have been kept

  /** The promise of p has been kept. */
  ghost predicate Kept(s: State, p: Path) {
    p in s.built || p in s.absent
  }

  ghost predicate Enabled(s: State, a: Step) {
    match a
    case Request(p, _) => p !in s.requested
    case NoModule(p) => p in s.requested && !Kept(s, p)
    case Build(p) => p in s.requested && !Kept(s, p) && forall d :: d in s.requested[p] ==> Kept(s, d)
  }

  ghost function Apply(s: State, a: Step): State
    requires Enabled(s, a)
  {
    match a
    case Request(p, ds) => s.(requested := s.requested[p := ds])
    case NoModule(p) => s.(absent := s.absent + {p})
    case Build(p) => s.(built := s.built + [p])
  }

  ghost predicate Inv(s: State) {
    && B.Once(s.built)
    && (forall p :: Kept(s, p) ==> p in s.requested)
    && (forall p :: p in s.built ==> p !in s.absent)
    && (forall k, d :: 0 <= k < |s.built| && d in s.requested[s.built[k]] ==> d in s.built[..k] || d in s.absent)
  }

  lemma StepKeepsInv(s: State, a: Step)
    requires Inv(s) && Enabled(s, a)
    ensures Inv(Apply(s, a))
  {
    var s' := Apply(s, a);
    assert forall p :: Kept(s', p) ==> Kept(s, p) || (a.path == p && !a.Request?);
    assert forall p :: p in s.built ==> Kept(s, p);
    forall k, d | 0 <= k < |s'.built| && d in s'.requested[s'.built[k]] ensures d in s'.built[..k] || d in s'.absent {
      assert s'.built[..k] == s.built[..k];
      if k < |s.built| {
        assert s.built[k] in s.built;
      } else {
        assert s.built[..k] == s.built;
        assert Kept(s, d);
      }
    }
  }

  ghost predicate IsRun(s: State, steps: seq<Step>)
    decreases |steps|
  {
    steps == [] || (Enabled(s, steps[0]) && IsRun(Apply(s, steps[0]), steps[1..]))
  }

  ghost function After(s: State, steps: seq<Step>): State
    requires IsRun(s, steps)
    decreases |steps|
  {
    if steps == [] then s else After(Apply(s, steps[0]), steps[1..])
  }

  lemma {:induction false} RunKeepsInv(s: State, steps: seq<Step>)
    requires Inv(s) && IsRun(s, steps)
    ensures Inv(After(s, steps))
    decreases |steps|
  {
    hide Inv, Enabled, Apply;
    if steps != [] {
      StepKeepsInv(s, steps[0]);
      RunKeepsInv(Apply(s, steps[0]), steps[1..]);
    }
  }

  /** The dependencies a built module ends up with: those of its requests that are modules. */
  ghost function Dependencies(s: State, p: Path): seq<Path>
    requires p in s.requested
  {
    Present(s.requested[p], s.absent)
  }

  ghost function Present(q: seq<Path>, absent: set<Path>): (r: seq<Path>)
    ensures forall d :: d in r <==> d in q && d !in absent
  {
    if q == [] then [] else if q[0] in absent then Present(q[1..], absent) else [q[0]] + Present(q[1..], absent)
  }

  ghost function Edges(s: State): Graph.Edges {
    set p, d | p in s.requested && d in s.requested[p] && d !in s.absent :: (p, d)
  }

  /** The modules built so far, with their files. */
  ghost function Built(s: State, file: Path -> SM.Source): B.Modules {
    map p | p in s.built && p in s.requested :: B.Module(Dependencies(s, p), file(p))
  }

  /** r is what is left of q without the absent paths, in the same order: at says where each comes from. */
  ghost predicate Selection(r: seq<Path>, q: seq<Path>, absent: set<Path>, at: seq<nat>) {
    && |at| == |r|
    && (forall i, j :: 0 <= i < j < |at| ==> at[i] < at[j])
    && (forall i :: 0 <= i < |at| ==> at[i] < |q| && r[i] == q[at[i]] && q[at[i]] !in absent)
    && (forall k :: 0 <= k < |q| && q[k] !in absent ==> k in at)
  }

  lemma {:induction false} PresentIs(q: seq<Path>, absent: set<Path>) returns (at: seq<nat>)
    ensures Selection(Present(q, absent), q, absent, at)
  {
    at := [];
    if q != [] {
      var rest := PresentIs(q[1..], absent);
      at := Later(Present(q[1..], absent), q, absent, rest);
      if q[0] !in absent {
        FirstToo(Present(q[1..], absent), q, absent, at);
        at := [0] + at;
      }
    }
  }

  /** Places in the rest of q, as places in q after the first. */
  ghost predicate SelectionAfter(r: seq<Path>, q: seq<Path>, absent: set<Path>, at: seq<nat>) {
    && |at| == |r|
    && (forall i, j :: 0 <= i < j < |at| ==> at[i] < at[j])
    && (forall i :: 0 <= i < |at| ==> 0 < at[i] < |q| && r[i] == q[at[i]] && q[at[i]] !in absent)
    && (forall k :: 0 < k < |q| && q[k] !in absent ==> k in at)
  }

  function MovedOn(at: seq<nat>): (r: seq<nat>)
    ensures |r| == |at| && forall i :: 0 <= i < |at| ==> r[i] == at[i] + 1
  {
    seq(|at|, i requires 0 <= i < |at| => at[i] + 1)
  }

  lemma Later(r: seq<Path>, q: seq<Path>, absent: set<Path>, rest: seq<nat>) returns (at: seq<nat>)
    requires q != [] && Selection(r, q[1..], absent, rest)
    ensures SelectionAfter(r, q, absent, at)
    ensures q[0] in absent ==> Selection(r, q, absent, at)
  {
    at := MovedOn(rest);
    forall i | 0 <= i < |at| ensures 0 < at[i] < |q| && r[i] == q[at[i]] && q[at[i]] !in absent {
      assert q[1..][rest[i]] == q[at[i]];
    }
    forall k | 0 < k < |q| && q[k] !in absent ensures k in at { FoundLater(r, q, absent, rest, k); }
  }

  lemma FoundLater(r: seq<Path>, q: seq<Path>, absent: set<Path>, rest: seq<nat>, k: nat)
    requires q != [] && Selection(r, q[1..], absent, rest) && 0 < k < |q| && q[k] !in absent
    ensures k in MovedOn(rest)
  {
    assert q[1..][k - 1] == q[k];
    var i :| 0 <= i < |rest| && rest[i] == k - 1;
    assert MovedOn(rest)[i] == k;
  }

  lemma FirstToo(r: seq<Path>, q: seq<Path>, absent: set<Path>, at: seq<nat>)
    requires q != [] && q[0] !in absent && SelectionAfter(r, q, absent, at)
    ensures Selection([q[0]] + r, q, absent, [0] + at)
  {
  }

  /** What the steps of a run have done to the state: who was requested with what, what was absent, and what
      was built, in order. */
  ghost predicate DoneBy(s: State, steps: seq<Step>) {
    && (forall p :: p in s.requested ==> Request(p, s.requested[p]) in steps)
    && (forall p :: p in s.absent <==> NoModule(p) in steps)
    && (forall p :: p in s.built <==> Build(p) in steps)
  }

  lemma {:induction false} RunSnoc(s: State, steps: seq<Step>, a: Step)
    requires IsRun(s, steps + [a])
    ensures IsRun(s, steps) && Enabled(After(s, steps), a) && After(s, steps + [a]) == Apply(After(s, steps), a)
    decreases |steps|
  {
    hide Enabled, Apply;
    if steps == [] {
      assert [] + [a] == [a] && [a][1..] == [];
    } else {
      assert (steps + [a])[1..] == steps[1..] + [a];
      RunSnoc(Apply(s, steps[0]), steps[1..], a);
    }
  }

  lemma {:induction false} RunDoes(steps: seq<Step>)
    requires IsRun(Empty, steps)
    ensures DoneBy(After(Empty, steps), steps)
    decreases |steps|
  {
    hide Enabled, Apply, DoneBy;
    if steps == [] {
      NothingDone();
    } else {
      var init, a := steps[..|steps| - 1], steps[|steps| - 1];
      assert steps == init + [a];
      RunSnoc(Empty, init, a);
      hide IsRun, After;
      RunDoes(init);
      StepDoes(After(Empty, init), init, a);
    }
  }

  lemma NothingDone()
    ensures DoneBy(Empty, [])
  {
  }

  lemma StepDoes(s: State, steps: seq<Step>, a: Step)
    requires DoneBy(s, steps) && Enabled(s, a)
    ensures DoneBy(Apply(s, a), steps + [a])
  {
    assert forall b :: b in steps + [a] <==> b in steps || b == a;
  }

  /** In every run: a module is built exactly by its own step, and then depends on just those of the paths its
      file was found to request that are modules, in the order of its file, all of them built. */
  lemma BuiltAsRequested(steps: seq<Step>, file: Path -> SM.Source, p: Path) returns (at: seq<nat>)
    requires IsRun(Empty, steps)
    ensures var s := After(Empty, steps);
      && (p in Built(s, file) <==> Build(p) in steps)
      && (p in Built(s, file) ==>
            && p in s.requested && Request(p, s.requested[p]) in steps
            && (forall d :: d in s.absent <==> NoModule(d) in steps)
            && Selection(Built(s, file)[p].dependencies, s.requested[p], s.absent, at)
            && (forall d :: d in Built(s, file)[p].dependencies ==> Build(d) in steps)
            && Built(s, file)[p].source == file(p))
  {
    var s := After(Empty, steps);
    RunDoes(steps);
    EmptyInv();
    RunKeepsInv(Empty, steps);
    hide IsRun, After;
    BuiltIsRequested(s);
    at := [];
    if p in s.built {
      at := PresentIs(s.requested[p], s.absent);
      forall d | d in Dependencies(s, p) ensures d in s.built { BuiltAfterDependency(s, p, d); }
    }
  }

  function Position(q: seq<Path>, p: Path): (i: nat)
    ensures p in q ==> i < |q| && q[i] == p
  {
    if q == [] then 0 else if q[0] == p then 0 else 1 + Position(q[1..], p)
  }

  /** In every run, what has been built is closed under dependencies and acyclic: the order in which
      promises were kept ranks it, so a bundle of it comes out dependencies first. */
  lemma BuiltGraphIsAcyclic(steps: seq<Step>, file: Path -> SM.Source)
    requires IsRun(Empty, steps)
    ensures var s := After(Empty, steps);
      && Inv(s)
      && B.Closed(Built(s, file))
      && Ranks(B.DependencyEdges(Built(s, file)), p => Position(s.built, p))
  {
    hide IsRun, After, Inv, Position;
    EmptyInv();
    RunKeepsInv(Empty, steps);
    var s := After(Empty, steps);
    BuiltIsRequested(s);
    forall p, d | p in s.built && d in Dependencies(s, p)
      ensures d in s.built && Position(s.built, d) < Position(s.built, p)
    {
      BuiltAfterDependency(s, p, d);
    }
  }

  /** A bundle of what a loading run has built: whatever the order in which files were requested and
      promises kept, every module comes after all its dependencies. */
  method BundleOfBuilt(ghost steps: seq<Step>, ghost file: Path -> SM.Source, modules: B.Modules, entry: Path,
                       inlined: (seq<string>, seq<C.Byte>) -> seq<C.Byte>)
      returns (content: seq<C.Byte>, table: seq<string>, combined: seq<C.Byte>, ghost order: seq<Path>,
               ghost cuts: map<Path, seq<nat>>)
    requires IsRun(Empty, steps) && modules == Built(After(Empty, steps), file) && entry in modules
    requires forall p :: p in modules ==> SM.WellFormed(modules[p].source) && SM.Counted(modules[p].source)
    requires forall q :: B.Once(q) && B.Within(modules, q) ==> B.TotalNames(B.Sources(modules, q)) < V.LIMIT
    ensures B.Once(order) && forall p :: p in order <==> p == entry || Reach(B.DependencyEdges(modules), entry, p)
    ensures B.DependenciesFirst(modules, order) && B.DepthFirst(modules, order, cuts)
    ensures B.Within(modules, order)
    ensures M.Decode(combined).ok
    ensures B.Located(SM.Named(M.Decode(combined).items, table)) == B.Expected(B.Sources(modules, order))
  {
    hide IsRun, After, Inv;
    BuiltGraphIsAcyclic(steps, file);
    ghost var s := After(Empty, steps);
    content, table, combined, order, cuts :=
      B.BundleWithDependencies(modules, entry, inlined, p => Position(s.built, p));
  }

  lemma EmptyInv()
    ensures Inv(Empty)
  {
  }

  lemma BuiltIsRequested(s: State)
    requires Inv(s)
    ensures forall p :: p in s.built ==> p in s.requested
  {
    assert forall p :: p in s.built ==> Kept(s, p);
  }

  lemma BuiltAfterDependency(s: State, p: Path, d: Path)
    requires Inv(s) && p in s.built && p in s.requested && d in s.requested[p] && d !in s.absent
    ensures d in s.built && Position(s.built, d) < Position(s.built, p)
  {
    var k := Position(s.built, p);
    assert s.built[k] == p;
    assert d in s.built[..k];
    var j :| 0 <= j < k && s.built[..k][j] == d;
    assert s.built[Position(s.built, d)] == s.built[j];
  }

  /** A module that requests itself, directly or through others, is never built: its promise waits on itself. */
  lemma CyclicRequestIsNeverBuilt(steps: seq<Step>, p: Path)
    requires IsRun(Empty, steps)
    requires Reach(Edges(After(Empty, steps)), p, p)
    ensures p !in After(Empty, steps).built
  {
    hide IsRun, After;
    RunKeepsInv(Empty, steps);
    var s := After(Empty, steps);
    if p in s.built {
      var w :| IsPath(Edges(s), p, p, w);
      BuiltBefore(s, w);
    }
  }

  lemma {:induction false} BuiltBefore(s: State, w: seq<Path>)
    requires Inv(s) && IsWalk(Edges(s), w) && w[0] in s.built
    ensures w[|w| - 1] in s.built
    ensures |w| >= 2 ==> Position(s.built, w[|w| - 1]) < Position(s.built, w[0])
  {
    if |w| >= 2 {
      WalkTail(Edges(s), w);
      BuiltAfterDependency(s, w[0], w[1]);
      BuiltBefore(s, w[1..]);
    }
  }
}
