/** Bundling a module with everything it depends on. */
module Bundle {
  import opened Common
  import opened Graph
  import opened Vlq
  import opened Mappings
  import opened SourceMap
  import opened SourceMapBuilders

  type Path = Node

  datatype Module = Module(dependencies: seq<Path>, source: Source)

  type Modules = map<Path, Module>

  ghost function DependencyEdges(modules: Modules): Edges {
    set p, d | p in modules && d in modules[p].dependencies :: (p, d)
  }

  ghost predicate Closed(modules: Modules) {
    forall p, d :: p in modules && d in modules[p].dependencies ==> d in modules
  }

  ghost predicate Once(q: seq<Path>) {
    forall i, j :: 0 <= i < j < |q| ==> q[i] != q[j]
  }

  /** Every module comes after all its dependencies. */
  ghost predicate DependenciesFirst(modules: Modules, q: seq<Path>) {
    forall k, d :: 0 <= k < |q| && q[k] in modules && d in modules[q[k]].dependencies ==> d in q[..k]
  }

  function Sources(modules: Modules, q: seq<Path>): (r: seq<Source>)
    requires forall p :: p in q ==> p in modules
    ensures |r| == |q| && forall i :: 0 <= i < |q| ==> r[i] == modules[q[i]].source
  {
    seq(|q|, i requires 0 <= i < |q| => modules[q[i]].source)
  }

  // ------------------------------------------------------------------ what a concatenation of files means

  function TotalMeaning(ss: seq<Source>): seq<Mapping<string>>
    requires forall i :: 0 <= i < |ss| ==> WellFormed(ss[i])
  {
    if ss == [] then [] else TotalMeaning(ss[..|ss| - 1]) + Meaning(ss[|ss| - 1])
  }

  function TotalContent(ss: seq<Source>): seq<Byte> {
    if ss == [] then [] else TotalContent(ss[..|ss| - 1]) + ss[|ss| - 1].content
  }

  function TotalLines(ss: seq<Source>): nat {
    if ss == [] then 0 else TotalLines(ss[..|ss| - 1]) + ss[|ss| - 1].sourceLines
  }

  /** How many source names the files list between them. */
  function TotalNames(ss: seq<Source>): nat {
    if ss == [] then 0 else TotalNames(ss[..|ss| - 1]) + |ss[|ss| - 1].sources|
  }

  /** The segments with the generated line each is on. */
  function Located(items: seq<Mapping<string>>): seq<(nat, Mapping<string>)> {
    if items == [] then []
    else
      var before, m := Located(items[..|items| - 1]), items[|items| - 1];
      if m == NewLine then before else before + [(NewLines(items[..|items| - 1]), m)]
  }

  function Shifted(q: seq<(nat, Mapping<string>)>, lines: nat): (r: seq<(nat, Mapping<string>)>)
    ensures |r| == |q| && forall i :: 0 <= i < |q| ==> r[i] == (q[i].0 + lines, q[i].1)
  {
    seq(|q|, i requires 0 <= i < |q| => (q[i].0 + lines, q[i].1))
  }

  /** The concatenation of the inputs' own segments, each file's moved down by the lines before it. */
  function Expected(ss: seq<Source>): seq<(nat, Mapping<string>)>
    requires forall i :: 0 <= i < |ss| ==> WellFormed(ss[i])
  {
    if ss == [] then []
    else
      var last := ss[|ss| - 1];
      var located := Located(Named(Decode(last.mappings).items, last.sources));
      Expected(ss[..|ss| - 1]) + Shifted(located, TotalLines(ss[..|ss| - 1]))
  }

  lemma {:induction false} LocatedAppend(a: seq<Mapping<string>>, b: seq<Mapping<string>>)
    ensures Located(a + b) == Located(a) + Shifted(Located(b), NewLines(a))
  {
    if b == [] {
      assert a + b == a;
    } else {
      var c, m := b[..|b| - 1], b[|b| - 1];
      LocatedAppend(a, c);
      NewLinesAppend(a, c);
      LocatedSnoc(c, m);
      LocatedSnoc(a + c, m);
      assert c + [m] == b && a + c + [m] == a + b;
      hide Located, NewLines, Shifted;
      var piece := if m == NewLine then [] else [(NewLines(c), m)];
      ShiftedAppend(Located(c), piece, NewLines(a));
      ShiftedOne(NewLines(c), m, NewLines(a));
    }
  }

  lemma ShiftedAppend(p: seq<(nat, Mapping<string>)>, q: seq<(nat, Mapping<string>)>, lines: nat)
    ensures Shifted(p + q, lines) == Shifted(p, lines) + Shifted(q, lines)
  {
  }

  lemma ShiftedOne(line: nat, m: Mapping<string>, lines: nat)
    ensures Shifted([(line, m)], lines) == [(line + lines, m)] && Shifted([], lines) == []
  {
  }

  lemma LocatedSnoc(items: seq<Mapping<string>>, m: Mapping<string>)
    ensures Located(items + [m]) == Located(items) + if m == NewLine then [] else [(NewLines(items), m)]
  {
    assert (items + [m])[..|items|] == items;
  }

  lemma {:induction false} BlankHasNoSegments(n: nat)
    ensures Located(Blank(n)) == []
  {
    if n > 0 {
      BlankHasNoSegments(n - 1);
      assert Blank(n)[..n - 1] == Blank(n - 1);
    }
  }

  lemma {:induction false} TotalMeaningLines(ss: seq<Source>)
    requires forall i :: 0 <= i < |ss| ==> WellFormed(ss[i])
    ensures NewLines(TotalMeaning(ss)) == TotalLines(ss)
  {
    hide WellFormed, Meaning;
    if ss != [] {
      TotalMeaningLines(ss[..|ss| - 1]);
      MeaningHasItsLines(ss[|ss| - 1]);
      NewLinesAppend(TotalMeaning(ss[..|ss| - 1]), Meaning(ss[|ss| - 1]));
    }
  }

  /** Meaning preservation in ECMA-426 terms: by generated line, the combined map holds the inputs'
      segments in order, with lines shifted and nothing else changed. */
  lemma {:induction false} ConcatenationKeepsSegments(ss: seq<Source>)
    requires forall i :: 0 <= i < |ss| ==> WellFormed(ss[i])
    ensures Located(TotalMeaning(ss)) == Expected(ss)
  {
    hide WellFormed, Located, NewLines;
    if ss == [] {
      assert Located([]) == [] by { LocatedAppend([], []); NothingLocated(); }
    } else {
      var init, last := ss[..|ss| - 1], ss[|ss| - 1];
      var own := Named(Decode(last.mappings).items, last.sources);
      ConcatenationKeepsSegments(init);
      TotalMeaningLines(init);
      LocatedAppend(TotalMeaning(init), Meaning(last));
      MeaningIsOwnAndBlank(last);
    }
  }

  lemma NothingLocated()
    ensures Located([]) == []
  {
  }

  lemma MeaningIsOwnAndBlank(s: Source)
    requires WellFormed(s)
    ensures Located(Meaning(s)) == Located(Named(Decode(s.mappings).items, s.sources))
  {
    hide Located;
    var own := Named(Decode(s.mappings).items, s.sources);
    var n := s.sourceLines - NewLines(Decode(s.mappings).items);
    LocatedAppend(own, Blank(n));
    BlankHasNoSegments(n);
    assert Shifted(Located(Blank(n)), NewLines(own)) == [];
  }

  // ------------------------------------------------------------------ the depth-first walk

  /** A set of modules the bundler can take: no dependency is missing, every map is well formed, and
      the source indices of all of them together are within reach of the encoding. */
  ghost predicate Fit(modules: Modules) {
    && Closed(modules)
    && (forall p :: p in modules ==> WellFormed(modules[p].source) && Counted(modules[p].source))
    && (forall q :: Once(q) && Within(modules, q) ==> TotalNames(Sources(modules, q)) < LIMIT)
  }

  ghost predicate Within(modules: Modules, q: seq<Path>) {
    forall p :: p in q ==> p in modules
  }

  ghost predicate Consistent(modules: Modules, visited: set<Path>, emitted: seq<Path>) {
    Once(emitted) && (forall p :: p in emitted ==> p in visited) && visited <= modules.Keys
  }

  /** What a visit of m has done: v0, e0 before and v, e now. Modules that were entered and not emitted
      are the same as before; everything entered since is m or reachable from m, and complete. */
  ghost predicate Walked(modules: Modules, m: Path, v0: set<Path>, e0: seq<Path>, v: set<Path>, e: seq<Path>) {
    && Consistent(modules, v, e) && v0 <= v && e0 <= e && m in v
    && (forall p :: p in v && p !in e <==> p in v0 && p !in e0)
    && (forall p :: p in v && p !in v0 ==> p == m || Reach(DependencyEdges(modules), m, p))
    && (forall p, d :: p in v && p !in v0 && d in modules[p].dependencies ==> d in v)
  }

  /** The same in the middle of a visit, with m entered and its first i dependencies visited. */
  ghost predicate Walking(modules: Modules, m: Path, i: nat, v0: set<Path>, e0: seq<Path>, v: set<Path>, e: seq<Path>)
    requires m in modules && i <= |modules[m].dependencies|
  {
    && Consistent(modules, v, e) && v0 <= v && e0 <= e && m in v && m !in v0 && m !in e
    && (forall p :: p in v && p !in e <==> (p in v0 && p !in e0) || p == m)
    && (forall p :: p in v && p !in v0 ==> p == m || Reach(DependencyEdges(modules), m, p))
    && (forall p, d :: p in v && p !in v0 && p != m && d in modules[p].dependencies ==> d in v)
    && (forall k :: 0 <= k < i ==> modules[m].dependencies[k] in v)
  }

  /** Every module entered and not emitted ranks above m. */
  ghost predicate Above(rank: Node -> nat, v: set<Path>, e: seq<Path>, m: Path) {
    forall g :: g in v && g !in e ==> rank(g) > rank(m)
  }

  /** The builder has been given exactly the files emitted, in order. */
  ghost predicate Written(modules: Modules, q: seq<Path>, meaning: seq<Mapping<string>>, text: seq<Byte>,
                          table: seq<string>)
    requires Fit(modules)
  {
    && Within(modules, q)
    && meaning == TotalMeaning(Sources(modules, q))
    && text == TotalContent(Sources(modules, q))
    && |table| <= TotalNames(Sources(modules, q))
  }

  lemma SourcesSnoc(modules: Modules, q: seq<Path>, m: Path)
    requires Within(modules, q) && m in modules
    ensures Within(modules, q + [m]) && Sources(modules, q + [m]) == Sources(modules, q) + [modules[m].source]
    ensures Sources(modules, q + [m])[..|q|] == Sources(modules, q)
  {
  }

  lemma MayEmit(modules: Modules, q: seq<Path>, m: Path, v0: set<Path>, e0: seq<Path>, v: set<Path>,
                meaning: seq<Mapping<string>>, text: seq<Byte>, table: seq<string>)
    requires Fit(modules) && m in modules && Walking(modules, m, |modules[m].dependencies|, v0, e0, v, q)
    requires Written(modules, q, meaning, text, table)
    ensures WellFormed(modules[m].source) && Counted(modules[m].source)
    ensures |table| + |modules[m].source.sources| < LIMIT
  {
    hide WellFormed, Reach;
    SourcesSnoc(modules, q, m);
    assert Once(q + [m]);
    assert TotalNames(Sources(modules, q + [m])) < LIMIT;
  }

  lemma NowWritten(modules: Modules, q: seq<Path>, m: Path, meaning: seq<Mapping<string>>, text: seq<Byte>,
                   table: seq<string>, table': seq<string>)
    requires Fit(modules) && m in modules && Written(modules, q, meaning, text, table)
    requires |table'| <= |table| + |modules[m].source.sources|
    ensures Written(modules, q + [m], meaning + Meaning(modules[m].source), text + modules[m].source.content, table')
  {
    hide WellFormed, Meaning;
    SourcesSnoc(modules, q, m);
  }

  lemma AlreadyWalked(modules: Modules, m: Path, v: set<Path>, e: seq<Path>)
    requires Consistent(modules, v, e) && m in v
    ensures Walked(modules, m, v, e, v, e)
  {
  }

  lemma DependencyIsDefined(modules: Modules, m: Path, i: nat, v0: set<Path>, e0: seq<Path>, v: set<Path>, e: seq<Path>)
    requires Fit(modules) && m in modules && i < |modules[m].dependencies| && Walking(modules, m, i, v0, e0, v, e)
    ensures modules[m].dependencies[i] in modules
    ensures modules.Keys - v < modules.Keys - v0
  {
    hide Reach, WellFormed;
    assert m in modules.Keys - v0 && m !in modules.Keys - v;
  }

  lemma WalkBegins(modules: Modules, m: Path, v0: set<Path>, e0: seq<Path>)
    requires Consistent(modules, v0, e0) && m in modules && m !in v0
    ensures Walking(modules, m, 0, v0, e0, v0 + {m}, e0)
  {
  }

  lemma WalkContinues(modules: Modules, m: Path, i: nat, v0: set<Path>, e0: seq<Path>, v: set<Path>, e: seq<Path>,
                      v': set<Path>, e': seq<Path>)
    requires m in modules && i < |modules[m].dependencies|
    requires Walking(modules, m, i, v0, e0, v, e)
    requires Walked(modules, modules[m].dependencies[i], v, e, v', e')
    ensures Walking(modules, m, i + 1, v0, e0, v', e')
  {
    hide Reach, Once;
    var d := modules[m].dependencies[i];
    forall p | p in v' && p !in v0 && p != m ensures Reach(DependencyEdges(modules), m, p) {
      EdgeReach(DependencyEdges(modules), m, d);
      if p !in v && p != d { ReachTransitive(DependencyEdges(modules), m, d, p); }
    }
    forall p, c | p in v' && p !in v0 && p != m && c in modules[p].dependencies ensures c in v' {
      if p in v { assert c in v; }
    }
  }

  lemma WalkEnds(modules: Modules, m: Path, v0: set<Path>, e0: seq<Path>, v: set<Path>, e: seq<Path>)
    requires m in modules && Walking(modules, m, |modules[m].dependencies|, v0, e0, v, e)
    ensures Walked(modules, m, v0, e0, v, e + [m])
  {
    hide Reach;
  }

  lemma WalkedIsConsistent(modules: Modules, m: Path, v0: set<Path>, e0: seq<Path>, v: set<Path>, e: seq<Path>)
    requires Walked(modules, m, v0, e0, v, e)
    ensures Consistent(modules, v, e)
  {
  }

  lemma EmitKeepsOrder(modules: Modules, rank: Node -> nat, m: Path, v0: set<Path>, e0: seq<Path>, v: set<Path>,
                       e: seq<Path>)
    requires m in modules && Walking(modules, m, |modules[m].dependencies|, v0, e0, v, e)
    requires Ranks(DependencyEdges(modules), rank) && Above(rank, v0, e0, m) && DependenciesFirst(modules, e)
    ensures DependenciesFirst(modules, e + [m])
  {
    hide Reach, Once;
    var e' := e + [m];
    forall k, d | 0 <= k < |e'| && e'[k] in modules && d in modules[e'[k]].dependencies ensures d in e'[..k] {
      assert e'[..k] == e[..k];
      if k == |e| {
        assert (m, d) in DependencyEdges(modules);
        assert d in v;
        assert e[..k] == e;
      }
    }
  }

  lemma DependencyIsBelow(modules: Modules, rank: Node -> nat, m: Path, i: nat, v0: set<Path>, e0: seq<Path>,
                          v: set<Path>, e: seq<Path>)
    requires m in modules && i < |modules[m].dependencies| && Walking(modules, m, i, v0, e0, v, e)
    requires Ranks(DependencyEdges(modules), rank) && Above(rank, v0, e0, m)
    ensures Above(rank, v, e, modules[m].dependencies[i])
  {
    hide Reach, Once;
    assert (m, modules[m].dependencies[i]) in DependencyEdges(modules);
  }

  // ------------------------------------------------------------------ the order of the walk

  /** The visit of dependency d that took the output from a to b, of a module that went to k: a module not
      visited before comes out last, after its own dependencies from a on; one that was visited before, or is
      still being visited, adds nothing. */
  ghost predicate Leg(order: seq<Path>, cuts: map<Path, seq<nat>>, d: Path, a: nat, b: nat, k: nat) {
    && a <= b <= k <= |order|
    && (if a == b then d in order[..a] || d !in order[..k]
        else order[b - 1] == d && d in cuts && |cuts[d]| > 0 && cuts[d][0] == a)
  }

  /** The dependencies of the module at k were visited as listed, one after another, up to k. */
  ghost predicate Toured(modules: Modules, order: seq<Path>, cuts: map<Path, seq<nat>>, k: nat) {
    && k < |order| && order[k] in modules && order[k] in cuts
    && var ds, c := modules[order[k]].dependencies, cuts[order[k]];
      && |c| == |ds| + 1 && c[|ds|] == k
      && forall i :: 0 <= i < |ds| ==> Leg(order, cuts, ds[i], c[i], c[i + 1], k)
  }

  /** A depth-first walk that takes the dependencies of every module in the order of its list. */
  ghost predicate DepthFirst(modules: Modules, order: seq<Path>, cuts: map<Path, seq<nat>>) {
    && (forall p :: p in cuts <==> p in order)
    && forall k :: 0 <= k < |order| ==> Toured(modules, order, cuts, k)
  }

  /** The same in the middle of a visit, with the first i dependencies of m visited. */
  ghost predicate Touring(modules: Modules, m: Path, i: nat, c: seq<nat>, v0: set<Path>, e0: seq<Path>, e: seq<Path>,
                          cuts: map<Path, seq<nat>>)
    requires m in modules && i <= |modules[m].dependencies|
  {
    && |c| == i + 1 && c[0] == |e0| && c[i] == |e|
    && forall j :: 0 <= j < i ==> Passed(modules[m].dependencies[j], c[j], c[j + 1], m, v0, e0, e, cuts)
  }

  ghost predicate Passed(d: Path, a: nat, b: nat, m: Path, v0: set<Path>, e0: seq<Path>, e: seq<Path>,
                         cuts: map<Path, seq<nat>>) {
    && a <= b <= |e|
    && (if a == b then d in e[..a] || (d in v0 && d !in e0) || d == m
        else e[b - 1] == d && d in cuts && |cuts[d]| > 0 && cuts[d][0] == a)
  }

  /** What one visit of d has added. */
  ghost predicate Added(d: Path, v: set<Path>, e: seq<Path>, cuts: map<Path, seq<nat>>, e': seq<Path>,
                        cuts': map<Path, seq<nat>>) {
    && e <= e' && Keeps(cuts, cuts')
    && (if d in v then e' == e && cuts' == cuts
        else |e'| > |e| && e'[|e'| - 1] == d && d in cuts' && |cuts'[d]| > 0 && cuts'[d][0] == |e|)
  }

  ghost predicate Keeps(cuts: map<Path, seq<nat>>, cuts': map<Path, seq<nat>>) {
    forall p :: p in cuts ==> p in cuts' && cuts'[p] == cuts[p]
  }

  lemma TourBegins(modules: Modules, m: Path, v0: set<Path>, e0: seq<Path>, cuts0: map<Path, seq<nat>>)
    requires m in modules
    ensures Touring(modules, m, 0, [|e0|], v0, e0, e0, cuts0) && Keeps(cuts0, cuts0)
    ensures m in v0 ==> Added(m, v0, e0, cuts0, e0, cuts0)
  {
  }

  lemma TourContinues(modules: Modules, m: Path, i: nat, c: seq<nat>, v0: set<Path>, e0: seq<Path>, v: set<Path>,
                      e: seq<Path>, cuts: map<Path, seq<nat>>, e': seq<Path>, cuts': map<Path, seq<nat>>)
    requires m in modules && i < |modules[m].dependencies|
    requires Walking(modules, m, i, v0, e0, v, e) && Touring(modules, m, i, c, v0, e0, e, cuts)
    requires Added(modules[m].dependencies[i], v, e, cuts, e', cuts')
    ensures Touring(modules, m, i + 1, c + [|e'|], v0, e0, e', cuts')
    ensures forall cuts0 :: Keeps(cuts0, cuts) ==> Keeps(cuts0, cuts')
  {
    hide Reach, Once;
    var ds, c' := modules[m].dependencies, c + [|e'|];
    forall j | 0 <= j < i + 1 ensures Passed(ds[j], c'[j], c'[j + 1], m, v0, e0, e', cuts') {
      if j < i {
        assert Passed(ds[j], c[j], c[j + 1], m, v0, e0, e, cuts);
        assert e'[..c[j]] == e[..c[j]];
      } else {
        assert e'[..|e|] == e;
      }
    }
  }

  lemma TourEnds(modules: Modules, m: Path, c: seq<nat>, v0: set<Path>, e0: seq<Path>, cuts0: map<Path, seq<nat>>,
                 v: set<Path>, e: seq<Path>, cuts: map<Path, seq<nat>>)
    requires m in modules && Walking(modules, m, |modules[m].dependencies|, v0, e0, v, e)
    requires Touring(modules, m, |modules[m].dependencies|, c, v0, e0, e, cuts) && DepthFirst(modules, e, cuts)
    requires Keeps(cuts0, cuts)
    ensures DepthFirst(modules, e + [m], cuts[m := c]) && m !in cuts
    ensures Added(m, v0, e0, cuts0, e + [m], cuts[m := c])
  {
    hide Reach, Once;
    var order, cuts', ds := e + [m], cuts[m := c], modules[m].dependencies;
    forall i | 0 <= i < |ds| ensures Leg(order, cuts', ds[i], c[i], c[i + 1], |e|) {
      assert Passed(ds[i], c[i], c[i + 1], m, v0, e0, e, cuts);
      assert order[..|e|] == e && order[..c[i]] == e[..c[i]];
    }
    forall k | 0 <= k < |e| ensures Toured(modules, order, cuts', k) {
      TourStays(modules, e, cuts, m, c, k);
    }
  }

  lemma TourStays(modules: Modules, e: seq<Path>, cuts: map<Path, seq<nat>>, m: Path, c: seq<nat>, k: nat)
    requires Toured(modules, e, cuts, k) && m !in e && m !in cuts
    ensures Toured(modules, e + [m], cuts[m := c], k)
  {
    var ds, c0 := modules[e[k]].dependencies, cuts[e[k]];
    forall i | 0 <= i < |ds| ensures Leg(e + [m], cuts[m := c], ds[i], c0[i], c0[i + 1], k) {
      assert Leg(e, cuts, ds[i], c0[i], c0[i + 1], k);
      assert (e + [m])[..k] == e[..k] && (e + [m])[..c0[i]] == e[..c0[i]];
    }
  }

  /** `visited` and the walk itself; `emitted` is the order in which files reach the builder. */
  class Bundler {
    const builder: SourceMapBuilder
    var visited: set<Path>
    ghost var emitted: seq<Path>
    /** How much had been emitted before each dependency of a module was visited, and after the last. */
    ghost var cuts: map<Path, seq<nat>>

    ghost predicate Valid(modules: Modules)
      requires Fit(modules)
      reads this, builder, builder.outputBuffer, builder.mappings, builder.outputBuffer.buffer, builder.mappings.buffer
    {
      && builder.Valid()
      && Consistent(modules, visited, emitted)
      && DepthFirst(modules, emitted, cuts)
      && Written(modules, emitted, builder.meaning, builder.text, builder.sources)
      && builder.unmatched == 0
    }

    constructor (ghost modules: Modules)
      requires Fit(modules)
      ensures Valid(modules) && visited == {} && emitted == []
      ensures fresh(builder) && fresh(builder.outputBuffer) && fresh(builder.mappings)
      ensures fresh(builder.outputBuffer.buffer) && fresh(builder.mappings.buffer)
    {
      builder := new SourceMapBuilder();
      visited, emitted, cuts := {}, [], map[];
    }

    method Visit(modules: Modules, m: Path, ghost rank: Node -> nat)
      requires Fit(modules) && Valid(modules) && m in modules
      modifies this, builder, builder.outputBuffer, builder.mappings
      modifies builder.outputBuffer.buffer, builder.mappings.buffer
      ensures Valid(modules)
      ensures builder.outputBuffer.buffer == old(builder.outputBuffer.buffer) || fresh(builder.outputBuffer.buffer)
      ensures builder.mappings.buffer == old(builder.mappings.buffer) || fresh(builder.mappings.buffer)
      ensures Walked(modules, m, old(visited), old(emitted), visited, emitted)
      ensures Added(m, old(visited), old(emitted), old(cuts), emitted, cuts)
      ensures Ranks(DependencyEdges(modules), rank) && Above(rank, old(visited), old(emitted), m) ==>
                DependenciesFirst(modules, old(emitted)) ==> DependenciesFirst(modules, emitted)
      decreases modules.Keys - visited
    {
      hide Fit, Consistent, Walked, Walking, Written, DependenciesFirst, Above, Ranks, SourceMapBuilder.Valid,
           SourceMapBuilder.Buffers, DepthFirst, Touring, Added, Keeps;
      ghost var v0, e0, cuts0 := visited, emitted, cuts;
      TourBegins(modules, m, v0, e0, cuts0);
      if m in visited {
        AlreadyWalked(modules, m, v0, e0);
        return;
      }
      visited := visited + {m};
      WalkBegins(modules, m, v0, e0);
      var dependencies := modules[m].dependencies;
      ghost var c: seq<nat> := [|e0|];
      var i := 0;
      while i < |dependencies|
        invariant 0 <= i <= |dependencies|
        invariant Touring(modules, m, i, c, v0, e0, emitted, cuts) && Keeps(cuts0, cuts)
        invariant Valid(modules)
        invariant builder.outputBuffer.buffer == old(builder.outputBuffer.buffer) || fresh(builder.outputBuffer.buffer)
        invariant builder.mappings.buffer == old(builder.mappings.buffer) || fresh(builder.mappings.buffer)
        invariant Walking(modules, m, i, v0, e0, visited, emitted)
        invariant Ranks(DependencyEdges(modules), rank) && Above(rank, v0, e0, m) ==>
                    DependenciesFirst(modules, e0) ==> DependenciesFirst(modules, emitted)
      {
        ghost var v, e, cuts1 := visited, emitted, cuts;
        DependencyIsDefined(modules, m, i, v0, e0, v, e);
        if Ranks(DependencyEdges(modules), rank) && Above(rank, v0, e0, m) {
          DependencyIsBelow(modules, rank, m, i, v0, e0, v, e);
        }
        Visit(modules, dependencies[i], rank);
        TourContinues(modules, m, i, c, v0, e0, v, e, cuts1, emitted, cuts);
        c := c + [|emitted|];
        WalkContinues(modules, m, i, v0, e0, v, e, visited, emitted);
        i := i + 1;
      }
      WalkEnds(modules, m, v0, e0, visited, emitted);
      TourEnds(modules, m, c, v0, e0, cuts0, visited, emitted, cuts);
      if Ranks(DependencyEdges(modules), rank) && Above(rank, v0, e0, m) && DependenciesFirst(modules, e0) {
        EmitKeepsOrder(modules, rank, m, v0, e0, visited, emitted);
      }
      Emit(modules, m, v0, e0, c);
    }

    method Emit(modules: Modules, m: Path, ghost v0: set<Path>, ghost e0: seq<Path>, ghost c: seq<nat>)
      requires Fit(modules) && Valid(modules) && m in modules
      requires Walking(modules, m, |modules[m].dependencies|, v0, e0, visited, emitted)
      requires DepthFirst(modules, emitted + [m], cuts[m := c])
      modifies this`emitted, this`cuts, builder, builder.outputBuffer, builder.mappings
      modifies builder.outputBuffer.buffer, builder.mappings.buffer
      ensures Valid(modules) && emitted == old(emitted) + [m] && cuts == old(cuts)[m := c]
      ensures builder.outputBuffer.buffer == old(builder.outputBuffer.buffer) || fresh(builder.outputBuffer.buffer)
      ensures builder.mappings.buffer == old(builder.mappings.buffer) || fresh(builder.mappings.buffer)
    {
      hide Fit, Consistent, Walked, Walking, Written, DependenciesFirst, SourceMapBuilder.Valid,
           SourceMapBuilder.Buffers, DepthFirst;
      ghost var meaning, text, table := builder.meaning, builder.text, builder.sources;
      MayEmit(modules, emitted, m, v0, e0, visited, meaning, text, table);
      builder.AddSource(modules[m].source);
      NowWritten(modules, emitted, m, meaning, text, table, builder.sources);
      WalkEnds(modules, m, v0, e0, visited, emitted);
      WalkedIsConsistent(modules, m, v0, e0, visited, emitted + [m]);
      emitted, cuts := emitted + [m], cuts[m := c];
    }
  }

  /** The whole bundle (`inlined` is the comment line that carries the encoded map): each module reachable
      from the entry point once, in the order of the depth-first walk from the entry point, so dependencies
      before dependents when the graph is acyclic, and a map that means the concatenation of their maps. */
  method BundleWithDependencies(modules: Modules, entry: Path, inlined: (seq<string>, seq<Byte>) -> seq<Byte>,
                                ghost rank: Node -> nat)
      returns (content: seq<Byte>, table: seq<string>, combined: seq<Byte>, ghost order: seq<Path>,
               ghost cuts: map<Path, seq<nat>>)
    requires Fit(modules) && entry in modules
    ensures Once(order) && forall p :: p in order <==> p == entry || Reach(DependencyEdges(modules), entry, p)
    ensures DepthFirst(modules, order, cuts) && entry in cuts && |cuts[entry]| > 0 && cuts[entry][0] == 0
    ensures |order| > 0 && order[|order| - 1] == entry
    ensures Ranks(DependencyEdges(modules), rank) ==> DependenciesFirst(modules, order)
    ensures Within(modules, order)
    ensures content == TotalContent(Sources(modules, order)) + inlined(table, combined) + [NEWLINE]
    ensures Decode(combined).ok
    ensures Located(Named(Decode(combined).items, table)) == Expected(Sources(modules, order))
    ensures NewLines(Decode(combined).items) == CountNL(TotalContent(Sources(modules, order)))
  {
    hide Fit, Consistent, Walked, DependenciesFirst, Reach, Located, Expected, NewLines, CountNL, Ranks, DepthFirst,
         Keeps;
    var bundler := new Bundler(modules);
    NothingEmitted(modules, rank, entry);
    bundler.Visit(modules, entry, rank);
    order, cuts := bundler.emitted, bundler.cuts;
    WalkIsReach(modules, entry, bundler.visited, order);
    table, combined := bundler.builder.ToSourceMap();
    bundler.builder.AddLine(inlined(table, combined));
    content := bundler.builder.ToContent();
    FitIsWellFormed(modules, order);
    ConcatenationKeepsSegments(Sources(modules, order));
  }

  lemma NothingEmitted(modules: Modules, rank: Node -> nat, m: Path)
    ensures Above(rank, {}, [], m) && DependenciesFirst(modules, [])
  {
  }

  lemma FitIsWellFormed(modules: Modules, q: seq<Path>)
    requires Fit(modules) && Within(modules, q)
    ensures forall i :: 0 <= i < |Sources(modules, q)| ==> WellFormed(Sources(modules, q)[i])
  {
    hide WellFormed;
  }

  lemma WalkIsReach(modules: Modules, m: Path, v: set<Path>, e: seq<Path>)
    requires Fit(modules) && Walked(modules, m, {}, [], v, e)
    ensures Once(e) && forall p :: p in e <==> p == m || Reach(DependencyEdges(modules), m, p)
  {
    hide WellFormed;
    forall p | Reach(DependencyEdges(modules), m, p) ensures p in v {
      var w :| IsPath(DependencyEdges(modules), m, p, w);
      ClosedWalk(DependencyEdges(modules), v, w);
    }
  }
}
