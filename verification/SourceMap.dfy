/** Concatenating generated files together with their source maps. */
module SourceMap {
  import opened Common
  import opened Vlq
  import opened Mappings
  import opened DynamicBuffers

  const NEWLINE: Byte := 10

  function CountNL(b: seq<Byte>): nat {
    if b == [] then 0 else CountNL(b[..|b| - 1]) + (if b[|b| - 1] == NEWLINE then 1 else 0)
  }

  lemma {:induction false} CountNLAppend(a: seq<Byte>, b: seq<Byte>)
    ensures CountNL(a + b) == CountNL(a) + CountNL(b)
  {
    if b == [] {
      assert a + b == a;
    } else {
      CountNLAppend(a, b[..|b| - 1]);
      assert (a + b)[..|a + b| - 1] == a + b[..|b| - 1];
    }
  }

  method CountNewLines(b: seq<Byte>) returns (res: nat)
    ensures res == CountNL(b)
  {
    res := 0;
    var i := 0;
    while i < |b|
      invariant 0 <= i <= |b| && res == CountNL(b[..i])
    {
      assert b[..i + 1][..i] == b[..i];
      if b[i] == NEWLINE { res := res + 1; }
      i := i + 1;
    }
    assert b[..i] == b;
  }

  /** A generated file and its map, once its content ends with a line end. */
  datatype Source = Source(content: seq<Byte>, sources: seq<string>, mappings: seq<Byte>, sourceLines: nat)

  /** The content is completed by a line end unless it is empty or has one, and its lines are counted. */
  method NewSource(content: seq<Byte>, sources: seq<string>, mappings: seq<Byte>) returns (s: Source)
    ensures s.sources == sources && s.mappings == mappings
    ensures s.content == if content == [] || content[|content| - 1] == 10 then content else content + [10]
    ensures Counted(s)
  {
    var sourceLines := CountNewLines(content);
    if |content| > 0 && content[|content| - 1] != NEWLINE {
      CountNLAppend(content, [NEWLINE]);
      return Source(content + [NEWLINE], sources, mappings, sourceLines + 1);
    }
    return Source(content, sources, mappings, sourceLines);
  }

  predicate Counted(s: Source) {
    s.sourceLines == CountNL(s.content)
  }

  predicate InTable(items: seq<Mapping0>, n: nat) {
    forall i :: 0 <= i < |items| ==> items[i].Original? ==> 0 <= items[i].source < n
  }

  /** A map whose string decodes, refers to its own sources only, and stays within the file's lines. */
  predicate WellFormed(s: Source) {
    var d := Decode(s.mappings);
    && d.ok
    && InTable(d.items, |s.sources|)
    && (NewLines(d.items) < s.sourceLines || (NewLines(d.items) == s.sourceLines && AtLineStart(d.items)))
  }

  function NameOf(m: Mapping0, sources: seq<string>): Mapping<string> {
    match m
    case NewLine => NewLine
    case Generated(c) => Generated(c)
    case Original(c, s, l, sc) => Original(c, if 0 <= s < |sources| then sources[s] else "", l, sc)
  }

  function Named(items: seq<Mapping0>, sources: seq<string>): (r: seq<Mapping<string>>)
    ensures |r| == |items| && forall i :: 0 <= i < |items| ==> r[i] == NameOf(items[i], sources)
  {
    seq(|items|, i requires 0 <= i < |items| => NameOf(items[i], sources))
  }

  function Blank(n: nat): (r: seq<Mapping<string>>)
    ensures |r| == n && forall i :: 0 <= i < n ==> r[i] == NewLine
  {
    seq(n, i => NewLine)
  }

  /** What one file contributes: its absolute segments by source name, one line end for each of its lines. */
  function Meaning(s: Source): seq<Mapping<string>>
    requires WellFormed(s)
  {
    var items := Decode(s.mappings).items;
    Named(items, s.sources) + Blank(s.sourceLines - NewLines(items))
  }

  /** Nothing is pending and the next segment starts a line. */
  predicate AtRest(d: Decoder) {
    d.ok && d.value == 0 && d.digits == 0 && d.fields == 0
  }

  function Remapped(m: Mapping0, remap: seq<nat>): Mapping0 {
    match m
    case Original(c, s, l, sc) => Original(c, if 0 <= s < |remap| then remap[s] else 0, l, sc)
    case _ => m
  }

  function RemapAll(items: seq<Mapping0>, remap: seq<nat>): (r: seq<Mapping0>)
    ensures |r| == |items| && forall i :: 0 <= i < |items| ==> r[i] == Remapped(items[i], remap)
  {
    seq(|items|, i requires 0 <= i < |items| => Remapped(items[i], remap))
  }

  /** The decoder of the output once `commit` has written the pending segment of the input decoder. */
  function Committed(out: Decoder, inp: Decoder, remap: seq<nat>): Decoder {
    if inp.fields == 0 then out
    else if inp.fields == 1 then out.(fields := 1, column := inp.column)
    else out.(fields := 4, column := inp.column,
              source := if 0 <= inp.source < |remap| then remap[inp.source] else 0,
              line := inp.line, sourceColumn := inp.sourceColumn)
  }

  /** The output so far is the old output followed by the input so far, sources renumbered. */
  ghost predicate Mirrors(out: Decoder, inp: Decoder, base: seq<Mapping0>, remap: seq<nat>) {
    out.items == base + RemapAll(inp.items, remap)
  }

  lemma SeparatorMirrors(out: Decoder, inp: Decoder, base: seq<Mapping0>, remap: seq<nat>, b: Byte)
    requires Mirrors(out, inp, base, remap) && AtRest(out) && InRange(out) && InRange(inp)
    requires b == SEMICOLON || b == COMMA
    requires Feed(inp, b).ok
    ensures var out' := Feed(Committed(out, inp, remap), b);
      && AtRest(out') && Mirrors(out', Feed(inp, b), base, remap)
      && out'.source == Committed(out, inp, remap).source
      && out'.line == Committed(out, inp, remap).line
      && out'.sourceColumn == Committed(out, inp, remap).sourceColumn
      && out'.column == if b == SEMICOLON then 0 else Committed(out, inp, remap).column
  {
    EndMirrors(out, inp, base, remap);
    var e, f := EndSegment(Committed(out, inp, remap)), EndSegment(inp);
    assert RemapAll(f.items + [NewLine], remap) == RemapAll(f.items, remap) + [NewLine];
    assert base + (RemapAll(f.items, remap) + [NewLine]) == base + RemapAll(f.items, remap) + [NewLine];
  }

  lemma EndMirrors(out: Decoder, inp: Decoder, base: seq<Mapping0>, remap: seq<nat>)
    requires Mirrors(out, inp, base, remap) && AtRest(out)
    requires EndSegment(inp).ok
    ensures var e := EndSegment(Committed(out, inp, remap));
      && AtRest(e) && Mirrors(e, EndSegment(inp), base, remap)
      && e == Committed(out, inp, remap).(fields := 0, items := e.items)
  {
    var f := EndSegment(inp);
    if inp.fields > 0 {
      var m := f.items[|f.items| - 1];
      assert f.items == inp.items + [m];
      assert RemapAll(f.items, remap) == RemapAll(inp.items, remap) + [Remapped(m, remap)];
      var done := RemapAll(inp.items, remap);
      assert base + (done + [Remapped(m, remap)]) == base + done + [Remapped(m, remap)];
    }
  }

  // ------------------------------------------------------------------ names

  /** The table only grows at the end, so segments already written keep their names. */
  lemma NamesSurvive(items: seq<Mapping0>, table: seq<string>, table': seq<string>)
    requires InTable(items, |table|) && table <= table'
    ensures Named(items, table') == Named(items, table) && InTable(items, |table'|)
  {
  }

  lemma NamedAppend(a: seq<Mapping0>, b: seq<Mapping0>, table: seq<string>)
    ensures Named(a + b, table) == Named(a, table) + Named(b, table)
  {
  }

  /** Renumbering against the table keeps the name of every source. */
  lemma NamesThroughRemap(items: seq<Mapping0>, names: seq<string>, remap: seq<nat>, table: seq<string>)
    requires InTable(items, |names|) && |remap| == |names|
    requires forall i :: 0 <= i < |remap| ==> remap[i] < |table| && table[remap[i]] == names[i]
    ensures Named(RemapAll(items, remap), table) == Named(items, names)
    ensures InTable(RemapAll(items, remap), |table|)
  {
  }

  lemma {:induction false} NewLinesNamed(items: seq<Mapping0>, table: seq<string>)
    ensures NewLines(Named(items, table)) == NewLines(items)
  {
    if items != [] {
      NewLinesNamed(items[..|items| - 1], table);
      assert Named(items, table)[..|items| - 1] == Named(items[..|items| - 1], table);
    }
  }

  lemma {:induction false} NewLinesBlank(n: nat)
    ensures NewLines(Blank(n)) == n
  {
    if n > 0 {
      NewLinesBlank(n - 1);
      assert Blank(n)[..n - 1] == Blank(n - 1);
    }
  }

  /** A file contributes as many line ends to the map as to the text. */
  lemma MeaningHasItsLines(s: Source)
    requires WellFormed(s)
    ensures NewLines(Meaning(s)) == s.sourceLines
  {
    var items := Decode(s.mappings).items;
    NewLinesAppend(Named(items, s.sources), Blank(s.sourceLines - NewLines(items)));
    NewLinesNamed(items, s.sources);
    NewLinesBlank(s.sourceLines - NewLines(items));
  }
}
