/** The builder itself: one pass over each map, decoding and re-encoding as it goes. */
module SourceMapBuilders {
  import opened Common
  import opened Vlq
  import opened Mappings
  import opened DynamicBuffers
  import opened SourceMap

  ghost predicate Distinct(q: seq<string>) {
    forall i, j :: 0 <= i < j < |q| ==> q[i] != q[j]
  }

  /** Where each of a map's sources is in the builder's table. */
  ghost predicate Renumbers(remap: seq<nat>, names: seq<string>, table: seq<string>) {
    && |remap| == |names|
    && forall i :: 0 <= i < |remap| ==> remap[i] < |table| && table[remap[i]] == names[i]
  }

  /** Writing the four deltas of a segment takes a decoder at rest to that segment. */
  lemma FourFields(out: Decoder, inp: Decoder, remap: seq<nat>)
    requires AtRest(out) && InRange(out) && InRange(inp) && inp.fields >= 2
    requires 0 <= inp.source < |remap| && remap[inp.source] < LIMIT
    ensures PutField(PutField(PutField(PutField(out, inp.column - out.column), remap[inp.source] - out.source),
              inp.line - out.line), inp.sourceColumn - out.sourceColumn) == Committed(out, inp, remap)
  {
  }

  /** Output that is at the start of a line and means what is intended, line for line with the text
      but for the line ends inside lines that were added whole. */
  ghost predicate Coherent(d: Decoder, table: seq<string>, meaning: seq<Mapping<string>>, text: seq<Byte>,
                           unmatched: nat)
  {
    && AtRest(d) && d.column == 0
    && InTable(d.items, |table|) && Distinct(table)
    && Named(d.items, table) == meaning
    && NewLines(meaning) + unmatched == CountNL(text)
  }

  class SourceMapBuilder {
    const outputBuffer: DynamicBuffer
    const mappings: DynamicBuffer
    var sources: seq<string>
    var lastSourceIndex: int
    var lastSourceLine: int
    var lastSourceCol: int
    /** Everything written to the output, and what the mappings written so far mean. */
    ghost var text: seq<Byte>
    ghost var meaning: seq<Mapping<string>>
    /** Line ends inside the lines given to `AddLine`, for which the map has none. */
    ghost var unmatched: nat

    ghost predicate Buffers()
      reads this, outputBuffer, mappings, outputBuffer.buffer, mappings.buffer
    {
      outputBuffer != mappings && outputBuffer.buffer != mappings.buffer && outputBuffer.Valid() && mappings.Valid()
    }

    ghost function Out(): Decoder
      requires mappings.size <= mappings.buffer.Length
      reads this, mappings, mappings.buffer
    {
      Run(Start, mappings.Contents())
    }

    ghost predicate Valid()
      reads this, outputBuffer, mappings, outputBuffer.buffer, mappings.buffer
    {
      && Buffers()
      && outputBuffer.Contents() == text
      && Positions(Out())
      && Coherent(Out(), sources, meaning, text, unmatched)
    }

    ghost predicate Positions(d: Decoder)
      reads this
    {
      d.source == lastSourceIndex && d.line == lastSourceLine && d.sourceColumn == lastSourceCol
    }

    constructor ()
      ensures Valid() && text == [] && meaning == [] && sources == [] && unmatched == 0
      ensures fresh(outputBuffer) && fresh(mappings) && fresh(outputBuffer.buffer) && fresh(mappings.buffer)
    {
      outputBuffer := new DynamicBuffer();
      mappings := new DynamicBuffer();
      sources, text, meaning, unmatched := [], [], [], 0;
      lastSourceIndex, lastSourceLine, lastSourceCol := 0, 0, 0;
    }

    /** The closure `commit`: the pending segment is written with positions relative to what was written last. */
    method Commit(ghost inp: Decoder, valpos: nat, inOutputCol: int, inSourceIndex: int, inSourceLine: int,
                  inSourceCol: int, sourceRemap: seq<nat>, lastOutputCol: int)
        returns (newLastOutputCol: int)
      requires Buffers() && AtRest(Out()) && InRange(Out()) && InRange(inp)
      requires Positions(Out()) && Out().column == lastOutputCol
      requires valpos == inp.fields && inOutputCol == inp.column
      requires inSourceIndex == inp.source && inSourceLine == inp.line && inSourceCol == inp.sourceColumn
      requires valpos >= 2 ==> 0 <= inSourceIndex < |sourceRemap| && sourceRemap[inSourceIndex] < LIMIT
      modifies this`lastSourceIndex, this`lastSourceLine, this`lastSourceCol, mappings, mappings.buffer
      ensures Buffers() && (mappings.buffer == old(mappings.buffer) || fresh(mappings.buffer))
      ensures Out() == Committed(old(Out()), inp, sourceRemap)
      ensures Positions(Out()) && Out().column == newLastOutputCol
    {
      hide Run, Encode, PutField, InRange, Committed;
      newLastOutputCol := lastOutputCol;
      ghost var out := Out();
      Deltas(out, inp, sourceRemap);
      if valpos == 0 { return; }
      Write(inOutputCol - lastOutputCol);
      newLastOutputCol := inOutputCol;
      if valpos == 1 {
        OneField(out, inp, sourceRemap);
        return;
      }
      WriteOriginal(sourceRemap[inSourceIndex], inSourceLine, inSourceCol);
      FourFields(out, inp, sourceRemap);
    }

    /** The last three fields, each relative to what was written last for any file. */
    method WriteOriginal(outSourceIndex: int, inSourceLine: int, inSourceCol: int)
      requires Buffers() && Out().value == 0 && Out().digits == 0
      requires -LIMIT < outSourceIndex - lastSourceIndex < LIMIT
      requires -LIMIT < inSourceLine - lastSourceLine < LIMIT
      requires -LIMIT < inSourceCol - lastSourceCol < LIMIT
      modifies this`lastSourceIndex, this`lastSourceLine, this`lastSourceCol, mappings, mappings.buffer
      ensures Buffers() && (mappings.buffer == old(mappings.buffer) || fresh(mappings.buffer))
      ensures Out() == PutField(PutField(PutField(old(Out()), outSourceIndex - old(lastSourceIndex)),
        inSourceLine - old(lastSourceLine)), inSourceCol - old(lastSourceCol))
      ensures lastSourceIndex == outSourceIndex && lastSourceLine == inSourceLine && lastSourceCol == inSourceCol
    {
      hide Run, Encode, PutField;
      Write(outSourceIndex - lastSourceIndex);
      lastSourceIndex := outSourceIndex;
      Write(inSourceLine - lastSourceLine);
      lastSourceLine := inSourceLine;
      Write(inSourceCol - lastSourceCol);
      lastSourceCol := inSourceCol;
    }

    method Write(n: int)
      requires Buffers() && Out().value == 0 && Out().digits == 0 && -LIMIT < n < LIMIT
      modifies mappings, mappings.buffer
      ensures Buffers() && (mappings.buffer == old(mappings.buffer) || fresh(mappings.buffer))
      ensures Out() == PutField(old(Out()), n) && Out().value == 0 && Out().digits == 0
    {
      ghost var before := mappings.Contents();
      mappings.AddVLQ(n);
      RunAppend(Start, before, Encode(n));
      RunEncoded(Run(Start, before), n);
    }

    method Separate(b: Byte)
      requires Buffers()
      modifies mappings, mappings.buffer
      ensures Buffers() && (mappings.buffer == old(mappings.buffer) || fresh(mappings.buffer))
      ensures Out() == Feed(old(Out()), b)
    {
      ghost var before := mappings.Contents();
      mappings.AddByte(b);
      RunByte(Start, before, b);
    }

    /** A file's sources are looked up in the table and appended to it when they are new. */
    method RemapSources(names: seq<string>) returns (sourceRemap: seq<nat>)
      requires Distinct(sources)
      modifies this`sources
      ensures old(sources) <= sources && Distinct(sources) && |sources| <= |old(sources)| + |names|
      ensures Renumbers(sourceRemap, names, sources)
    {
      sourceRemap := [];
      var i := 0;
      while i < |names|
        invariant 0 <= i <= |names|
        invariant old(sources) <= sources && Distinct(sources) && |sources| <= |old(sources)| + i
        invariant Renumbers(sourceRemap, names[..i], sources)
      {
        var pos := IndexOf(sources, names[i]);
        if pos < 0 {
          pos := |sources|;
          sources := sources + [names[i]];
        }
        sourceRemap := sourceRemap + [pos];
        i := i + 1;
      }
      assert names[..i] == names;
    }

    /** The byte loop of `addSource`, up to and including its last commit. */
    method Transcribe(input: seq<Byte>, sourceRemap: seq<nat>) returns (outputLine: nat)
      requires Buffers() && AtRest(Out()) && InRange(Out()) && Out().column == 0 && Positions(Out())
      requires Decode(input).ok && InTable(Decode(input).items, |sourceRemap|)
      requires forall i :: 0 <= i < |sourceRemap| ==> sourceRemap[i] < LIMIT
      modifies this`lastSourceIndex, this`lastSourceLine, this`lastSourceCol, mappings, mappings.buffer
      ensures Buffers() && (mappings.buffer == old(mappings.buffer) || fresh(mappings.buffer))
      ensures exists out ::
        Transcribed(old(Out()), out, input, sourceRemap) && Out() == Committed(out, Run(Start, input), sourceRemap)
      ensures Positions(Out()) && outputLine == NewLines(Run(Start, input).items)
    {
      hide Run, Feed, Mirrors, EndSegment, RemapAll, Committed, InTable;
      ghost var out0 := Out();
      var lastOutputCol, ip := 0, 0;
      var inOutputCol, inSourceIndex, inSourceLine, inSourceCol := 0, 0, 0, 0;
      var shift, value, valpos := 0, 0, 0;
      outputLine := 0;
      TranscribeStarts(out0, input, sourceRemap);
      while ip < |input|
        invariant 0 <= ip <= |input|
        invariant Buffers() && (mappings.buffer == old(mappings.buffer) || fresh(mappings.buffer))
        invariant Transcribed(out0, Out(), input[..ip], sourceRemap)
        invariant Positions(Out()) && Out().column == lastOutputCol
        invariant var inp := Run(Start, input[..ip]);
          && value == inp.value && shift == 5 * inp.digits && valpos == inp.fields
          && inOutputCol == inp.column && inSourceIndex == inp.source
          && inSourceLine == inp.line && inSourceCol == inp.sourceColumn
          && outputLine == NewLines(inp.items)
      {
        var b := input[ip];
        ghost var inp := Run(Start, input[..ip]);
        NextByte(input, ip, |sourceRemap|);
        ip := ip + 1;
        if b == SEMICOLON {
          ghost var out := Out();
          lastOutputCol := Commit(
            inp, valpos, inOutputCol, inSourceIndex, inSourceLine, inSourceCol, sourceRemap, lastOutputCol);
          valpos := 0;
          SeparatorTranscribes(out0, out, input, ip, sourceRemap);
          Separate(SEMICOLON);
          inOutputCol := 0;
          lastOutputCol := 0;
          outputLine := outputLine + 1;
        } else if b == COMMA {
          ghost var out := Out();
          lastOutputCol := Commit(
            inp, valpos, inOutputCol, inSourceIndex, inSourceLine, inSourceCol, sourceRemap, lastOutputCol);
          valpos := 0;
          SeparatorTranscribes(out0, out, input, ip, sourceRemap);
          Separate(COMMA);
        } else {
          var c := CharToInteger(b);
          DigitTranscribes(out0, Out(), input, ip, sourceRemap);
          value := value + ShiftLeft(c % 32, shift);
          if Continues(c) {
            shift := shift + 5;
          } else {
            value := Signed(value);
            match valpos {
              case 0 => inOutputCol := inOutputCol + value;
              case 1 => inSourceIndex := inSourceIndex + value;
              case 2 => inSourceLine := inSourceLine + value;
              case 3 => inSourceCol := inSourceCol + value;
              case _ =>
            }
            valpos := valpos + 1;
            value, shift := 0, 0;
          }
        }
      }
      assert input[..ip] == input;
      ghost var inp := Run(Start, input);
      ghost var out := Out();
      LastSegment(input, |sourceRemap|);
      lastOutputCol := Commit(
        inp, valpos, inOutputCol, inSourceIndex, inSourceLine, inSourceCol, sourceRemap, lastOutputCol);
    }

    /** The lines of the file that its map does not reach. */
    method Pad(ghost out0: Decoder, input: seq<Byte>, remap: seq<nat>, from: nat, sourceLines: nat)
      requires Buffers() && Decode(input).ok && from == NewLines(Run(Start, input).items)
      requires from < sourceLines || (from == sourceLines && AtLineStart(Decode(input).items))
      requires exists out :: Transcribed(out0, out, input, remap) && Out() == Committed(out, Run(Start, input), remap)
      modifies mappings, mappings.buffer
      ensures Buffers() && (mappings.buffer == old(mappings.buffer) || fresh(mappings.buffer))
      ensures AtRest(Out()) && Out().column == 0
      ensures Out().items == out0.items + RemapAll(Decode(input).items, remap) + Lines(sourceLines - from)
      ensures Out().source == old(Out()).source && Out().line == old(Out()).line
      ensures Out().sourceColumn == old(Out()).sourceColumn
    {
      hide Run, Mirrors, RemapAll, Committed, EndSegment, Feed, NewLines, InRange;
      ghost var out :| Transcribed(out0, out, input, remap) && Out() == Committed(out, Run(Start, input), remap);
      ghost var before := Out();
      LineEnds(out0, out, input, remap);
      var outputLine := from;
      while outputLine < sourceLines
        invariant from <= outputLine <= sourceLines
        invariant Buffers() && (mappings.buffer == old(mappings.buffer) || fresh(mappings.buffer))
        invariant outputLine == from ==> Out() == before
        invariant outputLine > from ==> AtRest(Out()) && Out().column == 0
        invariant outputLine > from ==>
                    Out().items == out0.items + RemapAll(Decode(input).items, remap) + Lines(outputLine - from)
        invariant Out().source == before.source && Out().line == before.line
        invariant Out().sourceColumn == before.sourceColumn
      {
        ghost var d := Out();
        AtRestEnds(d, out0.items + RemapAll(Decode(input).items, remap));
        Separate(SEMICOLON);
        OneMoreLine(d, out0.items + RemapAll(Decode(input).items, remap), outputLine - from);
        outputLine := outputLine + 1;
      }
    }

    method AddSource(source: Source)
      requires Valid() && WellFormed(source) && Counted(source)
      requires |sources| + |source.sources| < LIMIT
      modifies this, outputBuffer, outputBuffer.buffer, mappings, mappings.buffer
      ensures Valid() && unmatched == old(unmatched)
      ensures meaning == old(meaning) + Meaning(source)
      ensures text == old(text) + source.content
      ensures old(sources) <= sources && |sources| <= |old(sources)| + |source.sources|
      ensures outputBuffer.buffer == old(outputBuffer.buffer) || fresh(outputBuffer.buffer)
      ensures mappings.buffer == old(mappings.buffer) || fresh(mappings.buffer)
    {
      hide Run, CountNL, WellFormed, Meaning, Coherent, Counted;
      outputBuffer.AddBuffer(source.content);
      CopyMap(source);
      text := text + source.content;
      meaning := meaning + Meaning(source);
    }

    /** The file's map, its sources renumbered, and the line ends it lacks. */
    method CopyMap(source: Source)
      requires Buffers() && Positions(Out()) && Coherent(Out(), sources, meaning, text, unmatched)
      requires WellFormed(source) && Counted(source) && |sources| + |source.sources| < LIMIT
      modifies this`sources, this`lastSourceIndex, this`lastSourceLine, this`lastSourceCol, mappings, mappings.buffer
      ensures Buffers() && Positions(Out())
      ensures Coherent(Out(), sources, meaning + Meaning(source), text + source.content, unmatched)
      ensures old(sources) <= sources && |sources| <= |old(sources)| + |source.sources|
      ensures mappings.buffer == old(mappings.buffer) || fresh(mappings.buffer)
    {
      hide Run, Mirrors, RemapAll, Committed, EndSegment, Feed, NewLines, InRange, CountNL, WellFormed,
           Meaning, InTable, Named, Distinct, Transcribed, AtLineStart, Lines, Decode, Coherent, Counted;
      ghost var out0 := Out();
      CoherentParts(out0, sources, meaning, text, unmatched);
      var sourceRemap := RemapSources(source.sources);
      WellFormedParts(source, sourceRemap);
      OkInRange(mappings.Contents());
      var outputLine := Transcribe(source.mappings, sourceRemap);
      Pad(out0, source.mappings, sourceRemap, outputLine, source.sourceLines);
      FileAdded(out0, Out(), source, sourceRemap, old(sources), sources, meaning, text, unmatched);
    }

    /** A line of text that is mapped to nothing. The map gets one line end for it, whatever it contains. */
    method AddLine(line: seq<Byte>)
      requires Valid()
      modifies this, outputBuffer, outputBuffer.buffer, mappings, mappings.buffer
      ensures Valid() && sources == old(sources)
      ensures meaning == old(meaning) + [NewLine]
      ensures text == old(text) + line + [NEWLINE]
      ensures unmatched == old(unmatched) + CountNL(line)
      ensures outputBuffer.buffer == old(outputBuffer.buffer) || fresh(outputBuffer.buffer)
      ensures mappings.buffer == old(mappings.buffer) || fresh(mappings.buffer)
    {
      hide Run, CountNL, Feed, Coherent;
      ghost var d := Out();
      CoherentParts(d, sources, meaning, text, unmatched);
      outputBuffer.AddBuffer(line);
      outputBuffer.AddByte(NEWLINE);
      Separate(SEMICOLON);
      LineAdded(d, sources, meaning, text, line, unmatched);
      unmatched := unmatched + CountNL(line);
      text := text + line + [NEWLINE];
      meaning := meaning + [NewLine];
    }

    method ToContent() returns (content: seq<Byte>)
      requires Valid()
      ensures content == text
    {
      content := outputBuffer.ToBuffer();
    }

    /** The combined map, decoded, is what was meant; it has as many line ends as the text if and only if
        no line that was added contains one. */
    method ToSourceMap() returns (table: seq<string>, combined: seq<Byte>)
      requires Valid()
      ensures table == sources && Decode(combined).ok && Named(Decode(combined).items, table) == meaning
      ensures NewLines(Decode(combined).items) + unmatched == CountNL(text)
    {
      table := sources;
      combined := mappings.ToBuffer();
      NewLinesNamed(Decode(combined).items, table);
    }
  }

  /** `indexOf`: the first position of v, or -1. */
  method IndexOf(q: seq<string>, v: string) returns (pos: int)
    ensures pos < 0 ==> v !in q
    ensures pos >= 0 ==> pos < |q| && q[pos] == v
  {
    pos := 0;
    while pos < |q|
      invariant 0 <= pos <= |q| && v !in q[..pos]
    {
      if q[pos] == v { return; }
      pos := pos + 1;
    }
    pos := -1;
  }

  /** The output decoder, at rest, after the given input has been copied on top of out0. */
  ghost predicate Transcribed(out0: Decoder, out: Decoder, input: seq<Byte>, remap: seq<nat>) {
    var inp := Run(Start, input);
    && AtRest(out) && InRange(out) && Mirrors(out, inp, out0.items, remap)
    && (AtLineStart(inp.items) ==> out.column == 0)
  }

  lemma TranscribeStarts(out0: Decoder, input: seq<Byte>, remap: seq<nat>)
    requires AtRest(out0) && InRange(out0) && out0.column == 0
    ensures Transcribed(out0, out0, input[..0], remap) && Run(Start, input[..0]) == Start
  {
    assert out0.items + [] == out0.items;
  }

  /** What a decodable input guarantees at each byte. */
  lemma NextByte(input: seq<Byte>, i: nat, n: nat)
    requires i < |input| && Decode(input).ok && InTable(Decode(input).items, n)
    ensures Run(Start, input[..i + 1]) == Feed(Run(Start, input[..i]), input[i])
    ensures var inp := Run(Start, input[..i]);
      && inp.ok && InRange(inp) && Feed(inp, input[i]).ok
      && ((input[i] == SEMICOLON || input[i] == COMMA) && inp.fields >= 2 ==> 0 <= inp.source < n)
  {
    var inp := Run(Start, input[..i]);
    RunPrefix(Start, input, i);
    PrefixGrows(Start, input, i);
    PrefixGrows(Start, input, i + 1);
    FeedGrows(Run(Start, input), COMMA);
    RunInRange(Start, input[..i]);
    if (input[i] == SEMICOLON || input[i] == COMMA) && inp.fields >= 2 {
      var e := EndSegment(inp);
      assert e.items <= Decode(input).items;
      assert Decode(input).items[|inp.items|] == e.items[|inp.items|];
    }
  }

  lemma LastSegment(input: seq<Byte>, n: nat)
    requires Decode(input).ok && InTable(Decode(input).items, n)
    ensures var inp := Run(Start, input);
      inp.ok && InRange(inp) && (inp.fields >= 2 ==> 0 <= inp.source < n)
  {
    var inp := Run(Start, input);
    FeedGrows(inp, COMMA);
    RunInRange(Start, input);
    if inp.fields >= 2 { assert Decode(input).items[|inp.items|].Original?; }
  }

  /** Commit and a separator: the output has the segment, and the input decoder starts the next one. */
  lemma SeparatorTranscribes(out0: Decoder, out: Decoder, input: seq<Byte>, i: nat, remap: seq<nat>)
    requires 0 < i <= |input| && (input[i - 1] == SEMICOLON || input[i - 1] == COMMA)
    requires Transcribed(out0, out, input[..i - 1], remap)
    requires forall k :: 0 <= k < |remap| ==> remap[k] < LIMIT
    requires var inp := Run(Start, input[..i - 1]);
      InRange(inp) && Feed(inp, input[i - 1]).ok && Run(Start, input[..i]) == Feed(inp, input[i - 1])
    ensures var inp, inp', semi := Run(Start, input[..i - 1]), Run(Start, input[..i]), input[i - 1] == SEMICOLON;
      var mid := Committed(out, inp, remap);
      var out' := Feed(mid, input[i - 1]);
      && Transcribed(out0, out', input[..i], remap)
      && out'.source == mid.source && out'.line == mid.line && out'.sourceColumn == mid.sourceColumn
      && out'.column == (if semi then 0 else mid.column)
      && inp'.fields == 0 && inp'.value == inp.value && inp'.digits == inp.digits
      && inp'.column == (if semi then 0 else inp.column)
      && inp'.source == inp.source && inp'.line == inp.line && inp'.sourceColumn == inp.sourceColumn
      && NewLines(inp'.items) == NewLines(inp.items) + (if semi then 1 else 0)
  {
    hide Run, Mirrors, RemapAll;
    var inp, b := Run(Start, input[..i - 1]), input[i - 1];
    SeparatorMirrors(out, inp, out0.items, remap, b);
    SegmentIsNoNewLine(inp);
    if b == SEMICOLON { NewLineCounts(EndSegment(inp).items); }
  }

  lemma SegmentIsNoNewLine(d: Decoder)
    ensures NewLines(EndSegment(d).items) == NewLines(d.items)
  {
    var e := EndSegment(d);
    if |e.items| > |d.items| { assert e.items[..|e.items| - 1] == d.items; }
  }

  lemma NewLineCounts(items: seq<Mapping0>)
    ensures NewLines(items + [NewLine]) == NewLines(items) + 1
  {
    assert (items + [NewLine])[..|items|] == items;
  }

  /** A digit: JavaScript's accumulators stay those of the unbounded reading. */
  lemma DigitTranscribes(out0: Decoder, out: Decoder, input: seq<Byte>, i: nat, remap: seq<nat>)
    requires 0 < i <= |input| && input[i - 1] != SEMICOLON && input[i - 1] != COMMA
    requires Transcribed(out0, out, input[..i - 1], remap)
    requires var inp := Run(Start, input[..i - 1]);
      Feed(inp, input[i - 1]).ok && Run(Start, input[..i]) == Feed(inp, input[i - 1])
    ensures Transcribed(out0, out, input[..i], remap)
    ensures var inp, inp', c := Run(Start, input[..i - 1]), Run(Start, input[..i]), CharToInteger(input[i - 1]);
      var value := inp.value + ShiftLeft(c % 32, 5 * inp.digits);
      && 0 <= c < 64 && value >= 0
      && inp'.items == inp.items
      && (Continues(c) ==> inp' == inp.(value := value, digits := inp.digits + 1))
      && (!Continues(c) ==> inp' == PutField(inp, Signed(value)))
  {
    hide Run, RemapAll, CharToInteger, ShiftLeft, Pow32, Signed;
    var inp, c := Run(Start, input[..i - 1]), CharToInteger(input[i - 1]);
    CharIsNonNegative(input[i - 1]);
    Product(c % 32, Pow32(inp.digits));
    ShiftIsExact(c % 32, inp.digits);
    var value := inp.value + c % 32 * Pow32(inp.digits);
    SignedWord(value);
  }

  lemma CharIsNonNegative(b: Byte)
    ensures CharToInteger(b) >= 0
  {
  }

  lemma Product(a: nat, b: nat)
    ensures a * b >= 0
  {
  }

  lemma Deltas(out: Decoder, inp: Decoder, remap: seq<nat>)
    requires AtRest(out) && InRange(out) && InRange(inp)
    ensures var c := Committed(out, inp, remap);
      && (inp.fields == 0 ==> c == out)
      && (inp.fields == 1 ==>
            && c.column == inp.column && c.source == out.source
            && c.line == out.line && c.sourceColumn == out.sourceColumn)
      && (inp.fields >= 2 ==> c.column == inp.column && c.line == inp.line && c.sourceColumn == inp.sourceColumn)
      && (inp.fields >= 2 && 0 <= inp.source < |remap| ==> c.source == remap[inp.source])
    ensures -LIMIT < inp.column - out.column < LIMIT
    ensures -LIMIT < inp.line - out.line < LIMIT
    ensures -LIMIT < inp.sourceColumn - out.sourceColumn < LIMIT
    ensures 0 <= inp.source < |remap| && remap[inp.source] < LIMIT ==> -LIMIT < remap[inp.source] - out.source < LIMIT
  {
  }

  lemma OneField(out: Decoder, inp: Decoder, remap: seq<nat>)
    requires AtRest(out) && InRange(out) && InRange(inp) && inp.fields == 1
    ensures PutField(out, inp.column - out.column) == Committed(out, inp, remap)
  {
  }

  function Lines(n: nat): (r: seq<Mapping0>)
    ensures |r| == n && forall i :: 0 <= i < n ==> r[i] == NewLine
  {
    seq(n, i => NewLine)
  }

  /** The first line end also closes a pending segment. */
  lemma LineEnds(out0: Decoder, out: Decoder, input: seq<Byte>, remap: seq<nat>)
    requires Decode(input).ok && Transcribed(out0, out, input, remap)
    ensures var inp := Run(Start, input);
      var d := Committed(out, inp, remap);
      && d.value == 0 && EndSegment(d).ok && EndSegment(d).items == out0.items + RemapAll(Decode(input).items, remap)
      && (AtLineStart(Decode(input).items) ==> AtRest(d) && d.column == 0 && d.items == EndSegment(d).items)
  {
    hide Run, Mirrors, RemapAll;
    var inp := Run(Start, input);
    assert Mirrors(out, inp, out0.items, remap);
    EndMirrors(out, inp, out0.items, remap);
    MirrorItems(EndSegment(Committed(out, inp, remap)), EndSegment(inp), out0.items, remap);
  }

  lemma MirrorItems(out: Decoder, inp: Decoder, base: seq<Mapping0>, remap: seq<nat>)
    requires Mirrors(out, inp, base, remap)
    ensures out.items == base + RemapAll(inp.items, remap)
  {
  }

  lemma AtRestEnds(d: Decoder, base: seq<Mapping0>)
    ensures AtRest(d) ==> EndSegment(d) == d
    ensures base + Lines(0) == base
  {
  }

  lemma OneMoreLine(d: Decoder, base: seq<Mapping0>, n: nat)
    requires d.value == 0 && EndSegment(d).ok && EndSegment(d).items == base + Lines(n)
    ensures var e := Feed(d, SEMICOLON);
      && AtRest(e) && e.column == 0 && e.items == base + Lines(n + 1)
      && e.source == d.source && e.line == d.line && e.sourceColumn == d.sourceColumn
  {
    assert Lines(n + 1) == Lines(n) + [NewLine];
    assert base + (Lines(n) + [NewLine]) == base + Lines(n) + [NewLine];
  }

  lemma WellFormedParts(s: Source, remap: seq<nat>)
    requires WellFormed(s) && |remap| == |s.sources|
    ensures var from := NewLines(Run(Start, s.mappings).items);
      && Decode(s.mappings).ok && InTable(Decode(s.mappings).items, |remap|)
      && NewLines(Decode(s.mappings).items) == from
      && (from < s.sourceLines || (from == s.sourceLines && AtLineStart(Decode(s.mappings).items)))
  {
    SegmentIsNoNewLine(Run(Start, s.mappings));
  }

  lemma OkInRange(bytes: seq<Byte>)
    ensures Run(Start, bytes).ok ==> InRange(Run(Start, bytes))
  {
    RunInRange(Start, bytes);
  }

  /** What the output means once a file has been copied and its lines have been ended. */
  lemma Concatenated(out0: Decoder, out: Decoder, s: Source, remap: seq<nat>, table0: seq<string>, table: seq<string>)
    requires WellFormed(s) && InTable(out0.items, |table0|) && table0 <= table && Renumbers(remap, s.sources, table)
    requires NewLines(Run(Start, s.mappings).items) <= s.sourceLines
    requires out.items == out0.items + RemapAll(Decode(s.mappings).items, remap)
                          + Lines(s.sourceLines - NewLines(Run(Start, s.mappings).items))
    ensures Named(out.items, table) == Named(out0.items, table0) + Meaning(s)
    ensures InTable(out.items, |table|)
  {
    hide Run, EndSegment, RemapAll, Lines, Named, Blank;
    var items, n := Decode(s.mappings).items, s.sourceLines - NewLines(Run(Start, s.mappings).items);
    SegmentIsNoNewLine(Run(Start, s.mappings));
    NamesSurvive(out0.items, table0, table);
    NamesThroughRemap(items, s.sources, remap, table);
    NamedAppend(out0.items, RemapAll(items, remap), table);
    NamedAppend(out0.items + RemapAll(items, remap), Lines(n), table);
    assert Named(Lines(n), table) == Blank(n);
  }

  lemma CoherentParts(d: Decoder, table: seq<string>, meaning: seq<Mapping<string>>, text: seq<Byte>, unmatched: nat)
    requires Coherent(d, table, meaning, text, unmatched)
    ensures AtRest(d) && d.column == 0 && Distinct(table)
  {
  }

  /** A file and its map join what is there. */
  lemma FileAdded(out0: Decoder, out: Decoder, s: Source, remap: seq<nat>, table0: seq<string>, table: seq<string>,
                  meaning: seq<Mapping<string>>, text: seq<Byte>, unmatched: nat)
    requires Coherent(out0, table0, meaning, text, unmatched) && WellFormed(s) && Counted(s)
    requires table0 <= table && Distinct(table) && Renumbers(remap, s.sources, table)
    requires NewLines(Run(Start, s.mappings).items) <= s.sourceLines
    requires out.items == out0.items + RemapAll(Decode(s.mappings).items, remap)
                          + Lines(s.sourceLines - NewLines(Run(Start, s.mappings).items))
    requires AtRest(out) && out.column == 0
    ensures Coherent(out, table, meaning + Meaning(s), text + s.content, unmatched)
  {
    hide Run, RemapAll, EndSegment, NewLines, CountNL, Named, InTable, Distinct, WellFormed, Meaning, Lines, Decode;
    Concatenated(out0, out, s, remap, table0, table);
    MeaningHasItsLines(s);
    NewLinesAppend(meaning, Meaning(s));
    CountNLAppend(text, s.content);
  }

  lemma LineAdded(d: Decoder, table: seq<string>, meaning: seq<Mapping<string>>, text: seq<Byte>, line: seq<Byte>,
                  unmatched: nat)
    requires Coherent(d, table, meaning, text, unmatched)
    ensures var e := Feed(d, SEMICOLON);
      && Coherent(e, table, meaning + [NewLine], text + line + [NEWLINE], unmatched + CountNL(line))
      && e.source == d.source && e.line == d.line && e.sourceColumn == d.sourceColumn
  {
    hide Feed, CountNL, NewLines, Named, InTable, Distinct;
    BlankLine(d, table);
    CountNLAppend(text, line);
    CountNLAppend(text + line, [NEWLINE]);
    OneNewLine();
    NewLinesAppend(meaning, [NewLine]);
  }

  lemma BlankLine(d: Decoder, table: seq<string>)
    requires AtRest(d) && d.column == 0 && InTable(d.items, |table|)
    ensures var e := Feed(d, SEMICOLON);
      && AtRest(e) && e.column == 0 && InTable(e.items, |table|)
      && e.source == d.source && e.line == d.line && e.sourceColumn == d.sourceColumn
      && Named(e.items, table) == Named(d.items, table) + [NewLine]
  {
  }

  lemma OneNewLine()
    ensures CountNL([NEWLINE]) == 1 && NewLines<string>([NewLine]) == 1
  {
    var m: seq<Mapping<string>> := [NewLine];
    assert [NEWLINE][..0] == [];
    assert m[..0] == [];
  }
}
