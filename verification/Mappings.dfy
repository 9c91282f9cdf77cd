/** What a `mappings` string means, after the section of ECMA-426 on the mappings structure:
    a fold over its bytes that turns delta-coded fields into absolute positions. */
module Mappings {
  import opened Common
  import opened Vlq

  const SEMICOLON: Byte := 59
  const COMMA: Byte := 44

  /** Absolute segments in order, with the line ends between them. Names are dropped. */
  datatype Mapping<Source> =
    | NewLine
    | Generated(column: int)
    | Original(column: int, source: Source, line: int, sourceColumn: int)

  type Mapping0 = Mapping<int>

  /** The decoder after some bytes: the number being read, the fields of the segment being read,
      the absolute positions, and the segments so far. `ok` is lost for good at the first fault. */
  datatype Decoder = Decoder(
    ok: bool,
    value: nat, digits: nat,
    fields: nat,
    column: int, source: int, line: int, sourceColumn: int,
    items: seq<Mapping0>)

  const Start: Decoder := Decoder(true, 0, 0, 0, 0, 0, 0, 0, [])

  predicate InRange(d: Decoder) {
    0 <= d.column < LIMIT && 0 <= d.source < LIMIT && 0 <= d.line < LIMIT && 0 <= d.sourceColumn < LIMIT
  }

  /** The end of a segment: it has 1, 4 or 5 fields, or is absent. */
  function EndSegment(d: Decoder): Decoder {
    if d.digits != 0 then d.(ok := false)
    else match d.fields
      case 0 => d
      case 1 => d.(fields := 0, items := d.items + [Generated(d.column)])
      case 4 => d.(fields := 0, items := d.items + [Original(d.column, d.source, d.line, d.sourceColumn)])
      case 5 => d.(fields := 0, items := d.items + [Original(d.column, d.source, d.line, d.sourceColumn)])
      case _ => d.(ok := false)
  }

  /** One more field, given as a delta. The fifth is a name. */
  function PutField(d: Decoder, v: int): Decoder {
    var e := d.(value := 0, digits := 0, fields := d.fields + 1);
    var moved := match d.fields
      case 0 => e.(column := d.column + v)
      case 1 => e.(source := d.source + v)
      case 2 => e.(line := d.line + v)
      case 3 => e.(sourceColumn := d.sourceColumn + v)
      case _ => e;
    moved.(ok := d.ok && d.fields < 5 && InRange(moved))
  }

  /** A word of the unbounded encoding: the sign in the low bit. */
  function Unsigned(value: nat): int {
    if value % 2 == 1 then -(value / 2) else value / 2
  }

  function FeedDigit(d: Decoder, c: int): Decoder
    requires 0 <= c < 64
  {
    var value := d.value + c % 32 * Pow32(d.digits);
    if value >= WORD_LIMIT then d.(ok := false)
    else if Continues(c) then d.(value := value, digits := d.digits + 1)
    else PutField(d, Unsigned(value))
  }

  function Feed(d: Decoder, b: Byte): Decoder {
    if b == SEMICOLON then
      var e := EndSegment(d);
      e.(column := 0, items := e.items + [NewLine])
    else if b == COMMA then EndSegment(d)
    else
      var c := CharToInteger(b);
      if c < 64 then FeedDigit(d, c) else d.(ok := false)
  }

  function Run(d: Decoder, bytes: seq<Byte>): Decoder {
    if bytes == [] then d else Feed(Run(d, bytes[..|bytes| - 1]), bytes[|bytes| - 1])
  }

  /** The meaning of a whole string. */
  function Decode(bytes: seq<Byte>): Decoder {
    EndSegment(Run(Start, bytes))
  }

  function NewLines<S(==)>(items: seq<Mapping<S>>): nat {
    if items == [] then 0
    else NewLines(items[..|items| - 1]) + (if items[|items| - 1] == NewLine then 1 else 0)
  }

  predicate AtLineStart<S(==)>(items: seq<Mapping<S>>) {
    items == [] || items[|items| - 1] == NewLine
  }

  lemma {:induction false} NewLinesAppend<S>(a: seq<Mapping<S>>, b: seq<Mapping<S>>)
    ensures NewLines(a + b) == NewLines(a) + NewLines(b)
  {
    if b == [] {
      assert a + b == a;
    } else {
      NewLinesAppend(a, b[..|b| - 1]);
      assert (a + b)[..|a + b| - 1] == a + b[..|b| - 1];
    }
  }

  // ------------------------------------------------------------------ the fold

  lemma {:induction false} RunAppend(d: Decoder, a: seq<Byte>, b: seq<Byte>)
    ensures Run(d, a + b) == Run(Run(d, a), b)
  {
    hide Feed;
    if b == [] {
      assert a + b == a;
    } else {
      RunAppend(d, a, b[..|b| - 1]);
      assert (a + b)[..|a + b| - 1] == a + b[..|b| - 1];
    }
  }

  lemma RunByte(d: Decoder, a: seq<Byte>, b: Byte)
    ensures Run(d, a + [b]) == Feed(Run(d, a), b)
  {
    assert (a + [b])[..|a|] == a;
  }

  lemma RunPrefix(d: Decoder, bytes: seq<Byte>, i: nat)
    requires i < |bytes|
    ensures Run(d, bytes[..i + 1]) == Feed(Run(d, bytes[..i]), bytes[i])
  {
    assert bytes[..i + 1] == bytes[..i] + [bytes[i]];
    RunByte(d, bytes[..i], bytes[i]);
  }

  /** Faults and segments are never taken back. */
  ghost predicate Grows(d: Decoder, e: Decoder) {
    (e.ok ==> d.ok) && d.items <= e.items
  }

  lemma FeedGrows(d: Decoder, b: Byte)
    ensures Grows(d, Feed(d, b)) && Grows(d, EndSegment(d))
  {
    hide Pow32, CharToInteger;
  }

  lemma {:induction false} RunGrows(d: Decoder, bytes: seq<Byte>)
    ensures Grows(d, Run(d, bytes))
  {
    if bytes != [] {
      RunGrows(d, bytes[..|bytes| - 1]);
      FeedGrows(Run(d, bytes[..|bytes| - 1]), bytes[|bytes| - 1]);
    }
  }

  lemma PrefixGrows(d: Decoder, bytes: seq<Byte>, i: nat)
    requires i <= |bytes|
    ensures Grows(Run(d, bytes[..i]), Run(d, bytes))
  {
    assert bytes == bytes[..i] + bytes[i..];
    RunAppend(d, bytes[..i], bytes[i..]);
    RunGrows(Run(d, bytes[..i]), bytes[i..]);
  }

  lemma FeedInRange(d: Decoder, b: Byte)
    requires d.ok ==> InRange(d)
    ensures Feed(d, b).ok ==> InRange(Feed(d, b))
  {
    hide Pow32, CharToInteger, Continues;
  }

  lemma {:induction false} RunInRange(d: Decoder, bytes: seq<Byte>)
    requires d.ok ==> InRange(d)
    ensures Run(d, bytes).ok ==> InRange(Run(d, bytes))
  {
    if bytes != [] {
      RunInRange(d, bytes[..|bytes| - 1]);
      FeedInRange(Run(d, bytes[..|bytes| - 1]), bytes[|bytes| - 1]);
    }
  }

  // ------------------------------------------------------------------ reading back what addVLQ writes

  lemma {:induction false} RunDigits(d: Decoder, w: int)
    requires 0 <= w && d.value + w * Pow32(d.digits) < WORD_LIMIT
    ensures Run(d, Chars(Digits(w))) == PutField(d, Unsigned(d.value + w * Pow32(d.digits)))
    decreases w
  {
    hide Pow32, PutField, Unsigned, Digits, Continues, CharToInteger, IntegerToChar, Run;
    var ds := Digits(w);
    FirstDigit(w);
    SplitWord(w, Pow32(d.digits));
    AlphabetInverse(ds[0]);
    NotASeparator(ds[0]);
    FeedIsFirst(d, Chars(ds));
    if w / 32 > 0 {
      assert Chars(ds)[1..] == Chars(Digits(w / 32));
      Pow32Step(d.digits);
      var e := Feed(d, Chars(ds)[0]);
      RunDigits(e, w / 32);
      PutFieldIgnoresPending(d, e, Unsigned(d.value + w * Pow32(d.digits)));
    } else {
      assert Chars(ds)[1..] == [];
      EmptyRun(Feed(d, Chars(ds)[0]));
    }
  }

  lemma EmptyRun(d: Decoder)
    ensures Run(d, []) == d
  {
  }

  lemma NotASeparator(c: int)
    requires 0 <= c < 64
    ensures IntegerToChar(c) != SEMICOLON && IntegerToChar(c) != COMMA
  {
  }

  lemma FeedIsFirst(d: Decoder, bytes: seq<Byte>)
    requires |bytes| > 0
    ensures Run(d, bytes) == Run(Feed(d, bytes[0]), bytes[1..])
  {
    assert bytes == [bytes[0]] + bytes[1..];
    RunAppend(d, [bytes[0]], bytes[1..]);
    RunByte(d, [], bytes[0]);
    assert [] + [bytes[0]] == [bytes[0]];
  }

  lemma PutFieldIgnoresPending(d: Decoder, e: Decoder, v: int)
    requires e == d.(value := e.value, digits := e.digits)
    ensures PutField(e, v) == PutField(d, v)
  {
  }

  /** Writing a number and reading it moves the decoder by exactly that number. */
  lemma RunEncoded(d: Decoder, n: int)
    requires d.value == 0 && d.digits == 0 && -LIMIT < n < LIMIT
    ensures Run(d, Encode(n)) == PutField(d, n)
  {
    hide Digits, Run, PutField, Word, Chars;
    WordBound(n);
    assert Pow32(0) == 1;
    RunDigits(d, Word(n));
    assert Unsigned(Word(n)) == n;
  }

  // ------------------------------------------------------------------ what a string of segments decodes to

  /** Between segments. */
  ghost predicate Fresh(d: Decoder) {
    d.ok && d.value == 0 && d.digits == 0 && d.fields == 0
  }

  /** Four numbers move the four positions, a comma puts the segment down, and a semicolon goes on to the
      next line besides, where the column starts again. */
  lemma SegmentDecodes(d: Decoder, column: int, source: int, line: int, sourceColumn: int)
    requires Fresh(d) && InRange(d)
    requires -LIMIT < column < LIMIT && -LIMIT < source < LIMIT
    requires -LIMIT < line < LIMIT && -LIMIT < sourceColumn < LIMIT
    requires 0 <= d.column + column < LIMIT && 0 <= d.source + source < LIMIT
    requires 0 <= d.line + line < LIMIT && 0 <= d.sourceColumn + sourceColumn < LIMIT
    ensures var bytes := Encode(column) + Encode(source) + Encode(line) + Encode(sourceColumn);
      var c, f, l, k := d.column + column, d.source + source, d.line + line, d.sourceColumn + sourceColumn;
      && EndSegment(Run(d, bytes)) == Decoder(true, 0, 0, 0, c, f, l, k, d.items + [Original(c, f, l, k)])
      && Run(d, bytes + [44]) == Decoder(true, 0, 0, 0, c, f, l, k, d.items + [Original(c, f, l, k)])
      && Run(d, bytes + [59]) == Decoder(true, 0, 0, 0, 0, f, l, k, d.items + [Original(c, f, l, k), NewLine])
  {
    hide Encode, Run, Feed, EndSegment, PutField;
    var bytes := Encode(column) + Encode(source) + Encode(line) + Encode(sourceColumn);
    FourNumbers(d, column, source, line, sourceColumn);
    FourPuts(d, column, source, line, sourceColumn);
    RunByte(d, bytes, 44);
    RunByte(d, bytes, 59);
    SegmentEnds(Run(d, bytes));
  }

  lemma FourNumbers(d: Decoder, column: int, source: int, line: int, sourceColumn: int)
    requires d.value == 0 && d.digits == 0
    requires -LIMIT < column < LIMIT && -LIMIT < source < LIMIT
    requires -LIMIT < line < LIMIT && -LIMIT < sourceColumn < LIMIT
    ensures Run(d, Encode(column) + Encode(source) + Encode(line) + Encode(sourceColumn)) ==
      PutField(PutField(PutField(PutField(d, column), source), line), sourceColumn)
  {
    var d1 := PutField(d, column);
    var d2 := PutField(d1, source);
    var d3 := PutField(d2, line);
    NothingPending(d, column);
    NothingPending(d1, source);
    NothingPending(d2, line);
    hide Encode, Run, PutField;
    RunEncoded(d, column);
    RunEncoded(d1, source);
    RunEncoded(d2, line);
    RunEncoded(d3, sourceColumn);
    RunAppend(d, Encode(column), Encode(source));
    RunAppend(d, Encode(column) + Encode(source), Encode(line));
    RunAppend(d, Encode(column) + Encode(source) + Encode(line), Encode(sourceColumn));
  }

  lemma NothingPending(d: Decoder, v: int)
    ensures PutField(d, v).value == 0 && PutField(d, v).digits == 0
  {
  }

  lemma FourPuts(d: Decoder, column: int, source: int, line: int, sourceColumn: int)
    requires Fresh(d) && InRange(d)
    requires 0 <= d.column + column < LIMIT && 0 <= d.source + source < LIMIT
    requires 0 <= d.line + line < LIMIT && 0 <= d.sourceColumn + sourceColumn < LIMIT
    ensures PutField(PutField(PutField(PutField(d, column), source), line), sourceColumn) ==
      Decoder(true, 0, 0, 4, d.column + column, d.source + source, d.line + line, d.sourceColumn + sourceColumn,
              d.items)
  {
  }

  lemma SegmentEnds(d: Decoder)
    requires d.ok && d.value == 0 && d.digits == 0 && d.fields == 4
    ensures var items := d.items + [Original(d.column, d.source, d.line, d.sourceColumn)];
      && EndSegment(d) == Feed(d, 44) == d.(fields := 0, items := items)
      && Feed(d, 59) == d.(fields := 0, column := 0, items := items + [NewLine])
  {
  }

  /** "AAAA,IAAM;EACA". */
  lemma SomeSegments()
    ensures Decode([65, 65, 65, 65, 44, 73, 65, 65, 77, 59, 69, 65, 67, 65]) ==
      Decoder(true, 0, 0, 0, 2, 0, 1, 6, [Original(0, 0, 0, 0), Original(4, 0, 0, 6), NewLine, Original(2, 0, 1, 6)])
  {
    SomeDigits();
    hide Encode, Run;
    var first, second, third := [65, 65, 65, 65, 44], [73, 65, 65, 77, 59], [69, 65, 67, 65];
    SegmentDecodes(Start, 0, 0, 0, 0);
    assert Encode(0) + Encode(0) + Encode(0) + Encode(0) + [44] == first;
    var d1 := Run(Start, first);
    SegmentDecodes(d1, 4, 0, 0, 6);
    assert Encode(4) + Encode(0) + Encode(0) + Encode(6) + [59] == second;
    var d2 := Run(d1, second);
    SegmentDecodes(d2, 2, 0, 1, 0);
    assert Encode(2) + Encode(0) + Encode(1) + Encode(0) == third;
    RunAppend(Start, first, second);
    RunAppend(Start, first + second, third);
    assert first + second + third == [65, 65, 65, 65, 44, 73, 65, 65, 77, 59, 69, 65, 67, 65];
  }

  lemma SomeDigits()
    ensures Encode(0) == [65] && Encode(1) == [67] && Encode(2) == [69] && Encode(4) == [73] && Encode(6) == [77]
  {
    OneDigit(0);
    OneDigit(1);
    OneDigit(2);
    OneDigit(4);
    OneDigit(6);
  }
}
