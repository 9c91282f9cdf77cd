/** The search for known credentials in a stream that is read in chunks. */
module Scan {
  import opened Common

  /** How much of the data before a chunk is searched again with it. */
  const OVERLAP: nat := 16384

  predicate OccursAt(v: seq<Byte>, data: seq<Byte>, i: int) {
    0 <= i && i + |v| <= |data| && data[i..i + |v|] == v
  }

  /** `value in data`. */
  predicate Occurs(v: seq<Byte>, data: seq<Byte>) {
    exists i :: 0 <= i <= |data| && OccursAt(v, data, i)
  }

  predicate AnyOccurs(known: set<seq<Byte>>, data: seq<Byte>) {
    exists v :: v in known && Occurs(v, data)
  }

  /** `data[-16384:]`. */
  function Tail(data: seq<Byte>): seq<Byte> {
    if |data| <= OVERLAP then data else data[|data| - OVERLAP..]
  }

  /** What one pass over the chunks reports, given the overlap left by earlier ones. */
  function Found(overlap: seq<Byte>, chunks: seq<seq<Byte>>, known: set<seq<Byte>>): bool
    decreases |chunks|
  {
    if chunks == [] then false
    else
      var data := overlap + chunks[0];
      AnyOccurs(known, data) || Found(Tail(data), chunks[1..], known)
  }

  /** The loop of `scan_stream`, for the known values; the stream is reported once, by name. */
  method ScanStream(chunks: seq<seq<Byte>>, name: string, known: set<seq<Byte>>, findings0: seq<string>)
      returns (findings: seq<string>)
    requires forall c :: c in chunks ==> |c| > 0
    ensures findings == findings0 + (if Found([], chunks, known) then [name] else [])
    ensures (forall v :: v in known ==> 0 < |v| <= 16385) ==>
      findings == findings0 + (if AnyOccurs(known, Concat(chunks)) then [name] else [])
  {
    var overlap: seq<Byte> := [];
    var found := false;
    var i := 0;
    while i < |chunks|
      invariant 0 <= i <= |chunks|
      invariant Found([], chunks, known) <==> found || Found(overlap, chunks[i..], known)
    {
      var data := overlap + chunks[i];
      if !found && AnyOccurs(known, data) { found := true; }
      overlap := Tail(data);
      assert chunks[i..][1..] == chunks[i + 1..];
      i := i + 1;
    }
    findings := if found then findings0 + [name] else findings0;
    if forall v :: v in known ==> 0 < |v| <= 16385 { ScanAgrees(chunks, known); }
  }

  // ------------------------------------------------------------------ the window against the whole

  lemma OccursInPart(v: seq<Byte>, a: seq<Byte>, b: seq<Byte>, c: seq<Byte>)
    requires Occurs(v, b)
    ensures Occurs(v, a + b + c)
  {
    var i :| 0 <= i <= |b| && OccursAt(v, b, i);
    assert (a + b + c)[|a| + i..|a| + i + |v|] == b[i..i + |v|];
    assert OccursAt(v, a + b + c, |a| + i);
  }

  /** An occurrence that ends in the chunk starts inside the window. */
  lemma OccursInWindow(v: seq<Byte>, head: seq<Byte>, tail: seq<Byte>, chunk: seq<Byte>, i: nat)
    requires OccursAt(v, head + tail + chunk, i) && |head| <= i
    ensures Occurs(v, tail + chunk)
  {
    assert (tail + chunk)[i - |head|..i - |head| + |v|] == (head + tail + chunk)[i..i + |v|];
    assert OccursAt(v, tail + chunk, i - |head|);
  }

  lemma OccursInPrefix(v: seq<Byte>, before: seq<Byte>, chunk: seq<Byte>, i: nat)
    requires OccursAt(v, before + chunk, i) && i + |v| <= |before|
    ensures Occurs(v, before)
  {
    assert before[i..i + |v|] == (before + chunk)[i..i + |v|];
    assert OccursAt(v, before, i);
  }

  /** A value short enough for the window is in the old data or in the window with the new chunk. */
  lemma WindowSuffices(v: seq<Byte>, before: seq<Byte>, chunk: seq<Byte>)
    requires 0 < |v| <= 16385
    ensures Occurs(v, before + chunk) <==> Occurs(v, before) || Occurs(v, Tail(before) + chunk)
  {
    hide Occurs, Tail;
    var head, tail := CutTail(before);
    if Occurs(v, before) {
      assert before + chunk == [] + before + chunk;
      OccursInPart(v, [], before, chunk);
    }
    if Occurs(v, tail + chunk) {
      assert before + chunk == head + (tail + chunk) + [];
      OccursInPart(v, head, tail + chunk, []);
    }
    if Occurs(v, before + chunk) { OccursBeforeOrInWindow(v, head, tail, chunk); }
  }

  lemma CutTail(before: seq<Byte>) returns (head: seq<Byte>, tail: seq<Byte>)
    ensures tail == Tail(before) && before == head + tail
    ensures head == [] || |tail| == 16384
  {
    tail := Tail(before);
    head := before[..|before| - |tail|];
  }

  lemma OccursBeforeOrInWindow(v: seq<Byte>, head: seq<Byte>, tail: seq<Byte>, chunk: seq<Byte>)
    requires 0 < |v| <= 16385 && Occurs(v, head + tail + chunk)
    requires head == [] || |tail| == 16384
    ensures Occurs(v, head + tail) || Occurs(v, tail + chunk)
  {
    var i :| 0 <= i <= |head + tail + chunk| && OccursAt(v, head + tail + chunk, i);
    hide Occurs, OccursAt;
    OccurrenceFits(v, head + tail + chunk, i);
    if i + |v| <= |head + tail| {
      OccursInPrefix(v, head + tail, chunk, i);
    } else {
      OccursInWindow(v, head, tail, chunk, i);
    }
  }

  lemma OccurrenceFits(v: seq<Byte>, data: seq<Byte>, i: nat)
    requires OccursAt(v, data, i)
    ensures i + |v| <= |data|
  {
  }

  lemma TailOfAppend(before: seq<Byte>, chunk: seq<Byte>)
    ensures Tail(Tail(before) + chunk) == Tail(before + chunk)
  {
  }

  lemma {:induction false} ConcatCons(c: seq<Byte>, cs: seq<seq<Byte>>)
    ensures Concat([c] + cs) == c + Concat(cs)
  {
    var all := [c] + cs;
    if cs == [] {
      assert all == [c] && all[..0] == [];
      assert c + [] == c && [] + c == c;
    } else {
      ConcatCons(c, cs[..|cs| - 1]);
      assert all[..|all| - 1] == [c] + cs[..|cs| - 1];
    }
  }

  /** Windowed search agrees with whole search, from any data already read. */
  lemma {:induction false} WindowedIsWhole(before: seq<Byte>, chunks: seq<seq<Byte>>, known: set<seq<Byte>>)
    requires forall v :: v in known ==> 0 < |v| <= 16385
    ensures AnyOccurs(known, before) || Found(Tail(before), chunks, known) <==>
            AnyOccurs(known, before + Concat(chunks))
    decreases |chunks|
  {
    hide Occurs, Tail;
    if chunks == [] {
      assert before + [] == before;
    } else {
      var c, rest := chunks[0], chunks[1..];
      forall v | v in known ensures Occurs(v, before + c) <==> Occurs(v, before) || Occurs(v, Tail(before) + c) {
        WindowSuffices(v, before, c);
      }
      TailOfAppend(before, c);
      WindowedIsWhole(before + c, rest, known);
      assert chunks == [c] + rest;
      ConcatCons(c, rest);
      assert before + c + Concat(rest) == before + (c + Concat(rest));
    }
  }

  lemma ScanAgrees(chunks: seq<seq<Byte>>, known: set<seq<Byte>>)
    requires forall v :: v in known ==> 0 < |v| <= 16385
    ensures Found([], chunks, known) <==> AnyOccurs(known, Concat(chunks))
  {
    hide Found, Concat, Occurs;
    WindowedIsWhole([], chunks, known);
    assert Tail([]) == [] && [] + Concat(chunks) == Concat(chunks);
    forall v | v in known ensures !Occurs(v, []) { NotInNothing(v); }
  }

  lemma NotInNothing(v: seq<Byte>)
    requires |v| > 0
    ensures !Occurs(v, [])
  {
  }

  ghost predicate AlwaysAgrees(v: seq<Byte>) {
    forall chunks: seq<seq<Byte>> :: (forall c :: c in chunks ==> |c| > 0) ==>
      (Found([], chunks, {v}) <==> Occurs(v, Concat(chunks)))
  }

  /** The bound is exact: the scan agrees with a whole search for v, however the stream is cut, if and
      only if v is not empty and has at most one byte more than the overlap. */
  lemma BoundIsExact(v: seq<Byte>)
    ensures AlwaysAgrees(v) <==> 0 < |v| <= 16385
  {
    if |v| == 0 {
      var none: seq<seq<Byte>> := [];
      assert OccursAt(v, Concat(none), 0);
      assert !Found([], none, {v});
    } else if |v| <= 16385 {
      forall chunks: seq<seq<Byte>> | forall c :: c in chunks ==> |c| > 0
        ensures Found([], chunks, {v}) <==> Occurs(v, Concat(chunks))
      {
        ScanAgrees(chunks, {v});
      }
    } else {
      LongValueIsMissed(v);
    }
  }

  /** Cut before its last byte, a longer value is never in one window. */
  lemma LongValueIsMissed(v: seq<Byte>)
    requires |v| > 16385
    ensures var chunks := [v[..|v| - 1], v[|v| - 1..]];
      && Occurs(v, Concat(chunks)) && !Found([], chunks, {v})
      && !AlwaysAgrees(v)
  {
    var first, last := v[..|v| - 1], v[|v| - 1..];
    var none: seq<seq<Byte>> := [];
    var chunks := [first, last];
    ConcatCons(first, [last]);
    ConcatCons(last, none);
    assert [last] + none == [last] && [first] + [last] == chunks;
    assert Concat(chunks) == v;
    assert OccursAt(v, v, 0);
    assert [] + first == first;
    assert chunks[1..] == [last] && [last][1..] == none;
    assert !AnyOccurs({v}, first);
    assert |Tail(first) + last| < |v|;
    assert !AnyOccurs({v}, Tail(first) + last);
    assert !Found(Tail(first), [last], {v});
    assert forall c :: c in chunks ==> |c| > 0;
  }
}
