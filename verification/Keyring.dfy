/** A sealed credential kept in several keyring entries, each but the last ending in a marker. Sealed
    strings are taken to be ASCII, so that a character is a byte. */
module Keyring {
  import opened Common

  const CONTINUE_MARKER: string := "<MORE>"

  /** `KEYCHAIN_ENTRY_LIMIT`, which differs by platform. */
  const WINDOWS_LIMIT: nat := 1024
  const DEFAULT_LIMIT: nat := 128 * 1024

  /** How much of the string goes into one entry: the marker has to fit behind it. */
  function StepSize(limit: nat): (step: nat)
    requires limit > |CONTINUE_MARKER|
    ensures step > 0 && step + |CONTINUE_MARKER| == limit
  {
    limit - |CONTINUE_MARKER|
  }

  predicate IsContinued(chunk: string) {
    |chunk| >= |CONTINUE_MARKER| && chunk[|chunk| - |CONTINUE_MARKER|..] == CONTINUE_MARKER
  }

  function Stripped(chunk: string): string
    requires IsContinued(chunk)
  {
    chunk[..|chunk| - |CONTINUE_MARKER|]
  }

  /** The entries `store` writes, in order. A piece of full length gets the marker even if it is the last. */
  function Chunks(sealed: string, step: nat): seq<string>
    requires step > 0
  {
    if sealed == "" then []
    else if step <= |sealed| then [sealed[..step] + CONTINUE_MARKER] + Chunks(sealed[step..], step)
    else [sealed]
  }

  /** The keyring after the chunks have been written from entry i on. */
  function Overlay(service: map<nat, string>, chunks: seq<string>, i: nat): map<nat, string>
    decreases |chunks|
  {
    if chunks == [] then service else Overlay(service[i := chunks[0]], chunks[1..], i + 1)
  }

  function KeysFrom(service: map<nat, string>, i: nat): (r: set<nat>)
    ensures forall k :: k in r <==> k in service && k >= i
  {
    set k | k in service && k >= i
  }

  /** What `read` joins from entry i on; None at the first missing entry. */
  function ReadFrom(service: map<nat, string>, i: nat): Option<string>
    decreases KeysFrom(service, i)
  {
    if i !in service then None
    else if IsContinued(service[i]) then
      assert i in KeysFrom(service, i) && i !in KeysFrom(service, i + 1);
      match ReadFrom(service, i + 1)
      case None => None
      case Some(rest) => Some(Stripped(service[i]) + rest)
    else Some(service[i])
  }

  class KeyringStorage {
    /** The service, and the numbers of the entries opened so far. */
    var service: map<nat, string>
    var entries: seq<nat>
    const limit: nat

    ghost predicate Valid()
      reads this
    {
      && (limit == 1024 || limit == 131072)
      && forall i :: 0 <= i < |entries| ==> entries[i] == i
    }

    constructor (initial: map<nat, string>, windows: bool)
      ensures Valid() && service == initial && entries == []
      ensures limit == if windows then 1024 else 131072
    {
      service, entries := initial, [];
      limit := if windows then WINDOWS_LIMIT else DEFAULT_LIMIT;
    }

    /** `get_next_entry!`: entries are opened one after another. */
    method NextEntry(i: nat) returns (e: nat)
      requires Valid() && i <= |entries|
      modifies this`entries
      ensures Valid() && e == i && i < |entries|
    {
      if i < |entries| {
        e := entries[i];
      } else {
        entries := entries + [i];
        e := i;
      }
    }

    method Read() returns (r: Option<string>)
      requires Valid()
      modifies this`entries
      ensures Valid() && r == ReadFrom(service, 0)
    {
      var str := "";
      var i := 0;
      assert forall rest: string :: "" + rest == rest;
      while true
        invariant Valid() && i <= |entries|
        invariant ReadFrom(service, 0) ==
          match ReadFrom(service, i) case None => None case Some(rest) => Some(str + rest)
        decreases KeysFrom(service, i)
      {
        var entry := NextEntry(i);
        if entry !in service { return None; }
        var nextChunk := service[entry];
        assert i in KeysFrom(service, i) && i !in KeysFrom(service, i + 1);
        if IsContinued(nextChunk) {
          match ReadFrom(service, i + 1) {
            case None =>
            case Some(rest) => assert str + (Stripped(nextChunk) + rest) == str + Stripped(nextChunk) + rest;
          }
          str := str + Stripped(nextChunk);
        } else {
          return Some(str + nextChunk);
        }
        i := i + 1;
      }
    }

    /** The loop by step over the sealed string. The service may refuse an entry: the pieces before the
        first one refused have been written then, and stay. */
    method Store(sealed: string, refused: set<nat>) returns (ok: bool, ghost written: nat)
      requires Valid()
      modifies this
      ensures Valid()
      ensures var chunks := Chunks(sealed, StepSize(limit));
        && written <= |chunks| && (ok <==> written == |chunks|)
        && (forall k :: 0 <= k < written ==> k !in refused) && (!ok ==> written in refused)
        && service == Overlay(old(service), chunks[..written], 0)
    {
      hide Chunks, Overlay;
      var step := StepSize(limit);
      ghost var chunks := Chunks(sealed, step);
      var i := 0;
      written := 0;
      assert sealed[0..] == sealed && chunks[..0] == [] && chunks[0..] == chunks;
      NothingWritten(service);
      while i < |sealed|
        invariant Valid() && written <= |entries| && written <= |chunks|
        invariant i == written * step
        invariant chunks[written..] == ChunksFrom(sealed, i, step)
        invariant forall k :: 0 <= k < written ==> k !in refused
        invariant service == Overlay(old(service), chunks[..written], 0)
        decreases |sealed| - i
      {
        IndexOfStep(written, step);
        NextPiece(sealed, i, step);
        var entry := NextEntry(i / step);
        var cutoff := i + step;
        var part := if cutoff <= |sealed| then sealed[i..cutoff] + CONTINUE_MARKER else sealed[i..];
        SamePieces(chunks, written, part, ChunksFrom(sealed, cutoff, step));
        if entry in refused { return false, written; }
        OverlaySnoc(old(service), chunks[..written], part, 0);
        service := service[entry := part];
        i := cutoff;
        written := written + 1;
      }
      EndOfPieces(sealed, i, step);
      assert chunks[..written] == chunks;
      ok := true;
    }
  }

  /** The pieces from position i on. */
  ghost function ChunksFrom(sealed: string, i: nat, step: nat): seq<string>
    requires step > 0
  {
    if i <= |sealed| then Chunks(sealed[i..], step) else []
  }

  lemma NothingWritten(service: map<nat, string>)
    ensures Overlay(service, [], 0) == service
  {
  }

  lemma NextPiece(sealed: string, i: nat, step: nat)
    requires step > 0 && i < |sealed|
    ensures ChunksFrom(sealed, i, step) ==
      [if i + step <= |sealed| then sealed[i..i + step] + CONTINUE_MARKER else sealed[i..]]
        + ChunksFrom(sealed, i + step, step)
  {
    if i + step <= |sealed| {
      assert sealed[i..][..step] == sealed[i..i + step] && sealed[i..][step..] == sealed[i + step..];
    }
  }

  lemma EndOfPieces(sealed: string, i: nat, step: nat)
    requires step > 0 && i >= |sealed|
    ensures ChunksFrom(sealed, i, step) == []
  {
  }

  lemma SamePieces(chunks: seq<string>, n: nat, part: string, rest: seq<string>)
    requires n <= |chunks| && chunks[n..] == [part] + rest
    ensures n < |chunks| && chunks[..n + 1] == chunks[..n] + [part] && chunks[n + 1..] == rest
  {
    assert chunks[n] == chunks[n..][0];
    assert chunks[n + 1..] == chunks[n..][1..];
  }

  lemma {:induction false} OverlaySnoc(service: map<nat, string>, chunks: seq<string>, c: string, i: nat)
    ensures Overlay(service, chunks + [c], i) == Overlay(service, chunks, i)[i + |chunks| := c]
    decreases |chunks|
  {
    if chunks == [] {
      assert Overlay(service[i := c], [], i + 1) == service[i := c];
      assert ([] + [c])[1..] == [];
    } else {
      OverlaySnoc(service[i := chunks[0]], chunks[1..], c, i + 1);
      assert (chunks + [c])[1..] == chunks[1..] + [c];
    }
  }

  lemma IndexOfStep(n: nat, step: nat)
    requires step > 0
    ensures n * step / step == n && (n + 1) * step == n * step + step
  {
    Quotient(n * step, n, 0, step);
  }

  // ------------------------------------------------------------------ the round trip

  /** The caller's side condition: the last piece is not full and does not look like a continuation. */
  predicate Splittable(sealed: string, step: nat)
    requires step > 0
  {
    LastPiece(sealed, step) != "" && !IsContinued(LastPiece(sealed, step))
  }

  /** What is left after all full pieces. */
  function LastPiece(sealed: string, step: nat): string
    requires step > 0
  {
    if step <= |sealed| then LastPiece(sealed[step..], step) else sealed
  }

  /** The last piece is what exceeds the largest multiple of the step. */
  lemma {:induction false} LastPieceIsRemainder(sealed: string, step: nat)
    requires step > 0
    ensures |LastPiece(sealed, step)| == |sealed| % step
    ensures LastPiece(sealed, step) == sealed[|sealed| - |LastPiece(sealed, step)|..]
    decreases |sealed|
  {
    if step <= |sealed| {
      var rest := sealed[step..];
      LastPieceIsRemainder(rest, step);
      OneStepMore(|rest|, step);
    } else {
      Quotient(|sealed|, 0, |sealed|, step);
    }
  }

  lemma OneStepMore(n: nat, step: nat)
    requires step > 0
    ensures (n + step) % step == n % step
  {
    var q, r := n / step, n % step;
    assert n == q * step + r;
    assert (q + 1) * step == q * step + step;
    Quotient(n + step, q + 1, r, step);
  }

  /** Every entry fits the limit of its platform, and every one but the last is full. */
  lemma {:induction false} ChunksFit(sealed: string, limit: nat, k: nat)
    requires limit > |CONTINUE_MARKER| && k < |Chunks(sealed, StepSize(limit))|
    ensures var chunks := Chunks(sealed, StepSize(limit));
      |chunks[k]| <= limit && (k < |chunks| - 1 ==> |chunks[k]| == limit)
    decreases |sealed|
  {
    var step := StepSize(limit);
    if step <= |sealed| && k > 0 { ChunksFit(sealed[step..], limit, k - 1); }
  }

  /** The k-th entry written, character by character, and how many there are. */
  lemma {:induction false} PieceIs(sealed: string, step: nat, k: nat)
    requires step > 0 && k < |Chunks(sealed, step)|
    ensures 0 <= k * step < |sealed|
    ensures Chunks(sealed, step)[k] ==
      if k * step + step <= |sealed| then sealed[k * step..k * step + step] + "<MORE>" else sealed[k * step..]
    ensures k == |Chunks(sealed, step)| - 1 <==> |sealed| <= k * step + step
    decreases |sealed|
  {
    hide Chunks;
    ChunksStep(sealed, step);
    Times(k, step);
    if k > 0 {
      PieceIs(sealed[step..], step, k - 1);
      PieceOfRest(sealed, step, (k - 1) * step, k * step);
    } else if step <= |sealed| {
      ChunksStep(sealed[step..], step);
    }
  }

  lemma ChunksStep(sealed: string, step: nat)
    requires step > 0
    ensures sealed == "" ==> Chunks(sealed, step) == []
    ensures sealed != "" && |sealed| < step ==> Chunks(sealed, step) == [sealed]
    ensures step <= |sealed| ==> Chunks(sealed, step) == [sealed[..step] + "<MORE>"] + Chunks(sealed[step..], step)
  {
  }

  lemma Times(k: nat, step: nat)
    ensures 0 * step == 0 && (k > 0 ==> k * step == (k - 1) * step + step && (k - 1) * step >= 0)
  {
  }

  lemma PieceOfRest(sealed: string, step: nat, j: nat, i: nat)
    requires i == j + step && step <= |sealed| && j <= |sealed| - step
    ensures sealed[step..][j..] == sealed[i..]
    ensures j + step <= |sealed| - step ==> sealed[step..][j..j + step] == sealed[i..i + step]
  {
  }

  /** What is laid over: the pieces on their entries, everything else as it was. */
  lemma {:induction false} OverlayIs(service: map<nat, string>, chunks: seq<string>, i: nat, k: nat)
    ensures i <= k < i + |chunks| ==>
      k in Overlay(service, chunks, i) && Overlay(service, chunks, i)[k] == chunks[k - i]
    ensures k < i || k >= i + |chunks| ==>
      && (k in Overlay(service, chunks, i) <==> k in service)
      && (k in service ==> Overlay(service, chunks, i)[k] == service[k])
    decreases |chunks|
  {
    if chunks != [] { OverlayIs(service[i := chunks[0]], chunks[1..], i + 1, k); }
  }

  function Joined(pieces: seq<string>): string {
    if pieces == [] then "" else pieces[0] + Joined(pieces[1..])
  }

  /** What is read, whoever wrote it: the pieces before the first one without a marker and that one, joined;
      and nothing if an entry is missing before that. */
  lemma {:induction false} ReadsPieces(service: map<nat, string>, i: nat, pieces: seq<string>)
    requires forall k :: 0 <= k < |pieces| ==> Holds(service, i + k, pieces[k])
    ensures i + |pieces| !in service ==> ReadFrom(service, i) == None
    ensures i + |pieces| in service && !EndsIn(service[i + |pieces|], "<MORE>") ==>
      ReadFrom(service, i) == Some(Joined(pieces) + service[i + |pieces|])
    decreases |pieces|
  {
    if pieces != [] {
      assert Holds(service, i + 0, pieces[0]);
      StrippedPiece(pieces[0]);
      forall k | 0 <= k < |pieces[1..]| ensures Holds(service, i + 1 + k, pieces[1..][k]) {
        assert Holds(service, i + (k + 1), pieces[k + 1]);
      }
      ReadsPieces(service, i + 1, pieces[1..]);
      assert forall last: string :: pieces[0] + (Joined(pieces[1..]) + last) == Joined(pieces) + last;
    } else if i in service {
      assert "" + service[i] == service[i];
    }
  }

  predicate Holds(service: map<nat, string>, i: nat, piece: string) {
    i in service && service[i] == piece + "<MORE>"
  }

  predicate EndsIn(s: string, suffix: string) {
    |s| >= |suffix| && s[|s| - |suffix|..] == suffix
  }

  lemma StrippedPiece(piece: string)
    ensures IsContinued(piece + CONTINUE_MARKER) && Stripped(piece + CONTINUE_MARKER) == piece
  {
  }

  /** Whatever the keyring held before, and so whatever entries are left over behind, a splittable
      string is read back exactly. */
  lemma {:induction false} ReadsBack(service: map<nat, string>, sealed: string, step: nat, i: nat)
    requires step > 0 && Splittable(sealed, step)
    ensures ReadFrom(Overlay(service, Chunks(sealed, step), i), i) == Some(sealed)
    decreases |sealed|
  {
    var chunks := Chunks(sealed, step);
    var after := Overlay(service, chunks, i);
    OverlayIs(service[i := chunks[0]], chunks[1..], i + 1, i);
    if step <= |sealed| {
      var rest := sealed[step..];
      ReadsBack(service[i := chunks[0]], rest, step, i + 1);
      StrippedPiece(sealed[..step]);
      assert sealed[..step] + rest == sealed;
    }
  }

  /** Otherwise, on a keyring with no entry behind the ones written, nothing is read back at all. */
  lemma {:induction false} ReadsNothing(service: map<nat, string>, sealed: string, step: nat, i: nat)
    requires step > 0 && !Splittable(sealed, step)
    requires forall k :: k >= i ==> k !in service
    ensures ReadFrom(Overlay(service, Chunks(sealed, step), i), i) == None
    decreases |sealed|
  {
    var chunks := Chunks(sealed, step);
    if step <= |sealed| {
      var rest := sealed[step..];
      OverlayIs(service[i := chunks[0]], chunks[1..], i + 1, i);
      ReadsNothing(service[i := chunks[0]], rest, step, i + 1);
      StrippedPiece(sealed[..step]);
    } else if sealed != "" {
      assert Overlay(service, chunks, i) == service[i := sealed] by { assert chunks[1..] == []; }
    }
  }

  /** The round trip, and exactly when it can be relied on. */
  lemma RoundTrip(sealed: string, step: nat)
    requires step > 0
    ensures (forall service :: ReadFrom(Overlay(service, Chunks(sealed, step), 0), 0) == Some(sealed)) <==>
            Splittable(sealed, step)
  {
    if Splittable(sealed, step) {
      forall service ensures ReadFrom(Overlay(service, Chunks(sealed, step), 0), 0) == Some(sealed) {
        ReadsBack(service, sealed, step, 0);
      }
    } else {
      ReadsNothing(map[], sealed, step, 0);
    }
  }
}
