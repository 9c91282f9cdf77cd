/** Normalising relative module ids: `a/../name` to `name`, and so on. */
module ModuleIds {
  const SLASH: char := '/'
  const DOT: string := "."
  const UP: string := ".."

  /** The segments between slashes. */
  function Split(r: string): (segs: seq<string>)
    ensures |segs| > 0
  {
    if r == "" then [""]
    else
      var segs := Split(r[..|r| - 1]);
      if r[|r| - 1] == SLASH then segs + [""]
      else segs[..|segs| - 1] + [segs[|segs| - 1] + [r[|r| - 1]]]
  }

  /** The segments when one more character has been read. */
  function Extended(segs: seq<string>, c: char): seq<string>
    requires |segs| > 0
  {
    if c == SLASH then segs + [""] else segs[..|segs| - 1] + [segs[|segs| - 1] + [c]]
  }

  lemma SplitSnoc(r: string, c: char)
    ensures Split(r + [c]) == Extended(Split(r), c)
  {
    assert (r + [c])[..|r|] == r;
  }

  lemma ExtendedAppend(a: seq<string>, b: seq<string>, c: char)
    requires |b| > 0
    ensures a + b != [] && Extended(a + b, c) == a + Extended(b, c)
  {
    if c == SLASH {
      assert a + b + [""] == a + (b + [""]);
    } else {
      assert (a + b)[..|a + b| - 1] == a + b[..|b| - 1];
    }
  }

  lemma {:induction false} SplitAtSlash(a: string, b: string)
    ensures Split(a + "/" + b) == Split(a) + Split(b)
  {
    if b == "" {
      assert a + "/" + b == a + [SLASH];
      SplitSnoc(a, SLASH);
      assert Split("") == [""];
    } else {
      hide Split, Extended;
      var b0, c := b[..|b| - 1], b[|b| - 1];
      SplitAtSlash(a, b0);
      assert b0 + [c] == b && a + "/" + b == a + "/" + b0 + [c];
      SplitSnoc(a + "/" + b0, c);
      SplitSnoc(b0, c);
      ExtendedAppend(Split(a), Split(b0), c);
    }
  }

  lemma {:induction false} SplitPlain(a: string)
    requires SLASH !in a
    ensures Split(a) == [a]
  {
    if a != "" {
      SplitPlain(a[..|a| - 1]);
      assert a[..|a| - 1] + [a[|a| - 1]] == a;
    }
  }

  lemma {:induction false} SplitSegmentsArePlain(r: string, k: nat)
    requires k < |Split(r)|
    ensures SLASH !in Split(r)[k]
  {
    if r != "" {
      var before := Split(r[..|r| - 1]);
      if k < |before| { SplitSegmentsArePlain(r[..|r| - 1], k); }
    }
  }

  /** Where segment k starts: everything before it, and everything after it. */
  lemma {:induction false} Around(r: string, k: nat) returns (a: string, b: string)
    requires 0 < k < |Split(r)| - 1
    ensures r == a + "/" + Split(r)[k] + "/" + b
    ensures Split(a) == Split(r)[..k] && Split(b) == Split(r)[k + 1..]
  {
    var rest;
    a, rest := Cut(r, k);
    var c;
    c, b := Cut(rest, 1);
    OneSegment(c);
  }

  lemma {:induction false} Cut(r: string, k: nat) returns (a: string, b: string)
    requires 0 < k < |Split(r)|
    ensures r == a + "/" + b && Split(a) == Split(r)[..k] && Split(b) == Split(r)[k..]
  {
    hide Split, Extended;
    EmptyString();
    var r0, c := r[..|r| - 1], r[|r| - 1];
    assert r0 + [c] == r;
    SplitSnoc(r0, c);
    ExtendedEnds(Split(r0), c);
    if k == |Split(r0)| {
      a, b := r0, "";
    } else {
      var b0;
      a, b0 := Cut(r0, k);
      b := b0 + [c];
      assert r == a + "/" + b;
      SplitSnoc(b0, c);
      ExtendSlice(Split(r0), c, k);
    }
  }

  lemma EmptyString()
    ensures Split("") == [""]
  {
  }

  lemma ExtendedEnds(segs: seq<string>, c: char)
    requires |segs| > 0
    ensures |segs| <= |Extended(segs, c)| <= |segs| + 1
    ensures |Extended(segs, c)| == |segs| + 1 ==>
      c == SLASH && Extended(segs, c)[..|segs|] == segs && Extended(segs, c)[|segs|..] == [""]
  {
  }

  lemma ExtendSlice(segs: seq<string>, c: char, k: nat)
    requires 0 < k < |segs|
    ensures Extended(segs, c)[..k] == segs[..k] && Extended(segs, c)[k..] == Extended(segs[k..], c)
  {
  }

  lemma {:induction false} OneSegment(a: string)
    requires |Split(a)| == 1
    ensures Split(a)[0] == a
  {
    if a != "" { OneSegment(a[..|a| - 1]); }
  }

  // ------------------------------------------------------------------ what an id denotes

  /** A location relative to where the id is used: so many levels up, then down through names. */
  datatype Location = Location(up: nat, names: seq<string>)

  function Enter(l: Location, seg: string): Location {
    if seg == DOT then l
    else if seg == UP then
      if l.names == [] then l.(up := l.up + 1) else l.(names := l.names[..|l.names| - 1])
    else l.(names := l.names + [seg])
  }

  function Walk(l: Location, segs: seq<string>): Location {
    if segs == [] then l else Enter(Walk(l, segs[..|segs| - 1]), segs[|segs| - 1])
  }

  function Denotes(segs: seq<string>): Location {
    Walk(Location(0, []), segs)
  }

  predicate Ordinary(seg: string) {
    seg != "" && seg != DOT && seg != UP
  }

  /** Leading `..` segments followed by ordinary ones only. */
  predicate Normal(segs: seq<string>) {
    exists k :: 0 <= k <= |segs| && NormalFrom(segs, k)
  }

  predicate NormalFrom(segs: seq<string>, k: nat) {
    k <= |segs| && (forall i :: 0 <= i < k ==> segs[i] == UP) && forall i :: k <= i < |segs| ==> Ordinary(segs[i])
  }

  /** The ids normalisation is for: no empty segment, and a last segment that names something. */
  predicate Regular(segs: seq<string>) {
    |segs| > 0 && (forall i :: 0 <= i < |segs| ==> segs[i] != "") && Ordinary(segs[|segs| - 1])
  }

  lemma {:induction false} WalkAppend(l: Location, a: seq<string>, b: seq<string>)
    ensures Walk(l, a + b) == Walk(Walk(l, a), b)
  {
    if b == [] {
      assert a + b == a;
    } else {
      WalkAppend(l, a, b[..|b| - 1]);
      assert (a + b)[..|a + b| - 1] == a + b[..|b| - 1];
    }
  }

  lemma DropDot(a: seq<string>, b: seq<string>)
    ensures Denotes(a + [DOT] + b) == Denotes(a + b)
  {
    WalkAppend(Location(0, []), a + [DOT], b);
    WalkAppend(Location(0, []), a, b);
    assert (a + [DOT])[..|a|] == a;
  }

  lemma DropPair(a: seq<string>, seg: string, b: seq<string>)
    requires seg != DOT && seg != UP
    ensures Denotes(a + [seg, UP] + b) == Denotes(a + b)
  {
    var l := Location(0, []);
    WalkAppend(l, a + [seg, UP], b);
    WalkAppend(l, a, b);
    assert (a + [seg, UP])[..|a| + 1] == a + [seg];
    assert (a + [seg])[..|a|] == a;
    var x := Walk(l, a);
    assert (x.names + [seg])[..|x.names|] == x.names;
  }

  lemma {:induction false} NormalDenotes(segs: seq<string>, k: nat)
    requires NormalFrom(segs, k)
    ensures Denotes(segs) == Location(k, segs[k..])
  {
    if segs != [] {
      var init := segs[..|segs| - 1];
      if k == |segs| {
        NormalDenotes(init, k - 1);
      } else {
        NormalDenotes(init, k);
        assert init[k..] + [segs[|segs| - 1]] == segs[k..];
      }
    }
  }

  function Ups(n: nat): (r: seq<string>)
    ensures |r| == n && forall i :: 0 <= i < n ==> r[i] == UP
  {
    seq(n, _ => UP)
  }

  /** The one normal form of a location. */
  function Canonical(l: Location): seq<string> {
    Ups(l.up) + l.names
  }

  lemma NormalIsCanonical(segs: seq<string>)
    requires Normal(segs)
    ensures segs == Canonical(Denotes(segs))
  {
    var k :| 0 <= k <= |segs| && NormalFrom(segs, k);
    NormalDenotes(segs, k);
    assert segs == segs[..k] + segs[k..];
    assert segs[..k] == Ups(k);
  }

  /** Normal forms are unique: ids with the same meaning have the same one. */
  lemma NormalIsUnique(a: seq<string>, b: seq<string>)
    requires Normal(a) && Normal(b) && Denotes(a) == Denotes(b)
    ensures a == b
  {
    NormalIsCanonical(a);
    NormalIsCanonical(b);
  }

  /** A string is determined by its segments. */
  lemma {:induction false} SplitIsInjective(r: string, s: string)
    requires Split(r) == Split(s)
    ensures r == s
    decreases |r|
  {
    if |Split(r)| == 1 {
      OneSegment(r);
      OneSegment(s);
    } else {
      var n := |Split(r)| - 1;
      var a, b := Cut(r, n);
      var c, d := Cut(s, n);
      OneSegment(b);
      OneSegment(d);
      SplitIsInjective(a, c);
    }
  }

  // ------------------------------------------------------------------ what an id is rewritten to

  /** One segment that others follow: `.` goes, `..` takes the name before it along, and everything else stays,
      a `..` after nothing, after another `..` or after an empty segment included. */
  function Kept(stack: seq<string>, seg: string): seq<string> {
    if seg == DOT then stack
    else if seg == UP && stack != [] && stack[|stack| - 1] != UP && stack[|stack| - 1] != "" then stack[..|stack| - 1]
    else stack + [seg]
  }

  function KeptAll(stack: seq<string>, segs: seq<string>): seq<string> {
    if segs == [] then stack else Kept(KeptAll(stack, segs[..|segs| - 1]), segs[|segs| - 1])
  }

  /** Any id, regular or not: the last segment stays as it is. */
  function Reduced(segs: seq<string>): seq<string>
    requires |segs| > 0
  {
    KeptAll([], segs[..|segs| - 1]) + [segs[|segs| - 1]]
  }

  lemma {:induction false} KeptAppend(stack: seq<string>, a: seq<string>, b: seq<string>)
    ensures KeptAll(stack, a + b) == KeptAll(KeptAll(stack, a), b)
  {
    if b == [] {
      assert a + b == a;
    } else {
      KeptAppend(stack, a, b[..|b| - 1]);
      assert (a + b)[..|a + b| - 1] == a + b[..|b| - 1];
    }
  }

  lemma ReducedAppend(a: seq<string>, b: seq<string>)
    requires |b| > 0
    ensures |a + b| > 0 && Reduced(a + b) == KeptAll(KeptAll([], a), b[..|b| - 1]) + [b[|b| - 1]]
  {
    assert (a + b)[..|a + b| - 1] == a + b[..|b| - 1];
    KeptAppend([], a, b[..|b| - 1]);
  }

  lemma DotReduced(a: seq<string>, b: seq<string>)
    requires |b| > 0
    ensures |a + [DOT] + b| > 0 && Reduced(a + [DOT] + b) == Reduced(a + b)
  {
    ReducedAppend(a + [DOT], b);
    ReducedAppend(a, b);
    assert (a + [DOT])[..|a|] == a;
  }

  lemma PairReduced(a: seq<string>, seg: string, b: seq<string>)
    requires |b| > 0 && seg != DOT && seg != UP && seg != ""
    ensures |a + [seg, UP] + b| > 0 && Reduced(a + [seg, UP] + b) == Reduced(a + b)
  {
    ReducedAppend(a + [seg, UP], b);
    ReducedAppend(a, b);
    assert (a + [seg, UP])[..|a| + 1] == a + [seg];
    assert (a + [seg])[..|a|] == a;
    var x := KeptAll([], a);
    assert (x + [seg])[..|x|] == x;
  }

  /** Nowhere is there a `..` after a name, with others following. */
  predicate Irreducible(segs: seq<string>) {
    forall k :: 0 < k < |segs| - 1 && segs[k] == UP ==> segs[k - 1] == UP || segs[k - 1] == ""
  }

  lemma {:induction false} NothingToReduce(segs: seq<string>, n: nat)
    requires n < |segs| && Dotless(segs) && Irreducible(segs)
    ensures KeptAll([], segs[..n]) == segs[..n]
  {
    if n > 0 {
      NothingToReduce(segs, n - 1);
      assert segs[..n][..n - 1] == segs[..n - 1];
      assert segs[..n - 1] + [segs[n - 1]] == segs[..n];
    }
  }

  lemma ReducedAlready(segs: seq<string>)
    requires |segs| > 0 && Dotless(segs) && Irreducible(segs)
    ensures Reduced(segs) == segs
  {
    hide Dotless, Irreducible, KeptAll, Kept;
    NothingToReduce(segs, |segs| - 1);
    assert segs[..|segs| - 1] + [segs[|segs| - 1]] == segs;
  }

  lemma KeptInTurn(a: string, b: string, c: string, d: string)
    ensures KeptAll([], [a]) == Kept([], a)
    ensures KeptAll([], [a, b]) == Kept(Kept([], a), b)
    ensures KeptAll([], [a, b, c]) == Kept(Kept(Kept([], a), b), c)
    ensures KeptAll([], [a, b, c, d]) == Kept(Kept(Kept(Kept([], a), b), c), d)
  {
    hide Kept;
    assert [a][..0] == [] && [a, b][..1] == [a] && [a, b, c][..2] == [a, b] && [a, b, c, d][..3] == [a, b, c];
  }

  /** `a/./b/../c`, `./a`, `../../a`, `a/../../b`, `a//../b`, `a/..` and `a/.`. */
  lemma SomeIds()
    ensures Reduced(["a", ".", "b", "..", "c"]) == ["a", "c"]
    ensures Reduced([".", "a"]) == ["a"]
    ensures Reduced(["..", "..", "a"]) == ["..", "..", "a"]
    ensures Reduced(["a", "..", "..", "b"]) == ["..", "b"]
    ensures Reduced(["a", "", "..", "b"]) == ["a", "", "..", "b"]
    ensures Reduced(["a", ".."]) == ["a", ".."]
    ensures Reduced(["a", "."]) == ["a", "."]
  {
    hide KeptAll;
    KeptInTurn("a", ".", "b", "..");
    KeptInTurn(".", "", "", "");
    KeptInTurn("..", "..", "", "");
    KeptInTurn("a", "..", "..", "");
    KeptInTurn("a", "", "..", "");
    assert ["a", ".", "b", "..", "c"][..4] == ["a", ".", "b", ".."] && [".", "a"][..1] == ["."];
    assert ["..", "..", "a"][..2] == ["..", ".."] && ["a", "..", "..", "b"][..3] == ["a", "..", ".."];
    assert ["a", "", "..", "b"][..3] == ["a", "", ".."] && ["a", ".."][..1] == ["a"] == ["a", "."][..1];
  }

  // ------------------------------------------------------------------ the rewriting

  /** `/./` at position i. */
  predicate DotAt(r: string, i: nat) {
    i + 3 <= |r| && r[i..i + 3] == "/./"
  }

  /** A segment the patterns may drop together with the `..` after it: anything but `..` itself. */
  predicate Droppable(seg: string) {
    && SLASH !in seg
    && (|seg| == 1 || (|seg| == 2 && (seg[0] != '.' || seg[1] != '.')) || |seg| >= 3)
  }

  /** `aa/../` from i to j + 4, with aa between i and j. */
  predicate PairAt(r: string, i: nat, j: nat) {
    i <= j && j + 4 <= |r| && Droppable(r[i..j]) && r[j..j + 4] == "/../"
  }

  /** The first slash at or after i, or the length. */
  function NextSlash(r: string, i: nat): (j: nat)
    requires i <= |r|
    ensures i <= j <= |r| && (j < |r| ==> r[j] == SLASH) && SLASH !in r[i..j]
    decreases |r| - i
  {
    if i == |r| || r[i] == SLASH then i
    else
      var j := NextSlash(r, i + 1);
      assert r[i..j] == [r[i]] + r[i + 1..j];
      j
  }

  lemma RemoveDot(r: string, i: nat)
    requires DotAt(r, i)
    ensures var r' := r[..i] + "/" + r[i + 3..];
      exists a, b :: |a| > 0 && |b| > 0 && Split(r) == a + [DOT] + b && Split(r') == a + b
  {
    hide Split;
    var x, y := r[..i], r[i + 3..];
    assert r == x + "/" + (DOT + "/" + y) by { assert r == x + r[i..i + 3] + y; }
    SplitAtSlash(x, DOT + "/" + y);
    SplitAtSlash(DOT, y);
    SplitPlain(DOT);
    SplitAtSlash(x, y);
    assert Split(r) == Split(x) + [DOT] + Split(y);
  }

  lemma RemovePair(r: string, i: nat, j: nat)
    requires PairAt(r, i, j) && i > 0 && r[i - 1] == SLASH
    ensures var r' := r[..i - 1] + "/" + r[j + 4..];
      exists a, b :: |a| > 0 && |b| > 0 && Split(r) == a + [r[i..j], UP] + b && Split(r') == a + b
  {
    hide Split;
    var x, seg, y := r[..i - 1], r[i..j], r[j + 4..];
    assert r == x + "/" + (seg + "/" + (UP + "/" + y)) by {
      assert r == r[..i - 1] + [r[i - 1]] + r[i..j] + r[j..j + 4] + r[j + 4..];
    }
    SplitAtSlash(x, seg + "/" + (UP + "/" + y));
    SplitAtSlash(seg, UP + "/" + y);
    SplitAtSlash(UP, y);
    SplitPlain(seg);
    SplitPlain(UP);
    SplitAtSlash(x, y);
    assert Split(r) == Split(x) + [seg, UP] + Split(y);
  }

  /** No segment but perhaps the last is `.`. */
  predicate Dotless(segs: seq<string>) {
    forall k :: 0 <= k < |segs| - 1 ==> segs[k] != DOT
  }

  /** The same, the first segment aside. */
  predicate InnerDotless(segs: seq<string>) {
    forall k :: 0 < k < |segs| - 1 ==> segs[k] != DOT
  }

  /** After the first segment, no `..` follows another kind of segment, the last one aside. */
  predicate Settled(segs: seq<string>) {
    forall k :: 0 < k < |segs| - 2 && segs[k + 1] == UP ==> segs[k] == UP || segs[k] == ""
  }

  lemma DotOccurs(r: string, k: nat)
    requires 0 < k < |Split(r)| - 1 && Split(r)[k] == DOT
    ensures exists i :: 0 <= i <= |r| && DotAt(r, i)
  {
    hide Split;
    var a, b := Around(r, k);
    assert r == a + "/./" + b;
    assert r[|a|..|a| + 3] == "/./";
    assert DotAt(r, |a|);
  }

  lemma NoDotLeft(r: string)
    requires forall i :: 0 <= i <= |r| ==> !DotAt(r, i)
    ensures InnerDotless(Split(r))
  {
    hide Split;
    forall k | 0 < k < |Split(r)| - 1 ensures Split(r)[k] != DOT {
      if Split(r)[k] == DOT { DotOccurs(r, k); }
    }
  }

  lemma NotUpIsDroppable(seg: string)
    requires seg != "" && seg != UP && SLASH !in seg
    ensures Droppable(seg)
  {
    if |seg| == 2 { assert seg == [seg[0], seg[1]]; }
  }

  /** Segments x, `..` followed by more make the text of the pattern. */
  lemma PairText(x: string, seg: string, y: string)
    requires Droppable(seg)
    ensures PairAt(x + seg + "/../" + y, |x|, |x| + |seg|)
  {
    var r := x + seg + "/../" + y;
    assert r[|x|..|x| + |seg|] == seg;
    assert r[|x| + |seg|..|x| + |seg| + 4] == "/../";
  }

  /** A string whose segments begin with seg and `..`, and go on. */
  lemma BeginsWithPair(r: string) returns (y: string)
    requires |Split(r)| >= 3 && Split(r)[1] == UP
    ensures r == Split(r)[0] + "/../" + y
  {
    hide Split;
    var a, b := Cut(r, 1);
    OneSegment(a);
    var c, d := Cut(b, 1);
    OneSegment(c);
    y := d;
    assert r == a + "/" + (UP + "/" + y);
    assert "/" + (UP + "/" + y) == "/../" + y;
  }

  lemma PairOccurs(r: string, k: nat)
    requires 0 < k < |Split(r)| - 2 && Split(r)[k + 1] == UP && Split(r)[k] != UP && Split(r)[k] != ""
    ensures exists i, j :: 0 < i <= |r| && 0 <= j <= |r| && r[i - 1] == SLASH && PairAt(r, i, j)
  {
    hide Split, PairAt;
    var seg := Split(r)[k];
    SplitSegmentsArePlain(r, k);
    NotUpIsDroppable(seg);
    var a, b := Cut(r, k);
    var y := BeginsWithPair(b);
    PairText(a + "/", seg, y);
    var i, j := |a| + 1, |a| + 1 + |seg|;
    assert r == a + "/" + seg + "/../" + y;
    assert r[i - 1] == SLASH && PairAt(r, i, j);
  }

  lemma NoPairLeft(r: string)
    requires forall i, j :: 0 < i <= |r| && 0 <= j <= |r| && r[i - 1] == SLASH ==> !PairAt(r, i, j)
    ensures Settled(Split(r))
  {
    hide Split, PairAt;
    forall k | 0 < k < |Split(r)| - 2 && Split(r)[k + 1] == UP ensures Split(r)[k] == UP || Split(r)[k] == "" {
      if Split(r)[k] != UP && Split(r)[k] != "" { PairOccurs(r, k); }
    }
  }

  lemma DroppableIsNotUp(seg: string)
    requires Droppable(seg)
    ensures seg != "" && seg != UP
  {
  }

  /** The end of the proof: what the last replacement makes of a settled list is normal. */
  lemma SettledIsNormal(segs: seq<string>)
    requires Regular(segs) && Dotless(segs) && Settled(segs)
    ensures |segs| >= 3 && segs[0] != UP && segs[1] == UP ==> Normal(segs[2..]) && Regular(segs[2..])
    ensures !(|segs| >= 3 && segs[0] != UP && segs[1] == UP) ==> Normal(segs)
    ensures segs[0] != ""
  {
    var n := UpsThenOrdinary(segs, 1);
    if |segs| >= 3 && segs[0] != UP && segs[1] == UP {
      assert NormalFrom(segs[2..], n - 2);
    } else if segs[0] == UP {
      assert NormalFrom(segs, n);
    } else {
      assert NormalFrom(segs, 0);
    }
  }

  lemma SettledIsIrreducible(segs: seq<string>)
    requires |segs| > 0 && Dotless(segs) && Settled(segs)
    ensures if |segs| >= 3 && segs[0] != UP && segs[0] != "" && segs[1] == UP then
              Dotless(segs[2..]) && Irreducible(segs[2..])
            else Irreducible(segs)
  {
  }

  /** From position i on: `..` up to some n, then ordinary segments. */
  lemma {:induction false} UpsThenOrdinary(segs: seq<string>, i: nat) returns (n: nat)
    requires Regular(segs) && Dotless(segs) && Settled(segs) && 1 <= i <= |segs|
    ensures i <= n <= |segs|
    ensures forall k :: i <= k < n ==> segs[k] == UP
    ensures forall k :: n <= k < |segs| ==> Ordinary(segs[k])
    ensures i < |segs| ==> (n == i <==> segs[i] != UP)
    decreases |segs| - i
  {
    if i == |segs| {
      n := i;
    } else {
      n := UpsThenOrdinary(segs, i + 1);
      if segs[i] != UP {
        assert i < |segs| - 2 ==> segs[i + 1] != UP;
        n := i;
      }
    }
  }

  method FindDot(r: string) returns (i: int)
    ensures i < 0 ==> forall k :: 0 <= k <= |r| ==> !DotAt(r, k)
    ensures i >= 0 ==> DotAt(r, i)
  {
    i := 0;
    while i <= |r|
      invariant 0 <= i <= |r| + 1
      invariant forall k :: 0 <= k < i ==> !DotAt(r, k)
    {
      if DotAt(r, i) { return; }
      i := i + 1;
    }
    i := -1;
  }

  method FindPair(r: string) returns (i: int, j: int)
    ensures i < 0 ==> forall a, b :: 0 < a <= |r| && 0 <= b <= |r| && r[a - 1] == SLASH ==> !PairAt(r, a, b)
    ensures i >= 0 ==> i > 0 && j >= 0 && PairAt(r, i, j) && r[i - 1] == SLASH
  {
    i, j := 1, 0;
    while i <= |r|
      invariant 1 <= i <= |r| + 1
      invariant forall a, b :: 0 < a < i && 0 <= b <= |r| && r[a - 1] == SLASH ==> !PairAt(r, a, b)
    {
      if r[i - 1] == SLASH {
        j := NextSlash(r, i);
        if PairAt(r, i, j) { return; }
        forall b | 0 <= b <= |r| ensures !PairAt(r, i, b) { OnlyNextSlash(r, i, b); }
      }
      i := i + 1;
    }
    i := -1;
  }

  lemma {:induction false} NextSlashIs(r: string, i: nat, b: nat)
    requires i <= b < |r| && r[b] == SLASH && SLASH !in r[i..b]
    ensures NextSlash(r, i) == b
    decreases b - i
  {
    if i < b {
      assert r[i] == r[i..b][0];
      assert r[i + 1..b] == r[i..b][1..];
      NextSlashIs(r, i + 1, b);
    }
  }

  lemma OnlyNextSlash(r: string, i: nat, b: nat)
    requires i <= |r| && b <= |r|
    ensures PairAt(r, i, b) ==> b == NextSlash(r, i)
  {
    if PairAt(r, i, b) {
      assert r[b] == r[b..b + 4][0];
      NextSlashIs(r, i, b);
    }
  }

  /** The first loop. */
  method RemoveDots(moduleId: string) returns (r: string)
    ensures Denotes(Split(r)) == Denotes(Split(moduleId)) && Reduced(Split(r)) == Reduced(Split(moduleId))
    ensures Regular(Split(moduleId)) ==> Regular(Split(r))
    ensures InnerDotless(Split(r))
  {
    hide Split, Denotes, Regular, InnerDotless, Reduced;
    r := moduleId;
    var i := FindDot(r);
    while i >= 0
      invariant i >= 0 ==> DotAt(r, i)
      invariant i < 0 ==> forall k :: 0 <= k <= |r| ==> !DotAt(r, k)
      invariant Denotes(Split(r)) == Denotes(Split(moduleId)) && Reduced(Split(r)) == Reduced(Split(moduleId))
      invariant Regular(Split(moduleId)) ==> Regular(Split(r))
      decreases |r|, i
    {
      RemoveDot(r, i);
      var r' := r[..i] + "/" + r[i + 3..];
      ghost var a, b :| |a| > 0 && |b| > 0 && Split(r) == a + [DOT] + b && Split(r') == a + b;
      DropDot(a, b);
      DotReduced(a, b);
      StillRegular(a, [DOT], b);
      r := r';
      i := FindDot(r);
    }
    NoDotLeft(r);
  }

  /** The replacement of a leading dot. */
  method RemoveLeadingDot(moduleId: string) returns (r: string)
    requires InnerDotless(Split(moduleId))
    ensures Denotes(Split(r)) == Denotes(Split(moduleId)) && Reduced(Split(r)) == Reduced(Split(moduleId))
    ensures Regular(Split(moduleId)) ==> Regular(Split(r))
    ensures Dotless(Split(r))
  {
    hide Split, Denotes, Regular, InnerDotless, Dotless, Reduced;
    r := moduleId;
    LeadingDot(r);
    if |r| >= 2 && r[..2] == "./" {
      DropDot([], Split(r[2..]));
      DotReduced([], Split(r[2..]));
      assert [] + [DOT] + Split(r[2..]) == [DOT] + Split(r[2..]) && [] + Split(r[2..]) == Split(r[2..]);
      StillRegular([], [DOT], Split(r[2..]));
      r := r[2..];
    }
  }

  /** The second loop. */
  method RemovePairs(moduleId: string) returns (r: string)
    requires Dotless(Split(moduleId))
    ensures Denotes(Split(r)) == Denotes(Split(moduleId)) && Reduced(Split(r)) == Reduced(Split(moduleId))
    ensures Regular(Split(moduleId)) ==> Regular(Split(r))
    ensures Dotless(Split(r)) && Settled(Split(r))
  {
    hide Split, Denotes, Regular, Dotless, Settled, Reduced;
    r := moduleId;
    var i, j := FindPair(r);
    while i >= 0
      invariant i >= 0 ==> i > 0 && j >= 0 && PairAt(r, i, j) && r[i - 1] == SLASH
      invariant i < 0 ==> forall a, b :: 0 < a <= |r| && 0 <= b <= |r| && r[a - 1] == SLASH ==> !PairAt(r, a, b)
      invariant Dotless(Split(r))
      invariant Denotes(Split(r)) == Denotes(Split(moduleId)) && Reduced(Split(r)) == Reduced(Split(moduleId))
      invariant Regular(Split(moduleId)) ==> Regular(Split(r))
      decreases |r|, i
    {
      RemovePair(r, i, j);
      var r' := r[..i - 1] + "/" + r[j + 4..];
      ghost var seg := r[i..j];
      ghost var a, b :| |a| > 0 && |b| > 0 && Split(r) == a + [seg, UP] + b && Split(r') == a + b;
      PairDropped(a, seg, b);
      StillRegular(a, [seg, UP], b);
      r := r';
      i, j := FindPair(r);
    }
    NoPairLeft(r);
  }

  /** Every id keeps its meaning, and what becomes of it is given segment by segment. A regular one becomes
      the canonical id of its location, and stays regular; a canonical one is left alone. */
  method NormalizeModuleId(moduleId: string) returns (r: string)
    ensures Split(r) == Reduced(Split(moduleId))
    ensures Denotes(Split(r)) == Denotes(Split(moduleId))
    ensures Regular(Split(moduleId)) ==>
      Regular(Split(r)) && Normal(Split(r)) && Split(r) == Canonical(Denotes(Split(moduleId)))
    ensures Regular(Split(moduleId)) && Normal(Split(moduleId)) ==> r == moduleId
  {
    hide Split, Denotes, Regular, Dotless, Settled, PairAt, Normal, Canonical, Reduced, Irreducible;
    r := RemoveDots(moduleId);
    r := RemoveLeadingDot(r);
    r := RemovePairs(r);
    ghost var segs := Split(r);
    var j := NextSlash(r, 0);
    LeadingPair(r, j);
    PairFits(r, 0, j);
    if PairAt(r, 0, j) {
      r := r[j + 4..];
    }
    SettledIsIrreducible(segs);
    ReducedAlready(Split(r));
    if Regular(Split(moduleId)) {
      SettledIsNormal(segs);
      NormalIsCanonical(Split(r));
      if Normal(Split(moduleId)) {
        NormalIsUnique(Split(r), Split(moduleId));
        SplitIsInjective(r, moduleId);
      }
    }
  }

  lemma PairFits(r: string, i: nat, j: nat)
    ensures PairAt(r, i, j) ==> j + 4 <= |r|
  {
  }

  /** So the result depends on the location alone: regular ids with the same location are normalized to
      the same id, and normalizing once more changes nothing. */
  lemma SameLocationSameId(a: string, b: string, r: string, s: string)
    requires Regular(Split(a)) && Regular(Split(b))
    requires Split(r) == Canonical(Denotes(Split(a))) && Split(s) == Canonical(Denotes(Split(b)))
    requires Denotes(Split(r)) == Denotes(Split(a)) && Denotes(Split(s)) == Denotes(Split(b))
    ensures r == s <==> Denotes(Split(a)) == Denotes(Split(b))
  {
    hide Split, Denotes, Regular, Canonical;
    if Denotes(Split(a)) == Denotes(Split(b)) { SplitIsInjective(r, s); }
  }

  lemma StillRegular(a: seq<string>, gone: seq<string>, b: seq<string>)
    requires |b| > 0
    ensures Regular(a + gone + b) ==> Regular(a + b)
  {
    assert (a + gone + b)[|a + gone + b| - 1] == b[|b| - 1];
    if Regular(a + gone + b) {
      forall i | 0 <= i < |b| ensures b[i] != "" { assert (a + gone + b)[|a + gone| + i] != ""; }
      forall i | 0 <= i < |a| ensures a[i] != "" { assert (a + gone + b)[i] != ""; }
    }
  }

  lemma PairDropped(a: seq<string>, seg: string, b: seq<string>)
    requires Dotless(a + [seg, UP] + b) && |b| > 0 && Droppable(seg)
    ensures Dotless(a + b) && Denotes(a + [seg, UP] + b) == Denotes(a + b)
    ensures Reduced(a + [seg, UP] + b) == Reduced(a + b)
  {
    var all := a + [seg, UP] + b;
    assert all[|a|] == seg;
    DroppableIsNotUp(seg);
    DropPair(a, seg, b);
    PairReduced(a, seg, b);
    forall k | 0 <= k < |a + b| - 1 ensures (a + b)[k] != DOT {
      if k < |a| { assert all[k] == a[k]; } else { assert all[k + 2] == b[k - |a|]; }
    }
  }

  lemma SplitLeadingDot(r: string)
    requires |r| >= 2 && r[..2] == "./"
    ensures Split(r) == [DOT] + Split(r[2..])
  {
    hide Split;
    assert r == DOT + "/" + r[2..];
    SplitAtSlash(DOT, r[2..]);
    SplitPlain(DOT);
  }

  lemma InnerTail(segs: seq<string>, rest: seq<string>)
    requires InnerDotless(segs) && segs == [DOT] + rest
    ensures Dotless(rest)
  {
    forall k | 0 <= k < |rest| - 1 ensures rest[k] != DOT { assert segs[k + 1] == rest[k]; }
  }

  /** `^./` is there exactly when the first of several segments is `.`. */
  lemma LeadingDot(r: string)
    requires InnerDotless(Split(r))
    ensures |r| >= 2 && r[..2] == "./" ==> Split(r) == [DOT] + Split(r[2..]) && Dotless(Split(r[2..]))
    ensures !(|r| >= 2 && r[..2] == "./") ==> Dotless(Split(r))
  {
    hide Split;
    if |r| >= 2 && r[..2] == "./" {
      SplitLeadingDot(r);
      InnerTail(Split(r), Split(r[2..]));
    } else if |Split(r)| > 1 && Split(r)[0] == DOT {
      BeginsWithDot(r);
    }
  }

  lemma BeginsWithDot(r: string)
    requires |Split(r)| > 1 && Split(r)[0] == DOT
    ensures |r| >= 2 && r[..2] == "./"
  {
    hide Split;
    var a, b := Cut(r, 1);
    OneSegment(a);
    assert r == "./" + b;
  }

  /** `^aa/../` is there exactly when the first two of at least three segments are such a pair. */
  lemma LeadingPair(r: string, j: nat)
    requires Dotless(Split(r)) && j == NextSlash(r, 0)
    ensures PairAt(r, 0, j) ==>
      && |Split(r)| >= 3 && Split(r)[0] != UP && Split(r)[0] != "" && Split(r)[1] == UP
      && Split(r[j + 4..]) == Split(r)[2..]
    ensures PairAt(r, 0, j) ==> Denotes(Split(r[j + 4..])) == Denotes(Split(r))
    ensures PairAt(r, 0, j) ==> Reduced(Split(r[j + 4..])) == Reduced(Split(r))
    ensures !PairAt(r, 0, j) ==> !(|Split(r)| >= 3 && Split(r)[0] != UP && Split(r)[0] != "" && Split(r)[1] == UP)
  {
    hide Split, Denotes, Reduced;
    if PairAt(r, 0, j) {
      var seg, y := r[0..j], r[j + 4..];
      assert r == seg + "/" + (UP + "/" + y) by { assert r == r[0..j] + r[j..j + 4] + r[j + 4..]; }
      SplitAtSlash(seg, UP + "/" + y);
      SplitAtSlash(UP, y);
      SplitPlain(seg);
      SplitPlain(UP);
      DroppableIsNotUp(seg);
      assert Split(r) == [] + [seg, UP] + Split(y);
      assert [] + Split(y) == Split(y);
      PairDropped([], seg, Split(y));
    } else if |Split(r)| >= 3 && Split(r)[0] != UP && Split(r)[0] != "" && Split(r)[1] == UP {
      PairLeads(r, j);
    }
  }

  lemma PairLeads(r: string, j: nat)
    requires |Split(r)| >= 3 && Split(r)[0] != UP && Split(r)[0] != "" && Split(r)[1] == UP && j == NextSlash(r, 0)
    ensures PairAt(r, 0, j)
  {
    hide Split, PairAt;
    var seg := Split(r)[0];
    SplitSegmentsArePlain(r, 0);
    NotUpIsDroppable(seg);
    var y := BeginsWithPair(r);
    PairText("", seg, y);
    assert r == "" + seg + "/../" + y;
    OnlyNextSlash(r, 0, |seg|);
  }
}
