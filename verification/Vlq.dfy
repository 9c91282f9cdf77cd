/** Base64 VLQ as the bundler writes and reads it: JavaScript's 32-bit shifts on both sides,
    and the unbounded reading of ECMA-426 they have to agree with. */
module Vlq {
  import opened Common

  const LIMIT: int := 0x4000_0000       // 2^30
  const WORD_LIMIT: int := 0x8000_0000  // 2^31

  /** JavaScript's ToInt32. */
  function ToInt32(x: int): int {
    var u := x % 0x1_0000_0000;
    if u < 0x8000_0000 then u else u - 0x1_0000_0000
  }

  function Pow2(n: nat): nat {
    if n == 0 then 1 else 2 * Pow2(n - 1)
  }

  /** x << s: the shift count is taken modulo 32 and the result wraps. */
  function ShiftLeft(x: int, s: nat): int {
    ToInt32(x * Pow2(s % 32))
  }

  // ------------------------------------------------------------------ the alphabet

  /** The Base64 digits of section 4 of RFC 4648. */
  function IntegerToChar(d: int): Byte
    requires 0 <= d < 64
  {
    if d < 26 then 65 + d
    else if d < 52 then 97 + (d - 26)
    else if d < 62 then 48 + (d - 52)
    else if d == 62 then 43
    else 47
  }

  /** The reading table. Its source string has a 65th character, `=`, which reads as 64. */
  function CharToInteger(b: Byte): int {
    if 65 <= b <= 90 then b - 65
    else if 97 <= b <= 122 then b - 97 + 26
    else if 48 <= b <= 57 then b - 48 + 52
    else if b == 43 then 62
    else if b == 47 then 63
    else if b == 61 then 64
    else 255
  }

  /** The string both tables are filled from, without its last character, `=`. */
  const ALPHABET: string := "ABCDEFGHIJKLMNOPQRSTUVWXYZ" + "abcdefghijklmnopqrstuvwxyz" + "0123456789+/"

  lemma UpperCase(d: int)
    requires 0 <= d < 26
    ensures "ABCDEFGHIJKLMNOPQRSTUVWXYZ"[d] as int == 65 + d
  {
  }

  lemma LowerCase(d: int)
    requires 0 <= d < 26
    ensures "abcdefghijklmnopqrstuvwxyz"[d] as int == 97 + d
  {
  }

  lemma OtherCharacters(d: int)
    requires 0 <= d < 12
    ensures "0123456789+/"[d] as int == if d < 10 then 48 + d else if d == 10 then 43 else 47
  {
  }

  /** The d-th digit is written as the d-th character. */
  lemma WrittenAlphabet(d: int)
    requires 0 <= d < 64
    ensures |ALPHABET| == 64 && IntegerToChar(d) == ALPHABET[d] as int
  {
    if d < 26 { UpperCase(d); } else if d < 52 { LowerCase(d - 26); } else { OtherCharacters(d - 52); }
  }

  /** And read from it: `=` reads as 64 and every other byte as 255. */
  lemma ReadAlphabet(b: Byte)
    ensures |ALPHABET| == 64
    ensures forall d :: 0 <= d < 64 ==> (CharToInteger(b) == d <==> ALPHABET[d] as int == b)
    ensures CharToInteger(b) == 64 <==> b == '=' as int
    ensures CharToInteger(b) == 255 <==> b != '=' as int && forall d :: 0 <= d < 64 ==> ALPHABET[d] as int != b
  {
    hide ALPHABET;
    WrittenAlphabet(0);
    forall d | 0 <= d < 64 ensures CharToInteger(b) == d <==> ALPHABET[d] as int == b { WrittenAlphabet(d); }
    var c := CharToInteger(b);
    if c < 64 { WrittenAlphabet(c); }
  }

  // ------------------------------------------------------------------ writing

  /** The word `addVLQ` shifts its digits out of: the magnitude doubled, the sign in the low bit. */
  function Word(n: int): int {
    if n < 0 then ToInt32(-n * 2) + 1 else ToInt32(n * 2)
  }

  /** Digits of a word, least significant first; bit 32 says that another follows. */
  function Digits(w: int): (ds: seq<int>)
    ensures |ds| > 0 && forall i :: 0 <= i < |ds| ==> 0 <= ds[i] < 64
    decreases if w > 0 then w else 0
  {
    if w / 32 > 0 then [w % 32 + 32] + Digits(w / 32) else [w % 32]
  }

  function Chars(ds: seq<int>): seq<Byte>
    requires forall i :: 0 <= i < |ds| ==> 0 <= ds[i] < 64
  {
    seq(|ds|, i requires 0 <= i < |ds| => IntegerToChar(ds[i]))
  }

  function Encode(n: int): seq<Byte> {
    Chars(Digits(Word(n)))
  }

  lemma OneDigit(n: int)
    requires 0 <= Word(n) < 32
    ensures Encode(n) == [IntegerToChar(Word(n))]
  {
    hide Word, IntegerToChar;
    assert Digits(Word(n)) == [Word(n)];
  }

  /** "A", "D", "gB" and "w+B". */
  lemma SomeNumbers()
    ensures Encode(0) == [65] && Encode(-1) == [68] && Encode(16) == [103, 66] && Encode(1000) == [119, 43, 66]
  {
    OneDigit(0);
    OneDigit(-1);
    assert Digits(32) == [32, 1];
    assert Digits(1) == [1] && Digits(62) == [62, 1] && Digits(2000) == [48, 62, 1];
  }

  /** The magnitude doubled, with the sign in the low bit. */
  function SignedMagnitude(n: int): nat {
    if n < 0 then 2 * -n + 1 else 2 * n
  }

  /** What is written, character by character: five bits each, least significant first, as many as the
      number needs, every one but the last marked. */
  lemma EncodedDigit(n: int, k: nat)
    requires -LIMIT < n < LIMIT && k < |Encode(n)|
    ensures var w, last := SignedMagnitude(n), |Encode(n)| - 1;
      && w < Pow32(last + 1) && (last > 0 ==> Pow32(last) <= w)
      && 0 <= w / Pow32(k) % 32 + (if k < last then 32 else 0) < |ALPHABET|
      && Encode(n)[k] == ALPHABET[w / Pow32(k) % 32 + (if k < last then 32 else 0)] as int
  {
    hide ALPHABET, Word, Digits, Pow32;
    WordBound(n);
    DigitsOf(SignedMagnitude(n), k);
    WrittenAlphabet(Digits(Word(n))[k]);
  }

  lemma {:induction false} DigitsOf(w: int, k: nat)
    requires 0 <= w && k < |Digits(w)|
    ensures var last := |Digits(w)| - 1;
      && w < Pow32(last + 1) && (last > 0 ==> Pow32(last) <= w)
      && Digits(w)[k] == w / Pow32(k) % 32 + (if k < last then 32 else 0)
    decreases w
  {
    hide Pow32, Digits;
    DigitsStep(w);
    Pow32Zero();
    if w / 32 > 0 {
      var rest := Digits(w / 32);
      DigitsOf(w / 32, if k == 0 then 0 else k - 1);
      Pow32Step(|rest| - 1);
      Pow32Step(|rest|);
      assert w == w / 32 * 32 + w % 32;
      if k > 0 {
        Pow32Step(k - 1);
        DivideTwice(w, Pow32(k - 1));
      }
    } else {
      Pow32Step(0);
    }
  }

  lemma Pow32Zero()
    ensures Pow32(0) == 1
  {
  }

  lemma DivideTwice(w: nat, p: nat)
    requires p > 0
    ensures w / 32 / p == w / (32 * p)
  {
    var q, r := w / 32 / p, w / 32 % p;
    assert w / 32 == q * p + r;
    assert w == (q * p + r) * 32 + w % 32;
    assert (q * p + r) * 32 == q * (32 * p) + 32 * r;
    assert 0 <= 32 * r + w % 32 < 32 * p;
    Quotient(w, q, 32 * r + w % 32, 32 * p);
  }

  // ------------------------------------------------------------------ reading

  function Continues(c: int): bool {
    c / 32 % 2 == 1
  }

  /** `value & 1`, `value >>= 1`, and the sign. */
  function Signed(value: int): int {
    var half := ToInt32(value) / 2;
    if value % 2 == 1 then -half else half
  }

  datatype Read = Truncated | Invalid | Number(value: int, length: nat)

  /** The accumulation in `addSource`, from the given accumulators on. */
  function ReadVlq(bytes: seq<Byte>, value: int, shift: nat): Read {
    if bytes == [] then Truncated
    else
      var c := CharToInteger(bytes[0]);
      if c == 255 then Invalid
      else
        var value' := value + ShiftLeft(c % 32, shift);
        if Continues(c) then
          match ReadVlq(bytes[1..], value', shift + 5)
          case Number(v, n) => Number(v, n + 1)
          case other => other
        else Number(Signed(value'), 1)
  }

  // ------------------------------------------------------------------ proofs

  function Pow32(k: nat): (p: nat)
    ensures p > 0
  {
    if k == 0 then 1 else 32 * Pow32(k - 1)
  }

  lemma {:induction false} Pow2OfFive(k: nat)
    ensures Pow2(5 * k) == Pow32(k)
  {
    if k > 0 {
      var n := 5 * (k - 1);
      Pow2OfFive(k - 1);
      assert Pow2(n + 1) == 2 * Pow2(n);
      assert Pow2(n + 2) == 4 * Pow2(n);
      assert Pow2(n + 3) == 8 * Pow2(n);
      assert Pow2(n + 4) == 16 * Pow2(n);
      assert Pow2(n + 5) == 32 * Pow2(n);
    }
  }

  lemma {:induction false} Pow32AtLeast(k: nat)
    requires k >= 7
    ensures Pow32(k) >= WORD_LIMIT
  {
    if k == 7 {
      assert Pow32(3) == 32768;
      assert Pow32(5) == 1024 * Pow32(3);
      assert Pow32(7) == 1024 * Pow32(5);
    } else {
      Pow32AtLeast(k - 1);
    }
  }

  lemma ToInt32Small(x: int)
    requires 0 <= x < WORD_LIMIT
    ensures ToInt32(x) == x
  {
  }

  lemma Multiple(d: int, p: int)
    requires 1 <= d && 0 <= p
    ensures p <= d * p
  {
  }

  /** While the value read so far stays below 2^31 the 32-bit shift is the exact one. */
  lemma ShiftIsExact(d: int, k: nat)
    requires 0 <= d < 32 && d * Pow32(k) < WORD_LIMIT
    ensures ShiftLeft(d, 5 * k) == d * Pow32(k)
  {
    hide ToInt32, Pow32, Pow2;
    if d == 0 {
      assert 0 * Pow2(5 * k % 32) == 0 == 0 * Pow32(k);
      ToInt32Small(0);
    } else {
      Multiple(d, Pow32(k));
      if k >= 7 { Pow32AtLeast(k); }
      Pow2OfFive(k);
      assert 5 * k % 32 == 5 * k;
      ToInt32Small(d * Pow32(k));
    }
  }

  lemma AlphabetInverse(d: int)
    requires 0 <= d < 64
    ensures CharToInteger(IntegerToChar(d)) == d
  {
  }

  lemma SplitWord(w: int, p: nat)
    requires w >= 0
    ensures w * p == w % 32 * p + w / 32 * (32 * p)
    ensures 0 <= w % 32 * p <= w * p
  {
    assert w == w % 32 + w / 32 * 32;
    assert (w % 32 + w / 32 * 32) * p == w % 32 * p + w / 32 * 32 * p;
    assert w / 32 * 32 * p == w / 32 * (32 * p);
    assert w / 32 * (32 * p) >= 0;
  }

  lemma ReadOne(bytes: seq<Byte>, value: int, k: nat, c: int)
    requires |bytes| > 0 && 0 <= c < 64 && bytes[0] == IntegerToChar(c) && c % 32 * Pow32(k) < WORD_LIMIT
    ensures var value' := value + c % 32 * Pow32(k);
      ReadVlq(bytes, value, 5 * k) ==
        if Continues(c) then
          (match ReadVlq(bytes[1..], value', 5 * (k + 1)) case Number(v, n) => Number(v, n + 1) case other => other)
        else Number(Signed(value'), 1)
  {
    hide ToInt32, Pow32, ShiftLeft, Signed, CharToInteger, IntegerToChar;
    AlphabetInverse(c);
    ShiftIsExact(c % 32, k);
    assert 5 * k + 5 == 5 * (k + 1);
  }

  lemma DigitsStep(w: int)
    ensures Digits(w) == [w % 32 + (if w / 32 > 0 then 32 else 0)] + (if w / 32 > 0 then Digits(w / 32) else [])
  {
  }

  lemma CharsSnoc(ds: seq<int>, d: int)
    requires forall i :: 0 <= i < |ds| ==> 0 <= ds[i] < 64
    requires 0 <= d < 64
    ensures Chars([]) == [] && Chars(ds + [d]) == Chars(ds) + [IntegerToChar(d)]
  {
  }

  lemma FirstDigit(w: int)
    requires w >= 0
    ensures var ds := Digits(w);
      && ds[0] % 32 == w % 32
      && (Continues(ds[0]) <==> w / 32 > 0)
      && ds[1..] == if w / 32 > 0 then Digits(w / 32) else []
  {
    hide Digits, Continues;
    DigitsStep(w);
    LowDigit(w % 32);
  }

  lemma LowDigit(d: int)
    requires 0 <= d < 32
    ensures (d + 32) % 32 == d == d % 32 && Continues(d + 32) && !Continues(d)
  {
  }

  /** Reading the digits of a word adds the word, shifted, to the accumulator. */
  lemma {:induction false} ReadDigits(w: int, value: nat, k: nat, rest: seq<Byte>)
    requires 0 <= w && value + w * Pow32(k) < WORD_LIMIT
    ensures ReadVlq(Chars(Digits(w)) + rest, value, 5 * k) == Number(Signed(value + w * Pow32(k)), |Digits(w)|)
    decreases w
  {
    hide ToInt32, Pow32, ShiftLeft, Signed, CharToInteger, IntegerToChar, ReadVlq, Digits, Continues;
    var ds := Digits(w);
    var bytes := Chars(ds) + rest;
    FirstDigit(w);
    SplitWord(w, Pow32(k));
    ReadOne(bytes, value, k, ds[0]);
    if w / 32 > 0 {
      assert bytes[1..] == Chars(Digits(w / 32)) + rest;
      Pow32Step(k);
      ReadDigits(w / 32, value + w % 32 * Pow32(k), k + 1, rest);
    }
  }

  lemma Pow32Step(k: nat)
    ensures Pow32(k + 1) == 32 * Pow32(k)
  {
  }

  lemma WordBound(n: int)
    ensures Word(n) < WORD_LIMIT
    ensures Word(n) % 2 == if n < 0 then 1 else 0
    ensures -LIMIT < n < LIMIT ==> Word(n) == if n < 0 then -n * 2 + 1 else n * 2
  {
  }

  lemma SignedWord(w: int)
    requires 0 <= w < WORD_LIMIT
    ensures Signed(w) == if w % 2 == 1 then -(w / 2) else w / 2
  {
    ToInt32Small(w);
  }

  /** The round trip, and exactly how far it goes: what `addVLQ` emits for n is read back as n, and no
      byte after it is touched, if and only if the magnitude of n is below 2^30. */
  lemma RoundTrip(n: int, rest: seq<Byte>)
    ensures ReadVlq(Encode(n) + rest, 0, 0) == Number(n, |Encode(n)|) <==> -LIMIT < n < LIMIT
  {
    hide ToInt32, ShiftLeft, Signed, CharToInteger, IntegerToChar, ReadVlq, Digits, Continues, Word;
    var w := Word(n);
    WordBound(n);
    if w >= 0 {
      ReadDigits(w, 0, 0, rest);
      SignedWord(w);
    } else {
      NegativeWordIsOneDigit(w);
      ReadOne(Encode(n) + rest, 0, 0, w % 32);
      SignedWord(w % 32);
    }
  }

  lemma NegativeWordIsOneDigit(w: int)
    requires w < 0
    ensures Digits(w) == [w % 32] && !Continues(w % 32)
  {
  }
}
