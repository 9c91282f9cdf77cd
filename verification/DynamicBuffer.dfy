/** The growing byte buffer under the bundler. */
module DynamicBuffers {
  import opened Common
  import opened Vlq

  ghost predicate AreDigits(ds: seq<int>) {
    forall i :: 0 <= i < |ds| ==> 0 <= ds[i] < 64
  }

  /** The digits written so far, and those of the word that are left. */
  ghost predicate Emitted(num: int, emitted: seq<int>, word: int, more: bool) {
    Digits(Word(num)) == emitted + (if more then Digits(word) else [])
  }

  lemma NothingEmitted(num: int)
    ensures AreDigits([]) && Chars([]) == [] && Emitted(num, [], Word(num), true)
  {
    assert [] + Digits(Word(num)) == Digits(Word(num));
  }

  lemma EmitOne(num: int, emitted: seq<int>, word: int)
    requires AreDigits(emitted) && Emitted(num, emitted, word, true)
    ensures var clamped := word % 32 + (if word / 32 > 0 then 32 else 0);
      && 0 <= clamped < 64 && AreDigits(emitted + [clamped])
      && Chars(emitted + [clamped]) == Chars(emitted) + [IntegerToChar(clamped)]
      && Emitted(num, emitted + [clamped], word / 32, word / 32 > 0)
  {
    hide Digits, Chars, IntegerToChar, Word;
    DigitsStep(word);
    CharsSnoc(emitted, word % 32 + (if word / 32 > 0 then 32 else 0));
  }

  lemma AllEmitted(num: int, emitted: seq<int>, word: int)
    requires AreDigits(emitted) && Emitted(num, emitted, word, false)
    ensures Chars(emitted) == Encode(num)
  {
    assert emitted == Digits(Word(num));
  }

  class DynamicBuffer {
    var buffer: array<Byte>
    var size: nat
    /** How many bytes growing has copied so far. */
    ghost var copied: nat

    ghost predicate Sound()
      reads this, buffer
    {
      size <= buffer.Length && 512 <= buffer.Length && copied < buffer.Length
    }

    /** The capacity never exceeds the initial one or twice the size. */
    ghost predicate Valid()
      reads this, buffer
    {
      Sound() && buffer.Length <= Max(512, 2 * size)
    }

    ghost function Contents(): seq<Byte>
      requires size <= buffer.Length
      reads this, buffer
    {
      buffer[..size]
    }

    constructor ()
      ensures Valid() && Contents() == [] && fresh(buffer)
    {
      buffer := new Byte[512](_ => 0);
      size, copied := 0, 0;
    }

    /** Doubling, or more when more is asked for; all copying so far stays below the new capacity. */
    method EnsureCapacity(capacity: nat)
      requires Sound()
      modifies this
      ensures Sound() && capacity <= buffer.Length && size == old(size) && Contents() == old(Contents())
      ensures buffer.Length <= Max(old(buffer.Length), 2 * capacity)
      ensures buffer == old(buffer) || fresh(buffer)
    {
      if buffer.Length >= capacity {
        return;
      }
      var oldBuffer := buffer;
      var length := Max(oldBuffer.Length * 2, capacity);
      var grown := new Byte[length](_ => 0);
      forall i | 0 <= i < oldBuffer.Length {
        grown[i] := oldBuffer[i];
      }
      buffer := grown;
      copied := copied + oldBuffer.Length;
    }

    method AddByte(b: Byte)
      requires Valid()
      modifies this, buffer
      ensures Valid() && Contents() == old(Contents()) + [b]
      ensures buffer == old(buffer) || fresh(buffer)
    {
      EnsureCapacity(size + 1);
      buffer[size] := b;
      size := size + 1;
    }

    method AddBuffer(b: seq<Byte>)
      requires Valid()
      modifies this, buffer
      ensures Valid() && Contents() == old(Contents()) + b
      ensures buffer == old(buffer) || fresh(buffer)
    {
      EnsureCapacity(size + |b|);
      forall i | 0 <= i < |b| {
        buffer[size + i] := b[i];
      }
      size := size + |b|;
    }

    method AddVLQ(num: int)
      requires Valid()
      modifies this, buffer
      ensures Valid() && Contents() == old(Contents()) + Encode(num)
      ensures buffer == old(buffer) || fresh(buffer)
    {
      var word := if num < 0 then ToInt32(-num * 2) + 1 else ToInt32(num * 2);
      assert word == Word(num);
      hide ToInt32, Digits, Chars, IntegerToChar, Word, Encode, Max;
      ghost var emitted: seq<int> := [];
      var more := true;
      NothingEmitted(num);
      while more
        invariant Valid() && (buffer == old(buffer) || fresh(buffer))
        invariant AreDigits(emitted) && Contents() == old(Contents()) + Chars(emitted)
        invariant Emitted(num, emitted, word, more)
        decreases more, if word > 0 then word else 0
      {
        hide Emitted, AreDigits;
        EmitOne(num, emitted, word);
        var clamped := word % 32;
        word := word / 32;
        if word > 0 { clamped := clamped + 32; }
        AddByte(IntegerToChar(clamped));
        emitted := emitted + [clamped];
        more := word > 0;
      }
      AllEmitted(num, emitted, word);
    }

    method ToBuffer() returns (b: seq<Byte>)
      requires Valid()
      ensures b == Contents()
    {
      b := buffer[..size];
    }
  }
}
