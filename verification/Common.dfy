/** Small types and functions the other modules share. */
module Common {
  datatype Option<+T> = None | Some(value: T)

  type Byte = b: int | 0 <= b < 256

  function Max(a: nat, b: nat): nat {
    if a >= b then a else b
  }

  function Concat(pieces: seq<seq<Byte>>): seq<Byte> {
    if pieces == [] then [] else Concat(pieces[..|pieces| - 1]) + pieces[|pieces| - 1]
  }

  lemma Quotient(x: int, q: int, r: int, step: int)
    requires step > 0 && x == q * step + r && 0 <= r < step
    ensures x / step == q && x % step == r
  {
    var k := x / step - q;
    assert x == x / step * step + x % step;
    assert k * step == r - x % step by { assert (x / step - q) * step == x / step * step - q * step; }
    SmallMultiple(k, step);
  }

  lemma SmallMultiple(k: int, step: int)
    requires step > 0 && -step < k * step < step
    ensures k == 0
  {
    if k >= 1 { AtLeast(k, step); }
    if k <= -1 { AtLeast(-k, step); }
  }

  lemma AtLeast(k: int, step: int)
    requires k >= 1 && step > 0
    ensures k * step >= step
  {
    assert (k - 1) * step >= 0;
    assert k * step == (k - 1) * step + step;
  }
}
