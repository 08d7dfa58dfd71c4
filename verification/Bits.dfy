/** `|` on bytes, which cache_write_byte uses to put a byte into a word. */
module Bits {
  import opened Bytes

  /** `|` on the `n` low bits of two numbers. */
  function OrBits(x: nat, y: nat, n: nat): nat
  {
    if n == 0 then 0 else (if x % 2 == 1 || y % 2 == 1 then 1 else 0) + 2 * OrBits(x / 2, y / 2, n - 1)
  }

  /** Every one of the `n` low bits set in `x` is set in `y`. */
  predicate BitsWithin(x: nat, y: nat, n: nat)
  {
    n == 0 || ((x % 2 == 1 ==> y % 2 == 1) && BitsWithin(x / 2, y / 2, n - 1))
  }

  function PowerOfTwo(n: nat): (p: nat)
    ensures p > 0
  {
    if n == 0 then 1 else 2 * PowerOfTwo(n - 1)
  }

  lemma {:induction false} OrIsNew(x: nat, y: nat, n: nat)
    requires y < PowerOfTwo(n)
    ensures OrBits(x, y, n) < PowerOfTwo(n)
    ensures OrBits(x, y, n) == y <==> BitsWithin(x, y, n)
  {
    if n > 0 {
      OrIsNew(x / 2, y / 2, n - 1);
    }
  }

  /** `|` on two bytes. */
  function ByteOr(x: Byte, y: Byte): Byte
  {
    assert PowerOfTwo(8) == 256;
    OrIsNew(x, y, 8);
    OrBits(x, y, 8)
  }

  /** Oring gives the new byte exactly if no set bit has to be cleared. */
  lemma {:induction false} OrIsRight(x: Byte, y: Byte)
    ensures ByteOr(x, y) == y <==> BitsWithin(x, y, 8)
  {
    assert PowerOfTwo(8) == 256;
    OrIsNew(x, y, 8);
  }

  /** 255 has every bit. */
  lemma {:induction false} AllBits(x: nat, n: nat)
    ensures BitsWithin(x, PowerOfTwo(n) - 1, n)
  {
    if n > 0 {
      assert (PowerOfTwo(n) - 1) / 2 == PowerOfTwo(n - 1) - 1;
      AllBits(x / 2, n - 1);
    }
  }

  /** `|` works on the low `m` bits and on the bits above them. */
  lemma {:induction false} OrSplit(a: nat, b: nat, c: nat, d: nat, m: nat, n: nat)
    requires a < PowerOfTwo(m) && c < PowerOfTwo(m)
    ensures OrBits(a + PowerOfTwo(m) * b, c + PowerOfTwo(m) * d, m + n) ==
            OrBits(a, c, m) + PowerOfTwo(m) * OrBits(b, d, n)
  {
    if m > 0 {
      var p := PowerOfTwo(m - 1);
      Halved(a, p, b);
      Halved(c, p, d);
      OrSplit(a / 2, b, c / 2, d, m - 1, n);
      Doubled(OrBits(a / 2, c / 2, m - 1), p, OrBits(b, d, n));
    }
  }

  lemma {:induction false} Halved(a: nat, p: nat, b: nat)
    ensures (a + 2 * p * b) / 2 == a / 2 + p * b && (a + 2 * p * b) % 2 == a % 2
  {
    assert a + 2 * p * b == a + 2 * (p * b);
  }

  lemma {:induction false} Doubled(x: nat, p: nat, y: nat)
    ensures 2 * (x + p * y) == 2 * x + 2 * p * y
  {
  }

  lemma {:induction false} OrZero(x: nat, n: nat)
    requires x < PowerOfTwo(n)
    ensures OrBits(x, 0, n) == x
  {
    if n > 0 {
      OrZero(x / 2, n - 1);
    }
  }

  /** The 32 bits of two words. */
  lemma {:induction false} OrOfWords(x: Word, y: Word)
    ensures OrBits(Decode(x), Decode(y), 32) ==
            Decode([ByteOr(x[0], y[0]), ByteOr(x[1], y[1]), ByteOr(x[2], y[2]), ByteOr(x[3], y[3])])
  {
    hide OrBits;
    assert PowerOfTwo(8) == 256;
    var xa: nat, xb: nat, xc: nat := x[1], x[2], x[3];
    var x2 := xb + 256 * xc;
    var x1 := xa + 256 * x2;
    var ya: nat, yb: nat, yc: nat := y[1], y[2], y[3];
    var y2 := yb + 256 * yc;
    var y1 := ya + 256 * y2;
    OrSplit(x[2], x[3], y[2], y[3], 8, 8);
    OrSplit(x[1], x2, y[1], y2, 8, 16);
    OrSplit(x[0], x1, y[0], y1, 8, 24);
  }

  /** `*word |= byte << (8 * k)` on the number that a word holds is `|` on its byte `k`. */
  lemma {:induction false} OrShifted(w: Word, k: nat, byte: Byte)
    requires k < 4
    ensures Decode(w[k := ByteOr(w[k], byte)]) == OrBits(Decode(w), ByteScale(k) * byte, 32)
  {
    hide OrBits;
    var zero: Word := [0, 0, 0, 0];
    var shifted: Word := zero[k := byte];
    OrOfWords(w, shifted);
    forall b: Byte
      ensures ByteOr(b, 0) == b
    {
      assert PowerOfTwo(8) == 256;
      OrZero(b, 8);
    }
    assert w[k := ByteOr(w[k], byte)] ==
      [ByteOr(w[0], shifted[0]), ByteOr(w[1], shifted[1]), ByteOr(w[2], shifted[2]), ByteOr(w[3], shifted[3])];
    assert Decode(shifted) == ByteScale(k) * byte;
  }
}
