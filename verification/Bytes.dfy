/** Memory as the simulator sees it: an array of bytes addressed by a 32-bit
    physical address.  A `word_t` is kept as its four bytes in little-endian
    order, a cache line as its sixteen bytes, so that a `memcpy` is a splice. */
module Bytes {
  import opened Arithmetic

  type Byte = b: int | 0 <= b < 0x100
  type Uint32 = x: int | 0 <= x < 0x1_0000_0000
  type Word = w: seq<Byte> | |w| == 4 witness [0, 0, 0, 0]
  type Line = l: seq<Byte> | |l| == 16 witness seq(16, _ => 0)

  const WORD_BYTES := 4
  const LINE_BYTES := 16

  /** `m` after a `memcpy` of `part` to offset `at`. */
  function Splice(m: seq<Byte>, at: nat, part: seq<Byte>): (r: seq<Byte>)
    requires at + |part| <= |m|
    ensures |r| == |m|
    ensures forall i :: 0 <= i < |m| ==> r[i] == if at <= i < at + |part| then part[i - at] else m[i]
  {
    m[..at] + part + m[at + |part|..]
  }

  /** The number held by a little-endian word. */
  function Decode(w: Word): Uint32
  {
    var b0: int, b1: int, b2: int, b3: int := w[0], w[1], w[2], w[3];
    b0 + 0x100 * b1 + 0x1_0000 * b2 + 0x100_0000 * b3
  }

  /** The word holding a number. */
  function Encode(x: Uint32): Word
  {
    [x % 0x100, x / 0x100 % 0x100, x / 0x1_0000 % 0x100, x / 0x100_0000]
  }

  lemma EncodeDecode(x: Uint32, w: Word)
    ensures Decode(Encode(x)) == x
    ensures Encode(Decode(w)) == w
  {
    Nested(x);
    var b0: int, b1: int, b2: int, b3: int := w[0], w[1], w[2], w[3];
    Quotient(b1 + 0x100 * b2 + 0x1_0000 * b3, b0, 0x100);
    Quotient(b2 + 0x100 * b3, b0 + 0x100 * b1, 0x1_0000);
    Quotient(b3, b0 + 0x100 * b1 + 0x1_0000 * b2, 0x100_0000);
    Quotient(b2 + 0x100 * b3, b1, 0x100);
    Quotient(b3, b2, 0x100);
  }

  /** Shifting by one byte after another is shifting by their sum. */
  lemma Nested(x: int)
    ensures x / 0x1_0000 == x / 0x100 / 0x100
    ensures x / 0x100_0000 == x / 0x1_0000 / 0x100
  {
    var a := x / 0x100;
    Divided(x, 0x100);
    Divided(a, 0x100);
    Quotient(a / 0x100, 0x100 * (a % 0x100) + x % 0x100, 0x1_0000);
    var c := x / 0x1_0000;
    Divided(x, 0x1_0000);
    Divided(c, 0x100);
    Quotient(c / 0x100, 0x1_0000 * (c % 0x100) + x % 0x1_0000, 0x100_0000);
  }

  /** The factor of a shift left by `k` bytes. */
  function ByteScale(k: nat): (p: int)
    requires k < 4
    ensures p > 0
  {
    [0x1, 0x100, 0x1_0000, 0x100_0000][k]
  }

  /** Shifting the number right by `8 * k` and masking with 0xff, as
      `cache_read_byte` does, picks byte `k` of the little-endian word. */
  lemma ShiftAndMask(w: Word, k: nat)
    requires k < 4
    ensures Decode(w) / ByteScale(k) % 0x100 == w[k]
  {
    EncodeDecode(Decode(w), w);
    assert Encode(Decode(w))[k] == w[k];
  }

  /** The word at byte address `addr`, whose two low bits do not matter. */
  function WordBase(addr: nat): nat
  {
    addr / 4 * 4
  }

  /** The flat memory that caches must be indistinguishable from. */
  function FlatRead(m: seq<Byte>, addr: nat): Word
    requires WordBase(addr) + 4 <= |m|
  {
    m[WordBase(addr)..WordBase(addr) + 4]
  }

  function FlatWrite(m: seq<Byte>, addr: nat, w: Word): (r: seq<Byte>)
    requires WordBase(addr) + 4 <= |m|
    ensures |r| == |m|
  {
    Splice(m, WordBase(addr), w)
  }
}
