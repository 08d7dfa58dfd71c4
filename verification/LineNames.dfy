/** Addresses, lines and words (cache.h:14-33): how a 32-bit address names a line, a
    set and a tag in each level, and how words sit in lines and lines in memory. */
module LineNames {
  import opened Bytes
  import opened Arithmetic

  const L1_SETS := 64
  const L1_WAYS := 4
  const L2_SETS := 512
  const L2_WAYS := 8

  /** The sizes documented: 64 sets of 4 ways and 4 KiB, 512 sets of 8 ways and 64 KiB. */
  lemma Capacities()
    ensures L1_SETS == 64 && L1_WAYS == 4 && L1_SETS * L1_WAYS * LINE_BYTES == 4 * 1024
    ensures L2_SETS == 512 && L2_WAYS == 8 && L2_SETS * L2_WAYS * LINE_BYTES == 64 * 1024
  {
  }

  /** The number of the 16-byte line that holds an address. */
  function LineOf(addr: nat): nat
  {
    addr / LINE_BYTES
  }

  predicate InMemory(mem: seq<Byte>, addr: nat)
  {
    LINE_BYTES * LineOf(addr) + LINE_BYTES <= |mem|
  }

  function MemLine(mem: seq<Byte>, la: nat): Line
    requires LINE_BYTES * la + LINE_BYTES <= |mem|
  {
    mem[LINE_BYTES * la..LINE_BYTES * la + LINE_BYTES]
  }

  /** The offset in its line of the word at `addr`: 4 * word_select. */
  function WordOffset(addr: nat): (o: nat)
    ensures o + 4 <= LINE_BYTES
  {
    addr % LINE_BYTES / WORD_BYTES * WORD_BYTES
  }

  function WordOf(line: Line, addr: nat): Word
  {
    line[WordOffset(addr)..WordOffset(addr) + 4]
  }

  function PutWord(line: Line, addr: nat, w: Word): Line
  {
    Splice(line, WordOffset(addr), w)
  }

  /** The same 28-bit line number is a (22-bit tag, 6-bit index) in L1 and a
      (19-bit tag, 9-bit index) in L2; the tags are the address shifted by 10 and by
      13; and the L2 name is computed from the L1 name by dropping three bits of the
      tag and putting them in front of the index. */
  lemma NamesOfLine(addr: Uint32)
    ensures var la := LineOf(addr);
      && addr / 0x400 == la / L1_SETS < 0x40_0000
      && addr / 0x2000 == la / L2_SETS < 0x8_0000
      && la == la / L1_SETS * L1_SETS + la % L1_SETS
      && la == la / L2_SETS * L2_SETS + la % L2_SETS
      && la / L2_SETS == la / L1_SETS / 8
      && la % L2_SETS == la / L1_SETS % 8 * L1_SETS + la % L1_SETS
  {
    var la := LineOf(addr);
    Divided(addr, LINE_BYTES);
    Divided(la, L1_SETS);
    Divided(la, L2_SETS);
    var t, i := la / L1_SETS, la % L1_SETS;
    Divided(t, 8);
    Quotient(t, LINE_BYTES * i + addr % LINE_BYTES, 0x400);
    Quotient(la / L2_SETS, LINE_BYTES * (la % L2_SETS) + addr % LINE_BYTES, 0x2000);
    Quotient(t / 8, t % 8 * L1_SETS + i, L2_SETS);
  }

  /** A tag and an index name one line, and the line gives them back. */
  lemma LineOfName(tag: nat, index: nat, sets: nat)
    requires index < sets
    ensures (tag * sets + index) / sets == tag && (tag * sets + index) % sets == index
  {
    Quotient(tag, index, sets);
  }

  lemma SameName(x: nat, y: nat, sets: nat)
    requires sets > 0 && x % sets == y % sets && x / sets == y / sets
    ensures x == y
  {
    Divided(x, sets);
    Divided(y, sets);
  }

  lemma WordPlace(addr: nat)
    ensures WordBase(addr) == LINE_BYTES * LineOf(addr) + WordOffset(addr)
  {
    Divided(addr, LINE_BYTES);
    Divided(addr % LINE_BYTES, WORD_BYTES);
    Quotient(4 * LineOf(addr) + addr % LINE_BYTES / WORD_BYTES, addr % LINE_BYTES % WORD_BYTES, WORD_BYTES);
  }

  lemma SliceOfSlice(m: seq<Byte>, a: nat, b: nat, c: nat, d: nat)
    requires a <= b <= |m| && c <= d <= b - a
    ensures m[a..b][c..d] == m[a + c..a + d]
  {
    var x, y := m[a..b][c..d], m[a + c..a + d];
    assert |x| == |y| && forall i :: 0 <= i < d - c ==> x[i] == y[i];
  }

  /** The word read through the line of memory is the word of the flat memory. */
  lemma WordOfMemLine(mem: seq<Byte>, addr: nat)
    requires InMemory(mem, addr)
    ensures WordBase(addr) + 4 <= |mem|
    ensures WordOf(MemLine(mem, LineOf(addr)), addr) == FlatRead(mem, addr)
  {
    WordPlace(addr);
    var base, o := LINE_BYTES * LineOf(addr), WordOffset(addr);
    SliceOfSlice(mem, base, base + LINE_BYTES, o, o + 4);
  }

  /** Writing the changed line back is writing the word to the flat memory. */
  lemma PutWordInMemory(mem: seq<Byte>, addr: nat, w: Word)
    requires InMemory(mem, addr)
    ensures WordBase(addr) + 4 <= |mem|
    ensures Splice(mem, LINE_BYTES * LineOf(addr), PutWord(MemLine(mem, LineOf(addr)), addr, w))
            == FlatWrite(mem, addr, w)
  {
    WordPlace(addr);
    var a := Splice(mem, LINE_BYTES * LineOf(addr), PutWord(MemLine(mem, LineOf(addr)), addr, w));
    var b := FlatWrite(mem, addr, w);
    assert |a| == |b|;
    assert forall i :: 0 <= i < |a| ==> a[i] == b[i];
  }

  /** A write of one word changes one line. */
  lemma MemLineAfterWrite(mem: seq<Byte>, addr: nat, w: Word, la: nat)
    requires InMemory(mem, addr) && LINE_BYTES * la + LINE_BYTES <= |mem|
    ensures WordBase(addr) + 4 <= |mem|
    ensures MemLine(FlatWrite(mem, addr, w), la) ==
            if la == LineOf(addr) then PutWord(MemLine(mem, la), addr, w) else MemLine(mem, la)
  {
    WordPlace(addr);
    var a := MemLine(FlatWrite(mem, addr, w), la);
    var b := if la == LineOf(addr) then PutWord(MemLine(mem, la), addr, w) else MemLine(mem, la);
    assert |a| == |b|;
    assert forall i :: 0 <= i < 16 ==> a[i] == b[i];
  }
}
