/** When one call of the cache as written reads or writes a byte as flat memory does, and
    what the first wrong calls do. */
module WrittenBytes {
  import opened Bytes
  import opened Outcomes
  import opened Arithmetic
  import opened LineNames
  import opened AgeSets
  import opened ExclusiveSpec
  import opened FlatMemory
  import opened Bits
  import opened WrittenSpec
  import opened WrittenCalls

  /** A byte read is the byte of flat memory, whatever the allocator left in the new
      entry, if and only if its address is a line base or it hits. */
  lemma {:induction false} ByteReadIsRightExactly(st: State, addr: Uint32)
    requires Sound(st) && InMemory(st.mem, addr)
    ensures (forall junk :: ReadByteW(st, addr, junk).Went? && ReadByteW(st, addr, junk).value == st.mem[addr])
            <==>
            BaseOrHit(st, addr)
  {
    hide NothingValid, SetsFine, Coherent, ReadW, FlatRead;
    ByteInWord(st.mem, addr, 0);
    var right := FlatRead(st.mem, addr);
    if BaseOrHit(st, addr) {
      forall junk
        ensures ReadByteW(st, addr, junk).Went? && ReadByteW(st, addr, junk).value == st.mem[addr]
      {
        SafeRead(st, addr, junk);
      }
    } else {
      var junk := Way(true, 0, 0, PutWord(EmptyLine(), addr, Spoiled(right)));
      MissReads(st, addr, junk);
      WordOfPut(EmptyLine(), addr, Spoiled(right));
      SpoiledDiffers(right);
      assert ReadByteW(st, addr, junk).value != st.mem[addr];
    }
  }

  /** A miss off a line base returns a word of the uninitialised entry. */
  lemma {:induction false} MissReads(st: State, addr: nat, junk: Way)
    requires Shaped(st) && NothingValid(st.l2) && InMemory(st.mem, addr) && !BaseOrHit(st, addr)
    ensures ReadW(st, addr, junk).Went? && ReadW(st, addr, junk).value == WordOf(junk.line, addr)
  {
    NeverInL2(st, addr);
  }

  /** At a line base a byte write stores the OR of the old and the new byte and nothing
      else; so it stores the new byte if and only if that has every bit of the old one. */
  lemma {:induction false} ByteWriteAtBase(st: State, addr: Uint32, byte: Byte, junk: Junk)
    requires Sound(st) && addr + LINE_BYTES <= |st.mem| && addr % LINE_BYTES == 0
    ensures var r := WriteByteW(st, addr, byte, junk);
      && r.Went? && r.value == Done && Sound(r.st)
      && r.st.mem == st.mem[addr := ByteOr(st.mem[addr], byte)]
      && (r.st.mem == st.mem[addr := byte] <==> BitsWithin(st.mem[addr], byte, 8))
  {
    hide NothingValid, SetsFine, Coherent, ReadW, WriteW, FlatRead, FlatWrite, ByteOr, BitsWithin;
    SafeRead(st, addr, junk.first);
    var r := ReadW(st, addr, junk.first);
    var b := ByteOr(st.mem[addr], byte);
    ByteInWord(st.mem, addr, b);
    SafeWrite(r.st, addr, r.value[addr % 4 := b], junk.second);
    WriteDone(r.st, addr, r.value[addr % 4 := b], junk.second);
    OrIsRight(st.mem[addr], byte);
    var m1, m2 := st.mem[addr := b], st.mem[addr := byte];
    assert m1[addr] == b && m2[addr] == byte;
  }

  lemma {:induction false} WriteDone(st: State, addr: Uint32, word: Word, junk: Way)
    requires Shaped(st) && addr + LINE_BYTES <= |st.mem|
    ensures WriteW(st, addr, word, junk).Went? ==> WriteW(st, addr, word, junk).value == Done
  {
  }

  /** A byte write puts its byte at the offset in the line once more: at `addr + addr % 16`. */
  lemma {:induction false} ByteLands(st: State, addr: Uint32, byte: Byte, junk: Junk)
    requires Shaped(st) && NothingValid(st.l2) && addr + LINE_BYTES <= |st.mem|
    ensures WriteByteW(st, addr, byte, junk).Went?
    ensures exists x: Byte :: WriteByteW(st, addr, byte, junk).st.mem[addr + addr % LINE_BYTES] == ByteOr(x, byte)
  {
    hide ReadW, WriteW, NothingValid, ByteOr;
    ReadKeepsL2(st, addr, junk.first);
    var r := ReadW(st, addr, junk.first);
    var x := r.value[addr % 4];
    WordPlace(addr);
    Divided(addr, LINE_BYTES);
    Divided(addr, WORD_BYTES);
    WrittenBytes(r.st, addr, r.value[addr % 4 := ByteOr(x, byte)], junk.second, addr % 4);
    assert addr + addr % LINE_BYTES == addr + WordOffset(addr) + addr % 4;
  }

  /** Over all addresses: writing a byte that clears no bit stores exactly that byte, in
      every sound state and whatever the allocator leaves, if and only if its address is a
      line base. */
  lemma {:induction false} ByteWriteIsRightExactly(size: nat, addr: Uint32)
    requires addr + LINE_BYTES <= size
    ensures (forall st, byte: Byte, junk :: Sound(st) && |st.mem| == size && BitsWithin(st.mem[addr], byte, 8) ==>
              WriteByteW(st, addr, byte, junk).Went? &&
              WriteByteW(st, addr, byte, junk).st.mem == st.mem[addr := byte])
            <==>
            addr % LINE_BYTES == 0
  {
    hide NothingValid, SetsFine, Coherent, WriteByteW, BitsWithin;
    if addr % LINE_BYTES == 0 {
      forall st, byte: Byte, junk | Sound(st) && |st.mem| == size && BitsWithin(st.mem[addr], byte, 8)
        ensures WriteByteW(st, addr, byte, junk).Went? &&
          WriteByteW(st, addr, byte, junk).st.mem == st.mem[addr := byte]
      {
        ByteWriteAtBase(st, addr, byte, junk);
      }
    } else {
      ByteWriteOffBase(size, addr);
      var st, junk := Flushed(Zeros(size)), Junk(Way(false, 0, 0, EmptyLine()), Way(false, 0, 0, EmptyLine()));
      assert WriteByteW(st, addr, 255, junk).st.mem != st.mem[addr := 255];
    }
  }

  function Zeros(size: nat): (mem: seq<Byte>)
    ensures |mem| == size && forall p :: 0 <= p < size ==> mem[p] == 0
  {
    seq(size, _ => 0)
  }

  /** The input for which it fails: memory all zero, flushed caches, the byte 255. */
  lemma {:induction false} ByteWriteOffBase(size: nat, addr: Uint32)
    requires addr + LINE_BYTES <= size && addr % LINE_BYTES != 0
    ensures var st := Flushed(Zeros(size));
      && Sound(st) && BitsWithin(st.mem[addr], 255, 8)
      && forall junk :: WriteByteW(st, addr, 255, junk).Went? &&
                        WriteByteW(st, addr, 255, junk).st.mem != st.mem[addr := 255]
  {
    hide Sound, WriteByteW, BitsWithin, ByteOr, Flushed;
    var st := Flushed(Zeros(size));
    assert st.mem == Zeros(size);
    FlushedSound(st.mem);
    SoundMeans(st);
    HasAllBits(0);
    forall junk
      ensures WriteByteW(st, addr, 255, junk).Went? && WriteByteW(st, addr, 255, junk).st.mem != st.mem[addr := 255]
    {
      ByteLands(st, addr, 255, junk);
      var p := addr + addr % LINE_BYTES;
      var x: Byte :| WriteByteW(st, addr, 255, junk).st.mem[p] == ByteOr(x, 255);
      HasAllBits(x);
      OrIsRight(x, 255);
      assert st.mem[addr := 255][p] == 0;
    }
  }

  lemma {:induction false} HasAllBits(x: Byte)
    ensures BitsWithin(x, 255, 8)
  {
    assert PowerOfTwo(8) == 256;
    AllBits(x, 8);
  }

  lemma {:induction false} SoundMeans(st: State)
    requires Sound(st)
    ensures Shaped(st) && NothingValid(st.l2)
  {
  }

  // ----- the first wrong calls, from flushed caches

  lemma {:induction false} OneOrTwo()
    ensures ByteOr(1, 2) == 3
  {
  }

  /** Writing the byte 2 over the byte 1 stores 3. */
  lemma {:induction false} ByteWriteIsWrong(mem: seq<Byte>, junk: Junk)
    requires |mem| >= 16 && mem[0] == 1
    ensures CallW(Flushed(mem), PutByteAt(0, 2), junk).Went?
    ensures CallW(Flushed(mem), PutByteAt(0, 2), junk).st.mem == mem[0 := 3]
  {
    hide WriteByteW, Sound, Flushed, ByteOr, BitsWithin;
    FlushedSound(mem);
    ByteWriteAtBase(Flushed(mem), 0, 2, junk);
    OneOrTwo();
  }

  /** Reading the word at address 4 returns what the allocator left. */
  lemma {:induction false} ReadIsWrong(mem: seq<Byte>, junk: Junk)
    requires |mem| >= 20
    ensures CallW(Flushed(mem), GetWord(4), junk).Went?
    ensures CallW(Flushed(mem), GetWord(4), junk).value == GotWord(junk.first.line[4..8])
  {
    hide ReadW;
    FlushedMisses(mem, 4);
    MissReads(Flushed(mem), 4, junk.first);
  }

  /** Writing the word at address 4 leaves it as it was and changes the word at address 8. */
  lemma {:induction false} WriteIsWrong(mem: seq<Byte>, word: Word, junk: Junk)
    requires |mem| >= 20
    ensures CallW(Flushed(mem), PutWordAt(4, word), junk).Went?
    ensures CallW(Flushed(mem), PutWordAt(4, word), junk).st.mem == mem[..8] + word + mem[12..]
  {
    FlushedMisses(mem, 4);
    var after := CallW(Flushed(mem), PutWordAt(4, word), junk).st.mem;
    var line := PutWord(mem[4..20], 4, word);
    assert WordOffset(4) == 4;
    assert after == Splice(mem, 4, line);
    assert after == mem[..8] + word + mem[12..];
  }

  lemma {:induction false} FlushedMisses(mem: seq<Byte>, addr: nat)
    ensures NothingValid(Flushed(mem).l2)
    ensures ProbeStop(Flushed(mem).l1[LineOf(addr) % L1_SETS], addr / 0x400).None?
    ensures !FirstSeen(Flushed(mem).l2, addr).v
  {
  }

  /** Reading the word at 0 and writing the word at 4 copies the line of address 0 to
      address 4, with the word at 8. */
  lemma {:induction false} HitWriteIsWrong(mem: seq<Byte>, word: Word, heap: Heap)
    requires |mem| >= 20
    ensures RunW(Flushed(mem), [GetWord(0), PutWordAt(4, word)], heap).Went?
    ensures RunW(Flushed(mem), [GetWord(0), PutWordAt(4, word)], heap).st.mem ==
            mem[..4] + mem[..4] + word + mem[8..16] + mem[20..]
  {
    hide Flushed, ReadW, WriteW, Sound, NothingValid, Coherent;
    FlushedSound(mem);
    SoundMeans(Flushed(mem));
    SafeRead(Flushed(mem), 0, heap(0).first);
    var st := ReadW(Flushed(mem), 0, heap(0).first).st;
    FirstLineHeld(mem, heap(0).first);
    SoundMeans(st);
    var w := ProbeStop(st.l1[0], 0).value;
    WriteHitBytes(st, 4, word, heap(1).first, w);
    TwoCalls(mem, GetWord(0), PutWordAt(4, word), heap);
    var mem' := WriteW(st, 4, word, heap(1).first).st.mem;
    assert mem' == mem[..4] + mem[..4] + word + mem[8..16] + mem[20..];
  }

  lemma {:induction false} TwoCalls(mem: seq<Byte>, op: Op, op': Op, heap: Heap)
    requires Fits(op, |mem|) && Fits(op', |mem|) && CallW(Flushed(mem), op, heap(0)).Went?
    ensures CallsFit([op, op'], |mem|)
    ensures var st := CallW(Flushed(mem), op, heap(0)).st;
      CallW(st, op', heap(1)).Went? ==>
        RunW(Flushed(mem), [op, op'], heap).Went? &&
        RunW(Flushed(mem), [op, op'], heap).st == CallW(st, op', heap(1)).st
  {
    hide CallW, Flushed;
    assert [op, op'][..1] == [op] && [op][..0] == [];
    assert RunW(Flushed(mem), [], heap) == Went([], Flushed(mem));
    assert RunW(Flushed(mem), [op], heap).Went?;
  }

  lemma {:induction false} FirstLineHeld(mem: seq<Byte>, junk: Way)
    requires |mem| >= 20
    ensures ReadW(Flushed(mem), 0, junk).Went?
    ensures var s := ReadW(Flushed(mem), 0, junk).st.l1[0];
      ProbeStop(s, 0).Some? && s[ProbeStop(s, 0).value].line == mem[..16]
  {
    FlushedMisses(mem, 0);
    var s := Flushed(mem).l1[0];
    assert FindPlace(s) == Some(0);
    var s' := ReadW(Flushed(mem), 0, junk).st.l1[0];
    assert s'[0] == Way(true, 0, 0, mem[0..16]);
  }

  /** A byte write that hits, at any address, copies the line held with the byte ORed in at
      its place in the line: byte `addr + addr % 16` of memory gets that OR, the other
      fifteen bytes from `addr` on those of the line. */
  lemma {:induction false} ByteHitBytes(st: State, addr: Uint32, byte: Byte, junk: Junk, w: nat)
    requires Shaped(st) && NothingValid(st.l2) && addr + LINE_BYTES <= |st.mem|
    requires var s := st.l1[LineOf(addr) % L1_SETS]; w < |s| && ProbeStop(s, addr / 0x400) == Some(w)
    ensures var r, line := WriteByteW(st, addr, byte, junk), st.l1[addr / 16 % 64][w].line;
      && r.Went? && |r.st.mem| == |st.mem|
      && forall p :: 0 <= p < |st.mem| ==>
           r.st.mem[p] == (if p == addr + addr % 16 then ByteOr(line[addr % 16], byte)
                           else if addr <= p < addr + 16 then line[p - addr]
                           else st.mem[p])
  {
    hide AgeUpdate, NothingValid, ByteOr, WriteW;
    var i := LineOf(addr) % L1_SETS;
    var read := ReadW(st, addr, junk.first);
    ReadAgain(st.l1[i], addr / 0x400, w);
    var x := read.value[addr % 4];
    WriteHitBytes(read.st, addr, read.value[addr % 4 := ByteOr(x, byte)], junk.second, w);
    WordPlace(addr);
    Divided(addr, 16);
    Divided(addr % 16, 4);
    assert addr % 16 == WordOffset(addr) + addr % 4;
  }

  /** Aging moves nothing. */
  lemma {:induction false} ReadAgain(s: seq<Way>, tag: nat, w: nat)
    requires w < |s| && ProbeStop(s, tag) == Some(w)
    ensures ProbeStop(AgeUpdate(s, w), tag) == ProbeStop(s, tag)
    ensures AgeUpdate(s, w)[w].line == s[w].line
  {
    SameScan(s, AgeUpdate(s, w), tag, 0);
  }

  lemma {:induction false} SameScan(s: seq<Way>, s': seq<Way>, tag: nat, i: nat)
    requires i <= |s| == |s'| && forall k :: 0 <= k < |s| ==> s'[k].v == s[k].v && s'[k].tag == s[k].tag
    ensures ProbeStop(s', tag, i) == ProbeStop(s, tag, i)
    decreases |s| - i
  {
    if i < |s| {
      SameScan(s, s', tag, i + 1);
    }
  }

  /** From flushed caches, a byte write at address 4 misses twice if the entry of the read is
      invalid: the OR is with what the allocator left in the first entry, and the second one
      stays in the set. */
  lemma {:induction false} ByteWriteMissesTwice(mem: seq<Byte>, byte: Byte, junk: Junk)
    requires |mem| >= 20 && !junk.first.v
    ensures var r := CallW(Flushed(mem), PutByteAt(4, byte), junk);
      && r.Went? && r.st.l1[0][0] == junk.second.(age := 0)
      && r.st.mem == mem[..8] + [ByteOr(junk.first.line[4], byte)] + junk.first.line[5..8] + mem[12..]
  {
    hide ByteOr, ReadW, WriteW, Flushed, NothingValid;
    FirstMiss(mem, junk.first);
    var read := ReadW(Flushed(mem), 4, junk.first);
    var word := read.value[0 := ByteOr(read.value[0], byte)];
    SecondMiss(read.st, 4, word, junk.second);
    var mem' := WriteW(read.st, 4, word, junk.second).st.mem;
    assert WordOffset(4) == 4;
    assert mem' == mem[..8] + word + mem[12..];
  }

  lemma {:induction false} FirstMiss(mem: seq<Byte>, junk: Way)
    requires |mem| >= 20 && !junk.v
    ensures var read := ReadW(Flushed(mem), 4, junk);
      && read.Went? && NothingValid(read.st.l2) && !read.st.l1[0][0].v
      && read.value == junk.line[4..8]
  {
    FlushedMisses(mem, 4);
    MissReads(Flushed(mem), 4, junk);
    assert FindPlace(Flushed(mem).l1[0]) == Some(0);
  }

  lemma {:induction false} SecondMiss(st: State, addr: Uint32, word: Word, junk: Way)
    requires Shaped(st) && NothingValid(st.l2) && addr + LINE_BYTES <= |st.mem| && addr % LINE_BYTES != 0
    requires !st.l1[LineOf(addr) % L1_SETS][0].v
    ensures var r, o := WriteW(st, addr, word, junk), WordOffset(addr);
      && r.Went? && r.st.l1[LineOf(addr) % L1_SETS][0] == junk.(age := 0)
      && |r.st.mem| == |st.mem|
      && forall p :: 0 <= p < |st.mem| ==>
           r.st.mem[p] == (if addr + o <= p < addr + o + 4 then word[p - addr - o] else st.mem[p])
  {
    hide NothingValid, StoreInvalid;
    NeverInL2(st, addr);
    WriteMissBytes(st, addr, word, junk);
  }
}
