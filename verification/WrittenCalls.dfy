/** When one call of the cache as written reads or writes words as flat memory does:
    exactly on the addresses of line bases, and on reads that hit. */
module WrittenCalls {
  import opened Bytes
  import opened Outcomes
  import opened Arithmetic
  import opened LineNames
  import opened AgeSets
  import opened SetLookup
  import opened ExclusiveSpec
  import opened WrittenSpec

  ghost predicate SetsFine(l1: Level)
  {
    LevelShaped(l1, L1_SETS, L1_WAYS) && forall i :: 0 <= i < L1_SETS ==> Packed(l1[i]) && Distinct(l1[i])
  }

  /** The invariant that the code as written keeps while it is used on line bases. */
  ghost predicate Sound(st: State)
  {
    && Shaped(st)
    && NothingValid(st.l2)
    && SetsFine(st.l1)
    && Coherent(st.l1, st.mem)
  }

  /** The way that a miss takes. */
  ghost function Chosen(s: seq<Way>): (w: nat)
    requires |s| > 0
    ensures w < |s|
  {
    if FindPlace(s).Some? then FindPlace(s).value else Oldest(s, |s|)
  }

  /** A new entry in the chosen way, then any aging. */
  lemma {:induction false} EnterFinds(s: seq<Way>, e: Way, s': seq<Way>, t: nat)
    requires |s| > 0 && Packed(s) && Distinct(s) && e.v && ProbeSkip(s, e.tag).None?
    requires SameButAges(s[Chosen(s) := e], s')
    ensures Packed(s') && Distinct(s')
    ensures if t == e.tag then Find(s', t) == Some(e.line) else Find(s', t) == Find(s, t) || Find(s', t) == None
  {
    var w := Chosen(s);
    PutFinds(s, w, e, t);
    AgesDoNotMatter(s[w := e], s');
  }

  /** A condition the caller can check before a read. */
  ghost predicate BaseOrHit(st: State, addr: nat)
    requires Shaped(st)
  {
    addr % LINE_BYTES == 0 || ProbeStop(st.l1[LineOf(addr) % L1_SETS], addr / 0x400).Some?
  }

  lemma {:induction false} FlushedSound(mem: seq<Byte>)
    ensures Sound(Flushed(mem))
  {
    forall la: nat
      ensures At(Flushed(mem).l1, la).None?
    {
    }
  }

  lemma {:induction false} HitOrAbsent(st: State, addr: Uint32)
    requires Sound(st)
    ensures var la := LineOf(addr);
      var s := st.l1[la % L1_SETS];
      && addr / 0x400 == la / L1_SETS
      && |s| == L1_WAYS && Packed(s) && Distinct(s)
      && ProbeStop(s, addr / 0x400) == ProbeSkip(s, addr / 0x400)
      && (match ProbeStop(s, addr / 0x400)
          case None => At(st.l1, la).None?
          case Some(w) => s[w].v && s[w].tag == la / L1_SETS && At(st.l1, la) == Some(s[w].line))
  {
    hide Coherent, NothingValid, Distinct;
    NamesOfLine(addr);
    StopIsSkip(st.l1[LineOf(addr) % L1_SETS], addr / 0x400);
  }

  /** Replacing the set of line `la` by one that finds nothing new but `la` keeps
      soundness, if memory changes at most in that line. */
  lemma {:induction false} ReplaceSet(st: State, la: nat, s': seq<Way>, mem': seq<Byte>, l2': Level)
    requires Sound(st) && |s'| == L1_WAYS && Packed(s') && Distinct(s')
    requires LevelShaped(l2', L2_SETS, L2_WAYS) && NothingValid(l2')
    requires LINE_BYTES * la + LINE_BYTES <= |mem'|
    requires Find(s', la / L1_SETS) == Some(MemLine(mem', la))
    requires forall t :: t != la / L1_SETS ==>
      Find(s', t) == Find(st.l1[la % L1_SETS], t) || Find(s', t) == None
    requires forall x: nat :: x != la && LINE_BYTES * x + LINE_BYTES <= |st.mem| ==>
      LINE_BYTES * x + LINE_BYTES <= |mem'| && MemLine(mem', x) == MemLine(st.mem, x)
    ensures Sound(State(st.l1[la % L1_SETS := s'], l2', mem'))
  {
    hide Find, MemLine, Packed, Distinct, NothingValid;
    var i := la % L1_SETS;
    var l1' := st.l1[i := s'];
    forall x: nat
      ensures At(l1', x).Some? ==>
        LINE_BYTES * x + LINE_BYTES <= |mem'| && At(l1', x) == Some(MemLine(mem', x))
    {
      AtAfter(st.l1, i, s', x);
      if x % L1_SETS == i && x / L1_SETS == la / L1_SETS {
        SameName(x, la, L1_SETS);
      }
      assert At(st.l1, x).Some? ==> At(st.l1, x) == Some(MemLine(st.mem, x));
    }
  }

  lemma {:induction false} HitSet(s: seq<Way>, w: nat, t: nat)
    requires Packed(s) && Distinct(s) && w < |s|
    ensures Packed(AgeUpdate(s, w)) && Distinct(AgeUpdate(s, w))
    ensures Find(AgeUpdate(s, w), t) == Find(s, t)
    ensures AgeUpdate(s, w)[w].line == s[w].line
  {
    AgingKeepsLines(s, w);
    AgesDoNotMatter(s, AgeUpdate(s, w));
  }

  lemma {:induction false} RewriteSet(s: seq<Way>, w: nat, line: Line, t: nat)
    requires Packed(s) && Distinct(s) && w < |s| && s[w].v
    ensures Packed(Rewrite(s, w, line)) && Distinct(Rewrite(s, w, line))
    ensures Find(Rewrite(s, w, line), t) == if t == s[w].tag then Some(line) else Find(s, t)
  {
    var s1 := AgeUpdate(s, w);
    var e := s1[w].(line := line);
    HitSet(s, w, t);
    FindValid(s1, w);
    PutFinds(s1, w, e, t);
    HitSet(s1[w := e], w, t);
  }

  /** A read that is safe returns the flat memory's word and keeps soundness. */
  lemma {:induction false} SafeRead(st: State, addr: Uint32, junk: Way)
    requires Sound(st) && InMemory(st.mem, addr)
    requires BaseOrHit(st, addr)
    ensures var r := ReadW(st, addr, junk);
      && WordBase(addr) + 4 <= |st.mem|
      && r.Went? && r.value == FlatRead(st.mem, addr) && r.st.mem == st.mem && Sound(r.st)
  {
    hide Packed, Distinct, Find, AgeUpdate, WordOf, FlatRead, Coherent;
    var la := LineOf(addr);
    var s := st.l1[la % L1_SETS];
    HitOrAbsent(st, addr);
    WordOfMemLine(st.mem, addr);
    ProbeEmpty(st.l2, la % L2_SETS, addr / 0x2000);
    var p := ProbeStop(s, addr / 0x400);
    if p.Some? {
      CoherentLine(st, la);
      forall t
        ensures Find(AgeUpdate(s, p.value), t) == Find(s, t)
      {
        HitSet(s, p.value, t);
      }
      HitSet(s, p.value, 0);
      assert Find(s, la / L1_SETS) == At(st.l1, la);
      ReplaceSet(st, la, AgeUpdate(s, p.value), st.mem, st.l2);
    } else {
      BaseAddress(addr);
      var e := EntryFor(st.mem, addr, junk);
      var s' := AgeUpdate(s[Chosen(s) := e], Chosen(s));
      AgingKeepsLines(s[Chosen(s) := e], Chosen(s));
      forall t
        ensures if t == e.tag then Find(s', t) == Some(e.line) else Find(s', t) == Find(s, t) || Find(s', t) == None
      {
        EnterFinds(s, e, s', t);
      }
      EnterFinds(s, e, s', 0);
      assert s'[Chosen(s)].line == e.line;
      ReplaceSet(st, la, s', st.mem, st.l2);
    }
  }

  lemma {:induction false} CoherentLine(st: State, la: nat)
    requires Sound(st) && At(st.l1, la).Some?
    ensures LINE_BYTES * la + LINE_BYTES <= |st.mem| && At(st.l1, la) == Some(MemLine(st.mem, la))
  {
  }

  lemma {:induction false} BaseAddress(addr: nat)
    ensures addr % LINE_BYTES == 0 ==> addr == LINE_BYTES * LineOf(addr)
  {
    Divided(addr, LINE_BYTES);
  }

  lemma {:induction false} ProbeEmpty(l2: Level, j: nat, tag: nat)
    requires NothingValid(l2) && j < |l2|
    ensures ProbeStop(l2[j], tag).None?
  {
  }

  lemma {:induction false} SetStaysInvalid(l2: Level, j: nat, t: seq<Way>)
    requires NothingValid(l2) && j < |l2| && forall w :: 0 <= w < |t| ==> !t[w].v
    ensures NothingValid(l2[j := t])
  {
  }

  lemma {:induction false} OtherLinesStay(mem: seq<Byte>, addr: nat, word: Word)
    requires InMemory(mem, addr) && WordBase(addr) + 4 <= |mem|
    ensures forall x: nat :: x != LineOf(addr) && LINE_BYTES * x + LINE_BYTES <= |mem| ==>
      MemLine(FlatWrite(mem, addr, word), x) == MemLine(mem, x)
  {
    hide MemLine, FlatWrite;
    forall x: nat | x != LineOf(addr) && LINE_BYTES * x + LINE_BYTES <= |mem|
      ensures MemLine(FlatWrite(mem, addr, word), x) == MemLine(mem, x)
    {
      MemLineAfterWrite(mem, addr, word, x);
    }
  }

  lemma {:induction false} SafeWriteHit(st: State, addr: Uint32, word: Word, w: nat)
    requires Sound(st) && InMemory(st.mem, addr) && WordBase(addr) + 4 <= |st.mem|
    requires ProbeStop(st.l1[LineOf(addr) % L1_SETS], addr / 0x400) == Some(w)
    ensures var la, s := LineOf(addr), st.l1[LineOf(addr) % L1_SETS];
      var line := PutWord(MemLine(st.mem, la), addr, word);
      && s[w].line == MemLine(st.mem, la)
      && Sound(State(st.l1[la % L1_SETS := Rewrite(s, w, line)], st.l2, FlatWrite(st.mem, addr, word)))
  {
    hide Packed, Distinct, Find, AgeUpdate, FlatWrite, Coherent, Rewrite, MemLine, PutWord;
    var la := LineOf(addr);
    var s := st.l1[la % L1_SETS];
    HitOrAbsent(st, addr);
    WrittenLine(st.mem, addr, word);
    OtherLinesStay(st.mem, addr, word);
    CoherentLine(st, la);
    var line := PutWord(MemLine(st.mem, la), addr, word);
    forall t
      ensures Find(Rewrite(s, w, line), t) == if t == la / L1_SETS then Some(line) else Find(s, t)
    {
      RewriteSet(s, w, line, t);
    }
    RewriteSet(s, w, line, 0);
    ReplaceSet(st, la, Rewrite(s, w, line), FlatWrite(st.mem, addr, word), st.l2);
  }

  lemma {:induction false} SafeWriteMiss(st: State, addr: Uint32, word: Word, junk: Way)
    requires Sound(st) && InMemory(st.mem, addr) && WordBase(addr) + 4 <= |st.mem|
    requires addr % LINE_BYTES == 0
    requires ProbeStop(st.l1[LineOf(addr) % L1_SETS], addr / 0x400).None?
    ensures addr + LINE_BYTES <= |st.mem|
    ensures AfterWriteMiss(st, addr, word, junk).mem == FlatWrite(st.mem, addr, word)
    ensures Sound(AfterWriteMiss(st, addr, word, junk))
  {
    hide Packed, Distinct, Find, AgeUpdate, AgeIncrease, StoreInvalid, FlatWrite, Coherent, PutWord;
    var la := LineOf(addr);
    var s := st.l1[la % L1_SETS];
    BaseAddress(addr);
    HitOrAbsent(st, addr);
    WrittenLine(st.mem, addr, word);
    OtherLinesStay(st.mem, addr, word);
    var line := PutWord(MemLine(st.mem, la), addr, word);
    var mem' := FlatWrite(st.mem, addr, word);
    var w := Chosen(s);
    var e := Way(true, 0, addr / 0x400, line);
    var s' := if FindPlace(s).Some? then AgeIncrease(s[w := e], w) else AgeUpdate(s[w := e], w);
    AgingKeepsLines(s[w := e], w);
    forall t
      ensures if t == e.tag then Find(s', t) == Some(e.line) else Find(s', t) == Find(s, t) || Find(s', t) == None
    {
      EnterFinds(s, e, s', t);
    }
    EnterFinds(s, e, s', 0);
    var j := la % L2_SETS;
    StoredStaysInvalid(st.l2[j], s[w]);
    SetStaysInvalid(st.l2, j, StoreInvalid(st.l2[j], s[w]));
    assert EntryFor(mem', addr, junk) == e;
    ReplaceSet(st, la, s', mem', if FindPlace(s).Some? then st.l2 else st.l2[j := StoreInvalid(st.l2[j], s[w])]);
  }

  /** A write to a line base does to memory what a flat write does and keeps soundness. */
  lemma {:induction false} SafeWrite(st: State, addr: Uint32, word: Word, junk: Way)
    requires Sound(st) && addr + LINE_BYTES <= |st.mem|
    requires addr % LINE_BYTES == 0
    ensures var r := WriteW(st, addr, word, junk);
      && WordBase(addr) + 4 <= |st.mem|
      && r.Went? && r.st.mem == FlatWrite(st.mem, addr, word) && Sound(r.st)
  {
    hide Rewrite, FlatWrite, AfterWriteMiss, Coherent, SetsFine, NothingValid;
    BaseAddress(addr);
    WrittenLine(st.mem, addr, word);
    var p := ProbeStop(st.l1[LineOf(addr) % L1_SETS], addr / 0x400);
    if p.Some? {
      SafeWriteHit(st, addr, word, p.value);
    } else {
      FirstSeenInvalid(st.l2, addr);
      SafeWriteMiss(st, addr, word, junk);
    }
  }

  lemma {:induction false} FirstSeenInvalid(l2: Level, addr: nat)
    requires LevelShaped(l2, L2_SETS, L2_WAYS) && NothingValid(l2)
    ensures !FirstSeen(l2, addr).v
  {
  }

  // ----- exactly when one call is right

  /** A word that differs from `w` in every byte. */
  function Spoiled(w: Word): Word
  {
    [255 - w[0], 255 - w[1], 255 - w[2], 255 - w[3]]
  }

  lemma {:induction false} SpoiledDiffers(w: Word)
    ensures forall k :: 0 <= k < 4 ==> Spoiled(w)[k] != w[k]
  {
  }

  lemma {:induction false} WordOfPut(line: Line, addr: nat, w: Word)
    ensures WordOf(PutWord(line, addr, w), addr) == w
  {
  }

  /** A read returns the flat memory's word, whatever the allocator left in the new
      entry, if and only if its address is a line base or it hits. */
  lemma {:induction false} ReadIsRightExactly(st: State, addr: Uint32)
    requires Sound(st) && InMemory(st.mem, addr)
    ensures WordBase(addr) + 4 <= |st.mem|
    ensures (forall junk :: ReadW(st, addr, junk).Went? && ReadW(st, addr, junk).value == FlatRead(st.mem, addr))
            <==>
            BaseOrHit(st, addr)
  {
    hide NothingValid, SetsFine, Coherent;
    WordPlace(addr);
    var right := FlatRead(st.mem, addr);
    if BaseOrHit(st, addr) {
      forall junk
        ensures ReadW(st, addr, junk).Went? && ReadW(st, addr, junk).value == right
      {
        SafeRead(st, addr, junk);
      }
    } else {
      var line := PutWord(EmptyLine(), addr, Spoiled(right));
      var junk := Way(true, 0, 0, line);
      WordOfPut(EmptyLine(), addr, Spoiled(right));
      SpoiledDiffers(right);
      NeverInL2(st, addr);
      assert ReadW(st, addr, junk).value == Spoiled(right);
    }
  }

  lemma {:induction false} NeverInL2(st: State, addr: nat)
    requires Shaped(st) && NothingValid(st.l2)
    ensures ProbeStop(st.l2[LineOf(addr) % L2_SETS], addr / 0x2000).None?
    ensures !FirstSeen(st.l2, addr).v
  {
    ProbeEmpty(st.l2, LineOf(addr) % L2_SETS, addr / 0x2000);
    FirstSeenInvalid(st.l2, addr);
  }

  /** The byte of memory that a write at `addr` sets although a flat write would not. */
  function Stray(addr: nat): nat
  {
    if addr % LINE_BYTES < 4 then 3 else 0
  }

  lemma {:induction false} StrayIsOutside(addr: nat)
    requires addr % LINE_BYTES != 0
    ensures var p := addr + WordOffset(addr) + Stray(addr);
      p < addr + LINE_BYTES && !(WordBase(addr) <= p < WordBase(addr) + 4)
  {
    WordPlace(addr);
    Divided(addr, LINE_BYTES);
    Divided(addr % LINE_BYTES, WORD_BYTES);
  }

  /** The memory after a write depends on nothing but the line that is written. */
  lemma {:induction false} WrittenBytes(st: State, addr: nat, word: Word, junk: Way, k: nat)
    requires Shaped(st) && NothingValid(st.l2) && addr + LINE_BYTES <= |st.mem| && k < 4
    ensures WriteW(st, addr, word, junk).Went?
    ensures WriteW(st, addr, word, junk).st.mem[addr + WordOffset(addr) + k] == word[k]
  {
    hide AgeUpdate, AgeIncrease, Rewrite, StoreInvalid, NothingValid;
    NeverInL2(st, addr);
  }

  /** A write does to memory what a flat write does, whatever the word, if and only if
      its address is a line base. */
  lemma {:induction false} WriteIsRightExactly(st: State, addr: Uint32)
    requires Sound(st) && addr + LINE_BYTES <= |st.mem|
    ensures WordBase(addr) + 4 <= |st.mem|
    ensures (forall word, junk :: WriteW(st, addr, word, junk).Went? &&
              WriteW(st, addr, word, junk).st.mem == FlatWrite(st.mem, addr, word))
            <==>
            addr % LINE_BYTES == 0
  {
    hide NothingValid, SetsFine, Coherent, WriteW, FlatWrite;
    WordPlace(addr);
    if addr % LINE_BYTES == 0 {
      forall word, junk
        ensures WriteW(st, addr, word, junk).Went? &&
          WriteW(st, addr, word, junk).st.mem == FlatWrite(st.mem, addr, word)
      {
        SafeWrite(st, addr, word, junk);
      }
    } else {
      StrayIsOutside(addr);
      var p := addr + WordOffset(addr) + Stray(addr);
      var b: Byte := 255 - st.mem[p];
      var word: Word := [b, b, b, b];
      var junk := Way(false, 0, 0, EmptyLine());
      WrittenBytes(st, addr, word, junk, Stray(addr));
      assert FlatWrite(st.mem, addr, word)[p] == st.mem[p] by {
        FlatWriteElsewhere(st.mem, addr, word, p);
      }
      assert WriteW(st, addr, word, junk).st.mem != FlatWrite(st.mem, addr, word);
    }
  }

  lemma {:induction false} FlatWriteElsewhere(mem: seq<Byte>, addr: nat, word: Word, p: nat)
    requires WordBase(addr) + 4 <= |mem| && p < |mem| && !(WordBase(addr) <= p < WordBase(addr) + 4)
    ensures FlatWrite(mem, addr, word)[p] == mem[p]
  {
  }

  // ----- every byte that a write leaves in memory

  /** Byte `p` after sixteen bytes, `line` with `word` at the offset of `addr` in its line,
      have been copied to `addr`. */
  function Misplaced(mem: seq<Byte>, line: Line, addr: nat, word: Word, p: nat): Byte
    requires p < |mem|
  {
    var o := addr % 16 / 4 * 4;
    if addr + o <= p < addr + o + 4 then word[p - addr - o]
    else if addr <= p < addr + 16 then line[p - addr]
    else mem[p]
  }

  /** A read that hits, at any address, gives four bytes of the line held, whatever memory
      holds, and leaves lines, tags, L2 and memory as they are. */
  lemma {:induction false} ReadHitBytes(st: State, addr: Uint32, junk: Way, w: nat)
    requires Shaped(st) && InMemory(st.mem, addr)
    requires ProbeStop(st.l1[LineOf(addr) % L1_SETS], addr / 0x400) == Some(w)
    ensures var r, o := ReadW(st, addr, junk), addr % 16 / 4 * 4;
      && r.Went? && r.st.mem == st.mem && r.st.l2 == st.l2
      && (forall k :: 0 <= k < 4 ==> r.value[k] == st.l1[addr / 16 % 64][w].line[o + k])
      && (forall i :: 0 <= i < 64 ==> SameButAges(st.l1[i], r.st.l1[i]))
  {
  }

  /** On a hit, at any address, the sixteen bytes copied are those of the line held, which
      keeps them, with the word put in. */
  lemma {:induction false} WriteHitBytes(st: State, addr: Uint32, word: Word, junk: Way, w: nat)
    requires Shaped(st) && NothingValid(st.l2) && addr + LINE_BYTES <= |st.mem|
    requires ProbeStop(st.l1[LineOf(addr) % L1_SETS], addr / 0x400) == Some(w)
    ensures var r := WriteW(st, addr, word, junk);
      && r.Went? && |r.st.mem| == |st.mem|
      && var line := st.l1[addr / 16 % 64][w].line;
      && (forall p :: 0 <= p < |st.mem| ==> r.st.mem[p] == Misplaced(st.mem, line, addr, word, p))
      && (var o := addr % 16 / 4 * 4;
          forall k :: 0 <= k < 16 ==>
            r.st.l1[addr / 16 % 64][w].line[k] == (if o <= k < o + 4 then word[k - o] else line[k]))
  {
    hide NothingValid;
  }

  /** On a miss, at any address, only the four bytes of the word change. */
  lemma {:induction false} WriteMissBytes(st: State, addr: Uint32, word: Word, junk: Way)
    requires Shaped(st) && NothingValid(st.l2) && addr + LINE_BYTES <= |st.mem|
    requires ProbeStop(st.l1[LineOf(addr) % L1_SETS], addr / 0x400).None?
    ensures var r, o := WriteW(st, addr, word, junk), addr % 16 / 4 * 4;
      && r.Went? && |r.st.mem| == |st.mem|
      && forall p :: 0 <= p < |st.mem| ==>
           r.st.mem[p] == if addr + o <= p < addr + o + 4 then word[p - addr - o] else st.mem[p]
  {
    hide AgeUpdate, AgeIncrease, StoreInvalid, NothingValid;
    NeverInL2(st, addr);
  }
}
