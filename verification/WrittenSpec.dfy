/** cache_read, cache_write and their byte versions exactly as they are written
    (cache_mng.c, cache.h), on values.

    Two things C leaves open are parameters or outcomes here.  `junk` is the content
    of a freshly allocated entry: cache_entry_init refuses an address that is not a
    multiple of 16, both callers ignore its error code, and the uninitialised entry
    is inserted.  `Undefined` is the outcome once a valid way is found in the memory
    of L2, where the code indexes with wrong strides and reads tags through the
    layout of another type; no run from flushed caches ever gets there. */
module WrittenSpec {
  import opened Bytes
  import opened Outcomes
  import opened LineNames
  import opened AgeSets
  import opened ExclusiveSpec
  import opened FlatMemory
  import opened Bits

  datatype Outcome<T> = Went(value: T, st: State) | Undefined

  /** cache_entry_init into an allocated entry. */
  ghost function EntryFor(mem: seq<Byte>, addr: nat, junk: Way): Way
    requires InMemory(mem, addr)
  {
    if addr % LINE_BYTES == 0 then Way(true, 0, addr / 0x400, mem[addr..addr + LINE_BYTES]) else junk
  }

  /** cache_read.  The entry, of age 0, is inserted before LRU_age_update looks at its
      age; when the set is full the victim is forgotten. */
  ghost function ReadW(st: State, addr: nat, junk: Way): (r: Outcome<Word>)
    requires Shaped(st) && InMemory(st.mem, addr)
    ensures r.Went? ==> Shaped(r.st) && r.st.mem == st.mem
  {
    var i, j := LineOf(addr) % L1_SETS, LineOf(addr) % L2_SETS;
    var s := st.l1[i];
    match ProbeStop(s, addr / 0x400)
    case Some(w) => Went(WordOf(s[w].line, addr), st.(l1 := st.l1[i := AgeUpdate(s, w)]))
    case None =>
      if ProbeStop(st.l2[j], addr / 0x2000).Some? then Undefined
      else
        var w := if FindPlace(s).Some? then FindPlace(s).value else Oldest(s, L1_WAYS);
        var s' := AgeUpdate(s[w := EntryFor(st.mem, addr, junk)], w);
        Went(WordOf(s'[w].line, addr), st.(l1 := st.l1[i := s']))
  }

  /** The entry of L2 that cache_hit looks at first when cache_write gives it L2 with
      the geometry of L1: entry 4 * index of the flat array. */
  ghost function FirstSeen(l2: Level, addr: nat): Way
    requires LevelShaped(l2, L2_SETS, L2_WAYS)
  {
    var flat := LineOf(addr) % L1_SETS * L1_WAYS;
    l2[flat / L2_WAYS][flat % L2_WAYS]
  }

  /** The end of a write miss in a full set: the victim goes to the L2 set of the line
      asked for, marked invalid. */
  ghost function StoreInvalid(t: seq<Way>, victim: Way): (r: seq<Way>)
    requires |t| > 0
    ensures |r| == |t|
  {
    var entry := Way(false, 0, victim.tag / 8, victim.line);
    match FindPlace(t)
    case Some(w) => AgeIncrease(t[w := entry], w)
    case None => var w := Oldest(t, |t|); AgeUpdate(t[w := entry], w)
  }

  /** cache_write on a miss in both levels. */
  ghost function AfterWriteMiss(st: State, addr: nat, word: Word, junk: Way): (r: State)
    requires Shaped(st) && addr + LINE_BYTES <= |st.mem|
    ensures Shaped(r) && |r.mem| == |st.mem|
  {
    var i, j := LineOf(addr) % L1_SETS, LineOf(addr) % L2_SETS;
    var s := st.l1[i];
    var line := PutWord(st.mem[addr..addr + LINE_BYTES], addr, word);
    var mem' := Splice(st.mem, addr, line);
    var entry := EntryFor(mem', addr, junk);
    match FindPlace(s)
    case Some(w) => State(st.l1[i := AgeIncrease(s[w := entry], w)], st.l2, mem')
    case None =>
      var w := Oldest(s, L1_WAYS);
      State(st.l1[i := AgeUpdate(s[w := entry], w)], st.l2[j := StoreInvalid(st.l2[j], s[w])], mem')
  }

  /** cache_write.  The sixteen bytes go to memory from the address asked for on. */
  ghost function WriteW(st: State, addr: nat, word: Word, junk: Way): (r: Outcome<Out>)
    requires Shaped(st) && addr + LINE_BYTES <= |st.mem|
    ensures r.Went? ==> Shaped(r.st) && |r.st.mem| == |st.mem|
  {
    var i := LineOf(addr) % L1_SETS;
    var s := st.l1[i];
    match ProbeStop(s, addr / 0x400)
    case Some(w) =>
      var line := PutWord(s[w].line, addr, word);
      Went(Done, State(st.l1[i := Rewrite(s, w, line)], st.l2, Splice(st.mem, addr, line)))
    case None =>
      if FirstSeen(st.l2, addr).v then Undefined
      else Went(Done, AfterWriteMiss(st, addr, word, junk))
  }

  /** cache_read_byte. */
  ghost function ReadByteW(st: State, addr: nat, junk: Way): (r: Outcome<Byte>)
    requires Shaped(st) && InMemory(st.mem, addr)
    ensures r.Went? ==> Shaped(r.st) && r.st.mem == st.mem
  {
    match ReadW(st, addr, junk)
    case Undefined => Undefined
    case Went(word, st') => Went(word[addr % 4], st')
  }

  /** What the allocator leaves in the entries that one call makes: cache_write_byte
      calls cache_read and cache_write, and each may make one. */
  datatype Junk = Junk(first: Way, second: Way)

  /** cache_write_byte: the byte is ORed into the word read, and the word is written. */
  ghost function WriteByteW(st: State, addr: nat, byte: Byte, junk: Junk): (r: Outcome<Out>)
    requires Shaped(st) && addr + LINE_BYTES <= |st.mem|
    ensures r.Went? ==> Shaped(r.st) && |r.st.mem| == |st.mem|
  {
    match ReadW(st, addr, junk.first)
    case Undefined => Undefined
    case Went(word, st') => WriteW(st', addr, word[addr % 4 := ByteOr(word[addr % 4], byte)], junk.second)
  }

  // ----- runs

  /** A read looks at memory from the base of its line on; a write copies sixteen bytes to
      memory from the address asked for on. */
  ghost predicate Fits(op: Op, size: nat)
  {
    && LINE_BYTES * LineOf(op.addr) + LINE_BYTES <= size
    && (op.PutWordAt? || op.PutByteAt? ==> op.addr + LINE_BYTES <= size)
  }

  ghost function CallW(st: State, op: Op, junk: Junk): (r: Outcome<Out>)
    requires Shaped(st) && Fits(op, |st.mem|)
    ensures r.Went? ==> Shaped(r.st) && |r.st.mem| == |st.mem|
  {
    match op
    case GetWord(addr) =>
      (match ReadW(st, addr, junk.first) case Undefined => Undefined case Went(w, st') => Went(GotWord(w), st'))
    case GetByte(addr) =>
      (match ReadByteW(st, addr, junk.first) case Undefined => Undefined case Went(b, st') => Went(GotByte(b), st'))
    case PutWordAt(addr, word) => WriteW(st, addr, word, junk.first)
    case PutByteAt(addr, byte) => WriteByteW(st, addr, byte, junk)
  }

  ghost predicate CallsFit(ops: seq<Op>, size: nat)
  {
    forall op :: op in ops ==> Fits(op, size)
  }

  /** What the allocator leaves for each call of a run. */
  type Heap = nat -> Junk

  /** A run and its replies; it ends at the first undefined call. */
  ghost function RunW(st: State, ops: seq<Op>, heap: Heap): (r: Outcome<seq<Out>>)
    requires Shaped(st) && CallsFit(ops, |st.mem|)
    ensures r.Went? ==> Shaped(r.st) && |r.st.mem| == |st.mem|
  {
    if ops == [] then Went([], st)
    else
      match RunW(st, ops[..|ops| - 1], heap)
      case Undefined => Undefined
      case Went(outs, mid) =>
        match CallW(mid, ops[|ops| - 1], heap(|ops| - 1))
        case Undefined => Undefined
        case Went(out, end) => Went(outs + [out], end)
  }

  /** Entry `k` of the array that a level is in the source: set after set, way after way. */
  ghost function FlatEntry(level: Level, k: nat): Way
    requires LevelShaped(level, 512, 8) && k < 4096
  {
    level[k / 8][k % 8]
  }

  /** A write has no meaning exactly if it misses in L1 and the first way that cache_hit
      looks at in L2, four entries a set from the start of the array, is valid. */
  lemma {:induction false} UndefinedWrites(st: State, addr: Uint32, word: Word, junk: Way)
    requires Shaped(st) && addr + LINE_BYTES <= |st.mem|
    ensures WriteW(st, addr, word, junk).Undefined? <==>
            ProbeStop(st.l1[addr / 16 % 64], addr / 0x400).None? && FlatEntry(st.l2, addr / 16 % 64 * 4).v
  {
    hide Rewrite, AfterWriteMiss, Splice, PutWord;
  }

  /** A read has none exactly if it misses in L1 and hits in its set of L2. */
  lemma {:induction false} UndefinedReads(st: State, addr: Uint32, junk: Way)
    requires Shaped(st) && InMemory(st.mem, addr)
    ensures ReadW(st, addr, junk).Undefined? <==>
            ProbeStop(st.l1[addr / 16 % 64], addr / 0x400).None? &&
            ProbeStop(st.l2[addr / 16 % 512], addr / 0x2000).Some?
  {
    hide AgeUpdate, WordOf, EntryFor;
  }

  // ----- nothing ever becomes valid in L2

  ghost predicate NothingValid(l2: Level)
  {
    forall j, w :: 0 <= j < |l2| && 0 <= w < |l2[j]| ==> !l2[j][w].v
  }

  lemma {:induction false} StoredStaysInvalid(t: seq<Way>, victim: Way)
    requires |t| > 0 && forall w :: 0 <= w < |t| ==> !t[w].v
    ensures forall w :: 0 <= w < |t| ==> !StoreInvalid(t, victim)[w].v
  {
  }

  lemma {:induction false} ReadKeepsL2(st: State, addr: nat, junk: Way)
    requires Shaped(st) && InMemory(st.mem, addr) && NothingValid(st.l2)
    ensures ReadW(st, addr, junk).Went? && ReadW(st, addr, junk).st.l2 == st.l2
  {
    hide AgeUpdate, WordOf, EntryFor;
  }

  lemma {:induction false} WriteKeepsL2Empty(st: State, addr: nat, word: Word, junk: Way)
    requires Shaped(st) && addr + LINE_BYTES <= |st.mem| && NothingValid(st.l2)
    ensures WriteW(st, addr, word, junk).Went? && NothingValid(WriteW(st, addr, word, junk).st.l2)
  {
    hide Rewrite, AgeUpdate, AgeIncrease, PutWord, Splice, EntryFor, StoreInvalid;
    var j := LineOf(addr) % L2_SETS;
    forall victim
      ensures forall w :: 0 <= w < L2_WAYS ==> !StoreInvalid(st.l2[j], victim)[w].v
    {
      StoredStaysInvalid(st.l2[j], victim);
    }
  }

  lemma {:induction false} CallKeepsL2Empty(st: State, op: Op, junk: Junk)
    requires Shaped(st) && Fits(op, |st.mem|) && NothingValid(st.l2)
    ensures CallW(st, op, junk).Went? && NothingValid(CallW(st, op, junk).st.l2)
  {
    hide ReadW, WriteW, ByteOr, NothingValid;
    match op
    case GetWord(addr) => ReadKeepsL2(st, addr, junk.first);
    case GetByte(addr) => ReadKeepsL2(st, addr, junk.first);
    case PutWordAt(addr, word) => WriteKeepsL2Empty(st, addr, word, junk.first);
    case PutByteAt(addr, byte) =>
      ReadKeepsL2(st, addr, junk.first);
      var (word, st') := (ReadW(st, addr, junk.first).value, ReadW(st, addr, junk.first).st);
      WriteKeepsL2Empty(st', addr, word[addr % 4 := ByteOr(word[addr % 4], byte)], junk.second);
  }

  /** As written, L2 is dead: from flushed caches, whatever words and bytes are read and
      written at whatever addresses, no call is undefined and no way of L2 is ever valid,
      so no access ever hits in L2. */
  lemma {:induction false} L2IsNeverPopulated(mem: seq<Byte>, ops: seq<Op>, heap: Heap)
    requires CallsFit(ops, |mem|)
    ensures RunW(Flushed(mem), ops, heap).Went? && NothingValid(RunW(Flushed(mem), ops, heap).st.l2)
  {
    hide CallW;
    if ops != [] {
      var before := ops[..|ops| - 1];
      L2IsNeverPopulated(mem, before, heap);
      CallKeepsL2Empty(RunW(Flushed(mem), before, heap).st, ops[|ops| - 1], heap(|ops| - 1));
    }
  }
}
