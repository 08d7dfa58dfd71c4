/** cache_read, cache_write and their byte versions as written, in place (cache_mng.c, cache.h).  `undefined`
    reports the outcome that WrittenSpec calls Undefined; `junk` is what the allocator
    left in the new entry. */
module WrittenCache {
  import opened Bytes
  import opened LineNames
  import opened AgeSets
  import opened ExclusiveSpec
  import opened Bits
  import opened WrittenSpec
  import opened CacheStore

  /** cache_entry_init, its error ignored. */
  method NewEntry(c: Store, addr: Uint32, junk: Way) returns (entry: Way)
    requires InMemory(c.mem[..], addr)
    ensures entry == EntryFor(c.mem[..], addr, junk)
  {
    if addr % LINE_BYTES == 0 {
      entry := Way(true, 0, addr / 0x400, c.mem[addr..addr + LINE_BYTES]);
    } else {
      entry := junk;
    }
  }

  /** cache_read. */
  method Read(c: Store, addr: Uint32, junk: Way) returns (word: Word, undefined: bool)
    requires c.Valid() && Shaped(c.Contents()) && InMemory(c.mem[..], addr)
    modifies c.l1.sets
    ensures c.Valid()
    ensures match ReadW(old(c.Contents()), addr, junk)
      case Undefined => undefined && c.Contents() == old(c.Contents())
      case Went(w, st) => !undefined && word == w && c.Contents() == st
  {
    hide AgeUpdate;
    var i, j := LineOf(addr) % L1_SETS, LineOf(addr) % L2_SETS;
    undefined := false;
    word := [0, 0, 0, 0];
    var way := c.l1.Scan(i, addr / 0x400);
    if way.Some? {
      c.l1.Update(i, way.value);
      UpdateKeepsLine(old(c.l1.sets[i]), way.value);
      word := WordOf(c.l1.sets[i][way.value].line, addr);
      return;
    }
    way := c.l2.Scan(j, addr / 0x2000);
    if way.Some? {
      undefined := true;
      return;
    }
    var entry := NewEntry(c, addr, junk);
    var place := c.l1.Place(i);
    var w: nat;
    if place.None? {
      w := c.l1.OldestWay(i);
    } else {
      w := place.value;
    }
    c.l1.Insert(i, w, entry);
    c.l1.Update(i, w);
    word := WordOf(c.l1.sets[i][w].line, addr);
  }

  /** The victim of a write miss goes, marked invalid, to the L2 set of the line asked for. */
  method StoreVictim(c: Store, j: nat, victim: Way)
    requires c.Valid() && j < L2_SETS
    modifies c.l2.sets
    ensures c.Valid()
    ensures c.l2.sets[..] == old(c.l2.sets[..])[j := StoreInvalid(old(c.l2.sets[j]), victim)]
  {
    hide AgeUpdate, AgeIncrease;
    var entry := Way(false, 0, victim.tag / 8, victim.line);
    var place := c.l2.Place(j);
    if place.Some? {
      c.l2.Insert(j, place.value, entry);
      c.l2.Increase(j, place.value);
    } else {
      var w := c.l2.OldestWay(j);
      c.l2.Insert(j, w, entry);
      c.l2.Update(j, w);
    }
  }

  /** A hit in L1 by cache_write. */
  method WriteHit(c: Store, addr: Uint32, word: Word, w: nat)
    requires c.Valid() && Shaped(c.Contents()) && addr + LINE_BYTES <= c.mem.Length && w < L1_WAYS
    modifies c.l1.sets, c.mem
    ensures c.Valid()
    ensures var st, i := old(c.Contents()), LineOf(addr) % L1_SETS;
      var line := PutWord(st.l1[i][w].line, addr, word);
      c.Contents() == State(st.l1[i := Rewrite(st.l1[i], w, line)], st.l2, Splice(st.mem, addr, line))
  {
    hide AgeUpdate, Splice;
    var i := LineOf(addr) % L1_SETS;
    c.l1.Update(i, w);
    UpdateKeepsLine(old(c.l1.sets[i]), w);
    var line := PutWord(c.l1.sets[i][w].line, addr, word);
    c.l1.Insert(i, w, c.l1.sets[i][w].(line := line));
    c.l1.Update(i, w);
    c.CopyToMemory(addr, line);
  }

  /** cache_write. */
  method Write(c: Store, addr: Uint32, word: Word, junk: Way) returns (undefined: bool)
    requires c.Valid() && Shaped(c.Contents()) && addr + LINE_BYTES <= c.mem.Length
    modifies c.l1.sets, c.l2.sets, c.mem
    ensures c.Valid()
    ensures match WriteW(old(c.Contents()), addr, word, junk)
      case Undefined => undefined && c.Contents() == old(c.Contents())
      case Went(_, st) => !undefined && c.Contents() == st
  {
    hide AfterWriteMiss, Rewrite, Splice;
    var i := LineOf(addr) % L1_SETS;
    undefined := false;
    var way := c.l1.Scan(i, addr / 0x400);
    if way.Some? {
      WriteHit(c, addr, word, way.value);
      return;
    }
    var flat := i * L1_WAYS;
    if c.l2.sets[flat / L2_WAYS][flat % L2_WAYS].v {
      undefined := true;
      return;
    }
    WriteMiss(c, addr, word, junk);
  }

  /** A miss of cache_write in both levels. */
  method WriteMiss(c: Store, addr: Uint32, word: Word, junk: Way)
    requires c.Valid() && Shaped(c.Contents()) && addr + LINE_BYTES <= c.mem.Length
    modifies c.l1.sets, c.l2.sets, c.mem
    ensures c.Valid()
    ensures c.Contents() == AfterWriteMiss(old(c.Contents()), addr, word, junk)
  {
    hide AgeUpdate, AgeIncrease, StoreInvalid, Splice, EntryFor;
    var i, j := LineOf(addr) % L1_SETS, LineOf(addr) % L2_SETS;
    var line := PutWord(c.mem[addr..addr + LINE_BYTES], addr, word);
    c.CopyToMemory(addr, line);
    var entry := NewEntry(c, addr, junk);
    var place := c.l1.Place(i);
    if place.Some? {
      c.l1.Insert(i, place.value, entry);
      c.l1.Increase(i, place.value);
    } else {
      var w := c.l1.OldestWay(i);
      var victim := c.l1.sets[i][w];
      c.l1.Insert(i, w, entry);
      c.l1.Update(i, w);
      StoreVictim(c, j, victim);
    }
  }

  /** cache_read_byte. */
  method ReadByte(c: Store, addr: Uint32, junk: Way) returns (byte: Byte, undefined: bool)
    requires c.Valid() && Shaped(c.Contents()) && InMemory(c.mem[..], addr)
    modifies c.l1.sets
    ensures c.Valid()
    ensures match ReadByteW(old(c.Contents()), addr, junk)
      case Undefined => undefined
      case Went(b, st) => !undefined && byte == b && c.Contents() == st
  {
    hide ReadW;
    var word;
    word, undefined := Read(c, addr, junk);
    byte := word[addr % 4];
  }

  /** cache_write_byte: the byte is ORed into the word read. */
  method WriteByte(c: Store, addr: Uint32, byte: Byte, junk: Junk) returns (undefined: bool)
    requires c.Valid() && Shaped(c.Contents()) && addr + LINE_BYTES <= c.mem.Length
    modifies c.l1.sets, c.l2.sets, c.mem
    ensures c.Valid()
    ensures match WriteByteW(old(c.Contents()), addr, byte, junk)
      case Undefined => undefined
      case Went(_, st) => !undefined && c.Contents() == st
  {
    hide ReadW, WriteW, ByteOr;
    var word;
    word, undefined := Read(c, addr, junk.first);
    if undefined {
      return;
    }
    c.ValidShaped();
    word := word[addr % 4 := ByteOr(word[addr % 4], byte)];
    undefined := Write(c, addr, word, junk.second);
  }
}
