/** The exclusive cache in place (cache_mng.c): an L1, the L2 behind it and the
    memory, changed as cache_read and cache_write change them. */
module ExclusiveCache {
  import opened Bytes
  import opened Outcomes
  import opened LineNames
  import opened AgeSets
  import opened VictimSets
  import opened ExclusiveSpec
  import opened CacheStore

  /** A victim of L1 goes to L2: to an invalid way if there is one, else in place
      of the oldest line. */
  method SendToL2(c: Store, la: nat, line: Line)
    requires c.Valid()
    modifies c.l2.sets
    ensures c.Valid()
    ensures var j := la % L2_SETS;
      c.l2.sets[..] == old(c.l2.sets[..])[j := VictimSets.Place(old(c.l2.sets[j]), la / L2_SETS, line).0]
  {
    var j := la % L2_SETS;
    var place := c.l2.Place(j);
    if place.Some? {
      var w := place.value;
      c.l2.Insert(j, w, Way(true, c.l2.sets[j][w].age, la / L2_SETS, line));
      var oldest := c.l2.OldestWay(j);
      if c.l2.sets[j][w].age >= c.l2.sets[j][oldest].age {
        c.l2.Increase(j, w);
      } else {
        c.l2.Update(j, w);
      }
    } else {
      var w := c.l2.OldestWay(j);
      c.l2.Insert(j, w, Way(true, c.l2.sets[j][w].age, la / L2_SETS, line));
      c.l2.Update(j, w);
    }
  }

  /** A line enters L1: in an invalid way if there is one, else in place of the
      oldest line, whose age it takes over. */
  method EnterL1(c: Store, la: nat, line: Line) returns (victim: Option<Way>)
    requires c.Valid()
    modifies c.l1.sets
    ensures c.Valid()
    ensures var i := la % L1_SETS;
      var (s, v) := Install(old(c.l1.sets[i]), la / L1_SETS, line);
      victim == v && c.l1.sets[..] == old(c.l1.sets[..])[i := s]
  {
    hide AgeIncrease, AgeUpdate;
    var i := la % L1_SETS;
    var place := c.l1.Place(i);
    if place.Some? {
      victim := None;
      c.l1.Insert(i, place.value, Way(true, 0, la / L1_SETS, line));
      c.l1.Increase(i, place.value);
    } else {
      var w := c.l1.OldestWay(i);
      victim := Some(c.l1.sets[i][w]);
      c.l1.Insert(i, w, Way(true, c.l1.sets[i][w].age, la / L1_SETS, line));
      c.l1.Update(i, w);
    }
  }

  /** A line enters L1, and L1's victim goes to L2. */
  method FillL1(c: Store, la: nat, line: Line)
    requires c.Valid() && Shaped(c.Contents())
    modifies c.l1.sets, c.l2.sets
    ensures c.Valid()
    ensures (c.l1.sets[..], c.l2.sets[..]) == Fill(old(c.l1.sets[..]), old(c.l2.sets[..]), la, line)
  {
    hide VictimSets.Place, Install;
    var victim := EnterL1(c, la, line);
    if victim.Some? {
      SendToL2(c, victim.value.tag * L1_SETS + la % L1_SETS, victim.value.line);
    }
  }

  /** A hit in L2: cache_hit ages its set, and the line leaves. */
  method TakeFromL2(c: Store, la: nat, w: nat) returns (line: Line)
    requires c.Valid() && Shaped(c.Contents()) && w < L2_WAYS
    modifies c.l2.sets
    ensures c.Valid()
    ensures c.l2.sets[..] == Leave(old(c.l2.sets[..]), la, w)
    ensures line == old(c.l2.sets[la % L2_SETS][w].line)
  {
    var j := la % L2_SETS;
    line := c.l2.sets[j][w].line;
    c.l2.Update(j, w);
    c.l2.Insert(j, w, c.l2.sets[j][w].(v := false));
  }

  /** cache_read. */
  method Read(c: Store, addr: Uint32) returns (word: Word)
    requires c.Valid() && Shaped(c.Contents()) && InMemory(c.mem[..], addr)
    modifies c.l1.sets, c.l2.sets
    ensures c.Valid()
    ensures (word, c.Contents()) == ExclusiveSpec.Read(old(c.Contents()), addr)
  {
    hide Fill, Leave, AgeUpdate;
    var la := LineOf(addr);
    var i, j := la % L1_SETS, la % L2_SETS;
    var way := c.l1.Scan(i, la / L1_SETS);
    if way.Some? {
      c.l1.Update(i, way.value);
      word := WordOf(c.l1.sets[i][way.value].line, addr);
      AgeSets.UpdateKeepsLine(old(c.l1.sets[i]), way.value);
      return;
    }
    way := c.l2.ScanAll(j, la / L2_SETS);
    var line: Line;
    if way.Some? {
      line := TakeFromL2(c, la, way.value);
    } else {
      line := MemLine(c.mem[..], la);
    }
    c.ValidShaped();
    FillL1(c, la, line);
    word := WordOf(line, addr);
  }

  /** cache_write. */
  method Write(c: Store, addr: Uint32, word: Word)
    requires c.Valid() && Shaped(c.Contents()) && InMemory(c.mem[..], addr)
    modifies c.l1.sets, c.l2.sets, c.mem
    ensures c.Valid()
    ensures c.Contents() == ExclusiveSpec.Write(old(c.Contents()), addr, word)
  {
    hide Fill, Leave, AgeUpdate, Splice;
    var la := LineOf(addr);
    var i, j := la % L1_SETS, la % L2_SETS;
    var way := c.l1.Scan(i, la / L1_SETS);
    var line: Line;
    if way.Some? {
      var w := way.value;
      c.l1.Update(i, w);
      AgeSets.UpdateKeepsLine(old(c.l1.sets[i]), w);
      line := PutWord(c.l1.sets[i][w].line, addr, word);
      c.l1.Insert(i, w, c.l1.sets[i][w].(line := line));
      c.l1.Update(i, w);
      c.CopyToMemory(LINE_BYTES * la, line);
      return;
    }
    way := c.l2.ScanAll(j, la / L2_SETS);
    if way.Some? {
      line := TakeFromL2(c, la, way.value);
    } else {
      line := MemLine(c.mem[..], la);
    }
    line := PutWord(line, addr, word);
    c.CopyToMemory(LINE_BYTES * la, line);
    c.ValidShaped();
    FillL1(c, la, line);
  }

  /** cache_read_byte. */
  method ReadByte(c: Store, addr: Uint32) returns (byte: Byte)
    requires c.Valid() && Shaped(c.Contents()) && InMemory(c.mem[..], addr)
    modifies c.l1.sets, c.l2.sets
    ensures c.Valid()
    ensures (byte, c.Contents()) == ExclusiveSpec.ReadByte(old(c.Contents()), addr)
  {
    hide ExclusiveSpec.Read;
    var word := Read(c, addr);
    byte := word[addr % 4];
  }

  /** cache_write_byte, replacing the byte. */
  method WriteByte(c: Store, addr: Uint32, byte: Byte)
    requires c.Valid() && Shaped(c.Contents()) && InMemory(c.mem[..], addr)
    modifies c.l1.sets, c.l2.sets, c.mem
    ensures c.Valid()
    ensures c.Contents() == ExclusiveSpec.WriteByte(old(c.Contents()), addr, byte)
  {
    hide ExclusiveSpec.Read, ExclusiveSpec.Write;
    var word := Read(c, addr);
    c.ValidShaped();
    Write(c, addr, word[addr % 4 := byte]);
  }
}
