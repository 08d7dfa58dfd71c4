/** The exclusive two-level cache that cache.h:39-71 and cache_mng.h:98-112 describe,
    on values: write-through, write-allocate, L2 filled by nothing but L1's victims.
    It keeps the structure of cache_read and cache_write (scan, find_place, apply_lru,
    insert, age) and repairs what keeps the code from doing what it documents; the
    code as it stands is in WrittenSpec.  The repairs:
    - a line is read and written back at its own base, not at the address asked for
      (cache_mng.c:97, :405, :438, :493-495, cache.h:170, :254);
    - strides, geometry and receivers are those of the level meant (cache.h:137, :147,
      :194, cache_mng.c:412, :435, :458);
    - a victim goes to L2 under its own index and 19-bit tag (cache.h:147, :155, :161,
      cache_mng.c:455, :469, :477, :536, :544), and it does go there, valid
      (cache.h:171-176, cache_mng.c:521);
    - a new line takes over the age of its victim before LRU_age_update, and a cold
      fill uses LRU_age_increase on every path (cache.h:176-177, cache_mng.c:525-527);
    - a hit in L2 returns its word on every path (cache.h:139-143);
    - the scan of L2 passes over invalid ways, which a promotion leaves behind
      (cache.h:216-219), and a hole is aged like a line (VictimSets.Refill). */
module ExclusiveSpec {
  import opened Bytes
  import opened Outcomes
  import opened LineNames
  import opened AgeSets
  import opened SetLookup
  import opened VictimSets
  import Recency

  type Level = seq<seq<Way>>

  datatype State = State(l1: Level, l2: Level, mem: seq<Byte>)

  ghost predicate LevelShaped(level: Level, sets: nat, ways: nat)
  {
    |level| == sets && forall i :: 0 <= i < sets ==> |level[i]| == ways
  }

  ghost predicate Shaped(st: State)
  {
    LevelShaped(st.l1, L1_SETS, L1_WAYS) && LevelShaped(st.l2, L2_SETS, L2_WAYS)
  }

  ghost function FlushedLevel(sets: nat, ways: nat): Level
  {
    seq(sets, _ => FlushedSet(ways))
  }

  /** cache_flush of both levels. */
  ghost function Flushed(mem: seq<Byte>): (st: State)
    ensures Shaped(st) && st.mem == mem
  {
    State(FlushedLevel(L1_SETS, L1_WAYS), FlushedLevel(L2_SETS, L2_WAYS), mem)
  }

  /** The line evicted from set `index` of L1 moves to its own set of L2. */
  ghost function SendVictim(l2: Level, victim: Option<Way>, index: nat): (r: Level)
    requires LevelShaped(l2, L2_SETS, L2_WAYS) && index < L1_SETS
    ensures LevelShaped(r, L2_SETS, L2_WAYS)
  {
    match victim
    case None => l2
    case Some(v) =>
      var la := v.tag * L1_SETS + index;
      var j := la % L2_SETS;
      l2[j := Place(l2[j], la / L2_SETS, v.line).0]
  }

  /** A line that is in neither level enters L1. */
  ghost function Fill(l1: Level, l2: Level, la: nat, line: Line): (r: (Level, Level))
    requires LevelShaped(l1, L1_SETS, L1_WAYS) && LevelShaped(l2, L2_SETS, L2_WAYS)
    ensures LevelShaped(r.0, L1_SETS, L1_WAYS) && LevelShaped(r.1, L2_SETS, L2_WAYS)
  {
    var i := la % L1_SETS;
    var (s, victim) := Install(l1[i], la / L1_SETS, line);
    (l1[i := s], SendVictim(l2, victim, i))
  }

  /** A line leaves L2. */
  ghost function Leave(l2: Level, la: nat, w: nat): (r: Level)
    requires LevelShaped(l2, L2_SETS, L2_WAYS) && w < L2_WAYS
    ensures LevelShaped(r, L2_SETS, L2_WAYS)
  {
    l2[la % L2_SETS := Promote(l2[la % L2_SETS], w)]
  }

  /** cache_read. */
  ghost function Read(st: State, addr: nat): (r: (Word, State))
    requires Shaped(st) && InMemory(st.mem, addr)
    ensures Shaped(r.1)
  {
    var la := LineOf(addr);
    var i, j := la % L1_SETS, la % L2_SETS;
    match ProbeStop(st.l1[i], la / L1_SETS)
    case Some(w) =>
      (WordOf(st.l1[i][w].line, addr), st.(l1 := st.l1[i := AgeUpdate(st.l1[i], w)]))
    case None =>
      match ProbeSkip(st.l2[j], la / L2_SETS)
      case Some(w) =>
        var line := st.l2[j][w].line;
        var (l1, l2) := Fill(st.l1, Leave(st.l2, la, w), la, line);
        (WordOf(line, addr), State(l1, l2, st.mem))
      case None =>
        var line := MemLine(st.mem, la);
        var (l1, l2) := Fill(st.l1, st.l2, la, line);
        (WordOf(line, addr), State(l1, l2, st.mem))
  }

  /** A hit in L1 by a write: the word goes into the line, the ages are updated by
      the scan and again after the write, and the line goes to memory. */
  function Rewrite(s: seq<Way>, w: nat, line: Line): (r: seq<Way>)
    requires w < |s|
    ensures |r| == |s|
  {
    var s' := AgeUpdate(s, w);
    AgeUpdate(s'[w := s'[w].(line := line)], w)
  }

  /** cache_write. */
  ghost function Write(st: State, addr: nat, word: Word): (r: State)
    requires Shaped(st) && InMemory(st.mem, addr)
    ensures Shaped(r) && |r.mem| == |st.mem|
  {
    var la := LineOf(addr);
    var i, j := la % L1_SETS, la % L2_SETS;
    match ProbeStop(st.l1[i], la / L1_SETS)
    case Some(w) =>
      var line := PutWord(st.l1[i][w].line, addr, word);
      State(st.l1[i := Rewrite(st.l1[i], w, line)], st.l2, Splice(st.mem, LINE_BYTES * la, line))
    case None =>
      match ProbeSkip(st.l2[j], la / L2_SETS)
      case Some(w) =>
        var line := PutWord(st.l2[j][w].line, addr, word);
        var (l1, l2) := Fill(st.l1, Leave(st.l2, la, w), la, line);
        State(l1, l2, Splice(st.mem, LINE_BYTES * la, line))
      case None =>
        var line := PutWord(MemLine(st.mem, la), addr, word);
        var (l1, l2) := Fill(st.l1, st.l2, la, line);
        State(l1, l2, Splice(st.mem, LINE_BYTES * la, line))
  }

  /** cache_read_byte: byte `addr & 3` of the word, lowest first. */
  ghost function ReadByte(st: State, addr: nat): (r: (Byte, State))
    requires Shaped(st) && InMemory(st.mem, addr)
    ensures Shaped(r.1)
  {
    var (word, st') := Read(st, addr);
    (word[addr % 4], st')
  }

  /** cache_write_byte, with the byte replaced where the source only ORs
      (cache_mng.c:616). */
  ghost function WriteByte(st: State, addr: nat, b: Byte): (r: State)
    requires Shaped(st) && InMemory(st.mem, addr)
    ensures Shaped(r) && |r.mem| == |st.mem|
  {
    var (word, st') := Read(st, addr);
    Write(st', addr, word[addr % 4 := b])
  }

  // ----- what the two levels hold

  /** The content of a level for a line number. */
  ghost function At(level: Level, la: nat): Option<Line>
    requires |level| > 0
  {
    Find(level[la % |level|], la / |level|)
  }

  /** Every line held is in memory and equals it. */
  ghost predicate Coherent(level: Level, mem: seq<Byte>)
    requires |level| > 0
  {
    forall la: nat :: At(level, la).Some? ==>
      LINE_BYTES * la + LINE_BYTES <= |mem| && At(level, la) == Some(MemLine(mem, la))
  }

  ghost predicate Exclusive(l1: Level, l2: Level)
    requires |l1| > 0 && |l2| > 0
  {
    forall la: nat :: At(l1, la).None? || At(l2, la).None?
  }

  /** The tags of the accesses of a history that fall into set `i` of L1. */
  ghost function Class(history: seq<nat>, i: nat): seq<nat>
  {
    if history == [] then []
    else
      var la := history[|history| - 1];
      Class(history[..|history| - 1], i) + if la % L1_SETS == i then [la / L1_SETS] else []
  }

  /** Each set of L1 holds the lines of its class used last. */
  ghost predicate Recent(l1: Level, history: seq<nat>)
  {
    LevelShaped(l1, L1_SETS, L1_WAYS) &&
    forall i :: 0 <= i < L1_SETS ==> Holds(l1[i], Recency.Run(Class(history, i), L1_WAYS))
  }

  ghost predicate KeptLevel(l2: Level)
  {
    LevelShaped(l2, L2_SETS, L2_WAYS) && forall j :: 0 <= j < L2_SETS ==> Kept(l2[j])
  }

  /** The invariant of reachable states, with the history of lines accessed. */
  ghost predicate Inv(st: State, history: seq<nat>)
  {
    && Recent(st.l1, history)
    && KeptLevel(st.l2)
    && Coherent(st.l1, st.mem)
    && Coherent(st.l2, st.mem)
    && Exclusive(st.l1, st.l2)
  }

  lemma {:induction false} HoldsDistinct(s: seq<Way>, r: seq<nat>)
    requires Holds(s, r)
    ensures Distinct(s)
  {
    HoldsMeaning(s, r);
  }

  lemma {:induction false} AtAfter(level: Level, i: nat, s: seq<Way>, x: nat)
    requires i < |level|
    ensures At(level[i := s], x) == if x % |level| == i then Find(s, x / |level|) else At(level, x)
  {
  }

  /** A history grows by one line: one class grows by one tag. */
  lemma {:induction false} ClassStep(history: seq<nat>, la: nat, i: nat)
    ensures Class(history + [la], i) ==
            if la % L1_SETS == i then Class(history, i) + [la / L1_SETS] else Class(history, i)
  {
    assert (history + [la])[..|history|] == history;
  }

  /** Set `la % 64` of L1 makes one access of its buffer; the others do nothing. */
  lemma {:induction false} RecentStep(l1: Level, history: seq<nat>, la: nat, s: seq<Way>)
    requires Recent(l1, history) && |s| == L1_WAYS
    requires var i := la % L1_SETS;
      Holds(s, Recency.Access<nat>(Recency.Run(Class(history, i), L1_WAYS), la / L1_SETS, L1_WAYS))
    ensures Recent(l1[la % L1_SETS := s], history + [la])
  {
    hide Holds, Recency.Access, Class;
    forall i | 0 <= i < L1_SETS
      ensures Holds(l1[la % L1_SETS := s][i], Recency.Run(Class(history + [la], i), L1_WAYS))
    {
      ClassStep(history, la, i);
      Recency.RunAppend(Class(history, i), la / L1_SETS, L1_WAYS);
    }
  }

  // ----- the effect of each movement on what the levels hold

  /** After `Leave` the line is no longer in L2 and nothing else has changed there. */
  lemma {:induction false} LeaveAt(l2: Level, la: nat, w: nat, x: nat)
    requires KeptLevel(l2)
    requires ProbeSkip(l2[la % L2_SETS], la / L2_SETS) == Some(w)
    ensures KeptLevel(Leave(l2, la, w))
    ensures At(Leave(l2, la, w), x) == if x == la then None else At(l2, x)
  {
    hide Kept, Promote, Find;
    var j := la % L2_SETS;
    var s := l2[j];
    PromoteKept(s, w, x / L2_SETS);
    AtAfter(l2, j, Promote(s, w), x);
    if x % L2_SETS == j && x / L2_SETS == la / L2_SETS {
      SameName(x, la, L2_SETS);
    }
  }

  /** The line that `Fill` evicts from L1, if its set is full. */
  ghost function VictimOf(l1: Level, la: nat, line: Line): Option<nat>
    requires LevelShaped(l1, L1_SETS, L1_WAYS)
  {
    var i := la % L1_SETS;
    match Install(l1[i], la / L1_SETS, line).1
    case None => None
    case Some(v) => Some(v.tag * L1_SETS + i)
  }

  /** L1 after `Fill`: the line is in, its victim is out, all else stays. */
  lemma {:induction false} FillAtL1(l1: Level, history: seq<nat>, l2: Level, la: nat, line: Line, x: nat)
    requires Recent(l1, history) && LevelShaped(l2, L2_SETS, L2_WAYS) && At(l1, la).None?
    ensures At(Fill(l1, l2, la, line).0, x) ==
            if x == la then Some(line) else if VictimOf(l1, la, line) == Some(x) then None else At(l1, x)
    ensures VictimOf(l1, la, line).Some? ==>
              var (s, victim) := Install(l1[la % L1_SETS], la / L1_SETS, line);
              VictimOf(l1, la, line).value != la &&
              At(l1, VictimOf(l1, la, line).value) == Some(victim.value.line)
  {
    hide Holds, Install, Distinct, Recency.Run, Class;
    var i, t := la % L1_SETS, la / L1_SETS;
    var (s, victim) := Install(l1[i], t, line);
    HoldsDistinct(l1[i], Recency.Run(Class(history, i), L1_WAYS));
    InstallFinds(l1[i], t, line, x / L1_SETS);
    AtAfter(l1, i, s, x);
    if x % L1_SETS == i && x / L1_SETS == t {
      SameName(x, la, L1_SETS);
    }
    if victim.Some? {
      LineOfName(victim.value.tag, i, L1_SETS);
      if x % L1_SETS == i && x / L1_SETS == victim.value.tag {
        SameName(x, victim.value.tag * L1_SETS + i, L1_SETS);
      }
    }
  }

  /** The line that leaves L2 when line `la` is sent to it: none unless all the ways of
      its set are valid. */
  ghost function DroppedBy(l2: Level, la: nat, line: Line): Option<nat>
    requires LevelShaped(l2, L2_SETS, L2_WAYS)
  {
    var j := la % L2_SETS;
    match Place(l2[j], la / L2_SETS, line).1
    case None => None
    case Some(d) => Some(d.tag * L2_SETS + j)
  }

  /** L2 after a line is sent to it: the line is in, at most one line of a full set is
      out, and all else stays. */
  lemma {:induction false} SendAt(l2: Level, victim: Way, index: nat, x: nat)
    requires KeptLevel(l2) && index < L1_SETS
    requires At(l2, victim.tag * L1_SETS + index).None?
    ensures KeptLevel(SendVictim(l2, Some(victim), index))
    ensures var l2', la := SendVictim(l2, Some(victim), index), victim.tag * L1_SETS + index;
      At(l2', x) == if x == la then Some(victim.line)
                    else if DroppedBy(l2, la, victim.line) == Some(x) then None
                    else At(l2, x)
    ensures var la := victim.tag * L1_SETS + index;
      DroppedBy(l2, la, victim.line).Some? ==>
        var d := DroppedBy(l2, la, victim.line).value;
        d % L2_SETS == la % L2_SETS && FindPlace(l2[d % L2_SETS]).None? && At(l2, d).Some?
  {
    hide Kept, Find, Refill, AgeUpdate;
    var la := victim.tag * L1_SETS + index;
    var j, t := la % L2_SETS, la / L2_SETS;
    var dropped := Place(l2[j], t, victim.line).1;
    PlaceFinds(l2[j], t, victim.line, x / L2_SETS);
    AtAfter(l2, j, Place(l2[j], t, victim.line).0, x);
    if x % L2_SETS == j && x / L2_SETS == t {
      SameName(x, la, L2_SETS);
    }
    if dropped.Some? {
      LineOfName(dropped.value.tag, j, L2_SETS);
      if x % L2_SETS == j && x / L2_SETS == dropped.value.tag {
        SameName(x, dropped.value.tag * L2_SETS + j, L2_SETS);
      }
    }
  }

  /** The line that `Fill` pushes out of L2. */
  ghost function DroppedOf(l1: Level, l2: Level, la: nat, line: Line): Option<nat>
    requires LevelShaped(l1, L1_SETS, L1_WAYS) && LevelShaped(l2, L2_SETS, L2_WAYS)
  {
    var i := la % L1_SETS;
    match Install(l1[i], la / L1_SETS, line).1
    case None => None
    case Some(v) => DroppedBy(l2, v.tag * L1_SETS + i, v.line)
  }

  /** L2 after `Fill`: L1's victim has moved in with its content, at most one line has
      been dropped for it, and all else stays. */
  lemma {:induction false} FillAtL2(l1: Level, history: seq<nat>, l2: Level, la: nat, line: Line, x: nat)
    requires Recent(l1, history) && KeptLevel(l2) && Exclusive(l1, l2) && At(l1, la).None?
    ensures LevelShaped(l1, L1_SETS, L1_WAYS) && LevelShaped(l2, L2_SETS, L2_WAYS)
    ensures KeptLevel(Fill(l1, l2, la, line).1)
    ensures At(Fill(l1, l2, la, line).1, x) ==
            if VictimOf(l1, la, line) == Some(x) then At(l1, x)
            else if DroppedOf(l1, l2, la, line) == Some(x) then None
            else At(l2, x)
    ensures VictimOf(l1, la, line).Some? ==> At(l1, VictimOf(l1, la, line).value).Some?
    ensures DroppedOf(l1, l2, la, line).Some? ==>
              var d := DroppedOf(l1, l2, la, line).value;
              && VictimOf(l1, la, line).Some? && d % L2_SETS == VictimOf(l1, la, line).value % L2_SETS
              && FindPlace(l2[d % L2_SETS]).None? && At(l2, d).Some?
  {
    hide At, KeptLevel, Place, Install, Holds, Recent, DroppedBy;
    FillShape(l1, history);
    KeptShape(l2);
    FillAtL1(l1, history, l2, la, line, x);
    var i := la % L1_SETS;
    var (s, victim) := Install(l1[i], la / L1_SETS, line);
    if victim.Some? {
      SendAt(l2, victim.value, i, x);
    }
  }

  lemma {:induction false} FillShape(l1: Level, history: seq<nat>)
    requires Recent(l1, history)
    ensures LevelShaped(l1, L1_SETS, L1_WAYS)
  {
  }

  lemma {:induction false} FillRecent(l1: Level, history: seq<nat>, l2: Level, la: nat, line: Line)
    requires Recent(l1, history) && LevelShaped(l2, L2_SETS, L2_WAYS) && At(l1, la).None?
    ensures Recent(Fill(l1, l2, la, line).0, history + [la])
  {
    hide Holds, Install, Recency.Run, Class;
    var i, t := la % L1_SETS, la / L1_SETS;
    var r := Recency.Run(Class(history, i), L1_WAYS);
    HoldsDistinct(l1[i], r);
    ProbeIsHeld(l1[i], r, t);
    InstallStep(l1[i], r, t, line);
    RecentStep(l1, history, la, Install(l1[i], t, line).0);
  }

  /** Filling L1 with a line of memory that neither level holds keeps the invariant. */
  lemma {:induction false} FillInv(st: State, history: seq<nat>, la: nat, line: Line)
    requires Inv(st, history) && At(st.l1, la).None? && At(st.l2, la).None?
    requires LINE_BYTES * la + LINE_BYTES <= |st.mem| && line == MemLine(st.mem, la)
    ensures var (l1, l2) := Fill(st.l1, st.l2, la, line);
      Inv(State(l1, l2, st.mem), history + [la])
  {
    hide At, Fill, KeptLevel, Recent;
    FillShape(st.l1, history);
    KeptShape(st.l2);
    var (l1, l2) := Fill(st.l1, st.l2, la, line);
    FillRecent(st.l1, history, st.l2, la, line);
    FillAtL2(st.l1, history, st.l2, la, line, la);
    forall x: nat
      ensures At(l1, x).Some? ==>
        LINE_BYTES * x + LINE_BYTES <= |st.mem| && At(l1, x) == Some(MemLine(st.mem, x))
      ensures At(l2, x).Some? ==>
        LINE_BYTES * x + LINE_BYTES <= |st.mem| && At(l2, x) == Some(MemLine(st.mem, x))
      ensures At(l1, x).None? || At(l2, x).None?
    {
      FillAtL1(st.l1, history, st.l2, la, line, x);
      FillAtL2(st.l1, history, st.l2, la, line, x);
    }
  }

  lemma {:induction false} KeptShape(l2: Level)
    requires KeptLevel(l2)
    ensures LevelShaped(l2, L2_SETS, L2_WAYS)
  {
  }

  /** A write to memory does not disturb a level that does not hold its line. */
  lemma {:induction false} CoherentAfterWrite(level: Level, mem: seq<Byte>, addr: nat, w: Word)
    requires |level| > 0 && Coherent(level, mem) && InMemory(mem, addr)
    requires At(level, LineOf(addr)).None?
    ensures WordBase(addr) + 4 <= |mem|
    ensures Coherent(level, FlatWrite(mem, addr, w))
  {
    hide At, MemLine, FlatWrite;
    WordPlace(addr);
    forall la: nat | At(level, la).Some?
      ensures LINE_BYTES * la + LINE_BYTES <= |FlatWrite(mem, addr, w)| &&
              At(level, la) == Some(MemLine(FlatWrite(mem, addr, w), la))
    {
      MemLineAfterWrite(mem, addr, w, la);
    }
  }

  // ----- each operation keeps the invariant and agrees with flat memory

  lemma {:induction false} HitIsAt(st: State, history: seq<nat>, la: nat)
    requires Inv(st, history)
    ensures Shaped(st)
    ensures match ProbeStop(st.l1[la % L1_SETS], la / L1_SETS)
      case None => At(st.l1, la).None?
      case Some(w) => w < L1_WAYS && At(st.l1, la) == Some(st.l1[la % L1_SETS][w].line)
    ensures match ProbeSkip(st.l2[la % L2_SETS], la / L2_SETS)
      case None => At(st.l2, la).None?
      case Some(w) => w < L2_WAYS && At(st.l2, la) == Some(st.l2[la % L2_SETS][w].line)
  {
    hide Holds, Kept, Recency.Run, Class, Coherent, Exclusive;
    var i := la % L1_SETS;
    ProbeIsHeld(st.l1[i], Recency.Run(Class(history, i), L1_WAYS), la / L1_SETS);
  }

  /** A set of L1 whose way `w` is hit, possibly with a new line: the set keeps all
      its other lines and makes one access of its buffer. */
  lemma {:induction false} TouchInv(st: State, history: seq<nat>, la: nat, w: nat, s': seq<Way>, mem': seq<Byte>)
    requires Inv(st, history) && ProbeStop(st.l1[la % L1_SETS], la / L1_SETS) == Some(w)
    requires |s'| == L1_WAYS
    requires var i := la % L1_SETS;
      Holds(s', Recency.Access<nat>(Recency.Run(Class(history, i), L1_WAYS), la / L1_SETS, L1_WAYS))
    requires LINE_BYTES * la + LINE_BYTES <= |mem'|
    requires Find(s', la / L1_SETS) == Some(MemLine(mem', la))
    requires forall t :: t != la / L1_SETS ==> Find(s', t) == Find(st.l1[la % L1_SETS], t)
    requires forall x: nat :: x != la && LINE_BYTES * x + LINE_BYTES <= |st.mem| ==>
      LINE_BYTES * x + LINE_BYTES <= |mem'| && MemLine(mem', x) == MemLine(st.mem, x)
    ensures Inv(State(st.l1[la % L1_SETS := s'], st.l2, mem'), history + [la])
  {
    hide Holds, Kept, Recency.Run, Recency.Access, Class, Find, MemLine;
    var i := la % L1_SETS;
    var l1' := st.l1[i := s'];
    RecentStep(st.l1, history, la, s');
    HitIsAt(st, history, la);
    forall x: nat
      ensures At(l1', x) == if x == la then Some(MemLine(mem', la)) else At(st.l1, x)
    {
      AtAfter(st.l1, i, s', x);
      if x % L1_SETS == i && x / L1_SETS == la / L1_SETS {
        SameName(x, la, L1_SETS);
      }
    }
  }

  /** Aging a set for its youngest way changes nothing. */
  lemma {:induction false} YoungestUpdate(s: seq<Way>, w: nat)
    requires w < |s| && s[w].age == 0
    ensures AgeUpdate(s, w) == s
  {
  }

  lemma {:induction false} LinesDoNotMatter(s: seq<Way>, r: seq<nat>, w: nat, line: Line)
    requires Holds(s, r) && w < |s|
    ensures Holds(s[w := s[w].(line := line)], r)
  {
    var ways :| HoldsWith(s, r, ways);
    assert HoldsWith(s[w := s[w].(line := line)], r, ways);
  }

  lemma {:induction false} HitKeepsLines(s: seq<Way>, r: seq<nat>, w: nat, t: nat)
    requires Holds(s, r) && w < |s| && s[w].v
    ensures Distinct(AgeUpdate(s, w))
    ensures ProbeSkip(AgeUpdate(s, w), s[w].tag) == Some(w)
    ensures Find(AgeUpdate(s, w), t) == Find(s, t)
  {
    HoldsDistinct(s, r);
    FindValid(s, w);
    AgingKeepsLines(s, w);
    AgesDoNotMatter(s, AgeUpdate(s, w));
  }

  /** A hit by a write: LRU order as for a read, and one line replaced. */
  lemma {:induction false} RewriteStep(s: seq<Way>, r: seq<nat>, w: nat, line: Line, t: nat)
    requires Holds(s, r) && w < |s| && s[w].v
    ensures Holds(Rewrite(s, w, line), Recency.Access(r, s[w].tag, |s|))
    ensures Find(Rewrite(s, w, line), t) == if t == s[w].tag then Some(line) else Find(s, t)
  {
    hide Holds, Distinct, Find;
    var s' := AgeUpdate(s, w);
    var e := s'[w].(line := line);
    HitStep(s, r, w);
    HitKeepsLines(s, r, w, t);
    LinesDoNotMatter(s', Recency.Access(r, s[w].tag, |s|), w, line);
    YoungestUpdate(s'[w := e], w);
    PutFinds(s', w, e, t);
  }

  /** Every read returns the word of the flat memory, changes no memory, and keeps
      the invariant. */
  lemma {:induction false} ReadStep(st: State, history: seq<nat>, addr: nat)
    requires Inv(st, history) && InMemory(st.mem, addr)
    ensures Shaped(st) && WordBase(addr) + 4 <= |st.mem|
    ensures var (word, st') := Read(st, addr);
      && word == FlatRead(st.mem, addr)
      && st'.mem == st.mem
      && Inv(st', history + [LineOf(addr)])
  {
    hide Holds, KeptLevel, Recent, Fill, Leave, Recency.Access, Class, MemLine, FlatRead, WordOf, Find, AgeUpdate;
    var la := LineOf(addr);
    var i, j := la % L1_SETS, la % L2_SETS;
    HitIsAt(st, history, la);
    WordOfMemLine(st.mem, addr);
    match ProbeStop(st.l1[i], la / L1_SETS)
    case Some(w) =>
      ReadHit(st, history, la, w);
    case None =>
      match ProbeSkip(st.l2[j], la / L2_SETS)
      case Some(w) =>
        LeaveInv(st, history, la, w);
        FillInv(st.(l2 := Leave(st.l2, la, w)), history, la, st.l2[j][w].line);
      case None =>
        FillInv(st, history, la, MemLine(st.mem, la));
  }

  lemma {:induction false} ReadHit(st: State, history: seq<nat>, la: nat, w: nat)
    requires Inv(st, history) && Shaped(st) && ProbeStop(st.l1[la % L1_SETS], la / L1_SETS) == Some(w)
    ensures Inv(st.(l1 := st.l1[la % L1_SETS := AgeUpdate(st.l1[la % L1_SETS], w)]), history + [la])
  {
    hide Holds, KeptLevel, Recency.Access, Class, MemLine, Find, AgeUpdate;
    HitIsAt(st, history, la);
    var s := st.l1[la % L1_SETS];
    var r := Recency.Run(Class(history, la % L1_SETS), L1_WAYS);
    HitStep(s, r, w);
    forall t
      ensures Find(AgeUpdate(s, w), t) == Find(s, t)
    {
      HitKeepsLines(s, r, w, t);
    }
    assert Find(s, la / L1_SETS) == At(st.l1, la);
    TouchInv(st, history, la, w, AgeUpdate(s, w), st.mem);
  }

  lemma {:induction false} LeaveInv(st: State, history: seq<nat>, la: nat, w: nat)
    requires Inv(st, history) && Shaped(st) && ProbeSkip(st.l2[la % L2_SETS], la / L2_SETS) == Some(w)
    ensures Inv(st.(l2 := Leave(st.l2, la, w)), history)
    ensures At(Leave(st.l2, la, w), la).None?
  {
    hide At, KeptLevel, Recent, Leave;
    var l2' := Leave(st.l2, la, w);
    LeaveAt(st.l2, la, w, la);
    forall x: nat
      ensures At(l2', x) == if x == la then None else At(st.l2, x)
    {
      LeaveAt(st.l2, la, w, x);
    }
  }

  lemma {:induction false} MemoryInv(st: State, history: seq<nat>, addr: nat, word: Word)
    requires Inv(st, history) && InMemory(st.mem, addr) && WordBase(addr) + 4 <= |st.mem|
    requires At(st.l1, LineOf(addr)).None? && At(st.l2, LineOf(addr)).None?
    ensures Inv(st.(mem := FlatWrite(st.mem, addr, word)), history)
  {
    CoherentAfterWrite(st.l1, st.mem, addr, word);
    CoherentAfterWrite(st.l2, st.mem, addr, word);
  }

  /** The line written back and the memory after the write agree. */
  lemma {:induction false} WrittenLine(mem: seq<Byte>, addr: nat, word: Word)
    requires InMemory(mem, addr)
    ensures WordBase(addr) + 4 <= |mem|
    ensures var line := PutWord(MemLine(mem, LineOf(addr)), addr, word);
      && Splice(mem, LINE_BYTES * LineOf(addr), line) == FlatWrite(mem, addr, word)
      && MemLine(FlatWrite(mem, addr, word), LineOf(addr)) == line
  {
    PutWordInMemory(mem, addr, word);
    MemLineAfterWrite(mem, addr, word, LineOf(addr));
  }

  lemma {:induction false} WriteHit(st: State, history: seq<nat>, addr: nat, word: Word, w: nat)
    requires Inv(st, history) && Shaped(st) && InMemory(st.mem, addr) && WordBase(addr) + 4 <= |st.mem|
    requires ProbeStop(st.l1[LineOf(addr) % L1_SETS], LineOf(addr) / L1_SETS) == Some(w)
    ensures var la := LineOf(addr);
      var i := la % L1_SETS;
      Inv(State(st.l1[i := Rewrite(st.l1[i], w, PutWord(MemLine(st.mem, la), addr, word))], st.l2,
                FlatWrite(st.mem, addr, word)), history + [la])
  {
    hide Holds, KeptLevel, Recency.Access, Class, MemLine, Find, Rewrite, FlatWrite, PutWord;
    var la := LineOf(addr);
    var mem' := FlatWrite(st.mem, addr, word);
    var line := PutWord(MemLine(st.mem, la), addr, word);
    var s := st.l1[la % L1_SETS];
    var r := Recency.Run(Class(history, la % L1_SETS), L1_WAYS);
    forall t
      ensures Find(Rewrite(s, w, line), t) == if t == s[w].tag then Some(line) else Find(s, t)
    {
      RewriteStep(s, r, w, line, t);
    }
    RewriteStep(s, r, w, line, 0);
    WrittenLine(st.mem, addr, word);
    forall x: nat | x != la && LINE_BYTES * x + LINE_BYTES <= |st.mem|
      ensures MemLine(mem', x) == MemLine(st.mem, x)
    {
      MemLineAfterWrite(st.mem, addr, word, x);
    }
    TouchInv(st, history, la, w, Rewrite(s, w, line), mem');
  }

  /** Every write leaves memory as a flat write does, and keeps the invariant. */
  lemma {:induction false} WriteStep(st: State, history: seq<nat>, addr: nat, word: Word)
    requires Inv(st, history) && InMemory(st.mem, addr)
    ensures Shaped(st) && WordBase(addr) + 4 <= |st.mem|
    ensures Write(st, addr, word).mem == FlatWrite(st.mem, addr, word)
    ensures Inv(Write(st, addr, word), history + [LineOf(addr)])
  {
    hide Holds, KeptLevel, Recent, Fill, Leave, Recency.Access, Class, MemLine, FlatWrite, PutWord, Find, Rewrite;
    var la := LineOf(addr);
    var i, j := la % L1_SETS, la % L2_SETS;
    HitIsAt(st, history, la);
    WrittenLine(st.mem, addr, word);
    match ProbeStop(st.l1[i], la / L1_SETS)
    case Some(w) =>
      WriteHit(st, history, addr, word, w);
    case None =>
      var line := PutWord(MemLine(st.mem, la), addr, word);
      match ProbeSkip(st.l2[j], la / L2_SETS)
      case Some(w) =>
        var st1 := st.(l2 := Leave(st.l2, la, w));
        LeaveInv(st, history, la, w);
        MemoryInv(st1, history, addr, word);
        FillInv(st1.(mem := FlatWrite(st.mem, addr, word)), history, la, line);
      case None =>
        MemoryInv(st, history, addr, word);
        FillInv(st.(mem := FlatWrite(st.mem, addr, word)), history, la, line);
  }

  // ----- where lines go

  ghost predicate InL1(st: State, la: nat)
    requires Shaped(st)
  {
    At(st.l1, la).Some?
  }

  ghost predicate InL2(st: State, la: nat)
    requires Shaped(st)
  {
    At(st.l2, la).Some?
  }

  /** The line accessed is in L1 and not in L2.  The other lines of L1 stay there, but for
      at most one victim, which is then in L2.  The other lines of L2 stay there, but for
      at most one that is dropped for the victim from a full set, the victim's.  Nothing
      else enters either level. */
  ghost predicate Moved(st: State, st': State, la: nat, victim: Option<nat>, dropped: Option<nat>)
    requires Shaped(st) && Shaped(st')
  {
    && (forall x: nat :: InL1(st', x) <==> x == la || (InL1(st, x) && victim != Some(x)))
    && (forall x: nat :: InL2(st', x) <==> victim == Some(x) || (InL2(st, x) && x != la && dropped != Some(x)))
    && (victim.Some? ==> InL1(st, victim.value) && !InL1(st, la))
    && (dropped.Some? ==>
          && victim.Some? && InL2(st, dropped.value)
          && dropped.value % L2_SETS == victim.value % L2_SETS
          && FindPlace(st.l2[dropped.value % L2_SETS]).None?)
  }

  lemma {:induction false} FillMoves(st: State, history: seq<nat>, la: nat, line: Line)
    requires Inv(st, history) && At(st.l1, la).None? && At(st.l2, la).None?
    ensures Shaped(st)
    ensures var (l1, l2) := Fill(st.l1, st.l2, la, line);
      Moved(st, State(l1, l2, st.mem), la, VictimOf(st.l1, la, line), DroppedOf(st.l1, st.l2, la, line))
  {
    hide At, Fill, KeptLevel, Recent, VictimOf, DroppedOf;
    HitIsAt(st, history, la);
    var (l1, l2) := Fill(st.l1, st.l2, la, line);
    var victim, dropped := VictimOf(st.l1, la, line), DroppedOf(st.l1, st.l2, la, line);
    forall x: nat
      ensures At(l1, x).Some? <==> x == la || (At(st.l1, x).Some? && victim != Some(x))
      ensures At(l2, x).Some? <==> victim == Some(x) || (At(st.l2, x).Some? && x != la && dropped != Some(x))
    {
      FillAtL1(st.l1, history, st.l2, la, line, x);
      FillAtL2(st.l1, history, st.l2, la, line, x);
    }
    FillAtL2(st.l1, history, st.l2, la, line, la);
    FillAtL1(st.l1, history, st.l2, la, line, la);
  }

  /** A fill of a line that has just left L2, seen from before it left. */
  lemma {:induction false} LeaveMoves(st: State, history: seq<nat>, la: nat, w: nat, st': State, victim: Option<nat>,
      dropped: Option<nat>)
    requires Inv(st, history) && Shaped(st) && ProbeSkip(st.l2[la % L2_SETS], la / L2_SETS) == Some(w)
    requires At(st.l1, la).None? && Shaped(st')
    requires Moved(st.(l2 := Leave(st.l2, la, w)), st', la, victim, dropped)
    ensures Moved(st, st', la, victim, dropped)
  {
    hide At, KeptLevel, Leave;
    var l2 := Leave(st.l2, la, w);
    forall x: nat
      ensures At(l2, x).Some? <==> At(st.l2, x).Some? && x != la
    {
      LeaveAt(st.l2, la, w, x);
    }
    if dropped.Some? {
      LeaveOpens(st.l2, la, w);
      assert InL2(st.(l2 := l2), dropped.value);
    }
    assert forall x: nat :: InL2(st.(l2 := l2), x) <==> InL2(st, x) && x != la;
    assert forall x: nat :: InL1(st.(l2 := l2), x) <==> InL1(st, x);
  }

  /** The set that a line leaves is not full afterwards; the others do not change. */
  lemma {:induction false} LeaveOpens(l2: Level, la: nat, w: nat)
    requires LevelShaped(l2, L2_SETS, L2_WAYS) && w < L2_WAYS
    ensures FindPlace(Leave(l2, la, w)[la % L2_SETS]).Some?
    ensures forall j :: 0 <= j < L2_SETS && j != la % L2_SETS ==> Leave(l2, la, w)[j] == l2[j]
  {
    hide AgeUpdate;
    assert !Leave(l2, la, w)[la % L2_SETS][w].v;
  }

  /** The exclusive policy in one step: after any read, from any reachable state, exactly
      the movements of `Moved` have taken place. */
  lemma {:induction false} ReadMoves(st: State, history: seq<nat>, addr: nat)
    returns (victim: Option<nat>, dropped: Option<nat>)
    requires Inv(st, history) && InMemory(st.mem, addr)
    ensures Shaped(st) && Moved(st, Read(st, addr).1, LineOf(addr), victim, dropped)
  {
    hide Holds, KeptLevel, Recent, Fill, Leave, MemLine, WordOf, AgeUpdate, VictimOf, DroppedOf, At, Coherent,
         Exclusive;
    var la := LineOf(addr);
    var i, j := la % L1_SETS, la % L2_SETS;
    HitIsAt(st, history, la);
    match ProbeStop(st.l1[i], la / L1_SETS)
    case Some(w) =>
      victim, dropped := None, None;
      HitMoves(st, history, la, w);
    case None =>
      match ProbeSkip(st.l2[j], la / L2_SETS)
      case Some(w) =>
        var line := st.l2[j][w].line;
        victim, dropped := PromotionMoves(st, history, la, w, line, st.mem);
      case None =>
        var line := MemLine(st.mem, la);
        victim, dropped := VictimOf(st.l1, la, line), DroppedOf(st.l1, st.l2, la, line);
        FillMoves(st, history, la, line);
  }

  /** A line of L2, possibly changed, enters L1. */
  lemma {:induction false} PromotionMoves(st: State, history: seq<nat>, la: nat, w: nat, line: Line, mem: seq<Byte>)
    returns (victim: Option<nat>, dropped: Option<nat>)
    requires Inv(st, history) && Shaped(st) && ProbeSkip(st.l2[la % L2_SETS], la / L2_SETS) == Some(w)
    requires At(st.l1, la).None?
    ensures var (l1, l2) := Fill(st.l1, Leave(st.l2, la, w), la, line);
      Moved(st, State(l1, l2, mem), la, victim, dropped)
  {
    hide Holds, KeptLevel, Recent, Fill, Leave, VictimOf, DroppedOf, At, Coherent, Exclusive, Moved;
    var st1 := st.(l2 := Leave(st.l2, la, w));
    LeaveInv(st, history, la, w);
    victim, dropped := VictimOf(st1.l1, la, line), DroppedOf(st1.l1, st1.l2, la, line);
    FillMoves(st1, history, la, line);
    var (l1, l2) := Fill(st1.l1, st1.l2, la, line);
    LeaveMoves(st, history, la, w, State(l1, l2, st.mem), victim, dropped);
    MemoryDoesNotMove(st, State(l1, l2, st.mem), State(l1, l2, mem), la, victim, dropped);
  }

  lemma {:induction false} HitMoves(st: State, history: seq<nat>, la: nat, w: nat)
    requires Inv(st, history) && Shaped(st) && ProbeStop(st.l1[la % L1_SETS], la / L1_SETS) == Some(w)
    ensures Moved(st, st.(l1 := st.l1[la % L1_SETS := AgeUpdate(st.l1[la % L1_SETS], w)]), la, None, None)
  {
    hide Holds, KeptLevel, Find, AgeUpdate;
    var i := la % L1_SETS;
    HitIsAt(st, history, la);
    assert At(st.l2, la).None?;
    forall x: nat
      ensures At(st.l1[i := AgeUpdate(st.l1[i], w)], x) == At(st.l1, x)
    {
      AtAfter(st.l1, i, AgeUpdate(st.l1[i], w), x);
      HitKeepsLines(st.l1[i], Recency.Run(Class(history, i), L1_WAYS), w, x / L1_SETS);
    }
  }

  lemma {:induction false} MemoryDoesNotMove(st: State, a: State, b: State, la: nat, victim: Option<nat>,
      dropped: Option<nat>)
    requires Shaped(st) && Shaped(a) && Shaped(b) && b.l1 == a.l1 && b.l2 == a.l2
    requires Moved(st, a, la, victim, dropped)
    ensures Moved(st, b, la, victim, dropped)
  {
    assert forall x: nat :: InL1(b, x) == InL1(a, x);
    assert forall x: nat :: InL2(b, x) == InL2(a, x);
  }

  /** The same for writes. */
  lemma {:induction false} WriteMoves(st: State, history: seq<nat>, addr: nat, word: Word)
    returns (victim: Option<nat>, dropped: Option<nat>)
    requires Inv(st, history) && InMemory(st.mem, addr)
    ensures Shaped(st) && Moved(st, Write(st, addr, word), LineOf(addr), victim, dropped)
  {
    hide Holds, KeptLevel, Recent, Fill, Leave, MemLine, PutWord, Splice, Rewrite, VictimOf, DroppedOf, At, Coherent,
         Exclusive, Moved;
    var la := LineOf(addr);
    var i, j := la % L1_SETS, la % L2_SETS;
    HitIsAt(st, history, la);
    var st' := Write(st, addr, word);
    match ProbeStop(st.l1[i], la / L1_SETS)
    case Some(w) =>
      victim, dropped := None, None;
      var line := PutWord(st.l1[i][w].line, addr, word);
      RewriteMoves(st, history, la, w, line);
      MemoryDoesNotMove(st, st.(l1 := st.l1[i := Rewrite(st.l1[i], w, line)]), st', la, victim, dropped);
    case None =>
      match ProbeSkip(st.l2[j], la / L2_SETS)
      case Some(w) =>
        var line := PutWord(st.l2[j][w].line, addr, word);
        victim, dropped := PromotionMoves(st, history, la, w, line, st'.mem);
      case None =>
        var line := PutWord(MemLine(st.mem, la), addr, word);
        victim, dropped := VictimOf(st.l1, la, line), DroppedOf(st.l1, st.l2, la, line);
        FillMoves(st, history, la, line);
        var (l1, l2) := Fill(st.l1, st.l2, la, line);
        MemoryDoesNotMove(st, State(l1, l2, st.mem), st', la, victim, dropped);
  }

  lemma {:induction false} RewriteMoves(st: State, history: seq<nat>, la: nat, w: nat, line: Line)
    requires Inv(st, history) && Shaped(st) && ProbeStop(st.l1[la % L1_SETS], la / L1_SETS) == Some(w)
    ensures Moved(st, st.(l1 := st.l1[la % L1_SETS := Rewrite(st.l1[la % L1_SETS], w, line)]), la, None, None)
  {
    hide Holds, KeptLevel, Find, Rewrite;
    var i := la % L1_SETS;
    HitIsAt(st, history, la);
    assert At(st.l2, la).None?;
    forall x: nat
      ensures At(st.l1[i := Rewrite(st.l1[i], w, line)], x).Some? <==> At(st.l1, x).Some?
    {
      AtAfter(st.l1, i, Rewrite(st.l1[i], w, line), x);
      RewriteStep(st.l1[i], Recency.Run(Class(history, i), L1_WAYS), w, line, x / L1_SETS);
      if x % L1_SETS == i && x / L1_SETS == la / L1_SETS {
        SameName(x, la, L1_SETS);
      }
    }
  }

  // ----- where words come from

  /** A hit in either level does not look at memory: with other bytes there, a read gives the
      same word and both calls leave the same lines. */
  lemma {:induction false} HitsDoNotReadMemory(st: State, addr: nat, word: Word, mem: seq<Byte>)
    requires Shaped(st) && InMemory(st.mem, addr) && |mem| == |st.mem|
    requires ProbeStop(st.l1[addr / 16 % 64], LineOf(addr) / 64).Some? ||
             ProbeSkip(st.l2[addr / 16 % 512], LineOf(addr) / 512).Some?
    ensures var r, r' := Read(st, addr), Read(st.(mem := mem), addr);
      r'.0 == r.0 && r'.1.l1 == r.1.l1 && r'.1.l2 == r.1.l2 && r.1.mem == st.mem && r'.1.mem == mem
    ensures var w, w' := Write(st, addr, word), Write(st.(mem := mem), addr, word);
      w'.l1 == w.l1 && w'.l2 == w.l2
  {
    hide Fill, Leave, AgeUpdate, Rewrite, WordOf, PutWord, Splice;
  }
}
