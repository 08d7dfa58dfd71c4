/** Two L1 caches, one for instructions and one for data, over one L2, as the programs of
    the simulator set them up (test-cache.c:41-75).  cache_read and cache_write know of
    one L1 only, so nothing keeps the two apart; but they stay transparent as long as
    no line that is written is ever fetched. */
module SplitSpec {
  import opened Bytes
  import opened Outcomes
  import opened Arithmetic
  import opened LineNames
  import opened AgeSets
  import opened SetLookup
  import opened VictimSets
  import opened ExclusiveSpec
  import Recency

  /** Every valid way holds its line of memory. */
  ghost predicate Clean(level: Level, mem: seq<Byte>)
  {
    forall j, w :: 0 <= j < |level| && 0 <= w < |level[j]| && level[j][w].v ==>
      var x := level[j][w].tag * |level| + j;
      LINE_BYTES * x + LINE_BYTES <= |mem| && level[j][w].line == MemLine(mem, x)
  }

  /** At most one valid way of a set has the tag. */
  ghost predicate Once(s: seq<Way>, tag: nat)
  {
    forall w, x :: 0 <= w < x < |s| && s[w].v && s[x].v ==> !(s[w].tag == tag && s[x].tag == tag)
  }

  /** An L1 and the L2 behind it, as it looks to one of the two: L2 may hold lines twice
      and lines that L1 holds, but none of the lines `written`. */
  ghost predicate Half(st: State, history: seq<nat>, written: set<nat>)
  {
    && Recent(st.l1, history)
    && LevelShaped(st.l2, L2_SETS, L2_WAYS)
    && Coherent(st.l1, st.mem)
    && Clean(st.l2, st.mem)
    && forall x :: x in written ==>
         (At(st.l1, x).None? || At(st.l2, x).None?) && Once(st.l2[x % L2_SETS], x / L2_SETS)
  }

  // ----- changes of one set of L2

  /** All valid ways of `s'` but perhaps way `w0` are ways of `s`. */
  ghost predicate WaysStay(s: seq<Way>, s': seq<Way>, w0: nat)
  {
    && |s'| == |s| && w0 < |s|
    && forall w :: 0 <= w < |s| && w != w0 && s'[w].v ==> s[w].v && s'[w].tag == s[w].tag && s'[w].line == s[w].line
  }

  lemma {:induction false} PlaceStays(s: seq<Way>, tag: nat, line: Line) returns (w0: nat)
    requires |s| > 0
    ensures WaysStay(s, Place(s, tag, line).0, w0)
    ensures var e := Place(s, tag, line).0[w0]; e.v && e.tag == tag && e.line == line
  {
    w0 := if FindPlace(s).Some? then FindPlace(s).value else Oldest(s, |s|);
    var s1 := s[w0 := Way(true, s[w0].age, tag, line)];
    RefillKeepsLines(s1, w0);
    AgingKeepsLines(s1, w0);
  }

  lemma {:induction false} PromoteStays(s: seq<Way>, w: nat)
    requires w < |s|
    ensures WaysStay(s, Promote(s, w), w) && !Promote(s, w)[w].v
  {
    AgingKeepsLines(s, w);
  }

  lemma {:induction false} ChangedFinds(s: seq<Way>, s': seq<Way>, w0: nat, t: nat)
    requires WaysStay(s, s', w0)
    ensures Find(s', t).Some? ==> Find(s, t).Some? || (s'[w0].v && s'[w0].tag == t)
    ensures Once(s, t) && (s'[w0].v && s'[w0].tag == t ==> Find(s, t).None?) ==> Once(s', t)
  {
    if Find(s', t).Some? && !(s'[w0].v && s'[w0].tag == t) {
      var w := ProbeSkip(s', t).value;
      assert s[w].v && s[w].tag == t;
    }
  }

  lemma {:induction false} ChangedClean(l2: Level, mem: seq<Byte>, j: nat, s': seq<Way>, w0: nat)
    requires LevelShaped(l2, L2_SETS, L2_WAYS) && Clean(l2, mem) && j < L2_SETS && WaysStay(l2[j], s', w0)
    requires s'[w0].v ==>
      var x := s'[w0].tag * L2_SETS + j;
      LINE_BYTES * x + LINE_BYTES <= |mem| && s'[w0].line == MemLine(mem, x)
    ensures LevelShaped(l2[j := s'], L2_SETS, L2_WAYS) && Clean(l2[j := s'], mem)
  {
    hide MemLine;
  }

  /** What is found for line `x` after a change of one set of L2. */
  lemma {:induction false} ChangedAt(l2: Level, j: nat, s': seq<Way>, w0: nat, x: nat)
    requires LevelShaped(l2, L2_SETS, L2_WAYS) && j < L2_SETS && WaysStay(l2[j], s', w0)
    ensures var l2', entered := l2[j := s'], s'[w0].v && s'[w0].tag * L2_SETS + j == x;
      && (At(l2', x).Some? ==> At(l2, x).Some? || entered)
      && (Once(l2[x % L2_SETS], x / L2_SETS) && (entered ==> At(l2, x).None?) ==>
            Once(l2'[x % L2_SETS], x / L2_SETS))
  {
    hide Find, Once;
    AtAfter(l2, j, s', x);
    Divided(x, L2_SETS);
    if x % L2_SETS == j {
      ChangedFinds(l2[j], s', w0, x / L2_SETS);
    }
  }

  /** A line leaves L2; if it was there once, it is gone. */
  lemma {:induction false} LeaveHalf(st: State, history: seq<nat>, written: set<nat>, la: nat, w: nat)
    requires Half(st, history, written) && ProbeSkip(st.l2[la % L2_SETS], la / L2_SETS) == Some(w)
    ensures Half(st.(l2 := Leave(st.l2, la, w)), history, written)
    ensures la in written ==> At(Leave(st.l2, la, w), la).None?
    ensures forall x: nat :: At(Leave(st.l2, la, w), x).Some? ==> At(st.l2, x).Some?
    ensures LINE_BYTES * la + LINE_BYTES <= |st.mem| && st.l2[la % L2_SETS][w].line == MemLine(st.mem, la)
  {
    hide Recent, Coherent, At, Promote, MemLine, Once;
    var j := la % L2_SETS;
    var s' := Promote(st.l2[j], w);
    PromoteStays(st.l2[j], w);
    ChangedClean(st.l2, st.mem, j, s', w);
    Divided(la, L2_SETS);
    forall x: nat
      ensures At(Leave(st.l2, la, w), x).Some? ==> At(st.l2, x).Some?
      ensures Once(st.l2[x % L2_SETS], x / L2_SETS) ==> Once(Leave(st.l2, la, w)[x % L2_SETS], x / L2_SETS)
    {
      ChangedAt(st.l2, j, s', w, x);
    }
    if la in written {
      GoneAfter(st.l2, la, w);
    }
  }

  lemma {:induction false} GoneAfter(l2: Level, la: nat, w: nat)
    requires LevelShaped(l2, L2_SETS, L2_WAYS) && ProbeSkip(l2[la % L2_SETS], la / L2_SETS) == Some(w)
    requires Once(l2[la % L2_SETS], la / L2_SETS)
    ensures At(Leave(l2, la, w), la).None?
  {
    PromoteStays(l2[la % L2_SETS], w);
  }

  /** A line of memory that L1 does not hold, and L2 does not if it is ever written, enters L1. */
  lemma {:induction false} FillHalf(st: State, history: seq<nat>, written: set<nat>, la: nat, line: Line)
    requires Half(st, history, written) && At(st.l1, la).None? && (la in written ==> At(st.l2, la).None?)
    requires LINE_BYTES * la + LINE_BYTES <= |st.mem| && line == MemLine(st.mem, la)
    ensures Shaped(st)
    ensures var (l1, l2) := Fill(st.l1, st.l2, la, line);
      && Half(State(l1, l2, st.mem), history + [la], written)
      && Spread(st, State(l1, l2, st.mem), la)
  {
    hide Recent, At, Install, MemLine, Once, Place, VictimOf;
    FillShape(st.l1, history);
    FillRecent(st.l1, history, st.l2, la, line);
    var i := la % L1_SETS;
    var (s, victim) := Install(st.l1[i], la / L1_SETS, line);
    var (l1, l2) := Fill(st.l1, st.l2, la, line);
    var v := VictimOf(st.l1, la, line);
    forall x: nat
      ensures At(l1, x) == if x == la then Some(line) else if v == Some(x) then None else At(st.l1, x)
    {
      FillAtL1(st.l1, history, st.l2, la, line, x);
    }
    FillAtL1(st.l1, history, st.l2, la, line, la);
    SendHalf(st, la, line);
    forall x: nat
      ensures At(l2, x).Some? ==> At(st.l2, x).Some? || v == Some(x)
      ensures Once(st.l2[x % L2_SETS], x / L2_SETS) && (v == Some(x) ==> At(st.l2, x).None?) ==>
                Once(l2[x % L2_SETS], x / L2_SETS)
    {
      SentAt(st, la, line, x);
    }
  }

  /** Lines move only between the two levels; `la` may come from memory. */
  ghost predicate Spread(st: State, st': State, la: nat)
    requires Shaped(st) && Shaped(st')
  {
    && (forall x: nat :: At(st'.l1, x).Some? ==> x == la || At(st.l1, x).Some?)
    && (forall x: nat :: At(st'.l2, x).Some? ==> x == la || At(st.l2, x).Some? || At(st.l1, x).Some?)
  }

  /** The line evicted from L1 is a line of memory, so L2 stays clean. */
  lemma {:induction false} SendHalf(st: State, la: nat, line: Line)
    requires Shaped(st) && Clean(st.l2, st.mem) && Coherent(st.l1, st.mem)
    requires VictimOf(st.l1, la, line).Some? ==>
      At(st.l1, VictimOf(st.l1, la, line).value) == Some(Install(st.l1[la % L1_SETS], la / L1_SETS, line).1.value.line)
    ensures Clean(Fill(st.l1, st.l2, la, line).1, st.mem)
  {
    hide Install, MemLine, Place, Find;
    var victim := Install(st.l1[la % L1_SETS], la / L1_SETS, line).1;
    if victim.Some? {
      var v := VictimOf(st.l1, la, line).value;
      var j := v % L2_SETS;
      var w0 := PlaceStays(st.l2[j], v / L2_SETS, victim.value.line);
      Divided(v, L2_SETS);
      ChangedClean(st.l2, st.mem, j, Place(st.l2[j], v / L2_SETS, victim.value.line).0, w0);
    }
  }

  lemma {:induction false} SentAt(st: State, la: nat, line: Line, x: nat)
    requires Shaped(st)
    ensures var l2, v := Fill(st.l1, st.l2, la, line).1, VictimOf(st.l1, la, line);
      && (At(l2, x).Some? ==> At(st.l2, x).Some? || v == Some(x))
      && (Once(st.l2[x % L2_SETS], x / L2_SETS) && (v == Some(x) ==> At(st.l2, x).None?) ==>
            Once(l2[x % L2_SETS], x / L2_SETS))
  {
    hide Install, Place, At, Once;
    var victim := Install(st.l1[la % L1_SETS], la / L1_SETS, line).1;
    if victim.Some? {
      var v := VictimOf(st.l1, la, line).value;
      var j := v % L2_SETS;
      var w0 := PlaceStays(st.l2[j], v / L2_SETS, victim.value.line);
      Divided(v, L2_SETS);
      ChangedAt(st.l2, j, Place(st.l2[j], v / L2_SETS, victim.value.line).0, w0, x);
    }
  }

  // ----- reads and writes

  lemma {:induction false} HalfProbe(st: State, history: seq<nat>, written: set<nat>, la: nat)
    requires Half(st, history, written)
    ensures Shaped(st)
    ensures match ProbeStop(st.l1[la % L1_SETS], la / L1_SETS)
      case None => At(st.l1, la).None?
      case Some(w) =>
        && w < L1_WAYS && At(st.l1, la) == Some(st.l1[la % L1_SETS][w].line)
        && LINE_BYTES * la + LINE_BYTES <= |st.mem| && st.l1[la % L1_SETS][w].line == MemLine(st.mem, la)
    ensures ProbeSkip(st.l2[la % L2_SETS], la / L2_SETS).None? <==> At(st.l2, la).None?
  {
    hide Holds, Recency.Run, Class, Clean, MemLine;
    var i := la % L1_SETS;
    ProbeIsHeld(st.l1[i], Recency.Run(Class(history, i), L1_WAYS), la / L1_SETS);
  }

  /** A set of L1 whose way `w` is hit, possibly with a new line. */
  lemma {:induction false} TouchHalf(st: State, history: seq<nat>, written: set<nat>, la: nat, w: nat, s': seq<Way>,
      mem': seq<Byte>)
    requires Half(st, history, written) && ProbeStop(st.l1[la % L1_SETS], la / L1_SETS) == Some(w)
    requires |s'| == L1_WAYS
    requires var i := la % L1_SETS;
      Holds(s', Recency.Access<nat>(Recency.Run(Class(history, i), L1_WAYS), la / L1_SETS, L1_WAYS))
    requires LINE_BYTES * la + LINE_BYTES <= |mem'|
    requires Find(s', la / L1_SETS) == Some(MemLine(mem', la))
    requires forall t :: t != la / L1_SETS ==> Find(s', t) == Find(st.l1[la % L1_SETS], t)
    requires forall x: nat :: x != la && LINE_BYTES * x + LINE_BYTES <= |st.mem| ==>
      LINE_BYTES * x + LINE_BYTES <= |mem'| && MemLine(mem', x) == MemLine(st.mem, x)
    requires Clean(st.l2, mem')
    ensures Shaped(st)
    ensures var st' := State(st.l1[la % L1_SETS := s'], st.l2, mem');
      Half(st', history + [la], written) && Spread(st, st', la)
  {
    hide Holds, Clean, Recency.Run, Recency.Access, Class, Find, MemLine, Once;
    var i := la % L1_SETS;
    var l1' := st.l1[i := s'];
    RecentStep(st.l1, history, la, s');
    HalfProbe(st, history, written, la);
    forall x: nat
      ensures At(l1', x) == if x == la then Some(MemLine(mem', la)) else At(st.l1, x)
    {
      AtAfter(st.l1, i, s', x);
      if x % L1_SETS == i && x / L1_SETS == la / L1_SETS {
        SameName(x, la, L1_SETS);
      }
    }
  }

  lemma {:induction false} ReadHitHalf(st: State, history: seq<nat>, written: set<nat>, la: nat, w: nat)
    requires Half(st, history, written) && Shaped(st)
    requires ProbeStop(st.l1[la % L1_SETS], la / L1_SETS) == Some(w)
    ensures var st' := st.(l1 := st.l1[la % L1_SETS := AgeUpdate(st.l1[la % L1_SETS], w)]);
      Half(st', history + [la], written) && Spread(st, st', la)
  {
    hide Holds, Clean, Recency.Access, Class, MemLine, Find, AgeUpdate, Once;
    HalfProbe(st, history, written, la);
    var s := st.l1[la % L1_SETS];
    var r := Recency.Run(Class(history, la % L1_SETS), L1_WAYS);
    HitStep(s, r, w);
    forall t
      ensures Find(AgeUpdate(s, w), t) == Find(s, t)
    {
      HitKeepsLines(s, r, w, t);
    }
    assert Find(s, la / L1_SETS) == At(st.l1, la);
    TouchHalf(st, history, written, la, w, AgeUpdate(s, w), st.mem);
  }

  /** A read returns the word of flat memory. */
  lemma {:induction false} ReadHalf(st: State, history: seq<nat>, written: set<nat>, addr: nat)
    requires Half(st, history, written) && InMemory(st.mem, addr)
    ensures Shaped(st) && WordBase(addr) + 4 <= |st.mem|
    ensures var (word, st') := Read(st, addr);
      && word == FlatRead(st.mem, addr) && st'.mem == st.mem
      && Half(st', history + [LineOf(addr)], written) && Spread(st, st', LineOf(addr))
  {
    hide Half, Spread, Fill, Leave, MemLine, FlatRead, WordOf, AgeUpdate, At;
    var la := LineOf(addr);
    var i, j := la % L1_SETS, la % L2_SETS;
    HalfProbe(st, history, written, la);
    WordOfMemLine(st.mem, addr);
    match ProbeStop(st.l1[i], la / L1_SETS)
    case Some(w) =>
      ReadHitHalf(st, history, written, la, w);
    case None =>
      match ProbeSkip(st.l2[j], la / L2_SETS)
      case Some(w) =>
        var line := st.l2[j][w].line;
        LeaveHalf(st, history, written, la, w);
        PromoteHalf(st, history, written, la, w, line, st.(l2 := Leave(st.l2, la, w)));
      case None =>
        FillHalf(st, history, written, la, MemLine(st.mem, la));
  }

  /** A line that has left L2 enters L1. */
  lemma {:induction false} PromoteHalf(st: State, history: seq<nat>, written: set<nat>, la: nat, w: nat, line: Line,
      st1: State)
    requires Shaped(st) && w < L2_WAYS && At(st.l1, la).None?
    requires st1.l1 == st.l1 && st1.l2 == Leave(st.l2, la, w) && Half(st1, history, written)
    requires forall x: nat :: At(st1.l2, x).Some? ==> At(st.l2, x).Some?
    requires la in written ==> At(st1.l2, la).None?
    requires LINE_BYTES * la + LINE_BYTES <= |st1.mem| && line == MemLine(st1.mem, la)
    ensures var (l1, l2) := Fill(st.l1, Leave(st.l2, la, w), la, line);
      Half(State(l1, l2, st1.mem), history + [la], written) && Spread(st, State(l1, l2, st1.mem), la)
  {
    hide Half, Fill, Leave, MemLine, At;
    FillHalf(st1, history, written, la, line);
  }

  lemma {:induction false} CleanAfterWrite(l2: Level, mem: seq<Byte>, addr: nat, word: Word)
    requires LevelShaped(l2, L2_SETS, L2_WAYS) && Clean(l2, mem) && InMemory(mem, addr)
    requires At(l2, LineOf(addr)).None? && WordBase(addr) + 4 <= |mem|
    ensures Clean(l2, FlatWrite(mem, addr, word))
  {
    hide MemLine, FlatWrite;
    forall j, w | 0 <= j < |l2| && 0 <= w < |l2[j]| && l2[j][w].v
      ensures var x := l2[j][w].tag * |l2| + j;
        LINE_BYTES * x + LINE_BYTES <= |mem| && l2[j][w].line == MemLine(FlatWrite(mem, addr, word), x)
    {
      var x := l2[j][w].tag * |l2| + j;
      LineOfName(l2[j][w].tag, j, |l2|);
      MemLineAfterWrite(mem, addr, word, x);
    }
  }

  /** Memory changes in a line that neither level holds. */
  lemma {:induction false} MemoryHalf(st: State, history: seq<nat>, written: set<nat>, addr: nat, word: Word)
    requires Half(st, history, written) && InMemory(st.mem, addr) && WordBase(addr) + 4 <= |st.mem|
    requires At(st.l1, LineOf(addr)).None? && At(st.l2, LineOf(addr)).None?
    ensures Half(st.(mem := FlatWrite(st.mem, addr, word)), history, written)
  {
    hide Clean, MemLine, FlatWrite, Once;
    CoherentAfterWrite(st.l1, st.mem, addr, word);
    CleanAfterWrite(st.l2, st.mem, addr, word);
  }

  lemma {:induction false} WriteHitHalf(st: State, history: seq<nat>, written: set<nat>, addr: nat, word: Word, w: nat)
    requires Half(st, history, written) && Shaped(st) && InMemory(st.mem, addr) && WordBase(addr) + 4 <= |st.mem|
    requires ProbeStop(st.l1[LineOf(addr) % L1_SETS], LineOf(addr) / L1_SETS) == Some(w)
    requires LineOf(addr) in written
    ensures var la := LineOf(addr);
      var i := la % L1_SETS;
      var st' := State(st.l1[i := Rewrite(st.l1[i], w, PutWord(MemLine(st.mem, la), addr, word))], st.l2,
                       FlatWrite(st.mem, addr, word));
      Half(st', history + [la], written) && Spread(st, st', la)
  {
    hide Holds, Clean, Recency.Access, Class, MemLine, Find, Rewrite, FlatWrite, PutWord, Once;
    var la := LineOf(addr);
    var mem' := FlatWrite(st.mem, addr, word);
    var line := PutWord(MemLine(st.mem, la), addr, word);
    var s := st.l1[la % L1_SETS];
    var r := Recency.Run(Class(history, la % L1_SETS), L1_WAYS);
    HalfProbe(st, history, written, la);
    forall t
      ensures Find(Rewrite(s, w, line), t) == if t == s[w].tag then Some(line) else Find(s, t)
    {
      RewriteStep(s, r, w, line, t);
    }
    RewriteStep(s, r, w, line, 0);
    WrittenLine(st.mem, addr, word);
    forall x: nat | x != la && LINE_BYTES * x + LINE_BYTES <= |st.mem|
      ensures MemLine(mem', x) == MemLine(st.mem, x)
    {
      MemLineAfterWrite(st.mem, addr, word, x);
    }
    CleanAfterWrite(st.l2, st.mem, addr, word);
    TouchHalf(st, history, written, la, w, Rewrite(s, w, line), mem');
  }

  /** A write of one of the lines `written` leaves memory as a flat write does. */
  lemma {:induction false} WriteHalf(st: State, history: seq<nat>, written: set<nat>, addr: nat, word: Word)
    requires Half(st, history, written) && InMemory(st.mem, addr) && LineOf(addr) in written
    ensures Shaped(st) && WordBase(addr) + 4 <= |st.mem|
    ensures var st' := Write(st, addr, word);
      && st'.mem == FlatWrite(st.mem, addr, word)
      && Half(st', history + [LineOf(addr)], written) && Spread(st, st', LineOf(addr))
  {
    hide Half, Spread, Fill, Leave, MemLine, FlatWrite, PutWord, Rewrite, At;
    var la := LineOf(addr);
    var i, j := la % L1_SETS, la % L2_SETS;
    HalfProbe(st, history, written, la);
    WrittenLine(st.mem, addr, word);
    match ProbeStop(st.l1[i], la / L1_SETS)
    case Some(w) =>
      WriteHitHalf(st, history, written, addr, word, w);
    case None =>
      var line := PutWord(MemLine(st.mem, la), addr, word);
      match ProbeSkip(st.l2[j], la / L2_SETS)
      case Some(w) =>
        LeaveHalf(st, history, written, la, w);
        var st1 := st.(l2 := Leave(st.l2, la, w));
        MemoryHalf(st1, history, written, addr, word);
        PromoteHalf(st, history, written, la, w, line, st1.(mem := FlatWrite(st.mem, addr, word)));
      case None =>
        MemoryHalf(st, history, written, addr, word);
        FillHalf(st.(mem := FlatWrite(st.mem, addr, word)), history, written, la, line);
        SameSpread(st, st.(mem := FlatWrite(st.mem, addr, word)), Write(st, addr, word), la);
  }

  lemma {:induction false} SameSpread(st: State, st1: State, st': State, la: nat)
    requires Shaped(st) && Shaped(st1) && Shaped(st') && st1.l1 == st.l1 && st1.l2 == st.l2 && Spread(st1, st', la)
    ensures Spread(st, st', la)
  {
  }
}
