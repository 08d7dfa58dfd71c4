/** Replacement in L2 over whole runs: each set keeps the lines that left L1 last. */
module VictimRuns {
  import opened Bytes
  import opened Outcomes
  import opened Arithmetic
  import opened LineNames
  import opened FlatMemory
  import opened AgeSets
  import opened VictimSets
  import opened VictimLists
  import opened ExclusiveSpec
  import opened ExclusiveRuns
  import Recency

  // ----- the reference, on the history of lines accessed alone

  /** The line that leaves an LRU buffer of four lines for line `la`. */
  ghost function Evicted(history: seq<nat>, la: nat): Option<nat>
  {
    var r := Recency.Run(Class(history, la % L1_SETS), L1_WAYS);
    if la / L1_SETS in r || |r| < L1_WAYS then None
    else Some(r[L1_WAYS - 1] * L1_SETS + la % L1_SETS)
  }

  /** The line that a miss takes out of the list of victims. */
  ghost function WithoutLine(l: seq<nat>, la: nat, j: nat): seq<nat>
  {
    if la % L2_SETS == j then Recency.Without<nat>(l, la / L2_SETS) else l
  }

  ghost function WithVictim(l: seq<nat>, victim: Option<nat>, j: nat): seq<nat>
  {
    match victim
    case None => l
    case Some(v) => if v % L2_SETS == j then Recency.Take<nat>([v / L2_SETS] + l, L2_WAYS) else l
  }

  /** The victims of L1 that belong to set `j` of L2, the last one first; a line that comes
      back to L1 is taken out, and at most eight are kept. */
  ghost function Victims(history: seq<nat>, j: nat): seq<nat>
  {
    if history == [] then []
    else
      var before, la := history[..|history| - 1], history[|history| - 1];
      if la / L1_SETS in Recency.Run(Class(before, la % L1_SETS), L1_WAYS) then Victims(before, j)
      else WithVictim(WithoutLine(Victims(before, j), la, j), Evicted(before, la), j)
  }

  lemma {:induction false} VictimsStep(history: seq<nat>, la: nat, j: nat)
    ensures Victims(history + [la], j) ==
            if la / L1_SETS in Recency.Run(Class(history, la % L1_SETS), L1_WAYS) then Victims(history, j)
            else WithVictim(WithoutLine(Victims(history, j), la, j), Evicted(history, la), j)
  {
    assert (history + [la])[..|history|] == history;
  }

  // ----- L2 keeps that list

  ghost predicate Ordered(l2: Level, history: seq<nat>)
  {
    LevelShaped(l2, L2_SETS, L2_WAYS) && forall j :: 0 <= j < L2_SETS ==> Orders(l2[j], Victims(history, j))
  }

  /** L2 after a miss in L1, before L1's victim arrives. */
  ghost function Vacated(l2: Level, la: nat): (r: Level)
    requires LevelShaped(l2, L2_SETS, L2_WAYS)
    ensures LevelShaped(r, L2_SETS, L2_WAYS)
  {
    match ProbeSkip(l2[la % L2_SETS], la / L2_SETS)
    case None => l2
    case Some(w) => Leave(l2, la, w)
  }

  lemma {:induction false} VacatedOrders(l2: Level, history: seq<nat>, la: nat, j: nat)
    requires KeptLevel(l2) && Ordered(l2, history) && j < L2_SETS
    ensures Orders(Vacated(l2, la)[j], WithoutLine(Victims(history, j), la, j))
  {
    hide Orders, Promote, Victims, Recency.Without;
    var s, t := l2[j], la / L2_SETS;
    if la % L2_SETS == j {
      match ProbeSkip(s, t)
      case Some(w) => PromoteOrders(s, Victims(history, j), w);
      case None =>
        OrdersMeaning(s, Victims(history, j));
        Recency.WithoutAbsent<nat>(Victims(history, j), t);
    }
  }

  /** The victim of `Fill` is the one the reference names. */
  lemma {:induction false} VictimIsEvicted(l1: Level, history: seq<nat>, la: nat, line: Line)
    requires Recent(l1, history) && ProbeStop(l1[la % L1_SETS], la / L1_SETS).None?
    ensures LevelShaped(l1, L1_SETS, L1_WAYS)
    ensures VictimOf(l1, la, line) == Evicted(history, la)
    ensures la / L1_SETS !in Recency.Run(Class(history, la % L1_SETS), L1_WAYS)
  {
    hide Holds, Install, Recency.Run, Class;
    var i := la % L1_SETS;
    var r := Recency.Run(Class(history, i), L1_WAYS);
    ProbeIsHeld(l1[i], r, la / L1_SETS);
    InstallStep(l1[i], r, la / L1_SETS, line);
  }

  lemma {:induction false} SentOrders(l2: Level, victim: Option<Way>, i: nat, j: nat, l: seq<nat>)
    requires LevelShaped(l2, L2_SETS, L2_WAYS) && i < L1_SETS && j < L2_SETS && Orders(l2[j], l)
    ensures var v := if victim.Some? then Some(victim.value.tag * L1_SETS + i) else None;
      Orders(SendVictim(l2, victim, i)[j], WithVictim(l, v, j))
  {
    hide Orders, Place, Recency.Take;
    if victim.Some? {
      var la := victim.value.tag * L1_SETS + i;
      if la % L2_SETS == j {
        PlaceOrders(l2[j], l, la / L2_SETS, victim.value.line);
      }
    }
  }

  /** A miss in L1. */
  lemma {:induction false} MissOrders(l1: Level, l2: Level, history: seq<nat>, la: nat, line: Line)
    requires Recent(l1, history) && KeptLevel(l2) && Ordered(l2, history)
    requires ProbeStop(l1[la % L1_SETS], la / L1_SETS).None?
    ensures LevelShaped(l1, L1_SETS, L1_WAYS)
    ensures Ordered(Fill(l1, Vacated(l2, la), la, line).1, history + [la])
  {
    hide Orders, Install, Victims, WithVictim, WithoutLine, Evicted, Vacated, SendVictim, Recency.Run, Class,
         Recent, KeptLevel;
    VictimIsEvicted(l1, history, la, line);
    var i := la % L1_SETS;
    var victim := Install(l1[i], la / L1_SETS, line).1;
    forall j | 0 <= j < L2_SETS
      ensures Orders(Fill(l1, Vacated(l2, la), la, line).1[j], Victims(history + [la], j))
    {
      VacatedOrders(l2, history, la, j);
      VictimsStep(history, la, j);
      SentOrders(Vacated(l2, la), victim, i, j, WithoutLine(Victims(history, j), la, j));
    }
  }

  lemma {:induction false} HitOrders(l1: Level, l2: Level, history: seq<nat>, la: nat)
    requires Recent(l1, history) && Ordered(l2, history) && ProbeStop(l1[la % L1_SETS], la / L1_SETS).Some?
    ensures Ordered(l2, history + [la])
  {
    hide Orders, Victims, Holds, Recency.Run, Class;
    ProbeIsHeld(l1[la % L1_SETS], Recency.Run(Class(history, la % L1_SETS), L1_WAYS), la / L1_SETS);
    forall j | 0 <= j < L2_SETS
      ensures Orders(l2[j], Victims(history + [la], j))
    {
      VictimsStep(history, la, j);
    }
  }

  lemma {:induction false} ReadOrders(st: State, history: seq<nat>, addr: nat)
    requires Inv(st, history) && InMemory(st.mem, addr) && Ordered(st.l2, history)
    ensures Shaped(st) && Ordered(Read(st, addr).1.l2, history + [LineOf(addr)])
  {
    hide Ordered, Recent, KeptLevel, Fill, Leave, AgeUpdate, MemLine, WordOf, Coherent, Exclusive;
    HitIsAt(st, history, LineOf(addr));
    var la := LineOf(addr);
    var j := la % L2_SETS;
    if ProbeStop(st.l1[la % L1_SETS], la / L1_SETS).Some? {
      HitOrders(st.l1, st.l2, history, la);
    } else {
      var p := ProbeSkip(st.l2[j], la / L2_SETS);
      var line := if p.Some? then st.l2[j][p.value].line else MemLine(st.mem, la);
      MissOrders(st.l1, st.l2, history, la, line);
    }
  }

  lemma {:induction false} WriteOrders(st: State, history: seq<nat>, addr: nat, word: Word)
    requires Inv(st, history) && InMemory(st.mem, addr) && Ordered(st.l2, history)
    ensures Shaped(st) && Ordered(Write(st, addr, word).l2, history + [LineOf(addr)])
  {
    hide Ordered, Recent, KeptLevel, Fill, Leave, Rewrite, MemLine, PutWord, Splice, Coherent, Exclusive;
    HitIsAt(st, history, LineOf(addr));
    var la := LineOf(addr);
    var j := la % L2_SETS;
    if ProbeStop(st.l1[la % L1_SETS], la / L1_SETS).Some? {
      HitOrders(st.l1, st.l2, history, la);
    } else {
      var p := ProbeSkip(st.l2[j], la / L2_SETS);
      var line := PutWord(if p.Some? then st.l2[j][p.value].line else MemLine(st.mem, la), addr, word);
      MissOrders(st.l1, st.l2, history, la, line);
    }
  }

  lemma {:induction false} StepOrders(st: State, history: seq<nat>, op: Op)
    requires Inv(st, history) && InMemory(st.mem, op.addr) && Ordered(st.l2, history)
    ensures Shaped(st) && Ordered(CacheStep(st, op).1.l2, history + LinesOf(op))
  {
    hide Inv, Read, Write, Ordered, FlatRead;
    ReadStep(st, history, op.addr);
    ReadOrders(st, history, op.addr);
    match op
    case GetWord(_) =>
    case PutWordAt(addr, word) => WriteOrders(st, history, addr, word);
    case GetByte(_) =>
    case PutByteAt(addr, byte) =>
      var la := LineOf(addr);
      var (word, st') := Read(st, addr);
      WriteOrders(st', history + [la], addr, word[addr % 4 := byte]);
      assert history + [la] + [la] == history + LinesOf(op);
  }

  lemma {:induction false} FlushedOrdered(mem: seq<Byte>)
    ensures Ordered(Flushed(mem).l2, [])
  {
    FlushedOrders(L2_WAYS);
  }

  /** L2 is LRU by eviction from L1: in every reachable state the lines of each of its
      sets, from the least age to the greatest, are the victims of L1 that have not come
      back, the last one first, and no more than eight. */
  lemma {:induction false} L2KeepsTheLastVictims(mem: seq<Byte>, ops: seq<Op>)
    requires AllInMemory(ops, |mem|)
    ensures Ordered(CacheRun(Flushed(mem), ops).1.l2, History(ops))
  {
    hide Inv, CacheStep, FlatStep, Flushed, Shaped, LinesOf, Ordered;
    if ops == [] {
      FlushedOrdered(mem);
    } else {
      var before, op := ops[..|ops| - 1], ops[|ops| - 1];
      RunInv(mem, before);
      L2KeepsTheLastVictims(mem, before);
      StepOrders(CacheRun(Flushed(mem), before).1, History(before), op);
    }
  }

  // ----- the list is in the order of the evictions

  /** The number of accesses up to the one that last evicted line `x`. */
  ghost function LastEviction(history: seq<nat>, x: nat): (n: nat)
    ensures n <= |history|
  {
    if history == [] then 0
    else
      var before, la := history[..|history| - 1], history[|history| - 1];
      if Evicted(before, la) == Some(x) then |history| else LastEviction(before, x)
  }

  /** The later a line was evicted, the further in front it stands. */
  ghost predicate ByEviction(history: seq<nat>, l: seq<nat>, j: nat)
  {
    forall a, b :: 0 <= a < b < |l| ==>
      LastEviction(history, l[a] * L2_SETS + j) > LastEviction(history, l[b] * L2_SETS + j)
  }

  /** A line in the list of victims is not among the last four of its class. */
  lemma {:induction false} VictimsAreOut(history: seq<nat>, x: nat)
    requires x / L2_SETS in Victims(history, x % L2_SETS)
    ensures x / L1_SETS !in Recency.Run(Class(history, x % L1_SETS), L1_WAYS)
  {
    hide Class, Evicted, Recency.Run;
    if history != [] {
      var before, la := history[..|history| - 1], history[|history| - 1];
      assert history == before + [la];
      VictimsStep(before, la, x % L2_SETS);
      ClassStep(before, la, x % L1_SETS);
      AccessDrops(before, la, x);
      if x / L2_SETS in Victims(before, x % L2_SETS) {
        VictimsAreOut(before, x);
      }
      OnlyTheVictimEnters(before, la, x);
    }
  }

  /** How the lines of an LRU buffer change: only `la` enters, and the victim leaves. */
  lemma {:induction false} AccessDrops(before: seq<nat>, la: nat, x: nat)
    ensures x != la && x / L1_SETS in Recency.Run(Class(before + [la], x % L1_SETS), L1_WAYS) ==>
              x / L1_SETS in Recency.Run(Class(before, x % L1_SETS), L1_WAYS)
    ensures Evicted(before, la) == Some(x) ==>
              x != la && x / L1_SETS !in Recency.Run(Class(before + [la], x % L1_SETS), L1_WAYS)
  {
    hide Class, Recency.Run, Recency.Access;
    var i := la % L1_SETS;
    var tag, r := la / L1_SETS, Recency.Run(Class(before, la % L1_SETS), L1_WAYS);
    ClassStep(before, la, x % L1_SETS);
    Recency.RunAppend<nat>(Class(before, i), tag, L1_WAYS);
    OnlyTheTagEnters(r, tag, x / L1_SETS);
    if x % L1_SETS == i && x / L1_SETS == tag {
      SameName(x, la, L1_SETS);
    }
    if Evicted(before, la) == Some(x) {
      LineOfName(r[L1_WAYS - 1], i, L1_SETS);
      Recency.RunIsMostRecent(Class(before, i), L1_WAYS);
      FifthIsLast(r, tag);
    }
  }

  lemma {:induction false} OnlyTheTagEnters(r: seq<nat>, tag: nat, t: nat)
    ensures t in Recency.Access<nat>(r, tag, L1_WAYS) ==> t == tag || t in r
  {
  }

  lemma {:induction false} FifthIsLast(r: seq<nat>, tag: nat)
    requires |r| == L1_WAYS && tag !in r && Recency.NoRepeats(r)
    ensures r[L1_WAYS - 1] !in Recency.Access<nat>(r, tag, L1_WAYS)
  {
    Recency.WithoutAbsent(r, tag);
    assert Recency.Access<nat>(r, tag, L1_WAYS) == [tag] + r[..L1_WAYS - 1];
  }

  lemma {:induction false} OnlyTheVictimEnters(before: seq<nat>, la: nat, x: nat)
    requires x / L2_SETS in Victims(before + [la], x % L2_SETS)
    ensures x / L2_SETS in Victims(before, x % L2_SETS) || Evicted(before, la) == Some(x)
    ensures x == la ==>
              x / L1_SETS in Recency.Run(Class(before, x % L1_SETS), L1_WAYS) || Evicted(before, la) == Some(x)
  {
    hide Class, Evicted, Recency.Run, Victims;
    VictimsStep(before, la, x % L2_SETS);
    var v := Evicted(before, la);
    if v.Some? && v.value % L2_SETS == x % L2_SETS && v.value / L2_SETS == x / L2_SETS {
      SameName(v.value, x, L2_SETS);
    }
  }

  /** The list is in the order of evictions, last first. */
  lemma {:induction false} VictimsByEviction(history: seq<nat>, j: nat)
    requires j < L2_SETS
    ensures ByEviction(history, Victims(history, j), j)
  {
    hide Class, Evicted, Recency.Run;
    if history == [] {
      assert Victims(history, j) == [];
    } else {
      var before, la := history[..|history| - 1], history[|history| - 1];
      assert history == before + [la];
      var l := Victims(before, j);
      VictimsByEviction(before, j);
      VictimsStep(before, la, j);
      VictimIsNew(before, la, j);
      RemovedByEviction(before, l, la, j);
      if la / L1_SETS in Recency.Run(Class(before, la % L1_SETS), L1_WAYS) {
        HitEvictsNothing(before, la);
        LaterEviction(before, la, l, None, j);
      } else {
        LaterEviction(before, la, WithoutLine(l, la, j), Evicted(before, la), j);
      }
    }
  }

  lemma {:induction false} HitEvictsNothing(before: seq<nat>, la: nat)
    requires la / L1_SETS in Recency.Run(Class(before, la % L1_SETS), L1_WAYS)
    ensures Evicted(before, la) == None
  {
  }

  /** What L1 evicts was in L1, so it is not in the list yet. */
  lemma {:induction false} VictimIsNew(before: seq<nat>, la: nat, j: nat)
    ensures Evicted(before, la).Some? && Evicted(before, la).value % L2_SETS == j ==>
              Evicted(before, la).value / L2_SETS !in Victims(before, j)
  {
    hide Class, Recency.Run, Victims;
    if Evicted(before, la).Some? {
      var v := Evicted(before, la).value;
      var r := Recency.Run(Class(before, la % L1_SETS), L1_WAYS);
      LineOfName(r[L1_WAYS - 1], la % L1_SETS, L1_SETS);
      Recency.RunIsMostRecent(Class(before, la % L1_SETS), L1_WAYS);
      if v / L2_SETS in Victims(before, v % L2_SETS) {
        VictimsAreOut(before, v);
      }
    }
  }

  lemma {:induction false} RemovedByEviction(history: seq<nat>, l: seq<nat>, la: nat, j: nat)
    requires ByEviction(history, l, j)
    ensures ByEviction(history, WithoutLine(l, la, j), j)
  {
    hide LastEviction, Recency.Without;
    assert Recency.NoRepeats(l);
    if la % L2_SETS == j {
      var t := la / L2_SETS;
      if t in l {
        var k :| 0 <= k < |l| && l[k] == t;
        Recency.WithoutAt(l, k);
      } else {
        Recency.WithoutAbsent<nat>(l, t);
      }
    }
  }

  /** One access later: the victim, if it belongs to the set, is the last one evicted. */
  lemma {:induction false} LaterEviction(before: seq<nat>, la: nat, l: seq<nat>, victim: Option<nat>, j: nat)
    requires ByEviction(before, l, j) && victim == Evicted(before, la) && j < L2_SETS
    requires victim.Some? && victim.value % L2_SETS == j ==> victim.value / L2_SETS !in l
    ensures ByEviction(before + [la], WithVictim(l, victim, j), j)
  {
    hide Evicted;
    assert (before + [la])[..|before|] == before;
    forall a | 0 <= a < |l|
      ensures LastEviction(before + [la], l[a] * L2_SETS + j) == LastEviction(before, l[a] * L2_SETS + j)
    {
      LineOfName(l[a], j, L2_SETS);
    }
    if victim.Some? && victim.value % L2_SETS == j {
      Divided(victim.value, L2_SETS);
      assert LastEviction(before + [la], victim.value / L2_SETS * L2_SETS + j) == |before| + 1;
    }
  }

  /** The line that L2 drops in any access, from any reachable state, is the one of its set
      that L1 evicted earliest. */
  lemma {:induction false} DroppedIsEarliest(st: State, history: seq<nat>, addr: nat, st': State, d: nat, x: nat)
    requires Inv(st, history) && Ordered(st.l2, history) && InMemory(st.mem, addr) && Shaped(st)
    requires st' == Read(st, addr).1 || exists word :: st' == Write(st, addr, word)
    requires InL2(st, d) && !InL2(st', d) && d != LineOf(addr)
    requires InL2(st, x) && x % L2_SETS == d % L2_SETS && x != d
    ensures LastEviction(history, x) > LastEviction(history, d)
  {
    hide Read, Write, Ordered, LastEviction, Inv, At, KeptLevel;
    var la := LineOf(addr);
    if st' == Read(st, addr).1 {
      ReadStep(st, history, addr);
      ReadOrders(st, history, addr);
    } else {
      var word :| st' == Write(st, addr, word);
      WriteStep(st, history, addr, word);
      WriteOrders(st, history, addr, word);
    }
    KeptAfter(st, history, st', history + [la]);
    HeldIsListed(st.l2, history, d);
    HeldIsListed(st.l2, history, x);
    HeldIsListed(st'.l2, history + [la], d);
    LostIsEarliest(history, la, d, x);
  }

  lemma {:induction false} KeptAfter(st: State, history: seq<nat>, st': State, history': seq<nat>)
    requires Inv(st, history) && Inv(st', history')
    ensures KeptLevel(st.l2) && KeptLevel(st'.l2)
  {
  }

  /** L2 holds exactly the lines listed. */
  lemma {:induction false} HeldIsListed(l2: Level, history: seq<nat>, x: nat)
    requires KeptLevel(l2) && Ordered(l2, history)
    ensures |l2| == L2_SETS
    ensures At(l2, x).Some? <==> x / L2_SETS in Victims(history, x % L2_SETS)
    ensures |Victims(history, x % L2_SETS)| <= L2_WAYS
  {
    hide Orders, Victims;
    OrdersMeaning(l2[x % L2_SETS], Victims(history, x % L2_SETS));
  }

  /** The line that a miss takes from the list is the one evicted earliest. */
  lemma {:induction false} LostIsEarliest(history: seq<nat>, la: nat, d: nat, x: nat)
    requires var l := Victims(history, d % L2_SETS);
      |l| <= L2_WAYS && d / L2_SETS in l && x / L2_SETS in l
    requires d / L2_SETS !in Victims(history + [la], d % L2_SETS)
    requires d != la && x % L2_SETS == d % L2_SETS && x != d
    ensures LastEviction(history, x) > LastEviction(history, d)
  {
    hide LastEviction, Victims, WithVictim, WithoutLine, Class, Evicted, Recency.Run;
    var j := d % L2_SETS;
    var l := Victims(history, j);
    VictimsByEviction(history, j);
    VictimsStep(history, la, j);
    LostIsLast(l, la, Evicted(history, la), j, d);
    OtherTag(x, d);
    Divided(d, L2_SETS);
    Divided(x, L2_SETS);
    var a :| 0 <= a < |l| && l[a] == x / L2_SETS;
    assert LastEviction(history, l[a] * L2_SETS + j) > LastEviction(history, l[|l| - 1] * L2_SETS + j);
  }

  /** What `WithVictim` loses is the end of the list. */
  lemma {:induction false} LostIsLast(l: seq<nat>, la: nat, victim: Option<nat>, j: nat, d: nat)
    requires |l| <= L2_WAYS && d / L2_SETS in l && d != la && d % L2_SETS == j < L2_SETS
    requires d / L2_SETS !in WithVictim(WithoutLine(l, la, j), victim, j)
    ensures l[|l| - 1] == d / L2_SETS
  {
    hide Recency.Without;
    if la % L2_SETS == j {
      OtherTag(la, d);
    }
    var l1 := WithoutLine(l, la, j);
    EndIsLost(l1, if victim.Some? then victim.value / L2_SETS else 0, d / L2_SETS);
    WithoutSameLength(l, la / L2_SETS);
  }

  lemma {:induction false} OtherTag(x: nat, y: nat)
    requires x != y && x % L2_SETS == y % L2_SETS
    ensures x / L2_SETS != y / L2_SETS
  {
    Divided(x, L2_SETS);
    Divided(y, L2_SETS);
  }

  lemma {:induction false} EndIsLost(l: seq<nat>, v: nat, t: nat)
    requires |l| <= L2_WAYS && t in l && t !in Recency.Take<nat>([v] + l, L2_WAYS)
    ensures |l| == L2_WAYS && l[L2_WAYS - 1] == t
  {
    var kept := Recency.Take<nat>([v] + l, L2_WAYS);
    forall k | 0 <= k < |l| && k < L2_WAYS - 1
      ensures l[k] in kept
    {
      assert kept[k + 1] == l[k];
    }
  }

  lemma {:induction false} WithoutSameLength(l: seq<nat>, t: nat)
    ensures |Recency.Without(l, t)| == |l| ==> Recency.Without(l, t) == l
  {
    if l != [] {
      WithoutSameLength(l[1..], t);
    }
  }
}
