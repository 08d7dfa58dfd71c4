/** Whole runs of the exclusive cache from flushed levels: nothing but speed
    distinguishes it from the flat memory behind it. */
module ExclusiveRuns {
  import opened Bytes
  import opened Outcomes
  import opened LineNames
  import opened FlatMemory
  import opened AgeSets
  import opened SetLookup
  import opened VictimSets
  import opened ExclusiveSpec
  import Recency

  ghost function CacheStep(st: State, op: Op): (r: (Out, State))
    requires Shaped(st) && InMemory(st.mem, op.addr)
    ensures Shaped(r.1) && |r.1.mem| == |st.mem|
  {
    match op
    case GetWord(addr) => var (word, st') := Read(st, addr); (GotWord(word), st')
    case PutWordAt(addr, word) => (Done, Write(st, addr, word))
    case GetByte(addr) => var (byte, st') := ReadByte(st, addr); (GotByte(byte), st')
    case PutByteAt(addr, byte) => (Done, WriteByte(st, addr, byte))
  }

  /** One operation. */
  lemma {:induction false} StepIsFlat(st: State, history: seq<nat>, op: Op)
    requires Inv(st, history) && InMemory(st.mem, op.addr)
    ensures Shaped(st)
    ensures var (out, st') := CacheStep(st, op);
      && (out, st'.mem) == FlatStep(st.mem, op)
      && Inv(st', history + LinesOf(op))
  {
    hide Inv, Read, Write, FlatRead, FlatWrite;
    ByteInWord(st.mem, op.addr, if op.PutByteAt? then op.byte else 0);
    ReadStep(st, history, op.addr);
    match op
    case GetWord(_) =>
    case PutWordAt(addr, word) => WriteStep(st, history, addr, word);
    case GetByte(_) =>
    case PutByteAt(addr, byte) =>
      var la := LineOf(addr);
      var (word, st') := Read(st, addr);
      WriteStep(st', history + [la], addr, word[addr % 4 := byte]);
      assert history + [la] + [la] == history + LinesOf(op);
  }

  ghost function CacheRun(st: State, ops: seq<Op>): (r: (seq<Out>, State))
    requires Shaped(st) && AllInMemory(ops, |st.mem|)
    ensures Shaped(r.1) && |r.1.mem| == |st.mem|
  {
    if ops == [] then ([], st)
    else
      var (outs, mid) := CacheRun(st, ops[..|ops| - 1]);
      var (out, end) := CacheStep(mid, ops[|ops| - 1]);
      (outs + [out], end)
  }

  lemma {:induction false} FlushedInv(mem: seq<Byte>)
    ensures Inv(Flushed(mem), [])
  {
    AgeSets.FlushedHolds(L1_WAYS);
    FlushedKept(L2_WAYS);
    forall la: nat
      ensures At(Flushed(mem).l1, la).None? && At(Flushed(mem).l2, la).None?
    {
    }
  }

  lemma {:induction false} RunInv(mem: seq<Byte>, ops: seq<Op>)
    requires AllInMemory(ops, |mem|)
    ensures CacheRun(Flushed(mem), ops).0 == FlatRun(mem, ops).0
    ensures CacheRun(Flushed(mem), ops).1.mem == FlatRun(mem, ops).1
    ensures Inv(CacheRun(Flushed(mem), ops).1, History(ops))
  {
    hide Inv, CacheStep, FlatStep, Flushed, Shaped, LinesOf;
    FlushedInv(mem);
    InvShaped(Flushed(mem), []);
    if ops != [] {
      var before, op := ops[..|ops| - 1], ops[|ops| - 1];
      RunInv(mem, before);
      StepIsFlat(CacheRun(Flushed(mem), before).1, History(before), op);
    }
  }

  lemma InvShaped(st: State, history: seq<nat>)
    requires Inv(st, history)
    ensures Shaped(st)
  {
  }

  /** Transparency: over every run of word and byte accesses, every value read is
      that of the flat memory, and the memory behind the caches is the flat memory. */
  lemma CacheIsTransparent(mem: seq<Byte>, ops: seq<Op>)
    requires AllInMemory(ops, |mem|)
    ensures var (outs, st) := CacheRun(Flushed(mem), ops);
      (outs, st.mem) == FlatRun(mem, ops)
  {
    RunInv(mem, ops);
  }

  /** Exclusion: in every reachable state no line is valid in both levels, and no
      set holds a line twice. */
  lemma {:induction false} LevelsAreExclusive(mem: seq<Byte>, ops: seq<Op>)
    requires AllInMemory(ops, |mem|)
    ensures var st := CacheRun(Flushed(mem), ops).1;
      && (forall i, w, j, x :: 0 <= i < L1_SETS && 0 <= w < L1_WAYS && 0 <= j < L2_SETS && 0 <= x < L2_WAYS ==>
            !(st.l1[i][w].v && st.l2[j][x].v && st.l1[i][w].tag * L1_SETS + i == st.l2[j][x].tag * L2_SETS + j))
      && (forall i :: 0 <= i < L1_SETS ==> Distinct(st.l1[i]))
      && (forall j :: 0 <= j < L2_SETS ==> Distinct(st.l2[j]))
  {
    hide CacheRun, Flushed, Distinct, History, Inv;
    RunInv(mem, ops);
    var st := CacheRun(Flushed(mem), ops).1;
    ReachableDistinct(st, History(ops));
    forall i, w, j, x | 0 <= i < L1_SETS && 0 <= w < L1_WAYS && 0 <= j < L2_SETS && 0 <= x < L2_WAYS
        && st.l1[i][w].v && st.l2[j][x].v
      ensures st.l1[i][w].tag * L1_SETS + i != st.l2[j][x].tag * L2_SETS + j
    {
      ValidInOneLevel(st, History(ops), i, w, j, x);
    }
  }

  lemma {:induction false} ValidInOneLevel(st: State, history: seq<nat>, i: nat, w: nat, j: nat, x: nat)
    requires Inv(st, history) && Shaped(st)
    requires i < L1_SETS && w < L1_WAYS && j < L2_SETS && x < L2_WAYS && st.l1[i][w].v && st.l2[j][x].v
    ensures st.l1[i][w].tag * L1_SETS + i != st.l2[j][x].tag * L2_SETS + j
  {
    hide Holds, Kept, Distinct, Recent, KeptLevel, At, Coherent;
    ReachableDistinct(st, history);
    ValidIsAt(st.l1, i, w);
    ValidIsAt(st.l2, j, x);
  }

  lemma ReachableDistinct(st: State, history: seq<nat>)
    requires Inv(st, history)
    ensures forall i :: 0 <= i < L1_SETS ==> Distinct(st.l1[i])
    ensures forall j :: 0 <= j < L2_SETS ==> Distinct(st.l2[j])
  {
    hide Holds, Distinct;
    forall i | 0 <= i < L1_SETS
      ensures Distinct(st.l1[i])
    {
      HoldsDistinct(st.l1[i], Recency.Run(Class(history, i), L1_WAYS));
    }
  }

  lemma ValidIsAt(level: Level, i: nat, w: nat)
    requires i < |level| && w < |level[i]| && level[i][w].v && Distinct(level[i])
    ensures At(level, level[i][w].tag * |level| + i) == Some(level[i][w].line)
  {
    LineOfName(level[i][w].tag, i, |level|);
    FindValid(level[i], w);
  }

  /** L1 is LRU: in every reachable state each of its sets holds exactly the four
      lines of its class used last, and the age of a line is its rank among them. */
  lemma {:induction false} L1HoldsTheLastFour(mem: seq<Byte>, ops: seq<Op>, i: nat)
    requires AllInMemory(ops, |mem|) && i < L1_SETS
    ensures Holds(CacheRun(Flushed(mem), ops).1.l1[i],
                  Recency.Take(Recency.MostRecent(Class(History(ops), i)), L1_WAYS))
  {
    hide CacheRun, Flushed, History, Holds;
    RunInv(mem, ops);
    Recency.RunIsMostRecent(Class(History(ops), i), L1_WAYS);
  }

  /** The bit fields suffice: in every reachable state, with at most 4 GiB of memory,
      all entries, used or not, have ages of 2 bits in L1 and 3 bits in L2, and valid
      entries have tags of 22 bits in L1 and 19 bits in L2. */
  lemma {:induction false} FieldsFit(mem: seq<Byte>, ops: seq<Op>)
    requires AllInMemory(ops, |mem|) && |mem| <= 0x1_0000_0000
    ensures var st := CacheRun(Flushed(mem), ops).1;
      && (forall i, w :: 0 <= i < L1_SETS && 0 <= w < L1_WAYS ==>
            st.l1[i][w].age < 4 && (st.l1[i][w].v ==> st.l1[i][w].tag < 0x40_0000))
      && (forall j, x :: 0 <= j < L2_SETS && 0 <= x < L2_WAYS ==>
            st.l2[j][x].age < 8 && (st.l2[j][x].v ==> st.l2[j][x].tag < 0x8_0000))
  {
    hide CacheRun, Flushed, History;
    RunInv(mem, ops);
    var st, history := CacheRun(Flushed(mem), ops).1, History(ops);
    ReachableDistinct(st, history);
    forall i, w | 0 <= i < L1_SETS && 0 <= w < L1_WAYS
      ensures st.l1[i][w].age < 4 && (st.l1[i][w].v ==> st.l1[i][w].tag < 0x40_0000)
    {
      HoldsMeaning(st.l1[i], Recency.Run(Class(history, i), L1_WAYS));
      if st.l1[i][w].v {
        ValidIsAt(st.l1, i, w);
      }
    }
    forall j, x | 0 <= j < L2_SETS && 0 <= x < L2_WAYS
      ensures st.l2[j][x].age < 8 && (st.l2[j][x].v ==> st.l2[j][x].tag < 0x8_0000)
    {
      KeptMeaning(st.l2[j]);
      if st.l2[j][x].v {
        ValidIsAt(st.l2, j, x);
      }
    }
  }
}
