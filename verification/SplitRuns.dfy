/** Whole runs of an instruction cache and a data cache over one L2. */
module SplitRuns {
  import opened Bytes
  import opened LineNames
  import opened FlatMemory
  import opened AgeSets
  import opened ExclusiveSpec
  import opened ExclusiveRuns
  import opened SplitSpec
  import Recency

  datatype Split = Split(icache: Level, dcache: Level, l2: Level, mem: seq<Byte>)

  ghost predicate SplitShaped(sp: Split)
  {
    && LevelShaped(sp.icache, L1_SETS, L1_WAYS)
    && LevelShaped(sp.dcache, L1_SETS, L1_WAYS)
    && LevelShaped(sp.l2, L2_SETS, L2_WAYS)
  }

  ghost function FlushedSplit(mem: seq<Byte>): (sp: Split)
    ensures SplitShaped(sp) && sp.mem == mem
  {
    Split(Flushed(mem).l1, Flushed(mem).l1, Flushed(mem).l2, mem)
  }

  predicate Gets(op: Op)
  {
    op.GetWord? || op.GetByte?
  }

  /** A call, for an instruction or for data; only reads go to the instruction cache. */
  datatype Request = Request(instruction: bool, op: Op)

  predicate Fetches(q: Request)
  {
    q.instruction && Gets(q.op)
  }

  ghost function SplitStep(sp: Split, q: Request): (r: (Out, Split))
    requires SplitShaped(sp) && InMemory(sp.mem, q.op.addr)
    ensures SplitShaped(r.1) && |r.1.mem| == |sp.mem|
  {
    if Fetches(q) then
      var (out, st) := CacheStep(State(sp.icache, sp.l2, sp.mem), q.op);
      (out, Split(st.l1, sp.dcache, st.l2, st.mem))
    else
      var (out, st) := CacheStep(State(sp.dcache, sp.l2, sp.mem), q.op);
      (out, Split(sp.icache, st.l1, st.l2, st.mem))
  }

  /** What holds as long as no line `written` is fetched and no other line is written:
      both L1 caches are LRU, and the instruction cache holds no line `written`. */
  ghost predicate SplitInv(sp: Split, fetched: seq<nat>, used: seq<nat>, written: set<nat>)
  {
    && Half(State(sp.icache, sp.l2, sp.mem), fetched, written)
    && Half(State(sp.dcache, sp.l2, sp.mem), used, written)
    && forall x :: x in written ==> At(sp.icache, x).None?
  }

  /** The request fetches no line `written` and writes no other. */
  ghost predicate Allowed(q: Request, written: set<nat>)
  {
    match q.op
    case GetWord(addr) => q.instruction ==> LineOf(addr) !in written
    case GetByte(addr) => q.instruction ==> LineOf(addr) !in written
    case PutWordAt(addr, _) => LineOf(addr) in written
    case PutByteAt(addr, _) => LineOf(addr) in written
  }

  /** An instruction read leaves the data cache alone, and every other call the instruction
      cache. */
  lemma {:induction false} OtherCacheStays(sp: Split, q: Request)
    requires SplitShaped(sp) && InMemory(sp.mem, q.op.addr)
    ensures q.instruction && (q.op.GetWord? || q.op.GetByte?) ==> SplitStep(sp, q).1.dcache == sp.dcache
    ensures !q.instruction || q.op.PutWordAt? || q.op.PutByteAt? ==> SplitStep(sp, q).1.icache == sp.icache
  {
    hide CacheStep;
  }

  /** To its own cache, L2 and memory a call does what it does in a machine with one L1. */
  lemma {:induction false} OwnCacheIsOneL1(sp: Split, q: Request)
    requires SplitShaped(sp) && InMemory(sp.mem, q.op.addr)
    ensures var (out, sp') := SplitStep(sp, q);
      if q.instruction && (q.op.GetWord? || q.op.GetByte?) then
        (out, State(sp'.icache, sp'.l2, sp'.mem)) == CacheStep(State(sp.icache, sp.l2, sp.mem), q.op)
      else
        (out, State(sp'.dcache, sp'.l2, sp'.mem)) == CacheStep(State(sp.dcache, sp.l2, sp.mem), q.op)
  {
    hide CacheStep;
  }

  /** One call on one L1 and L2. */
  lemma {:induction false} StepHalf(st: State, history: seq<nat>, written: set<nat>, op: Op)
    requires Half(st, history, written) && InMemory(st.mem, op.addr) && (Gets(op) || LineOf(op.addr) in written)
    ensures Shaped(st)
    ensures var (out, st') := CacheStep(st, op);
      && (out, st'.mem) == FlatStep(st.mem, op)
      && Half(st', history + LinesOf(op), written)
      && Spread(st, st', LineOf(op.addr))
  {
    hide Half, Read, Write, FlatRead, FlatWrite, At;
    ByteInWord(st.mem, op.addr, if op.PutByteAt? then op.byte else 0);
    ReadHalf(st, history, written, op.addr);
    match op
    case GetWord(_) =>
    case PutWordAt(addr, word) => WriteHalf(st, history, written, addr, word);
    case GetByte(_) =>
    case PutByteAt(addr, byte) =>
      var la := LineOf(addr);
      var (word, st') := Read(st, addr);
      WriteHalf(st', history + [la], written, addr, word[addr % 4 := byte]);
      assert history + [la] + [la] == history + LinesOf(op);
  }

  /** A level that does not hold the line of a call stays coherent. */
  lemma {:induction false} CoherentAfterCall(level: Level, mem: seq<Byte>, op: Op)
    requires |level| > 0 && Coherent(level, mem) && InMemory(mem, op.addr)
    requires Gets(op) || At(level, LineOf(op.addr)).None?
    ensures Coherent(level, FlatStep(mem, op).1)
  {
    hide Coherent, At, FlatRead, FlatWrite;
    match op
    case GetWord(_) =>
    case GetByte(_) =>
    case PutWordAt(addr, word) => CoherentAfterWrite(level, mem, addr, word);
    case PutByteAt(addr, byte) =>
      ByteInWord(mem, addr, byte);
      CoherentAfterWrite(level, mem, addr, FlatRead(mem, addr)[addr % 4 := byte]);
  }

  /** One request: flat memory, and the invariant again. */
  lemma {:induction false} SplitStepIsFlat(sp: Split, fetched: seq<nat>, used: seq<nat>, written: set<nat>, q: Request)
    returns (fetched': seq<nat>, used': seq<nat>)
    requires SplitInv(sp, fetched, used, written) && InMemory(sp.mem, q.op.addr) && Allowed(q, written)
    ensures SplitShaped(sp)
    ensures var (out, sp') := SplitStep(sp, q);
      && (out, sp'.mem) == FlatStep(sp.mem, q.op)
      && SplitInv(sp', fetched', used', written)
    ensures fetched' == if Fetches(q) then fetched + LinesOf(q.op) else fetched
    ensures used' == if Fetches(q) then used else used + LinesOf(q.op)
  {
    hide Recent, Coherent, Clean, Once, At, CacheStep, FlatStep;
    SplitMeans(sp, fetched, used, written);
    fetched', used' := fetched, used;
    if Fetches(q) {
      fetched' := fetched + LinesOf(q.op);
      StepHalf(State(sp.icache, sp.l2, sp.mem), fetched, written, q.op);
      CoherentAfterCall(sp.dcache, sp.mem, q.op);
    } else {
      used' := used + LinesOf(q.op);
      StepHalf(State(sp.dcache, sp.l2, sp.mem), used, written, q.op);
      CoherentAfterCall(sp.icache, sp.mem, q.op);
    }
  }

  lemma {:induction false} SplitMeans(sp: Split, fetched: seq<nat>, used: seq<nat>, written: set<nat>)
    requires SplitInv(sp, fetched, used, written)
    ensures SplitShaped(sp)
    ensures Coherent(sp.icache, sp.mem) && Coherent(sp.dcache, sp.mem)
  {
  }

  lemma {:induction false} FlushedSplitInv(mem: seq<Byte>, written: set<nat>)
    ensures SplitInv(FlushedSplit(mem), [], [], written)
  {
    FlushedHolds(L1_WAYS);
    var st := Flushed(mem);
    forall la: nat
      ensures At(st.l1, la).None? && At(st.l2, la).None?
    {
    }
  }

  // ----- runs

  function Ops(qs: seq<Request>): (ops: seq<Op>)
    ensures |ops| == |qs|
    ensures forall i :: 0 <= i < |qs| ==> ops[i] == qs[i].op
  {
    seq(|qs|, i requires 0 <= i < |qs| => qs[i].op)
  }

  ghost function SplitRun(sp: Split, qs: seq<Request>): (r: (seq<Out>, Split))
    requires SplitShaped(sp) && AllInMemory(Ops(qs), |sp.mem|)
    ensures SplitShaped(r.1) && |r.1.mem| == |sp.mem|
  {
    if qs == [] then ([], sp)
    else
      PrefixOps(qs);
      var (outs, mid) := SplitRun(sp, qs[..|qs| - 1]);
      var (out, end) := SplitStep(mid, qs[|qs| - 1]);
      (outs + [out], end)
  }

  lemma PrefixOps(qs: seq<Request>)
    requires qs != []
    ensures Ops(qs[..|qs| - 1]) == Ops(qs)[..|qs| - 1]
    ensures forall op :: op in Ops(qs[..|qs| - 1]) ==> op in Ops(qs)
    ensures qs[|qs| - 1].op == Ops(qs)[|qs| - 1]
  {
  }

  lemma {:induction false} OneMore(sp: Split, qs: seq<Request>, q: Request, outs: seq<Out>, mid: Split,
      qs': seq<Request>)
    requires SplitShaped(sp) && AllInMemory(Ops(qs), |sp.mem|) && InMemory(sp.mem, q.op.addr)
    requires SplitRun(sp, qs) == (outs, mid) && qs' == qs + [q]
    ensures AllInMemory(Ops(qs'), |sp.mem|) && SplitShaped(mid) && |mid.mem| == |sp.mem|
    ensures SplitRun(sp, qs') == (outs + [SplitStep(mid, q).0], SplitStep(mid, q).1)
  {
    hide SplitStep, SplitShaped;
    assert qs'[..|qs|] == qs;
    assert Ops(qs') == Ops(qs) + [q.op];
  }

  /** No request of the run reads as an instruction a line that some request writes. */
  ghost predicate Separate(qs: seq<Request>)
  {
    forall q, p :: q in qs && p in qs && q.instruction && (q.op.GetWord? || q.op.GetByte?) &&
                   (p.op.PutWordAt? || p.op.PutByteAt?) ==>
      LineOf(q.op.addr) != LineOf(p.op.addr)
  }

  /** The lines that a run writes. */
  ghost function LinesWritten(qs: seq<Request>): set<nat>
  {
    set q | q in qs && (q.op.PutWordAt? || q.op.PutByteAt?) :: LineOf(q.op.addr)
  }

  lemma {:induction false} SeparateAllowed(qs: seq<Request>, q: Request)
    requires q in qs && (Separate(qs) || forall p :: p in qs ==> !p.instruction)
    ensures Allowed(q, LinesWritten(qs))
  {
  }

  /** The lines that the instruction reads of a run access, or all its other calls. */
  ghost function Touched(qs: seq<Request>, instruction: bool): seq<nat>
  {
    if qs == [] then []
    else
      var q := qs[|qs| - 1];
      Touched(qs[..|qs| - 1], instruction) +
      if (q.instruction && (q.op.GetWord? || q.op.GetByte?)) == instruction then LinesOf(q.op) else []
  }

  lemma {:induction false} SplitRunHolds(mem: seq<Byte>, qs: seq<Request>, written: set<nat>)
    returns (fetched: seq<nat>, used: seq<nat>)
    requires AllInMemory(Ops(qs), |mem|) && forall q :: q in qs ==> Allowed(q, written)
    ensures fetched == Touched(qs, true) && used == Touched(qs, false)
    ensures SplitRun(FlushedSplit(mem), qs).0 == FlatRun(mem, Ops(qs)).0
    ensures SplitRun(FlushedSplit(mem), qs).1.mem == FlatRun(mem, Ops(qs)).1
    ensures SplitInv(SplitRun(FlushedSplit(mem), qs).1, fetched, used, written)
  {
    hide SplitInv, SplitStep, FlatStep, FlushedSplit, SplitShaped, Allowed, SplitRun, FlatRun, Touched, Ops;
    if qs == [] {
      fetched, used := [], [];
      FlushedSplitInv(mem, written);
      NoRequests(mem);
    } else {
      var before, q := qs[..|qs| - 1], qs[|qs| - 1];
      PrefixOps(qs);
      fetched, used := SplitRunHolds(mem, before, written);
      var (outs, mid) := SplitRun(FlushedSplit(mem), before);
      TouchedStep(qs);
      LastOp(qs, |mem|);
      OneMore(FlushedSplit(mem), before, q, outs, mid, qs);
      FlatRunAppend(mem, Ops(before), q.op);
      fetched, used := SplitStepIsFlat(mid, fetched, used, written, q);
    }
  }

  lemma {:induction false} NoRequests(mem: seq<Byte>)
    ensures Ops([]) == [] && Touched([], true) == [] && Touched([], false) == []
    ensures SplitRun(FlushedSplit(mem), []) == ([], FlushedSplit(mem)) && FlatRun(mem, []) == ([], mem)
  {
  }

  lemma {:induction false} TouchedStep(qs: seq<Request>)
    requires qs != []
    ensures var before, q := qs[..|qs| - 1], qs[|qs| - 1];
      && Touched(qs, true) == (if Fetches(q) then Touched(before, true) + LinesOf(q.op) else Touched(before, true))
      && Touched(qs, false) == (if Fetches(q) then Touched(before, false) else Touched(before, false) + LinesOf(q.op))
  {
    hide LinesOf;
  }

  lemma {:induction false} LastOp(qs: seq<Request>, size: nat)
    requires qs != [] && AllInMemory(Ops(qs), size)
    ensures Ops(qs) == Ops(qs[..|qs| - 1]) + [qs[|qs| - 1].op]
    ensures LINE_BYTES * LineOf(qs[|qs| - 1].op.addr) + LINE_BYTES <= size
  {
    assert Ops(qs)[|qs| - 1] in Ops(qs);
  }

  /** Every run that fetches no line it writes: with two L1 caches over one L2, all values
      read and the memory behind are those of a flat array of bytes. */
  lemma {:induction false} SplitIsTransparent(mem: seq<Byte>, qs: seq<Request>)
    requires AllInMemory(Ops(qs), |mem|) && Separate(qs)
    ensures var (outs, sp) := SplitRun(FlushedSplit(mem), qs);
      (outs, sp.mem) == FlatRun(mem, Ops(qs))
  {
    forall q | q in qs
      ensures Allowed(q, LinesWritten(qs))
    {
      SeparateAllowed(qs, q);
    }
    var fetched, used := SplitRunHolds(mem, qs, LinesWritten(qs));
  }

  /** A run that reads no instructions needs no condition on its lines. */
  lemma {:induction false} DataRunsAreTransparent(mem: seq<Byte>, qs: seq<Request>)
    requires AllInMemory(Ops(qs), |mem|) && forall q :: q in qs ==> !q.instruction
    ensures var (outs, sp) := SplitRun(FlushedSplit(mem), qs);
      (outs, sp.mem) == FlatRun(mem, Ops(qs))
  {
    forall q | q in qs
      ensures Allowed(q, LinesWritten(qs))
    {
      SeparateAllowed(qs, q);
    }
    var fetched, used := SplitRunHolds(mem, qs, LinesWritten(qs));
  }

  /** Each L1 is LRU on its own accesses: in every state that such a run reaches each set
      holds the last four lines of its class that its own calls used, aged by rank. */
  lemma {:induction false} SplitL1sAreLru(mem: seq<Byte>, qs: seq<Request>, i: nat)
    requires AllInMemory(Ops(qs), |mem|) && i < L1_SETS
    requires Separate(qs) || forall q :: q in qs ==> !q.instruction
    ensures var sp := SplitRun(FlushedSplit(mem), qs).1;
      && Holds(sp.icache[i], Recency.Take(Recency.MostRecent(Class(Touched(qs, true), i)), 4))
      && Holds(sp.dcache[i], Recency.Take(Recency.MostRecent(Class(Touched(qs, false), i)), 4))
  {
    hide SplitRun, FlushedSplit, Touched, Holds, Class;
    forall q | q in qs
      ensures Allowed(q, LinesWritten(qs))
    {
      SeparateAllowed(qs, q);
    }
    var fetched, used := SplitRunHolds(mem, qs, LinesWritten(qs));
    Recency.RunIsMostRecent(Class(fetched, i), L1_WAYS);
    Recency.RunIsMostRecent(Class(used, i), L1_WAYS);
  }

  /** A run without instruction requests is a run of the machine with one L1. */
  lemma {:induction false} DataRunIsOneL1(mem: seq<Byte>, qs: seq<Request>)
    requires AllInMemory(Ops(qs), |mem|) && forall q :: q in qs ==> !q.instruction
    ensures var (outs, sp) := SplitRun(FlushedSplit(mem), qs);
      && (outs, State(sp.dcache, sp.l2, sp.mem)) == CacheRun(Flushed(mem), Ops(qs))
      && sp.icache == Flushed(mem).l1
  {
    hide CacheStep, SplitStep, Flushed;
    if qs != [] {
      PrefixOps(qs);
      var before, q := qs[..|qs| - 1], qs[|qs| - 1];
      DataRunIsOneL1(mem, before);
      OwnCacheIsOneL1(SplitRun(FlushedSplit(mem), before).1, q);
      OtherCacheStays(SplitRun(FlushedSplit(mem), before).1, q);
    }
  }

  // ----- exactly when nothing can go wrong

  /** An instruction is read, overwritten as data and read again. */
  function StaleFetch(addr: Uint32, word: Word): seq<Request>
  {
    [Request(true, GetWord(addr)), Request(false, PutWordAt(addr, word)), Request(true, GetWord(addr))]
  }

  /** The second read returns the old word, while memory has the new one. */
  lemma {:induction false} FetchIsStale(mem: seq<Byte>, addr: Uint32, word: Word)
    requires InMemory(mem, addr)
    ensures WordBase(addr) + 4 <= |mem|
    ensures SplitRun(FlushedSplit(mem), StaleFetch(addr, word)).0 ==
            [GotWord(FlatRead(mem, addr)), Done, GotWord(FlatRead(mem, addr))]
    ensures SplitRun(FlushedSplit(mem), StaleFetch(addr, word)).1.mem == FlatWrite(mem, addr, word)
  {
    hide Half, Read, Write, Flushed, FlatRead, FlatWrite, SplitRun;
    WordPlace(addr);
    var la := LineOf(addr);
    var sp := FlushedSplit(mem);
    var sp1 := SplitStep(sp, Request(true, GetWord(addr))).1;
    FlushedSplitInv(mem, {});
    ReadHalf(State(sp.icache, sp.l2, mem), [], {}, addr);
    assert [] + [la] == [la];
    HalfMeans(State(sp1.icache, sp1.l2, mem), [la], {});
    WriteGoesThrough(sp1, addr, word);
    var sp2 := SplitStep(sp1, Request(false, PutWordAt(addr, word))).1;
    ReadsOldWord(sp1.icache, sp1.l2, mem, sp2.l2, sp2.mem, addr);
    var fetch, put := Request(true, GetWord(addr)), Request(false, PutWordAt(addr, word));
    ThreeSteps(sp, fetch, put, fetch);
  }

  lemma {:induction false} ThreeSteps(sp: Split, a: Request, b: Request, c: Request)
    requires SplitShaped(sp)
    requires InMemory(sp.mem, a.op.addr) && InMemory(sp.mem, b.op.addr) && InMemory(sp.mem, c.op.addr)
    ensures AllInMemory(Ops([a, b, c]), |sp.mem|)
    ensures var (x, sp1) := SplitStep(sp, a);
      var (y, sp2) := SplitStep(sp1, b);
      var (z, sp3) := SplitStep(sp2, c);
      SplitRun(sp, [a, b, c]) == ([x, y, z], sp3)
  {
    hide SplitStep, SplitShaped, SplitRun, Ops;
    NoSteps(sp);
    var (x, sp1) := SplitStep(sp, a);
    OneMore(sp, [], a, [], sp, [a]);
    var (y, sp2) := SplitStep(sp1, b);
    OneMore(sp, [a], b, [] + [x], sp1, [a, b]);
    var (z, sp3) := SplitStep(sp2, c);
    OneMore(sp, [a, b], c, [] + [x] + [y], sp2, [a, b, c]);
    assert [] + [x] + [y] + [z] == [x, y, z];
  }

  lemma {:induction false} NoSteps(sp: Split)
    requires SplitShaped(sp)
    ensures AllInMemory(Ops([]), |sp.mem|) && SplitRun(sp, []) == ([], sp)
  {
  }

  lemma {:induction false} HalfMeans(st: State, history: seq<nat>, written: set<nat>)
    requires Half(st, history, written)
    ensures LevelShaped(st.l2, L2_SETS, L2_WAYS) && Clean(st.l2, st.mem)
  {
  }

  /** A read that hits does not look at L2 or memory. */
  lemma {:induction false} ReadsOldWord(icache: Level, l2: Level, mem: seq<Byte>, l2': Level, mem': seq<Byte>,
      addr: Uint32)
    requires InMemory(mem, addr) && Half(State(icache, l2, mem), [LineOf(addr)], {})
    requires |mem'| == |mem| && LevelShaped(l2', L2_SETS, L2_WAYS)
    ensures LevelShaped(icache, L1_SETS, L1_WAYS) && WordBase(addr) + 4 <= |mem|
    ensures Read(State(icache, l2', mem'), addr).0 == FlatRead(mem, addr)
    ensures Read(State(icache, l2', mem'), addr).1.mem == mem'
  {
    hide Holds, Clean, Coherent, Recency.Run, AgeUpdate, MemLine, WordOf, FlatRead;
    var la := LineOf(addr);
    HalfProbe(State(icache, l2, mem), [la], {}, la);
    OneUsed(la);
    ProbeIsHeld(icache[la % L1_SETS], [la / L1_SETS], la / L1_SETS);
    WordOfMemLine(mem, addr);
  }

  lemma {:induction false} OneUsed(la: nat)
    ensures Recency.Run(Class([la], la % L1_SETS), L1_WAYS) == [la / L1_SETS]
  {
    ClassStep([], la, la % L1_SETS);
    assert [] + [la] == [la] && Class([], la % L1_SETS) == [];
    Recency.RunAppend<nat>([], la / L1_SETS, L1_WAYS);
    assert [] + [la / L1_SETS] == [la / L1_SETS];
  }

  /** The first write of a data cache reaches memory as a flat write does. */
  lemma {:induction false} WriteGoesThrough(sp: Split, addr: Uint32, word: Word)
    requires SplitShaped(sp) && InMemory(sp.mem, addr) && WordBase(addr) + 4 <= |sp.mem|
    requires sp.dcache == Flushed(sp.mem).l1 && Clean(sp.l2, sp.mem)
    ensures Write(State(sp.dcache, sp.l2, sp.mem), addr, word).mem == FlatWrite(sp.mem, addr, word)
  {
    hide Fill, Leave, FlatWrite, PutWord, MemLine, Splice;
    var st, la := State(sp.dcache, sp.l2, sp.mem), LineOf(addr);
    assert ProbeStop(st.l1[la % L1_SETS], la / L1_SETS).None?;
    var p := ProbeSkip(st.l2[la % L2_SETS], la / L2_SETS);
    if p.Some? {
      SameName(st.l2[la % L2_SETS][p.value].tag * L2_SETS + la % L2_SETS, la, L2_SETS) by {
        LineOfName(la / L2_SETS, la % L2_SETS, L2_SETS);
      }
    }
    PutWordInMemory(sp.mem, addr, word);
  }

  /** The run reads instructions in lines of `f` only and writes lines of `w` only. */
  ghost predicate Within(qs: seq<Request>, f: set<nat>, w: set<nat>)
  {
    forall q :: q in qs ==>
      && (q.instruction && (q.op.GetWord? || q.op.GetByte?) ==> LineOf(q.op.addr) in f)
      && (q.op.PutWordAt? || q.op.PutByteAt? ==> LineOf(q.op.addr) in w)
  }

  ghost predicate FlatFor(mem: seq<Byte>, qs: seq<Request>)
    requires AllInMemory(Ops(qs), |mem|)
  {
    var (outs, sp) := SplitRun(FlushedSplit(mem), qs);
    (outs, sp.mem) == FlatRun(mem, Ops(qs))
  }

  /** All runs that fetch from one set of lines and write to another are transparent if and
      only if the two sets have no line in common. */
  lemma {:induction false} SplitIsTransparentExactly(size: nat, f: set<nat>, w: set<nat>)
    requires size <= 0x1_0000_0000
    requires forall x :: x in f + w ==> LINE_BYTES * x + LINE_BYTES <= size
    ensures (forall mem, qs :: |mem| == size && AllInMemory(Ops(qs), size) && Within(qs, f, w) ==> FlatFor(mem, qs))
            <==>
            f !! w
  {
    hide SplitRun, FlatRun, FlushedSplit;
    if f !! w {
      forall mem: seq<Byte>, qs | |mem| == size && AllInMemory(Ops(qs), size) && Within(qs, f, w)
        ensures FlatFor(mem, qs)
      {
        SplitIsTransparent(mem, qs);
      }
    } else {
      var x :| x in f && x in w;
      assert x in f + w;
      var mem, qs := OneLineFails(size, x);
      assert Within(qs, f, w);
    }
  }

  lemma {:induction false} OneLineFails(size: nat, x: nat) returns (mem: seq<Byte>, qs: seq<Request>)
    requires LINE_BYTES * x + LINE_BYTES <= size <= 0x1_0000_0000
    ensures |mem| == size && AllInMemory(Ops(qs), size) && !FlatFor(mem, qs)
    ensures forall q :: q in qs ==> LineOf(q.op.addr) == x
  {
    hide SplitRun, FlushedSplit, FlatWrite;
    var addr: Uint32 := LINE_BYTES * x;
    var word: Word := [1, 1, 1, 1];
    LineOfName(x, 0, LINE_BYTES);
    mem := seq(size, _ => 0);
    qs := StaleFetch(addr, word);
    FetchIsStale(mem, addr, word);
    FlatFetch(mem, addr, word);
    assert FlatRead(mem, addr)[0] == 0;
  }

  /** Flat memory returns the new word. */
  lemma {:induction false} FlatFetch(mem: seq<Byte>, addr: Uint32, word: Word)
    requires InMemory(mem, addr)
    ensures AllInMemory(Ops(StaleFetch(addr, word)), |mem|)
    ensures |FlatRun(mem, Ops(StaleFetch(addr, word))).0| == 3
    ensures FlatRun(mem, Ops(StaleFetch(addr, word))).0[2] == GotWord(word)
  {
    hide FlatStep;
    WordPlace(addr);
    var ops := Ops(StaleFetch(addr, word));
    var two, one := ops[..2], ops[..1];
    assert two[..1] == one && one[..0] == [];
    FlatFetches(mem, addr, word);
    assert FlatRun(mem, one).1 == mem;
    assert FlatRun(mem, two).1 == FlatWrite(mem, addr, word);
  }

  lemma {:induction false} FlatFetches(mem: seq<Byte>, addr: Uint32, word: Word)
    requires InMemory(mem, addr)
    ensures WordBase(addr) + 4 <= |mem|
    ensures FlatStep(mem, GetWord(addr)).1 == mem
    ensures FlatStep(mem, PutWordAt(addr, word)).1 == FlatWrite(mem, addr, word)
    ensures FlatStep(FlatWrite(mem, addr, word), GetWord(addr)).0 == GotWord(word)
  {
    WordPlace(addr);
    assert FlatRead(FlatWrite(mem, addr, word), addr) == word;
  }
}
