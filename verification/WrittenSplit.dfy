/** An instruction cache and a data cache over one L2 with the code as written, as
    execute_command uses them (test-cache.c:41-75). */
module WrittenSplit {
  import opened Bytes
  import opened Outcomes
  import opened LineNames
  import opened FlatMemory
  import opened AgeSets
  import opened SetLookup
  import opened ExclusiveSpec
  import opened WrittenSpec
  import opened WrittenCalls
  import opened WrittenRuns
  import opened SplitRuns
  import Bits

  /** One call, on the instruction cache for a fetch and on the data cache otherwise; the
      new state keeps the other cache. */
  ghost function SplitCallW(sp: Split, q: Request, junk: Junk): (r: Option<(Out, Split)>)
    requires SplitShaped(sp) && Fits(q.op, |sp.mem|)
    ensures r.Some? ==> SplitShaped(r.value.1) && |r.value.1.mem| == |sp.mem|
  {
    if Fetches(q) then
      match CallW(State(sp.icache, sp.l2, sp.mem), q.op, junk)
      case Undefined => None
      case Went(out, st) => Some((out, Split(st.l1, sp.dcache, st.l2, st.mem)))
    else
      match CallW(State(sp.dcache, sp.l2, sp.mem), q.op, junk)
      case Undefined => None
      case Went(out, st) => Some((out, Split(sp.icache, st.l1, st.l2, st.mem)))
  }

  /** Both caches are sound, and the instruction cache holds no line `written`. */
  ghost predicate SplitSound(sp: Split, written: set<nat>)
  {
    && Sound(State(sp.icache, sp.l2, sp.mem))
    && Sound(State(sp.dcache, sp.l2, sp.mem))
    && forall x :: x in written ==> At(sp.icache, x).None?
  }

  lemma {:induction false} FlushedSplitSound(mem: seq<Byte>, written: set<nat>)
    ensures SplitSound(FlushedSplit(mem), written)
  {
    FlushedSound(mem);
    forall x: nat
      ensures At(Flushed(mem).l1, x).None?
    {
    }
  }

  /** A read brings its own line into L1 and no other. */
  lemma {:induction false} ReadEnters(st: State, addr: Uint32, junk: Way, x: nat)
    requires Sound(st) && InMemory(st.mem, addr) && addr % LINE_BYTES == 0
    ensures ReadW(st, addr, junk).Went? && ReadW(st, addr, junk).st.l2 == st.l2
    ensures At(ReadW(st, addr, junk).st.l1, x).Some? ==> x == LineOf(addr) || At(st.l1, x).Some?
  {
    hide Packed, Distinct, Find, AgeUpdate, WordOf, Coherent;
    var la := LineOf(addr);
    var i, t := la % L1_SETS, x / L1_SETS;
    var s := st.l1[i];
    HitOrAbsent(st, addr);
    NeverInL2(st, addr);
    var s' := ReadW(st, addr, junk).st.l1[i];
    var p := ProbeStop(s, addr / 0x400);
    if p.Some? {
      HitSet(s, p.value, t);
    } else {
      var e := EntryFor(st.mem, addr, junk);
      AgingKeepsLines(s[Chosen(s) := e], Chosen(s));
      EnterFinds(s, e, s', t);
    }
    AtAfter(st.l1, i, s', x);
    if x % L1_SETS == i && t == la / L1_SETS {
      SameName(x, la, L1_SETS);
    }
  }

  /** A state stays sound when memory changes coherently with its L1. */
  lemma {:induction false} OtherStaysSound(st: State, l2: Level, mem: seq<Byte>)
    requires Sound(st) && LevelShaped(l2, L2_SETS, L2_WAYS) && NothingValid(l2) && Coherent(st.l1, mem)
    ensures Sound(State(st.l1, l2, mem))
  {
  }

  lemma {:induction false} SoundHas(st: State)
    requires Sound(st)
    ensures Shaped(st) && NothingValid(st.l2) && Coherent(st.l1, st.mem)
  {
  }

  /** One call at a line base that clears no bit. */
  lemma {:induction false} SplitCallIsFlat(sp: Split, q: Request, junk: Junk, written: set<nat>)
    requires SplitSound(sp, written) && Fits(q.op, |sp.mem|) && q.op.addr % LINE_BYTES == 0
    requires Allowed(q, written) && OnlySets(sp.mem, q.op)
    ensures SplitShaped(sp) && SplitCallW(sp, q, junk).Some?
    ensures var (out, sp') := SplitCallW(sp, q, junk).value;
      (out, sp'.mem) == FlatStep(sp.mem, q.op) && SplitSound(sp', written)
  {
    hide Sound, CallW, FlatStep, OnlySets, At, ReadW;
    var i, d := State(sp.icache, sp.l2, sp.mem), State(sp.dcache, sp.l2, sp.mem);
    SoundHas(i);
    SoundHas(d);
    SafeAtBase(i, q.op);
    SafeAtBase(d, q.op);
    if Fetches(q) {
      SafeCall(i, q.op, junk);
      var i' := CallW(i, q.op, junk).st;
      SoundHas(i');
      CoherentAfterCall(sp.dcache, sp.mem, q.op);
      OtherStaysSound(d, i'.l2, i'.mem);
      forall x | x in written
        ensures At(i'.l1, x).None?
      {
        ReadEnters(i, q.op.addr, junk.first, x);
        FetchIsRead(i, q.op, junk);
      }
    } else {
      SafeCall(d, q.op, junk);
      var d' := CallW(d, q.op, junk).st;
      SoundHas(d');
      CoherentAfterCall(sp.icache, sp.mem, q.op);
      OtherStaysSound(i, d'.l2, d'.mem);
    }
  }

  lemma {:induction false} SafeAtBase(st: State, op: Op)
    requires Shaped(st) && Fits(op, |st.mem|) && op.addr % LINE_BYTES == 0 && OnlySets(st.mem, op)
    ensures Safe(st, op)
  {
  }

  lemma {:induction false} FetchIsRead(st: State, op: Op, junk: Junk)
    requires Shaped(st) && Fits(op, |st.mem|) && Gets(op) && ReadW(st, op.addr, junk.first).Went?
    ensures CallW(st, op, junk).Went? && CallW(st, op, junk).st == ReadW(st, op.addr, junk.first).st
  {
    hide ReadW;
  }

  /** A byte that has to clear a bit is stored wrongly. */
  lemma {:induction false} SplitByteFails(sp: Split, q: Request, junk: Junk, written: set<nat>)
    requires SplitSound(sp, written) && Fits(q.op, |sp.mem|) && q.op.addr % LINE_BYTES == 0
    requires !OnlySets(sp.mem, q.op)
    ensures SplitShaped(sp)
    ensures SplitCallW(sp, q, junk).Some? ==> SplitCallW(sp, q, junk).value.1.mem != FlatStep(sp.mem, q.op).1
  {
    hide Sound, CallW, FlatStep, Bits.BitsWithin;
    SoundHas(State(sp.icache, sp.l2, sp.mem));
    SoundHas(State(sp.dcache, sp.l2, sp.mem));
    ByteFails(State(sp.dcache, sp.l2, sp.mem), q.op.addr, q.op.byte, junk);
  }

  /** An instruction read leaves the data cache alone, and every other call the instruction
      cache. */
  lemma {:induction false} OtherCacheStaysW(sp: Split, q: Request, junk: Junk)
    requires SplitShaped(sp) && Fits(q.op, |sp.mem|) && SplitCallW(sp, q, junk).Some?
    ensures var sp' := SplitCallW(sp, q, junk).value.1;
      && (q.instruction && (q.op.GetWord? || q.op.GetByte?) ==> sp'.dcache == sp.dcache)
      && (!q.instruction || q.op.PutWordAt? || q.op.PutByteAt? ==> sp'.icache == sp.icache)
  {
    hide CallW;
  }

  /** To its own cache, L2 and memory a call does what it does in a machine with one L1. */
  lemma {:induction false} OwnCacheIsOneL1W(sp: Split, q: Request, junk: Junk)
    requires SplitShaped(sp) && Fits(q.op, |sp.mem|)
    ensures var own := if q.instruction && (q.op.GetWord? || q.op.GetByte?) then sp.icache else sp.dcache;
      match SplitCallW(sp, q, junk)
      case None => CallW(State(own, sp.l2, sp.mem), q.op, junk).Undefined?
      case Some((out, sp')) =>
        var own' := if q.instruction && (q.op.GetWord? || q.op.GetByte?) then sp'.icache else sp'.dcache;
        CallW(State(own, sp.l2, sp.mem), q.op, junk) == Went(out, State(own', sp'.l2, sp'.mem))
  {
    hide CallW;
  }

  // ----- runs

  ghost function SplitRunW(sp: Split, qs: seq<Request>, heap: Heap): (r: Option<(seq<Out>, Split)>)
    requires SplitShaped(sp) && CallsFit(Ops(qs), |sp.mem|)
    ensures r.Some? ==> SplitShaped(r.value.1) && |r.value.1.mem| == |sp.mem|
  {
    if qs == [] then Some(([], sp))
    else
      PrefixOps(qs);
      match SplitRunW(sp, qs[..|qs| - 1], heap)
      case None => None
      case Some((outs, mid)) =>
        match SplitCallW(mid, qs[|qs| - 1], heap(|qs| - 1))
        case None => None
        case Some((out, end)) => Some((outs + [out], end))
  }

  /** Replies and memory are those of flat memory after every call of the run. */
  ghost predicate SplitFlatSoFar(mem: seq<Byte>, qs: seq<Request>, heap: Heap)
    requires CallsFit(Ops(qs), |mem|)
  {
    var r := SplitRunW(FlushedSplit(mem), qs, heap);
    && r.Some? && (r.value.0, r.value.1.mem) == FlatRun(mem, Ops(qs))
    && (qs == [] || (PrefixOps(qs); SplitFlatSoFar(mem, qs[..|qs| - 1], heap)))
  }

  lemma {:induction false} SplitRunHoldsW(mem: seq<Byte>, qs: seq<Request>, heap: Heap, written: set<nat>)
    requires CallsFit(Ops(qs), |mem|) && OnBases(Ops(qs)) && forall q :: q in qs ==> Allowed(q, written)
    ensures SplitFlatSoFar(mem, qs, heap) <==> OnlySetsBits(mem, Ops(qs))
    ensures OnlySetsBits(mem, Ops(qs)) ==> SplitSound(SplitRunW(FlushedSplit(mem), qs, heap).value.1, written)
  {
    hide SplitCallW, SplitSound, FlatStep, FlushedSplit, OnlySets, Allowed;
    if qs == [] {
      FlushedSplitSound(mem, written);
    } else {
      var before, q := qs[..|qs| - 1], qs[|qs| - 1];
      PrefixOps(qs);
      SplitRunHoldsW(mem, before, heap, written);
      if OnlySetsBits(mem, Ops(before)) {
        var sp := SplitRunW(FlushedSplit(mem), before, heap).value.1;
        assert q.op in Ops(qs);
        if OnlySets(sp.mem, q.op) {
          SplitCallIsFlat(sp, q, heap(|before|), written);
        } else {
          SplitByteFails(sp, q, heap(|before|), written);
        }
      }
    }
  }

  /** At line bases, a run that reads no line as an instruction that it writes, or that reads
      no instructions at all, is transparent after every call if and only if no byte write
      clears a bit. */
  lemma {:induction false} SplitRunsAreRightExactly(mem: seq<Byte>, qs: seq<Request>, heap: Heap)
    requires CallsFit(Ops(qs), |mem|) && OnBases(Ops(qs))
    requires Separate(qs) || forall q :: q in qs ==> !q.instruction
    ensures SplitFlatSoFar(mem, qs, heap) <==> OnlySetsBits(mem, Ops(qs))
  {
    forall q | q in qs
      ensures Allowed(q, LinesWritten(qs))
    {
      SeparateAllowed(qs, q);
    }
    SplitRunHoldsW(mem, qs, heap, LinesWritten(qs));
  }

  /** A run without instruction requests is a run of the machine with one L1, so all that is
      proved of that holds of it. */
  lemma {:induction false} DataRunIsOneL1W(mem: seq<Byte>, qs: seq<Request>, heap: Heap)
    requires CallsFit(Ops(qs), |mem|) && forall q :: q in qs ==> !q.instruction
    ensures match SplitRunW(FlushedSplit(mem), qs, heap)
      case None => RunW(Flushed(mem), Ops(qs), heap).Undefined?
      case Some((outs, sp)) =>
        RunW(Flushed(mem), Ops(qs), heap) == Went(outs, State(sp.dcache, sp.l2, sp.mem)) &&
        sp.icache == Flushed(mem).l1
  {
    hide CallW, SplitCallW, Flushed;
    if qs != [] {
      PrefixOps(qs);
      var before, q := qs[..|qs| - 1], qs[|qs| - 1];
      DataRunIsOneL1W(mem, before, heap);
      var r := SplitRunW(FlushedSplit(mem), before, heap);
      if r.Some? {
        OwnCacheIsOneL1W(r.value.1, q, heap(|before|));
        if SplitCallW(r.value.1, q, heap(|before|)).Some? {
          OtherCacheStaysW(r.value.1, q, heap(|before|));
        }
      }
    }
  }

  /** What the allocator leaves after a run does not matter to it. */
  lemma {:induction false} SameHeap(sp: Split, qs: seq<Request>, heap: Heap, heap': Heap)
    requires SplitShaped(sp) && CallsFit(Ops(qs), |sp.mem|)
    requires forall k: nat :: k < |qs| ==> heap'(k) == heap(k)
    ensures SplitRunW(sp, qs, heap') == SplitRunW(sp, qs, heap)
  {
    hide SplitCallW;
    if qs != [] {
      PrefixOps(qs);
      SameHeap(sp, qs[..|qs| - 1], heap, heap');
    }
  }
}
