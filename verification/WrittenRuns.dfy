/** Whole runs of the cache as written, words and bytes, from flushed caches. */
module WrittenRuns {
  import opened Bytes
  import opened ExclusiveSpec
  import opened FlatMemory
  import opened Bits
  import opened WrittenSpec
  import opened WrittenCalls
  import opened WrittenBytes

  /** The call does not clear a bit of a byte. */
  ghost predicate OnlySets(mem: seq<Byte>, op: Op)
    requires Fits(op, |mem|)
  {
    op.PutByteAt? ==> BitsWithin(mem[op.addr], op.byte, 8)
  }

  /** Conditions the caller can check before the call. */
  ghost predicate Safe(st: State, op: Op)
    requires Shaped(st) && Fits(op, |st.mem|)
  {
    match op
    case GetWord(addr) => BaseOrHit(st, addr)
    case GetByte(addr) => BaseOrHit(st, addr)
    case PutWordAt(addr, _) => addr % LINE_BYTES == 0
    case PutByteAt(addr, _) => addr % LINE_BYTES == 0 && OnlySets(st.mem, op)
  }

  /** Every call of the run is safe in the state it meets. */
  ghost predicate SafeRun(st: State, ops: seq<Op>, heap: Heap)
    requires Shaped(st) && CallsFit(ops, |st.mem|)
  {
    ops == [] ||
    (var before := ops[..|ops| - 1];
     && SafeRun(st, before, heap)
     && RunW(st, before, heap).Went?
     && Safe(RunW(st, before, heap).st, ops[|ops| - 1]))
  }

  /** A safe call replies as flat memory, does to memory what flat memory does, and keeps
      soundness. */
  lemma {:induction false} SafeCall(st: State, op: Op, junk: Junk)
    requires Sound(st) && Fits(op, |st.mem|) && Safe(st, op)
    ensures var r := CallW(st, op, junk);
      r.Went? && (r.value, r.st.mem) == FlatStep(st.mem, op) && Sound(r.st)
  {
    hide NothingValid, SetsFine, Coherent, ReadW, WriteW, WriteByteW, FlatRead, FlatWrite, BaseOrHit, BitsWithin;
    match op
    case GetWord(addr) => SafeRead(st, addr, junk.first);
    case GetByte(addr) =>
      SafeRead(st, addr, junk.first);
      ByteInWord(st.mem, addr, 0);
    case PutWordAt(addr, word) =>
      SafeWrite(st, addr, word, junk.first);
      WriteDone(st, addr, word, junk.first);
    case PutByteAt(addr, byte) => ByteWriteAtBase(st, addr, byte, junk);
  }

  /** As written, from flushed caches: a run of calls that are all safe gives the replies
      of flat memory and leaves flat memory behind. */
  lemma {:induction false} SafeRunsAreTransparent(mem: seq<Byte>, ops: seq<Op>, heap: Heap)
    requires CallsFit(ops, |mem|)
    requires SafeRun(Flushed(mem), ops, heap)
    ensures var r := RunW(Flushed(mem), ops, heap);
      r.Went? && (r.value, r.st.mem) == FlatRun(mem, ops) && Sound(r.st)
  {
    hide NothingValid, SetsFine, Coherent, CallW, FlatStep, Safe, Flushed;
    FlushedSound(mem);
    if ops != [] {
      var before := ops[..|ops| - 1];
      SafeRunsAreTransparent(mem, before, heap);
      SafeCall(RunW(Flushed(mem), before, heap).st, ops[|ops| - 1], heap(|ops| - 1));
    }
  }

  // ----- runs on line bases

  ghost predicate OnBases(ops: seq<Op>)
  {
    forall op :: op in ops ==> op.addr % LINE_BYTES == 0
  }

  /** Replies and memory are those of flat memory after every call of the run. */
  ghost predicate FlatSoFar(mem: seq<Byte>, ops: seq<Op>, heap: Heap)
    requires CallsFit(ops, |mem|)
  {
    var r := RunW(Flushed(mem), ops, heap);
    && r.Went? && (r.value, r.st.mem) == FlatRun(mem, ops)
    && (ops == [] || FlatSoFar(mem, ops[..|ops| - 1], heap))
  }

  /** No byte write of the run clears a bit of flat memory. */
  ghost predicate OnlySetsBits(mem: seq<Byte>, ops: seq<Op>)
    requires CallsFit(ops, |mem|)
  {
    ops == [] ||
    (var before, op := ops[..|ops| - 1], ops[|ops| - 1];
     OnlySetsBits(mem, before) && OnlySets(FlatRun(mem, before).1, op))
  }

  /** A run on line bases is a safe run if its byte writes only set bits. */
  lemma {:induction false} BaseRunIsSafe(mem: seq<Byte>, ops: seq<Op>, heap: Heap)
    requires CallsFit(ops, |mem|) && OnBases(ops) && OnlySetsBits(mem, ops)
    ensures SafeRun(Flushed(mem), ops, heap)
  {
    hide RunW, FlatRun, Flushed, BitsWithin;
    if ops != [] {
      var before := ops[..|ops| - 1];
      BaseRunIsSafe(mem, before, heap);
      SafeRunsAreTransparent(mem, before, heap);
    }
  }

  /** On line bases the cache as written is transparent, words and bytes, after every
      call of a run, if and only if no byte write clears a bit. */
  lemma {:induction false} LineBasesAreRightExactly(mem: seq<Byte>, ops: seq<Op>, heap: Heap)
    requires CallsFit(ops, |mem|) && OnBases(ops)
    ensures FlatSoFar(mem, ops, heap) <==> OnlySetsBits(mem, ops)
  {
    hide CallW, FlatStep, Flushed, BitsWithin, Sound;
    if ops != [] {
      var before, op := ops[..|ops| - 1], ops[|ops| - 1];
      LineBasesAreRightExactly(mem, before, heap);
      if OnlySetsBits(mem, before) {
        BaseRunIsSafe(mem, before, heap);
        SafeRunsAreTransparent(mem, before, heap);
        var st := RunW(Flushed(mem), before, heap).st;
        assert op in ops;
        if OnlySets(st.mem, op) {
          SafeCall(st, op, heap(|before|));
        } else {
          ByteFails(st, op.addr, op.byte, heap(|before|));
        }
      }
    } else {
      assert RunW(Flushed(mem), ops, heap) == Went([], Flushed(mem));
    }
  }

  lemma {:induction false} ByteFails(st: State, addr: Uint32, byte: Byte, junk: Junk)
    requires Sound(st) && addr + LINE_BYTES <= |st.mem| && addr % LINE_BYTES == 0
    requires !BitsWithin(st.mem[addr], byte, 8)
    ensures CallW(st, PutByteAt(addr, byte), junk).st.mem != FlatStep(st.mem, PutByteAt(addr, byte)).1
  {
    hide Sound, WriteByteW, BitsWithin;
    ByteWriteAtBase(st, addr, byte, junk);
  }
}
