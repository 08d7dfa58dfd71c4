/** Exactly which runs of the cache as written, from flushed caches, keep L1 an LRU buffer. */
module WrittenLruRuns {
  import opened Bytes
  import opened LineNames
  import opened ExclusiveSpec
  import opened FlatMemory
  import opened WrittenSpec
  import opened WrittenLru
  import opened WrittenContents
  import opened WrittenRuns
  import Recency

  /** The lines of set `i` that a run has used, most recent first. */
  ghost function Used(ops: seq<Op>, i: nat): seq<nat>
  {
    Recency.MostRecent(Class(History(ops), i))
  }

  /** Every call uses a line used before; or its address is a line base, and it is the first
      of its set or writes a word into a set of which fewer than four lines have been used. */
  ghost predicate FilledRightly(ops: seq<Op>)
  {
    ops == [] ||
    (var before, op := ops[..|ops| - 1], ops[|ops| - 1];
     FilledRightly(before) && AgesRight(Used(before, LineOf(op.addr) % L1_SETS), op))
  }

  /** Each set of L1 holds the lines of its class used last, with their ranks as ages. */
  ghost predicate RanksRight(l1: Level, history: seq<nat>)
  {
    && LevelShaped(l1, L1_SETS, L1_WAYS)
    && forall i :: 0 <= i < L1_SETS ==> Aged(l1[i], Recency.Run(Class(history, i), L1_WAYS))
  }

  /** That is so after every call of the run. */
  ghost predicate RankedSoFar(mem: seq<Byte>, ops: seq<Op>, heap: Heap)
    requires CallsFit(ops, |mem|)
  {
    var r := RunW(Flushed(mem), ops, heap);
    && r.Went? && RanksRight(r.st.l1, History(ops))
    && (ops == [] || RankedSoFar(mem, ops[..|ops| - 1], heap))
  }

  /** What one call adds to the lines of a set. */
  lemma {:induction false} ClassOfCall(history: seq<nat>, op: Op, i: nat)
    ensures var tags, tags' := Class(history, i), Class(history + LinesOf(op), i);
      if LineOf(op.addr) % L1_SETS == i then
        && Recency.Run(tags', L1_WAYS) == Recency.Access<nat>(Recency.Run(tags, L1_WAYS), op.addr / 0x400, L1_WAYS)
        && Recency.MostRecent(tags') == Recency.Touch<nat>(Recency.MostRecent(tags), op.addr / 0x400)
      else tags' == tags
  {
    hide Class, Recency.Access, Recency.Run, Recency.MostRecent, Recency.Touch;
    var la, tag := LineOf(op.addr), op.addr / 0x400;
    NamesOfLine(op.addr);
    var tags := Class(history, i);
    ClassStep(history, la, i);
    Appended(tags, tag);
    if op.PutByteAt? {
      ClassStep(history + [la], la, i);
      assert history + [la] + [la] == history + LinesOf(op);
      Appended(tags + [tag], tag);
      RunIsHeldOnce(tags);
      AccessTwice(Recency.Run(tags, L1_WAYS), tag, L1_WAYS);
      TouchTwice(Recency.MostRecent(tags), tag);
    }
  }

  lemma {:induction false} Appended(tags: seq<nat>, tag: nat)
    ensures Recency.Run(tags + [tag], L1_WAYS) == Recency.Access<nat>(Recency.Run(tags, L1_WAYS), tag, L1_WAYS)
    ensures Recency.MostRecent(tags + [tag]) == Recency.Touch<nat>(Recency.MostRecent(tags), tag)
  {
    assert (tags + [tag])[..|tags|] == tags;
  }

  lemma {:induction false} RunIsHeldOnce(tags: seq<nat>)
    ensures Recency.NoRepeats(Recency.Run(tags, L1_WAYS)) && Recency.NoRepeats(Recency.MostRecent(tags))
  {
    Recency.RunIsMostRecent(tags, L1_WAYS);
  }

  lemma {:induction false} TouchTwice(r: seq<nat>, tag: nat)
    requires Recency.NoRepeats(r)
    ensures Recency.Touch<nat>(Recency.Touch<nat>(r, tag), tag) == Recency.Touch<nat>(r, tag)
  {
    Recency.TouchNoRepeats(r, tag);
    Recency.WithoutAt(Recency.Touch<nat>(r, tag), 0);
  }

  /** Such a run never fills a set beyond its four ways, so LRU would evict nothing. */
  lemma {:induction false} FourAtMost(ops: seq<Op>, i: nat)
    requires FilledRightly(ops)
    ensures |Used(ops, i)| <= L1_WAYS
    ensures Recency.Run(Class(History(ops), i), L1_WAYS) == Used(ops, i)
  {
    hide Recency.Run, Recency.MostRecent, Class, Recency.Touch;
    if ops == [] {
      NothingUsed(i);
    } else {
      var before, op := ops[..|ops| - 1], ops[|ops| - 1];
      FourAtMost(before, i);
      ClassOfCall(History(before), op, i);
      RunIsHeldOnce(Class(History(before), i));
      Recency.TouchLength<nat>(Used(before, i), op.addr / 0x400);
    }
    Recency.RunIsMostRecent(Class(History(ops), i), L1_WAYS);
  }

  lemma {:induction false} NothingUsed(i: nat)
    ensures Used([], i) == []
  {
  }

  /** One call that ages rightly. */
  lemma {:induction false} RankedCall(st: State, history: seq<nat>, op: Op, junk: Junk)
    requires Shaped(st) && NothingValid(st.l2) && Fits(op, |st.mem|) && RanksRight(st.l1, history)
    requires AgesRight(Recency.Run(Class(history, LineOf(op.addr) % L1_SETS), L1_WAYS), op)
    ensures CallW(st, op, junk).Went? && RanksRight(CallW(st, op, junk).st.l1, history + LinesOf(op))
  {
    hide CallW, Aged, NothingValid, AgesRight, Recency.Access, Recency.Run, Class;
    var i := LineOf(op.addr) % L1_SETS;
    CallKeepsAges(st, op, junk, Recency.Run(Class(history, i), L1_WAYS));
    forall k | 0 <= k < L1_SETS
      ensures Aged(CallW(st, op, junk).st.l1[k], Recency.Run(Class(history + LinesOf(op), k), L1_WAYS))
    {
      ClassOfCall(history, op, k);
      if k != i {
        OtherSetsStay(st, op, junk, k);
      }
    }
  }

  lemma {:induction false} FilledIsRanked(mem: seq<Byte>, ops: seq<Op>, heap: Heap)
    requires CallsFit(ops, |mem|) && FilledRightly(ops)
    ensures RankedSoFar(mem, ops, heap)
  {
    hide CallW, RanksRight, NothingValid, AgesRight, Used, Flushed;
    L2IsNeverPopulated(mem, ops, heap);
    if ops == [] {
      FlushedRanked(mem);
    } else {
      var before, op := ops[..|ops| - 1], ops[|ops| - 1];
      FilledIsRanked(mem, before, heap);
      L2IsNeverPopulated(mem, before, heap);
      FourAtMost(before, LineOf(op.addr) % L1_SETS);
      RankedCall(RunW(Flushed(mem), before, heap).st, History(before), op, heap(|before|));
    }
  }

  lemma {:induction false} FlushedRanked(mem: seq<Byte>)
    ensures RanksRight(Flushed(mem).l1, [])
  {
  }

  ghost function BadHeap(): Heap
  {
    _ => BadJunk()
  }

  /** Where the allocator always leaves an invalid entry, no other run is LRU. */
  lemma {:induction false} RankedIsFilled(mem: seq<Byte>, ops: seq<Op>)
    requires CallsFit(ops, |mem|) && RankedSoFar(mem, ops, BadHeap())
    ensures FilledRightly(ops)
  {
    hide CallW, Aged, NothingValid, AgesRight, Used, Flushed, Recency.Run, Class;
    if ops != [] {
      var before, op := ops[..|ops| - 1], ops[|ops| - 1];
      RankedIsFilled(mem, before);
      L2IsNeverPopulated(mem, before, BadHeap());
      var i := LineOf(op.addr) % L1_SETS;
      FourAtMost(before, i);
      ClassOfCall(History(before), op, i);
      var st := RunW(Flushed(mem), before, BadHeap()).st;
      var r := Recency.Run(Class(History(before), i), L1_WAYS);
      if !AgesRight(r, op) {
        HeldTwice(st, op, r);
        CallSpoilsAges(st, op, r, Recency.Access<nat>(r, op.addr / 0x400, L1_WAYS));
      }
    }
  }

  /** From flushed caches, for words and bytes at any addresses: after every call, whatever
      the allocator leaves, each set of L1 holds the lines used last with their ranks as
      ages, if and only if every call uses a line used before, or its address is a line
      base and it is the first of its set or writes a word into a set with fewer than four
      lines used.  Then no set is ever asked to hold more than its four ways, so LRU never
      has anything to evict. */
  lemma {:induction false} RunKeepsRanksExactly(mem: seq<Byte>, ops: seq<Op>)
    requires CallsFit(ops, |mem|)
    ensures (forall heap :: RankedSoFar(mem, ops, heap)) <==> FilledRightly(ops)
    ensures FilledRightly(ops) ==> forall i: nat :: |Used(ops, i)| <= L1_WAYS
  {
    hide RankedSoFar, FilledRightly;
    if FilledRightly(ops) {
      forall heap
        ensures RankedSoFar(mem, ops, heap)
      {
        FilledIsRanked(mem, ops, heap);
      }
      forall i: nat
        ensures |Used(ops, i)| <= L1_WAYS
      {
        FourAtMost(ops, i);
      }
    } else {
      var heap := BadHeap();
      if RankedSoFar(mem, ops, heap) {
        RankedIsFilled(mem, ops);
      }
      assert !RankedSoFar(mem, ops, heap);
    }
  }

  // ----- contents alone

  /** Each set of L1 holds the lines of its class used last, with whatever ages. */
  ghost predicate ContentsRight(l1: Level, history: seq<nat>)
  {
    && LevelShaped(l1, L1_SETS, L1_WAYS)
    && forall i :: 0 <= i < L1_SETS ==> Keeps(l1[i], Recency.Run(Class(history, i), L1_WAYS))
  }

  ghost predicate ContentsSoFar(mem: seq<Byte>, ops: seq<Op>, heap: Heap)
    requires CallsFit(ops, |mem|)
  {
    var r := RunW(Flushed(mem), ops, heap);
    && r.Went? && ContentsRight(r.st.l1, History(ops))
    && (ops == [] || ContentsSoFar(mem, ops[..|ops| - 1], heap))
  }

  /** The line of the call is held, or the set has room, or apply_lru finds the line that
      was used least recently. */
  ghost predicate DropsRight(st: State, history: seq<nat>, op: Op)
    requires Shaped(st)
  {
    var i := LineOf(op.addr) % L1_SETS;
    var r := Recency.Run(Class(history, i), L1_WAYS);
    op.addr / 0x400 in r || DropsLast(st.l1[i], r)
  }

  /** Every call of the run does so in the state it meets. */
  ghost predicate DropsRightSoFar(mem: seq<Byte>, ops: seq<Op>, heap: Heap)
    requires CallsFit(ops, |mem|)
  {
    ops == [] ||
    (var before := ops[..|ops| - 1];
     && DropsRightSoFar(mem, before, heap)
     && RunW(Flushed(mem), before, heap).Went?
     && DropsRight(RunW(Flushed(mem), before, heap).st, History(before), ops[|ops| - 1]))
  }

  lemma {:induction false} ContentsCall(st: State, history: seq<nat>, op: Op, junk: Junk)
    requires Shaped(st) && NothingValid(st.l2) && Fits(op, |st.mem|) && ContentsRight(st.l1, history)
    requires op.addr % LINE_BYTES == 0
    ensures CallW(st, op, junk).Went?
    ensures ContentsRight(CallW(st, op, junk).st.l1, history + LinesOf(op)) <==> DropsRight(st, history, op)
  {
    hide CallW, Keeps, NothingValid, DropsLast, Recency.Access, Recency.Run, Class;
    var i := LineOf(op.addr) % L1_SETS;
    ContentsExactly(st, op, junk, Recency.Run(Class(history, i), L1_WAYS));
    var st' := CallW(st, op, junk).st;
    forall k | 0 <= k < L1_SETS && k != i
      ensures Keeps(st'.l1[k], Recency.Run(Class(history + LinesOf(op), k), L1_WAYS))
    {
      ClassOfCall(history, op, k);
      OtherSetsStay(st, op, junk, k);
    }
    ClassOfCall(history, op, i);
  }

  lemma {:induction false} FlushedContents(mem: seq<Byte>)
    ensures ContentsRight(Flushed(mem).l1, [])
  {
  }

  /** From flushed caches, words and bytes at line bases: after every call each set of L1
      holds the lines that LRU would hold, if and only if every call whose line is not held
      finds room or finds the line used least recently in the last way of greatest age. */
  lemma {:induction false} RunContentsAreLruExactly(mem: seq<Byte>, ops: seq<Op>, heap: Heap)
    requires CallsFit(ops, |mem|) && OnBases(ops)
    ensures ContentsSoFar(mem, ops, heap) <==> DropsRightSoFar(mem, ops, heap)
  {
    hide CallW, ContentsRight, DropsRight, NothingValid, Flushed;
    L2IsNeverPopulated(mem, ops, heap);
    if ops == [] {
      FlushedContents(mem);
    } else {
      var before, op := ops[..|ops| - 1], ops[|ops| - 1];
      L2IsNeverPopulated(mem, before, heap);
      RunContentsAreLruExactly(mem, before, heap);
      var st := RunW(Flushed(mem), before, heap).st;
      if ContentsSoFar(mem, before, heap) {
        ContentsCall(st, History(before), op, heap(|before|));
      }
    }
  }
}
