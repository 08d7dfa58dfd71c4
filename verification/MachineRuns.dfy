/** What a program leaves in the TLB and the caches: the state after the run of its
    translations, and after the run of its physical accesses. So all that is proved of
    those runs holds of programs. */
module MachineRuns {
  import opened Bytes
  import opened Outcomes
  import opened Addresses
  import opened PageWalk
  import opened LineNames
  import opened FlatMemory
  import opened Mmu
  import opened Storage
  import opened Machine
  import F = FullTlbSpec
  import H = HierarchySpec
  import R = ExclusiveRuns
  import S = SplitRuns
  import V = WrittenSplit
  import W = WrittenSpec

  // ----- translations

  function Requests(pgm: seq<Command>): (xs: seq<H.Request>)
    ensures |xs| == |pgm|
    ensures forall i :: 0 <= i < |pgm| ==> xs[i] == H.Request(pgm[i].va, pgm[i].access)
  {
    seq(|pgm|, i requires 0 <= i < |pgm| => H.Request(pgm[i].va, pgm[i].access))
  }

  function Vas(pgm: seq<Command>): (xs: seq<VirtAddr>)
    ensures |xs| == |pgm|
    ensures forall i :: 0 <= i < |pgm| ==> xs[i] == pgm[i].va
  {
    seq(|pgm|, i requires 0 <= i < |pgm| => pgm[i].va)
  }

  /** The TLB after the translations of a program under the tables of `mem`. */
  ghost function MmuRun(mem: seq<Byte>, mmu: Mmu, pgm: seq<Command>): Mmu
    requires MmuShaped(mmu) && forall c :: c in pgm ==> WalkInMemory(mem, c.va)
  {
    match mmu
    case Walker => Walker
    case TwoLevel(arrays) => TwoLevel(H.RunFrom(mem, Requests(pgm), arrays).1)
    case Full(table) => Full(F.RunFrom(mem, Vas(pgm), table).1)
  }

  lemma {:induction false} MmuRunStep(mem: seq<Byte>, mmu: Mmu, pgm: seq<Command>)
    requires MmuShaped(mmu) && pgm != [] && forall c :: c in pgm ==> WalkInMemory(mem, c.va)
    ensures var before, c := pgm[..|pgm| - 1], pgm[|pgm| - 1];
      && MmuShaped(MmuRun(mem, mmu, before))
      && MmuRun(mem, mmu, pgm) == Translate(mem, c.va, c.access, MmuRun(mem, mmu, before)).1
  {
    hide Walk, WalkInMemory, H.Search, F.Search;
    var before := pgm[..|pgm| - 1];
    assert Requests(pgm)[..|pgm| - 1] == Requests(before);
    assert Vas(pgm)[..|pgm| - 1] == Vas(before);
  }

  // ----- accesses

  /** The accesses of a program at physical addresses, as it runs over flat memory. */
  ghost function Accesses(mem: seq<Byte>, pgm: seq<Command>): seq<S.Request>
  {
    if pgm == [] then []
    else
      var before, c := pgm[..|pgm| - 1], pgm[|pgm| - 1];
      Accesses(mem, before) +
      match FlatProgram(mem, before)
      case None => []
      case Some((_, mid)) =>
        if Fits(mid, c) && Walk(mid, c.va).Ok? then [RequestAt(c, Walk(mid, c.va).value)] else []
  }

  ghost predicate RunFits(store: Storage, qs: seq<S.Request>)
  {
    forall q :: q in qs ==> StorageFits(store, q.op)
  }

  /** The caches after a run of accesses. */
  ghost function StorageRun(store: Storage, qs: seq<S.Request>, heap: W.Heap): (r: Option<Storage>)
    requires StorageShaped(store) && RunFits(store, qs)
    ensures r.Some? ==> StorageShaped(r.value) && |MemoryOf(r.value)| == |MemoryOf(store)|
  {
    OpsFit(store, qs);
    match store
    case OneL1(cache) => Some(OneL1(R.CacheRun(cache, S.Ops(qs)).1))
    case TwoL1(split) => Some(TwoL1(S.SplitRun(split, qs).1))
    case AsWritten(split) =>
      match V.SplitRunW(split, qs, heap)
      case None => None
      case Some((_, split')) => Some(AsWritten(split'))
  }

  lemma {:induction false} OpsFit(store: Storage, qs: seq<S.Request>)
    requires RunFits(store, qs)
    ensures AllInMemory(S.Ops(qs), |MemoryOf(store)|)
    ensures store.AsWritten? ==> W.CallsFit(S.Ops(qs), |MemoryOf(store)|)
  {
    forall op | op in S.Ops(qs)
      ensures StorageFits(store, op)
    {
      var i :| 0 <= i < |qs| && S.Ops(qs)[i] == op;
      assert qs[i] in qs;
    }
  }

  lemma {:induction false} StorageRunStep(store: Storage, qs: seq<S.Request>, heap: W.Heap, q: S.Request, junk: W.Junk)
    requires StorageShaped(store) && RunFits(store, qs) && StorageFits(store, q.op)
    requires StorageRun(store, qs, heap).Some?
    requires SameVersion(store, StorageRun(store, qs, heap).value)
    ensures RunFits(store, qs + [q]) && StorageFits(StorageRun(store, qs, heap).value, q.op)
    ensures var last := Access(StorageRun(store, qs, heap).value, q, junk);
      last.Some? ==> StorageRun(store, qs + [q], With(heap, |qs|, junk)) == Some(last.value.1)
  {
    hide R.CacheStep, S.SplitStep, V.SplitCallW;
    var qs' := qs + [q];
    assert qs'[..|qs|] == qs && qs'[|qs|] == q;
    assert RunFits(store, qs') by {
      hide StorageFits;
    }
    OpsFit(store, qs);
    OpsFit(store, qs');
    assert S.Ops(qs')[..|qs|] == S.Ops(qs);
    match store
    case OneL1(_) =>
    case TwoL1(_) =>
    case AsWritten(split) =>
      V.SameHeap(split, qs, heap, With(heap, |qs|, junk));
  }

  ghost function With(heap: W.Heap, n: nat, junk: W.Junk): W.Heap
  {
    (k: nat) => if k == n then junk else heap(k)
  }

  // ----- one command

  /** What a step does to the TLB and the caches. */
  lemma {:induction false} StepParts(st: State, c: Command, junk: W.Junk)
    requires Shaped(st) && WalkInMemory(MemoryOf(st.store), c.va)
    requires RightReply(MemoryOf(st.store), st.mmu, c.va, c.access) && Step(st, c, junk).Some?
    ensures var st', mem := Step(st, c, junk).value.1, MemoryOf(st.store);
      && st'.mmu == Translate(mem, c.va, c.access, st.mmu).1
      && match Walk(mem, c.va)
         case Err(_) => st'.store == st.store
         case Ok(pa) =>
           && StorageFits(st.store, RequestAt(c, pa).op)
           && Access(st.store, RequestAt(c, pa), junk).Some?
           && st'.store == Access(st.store, RequestAt(c, pa), junk).value.1
  {
    hide Walk, WalkInMemory, Translate, Access;
  }

  /** A TLB translates the same under the tables it was filled from. */
  lemma {:induction false} SameTranslation(mem0: seq<Byte>, mem: seq<Byte>, all: seq<Command>, mmu: Mmu, c: Command)
    requires Translating(mem0, mem, all, mmu) && mmu != Walker && c in all
    ensures MmuShaped(mmu) && WalkInMemory(mem0, c.va) && WalkInMemory(mem, c.va)
    ensures Translate(mem, c.va, c.access, mmu).1 == Translate(mem0, c.va, c.access, mmu).1
  {
    hide Walk, WalkInMemory, Translate, Agrees, SameTables, KeepsTables, InMemory;
    FrameOfTables(mem0, mem, c);
    AgreesShaped(mem0, AddressesUsed(all), mmu);
    TranslateByWalk(mem0, mem, c.va, c.access, mmu);
  }

  // ----- programs

  lemma {:induction false} AccessesFit(store: Storage, mem: seq<Byte>, pgm: seq<Command>, written: set<nat>)
    requires ProgramSuits(store, mem, pgm, written) && |MemoryOf(store)| == |mem|
    ensures FlatProgram(mem, pgm).Some? ==> RunFits(store, Accesses(mem, pgm))
  {
    hide FlatCommand, Walk, WalkInMemory, StorageFits, Suits;
    if pgm != [] {
      var before, c := pgm[..|pgm| - 1], pgm[|pgm| - 1];
      AccessesFit(store, mem, before, written);
      if FlatProgram(mem, pgm).Some? {
        var mid := FlatProgram(mem, before).value.1;
        if Walk(mid, c.va).Ok? {
          SuitedFitsSize(store, RequestAt(c, Walk(mid, c.va).value), written, mid);
        }
      }
    }
  }

  lemma {:induction false} SuitedFitsSize(store: Storage, q: S.Request, written: set<nat>, mem: seq<Byte>)
    requires Suits(store, q, written) && InMemory(mem, q.op.addr) && |mem| == |MemoryOf(store)|
    ensures StorageFits(store, q.op)
  {
    SuitedFits(store, q, written);
  }

  /** One more command: one more translation and one more access. */
  lemma {:induction false} OneMoreCommand(mem: seq<Byte>, start: State, all: seq<Command>, pgm: seq<Command>,
      heap: W.Heap, heap0: W.Heap, written: set<nat>) returns (heap': W.Heap)
    requires Shaped(start) && |MemoryOf(start.store)| == |mem| && pgm != [] && pgm[|pgm| - 1] in all
    requires var before := pgm[..|pgm| - 1];
      && FlatProgram(mem, pgm).Some? && Program(start, pgm, heap).Some?
      && SameProgram(mem, start.mmu, start.store, before, heap)
      && Reached(mem, start, all, Program(start, before, heap).value.1, written)
      && RunFits(start.store, Accesses(mem, pgm)) && RunFits(start.store, Accesses(mem, before))
      && StorageRun(start.store, Accesses(mem, before), heap0) == Some(Program(start, before, heap).value.1.store)
    ensures StorageRun(start.store, Accesses(mem, pgm), heap') == Some(Program(start, pgm, heap).value.1.store)
    ensures var st, c := Program(start, pgm[..|pgm| - 1], heap).value.1, pgm[|pgm| - 1];
      && WalkInMemory(MemoryOf(st.store), c.va)
      && Program(start, pgm, heap).value.1.mmu == Translate(MemoryOf(st.store), c.va, c.access, st.mmu).1
  {
    hide Walk, WalkInMemory, Step, FlatCommand, StorageRun, Access, Translating, Sane, RunFits, StorageFits, Translate,
         RightReply;
    var before, c := pgm[..|pgm| - 1], pgm[|pgm| - 1];
    var st, qs := Program(start, before, heap).value.1, Accesses(mem, before);
    var now := MemoryOf(st.store);
    heap' := heap0;
    TranslationIsWalk(mem, now, all, st.mmu, c);
    StepParts(st, c, heap(|before|));
    if Walk(now, c.va).Ok? {
      var q := RequestAt(c, Walk(now, c.va).value);
      LastFits(start.store, qs, q);
      heap' := With(heap0, |qs|, heap(|before|));
      StorageRunStep(start.store, qs, heap0, q, heap(|before|));
    } else {
      assert Accesses(mem, pgm) == qs;
    }
  }

  lemma {:induction false} LastFits(store: Storage, qs: seq<S.Request>, q: S.Request)
    requires RunFits(store, qs + [q])
    ensures StorageFits(store, q.op)
  {
    hide StorageFits;
    assert q in qs + [q];
  }

  lemma {:induction false} ProgramRuns(mem: seq<Byte>, start: State, all: seq<Command>, pgm: seq<Command>, heap: W.Heap,
      written: set<nat>) returns (heap': W.Heap)
    requires FlushedMmu(start.mmu) && FlushedStorage(start.store, mem) && (forall c :: c in pgm ==> c in all)
    requires start.mmu == Walker || Protected(mem, all)
    requires ProgramSuits(start.store, mem, pgm, written) && ProgramStorable(start.store, mem, pgm)
    requires FlatProgram(mem, pgm).Some?
    ensures Shaped(start) && Program(start, pgm, heap).Some? && RunFits(start.store, Accesses(mem, pgm))
    ensures StorageRun(start.store, Accesses(mem, pgm), heap') == Some(Program(start, pgm, heap).value.1.store)
    ensures start.mmu == Walker ==> Program(start, pgm, heap).value.1.mmu == Walker
    ensures start.mmu != Walker ==>
              && (forall c :: c in pgm ==> WalkInMemory(mem, c.va))
              && Program(start, pgm, heap).value.1.mmu == MmuRun(mem, start.mmu, pgm)
  {
    hide FlushedMmu, FlushedStorage, Protected, Sane, Translating, Step, FlatCommand, Walk, WalkInMemory, Translate,
         StorageRun, MmuRun, RunFits, CommandSuits, CommandStorable, MmuShaped, StorageShaped;
    StartReached(mem, start, all, written);
    ProgramHolds(mem, start, all, pgm, heap, written);
    AccessesFit(start.store, mem, pgm, written);
    if pgm == [] {
      heap' := heap;
      NothingRun(start, mem, heap);
    } else {
      var before, c := pgm[..|pgm| - 1], pgm[|pgm| - 1];
      var heap0 := ProgramRuns(mem, start, all, before, heap, written);
      ProgramHolds(mem, start, all, before, heap, written);
      var st := Program(start, before, heap).value.1;
      heap' := OneMoreCommand(mem, start, all, pgm, heap, heap0, written);
      if start.mmu != Walker {
        SameTranslation(mem, MemoryOf(st.store), all, st.mmu, c);
        MmuRunStep(mem, start.mmu, pgm);
      } else {
        WalkerStays(MemoryOf(st.store), c.va, c.access, st.mmu);
      }
    }
  }

  lemma {:induction false} NothingRun(start: State, mem: seq<Byte>, heap: W.Heap)
    requires Shaped(start)
    ensures Accesses(mem, []) == [] && RunFits(start.store, [])
    ensures StorageRun(start.store, [], heap) == Some(start.store)
    ensures MmuRun(mem, start.mmu, []) == start.mmu
  {
    hide MmuShaped, StorageShaped;
  }

  /** After a program that behaves as flat memory, the caches are those that its physical
      accesses leave, and the TLB is the one that its translations leave. */
  lemma {:induction false} ProgramIsRun(mem: seq<Byte>, mmu: Mmu, store: Storage, pgm: seq<Command>, heap: W.Heap,
      written: set<nat>) returns (heap': W.Heap)
    requires FlushedMmu(mmu) && FlushedStorage(store, mem) && (mmu == Walker || Protected(mem, pgm))
    requires ProgramSuits(store, mem, pgm, written) && ProgramStorable(store, mem, pgm) && FlatProgram(mem, pgm).Some?
    ensures Shaped(State(mmu, store)) && Program(State(mmu, store), pgm, heap).Some?
    ensures RunFits(store, Accesses(mem, pgm))
    ensures var st := Program(State(mmu, store), pgm, heap).value.1;
      && StorageRun(store, Accesses(mem, pgm), heap') == Some(st.store)
      && (mmu == Walker ==> st.mmu == Walker)
      && (mmu != Walker ==>
            (forall c :: c in pgm ==> WalkInMemory(mem, c.va)) && st.mmu == MmuRun(mem, mmu, pgm))
  {
    heap' := ProgramRuns(mem, State(mmu, store), pgm, pgm, heap, written);
  }
}
