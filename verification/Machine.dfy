/** The whole memory hierarchy on a command list (test-cache.c:41-75, commands.h): any of
    the translations in front of any of the caches.  With the page walk for translation
    programs may write their own page tables; with a TLB they must leave them alone.  Each
    version of the caches asks what `Storage.Suits` and `Storage.Storable` say. */
module Machine {
  import opened Bytes
  import opened Outcomes
  import opened Addresses
  import opened PageWalk
  import opened Translation
  import opened LineNames
  import opened FlatMemory
  import opened Mmu
  import opened Storage
  import E = ExclusiveSpec
  import F = FullTlbSpec
  import H = HierarchySpec
  import S = SplitRuns
  import V = WrittenSplit
  import W = WrittenSpec

  datatype Order = GetW | PutW(word: Word) | GetB | PutB(byte: Byte)

  datatype Command = Command(va: VirtAddr, access: H.Access, order: Order)

  datatype Effect = Effect(out: Out) | NoTranslation

  function OpAt(order: Order, addr: Uint32): Op
  {
    match order
    case GetW => GetWord(addr)
    case PutW(word) => PutWordAt(addr, word)
    case GetB => GetByte(addr)
    case PutB(byte) => PutByteAt(addr, byte)
  }

  ghost function RequestAt(c: Command, pa: PhyAddr): S.Request
  {
    S.Request(c.access == H.Instruction, OpAt(c.order, ToUint32(pa)))
  }

  /** The walk and the line accessed lie in memory. */
  ghost predicate Fits(mem: seq<Byte>, c: Command)
  {
    && WalkInMemory(mem, c.va)
    && (Walk(mem, c.va).Ok? ==> InMemory(mem, ToUint32(Walk(mem, c.va).value)))
  }

  // ----- the reference: page walk and flat memory

  ghost function FlatCommand(mem: seq<Byte>, c: Command): (r: (Effect, seq<Byte>))
    requires Fits(mem, c)
    ensures |r.1| == |mem|
  {
    match Walk(mem, c.va)
    case Err(_) => (NoTranslation, mem)
    case Ok(pa) => var (out, mem') := FlatStep(mem, OpAt(c.order, ToUint32(pa))); (Effect(out), mem')
  }

  /** The run of a program; None if a command leaves the memory. */
  ghost function FlatProgram(mem: seq<Byte>, pgm: seq<Command>): (r: Option<(seq<Effect>, seq<Byte>)>)
    ensures r.Some? ==> |r.value.1| == |mem|
  {
    if pgm == [] then Some(([], mem))
    else
      match FlatProgram(mem, pgm[..|pgm| - 1])
      case None => None
      case Some((effects, mid)) =>
        if !Fits(mid, pgm[|pgm| - 1]) then None
        else var (effect, end) := FlatCommand(mid, pgm[|pgm| - 1]); Some((effects + [effect], end))
  }

  // ----- the machine

  datatype State = State(mmu: Mmu, store: Storage)

  ghost predicate Shaped(st: State)
  {
    MmuShaped(st.mmu) && StorageShaped(st.store)
  }

  /** One command; None if it leaves the memory or has no meaning. */
  ghost function Step(st: State, c: Command, junk: W.Junk): (r: Option<(Effect, State)>)
    requires Shaped(st)
    ensures r.Some? ==> Shaped(r.value.1)
  {
    var mem := MemoryOf(st.store);
    if !WalkInMemory(mem, c.va) then None
    else
      var (reply, mmu) := Translate(mem, c.va, c.access, st.mmu);
      match reply
      case Failed(_) => Some((NoTranslation, State(mmu, st.store)))
      case Found(_, pa) =>
        var q := RequestAt(c, pa);
        if !StorageFits(st.store, q.op) then None
        else
          match Access(st.store, q, junk)
          case None => None
          case Some((out, store)) => Some((Effect(out), State(mmu, store)))
  }

  ghost function Program(st: State, pgm: seq<Command>, heap: W.Heap): (r: Option<(seq<Effect>, State)>)
    requires Shaped(st)
    ensures r.Some? ==> Shaped(r.value.1)
  {
    if pgm == [] then Some(([], st))
    else
      match Program(st, pgm[..|pgm| - 1], heap)
      case None => None
      case Some((effects, mid)) =>
        match Step(mid, pgm[|pgm| - 1], heap(|pgm| - 1))
        case None => None
        case Some((effect, end)) => Some((effects + [effect], end))
  }

  // ----- programs that leave their page tables alone

  /** The bytes that an order at an address writes: from `addr` or the base of its word. */
  ghost predicate Writes(order: Order, addr: nat, p: nat)
  {
    match order
    case GetW => false
    case GetB => false
    case PutW(_) => WordBase(addr) <= p < WordBase(addr) + 4
    case PutB(_) => p == addr
  }

  /** Conditions on the initial memory alone: every command fits it, and no command
      writes an entry of a page table that the walk of some command reads. */
  ghost predicate Protected(mem: seq<Byte>, pgm: seq<Command>)
  {
    && (forall c :: c in pgm ==> Fits(mem, c))
    && (forall c, d :: c in pgm && d in pgm && Walk(mem, c.va).Ok? ==>
          KeepsTables(mem, c, d.va))
  }

  ghost predicate KeepsTables(mem: seq<Byte>, c: Command, va: VirtAddr)
    requires WalkInMemory(mem, c.va) && Walk(mem, c.va).Ok? && WalkInMemory(mem, va)
  {
    forall at, p :: at in TableOffsets(mem, va) && at <= p < at + 4 ==>
      !Writes(c.order, ToUint32(Walk(mem, c.va).value), p)
  }

  /** The page tables of a walk are the same in both memories. */
  ghost predicate SameTables(mem0: seq<Byte>, mem: seq<Byte>, va: VirtAddr)
    requires WalkInMemory(mem0, va)
  {
    forall at :: at in TableOffsets(mem0, va) ==> SameEntry(mem0, mem, at)
  }

  lemma {:induction false} FlatStepWrites(mem: seq<Byte>, order: Order, addr: Uint32, p: nat)
    requires InMemory(mem, addr) && p < |mem| && !Writes(order, addr, p)
    ensures FlatStep(mem, OpAt(order, addr)).1[p] == mem[p]
  {
    WordPlace(addr);
  }

  /** A command that keeps the tables of `va` leaves them the same. */
  lemma {:induction false} TablesStay(mem0: seq<Byte>, mem: seq<Byte>, c: Command, va: VirtAddr)
    requires WalkInMemory(mem0, c.va) && WalkInMemory(mem0, va) && |mem| == |mem0|
    requires Walk(mem0, c.va).Ok? && KeepsTables(mem0, c, va) && SameTables(mem0, mem, va)
    requires InMemory(mem, ToUint32(Walk(mem0, c.va).value))
    ensures SameTables(mem0, FlatStep(mem, OpAt(c.order, ToUint32(Walk(mem0, c.va).value))).1, va)
  {
    hide Walk, WalkInMemory, TableOffsets, FlatStep, InMemory;
    var addr := ToUint32(Walk(mem0, c.va).value);
    var mem' := FlatStep(mem, OpAt(c.order, addr)).1;
    forall at | at in TableOffsets(mem0, va)
      ensures SameEntry(mem0, mem', at)
    {
      assert SameEntry(mem0, mem, at);
      forall p | at <= p < at + 4
        ensures mem'[p] == mem[p]
      {
        FlatStepWrites(mem, c.order, addr, p);
      }
      assert mem'[at..at + 4] == mem[at..at + 4];
    }
  }

  lemma {:induction false} CommandKeepsTables(mem0: seq<Byte>, mem: seq<Byte>, c: Command, va: VirtAddr)
    requires Fits(mem0, c) && Fits(mem, c) && WalkInMemory(mem0, va) && |mem| == |mem0|
    requires SameTables(mem0, mem, c.va) && SameTables(mem0, mem, va)
    requires Walk(mem0, c.va).Ok? ==> KeepsTables(mem0, c, va)
    ensures SameTables(mem0, FlatCommand(mem, c).1, va)
  {
    hide Walk, WalkInMemory, FlatStep, TableOffsets, KeepsTables;
    WalkFrame(mem0, mem, c.va);
    if Walk(mem0, c.va).Ok? {
      TablesStay(mem0, mem, c, va);
    }
  }

  lemma {:induction false} OwnTables(mem: seq<Byte>, va: VirtAddr)
    requires WalkInMemory(mem, va)
    ensures SameTables(mem, mem, va)
  {
  }

  ghost function AddressesUsed(pgm: seq<Command>): set<VirtAddr>
  {
    set c | c in pgm :: c.va
  }

  lemma {:induction false} UsedWalkable(mem: seq<Byte>, pgm: seq<Command>)
    requires Protected(mem, pgm)
    ensures Walkable(mem, AddressesUsed(pgm))
  {
    hide WalkInMemory, Walk, KeepsTables;
  }

  /** What makes a translation right for the commands of `all`: there is no TLB, or it
      agrees with the tables of `mem0`, which are the tables of `mem`. */
  ghost predicate Translating(mem0: seq<Byte>, mem: seq<Byte>, all: seq<Command>, mmu: Mmu)
  {
    mmu == Walker ||
    (&& Protected(mem0, all) && |mem| == |mem0|
     && Walkable(mem0, AddressesUsed(all)) && Agrees(mem0, AddressesUsed(all), mmu)
     && forall d :: d in all ==> SameTables(mem0, mem, d.va))
  }

  lemma {:induction false} FlushedTranslating(mem: seq<Byte>, all: seq<Command>, mmu: Mmu)
    requires FlushedMmu(mmu) && (mmu == Walker || Protected(mem, all))
    ensures Translating(mem, mem, all, mmu)
  {
    hide FlushedMmu, Agrees, WalkInMemory, Walk, KeepsTables, SameTables;
    if mmu != Walker {
      UsedWalkable(mem, all);
      FlushedAgrees(mem, AddressesUsed(all), mmu);
      forall d | d in all
        ensures SameTables(mem, mem, d.va)
      {
        OwnTables(mem, d.va);
      }
    }
  }

  lemma {:induction false} TranslatingShaped(mem0: seq<Byte>, mem: seq<Byte>, all: seq<Command>, mmu: Mmu)
    requires Translating(mem0, mem, all, mmu)
    ensures MmuShaped(mmu)
  {
    if mmu != Walker {
      AgreesShaped(mem0, AddressesUsed(all), mmu);
    }
  }

  /** Such a translation is the walk of the current memory, and it stays such, whatever a
      command of `all` writes. */
  lemma {:induction false} TranslationIsWalk(mem0: seq<Byte>, mem: seq<Byte>, all: seq<Command>, mmu: Mmu, c: Command)
    requires Translating(mem0, mem, all, mmu) && c in all && (mmu == Walker ==> Fits(mem, c))
    ensures MmuShaped(mmu) && Fits(mem, c) && RightReply(mem, mmu, c.va, c.access)
    ensures Translating(mem0, FlatCommand(mem, c).1, all, Translate(mem, c.va, c.access, mmu).1)
  {
    hide Walk, WalkInMemory, Translate, Agrees, SameTables, KeepsTables, FlatCommand, InMemory, TableOffsets;
    if mmu == Walker {
      WalkerReplies(mem, c.va, c.access);
    } else {
      FrameOfTables(mem0, mem, c);
      AgreeingTranslation(mem0, AddressesUsed(all), mmu, c.va, c.access);
      TranslateByWalk(mem0, mem, c.va, c.access, mmu);
      forall d | d in all
        ensures SameTables(mem0, FlatCommand(mem, c).1, d.va)
      {
        CommandKeepsTables(mem0, mem, c, d.va);
      }
    }
  }

  lemma {:induction false} WalkerReplies(mem: seq<Byte>, va: VirtAddr, access: H.Access)
    requires WalkInMemory(mem, va)
    ensures RightReply(mem, Walker, va, access) && Translate(mem, va, access, Walker).1 == Walker
  {
    hide Walk, WalkInMemory;
  }

  lemma {:induction false} FrameOfTables(mem0: seq<Byte>, mem: seq<Byte>, c: Command)
    requires Fits(mem0, c) && |mem| == |mem0| && SameTables(mem0, mem, c.va)
    ensures Fits(mem, c) && Walk(mem, c.va) == Walk(mem0, c.va)
  {
    hide Walk, WalkInMemory, TableOffsets;
    WalkFrame(mem0, mem, c.va);
  }

  // ----- one command

  /** The command asks nothing of the caches that they do not do. */
  ghost predicate CommandSuits(store: Storage, mem: seq<Byte>, c: Command, written: set<nat>)
    requires Fits(mem, c)
  {
    Walk(mem, c.va).Ok? ==> Suits(store, RequestAt(c, Walk(mem, c.va).value), written)
  }

  ghost predicate CommandStorable(store: Storage, mem: seq<Byte>, c: Command)
    requires Fits(mem, c)
  {
    Walk(mem, c.va).Ok? ==> Storable(store, mem, OpAt(c.order, ToUint32(Walk(mem, c.va).value)))
  }

  lemma {:induction false} StepIsFlat(st: State, c: Command, junk: W.Junk, written: set<nat>)
    requires MmuShaped(st.mmu) && Sane(st.store, written)
    requires var mem := MemoryOf(st.store);
      && Fits(mem, c) && RightReply(mem, st.mmu, c.va, c.access)
      && CommandSuits(st.store, mem, c, written) && CommandStorable(st.store, mem, c)
    ensures Shaped(st) && Step(st, c, junk).Some?
    ensures var (effect, st') := Step(st, c, junk).value;
      && (effect, MemoryOf(st'.store)) == FlatCommand(MemoryOf(st.store), c)
      && st'.mmu == Translate(MemoryOf(st.store), c.va, c.access, st.mmu).1
      && Sane(st'.store, written) && SameVersion(st.store, st'.store)
  {
    hide Walk, WalkInMemory, Translate, Sane, Access, FlatStep, Suits, Storable, StorageFits, StorageShaped;
    var mem := MemoryOf(st.store);
    SaneShaped(st.store, written);
    if Walk(mem, c.va).Ok? {
      AccessIsFlat(st.store, RequestAt(c, Walk(mem, c.va).value), junk, written);
    }
  }

  lemma {:induction false} StepIsWrong(st: State, c: Command, junk: W.Junk, written: set<nat>)
    requires MmuShaped(st.mmu) && Sane(st.store, written)
    requires var mem := MemoryOf(st.store);
      && Fits(mem, c) && RightReply(mem, st.mmu, c.va, c.access)
      && CommandSuits(st.store, mem, c, written) && !CommandStorable(st.store, mem, c)
    ensures Shaped(st)
    ensures Step(st, c, junk).Some? ==>
              MemoryOf(Step(st, c, junk).value.1.store) != FlatCommand(MemoryOf(st.store), c).1
  {
    hide Walk, WalkInMemory, Translate, Sane, Access, FlatStep, Suits, Storable, StorageFits, StorageShaped;
    var mem := MemoryOf(st.store);
    SaneShaped(st.store, written);
    AccessIsWrong(st.store, RequestAt(c, Walk(mem, c.va).value), junk, written);
  }

  // ----- programs

  /** Run over flat memory, every command of the program suits the caches. */
  ghost predicate ProgramSuits(store: Storage, mem: seq<Byte>, pgm: seq<Command>, written: set<nat>)
  {
    pgm == [] ||
    (var before, c := pgm[..|pgm| - 1], pgm[|pgm| - 1];
     && ProgramSuits(store, mem, before, written)
     && (FlatProgram(mem, pgm).Some? ==> CommandSuits(store, FlatProgram(mem, before).value.1, c, written)))
  }

  /** Run over flat memory, no byte write of the program is spoiled by the OR of the code. */
  ghost predicate ProgramStorable(store: Storage, mem: seq<Byte>, pgm: seq<Command>)
  {
    pgm == [] ||
    (var before, c := pgm[..|pgm| - 1], pgm[|pgm| - 1];
     && ProgramStorable(store, mem, before)
     && (FlatProgram(mem, pgm).Some? ==> CommandStorable(store, FlatProgram(mem, before).value.1, c)))
  }

  /** The machine does on the program what flat memory does, and leaves memory where that does. */
  ghost predicate SameProgram(mem: seq<Byte>, mmu: Mmu, store: Storage, pgm: seq<Command>, heap: W.Heap)
    requires Shaped(State(mmu, store))
  {
    var r := Program(State(mmu, store), pgm, heap);
    && (r.Some? <==> FlatProgram(mem, pgm).Some?)
    && (r.Some? ==> (r.value.0, MemoryOf(r.value.1.store)) == FlatProgram(mem, pgm).value)
  }

  /** So it does on every beginning of the program. */
  ghost predicate SameSoFar(mem: seq<Byte>, mmu: Mmu, store: Storage, pgm: seq<Command>, heap: W.Heap)
    requires Shaped(State(mmu, store))
  {
    && SameProgram(mem, mmu, store, pgm, heap)
    && (pgm == [] || SameSoFar(mem, mmu, store, pgm[..|pgm| - 1], heap))
  }

  /** The states that a program reaches. */
  ghost predicate Reached(mem: seq<Byte>, start: State, all: seq<Command>, st: State, written: set<nat>)
  {
    && Translating(mem, MemoryOf(st.store), all, st.mmu) && Sane(st.store, written)
    && SameVersion(start.store, st.store) && (start.mmu == Walker <==> st.mmu == Walker)
  }

  lemma {:induction false} StartReached(mem: seq<Byte>, start: State, all: seq<Command>, written: set<nat>)
    requires FlushedMmu(start.mmu) && FlushedStorage(start.store, mem)
    requires start.mmu == Walker || Protected(mem, all)
    ensures Shaped(start) && Reached(mem, start, all, start, written) && MemoryOf(start.store) == mem
  {
    hide FlushedMmu, FlushedStorage, Protected, Translating, Sane, MmuShaped, StorageShaped;
    FlushedSane(start.store, mem, written);
    SaneShaped(start.store, written);
    FlushedTranslating(mem, all, start.mmu);
    TranslatingShaped(mem, mem, all, start.mmu);
  }

  /** One more command of a program that suits. */
  lemma {:induction false} ReachedStep(mem: seq<Byte>, start: State, all: seq<Command>, st: State, c: Command,
      junk: W.Junk, written: set<nat>)
    requires Reached(mem, start, all, st, written) && c in all
    requires st.mmu == Walker ==> Fits(MemoryOf(st.store), c)
    ensures Shaped(st) && Fits(MemoryOf(st.store), c)
    ensures CommandSuits(start.store, MemoryOf(st.store), c, written) ==>
              (CommandStorable(start.store, MemoryOf(st.store), c) <==>
               Step(st, c, junk).Some? &&
               MemoryOf(Step(st, c, junk).value.1.store) == FlatCommand(MemoryOf(st.store), c).1)
    ensures CommandSuits(start.store, MemoryOf(st.store), c, written) &&
            CommandStorable(start.store, MemoryOf(st.store), c) ==>
              var (effect, st') := Step(st, c, junk).value;
              effect == FlatCommand(MemoryOf(st.store), c).0 && Reached(mem, start, all, st', written)
  {
    hide Translating, Sane, Step, FlatCommand, Translate, Walk, WalkInMemory, RightReply, MmuShaped;
    var now := MemoryOf(st.store);
    TranslationIsWalk(mem, now, all, st.mmu, c);
    SaneShaped(st.store, written);
    SameVersionSuits(start.store, st.store, now, c, written);
    if CommandSuits(st.store, now, c, written) {
      if CommandStorable(st.store, now, c) {
        StepIsFlat(st, c, junk, written);
        WalkerStays(now, c.va, c.access, st.mmu);
      } else {
        StepIsWrong(st, c, junk, written);
      }
    }
  }

  lemma {:induction false} WalkerStays(mem: seq<Byte>, va: VirtAddr, access: H.Access, mmu: Mmu)
    requires MmuShaped(mmu) && WalkInMemory(mem, va)
    ensures mmu == Walker <==> Translate(mem, va, access, mmu).1 == Walker
  {
    hide Walk, WalkInMemory;
  }

  lemma {:induction false} SameVersionSuits(a: Storage, b: Storage, mem: seq<Byte>, c: Command, written: set<nat>)
    requires SameVersion(a, b) && Fits(mem, c)
    ensures CommandSuits(a, mem, c, written) <==> CommandSuits(b, mem, c, written)
    ensures CommandStorable(a, mem, c) <==> CommandStorable(b, mem, c)
  {
    hide Walk, WalkInMemory;
  }

  /** The state of the machine while it follows flat memory, and whether it still does. */
  lemma {:induction false} ProgramHolds(mem: seq<Byte>, start: State, all: seq<Command>, pgm: seq<Command>,
      heap: W.Heap, written: set<nat>)
    requires FlushedMmu(start.mmu) && FlushedStorage(start.store, mem) && (forall c :: c in pgm ==> c in all)
    requires start.mmu == Walker || Protected(mem, all)
    requires ProgramSuits(start.store, mem, pgm, written)
    ensures Shaped(start)
    ensures start.mmu != Walker ==> FlatProgram(mem, pgm).Some? || !ProgramStorable(start.store, mem, pgm)
    ensures ProgramStorable(start.store, mem, pgm) && FlatProgram(mem, pgm).Some? ==>
              && SameProgram(mem, start.mmu, start.store, pgm, heap)
              && Reached(mem, start, all, Program(start, pgm, heap).value.1, written)
    ensures SameSoFar(mem, start.mmu, start.store, pgm, heap) <==> ProgramStorable(start.store, mem, pgm)
  {
    hide FlushedMmu, FlushedStorage, Protected, Reached, Step, FlatCommand, Fits, MmuShaped, StorageShaped,
         CommandSuits, CommandStorable, SameProgram;
    StartReached(mem, start, all, written);
    if pgm == [] {
      NoCommands(mem, start, heap);
    } else {
      var before, c := pgm[..|pgm| - 1], pgm[|pgm| - 1];
      ProgramHolds(mem, start, all, before, heap, written);
      if ProgramStorable(start.store, mem, before) {
        if FlatProgram(mem, before).Some? {
          LastCommand(mem, start, all, pgm, heap, written);
        } else {
          BothLeft(mem, start, pgm, heap);
        }
      }
    }
  }

  lemma {:induction false} NoCommands(mem: seq<Byte>, start: State, heap: W.Heap)
    requires Shaped(start) && MemoryOf(start.store) == mem
    ensures SameProgram(mem, start.mmu, start.store, [], heap) && Program(start, [], heap) == Some(([], start))
  {
  }

  lemma {:induction false} BothLeft(mem: seq<Byte>, start: State, pgm: seq<Command>, heap: W.Heap)
    requires Shaped(start) && pgm != [] && FlatProgram(mem, pgm[..|pgm| - 1]).None?
    requires SameProgram(mem, start.mmu, start.store, pgm[..|pgm| - 1], heap)
    ensures SameProgram(mem, start.mmu, start.store, pgm, heap) && FlatProgram(mem, pgm).None?
  {
  }

  /** The last command of a program that the machine has followed so far. */
  lemma {:induction false} LastCommand(mem: seq<Byte>, start: State, all: seq<Command>, pgm: seq<Command>,
      heap: W.Heap, written: set<nat>)
    requires Shaped(start) && pgm != [] && pgm[|pgm| - 1] in all
    requires FlatProgram(mem, pgm[..|pgm| - 1]).Some?
    requires SameProgram(mem, start.mmu, start.store, pgm[..|pgm| - 1], heap)
    requires Reached(mem, start, all, Program(start, pgm[..|pgm| - 1], heap).value.1, written)
    requires FlatProgram(mem, pgm).Some? ==>
      CommandSuits(start.store, FlatProgram(mem, pgm[..|pgm| - 1]).value.1, pgm[|pgm| - 1], written)
    ensures start.mmu != Walker ==> FlatProgram(mem, pgm).Some?
    ensures FlatProgram(mem, pgm).None? ==> SameProgram(mem, start.mmu, start.store, pgm, heap)
    ensures FlatProgram(mem, pgm).Some? ==>
              var storable := CommandStorable(start.store, FlatProgram(mem, pgm[..|pgm| - 1]).value.1, pgm[|pgm| - 1]);
              && (SameProgram(mem, start.mmu, start.store, pgm, heap) <==> storable)
              && (storable ==> Reached(mem, start, all, Program(start, pgm, heap).value.1, written))
  {
    hide Reached, Step, FlatCommand, Fits, MmuShaped, StorageShaped, CommandSuits, CommandStorable;
    var before, c := pgm[..|pgm| - 1], pgm[|pgm| - 1];
    var st := Program(start, before, heap).value.1;
    ReachedWalker(mem, start, all, st, written);
    if st.mmu != Walker || Fits(MemoryOf(st.store), c) {
      ReachedStep(mem, start, all, st, c, heap(|before|), written);
    } else {
      WalkerLeaves(st, c, heap(|before|));
    }
  }

  /** A command that leaves the memory. */
  lemma {:induction false} WalkerLeaves(st: State, c: Command, junk: W.Junk)
    requires Shaped(st) && st.mmu == Walker && !Fits(MemoryOf(st.store), c)
    ensures Step(st, c, junk).None?
  {
    hide Walk, WalkInMemory, Access;
  }

  lemma {:induction false} ReachedWalker(mem: seq<Byte>, start: State, all: seq<Command>, st: State, written: set<nat>)
    requires Reached(mem, start, all, st, written)
    ensures start.mmu == Walker <==> st.mmu == Walker
  {
  }

  /** The page walk or either TLB in front of any of the caches, from a flush: on every
      program that suits the caches and, with a TLB, leaves its page tables alone, all
      effects and the final memory are those of the page walk over flat memory. */
  lemma {:induction false} MachineIsFlat(mem: seq<Byte>, mmu: Mmu, store: Storage, pgm: seq<Command>, heap: W.Heap,
      written: set<nat>)
    requires FlushedMmu(mmu) && FlushedStorage(store, mem) && (mmu == Walker || Protected(mem, pgm))
    requires ProgramSuits(store, mem, pgm, written) && ProgramStorable(store, mem, pgm)
    ensures Shaped(State(mmu, store)) && SameSoFar(mem, mmu, store, pgm, heap)
    ensures mmu != Walker ==> FlatProgram(mem, pgm).Some?
  {
    ProgramHolds(mem, State(mmu, store), pgm, pgm, heap, written);
  }

  /** The code as written, with its two L1 caches, behind any translation: a program whose
      translated addresses are line bases and that fetches no line it writes has the effects
      and memory of flat memory after each command if and only if no byte write clears a
      bit. */
  lemma {:induction false} WrittenMachineIsFlatExactly(mem: seq<Byte>, mmu: Mmu, store: Storage, pgm: seq<Command>,
      heap: W.Heap, written: set<nat>)
    requires FlushedMmu(mmu) && store.AsWritten? && FlushedStorage(store, mem)
    requires (mmu == Walker || Protected(mem, pgm)) && ProgramSuits(store, mem, pgm, written)
    ensures Shaped(State(mmu, store))
    ensures SameSoFar(mem, mmu, store, pgm, heap) <==> ProgramStorable(store, mem, pgm)
  {
    ProgramHolds(mem, State(mmu, store), pgm, pgm, heap, written);
  }

  lemma {:induction false} OneL1TakesAll(store: Storage, mem: seq<Byte>, pgm: seq<Command>)
    requires store.OneL1?
    ensures ProgramSuits(store, mem, pgm, {}) && ProgramStorable(store, mem, pgm)
  {
    hide FlatCommand, Fits;
    if pgm != [] {
      OneL1TakesAll(store, mem, pgm[..|pgm| - 1]);
    }
  }

  /** With one L1 and the page walk no program needs a condition, not even one that writes
      its own page tables. */
  lemma {:induction false} CachedProgramIsFlat(mem: seq<Byte>, store: Storage, pgm: seq<Command>, heap: W.Heap)
    requires store.OneL1? && FlushedStorage(store, mem)
    ensures Shaped(State(Walker, store)) && SameSoFar(mem, Walker, store, pgm, heap)
  {
    hide FlushedStorage, ProgramSuits, ProgramStorable, SameSoFar;
    OneL1TakesAll(store, mem, pgm);
    MachineIsFlat(mem, Walker, store, pgm, heap, {});
  }

  // ----- what one command does, in numbers

  /** `effect` and `mem'` are what an order does at the byte address `p`. */
  ghost predicate Does(order: Order, p: nat, mem: seq<Byte>, effect: Effect, mem': seq<Byte>)
  {
    var b := p / 4 * 4;
    && p < |mem| && b + 4 <= |mem|
    && match order
       case GetW => effect == Effect(GotWord(mem[b..b + 4])) && mem' == mem
       case GetB => effect == Effect(GotByte(mem[p])) && mem' == mem
       case PutW(word) => effect == Effect(Done) && mem' == mem[..b] + word + mem[b + 4..]
       case PutB(byte) => effect == Effect(Done) && mem' == mem[p := byte]
  }

  /** The reference does with a command what its order says at the address that the walk
      gives: page number times 0x1000, plus offset. */
  lemma {:induction false} CommandMeaning(mem: seq<Byte>, c: Command)
    requires Fits(mem, c) && Walk(mem, c.va).Ok?
    ensures var pa := Walk(mem, c.va).value;
      Does(c.order, pa.pageNum * 0x1000 + pa.offset, mem, FlatCommand(mem, c).0, FlatCommand(mem, c).1)
  {
    hide Walk, WalkInMemory, FlatStep;
    CallMeaning(mem, OpAt(c.order, ToUint32(Walk(mem, c.va).value)));
  }

  /** So does the machine, from any state it reaches. */
  lemma {:induction false} StepMeaning(mem: seq<Byte>, start: State, all: seq<Command>, st: State, c: Command,
      junk: W.Junk, written: set<nat>)
    requires Reached(mem, start, all, st, written) && c in all
    requires st.mmu == Walker ==> Fits(MemoryOf(st.store), c)
    ensures Shaped(st) && Fits(MemoryOf(st.store), c)
    ensures var now := MemoryOf(st.store);
      Walk(now, c.va).Ok? && CommandSuits(start.store, now, c, written) && CommandStorable(start.store, now, c) ==>
        Step(st, c, junk).Some? &&
        var (effect, st') := Step(st, c, junk).value;
        var pa := Walk(now, c.va).value;
        Does(c.order, pa.pageNum * 0x1000 + pa.offset, now, effect, MemoryOf(st'.store))
  {
    hide Reached, Step, FlatCommand, Does, Walk, WalkInMemory, CommandSuits, CommandStorable;
    ReachedStep(mem, start, all, st, c, junk, written);
    var now := MemoryOf(st.store);
    if Walk(now, c.va).Ok? {
      CommandMeaning(now, c);
    }
  }

  /** In a machine with two L1 caches an instruction read leaves the data cache alone, and
      every other command the instruction cache. */
  lemma {:induction false} OtherL1Stays(st: State, c: Command, junk: W.Junk)
    requires Shaped(st) && !st.store.OneL1? && Step(st, c, junk).Some?
    ensures var st' := Step(st, c, junk).value.1;
      && !st'.store.OneL1?
      && (c.access == H.Instruction && (c.order == GetW || c.order == GetB) ==>
            st'.store.split.dcache == st.store.split.dcache)
      && (c.access == H.Data || c.order.PutW? || c.order.PutB? ==>
            st'.store.split.icache == st.store.split.icache)
  {
    hide Walk, WalkInMemory, Translate, S.SplitStep, V.SplitCallW;
    var mem := MemoryOf(st.store);
    var reply := Translate(mem, c.va, c.access, st.mmu).0;
    if reply.Found? {
      var q := RequestAt(c, reply.paddr);
      if st.store.TwoL1? {
        S.OtherCacheStays(st.store.split, q);
      } else {
        V.OtherCacheStaysW(st.store.split, q, junk);
      }
    }
  }

  /** In numbers throughout: where the page tables lead the address to the page that begins
      at `f` and the line of `f + offset` lies in memory, the command fits and its order is
      carried out there. */
  lemma {:induction false} CommandAtPath(mem: seq<Byte>, cmd: Command, a: Uint32, b: Uint32, c: Uint32, f: Uint32)
    requires Path(mem, cmd.va, a, b, c, f) && f % 0x1000 == 0
    requires (f + cmd.va.offset) / 16 * 16 + 16 <= |mem|
    ensures Fits(mem, cmd)
    ensures Does(cmd.order, f + cmd.va.offset, mem, FlatCommand(mem, cmd).0, FlatCommand(mem, cmd).1)
  {
    hide Walk, WalkInMemory, Path, FlatCommand, Does;
    WalkFollowsPath(mem, cmd.va, a, b, c, f);
    CommandMeaning(mem, cmd);
  }

  /** A program is its commands one after the other. */
  lemma {:induction false} FlatProgramAppend(mem: seq<Byte>, pgm: seq<Command>, c: Command)
    ensures match FlatProgram(mem, pgm)
      case None => FlatProgram(mem, pgm + [c]) == None
      case Some((effects, mid)) =>
        FlatProgram(mem, pgm + [c]) ==
        if !Fits(mid, c) then None
        else Some((effects + [FlatCommand(mid, c).0], FlatCommand(mid, c).1))
  {
    hide Fits, FlatCommand;
    assert (pgm + [c])[..|pgm|] == pgm;
  }

  // ----- programs that only read

  ghost predicate ReadsOnly(mem: seq<Byte>, pgm: seq<Command>, bases: bool)
  {
    forall c :: c in pgm ==>
      && (c.order == GetW || c.order == GetB) && Fits(mem, c)
      && (bases && Walk(mem, c.va).Ok? ==> ToUint32(Walk(mem, c.va).value) % 16 == 0)
  }

  lemma {:induction false} ReadersKeepMemory(mem: seq<Byte>, pgm: seq<Command>, bases: bool)
    requires ReadsOnly(mem, pgm, bases)
    ensures FlatProgram(mem, pgm).Some? && FlatProgram(mem, pgm).value.1 == mem
  {
    hide Fits, Walk;
    if pgm != [] {
      ReadersKeepMemory(mem, pgm[..|pgm| - 1], bases);
      ReadKeepsMemory(mem, pgm[|pgm| - 1]);
    }
  }

  lemma {:induction false} ReadKeepsMemory(mem: seq<Byte>, c: Command)
    requires Fits(mem, c) && (c.order == GetW || c.order == GetB)
    ensures FlatCommand(mem, c).1 == mem
  {
    hide Walk, WalkInMemory;
    if Walk(mem, c.va).Ok? {
      CommandMeaning(mem, c);
    }
  }

  lemma {:induction false} ReadersSuit(store: Storage, mem: seq<Byte>, pgm: seq<Command>)
    requires ReadsOnly(mem, pgm, store.AsWritten?)
    ensures ProgramSuits(store, mem, pgm, {}) && ProgramStorable(store, mem, pgm)
  {
    hide FlatProgram, FlatCommand, Walk, WalkInMemory;
    if pgm != [] {
      var before := pgm[..|pgm| - 1];
      ReadersSuit(store, mem, before);
      ReadersKeepMemory(mem, before, store.AsWritten?);
    }
  }

  lemma {:induction false} ReadersAreProtected(mem: seq<Byte>, pgm: seq<Command>, bases: bool)
    requires ReadsOnly(mem, pgm, bases)
    ensures Protected(mem, pgm)
  {
    hide Walk, WalkInMemory, TableOffsets;
  }

  /** A program that only reads needs no condition, whatever the translation and the caches,
      but that of the code as written on addresses. */
  lemma {:induction false} ReadersAreFlat(mem: seq<Byte>, mmu: Mmu, store: Storage, pgm: seq<Command>, heap: W.Heap)
    requires mmu == Walker || mmu == TwoLevel(H.Flushed()) || exists n: nat :: n >= 1 && mmu == Full(F.Flushed(n))
    requires store == OneL1(E.Flushed(mem)) || store == TwoL1(S.FlushedSplit(mem)) ||
             store == AsWritten(S.FlushedSplit(mem))
    requires ReadsOnly(mem, pgm, store.AsWritten?)
    ensures Shaped(State(mmu, store)) && SameSoFar(mem, mmu, store, pgm, heap)
  {
    hide SameSoFar, ReadsOnly, Protected, ProgramSuits, ProgramStorable;
    ReadersSuit(store, mem, pgm);
    ReadersAreProtected(mem, pgm, store.AsWritten?);
    MachineIsFlat(mem, mmu, store, pgm, heap, {});
  }
}
