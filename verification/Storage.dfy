/** The caches behind the processor, in three versions: the documented policy with one L1,
    the documented policy with an L1 for instructions and an L1 for data, and the code as
    written. */
module Storage {
  import opened Bytes
  import opened Outcomes
  import opened LineNames
  import opened FlatMemory
  import E = ExclusiveSpec
  import R = ExclusiveRuns
  import S = SplitRuns
  import W = WrittenSpec
  import X = WrittenRuns
  import V = WrittenSplit

  datatype Storage = OneL1(cache: E.State) | TwoL1(split: S.Split) | AsWritten(split: S.Split)

  ghost function MemoryOf(store: Storage): seq<Byte>
  {
    match store
    case OneL1(cache) => cache.mem
    case TwoL1(split) => split.mem
    case AsWritten(split) => split.mem
  }

  ghost predicate StorageShaped(store: Storage)
  {
    match store
    case OneL1(cache) => E.Shaped(cache)
    case TwoL1(split) => S.SplitShaped(split)
    case AsWritten(split) => S.SplitShaped(split)
  }

  /** The call stays in memory. */
  ghost predicate StorageFits(store: Storage, op: Op)
  {
    if store.AsWritten? then W.Fits(op, |store.split.mem|) else InMemory(MemoryOf(store), op.addr)
  }

  /** One call; None where the code has no meaning. */
  ghost function Access(store: Storage, q: S.Request, junk: W.Junk): (r: Option<(Out, Storage)>)
    requires StorageShaped(store) && StorageFits(store, q.op)
    ensures r.Some? ==> StorageShaped(r.value.1) && |MemoryOf(r.value.1)| == |MemoryOf(store)|
  {
    match store
    case OneL1(cache) => var (out, cache') := R.CacheStep(cache, q.op); Some((out, OneL1(cache')))
    case TwoL1(split) => var (out, split') := S.SplitStep(split, q); Some((out, TwoL1(split')))
    case AsWritten(split) =>
      match V.SplitCallW(split, q, junk)
      case None => None
      case Some((out, split')) => Some((out, AsWritten(split')))
  }

  /** Behind flushed caches. */
  ghost predicate FlushedStorage(store: Storage, mem: seq<Byte>)
  {
    match store
    case OneL1(cache) => cache == E.Flushed(mem)
    case TwoL1(split) => split == S.FlushedSplit(mem)
    case AsWritten(split) => split == S.FlushedSplit(mem)
  }

  /** What each version asks of a call: nothing; that it fetches no line `written` and
      writes no other; and in the code as written that its address is a line base too. */
  ghost predicate Suits(store: Storage, q: S.Request, written: set<nat>)
  {
    match store
    case OneL1(_) => true
    case TwoL1(_) => S.Allowed(q, written)
    case AsWritten(_) => S.Allowed(q, written) && q.op.addr % LINE_BYTES == 0
  }

  /** And of what it writes: the code as written ORs bytes. */
  ghost predicate Storable(store: Storage, mem: seq<Byte>, op: Op)
    requires InMemory(mem, op.addr)
  {
    store.AsWritten? && op.addr % LINE_BYTES == 0 ==> X.OnlySets(mem, op)
  }

  ghost predicate Sane(store: Storage, written: set<nat>)
  {
    match store
    case OneL1(cache) => exists history :: E.Inv(cache, history)
    case TwoL1(split) => exists fetched, used :: S.SplitInv(split, fetched, used, written)
    case AsWritten(split) => V.SplitSound(split, written)
  }

  lemma {:induction false} SaneShaped(store: Storage, written: set<nat>)
    requires Sane(store, written)
    ensures StorageShaped(store)
  {
    hide E.Inv, S.SplitInv;
    match store
    case OneL1(cache) =>
      var history :| E.Inv(cache, history);
      R.InvShaped(cache, history);
    case TwoL1(split) =>
      var fetched, used :| S.SplitInv(split, fetched, used, written);
      S.SplitMeans(split, fetched, used, written);
    case AsWritten(_) =>
  }

  lemma {:induction false} FlushedSane(store: Storage, mem: seq<Byte>, written: set<nat>)
    requires FlushedStorage(store, mem)
    ensures Sane(store, written) && MemoryOf(store) == mem
  {
    hide E.Inv, S.SplitInv, V.SplitSound;
    R.FlushedInv(mem);
    S.FlushedSplitInv(mem, written);
    V.FlushedSplitSound(mem, written);
  }

  lemma {:induction false} SuitedFits(store: Storage, q: S.Request, written: set<nat>)
    requires Suits(store, q, written) && InMemory(MemoryOf(store), q.op.addr)
    ensures StorageFits(store, q.op)
  {
  }

  /** A call that suits does what flat memory does. */
  lemma {:induction false} AccessIsFlat(store: Storage, q: S.Request, junk: W.Junk, written: set<nat>)
    requires Sane(store, written) && InMemory(MemoryOf(store), q.op.addr)
    requires Suits(store, q, written) && Storable(store, MemoryOf(store), q.op)
    ensures StorageShaped(store) && StorageFits(store, q.op) && Access(store, q, junk).Some?
    ensures var (out, store') := Access(store, q, junk).value;
      && (out, MemoryOf(store')) == FlatStep(MemoryOf(store), q.op)
      && Sane(store', written) && SameVersion(store, store')
  {
    hide E.Inv, S.SplitInv, V.SplitSound, R.CacheStep, S.SplitStep, V.SplitCallW, FlatStep, X.OnlySets;
    SaneShaped(store, written);
    SuitedFits(store, q, written);
    match store
    case OneL1(cache) =>
      var history :| E.Inv(cache, history);
      R.StepIsFlat(cache, history, q.op);
    case TwoL1(split) =>
      var fetched, used :| S.SplitInv(split, fetched, used, written);
      fetched, used := S.SplitStepIsFlat(split, fetched, used, written, q);
    case AsWritten(split) =>
      V.SplitCallIsFlat(split, q, junk, written);
  }

  ghost predicate SameVersion(store: Storage, store': Storage)
  {
    store.OneL1? == store'.OneL1? && store.TwoL1? == store'.TwoL1? && store.AsWritten? == store'.AsWritten?
  }

  /** A byte that cannot be ORed in is stored wrongly by the code as written. */
  lemma {:induction false} AccessIsWrong(store: Storage, q: S.Request, junk: W.Junk, written: set<nat>)
    requires Sane(store, written) && InMemory(MemoryOf(store), q.op.addr)
    requires Suits(store, q, written) && !Storable(store, MemoryOf(store), q.op)
    ensures StorageShaped(store) && StorageFits(store, q.op)
    ensures Access(store, q, junk).Some? ==>
              MemoryOf(Access(store, q, junk).value.1) != FlatStep(MemoryOf(store), q.op).1
  {
    hide V.SplitSound, V.SplitCallW, FlatStep, X.OnlySets;
    SaneShaped(store, written);
    SuitedFits(store, q, written);
    V.SplitByteFails(store.split, q, junk, written);
  }
}
