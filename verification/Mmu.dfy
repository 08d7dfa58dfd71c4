/** The ways in which the simulator translates addresses: the page walk on every access, or
    one of its two TLBs in front of it. */
module Mmu {
  import opened Bytes
  import opened Outcomes
  import opened Addresses
  import opened PageWalk
  import opened Translation
  import H = HierarchySpec
  import F = FullTlbSpec

  /** No TLB, the two-level TLB, or the fully associative one. */
  datatype Mmu = Walker | TwoLevel(arrays: H.State) | Full(table: F.State)

  ghost predicate MmuShaped(mmu: Mmu)
  {
    match mmu
    case Walker => true
    case TwoLevel(arrays) => H.Shaped(arrays)
    case Full(table) => F.Shaped(table)
  }

  /** page_walk, or tlb_search of either TLB. */
  ghost function Translate(mem: seq<Byte>, va: VirtAddr, access: H.Access, mmu: Mmu): (r: (Reply, Mmu))
    requires MmuShaped(mmu) && WalkInMemory(mem, va)
    ensures MmuShaped(r.1)
  {
    match mmu
    case Walker =>
      (match Walk(mem, va) case Ok(pa) => (Found(false, pa), Walker) case Err(e) => (Failed(e), Walker))
    case TwoLevel(arrays) => var (reply, arrays') := H.Search(mem, va, access, arrays); (reply, TwoLevel(arrays'))
    case Full(table) => var (reply, table') := F.Search(mem, va, table); (reply, Full(table'))
  }

  /** After its flush; the fully associative TLB may have any number of lines. */
  ghost predicate FlushedMmu(mmu: Mmu)
  {
    mmu == Walker || mmu == TwoLevel(H.Flushed()) || exists n: nat :: n >= 1 && mmu == Full(F.Flushed(n))
  }

  /** A translation sees of memory nothing but the walk. */
  lemma {:induction false} TranslateByWalk(mem0: seq<Byte>, mem: seq<Byte>, va: VirtAddr, access: H.Access, mmu: Mmu)
    requires MmuShaped(mmu) && WalkInMemory(mem0, va) && WalkInMemory(mem, va) && Walk(mem0, va) == Walk(mem, va)
    ensures Translate(mem, va, access, mmu) == Translate(mem0, va, access, mmu)
  {
    hide Walk, WalkInMemory, H.Probe, H.Fill, H.SearchInvalid, F.Scan;
  }

  /** All that a TLB holds agrees with the page tables of `mem0`. */
  ghost predicate Agrees(mem0: seq<Byte>, vas: set<VirtAddr>, mmu: Mmu)
    requires Walkable(mem0, vas)
  {
    match mmu
    case Walker => true
    case TwoLevel(arrays) =>
      H.Inclusion(arrays) && exists pages :: H.TableHolds(mem0, vas, H.Table(arrays), pages)
    case Full(table) => exists pages :: F.Holds(mem0, vas, table, pages)
  }

  lemma {:induction false} FlushedAgrees(mem0: seq<Byte>, vas: set<VirtAddr>, mmu: Mmu)
    requires Walkable(mem0, vas) && FlushedMmu(mmu)
    ensures Agrees(mem0, vas, mmu)
  {
    hide WalkInMemory, H.Inclusion, H.TableHolds, H.Table, F.Holds, H.Flushed, F.Flushed;
    match mmu
    case Walker =>
    case TwoLevel(_) => H.FlushedHolds(mem0, vas);
    case Full(_) =>
      var n: nat :| n >= 1 && mmu == Full(F.Flushed(n));
      F.FlushedHolds(mem0, vas, n);
  }

  lemma {:induction false} AgreesShaped(mem0: seq<Byte>, vas: set<VirtAddr>, mmu: Mmu)
    requires Walkable(mem0, vas) && Agrees(mem0, vas, mmu)
    ensures MmuShaped(mmu)
  {
  }

  /** The reply is that of the walk. */
  ghost predicate RightReply(mem: seq<Byte>, mmu: Mmu, va: VirtAddr, access: H.Access)
    requires MmuShaped(mmu) && WalkInMemory(mem, va)
  {
    match Translate(mem, va, access, mmu).0
    case Failed(_) => Walk(mem, va).Err?
    case Found(_, pa) => Walk(mem, va) == Ok(pa)
  }

  /** What agrees with the page tables answers with their walk and agrees again. */
  lemma {:induction false} AgreeingTranslation(mem0: seq<Byte>, vas: set<VirtAddr>, mmu: Mmu, va: VirtAddr,
      access: H.Access)
    requires Walkable(mem0, vas) && va in vas && Agrees(mem0, vas, mmu)
    ensures MmuShaped(mmu) && RightReply(mem0, mmu, va, access)
    ensures Agrees(mem0, vas, Translate(mem0, va, access, mmu).1)
  {
    hide Walk, WalkInMemory, H.Search, H.Inclusion, H.Table, H.TableHolds, H.TableSearch, F.Search, F.Holds;
    AgreesShaped(mem0, vas, mmu);
    match mmu
    case Walker =>
    case TwoLevel(arrays) =>
      var pages :| H.TableHolds(mem0, vas, H.Table(arrays), pages);
      H.SearchKeepsInclusion(mem0, va, access, arrays);
      H.SearchRefinesTable(mem0, va, access, arrays);
      H.TableStep(mem0, vas, H.Table(arrays), pages, va);
    case Full(table) =>
      var pages :| F.Holds(mem0, vas, table, pages);
      F.SearchStep(mem0, vas, table, pages, va);
  }
}
