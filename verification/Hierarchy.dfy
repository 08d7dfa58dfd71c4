/** The two-level TLB in place (tlb_hrchy_mng.c): three arrays of lines. */
module Hierarchy {
  import opened Bytes
  import opened Outcomes
  import opened Addresses
  import opened PageWalk
  import opened Translation
  import opened HierarchySpec

  class Tlbs {
    const itlb: array<Entry>
    const dtlb: array<Entry>
    const l2: array<Entry>

    ghost predicate Valid()
    {
      && itlb.Length == dtlb.Length == L1_LINES && l2.Length == L2_LINES
      && itlb != dtlb && itlb != l2 && dtlb != l2
    }

    ghost function Contents(): State
      reads itlb, dtlb, l2
    {
      State(itlb[..], dtlb[..], l2[..])
    }

    constructor ()
      ensures Valid() && Contents() == Flushed()
      ensures fresh(itlb) && fresh(dtlb) && fresh(l2)
    {
      itlb := new Entry[L1_LINES](_ => Entry(0, 0, false));
      dtlb := new Entry[L1_LINES](_ => Entry(0, 0, false));
      l2 := new Entry[L2_LINES](_ => Entry(0, 0, false));
    }

    /** tlb_flush, on one of the arrays. */
    static method Flush(tlb: array<Entry>)
      modifies tlb
      ensures forall k :: 0 <= k < tlb.Length ==> tlb[k] == Entry(0, 0, false)
    {
      for i := 0 to tlb.Length
        invariant forall k :: 0 <= k < i ==> tlb[k] == Entry(0, 0, false)
      {
        tlb[i] := Entry(0, 0, false);
      }
    }

    /** tlb_hit, on one of the arrays. */
    static method Hit(va: VirtAddr, tlb: array<Entry>) returns (found: Option<PhyAddr>)
      requires tlb.Length == L1_LINES || tlb.Length == L2_LINES
      ensures found == match Probe(tlb[..], PageNumber(va))
                       case None => None
                       case Some(num) => Some(PhyAddr(num, va.offset))
    {
      var page := PageNumber(va);
      var index := page % tlb.Length;
      if tlb[index].v && page / tlb.Length == tlb[index].tag {
        return Some(PhyAddr(tlb[index].pageNum, va.offset));
      }
      return None;
    }

    /** tlb_entry_init and tlb_insert together, on one of the arrays. */
    static method InsertFor(page: Bits36, pageNum: Bits20, tlb: array<Entry>)
      requires tlb.Length == L1_LINES || tlb.Length == L2_LINES
      modifies tlb
      ensures tlb[..] == Fill(old(tlb[..]), page, pageNum)
    {
      tlb[page % tlb.Length] := EntryFor(page, pageNum, tlb.Length);
    }

    /** The body of tlb_search_invalid for one L1. */
    method Clear(l1: array<Entry>, page: Bits36)
      requires Valid() && l1.Length == L1_LINES && l1 != l2
      modifies l1
      ensures l1[..] == Invalidate(old(l1[..]), l2[..], page)
    {
      var i2 := page % L2_LINES;
      var evicted := Rebuilt(l2[i2].tag, i2, L2_LINES);
      var i1 := page % L1_LINES;
      var candidate := Rebuilt(l1[i1].tag, i1, L1_LINES);
      if l1[i1].v && candidate == evicted {
        l1[i1] := l1[i1].(v := false);
      }
    }

    /** tlb_search_invalid. */
    method ClearOther(page: Bits36, access: Access)
      requires Valid()
      modifies itlb, dtlb
      ensures Contents() == SearchInvalid(old(Contents()), page, access)
    {
      match access
      case Instruction => Clear(dtlb, page);
      case Data => Clear(itlb, page);
    }

    /** tlb_search. */
    method Search(mem: array<Byte>, va: VirtAddr, access: Access) returns (reply: Reply)
      requires Valid() && WalkInMemory(mem[..], va)
      modifies itlb, dtlb, l2
      ensures (reply, Contents()) == HierarchySpec.Search(mem[..], va, access, old(Contents()))
    {
      hide Walk, WalkInMemory, Invalidate, Fill, Probe;
      var page := PageNumber(va);
      var found := Hit(va, if access == Instruction then itlb else dtlb);
      if found.Some? {
        return Found(true, found.value);
      }
      found := Hit(va, l2);
      if found.Some? {
        InsertFor(page, found.value.pageNum, itlb);
        return Found(true, found.value);
      }
      var walk := Walk(mem[..], va);
      if walk.Err? {
        return Failed(ErrBadParameter);
      }
      ClearOther(page, access);
      InsertFor(page, walk.value.pageNum, l2);
      InsertFor(page, walk.value.pageNum, if access == Instruction then itlb else dtlb);
      reply := Found(false, walk.value);
    }
  }
}
