/** The four-level page walk (page_walk.c), the specification of both TLBs. */
module PageWalk {
  import opened Bytes
  import opened Outcomes
  import opened Addresses

  /** Byte offset of entry `index` of the table that starts at `pageStart`:
      the source indexes an array of 4-byte entries with `pageStart / 4 + index`. */
  function EntryOffset(pageStart: Uint32, index: Bits9): nat
  {
    (pageStart / 4 + index) * 4
  }

  predicate EntryInMemory(mem: seq<Byte>, pageStart: Uint32, index: Bits9)
  {
    EntryOffset(pageStart, index) + 4 <= |mem|
  }

  /** read_page_entry. */
  function ReadPageEntry(mem: seq<Byte>, pageStart: Uint32, index: Bits9): Uint32
    requires EntryInMemory(mem, pageStart, index)
  {
    var at := EntryOffset(pageStart, index);
    Decode(mem[at..at + 4])
  }

  /** The walk reads inside the simulated memory; outside it C has no meaning. */
  predicate WalkInMemory(mem: seq<Byte>, va: VirtAddr)
  {
    EntryInMemory(mem, 0, va.pgd) &&
    var pud := ReadPageEntry(mem, 0, va.pgd);
    EntryInMemory(mem, pud, va.pud) &&
    var pmd := ReadPageEntry(mem, pud, va.pud);
    EntryInMemory(mem, pmd, va.pmd) &&
    var pt := ReadPageEntry(mem, pmd, va.pmd);
    EntryInMemory(mem, pt, va.pte)
  }

  /** The byte offsets of the four entries a walk reads. */
  function TableOffsets(mem: seq<Byte>, va: VirtAddr): (offsets: seq<nat>)
    requires WalkInMemory(mem, va)
    ensures |offsets| == 4
  {
    var pud := ReadPageEntry(mem, 0, va.pgd);
    var pmd := ReadPageEntry(mem, pud, va.pud);
    var pt := ReadPageEntry(mem, pmd, va.pmd);
    [EntryOffset(0, va.pgd), EntryOffset(pud, va.pud), EntryOffset(pmd, va.pmd), EntryOffset(pt, va.pte)]
  }

  /** page_walk: the error of init_phy_addr is the only one. */
  function Walk(mem: seq<Byte>, va: VirtAddr): Result<PhyAddr>
    requires WalkInMemory(mem, va)
  {
    var pud := ReadPageEntry(mem, 0, va.pgd);
    var pmd := ReadPageEntry(mem, pud, va.pud);
    var pt := ReadPageEntry(mem, pmd, va.pmd);
    InitPhyAddr(ReadPageEntry(mem, pt, va.pte), va.offset)
  }

  /** Two addresses in one page share their walk, and the offset passes through. */
  lemma WalkByPage(mem: seq<Byte>, va: VirtAddr, vb: VirtAddr)
    requires WalkInMemory(mem, va)
    requires PageNumber(va) == PageNumber(vb)
    ensures WalkInMemory(mem, vb)
    ensures Walk(mem, va).Err? ==> Walk(mem, vb) == Walk(mem, va)
    ensures Walk(mem, va).Ok? ==>
              Walk(mem, va).value.offset == va.offset &&
              Walk(mem, vb) == Ok(PhyAddr(Walk(mem, va).value.pageNum, vb.offset))
  {
    PageNumberInjective(va, vb);
  }

  /** The bytes of the entry at offset `at` are the same in both memories. */
  ghost predicate SameEntry(mem: seq<Byte>, mem': seq<Byte>, at: nat)
  {
    at + 4 <= |mem| && |mem'| == |mem| && mem'[at..at + 4] == mem[at..at + 4]
  }

  lemma ReadFrame(mem: seq<Byte>, mem': seq<Byte>, pageStart: Uint32, index: Bits9)
    requires SameEntry(mem, mem', EntryOffset(pageStart, index))
    ensures EntryInMemory(mem, pageStart, index) && EntryInMemory(mem', pageStart, index)
    ensures ReadPageEntry(mem', pageStart, index) == ReadPageEntry(mem, pageStart, index)
  {
  }

  /** A walk depends on nothing but the four entries it reads. */
  lemma WalkFrame(mem: seq<Byte>, mem': seq<Byte>, va: VirtAddr)
    requires WalkInMemory(mem, va)
    requires forall at :: at in TableOffsets(mem, va) ==> SameEntry(mem, mem', at)
    ensures WalkInMemory(mem', va)
    ensures Walk(mem', va) == Walk(mem, va)
    ensures TableOffsets(mem', va) == TableOffsets(mem, va)
  {
    hide EntryOffset, EntryInMemory, ReadPageEntry, SameEntry, InitPhyAddr;
    var offsets := TableOffsets(mem, va);
    var pud := ReadPageEntry(mem, 0, va.pgd);
    var pmd := ReadPageEntry(mem, pud, va.pud);
    var pt := ReadPageEntry(mem, pmd, va.pmd);
    assert offsets[0] in offsets && offsets[1] in offsets && offsets[2] in offsets && offsets[3] in offsets;
    ReadFrame(mem, mem', 0, va.pgd);
    ReadFrame(mem, mem', pud, va.pud);
    ReadFrame(mem, mem', pmd, va.pmd);
    ReadFrame(mem, mem', pt, va.pte);
  }

  // ----- what a walk computes, in numbers

  /** The four bytes from offset `at` on hold the number `x`, lowest byte first. */
  ghost predicate NumberAt(mem: seq<Byte>, at: nat, x: Uint32)
  {
    at + 4 <= |mem| &&
    var b0: int, b1: int, b2: int, b3: int := mem[at], mem[at + 1], mem[at + 2], mem[at + 3];
    x == b0 + 0x100 * b1 + 0x1_0000 * b2 + 0x100_0000 * b3
  }

  lemma {:induction false} EntryIsNumber(mem: seq<Byte>, pageStart: Uint32, index: Bits9, x: Uint32)
    requires NumberAt(mem, pageStart / 4 * 4 + 4 * index, x)
    ensures EntryInMemory(mem, pageStart, index) && ReadPageEntry(mem, pageStart, index) == x
  {
    var at := pageStart / 4 * 4 + 4 * index;
    assert mem[at..at + 4] == [mem[at], mem[at + 1], mem[at + 2], mem[at + 3]];
  }

  lemma {:induction false} EntryHasNumber(mem: seq<Byte>, pageStart: Uint32, index: Bits9)
    requires EntryInMemory(mem, pageStart, index)
    ensures NumberAt(mem, pageStart / 4 * 4 + 4 * index, ReadPageEntry(mem, pageStart, index))
  {
    var at := pageStart / 4 * 4 + 4 * index;
    assert mem[at..at + 4] == [mem[at], mem[at + 1], mem[at + 2], mem[at + 3]];
  }

  /** Four numbers `a`, `b`, `c` and `f`, each found through the one before and an index of
      the address, the first in the table at 0, are a walk to frame `f`. */
  ghost predicate Path(mem: seq<Byte>, va: VirtAddr, a: Uint32, b: Uint32, c: Uint32, f: Uint32)
  {
    && NumberAt(mem, 4 * va.pgd, a)
    && NumberAt(mem, a / 4 * 4 + 4 * va.pud, b)
    && NumberAt(mem, b / 4 * 4 + 4 * va.pmd, c)
    && NumberAt(mem, c / 4 * 4 + 4 * va.pte, f)
  }

  /** The result of a walk: the offset in the page that begins at `f`, if a page begins there. */
  lemma {:induction false} WalkFollowsPath(mem: seq<Byte>, va: VirtAddr, a: Uint32, b: Uint32, c: Uint32, f: Uint32)
    requires Path(mem, va, a, b, c, f)
    ensures WalkInMemory(mem, va)
    ensures Walk(mem, va) == if f % 0x1000 == 0 then Ok(PhyAddr(f / 0x1000, va.offset)) else Err(ErrBadParameter)
  {
    hide EntryInMemory, ReadPageEntry, NumberAt;
    EntryIsNumber(mem, 0, va.pgd, a);
    EntryIsNumber(mem, a, va.pud, b);
    EntryIsNumber(mem, b, va.pmd, c);
    EntryIsNumber(mem, c, va.pte, f);
  }

  /** Every walk that stays in memory has such a path. */
  lemma {:induction false} WalkHasPath(mem: seq<Byte>, va: VirtAddr)
    returns (a: Uint32, b: Uint32, c: Uint32, f: Uint32)
    requires WalkInMemory(mem, va)
    ensures Path(mem, va, a, b, c, f)
  {
    hide EntryInMemory, ReadPageEntry, NumberAt;
    a := ReadPageEntry(mem, 0, va.pgd);
    b := ReadPageEntry(mem, a, va.pud);
    c := ReadPageEntry(mem, b, va.pmd);
    f := ReadPageEntry(mem, c, va.pte);
    EntryHasNumber(mem, 0, va.pgd);
    EntryHasNumber(mem, a, va.pud);
    EntryHasNumber(mem, b, va.pmd);
    EntryHasNumber(mem, c, va.pte);
  }

  /** Tables at 0, 0x1000, 0x2000 and 0x3000 that lead the first page to frame 4. */
  lemma {:induction false} FirstPageToFrameFour(mem: seq<Byte>, offset: Bits12)
    requires NumberAt(mem, 0, 0x1000) && NumberAt(mem, 0x1000, 0x2000)
    requires NumberAt(mem, 0x2000, 0x3000) && NumberAt(mem, 0x3000, 0x4000)
    ensures var va := VirtAddr(0, 0, 0, 0, 0, offset);
      WalkInMemory(mem, va) && Walk(mem, va) == Ok(PhyAddr(4, offset))
  {
    hide Walk, WalkInMemory, NumberAt;
    WalkFollowsPath(mem, VirtAddr(0, 0, 0, 0, 0, offset), 0x1000, 0x2000, 0x3000, 0x4000);
  }
}
