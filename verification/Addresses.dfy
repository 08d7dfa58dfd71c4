/** Virtual and physical addresses (addr.h, addr_mng.c).  Bit fields are bounded
    integers.  A shift is a multiplication or a division by a power of two, a
    mask is a remainder, and `|` of fields that share no bit is a sum. */
module Addresses {
  import opened Bytes
  import opened Outcomes
  import opened Arithmetic

  type Bits9 = x: int | 0 <= x < 0x200
  type Bits12 = x: int | 0 <= x < 0x1000
  type Bits16 = x: int | 0 <= x < 0x1_0000
  type Bits20 = x: int | 0 <= x < 0x10_0000
  type Bits36 = x: int | 0 <= x < 0x10_0000_0000
  type Uint64 = x: int | 0 <= x < 0x1_0000_0000_0000_0000

  const PAGE_SIZE := 0x1000

  datatype VirtAddr = VirtAddr(
    reserved: Bits16, pgd: Bits9, pud: Bits9, pmd: Bits9, pte: Bits9, offset: Bits12)

  datatype PhyAddr = PhyAddr(pageNum: Bits20, offset: Bits12)

  /** init_virt_addr: each argument is 16 bits wide and must fit its field. */
  function InitVirtAddr(pgd: Bits16, pud: Bits16, pmd: Bits16, pte: Bits16, offset: Bits16): Result<VirtAddr>
  {
    if pgd / 0x200 != 0 || pud / 0x200 != 0 || pte / 0x200 != 0 || pmd / 0x200 != 0 then Err(ErrBadParameter)
    else if offset / 0x1000 != 0 then Err(ErrBadParameter)
    else Ok(VirtAddr(0, pgd, pud, pmd, pte, offset))
  }

  /** init_virt_addr64. */
  function InitVirtAddr64(v: Uint64): VirtAddr
  {
    VirtAddr(
      0,
      v / 0x80_0000_0000 % 0x200,
      v / 0x4000_0000 % 0x200,
      v / 0x20_0000 % 0x200,
      v / 0x1000 % 0x200,
      v % 0x1000)
  }

  /** virt_addr_t_to_virtual_page_number. */
  function PageNumber(va: VirtAddr): Bits36
  {
    va.pte + 0x200 * va.pmd + 0x4_0000 * va.pud + 0x800_0000 * va.pgd
  }

  /** virt_addr_t_to_uint64_t. */
  function ToUint64(va: VirtAddr): Uint64
  {
    PageNumber(va) * PAGE_SIZE + va.offset
  }

  /** init_phy_addr. */
  function InitPhyAddr(pageBegin: Uint32, pageOffset: Uint32): Result<PhyAddr>
  {
    if pageOffset / 0x1000 != 0 then Err(ErrBadParameter)
    else if pageBegin % PAGE_SIZE != 0 then Err(ErrBadParameter)
    else Ok(PhyAddr(pageBegin / PAGE_SIZE, pageOffset))
  }

  /** phy_addr_t_to_uint32_t. */
  function ToUint32(pa: PhyAddr): Uint32
  {
    pa.pageNum * PAGE_SIZE + pa.offset
  }

  /** Reading a 64-bit pattern into a structure and back keeps exactly its 48 low bits. */
  lemma PatternRoundTrip(v: Uint64)
    ensures ToUint64(InitVirtAddr64(v)) == v % 0x1_0000_0000_0000
  {
    var a, b, c, d := v / 0x1000, v / 0x20_0000, v / 0x4000_0000, v / 0x80_0000_0000;
    assert v == 0x1000 * a + v % 0x1000;
    assert b == a / 0x200 && a == 0x200 * b + a % 0x200;
    assert c == b / 0x200 && b == 0x200 * c + b % 0x200;
    assert d == c / 0x200 && c == 0x200 * d + c % 0x200;
    assert v == ToUint64(InitVirtAddr64(v)) + 0x1_0000_0000_0000 * (d / 0x200);
  }

  /** Writing a structure out and reading it back is the identity exactly on the
      structures whose reserved bits are zero. */
  lemma StructRoundTrip(va: VirtAddr)
    ensures InitVirtAddr64(ToUint64(va)) == va <==> va.reserved == 0
  {
    FieldsOfPattern(va);
  }

  lemma FieldsOfPattern(va: VirtAddr)
    ensures InitVirtAddr64(ToUint64(va)) == va.(reserved := 0)
  {
    var n2 := va.pmd + 0x200 * va.pud + 0x4_0000 * va.pgd;
    var n3 := va.pud + 0x200 * va.pgd;
    Quotient(PageNumber(va), va.offset, 0x1000);
    Quotient(n2, va.offset + 0x1000 * va.pte, 0x20_0000);
    Quotient(n3, va.offset + 0x1000 * va.pte + 0x20_0000 * va.pmd, 0x4000_0000);
    Quotient(va.pgd, va.offset + 0x1000 * va.pte + 0x20_0000 * va.pmd + 0x4000_0000 * va.pud, 0x80_0000_0000);
    Quotient(n2, va.pte, 0x200);
    Quotient(n3, va.pmd, 0x200);
    Quotient(va.pgd, va.pud, 0x200);
  }

  /** A page number names one path through the four tables. */
  lemma PageNumberInjective(va: VirtAddr, vb: VirtAddr)
    requires PageNumber(va) == PageNumber(vb)
    ensures va.pgd == vb.pgd && va.pud == vb.pud && va.pmd == vb.pmd && va.pte == vb.pte
  {
    FieldsOfPattern(va.(offset := 0));
    FieldsOfPattern(vb.(offset := 0));
  }

  /** The five arguments of init_virt_addr are accepted exactly when they fit,
      and then both constructors agree. */
  lemma ConstructorsAgree(pgd: Bits16, pud: Bits16, pmd: Bits16, pte: Bits16, offset: Bits16)
    ensures var r := InitVirtAddr(pgd, pud, pmd, pte, offset);
      && (r.Ok? <==> pgd < 0x200 && pud < 0x200 && pmd < 0x200 && pte < 0x200 && offset < 0x1000)
      && (r.Ok? ==> InitVirtAddr64(ToUint64(r.value)) == r.value
                    && ToUint64(r.value) ==
                       offset + 0x1000 * pte + 0x20_0000 * pmd + 0x4000_0000 * pud + 0x80_0000_0000 * pgd)
  {
    var r := InitVirtAddr(pgd, pud, pmd, pte, offset);
    if r.Ok? {
      FieldsOfPattern(r.value);
    }
  }

  /** init_phy_addr accepts exactly a page-aligned start with an offset inside the
      page, and the packed address is then their sum. */
  lemma PhysicalRoundTrip(pageBegin: Uint32, pageOffset: Uint32)
    ensures var r := InitPhyAddr(pageBegin, pageOffset);
      && (r.Ok? <==> pageBegin % PAGE_SIZE == 0 && pageOffset < PAGE_SIZE)
      && (r.Ok? ==> ToUint32(r.value) == pageBegin + pageOffset)
  {
    assert pageBegin == PAGE_SIZE * (pageBegin / PAGE_SIZE) + pageBegin % PAGE_SIZE;
  }

  /** Packing loses nothing: the two fields can be read back. */
  lemma PackedFields(pa: PhyAddr)
    ensures ToUint32(pa) / PAGE_SIZE == pa.pageNum && ToUint32(pa) % PAGE_SIZE == pa.offset
  {
  }
}
