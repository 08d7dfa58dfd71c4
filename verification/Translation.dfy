/** What both TLBs answer and what each of their entries must satisfy. */
module Translation {
  import opened Bytes
  import opened Outcomes
  import opened Addresses
  import opened PageWalk

  /** The three results of a search: the error code, `hit_or_miss` and `paddr`. */
  datatype Reply = Found(hit: bool, paddr: PhyAddr) | Failed(error: ErrorCode)

  /** The addresses of interest are those of a set; their walks stay in memory. */
  ghost predicate Walkable(mem: seq<Byte>, vas: set<VirtAddr>)
  {
    forall va :: va in vas ==> WalkInMemory(mem, va)
  }

  /** Frame `pageNum` is what the page tables say about virtual page `page`. */
  ghost predicate Translates(mem: seq<Byte>, vas: set<VirtAddr>, page: Bits36, pageNum: Bits20)
    requires Walkable(mem, vas)
  {
    forall va :: va in vas && PageNumber(va) == page ==> Walk(mem, va) == Ok(PhyAddr(pageNum, va.offset))
  }

  /** A successful walk for one address is right for its whole page. */
  lemma WalkTranslates(mem: seq<Byte>, vas: set<VirtAddr>, va: VirtAddr)
    requires Walkable(mem, vas) && va in vas && Walk(mem, va).Ok?
    ensures Walk(mem, va).value.offset == va.offset
    ensures Translates(mem, vas, PageNumber(va), Walk(mem, va).value.pageNum)
  {
    forall vb | vb in vas && PageNumber(vb) == PageNumber(va)
      ensures Walk(mem, vb) == Ok(PhyAddr(Walk(mem, va).value.pageNum, vb.offset))
    {
      WalkByPage(mem, va, vb);
    }
    WalkByPage(mem, va, va);
  }

  /** The addresses of a run. */
  ghost function AddressesOf(xs: seq<VirtAddr>): set<VirtAddr>
  {
    set va | va in xs
  }

  /** The pages of the accesses of a run whose walk succeeds. */
  ghost function Pages(mem: seq<Byte>, xs: seq<VirtAddr>): seq<Bits36>
    requires forall va :: va in xs ==> WalkInMemory(mem, va)
  {
    if xs == [] then []
    else
      var va := xs[|xs| - 1];
      Pages(mem, xs[..|xs| - 1]) + if Walk(mem, va).Ok? then [PageNumber(va)] else []
  }
}
