/** The two-level TLB (tlb_hrchy.h, tlb_hrchy_mng.c) on values: two direct-mapped
    L1 TLBs of 16 lines over a direct-mapped L2 of 64, and why the three arrays
    together are observably one table of 64 entries. */
module HierarchySpec {
  import opened Bytes
  import opened Outcomes
  import opened Arithmetic
  import opened Addresses
  import opened PageWalk
  import opened Translation

  const L1_LINES := 16
  const L2_LINES := 64

  /** The tag field has 32 bits in L1 and 30 bits in L2. */
  datatype Entry = Entry(tag: Uint32, pageNum: Bits20, v: bool)

  datatype Access = Instruction | Data

  datatype State = State(itlb: seq<Entry>, dtlb: seq<Entry>, l2: seq<Entry>)

  datatype Request = Request(va: VirtAddr, access: Access)

  ghost predicate Shaped(st: State)
  {
    |st.itlb| == L1_LINES && |st.dtlb| == L1_LINES && |st.l2| == L2_LINES
  }

  /** tlb_flush of all three. */
  ghost function Flushed(): State
  {
    var empty := Entry(0, 0, false);
    State(seq(L1_LINES, _ => empty), seq(L1_LINES, _ => empty), seq(L2_LINES, _ => empty))
  }

  /** tlb_entry_init: the tag is the page number without the bits of the index. */
  function EntryFor(page: Bits36, pageNum: Bits20, lines: nat): Entry
    requires lines == L1_LINES || lines == L2_LINES
  {
    Entry(page / lines, pageNum, true)
  }

  /** tlb_hit. */
  function Probe(tlb: seq<Entry>, page: Bits36): Option<Bits20>
    requires |tlb| == L1_LINES || |tlb| == L2_LINES
  {
    var line := tlb[page % |tlb|];
    if line.v && page / |tlb| == line.tag then Some(line.pageNum) else None
  }

  /** The number that tlb_search_invalid rebuilds from a tag and an index, as
      `(tag << bits) | index` in `uint32_t` arithmetic.  The shift drops the bits
      of a 36-bit page number above the 32nd; it ends in zeros, so `|` is `+`. */
  function Rebuilt(tag: Uint32, index: nat, lines: nat): nat
  {
    tag * lines % 0x1_0000_0000 + index
  }

  /** The test of tlb_search_invalid; it does not look at the valid bit of L2. */
  function MustInvalidate(l1: seq<Entry>, l2: seq<Entry>, page: Bits36): bool
    requires |l1| == L1_LINES && |l2| == L2_LINES
  {
    var i1, i2 := page % L1_LINES, page % L2_LINES;
    l1[i1].v && Rebuilt(l1[i1].tag, i1, L1_LINES) == Rebuilt(l2[i2].tag, i2, L2_LINES)
  }

  function Invalidate(l1: seq<Entry>, l2: seq<Entry>, page: Bits36): seq<Entry>
    requires |l1| == L1_LINES && |l2| == L2_LINES
  {
    var i1 := page % L1_LINES;
    if MustInvalidate(l1, l2, page) then l1[i1 := l1[i1].(v := false)] else l1
  }

  /** tlb_search_invalid: an instruction miss checks the DTLB, a data miss the ITLB. */
  function SearchInvalid(st: State, page: Bits36, access: Access): State
    requires Shaped(st)
  {
    match access
    case Instruction => st.(dtlb := Invalidate(st.dtlb, st.l2, page))
    case Data => st.(itlb := Invalidate(st.itlb, st.l2, page))
  }

  function Fill(tlb: seq<Entry>, page: Bits36, pageNum: Bits20): (filled: seq<Entry>)
    requires |tlb| == L1_LINES || |tlb| == L2_LINES
    ensures |filled| == |tlb|
  {
    tlb[page % |tlb| := EntryFor(page, pageNum, |tlb|)]
  }

  /** tlb_search.  A hit in L2 refills the ITLB whatever the kind of access. */
  ghost function Search(mem: seq<Byte>, va: VirtAddr, access: Access, st: State): (result: (Reply, State))
    requires Shaped(st) && WalkInMemory(mem, va)
    ensures Shaped(result.1)
  {
    var page := PageNumber(va);
    match Probe(if access == Instruction then st.itlb else st.dtlb, page)
    case Some(num) => (Found(true, PhyAddr(num, va.offset)), st)
    case None =>
      match Probe(st.l2, page)
      case Some(num) => (Found(true, PhyAddr(num, va.offset)), st.(itlb := Fill(st.itlb, page, num)))
      case None =>
        match Walk(mem, va)
        case Err(_) => (Failed(ErrBadParameter), st)
        case Ok(pa) =>
          var cleared := SearchInvalid(st, page, access);
          var filled := cleared.(l2 := Fill(cleared.l2, page, pa.pageNum));
          (Found(false, pa),
           match access
           case Instruction => filled.(itlb := Fill(filled.itlb, page, pa.pageNum))
           case Data => filled.(dtlb := Fill(filled.dtlb, page, pa.pageNum)))
  }

  /** The page that line `i` of a TLB is about. */
  function PageOf(line: Entry, i: nat, lines: nat): nat
  {
    line.tag * lines + i
  }

  ghost predicate HoldsPage(tlb: seq<Entry>, page: nat, pageNum: Bits20)
    requires |tlb| > 0
  {
    var i := page % |tlb|;
    tlb[i].v && PageOf(tlb[i], i, |tlb|) == page && tlb[i].pageNum == pageNum
  }

  ghost predicate Included(l1: seq<Entry>, l2: seq<Entry>)
    requires |l1| == L1_LINES && |l2| == L2_LINES
  {
    forall i :: 0 <= i < L1_LINES && l1[i].v ==> HoldsPage(l2, PageOf(l1[i], i, L1_LINES), l1[i].pageNum)
  }

  /** Every valid line of an L1 is in L2 with the same frame. */
  ghost predicate Inclusion(st: State)
  {
    && Shaped(st)
    && Included(st.itlb, st.l2)
    && Included(st.dtlb, st.l2)
  }

  // ----- the reference: one table of 64 entries

  datatype Mapping = Mapping(page: nat, pageNum: Bits20)

  /** What the three arrays stand for. */
  ghost function Table(st: State): (t: seq<Option<Mapping>>)
    requires Shaped(st)
    ensures |t| == L2_LINES
  {
    seq(L2_LINES, i requires 0 <= i < L2_LINES =>
      if st.l2[i].v then Some(Mapping(PageOf(st.l2[i], i, L2_LINES), st.l2[i].pageNum)) else None)
  }

  /** One search of a direct-mapped table. */
  ghost function TableSearch(mem: seq<Byte>, va: VirtAddr, t: seq<Option<Mapping>>): (Reply, seq<Option<Mapping>>)
    requires |t| == L2_LINES && WalkInMemory(mem, va)
  {
    var page := PageNumber(va);
    var slot := t[page % L2_LINES];
    if slot.Some? && slot.value.page == page then (Found(true, PhyAddr(slot.value.pageNum, va.offset)), t)
    else
      match Walk(mem, va)
      case Err(_) => (Failed(ErrBadParameter), t)
      case Ok(pa) => (Found(false, pa), t[page % L2_LINES := Some(Mapping(page, pa.pageNum))])
  }

  /** A probe succeeds exactly on the page that the line is about. */
  lemma {:induction false} ProbeIsHeld(tlb: seq<Entry>, page: Bits36)
    requires |tlb| == L1_LINES || |tlb| == L2_LINES
    ensures Probe(tlb, page).Some? <==> HoldsPage(tlb, page, tlb[page % |tlb|].pageNum)
    ensures Probe(tlb, page).Some? ==> Probe(tlb, page).value == tlb[page % |tlb|].pageNum
  {
    var i := page % |tlb|;
    Divided(page, |tlb|);
    Quotient(tlb[i].tag, i, |tlb|);
  }

  lemma {:induction false} FillHolds(tlb: seq<Entry>, page: Bits36, pageNum: Bits20)
    requires |tlb| == L1_LINES || |tlb| == L2_LINES
    ensures HoldsPage(Fill(tlb, page, pageNum), page, pageNum)
    ensures forall i :: 0 <= i < |tlb| && i != page % |tlb| ==> Fill(tlb, page, pageNum)[i] == tlb[i]
  {
    Divided(page, |tlb|);
  }

  /** What is rebuilt is the page number modulo 2^32. */
  lemma {:induction false} RebuiltIsPage(line: Entry, i: nat, lines: nat)
    requires lines == L1_LINES || lines == L2_LINES
    requires i < lines
    ensures Rebuilt(line.tag, i, lines) == PageOf(line, i, lines) % 0x1_0000_0000
  {
    var top := if lines == L1_LINES then 0x1000_0000 else 0x400_0000;
    var q, r := line.tag / top, line.tag % top;
    Divided(line.tag, top);
    Quotient(q, lines * r, 0x1_0000_0000);
    Quotient(q, lines * r + i, 0x1_0000_0000);
  }

  lemma {:induction false} LowBits(x: nat)
    ensures x % 0x1_0000_0000 % L2_LINES == x % L2_LINES
  {
    var a, y := x / 0x1_0000_0000, x % 0x1_0000_0000;
    Divided(x, 0x1_0000_0000);
    Divided(y, L2_LINES);
    Quotient(0x400_0000 * a + y / L2_LINES, y % L2_LINES, L2_LINES);
  }

  /** Although the comparison keeps 32 bits of a 36-bit page number and ignores the
      valid bit of L2, under inclusion it succeeds exactly when the L1 line holds
      the very page that is about to be evicted from L2. */
  lemma {:induction false} InvalidationIsExact(l1: seq<Entry>, l2: seq<Entry>, page: Bits36)
    requires |l1| == L1_LINES && |l2| == L2_LINES && Included(l1, l2)
    ensures var i1, i2 := page % L1_LINES, page % L2_LINES;
      MustInvalidate(l1, l2, page) <==>
      l1[i1].v && l2[i2].v && PageOf(l1[i1], i1, L1_LINES) == PageOf(l2[i2], i2, L2_LINES)
  {
    var i1, i2 := page % L1_LINES, page % L2_LINES;
    var p1, p2 := PageOf(l1[i1], i1, L1_LINES), PageOf(l2[i2], i2, L2_LINES);
    RebuiltIsPage(l1[i1], i1, L1_LINES);
    RebuiltIsPage(l2[i2], i2, L2_LINES);
    LowBits(p1);
    LowBits(p2);
    Quotient(l2[i2].tag, i2, L2_LINES);
  }

  // ----- one search keeps inclusion and refines the table

  /** Replacing line `page % 64` of L2 is harmless to an L1 that does not hold the
      page evicted there. */
  lemma {:induction false} EvictionKeepsIncluded(l1: seq<Entry>, l2: seq<Entry>, page: Bits36, pageNum: Bits20)
    requires |l1| == L1_LINES && |l2| == L2_LINES && Included(l1, l2)
    requires var i1, i2 := page % L1_LINES, page % L2_LINES;
      !(l1[i1].v && l2[i2].v && PageOf(l1[i1], i1, L1_LINES) == PageOf(l2[i2], i2, L2_LINES))
    ensures Included(l1, Fill(l2, page, pageNum))
  {
    var i2 := page % L2_LINES;
    FillHolds(l2, page, pageNum);
    forall i | 0 <= i < L1_LINES && l1[i].v
      ensures HoldsPage(Fill(l2, page, pageNum), PageOf(l1[i], i, L1_LINES), l1[i].pageNum)
    {
      var p := PageOf(l1[i], i, L1_LINES);
      Quotient(l1[i].tag, i, L1_LINES);
      SameClass(p, page);
      assert HoldsPage(l2, p, l1[i].pageNum);
    }
  }

  /** Pages that share an L2 line share an L1 line. */
  lemma {:induction false} SameClass(p: nat, q: nat)
    ensures p % L2_LINES == q % L2_LINES ==> p % L1_LINES == q % L1_LINES
  {
    Divided(p, L2_LINES);
    Divided(q, L2_LINES);
    var c, d := p % L2_LINES, q % L2_LINES;
    Divided(c, L1_LINES);
    Divided(d, L1_LINES);
    Quotient(4 * (p / L2_LINES) + c / L1_LINES, c % L1_LINES, L1_LINES);
    Quotient(4 * (q / L2_LINES) + d / L1_LINES, d % L1_LINES, L1_LINES);
  }

  /** The same for an L1 whose line `page % 16` is about to be overwritten with the
      new page, which is where the evicted page would have been. */
  lemma {:induction false} FillKeepsIncluded(l1: seq<Entry>, l2: seq<Entry>, page: Bits36, pageNum: Bits20)
    requires |l1| == L1_LINES && |l2| == L2_LINES
    requires HoldsPage(l2, page, pageNum)
    requires forall i :: 0 <= i < L1_LINES && i != page % L1_LINES && l1[i].v ==>
      HoldsPage(l2, PageOf(l1[i], i, L1_LINES), l1[i].pageNum)
    ensures Included(Fill(l1, page, pageNum), l2)
  {
    Divided(page, L1_LINES);
  }

  lemma {:induction false} OwnSideKept(l1: seq<Entry>, l2: seq<Entry>, page: Bits36, pageNum: Bits20)
    requires |l1| == L1_LINES && |l2| == L2_LINES && Included(l1, l2)
    ensures Included(Fill(l1, page, pageNum), Fill(l2, page, pageNum))
  {
    FillHolds(l2, page, pageNum);
    forall i | 0 <= i < L1_LINES && i != page % L1_LINES && l1[i].v
      ensures HoldsPage(Fill(l2, page, pageNum), PageOf(l1[i], i, L1_LINES), l1[i].pageNum)
    {
      Quotient(l1[i].tag, i, L1_LINES);
      SameClass(PageOf(l1[i], i, L1_LINES), page);
      assert HoldsPage(l2, PageOf(l1[i], i, L1_LINES), l1[i].pageNum);
    }
    FillKeepsIncluded(l1, Fill(l2, page, pageNum), page, pageNum);
  }

  lemma {:induction false} OtherSideKept(l1: seq<Entry>, l2: seq<Entry>, page: Bits36, pageNum: Bits20)
    requires |l1| == L1_LINES && |l2| == L2_LINES && Included(l1, l2)
    ensures Included(Invalidate(l1, l2, page), Fill(l2, page, pageNum))
  {
    hide HoldsPage, Rebuilt, Fill;
    InvalidationIsExact(l1, l2, page);
    EvictionKeepsIncluded(Invalidate(l1, l2, page), l2, page, pageNum);
  }

  lemma {:induction false} SearchKeepsInclusion(mem: seq<Byte>, va: VirtAddr, access: Access, st: State)
    requires Inclusion(st) && WalkInMemory(mem, va)
    ensures Inclusion(Search(mem, va, access, st).1)
  {
    hide Walk, WalkInMemory, Included, Invalidate, Fill, Probe;
    var page := PageNumber(va);
    if Probe(st.l2, page).Some? {
      RefillKeepsInclusion(st, page);
    }
    if Walk(mem, va).Ok? {
      var num := Walk(mem, va).value.pageNum;
      OwnSideKept(st.itlb, st.l2, page, num);
      OwnSideKept(st.dtlb, st.l2, page, num);
      OtherSideKept(st.itlb, st.l2, page, num);
      OtherSideKept(st.dtlb, st.l2, page, num);
    }
  }

  /** The refill after an L2 hit, even of the ITLB by a data access. */
  lemma {:induction false} RefillKeepsInclusion(st: State, page: Bits36)
    requires Inclusion(st) && Probe(st.l2, page).Some?
    ensures Included(Fill(st.itlb, page, Probe(st.l2, page).value), st.l2)
  {
    ProbeIsHeld(st.l2, page);
    FillKeepsIncluded(st.itlb, st.l2, page, Probe(st.l2, page).value);
  }

  /** Under inclusion an L1 hit is an L2 hit with the same frame. */
  lemma {:induction false} L1HitIsL2Hit(l1: seq<Entry>, l2: seq<Entry>, page: Bits36)
    requires |l1| == L1_LINES && |l2| == L2_LINES && Included(l1, l2)
    requires Probe(l1, page).Some?
    ensures Probe(l2, page) == Probe(l1, page)
  {
    ProbeIsHeld(l1, page);
    ProbeIsHeld(l2, page);
    var i := page % L1_LINES;
    assert HoldsPage(l2, PageOf(l1[i], i, L1_LINES), l1[i].pageNum);
  }

  lemma {:induction false} TableProbe(st: State, page: Bits36)
    requires Shaped(st)
    ensures var slot := Table(st)[page % L2_LINES];
      Probe(st.l2, page) ==
      if slot.Some? && slot.value.page == page then Some(slot.value.pageNum) else None
  {
    ProbeIsHeld(st.l2, page);
  }

  lemma {:induction false} TableFill(st: State, st': State, page: Bits36, pageNum: Bits20)
    requires Shaped(st) && Shaped(st') && st'.l2 == Fill(st.l2, page, pageNum)
    ensures Table(st') == Table(st)[page % L2_LINES := Some(Mapping(page, pageNum))]
  {
    FillHolds(st.l2, page, pageNum);
  }

  /** One search: the three arrays answer as one table of 64 entries would, for
      either kind of access, and stand for the updated table afterwards. */
  lemma {:induction false} SearchRefinesTable(mem: seq<Byte>, va: VirtAddr, access: Access, st: State)
    requires Inclusion(st) && WalkInMemory(mem, va)
    ensures var (reply, st') := Search(mem, va, access, st);
      (reply, Table(st')) == TableSearch(mem, va, Table(st))
  {
    hide Walk, WalkInMemory, Included, Invalidate, Fill, Probe, Table;
    var page := PageNumber(va);
    var own := if access == Instruction then st.itlb else st.dtlb;
    var st' := Search(mem, va, access, st).1;
    TableProbe(st, page);
    if Probe(own, page).Some? {
      L1HitIsL2Hit(own, st.l2, page);
    } else if Probe(st.l2, page).Some? {
      SameL2SameTable(st, st');
    } else if Walk(mem, va).Ok? {
      TableFill(st, st', page, Walk(mem, va).value.pageNum);
    }
  }

  lemma {:induction false} SameL2SameTable(st: State, st': State)
    requires Shaped(st) && Shaped(st') && st'.l2 == st.l2
    ensures Table(st') == Table(st)
  {
  }

  // ----- whole runs

  ghost function RunFrom(mem: seq<Byte>, xs: seq<Request>, st: State): (result: (seq<Reply>, State))
    requires Shaped(st)
    requires forall x :: x in xs ==> WalkInMemory(mem, x.va)
    ensures |result.0| == |xs| && Shaped(result.1)
  {
    if xs == [] then ([], st)
    else
      var (replies, mid) := RunFrom(mem, xs[..|xs| - 1], st);
      var x := xs[|xs| - 1];
      var (reply, end) := Search(mem, x.va, x.access, mid);
      (replies + [reply], end)
  }

  ghost function AddressesIn(xs: seq<Request>): (vas: seq<VirtAddr>)
    ensures |vas| == |xs|
    ensures forall i :: 0 <= i < |xs| ==> vas[i] == xs[i].va
  {
    seq(|xs|, i requires 0 <= i < |xs| => xs[i].va)
  }

  /** The last page of a run that falls on line `c` of L2. */
  ghost function LastOf(pages: seq<Bits36>, c: nat): Option<Bits36>
  {
    if pages == [] then None
    else if pages[|pages| - 1] % L2_LINES == c then Some(pages[|pages| - 1])
    else LastOf(pages[..|pages| - 1], c)
  }

  /** The promised answer: the page walk's, with a hit exactly if the last
      translated page of the class is this one. */
  ghost function Answer(mem: seq<Byte>, va: VirtAddr, pages: seq<Bits36>): Reply
    requires WalkInMemory(mem, va)
  {
    match Walk(mem, va)
    case Err(_) => Failed(ErrBadParameter)
    case Ok(pa) => Found(LastOf(pages, PageNumber(va) % L2_LINES) == Some(PageNumber(va)), pa)
  }

  /** The table holds, class by class, the last page translated, with its frame. */
  ghost predicate TableHolds(mem: seq<Byte>, vas: set<VirtAddr>, t: seq<Option<Mapping>>, pages: seq<Bits36>)
    requires Walkable(mem, vas)
  {
    && |t| == L2_LINES
    && (forall c :: 0 <= c < L2_LINES ==>
          match LastOf(pages, c)
          case None => t[c] == None
          case Some(p) => t[c].Some? && t[c].value.page == p && Translates(mem, vas, p, t[c].value.pageNum))
  }

  lemma {:induction false} TableStep(mem: seq<Byte>, vas: set<VirtAddr>, t: seq<Option<Mapping>>, pages: seq<Bits36>,
                                     va: VirtAddr)
    requires Walkable(mem, vas) && va in vas && TableHolds(mem, vas, t, pages)
    ensures TableSearch(mem, va, t).0 == Answer(mem, va, pages)
    ensures TableHolds(mem, vas, TableSearch(mem, va, t).1,
                       pages + if Walk(mem, va).Ok? then [PageNumber(va)] else [])
  {
    var page := PageNumber(va);
    var c := page % L2_LINES;
    if Walk(mem, va).Ok? {
      WalkTranslates(mem, vas, va);
      assert (pages + [page])[..|pages|] == pages;
    } else {
      assert pages + [] == pages;
    }
  }

  /** In a state whose table is right, a failed walk changes none of the three arrays. */
  lemma {:induction false} FailedWalkChangesNothing(mem: seq<Byte>, vas: set<VirtAddr>, st: State, pages: seq<Bits36>,
                                 va: VirtAddr, access: Access)
    requires Walkable(mem, vas) && va in vas && Inclusion(st) && TableHolds(mem, vas, Table(st), pages)
    requires Walk(mem, va).Err?
    ensures Search(mem, va, access, st) == (Failed(ErrBadParameter), st)
  {
    hide Walk, WalkInMemory, Included, Invalidate, Fill, Probe, Table;
    var page := PageNumber(va);
    var own := if access == Instruction then st.itlb else st.dtlb;
    TableProbe(st, page);
    if Probe(own, page).Some? {
      L1HitIsL2Hit(own, st.l2, page);
    }
  }

  ghost function Answers(mem: seq<Byte>, xs: seq<Request>): (replies: seq<Reply>)
    requires forall x :: x in xs ==> WalkInMemory(mem, x.va)
    ensures |replies| == |xs|
  {
    if xs == [] then []
    else
      var before := xs[..|xs| - 1];
      Answers(mem, before) + [Answer(mem, xs[|xs| - 1].va, Pages(mem, AddressesIn(before)))]
  }

  lemma {:induction false} AnswersAt(mem: seq<Byte>, xs: seq<Request>, i: nat)
    requires forall x :: x in xs ==> WalkInMemory(mem, x.va)
    requires i < |xs|
    ensures Answers(mem, xs)[i] == Answer(mem, xs[i].va, Pages(mem, AddressesIn(xs[..i])))
  {
    hide Walk, WalkInMemory, Answer, Pages;
    var before := xs[..|xs| - 1];
    if i < |before| {
      AnswersAt(mem, before, i);
      assert before[..i] == xs[..i];
    }
  }

  lemma {:induction false} FlushedHolds(mem: seq<Byte>, vas: set<VirtAddr>)
    requires Walkable(mem, vas)
    ensures Inclusion(Flushed()) && TableHolds(mem, vas, Table(Flushed()), [])
  {
  }

  lemma {:induction false} PagesStep(mem: seq<Byte>, xs: seq<Request>)
    requires xs != []
    requires forall x :: x in xs ==> WalkInMemory(mem, x.va)
    ensures var before, va := xs[..|xs| - 1], xs[|xs| - 1].va;
      Pages(mem, AddressesIn(xs)) ==
      Pages(mem, AddressesIn(before)) + if Walk(mem, va).Ok? then [PageNumber(va)] else []
  {
    hide Walk, WalkInMemory;
    assert AddressesIn(xs)[..|xs| - 1] == AddressesIn(xs[..|xs| - 1]);
  }

  lemma {:induction false} RunHolds(mem: seq<Byte>, vas: set<VirtAddr>, xs: seq<Request>)
    requires Walkable(mem, vas)
    requires forall x :: x in xs ==> x.va in vas
    ensures Inclusion(RunFrom(mem, xs, Flushed()).1)
    ensures TableHolds(mem, vas, Table(RunFrom(mem, xs, Flushed()).1), Pages(mem, AddressesIn(xs)))
    ensures RunFrom(mem, xs, Flushed()).0 == Answers(mem, xs)
  {
    hide Walk, WalkInMemory, Search, Answer, Inclusion, TableHolds, TableSearch, Table, Pages, AddressesIn;
    if xs == [] {
      FlushedHolds(mem, vas);
      NoPages(mem);
    } else {
      var before, x := xs[..|xs| - 1], xs[|xs| - 1];
      RunHolds(mem, vas, before);
      var mid := RunFrom(mem, before, Flushed()).1;
      SearchKeepsInclusion(mem, x.va, x.access, mid);
      SearchRefinesTable(mem, x.va, x.access, mid);
      TableStep(mem, vas, Table(mid), Pages(mem, AddressesIn(before)), x.va);
      PagesStep(mem, xs);
    }
  }

  lemma {:induction false} NoPages(mem: seq<Byte>)
    ensures Pages(mem, AddressesIn([])) == []
  {
  }

  /** Whole runs of the hierarchy from flushed arrays, with any mix of accesses:
      every reply is the page walk's, and it is a hit exactly if the last page
      translated in its class modulo 64 is the same page.  Inclusion holds at the
      end, and the table holds for each class the last page with its frame. */
  lemma {:induction false} RunIsOneTable(mem: seq<Byte>, xs: seq<Request>)
    requires forall x :: x in xs ==> WalkInMemory(mem, x.va)
    ensures forall i :: 0 <= i < |xs| ==>
      RunFrom(mem, xs, Flushed()).0[i] == Answer(mem, xs[i].va, Pages(mem, AddressesIn(xs[..i])))
    ensures Inclusion(RunFrom(mem, xs, Flushed()).1)
    ensures TableHolds(mem, AddressesOf(AddressesIn(xs)), Table(RunFrom(mem, xs, Flushed()).1),
                       Pages(mem, AddressesIn(xs)))
  {
    hide Walk, WalkInMemory, RunFrom, Answer, Inclusion, TableHolds, Table, Pages;
    var vas := AddressesOf(AddressesIn(xs));
    assert forall i :: 0 <= i < |xs| ==> xs[i].va == AddressesIn(xs)[i];
    RunHolds(mem, vas, xs);
    forall i | 0 <= i < |xs|
      ensures RunFrom(mem, xs, Flushed()).0[i] == Answer(mem, xs[i].va, Pages(mem, AddressesIn(xs[..i])))
    {
      AnswersAt(mem, xs, i);
    }
  }

  /** Hits and physical addresses do not depend on which accesses are for
      instructions and which for data. */
  lemma {:induction false} AccessKindIsInvisible(mem: seq<Byte>, xs: seq<Request>, ys: seq<Request>)
    requires forall x :: x in xs ==> WalkInMemory(mem, x.va)
    requires forall y :: y in ys ==> WalkInMemory(mem, y.va)
    requires AddressesIn(xs) == AddressesIn(ys)
    ensures RunFrom(mem, xs, Flushed()).0 == RunFrom(mem, ys, Flushed()).0
  {
    hide Walk, WalkInMemory, RunFrom, Answer, Inclusion, TableHolds, Table, Pages;
    RunIsOneTable(mem, xs);
    RunIsOneTable(mem, ys);
    assert |xs| == |AddressesIn(xs)| == |AddressesIn(ys)| == |ys|;
    forall i | 0 <= i < |xs|
      ensures RunFrom(mem, xs, Flushed()).0[i] == RunFrom(mem, ys, Flushed()).0[i]
    {
      assert xs[i].va == AddressesIn(xs)[i] == AddressesIn(ys)[i] == ys[i].va;
      assert AddressesIn(xs[..i]) == AddressesIn(xs)[..i] == AddressesIn(ys)[..i] == AddressesIn(ys[..i]);
    }
  }

  /** Where a translated page ends up: in L2 always; after an instruction access in the
      ITLB; after a data access in the DTLB, unless it missed there and hit in L2 - then
      it is in the ITLB and the DTLB is as it was, so the next data access to the page
      misses in the DTLB again. */
  lemma {:induction false} WherePagesGo(mem: seq<Byte>, va: VirtAddr, access: Access, st: State)
    requires Inclusion(st) && WalkInMemory(mem, va)
    ensures var (reply, st') := Search(mem, va, access, st);
      var page := PageNumber(va);
      reply.Found? ==>
        && Probe(st'.l2, page) == Some(reply.paddr.pageNum)
        && (access == Instruction ==> Probe(st'.itlb, page) == Some(reply.paddr.pageNum))
        && (access == Data && (Probe(st.dtlb, page).Some? || Probe(st.l2, page).None?) ==>
              Probe(st'.dtlb, page) == Some(reply.paddr.pageNum))
        && (access == Data && Probe(st.dtlb, page).None? && Probe(st.l2, page).Some? ==>
              Probe(st'.itlb, page) == Some(reply.paddr.pageNum) && st'.dtlb == st.dtlb)
  {
    hide Walk, WalkInMemory, Included, Invalidate, Fill, Probe;
    var page := PageNumber(va);
    var own := if access == Instruction then st.itlb else st.dtlb;
    forall num: Bits20, tlb: seq<Entry> | |tlb| == L1_LINES || |tlb| == L2_LINES
      ensures Probe(Fill(tlb, page, num), page) == Some(num)
    {
      FilledIsFound(tlb, page, num);
    }
    if Probe(own, page).Some? {
      L1HitIsL2Hit(own, st.l2, page);
    }
  }

  lemma {:induction false} FilledIsFound(tlb: seq<Entry>, page: Bits36, pageNum: Bits20)
    requires |tlb| == L1_LINES || |tlb| == L2_LINES
    ensures Probe(Fill(tlb, page, pageNum), page) == Some(pageNum)
  {
  }

  // ----- which lines a search touches, in tags, indices and valid bits

  /** The line at `q`'s index is valid and has `q`'s tag and the frame. */
  ghost predicate Has(tlb: seq<Entry>, q: nat, pageNum: Bits20)
    requires |tlb| == 16 || |tlb| == 64
  {
    var line := tlb[q % |tlb|];
    line.v && line.tag == q / |tlb| && line.pageNum == pageNum
  }

  /** The page whose line of L2 is overwritten when `page` is inserted. */
  ghost predicate Displaced(l2: seq<Entry>, page: nat, q: nat)
    requires |l2| == 64
  {
    l2[page % 64].v && q == 64 * l2[page % 64].tag + page % 64
  }

  /** Invalidation takes the displaced page out of an L1 and spares all others. */
  lemma {:induction false} InvalidationSpares(l1: seq<Entry>, l2: seq<Entry>, page: Bits36, q: nat, pageNum: Bits20)
    requires |l1| == L1_LINES && |l2| == L2_LINES && Included(l1, l2)
    ensures |Invalidate(l1, l2, page)| == 16
    ensures forall k :: 0 <= k < 16 && k != page % 16 ==> Invalidate(l1, l2, page)[k] == l1[k]
    ensures Has(Invalidate(l1, l2, page), q, pageNum) <==> Has(l1, q, pageNum) && !Displaced(l2, page, q)
  {
    hide Rebuilt, Included, MustInvalidate;
    InvalidationIsExact(l1, l2, page);
    var i1, i2 := page % 16, page % 64;
    Divided(q, 16);
    Quotient(l1[i1].tag, i1, 16);
    Quotient(l2[i2].tag, i2, 64);
    SameClass(64 * l2[i2].tag + i2, page);
  }

  /** What one search does to the three arrays, from any state with inclusion.  A hit in
      the own L1 changes nothing.  A hit in L2 changes one line of the ITLB, whatever the
      kind of access.  A failed walk changes nothing.  After any other miss L2 and the own
      L1 have the new page at its index and are the same elsewhere, and the other L1 has
      lost the page whose line in L2 is overwritten, if it had it, and nothing else. */
  lemma {:induction false} SearchFrame(mem: seq<Byte>, va: VirtAddr, access: Access, st: State)
    requires Inclusion(st) && WalkInMemory(mem, va)
    ensures |st.itlb| == |st.dtlb| == 16 && |st.l2| == 64
    ensures var st' := Search(mem, va, access, st).1;
      var page := PageNumber(va);
      var own, other := if access == Instruction then st.itlb else st.dtlb, if access == Data then st.itlb else st.dtlb;
      var own', other' := if access == Instruction then st'.itlb else st'.dtlb,
                          if access == Data then st'.itlb else st'.dtlb;
      if exists num :: Has(own, page, num) then st' == st
      else if exists num :: Has(st.l2, page, num) then
        st' == st.(itlb := st.itlb[page % 16 := Entry(page / 16, st.l2[page % 64].pageNum, true)])
      else if Walk(mem, va).Err? then st' == st
      else
        var num := Walk(mem, va).value.pageNum;
        && st'.l2 == st.l2[page % 64 := Entry(page / 64, num, true)]
        && own' == own[page % 16 := Entry(page / 16, num, true)]
        && |other'| == 16 && (forall k :: 0 <= k < 16 && k != page % 16 ==> other'[k] == other[k])
        && (forall q: nat, n: Bits20 :: Has(other', q, n) <==> Has(other, q, n) && !Displaced(st.l2, page, q))
  {
    hide Walk, WalkInMemory, Included, Invalidate, Displaced;
    var page := PageNumber(va);
    var own, other := if access == Instruction then st.itlb else st.dtlb, if access == Data then st.itlb else st.dtlb;
    HasIsProbe(own, page);
    HasIsProbe(st.l2, page);
    InvalidationSpares(other, st.l2, page, 0, 0);
    forall q: nat, n: Bits20
      ensures Has(Invalidate(other, st.l2, page), q, n) <==> Has(other, q, n) && !Displaced(st.l2, page, q)
    {
      InvalidationSpares(other, st.l2, page, q, n);
    }
  }

  lemma {:induction false} HasIsProbe(tlb: seq<Entry>, page: Bits36)
    requires |tlb| == 16 || |tlb| == 64
    ensures (exists num :: Has(tlb, page, num)) <==> Probe(tlb, page).Some?
  {
    if Probe(tlb, page).Some? {
      assert Has(tlb, page, Probe(tlb, page).value);
    }
  }

  /** A hit in the own L1 or in L2 does not look at the page tables. */
  lemma {:induction false} HitsIgnoreTables(mem: seq<Byte>, mem': seq<Byte>, va: VirtAddr, access: Access, st: State)
    requires Shaped(st) && WalkInMemory(mem, va) && WalkInMemory(mem', va)
    requires exists num ::
      Has(if access == Instruction then st.itlb else st.dtlb, PageNumber(va), num) || Has(st.l2, PageNumber(va), num)
    ensures Search(mem', va, access, st) == Search(mem, va, access, st)
    ensures Search(mem, va, access, st).0.Found? && Search(mem, va, access, st).0.hit
  {
    hide Walk, WalkInMemory, Fill, SearchInvalid, Has;
    HasIsProbe(if access == Instruction then st.itlb else st.dtlb, PageNumber(va));
    HasIsProbe(st.l2, PageNumber(va));
  }
}
