/** The fully associative TLB (tlb.h, tlb_mng.c) on values: what one search does,
    and why whole runs behave like an LRU buffer over the page tables. */
module FullTlbSpec {
  import opened Bytes
  import opened Outcomes
  import opened Addresses
  import opened PageWalk
  import opened Translation
  import opened LinkedList
  import Counting
  import Recency

  datatype Entry = Entry(tag: Bits36, pageNum: Bits20, v: bool)

  /** The lines, and the line numbers from least to most recently used. */
  datatype State = State(lines: seq<Entry>, order: seq<nat>)

  ghost predicate Shaped(st: State)
  {
    && |st.order| == |st.lines| >= 1
    && (forall p :: 0 <= p < |st.order| ==> st.order[p] < |st.lines|)
    && Recency.NoRepeats(st.order)
  }

  predicate Matches(e: Entry, page: Bits36)
  {
    e.tag == page && e.v
  }

  /** The first match among the `n` front positions of the order, searching backwards. */
  ghost function Scan(st: State, page: Bits36, n: nat): (r: Option<nat>)
    requires Shaped(st) && n <= |st.order|
    ensures r.Some? ==> r.value < n && Matches(st.lines[st.order[r.value]], page)
    ensures r.Some? ==> forall q :: r.value < q < n ==> !Matches(st.lines[st.order[q]], page)
    ensures r.None? ==> forall q :: 0 <= q < n ==> !Matches(st.lines[st.order[q]], page)
  {
    if n == 0 then None
    else if Matches(st.lines[st.order[n - 1]], page) then Some(n - 1)
    else Scan(st, page, n - 1)
  }

  /** tlb_search. */
  ghost function Search(mem: seq<Byte>, va: VirtAddr, st: State): (result: (Reply, State))
    requires Shaped(st) && WalkInMemory(mem, va)
    ensures Shaped(result.1) && |result.1.order| == |st.order|
  {
    match Scan(st, PageNumber(va), |st.order|)
    case Some(p) =>
      (Found(true, PhyAddr(st.lines[st.order[p]].pageNum, va.offset)), st.(order := MoveToBack(st.order, p)))
    case None =>
      match Walk(mem, va)
      case Err(_) => (Failed(ErrMem), st)
      case Ok(pa) =>
        (Found(false, pa),
         State(st.lines[st.order[0] := Entry(PageNumber(va), pa.pageNum, true)], MoveToBack(st.order, 0)))
  }

  /** tlb_flush, with the list holding the line numbers in order. */
  ghost function Flushed(n: nat): State
  {
    State(seq(n, _ => Entry(0, 0, false)), seq(n, i => i))
  }

  /** The state holds exactly the pages `r`, most recent first, from the back of
      the order on; the lines never used wait in front in index order. */
  ghost predicate Holds(mem: seq<Byte>, vas: set<VirtAddr>, st: State, r: seq<Bits36>)
    requires Walkable(mem, vas)
  {
    var n := |st.order|;
    && Shaped(st)
    && |r| <= n && Recency.NoRepeats(r)
    && (forall p :: n - |r| <= p < n ==>
          var e := st.lines[st.order[p]];
          e.v && e.tag == r[n - 1 - p] && Translates(mem, vas, e.tag, e.pageNum))
    && (forall p :: 0 <= p < n - |r| ==> st.order[p] == |r| + p && !st.lines[st.order[p]].v)
  }

  /** The promised answer: the page walk's, with a hit exactly on the pages held. */
  ghost function Answer(mem: seq<Byte>, va: VirtAddr, r: seq<Bits36>): Reply
    requires WalkInMemory(mem, va)
  {
    match Walk(mem, va)
    case Err(_) => Failed(ErrMem)
    case Ok(pa) => Found(PageNumber(va) in r, pa)
  }

  lemma {:induction false} MovedAt<T>(s: seq<T>, p: nat, q: nat)
    requires p < |s| && q < |s|
    ensures MoveToBack(s, p)[q] == if q < p then s[q] else if q < |s| - 1 then s[q + 1] else s[p]
  {
  }

  lemma {:induction false} MovedShape(st: State, lines: seq<Entry>, p: nat)
    requires Shaped(st) && p < |st.order| && |lines| == |st.lines|
    ensures Shaped(State(lines, MoveToBack(st.order, p)))
  {
  }

  /** Position `q` of the order after a hit at `p`. */
  lemma {:induction false} HitAt(mem: seq<Byte>, vas: set<VirtAddr>, st: State, r: seq<Bits36>, p: nat, q: nat)
    requires Walkable(mem, vas) && Holds(mem, vas, st, r)
    requires |st.order| - |r| <= p < |st.order| && q < |st.order|
    ensures var n, j := |st.order|, |st.order| - 1 - p;
      var x := MoveToBack(st.order, p)[q];
      if q < n - |r| then x == |r| + q && x < n && !st.lines[x].v
      else x < n && st.lines[x].v && st.lines[x].tag == ([r[j]] + (r[..j] + r[j + 1..]))[n - 1 - q]
           && Translates(mem, vas, st.lines[x].tag, st.lines[x].pageNum)
  {
    hide Walk, WalkInMemory, Translates;
    MovedAt(st.order, p, q);
  }

  lemma {:induction false} HitStep(mem: seq<Byte>, vas: set<VirtAddr>, st: State, r: seq<Bits36>, p: nat)
    requires Walkable(mem, vas) && Holds(mem, vas, st, r)
    requires |st.order| - |r| <= p < |st.order|
    ensures Holds(mem, vas, st.(order := MoveToBack(st.order, p)),
                  Recency.Access(r, r[|st.order| - 1 - p], |st.order|))
  {
    hide Walk, WalkInMemory, Translates, Recency.Without, MoveToBack;
    var n := |st.order|;
    var j := n - 1 - p;
    Recency.WithoutAt(r, j);
    Recency.TouchNoRepeats(r, r[j]);
    MovedShape(st, st.lines, p);
    var r' := [r[j]] + (r[..j] + r[j + 1..]);
    assert r' == Recency.Access(r, r[j], n);
    forall q | 0 <= q < n
      ensures var x := MoveToBack(st.order, p)[q];
        if q < n - |r| then x == |r| + q && !st.lines[x].v
        else st.lines[x].v && st.lines[x].tag == r'[n - 1 - q]
             && Translates(mem, vas, st.lines[x].tag, st.lines[x].pageNum)
    {
      HitAt(mem, vas, st, r, p, q);
    }
  }

  lemma {:induction false} MissStep(mem: seq<Byte>, vas: set<VirtAddr>, st: State, r: seq<Bits36>,
                                    page: Bits36, pageNum: Bits20)
    requires Walkable(mem, vas) && Holds(mem, vas, st, r)
    requires page !in r && Translates(mem, vas, page, pageNum)
    ensures Holds(mem, vas,
                  State(st.lines[st.order[0] := Entry(page, pageNum, true)], MoveToBack(st.order, 0)),
                  Recency.Access(r, page, |st.order|))
  {
    var n := |st.order|;
    hide Walk, WalkInMemory, Recency.Without;
    Recency.WithoutAbsent(r, page);
    Recency.TouchNoRepeats(r, page);
    var r' := Recency.Access(r, page, n);
    var lines' := st.lines[st.order[0] := Entry(page, pageNum, true)];
    var order' := MoveToBack(st.order, 0);
    MovedShape(st, lines', 0);
    assert |r'| == if |r| == n then n else |r| + 1;
    assert forall j :: 1 <= j < |r'| ==> r'[j] == r[j - 1];
    forall q | 0 <= q < n - 1
      ensures order'[q] == st.order[q + 1] && lines'[order'[q]] == st.lines[st.order[q + 1]]
    {
      MovedAt(st.order, 0, q);
    }
    forall q | n - |r'| <= q < n
      ensures var e := lines'[order'[q]];
        e.v && e.tag == r'[n - 1 - q] && Translates(mem, vas, e.tag, e.pageNum)
    {
      if q == n - 1 {
        MovedAt(st.order, 0, q);
      }
    }
  }

  lemma {:induction false} HeldMatches(mem: seq<Byte>, vas: set<VirtAddr>, st: State, r: seq<Bits36>, page: Bits36)
    requires Walkable(mem, vas) && Holds(mem, vas, st, r) && page in r
    ensures exists p :: 0 <= p < |st.order| && Matches(st.lines[st.order[p]], page)
  {
    var j :| 0 <= j < |r| && r[j] == page;
    assert Matches(st.lines[st.order[|st.order| - 1 - j]], page);
  }

  /** One search of a state that holds `r` answers as promised; a failed walk
      changes nothing, any other access is one access of the LRU buffer. */
  lemma {:induction false} SearchStep(mem: seq<Byte>, vas: set<VirtAddr>, st: State, r: seq<Bits36>, va: VirtAddr)
    requires Walkable(mem, vas) && Holds(mem, vas, st, r) && va in vas
    ensures Search(mem, va, st).0 == Answer(mem, va, r)
    ensures Walk(mem, va).Err? ==> Search(mem, va, st).1 == st
    ensures Walk(mem, va).Ok? ==>
              Holds(mem, vas, Search(mem, va, st).1, Recency.Access(r, PageNumber(va), |st.order|))
  {
    var n, page := |st.order|, PageNumber(va);
    match Scan(st, page, n)
    case Some(p) =>
      assert r[n - 1 - p] == page;
      HitStep(mem, vas, st, r, p);
    case None =>
      if page in r {
        HeldMatches(mem, vas, st, r, page);
      } else if Walk(mem, va).Ok? {
        WalkTranslates(mem, vas, va);
        MissStep(mem, vas, st, r, page, Walk(mem, va).value.pageNum);
      }
  }

  /** A run of searches from a state: all the replies, and the final state. */
  ghost function RunFrom(mem: seq<Byte>, xs: seq<VirtAddr>, st: State): (result: (seq<Reply>, State))
    requires Shaped(st)
    requires forall va :: va in xs ==> WalkInMemory(mem, va)
    ensures |result.0| == |xs|
    ensures Shaped(result.1) && |result.1.order| == |st.order|
  {
    if xs == [] then ([], st)
    else
      var (replies, mid) := RunFrom(mem, xs[..|xs| - 1], st);
      var (reply, end) := Search(mem, xs[|xs| - 1], mid);
      (replies + [reply], end)
  }

  lemma {:induction false} FlushedShaped(n: nat)
    requires n >= 1
    ensures Shaped(Flushed(n))
  {
  }

  lemma {:induction false} FlushedHolds(mem: seq<Byte>, vas: set<VirtAddr>, n: nat)
    requires n >= 1 && Walkable(mem, vas)
    ensures Holds(mem, vas, Flushed(n), [])
  {
  }

  /** The replies promised for a run: each from the buffer left by the accesses before it. */
  ghost function Answers(mem: seq<Byte>, xs: seq<VirtAddr>, n: nat): (replies: seq<Reply>)
    requires forall va :: va in xs ==> WalkInMemory(mem, va)
    ensures |replies| == |xs|
  {
    if xs == [] then []
    else
      var before := xs[..|xs| - 1];
      Answers(mem, before, n) + [Answer(mem, xs[|xs| - 1], Recency.Run(Pages(mem, before), n))]
  }

  lemma {:induction false} AnswersAt(mem: seq<Byte>, xs: seq<VirtAddr>, n: nat, i: nat)
    requires forall va :: va in xs ==> WalkInMemory(mem, va)
    requires i < |xs|
    ensures Answers(mem, xs, n)[i] == Answer(mem, xs[i], Recency.Run(Pages(mem, xs[..i]), n))
  {
    hide Walk, WalkInMemory, Answer, Recency.Run, Pages;
    var before := xs[..|xs| - 1];
    if i < |before| {
      AnswersAt(mem, before, n, i);
      assert before[..i] == xs[..i];
    }
  }

  lemma {:induction false} RunHolds(mem: seq<Byte>, vas: set<VirtAddr>, xs: seq<VirtAddr>, n: nat)
    requires n >= 1 && Walkable(mem, vas)
    requires forall va :: va in xs ==> va in vas
    ensures Holds(mem, vas, RunFrom(mem, xs, Flushed(n)).1, Recency.Run(Pages(mem, xs), n))
    ensures RunFrom(mem, xs, Flushed(n)).0 == Answers(mem, xs, n)
  {
    hide Walk, WalkInMemory, Search, Answer, Holds;
    if xs == [] {
      FlushedHolds(mem, vas, n);
    } else {
      var before, va := xs[..|xs| - 1], xs[|xs| - 1];
      RunHolds(mem, vas, before, n);
      SearchStep(mem, vas, RunFrom(mem, before, Flushed(n)).1, Recency.Run(Pages(mem, before), n), va);
      PagesStep(mem, xs, n);
    }
  }

  /** The last access of a run is one access of the buffer if its walk succeeds. */
  lemma {:induction false} PagesStep(mem: seq<Byte>, xs: seq<VirtAddr>, n: nat)
    requires xs != []
    requires forall va :: va in xs ==> WalkInMemory(mem, va)
    ensures var before, va := xs[..|xs| - 1], xs[|xs| - 1];
      Recency.Run(Pages(mem, xs), n) ==
      if Walk(mem, va).Ok? then Recency.Access(Recency.Run(Pages(mem, before), n), PageNumber(va), n)
      else Recency.Run(Pages(mem, before), n)
  {
    hide Walk, WalkInMemory;
    var before, va := xs[..|xs| - 1], xs[|xs| - 1];
    if Walk(mem, va).Ok? {
      Recency.RunAppend(Pages(mem, before), PageNumber(va), n);
    } else {
      assert Pages(mem, xs) == Pages(mem, before);
    }
  }

  /** The pages of the valid lines, read through the first `n` positions of the
      order from the back to the front. */
  ghost function Resident(st: State, n: nat): seq<Bits36>
    requires Shaped(st) && n <= |st.order|
  {
    if n == 0 then []
    else
      var e := st.lines[st.order[n - 1]];
      (if e.v then [e.tag] else []) + Resident(st, n - 1)
  }

  lemma {:induction false} ResidentIsHeld(mem: seq<Byte>, vas: set<VirtAddr>, st: State, r: seq<Bits36>, n: nat)
    requires Walkable(mem, vas) && Holds(mem, vas, st, r) && n <= |st.order|
    ensures Resident(st, n) == if n <= |st.order| - |r| then [] else r[|st.order| - n..]
  {
    hide Walk, WalkInMemory, Translates;
    if n > 0 {
      ResidentIsHeld(mem, vas, st, r, n - 1);
    }
  }

  /** Whole runs of the TLB, from flushed lines and the list 0, 1, ..., n - 1.
      Every reply is the page walk's, and it is a hit exactly if the page is among
      the `n` most recently translated distinct pages; at the end the valid lines,
      read along the list from the back, are exactly those pages in that order. */
  lemma {:induction false} RunIsLru(mem: seq<Byte>, xs: seq<VirtAddr>, n: nat)
    requires n >= 1
    requires forall va :: va in xs ==> WalkInMemory(mem, va)
    ensures Resident(RunFrom(mem, xs, Flushed(n)).1, n) == Recency.Take(Recency.MostRecent(Pages(mem, xs)), n)
    ensures forall i :: 0 <= i < |xs| ==>
      RunFrom(mem, xs, Flushed(n)).0[i] ==
      Answer(mem, xs[i], Recency.Take(Recency.MostRecent(Pages(mem, xs[..i])), n))
  {
    hide Walk, WalkInMemory, Search, Answer;
    var vas := AddressesOf(xs);
    var st := RunFrom(mem, xs, Flushed(n)).1;
    RunHolds(mem, vas, xs, n);
    Recency.RunIsMostRecent(Pages(mem, xs), n);
    ResidentIsHeld(mem, vas, st, Recency.Run(Pages(mem, xs), n), n);
    forall i | 0 <= i < |xs|
      ensures RunFrom(mem, xs, Flushed(n)).0[i] ==
              Answer(mem, xs[i], Recency.Take(Recency.MostRecent(Pages(mem, xs[..i])), n))
    {
      AnswersAt(mem, xs, n, i);
      Recency.RunIsMostRecent(Pages(mem, xs[..i]), n);
    }
  }

  /** The stack property: on the same run, every hit of a TLB with `n` lines is a
      hit of one with `m >= n` lines, with the same physical address, and the
      pages it holds are the most recent ones that the larger TLB holds. */
  lemma {:induction false} LargerTlbKeepsHits(mem: seq<Byte>, xs: seq<VirtAddr>, n: nat, m: nat)
    requires 1 <= n <= m
    requires forall va :: va in xs ==> WalkInMemory(mem, va)
    ensures Resident(RunFrom(mem, xs, Flushed(n)).1, n) ==
            Recency.Take(Resident(RunFrom(mem, xs, Flushed(m)).1, m), n)
    ensures forall i :: 0 <= i < |xs| ==>
      var small, large := RunFrom(mem, xs, Flushed(n)).0[i], RunFrom(mem, xs, Flushed(m)).0[i];
      small.Found? ==> large.Found? && large.paddr == small.paddr && (small.hit ==> large.hit)
  {
    hide Walk, WalkInMemory, Resident, RunFrom, Recency.MostRecent, Pages;
    RunIsLru(mem, xs, n);
    RunIsLru(mem, xs, m);
  }

  /** A state that `Holds` pages lists every line once, keeps the lines never used
      in front in index order, and its valid lines have distinct, right tags. */
  ghost predicate WellKept(mem: seq<Byte>, vas: set<VirtAddr>, st: State)
    requires Walkable(mem, vas)
  {
    && |st.order| == |st.lines|
    && (forall i :: 0 <= i < |st.lines| ==> i in st.order)
    && Recency.NoRepeats(st.order)
    && (forall i, j :: 0 <= i < j < |st.lines| && st.lines[i].v && st.lines[j].v ==>
          st.lines[i].tag != st.lines[j].tag)
    && (forall i :: 0 <= i < |st.lines| && st.lines[i].v ==>
          Translates(mem, vas, st.lines[i].tag, st.lines[i].pageNum))
    && (forall p, q :: 0 <= p < q < |st.order| && st.order[q] < |st.lines| && !st.lines[st.order[q]].v ==>
          st.order[p] < st.order[q] && !st.lines[st.order[p]].v)
  }

  /** A valid line stands at a position of the order that holds its page. */
  lemma {:induction false} HeldLine(mem: seq<Byte>, vas: set<VirtAddr>, st: State, r: seq<Bits36>, i: nat)
    returns (p: nat)
    requires Walkable(mem, vas) && Holds(mem, vas, st, r)
    requires i < |st.lines| && st.lines[i].v
    ensures |st.order| - |r| <= p < |st.order| && st.order[p] == i
    ensures r[|st.order| - 1 - p] == st.lines[i].tag
    ensures Translates(mem, vas, st.lines[i].tag, st.lines[i].pageNum)
  {
    hide Walk, WalkInMemory, Translates;
    Counting.AllListed(st.order, |st.order|, i);
    p :| 0 <= p < |st.order| && st.order[p] == i;
  }

  lemma {:induction false} HoldsWellKept(mem: seq<Byte>, vas: set<VirtAddr>, st: State, r: seq<Bits36>)
    requires Walkable(mem, vas) && Holds(mem, vas, st, r)
    ensures WellKept(mem, vas, st)
  {
    hide Walk, WalkInMemory, Translates;
    forall i | 0 <= i < |st.lines|
      ensures i in st.order
    {
      Counting.AllListed(st.order, |st.order|, i);
    }
    forall i, j | 0 <= i < j < |st.lines| && st.lines[i].v && st.lines[j].v
      ensures st.lines[i].tag != st.lines[j].tag
    {
      var p := HeldLine(mem, vas, st, r, i);
      var q := HeldLine(mem, vas, st, r, j);
    }
    forall i | 0 <= i < |st.lines| && st.lines[i].v
      ensures Translates(mem, vas, st.lines[i].tag, st.lines[i].pageNum)
    {
      var p := HeldLine(mem, vas, st, r, i);
    }
  }

  /** In every reachable state the list is a permutation of the line numbers, so
      the backward scan meets every line once; no two valid lines share a tag, so
      a hit is unique; and every valid line agrees with the page walk. */
  lemma {:induction false} ReachableWellKept(mem: seq<Byte>, xs: seq<VirtAddr>, n: nat)
    requires n >= 1
    requires forall va :: va in xs ==> WalkInMemory(mem, va)
    ensures WellKept(mem, AddressesOf(xs), RunFrom(mem, xs, Flushed(n)).1)
  {
    hide Walk, WalkInMemory, RunFrom, Holds, WellKept, Recency.Run, Pages;
    RunHolds(mem, AddressesOf(xs), xs, n);
    HoldsWellKept(mem, AddressesOf(xs), RunFrom(mem, xs, Flushed(n)).1, Recency.Run(Pages(mem, xs), n));
  }

  /** A hit does not look at the page tables: it gives the frame stored when the page was
      last walked, whatever the tables say now. */
  lemma {:induction false} HitsIgnoreTables(mem: seq<Byte>, mem': seq<Byte>, va: VirtAddr, st: State)
    requires Shaped(st) && WalkInMemory(mem, va) && WalkInMemory(mem', va)
    requires exists p :: 0 <= p < |st.order| && Matches(st.lines[st.order[p]], PageNumber(va))
    ensures Search(mem', va, st) == Search(mem, va, st)
    ensures Search(mem, va, st).0.Found? && Search(mem, va, st).0.hit
  {
    hide Walk, WalkInMemory, MoveToBack;
  }
}
