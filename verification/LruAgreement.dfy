/** The two implementations of LRU in the simulator agree: the ages of a cache set
    (lru.h, cache.h) and the linked list of the fully associative TLB (list.c,
    tlb_mng.c), given the same capacity and the same accesses, hit together and
    choose the same way at every access. */
module LruAgreement {
  import opened Bytes
  import opened Outcomes
  import opened Addresses
  import opened PageWalk
  import opened LinkedList
  import opened AgeSets
  import Full = FullTlbSpec
  import Recency

  /** What one access did: whether it hit, and the way it used. */
  datatype Event = Event(hit: bool, way: nat)

  /** One access of a set for a page: cache_hit, then on a miss find_place or
      apply_lru and the insertion. */
  ghost function SetEvent(s: seq<Way>, tag: nat): Event
    requires |s| > 0
  {
    match ProbeStop(s, tag)
    case Some(w) => Event(true, w)
    case None =>
      match FindPlace(s)
      case Some(w) => Event(false, w)
      case None => Event(false, Oldest(s, |s|))
  }

  ghost function SetAfter(s: seq<Way>, tag: nat): (r: seq<Way>)
    requires |s| > 0
    ensures |r| == |s|
  {
    match ProbeStop(s, tag)
    case Some(w) => AgeUpdate(s, w)
    case None => Install(s, tag, EmptyLine()).0
  }

  ghost function TlbEvent(st: Full.State, page: Bits36): Event
    requires Full.Shaped(st)
  {
    match Full.Scan(st, page, |st.order|)
    case Some(p) => Event(true, st.order[p])
    case None => Event(false, st.order[0])
  }

  /** The ways used so far stand at the back of the list, oldest first; the others
      wait in front in index order. */
  ghost predicate Placed(order: seq<nat>, ways: seq<nat>)
  {
    && |ways| <= |order|
    && (forall a :: 0 <= a < |ways| ==> order[|order| - 1 - a] == ways[a])
    && (forall p :: 0 <= p < |order| - |ways| ==> order[p] == |ways| + p)
  }

  /** The first `k` lines and ways are valid, with the same, different tags. */
  ghost predicate SameTags(lines: seq<Full.Entry>, s: seq<Way>, k: nat)
  {
    && |lines| == |s| && k <= |s|
    && (forall w :: 0 <= w < |s| ==> (lines[w].v <==> w < k) && (s[w].v <==> w < k))
    && (forall w :: 0 <= w < k ==> lines[w].tag == s[w].tag)
    && (forall w, x :: 0 <= w < x < k ==> s[w].tag != s[x].tag)
  }

  ghost predicate Agree(st: Full.State, s: seq<Way>, ways: seq<nat>)
  {
    Full.Shaped(st) && Ranked(s, ways) && Placed(st.order, ways) && SameTags(st.lines, s, |ways|)
  }

  lemma {:induction false} SameHit(st: Full.State, s: seq<Way>, ways: seq<nat>, page: Bits36)
    requires Agree(st, s, ways)
    ensures ProbeStop(s, page) == ProbeSkip(s, page)
    ensures Full.Scan(st, page, |st.order|).Some? <==> ProbeStop(s, page).Some?
    ensures ProbeStop(s, page).Some? ==>
              var w := ProbeStop(s, page).value;
              w < |ways| && Full.Scan(st, page, |st.order|) == Some(|st.order| - 1 - s[w].age)
  {
    StopIsSkip(s, page);
    var n := |st.order|;
    if ProbeStop(s, page).Some? {
      var w := ProbeStop(s, page).value;
      assert st.order[n - 1 - s[w].age] == w;
      assert Full.Matches(st.lines[st.order[n - 1 - s[w].age]], page);
    }
    if Full.Scan(st, page, n).Some? {
      var p := Full.Scan(st, page, n).value;
      assert s[st.order[p]].v && s[st.order[p]].tag == page;
    }
  }

  lemma {:induction false} SkipIsAbsent(s: seq<Way>, tag: nat)
    ensures ProbeSkip(s, tag).None? <==> Absent(s, tag)
  {
  }

  lemma {:induction false} SameEvent(st: Full.State, s: seq<Way>, ways: seq<nat>, page: Bits36)
    requires Agree(st, s, ways)
    ensures TlbEvent(st, page) == SetEvent(s, page)
  {
    SameHit(st, s, ways, page);
    var n, k := |st.order|, |ways|;
    if ProbeStop(s, page).None? {
      if k < n {
        assert !s[k].v && st.order[0] == k;
      } else {
        OldestRanked(s, ways);
      }
    }
  }

  lemma {:induction false} PlacedHit(order: seq<nat>, ways: seq<nat>, a: nat)
    requires Placed(order, ways) && a < |ways|
    ensures Placed(MoveToBack(order, |order| - 1 - a), ToFront(ways, a))
  {
    var n, p := |order|, |order| - 1 - a;
    var order', ways' := MoveToBack(order, p), ToFront(ways, a);
    forall b | 0 <= b < |ways|
      ensures order'[n - 1 - b] == ways'[b]
    {
      Full.MovedAt(order, p, n - 1 - b);
      if 0 < b <= a {
        assert ways'[b - 1 + 1] == ways[b - 1];
      }
    }
    forall q | 0 <= q < n - |ways|
      ensures order'[q] == |ways| + q
    {
      Full.MovedAt(order, p, q);
    }
  }

  lemma {:induction false} PlacedCold(order: seq<nat>, ways: seq<nat>)
    requires Placed(order, ways) && |ways| < |order|
    ensures Placed(MoveToBack(order, 0), [|ways|] + ways)
  {
    var n, k := |order|, |ways|;
    var order', ways' := MoveToBack(order, 0), [k] + ways;
    forall b | 0 <= b < k + 1
      ensures order'[n - 1 - b] == ways'[b]
    {
      Full.MovedAt(order, 0, n - 1 - b);
    }
    forall q | 0 <= q < n - k - 1
      ensures order'[q] == k + 1 + q
    {
      Full.MovedAt(order, 0, q);
    }
  }

  lemma {:induction false} AgreeHit(st: Full.State, s: seq<Way>, ways: seq<nat>, w: nat)
    requires Agree(st, s, ways) && w < |ways|
    ensures s[w].age < |ways|
    ensures Agree(st.(order := MoveToBack(st.order, |st.order| - 1 - s[w].age)),
                  AgeUpdate(s, w), ToFront(ways, s[w].age))
  {
    hide MoveToBack, ToFront, Placed;
    UpdateRanked(s, ways, w);
    SameShape(st, s, ways);
    Full.MovedShape(st, st.lines, |st.order| - 1 - s[w].age);
    PlacedHit(st.order, ways, s[w].age);
  }

  lemma {:induction false} SameShape(st: Full.State, s: seq<Way>, ways: seq<nat>)
    requires Agree(st, s, ways)
    ensures |st.order| == |st.lines| == |s| >= |ways|
    ensures forall w :: 0 <= w < |ways| ==> s[w].age < |ways|
  {
  }

  lemma {:induction false} AgreeCold(st: Full.State, s: seq<Way>, ways: seq<nat>, page: Bits36, pageNum: Bits20)
    requires Agree(st, s, ways) && |ways| < |s| && Absent(s, page)
    ensures var k := |ways|;
      Agree(Full.State(st.lines[k := Full.Entry(page, pageNum, true)], MoveToBack(st.order, 0)),
            AgeIncrease(s[k := Way(true, 0, page, EmptyLine())], k), [k] + ways)
  {
    hide MoveToBack, Placed;
    IncreaseRanked(s, ways, Way(true, 0, page, EmptyLine()));
    Full.MovedShape(st, st.lines[|ways| := Full.Entry(page, pageNum, true)], 0);
    PlacedCold(st.order, ways);
  }

  lemma {:induction false} AgreeEvict(st: Full.State, s: seq<Way>, ways: seq<nat>, page: Bits36, pageNum: Bits20)
    requires Agree(st, s, ways) && |ways| == |s| && Absent(s, page)
    ensures var w := Oldest(s, |s|);
      Agree(Full.State(st.lines[w := Full.Entry(page, pageNum, true)], MoveToBack(st.order, 0)),
            AgeUpdate(s[w := Way(true, s[w].age, page, EmptyLine())], w), ToFront(ways, |s| - 1))
  {
    hide MoveToBack, ToFront, Placed, AgeUpdate, Agree;
    OldestInFront(st, s, ways);
    var w := Oldest(s, |s|);
    var e := Way(true, s[w].age, page, EmptyLine());
    AgreeReplace(st, s, ways, w, e, pageNum);
    AgreeHit(st.(lines := st.lines[w := Full.Entry(page, pageNum, true)]), s[w := e], ways, w);
  }

  lemma {:induction false} OldestInFront(st: Full.State, s: seq<Way>, ways: seq<nat>)
    requires Agree(st, s, ways) && |ways| == |s|
    ensures Full.Shaped(st) && |st.order| == |st.lines| == |s| && |s| > 0
    ensures s[Oldest(s, |s|)].age == |s| - 1
  {
    OldestRanked(s, ways);
  }

  /** A line and a way are given the same new tag, which no other has. */
  lemma {:induction false} AgreeReplace(st: Full.State, s: seq<Way>, ways: seq<nat>, w: nat, e: Way, pageNum: Bits20)
    requires Agree(st, s, ways) && w < |ways| == |s| && e.v && e.age == s[w].age && e.tag < 0x10_0000_0000
    requires Absent(s, e.tag)
    ensures Agree(st.(lines := st.lines[w := Full.Entry(e.tag, pageNum, true)]), s[w := e], ways)
  {
    hide Placed;
    ReplaceRanked(s, ways, w, e);
  }

  /** The way of an event is the one that has the tag afterwards; `hit` says that it had it
      before. */
  lemma {:induction false} EventMeaning(s: seq<Way>, tag: nat)
    requires |s| > 0
    ensures var e, s' := SetEvent(s, tag), SetAfter(s, tag);
      && e.way < |s| && s'[e.way].v && s'[e.way].tag == tag
      && (e.hit ==> s[e.way].v && s[e.way].tag == tag)
      && (!e.hit ==> ProbeStop(s, tag).None?)
  {
  }

  /** The same for the list. */
  lemma {:induction false} TlbEventMeaning(mem: seq<Byte>, va: VirtAddr, st: Full.State)
    requires Full.Shaped(st) && WalkInMemory(mem, va) && Walk(mem, va).Ok?
    ensures var e, lines' := TlbEvent(st, PageNumber(va)), Full.Search(mem, va, st).1.lines;
      && e.way < |lines'| && lines'[e.way].v && lines'[e.way].tag == PageNumber(va)
      && (e.hit ==> lines' == st.lines)
      && (!e.hit ==> forall i :: 0 <= i < |lines'| && i != e.way ==> lines'[i] == st.lines[i])
  {
    hide Walk, WalkInMemory, MoveToBack;
  }

  /** One access of both: the same event, and they agree again. */
  lemma {:induction false} AgreeStep(mem: seq<Byte>, va: VirtAddr, st: Full.State, s: seq<Way>, ways: seq<nat>)
    returns (ways': seq<nat>)
    requires Agree(st, s, ways) && WalkInMemory(mem, va) && Walk(mem, va).Ok?
    ensures TlbEvent(st, PageNumber(va)) == SetEvent(s, PageNumber(va))
    ensures Full.Search(mem, va, st).0.Found?
    ensures Full.Search(mem, va, st).0.hit == SetEvent(s, PageNumber(va)).hit
    ensures Agree(Full.Search(mem, va, st).1, SetAfter(s, PageNumber(va)), ways')
  {
    hide Walk, WalkInMemory, Agree, AgeUpdate, AgeIncrease, ToFront, MoveToBack;
    var page := PageNumber(va);
    AgreeShape(st, s, ways);
    SameHit(st, s, ways, page);
    SameEvent(st, s, ways, page);
    SkipIsAbsent(s, page);
    if ProbeStop(s, page).Some? {
      var w := ProbeStop(s, page).value;
      ways' := ToFront(ways, s[w].age);
      AgreeHit(st, s, ways, w);
    } else if |ways| < |s| {
      ways' := [|ways|] + ways;
      AgreeCold(st, s, ways, page, Walk(mem, va).value.pageNum);
    } else {
      ways' := ToFront(ways, |s| - 1);
      AgreeEvict(st, s, ways, page, Walk(mem, va).value.pageNum);
    }
  }

  lemma {:induction false} AgreeShape(st: Full.State, s: seq<Way>, ways: seq<nat>)
    requires Agree(st, s, ways)
    ensures Full.Shaped(st) && |s| == |st.order| && |ways| <= |s|
    ensures forall w :: 0 <= w < |ways| ==> s[w].age < |ways|
    ensures FindPlace(s) == if |ways| < |s| then Some(|ways|) else None
    ensures st.order[0] == if |ways| < |s| then |ways| else Oldest(s, |s|)
  {
    if |ways| < |s| {
      assert !s[|ways|].v;
    } else {
      OldestRanked(s, ways);
    }
  }

  /** The events of a whole run of the TLB and of a set, both started empty. */
  ghost function TlbRun(mem: seq<Byte>, xs: seq<VirtAddr>, n: nat): (result: (seq<Event>, Full.State))
    requires n >= 1
    requires forall va :: va in xs ==> WalkInMemory(mem, va)
    ensures Full.Shaped(result.1)
  {
    if xs == [] then
      Full.FlushedShaped(n);
      ([], Full.Flushed(n))
    else
      var (events, st) := TlbRun(mem, xs[..|xs| - 1], n);
      var va := xs[|xs| - 1];
      (events + [TlbEvent(st, PageNumber(va))], Full.Search(mem, va, st).1)
  }

  ghost function SetRun(tags: seq<nat>, n: nat): (result: (seq<Event>, seq<Way>))
    requires n >= 1
    ensures |result.1| == n
  {
    if tags == [] then ([], FlushedSet(n))
    else
      var (events, s) := SetRun(tags[..|tags| - 1], n);
      var tag := tags[|tags| - 1];
      (events + [SetEvent(s, tag)], SetAfter(s, tag))
  }

  ghost function Tags(xs: seq<VirtAddr>): seq<nat>
  {
    if xs == [] then [] else Tags(xs[..|xs| - 1]) + [PageNumber(xs[|xs| - 1])]
  }

  lemma {:induction false} RunsAgreeWith(mem: seq<Byte>, xs: seq<VirtAddr>, n: nat) returns (ways: seq<nat>)
    requires n >= 1
    requires forall va :: va in xs ==> WalkInMemory(mem, va) && Walk(mem, va).Ok?
    ensures TlbRun(mem, xs, n).0 == SetRun(Tags(xs), n).0
    ensures Agree(TlbRun(mem, xs, n).1, SetRun(Tags(xs), n).1, ways)
  {
    hide Walk, WalkInMemory, Agree, Full.Search, TlbEvent, SetEvent, SetAfter;
    if xs == [] {
      ways := [];
      FlushedAgree(n);
    } else {
      var before := xs[..|xs| - 1];
      var ways0 := RunsAgreeWith(mem, before, n);
      ways := AgreeStep(mem, xs[|xs| - 1], TlbRun(mem, before, n).1, SetRun(Tags(before), n).1, ways0);
      assert Tags(xs)[..|Tags(xs)| - 1] == Tags(before);
    }
  }

  lemma {:induction false} FlushedAgree(n: nat)
    requires n >= 1
    ensures Agree(Full.Flushed(n), FlushedSet(n), [])
  {
  }

  /** Whole runs: started empty, with the same capacity and the same translatable
      pages, the list-based TLB and the age-based set have the same events. */
  lemma {:induction false} ListAndAgesAgree(mem: seq<Byte>, xs: seq<VirtAddr>, n: nat)
    requires n >= 1
    requires forall va :: va in xs ==> WalkInMemory(mem, va) && Walk(mem, va).Ok?
    ensures TlbRun(mem, xs, n).0 == SetRun(Tags(xs), n).0
  {
    var ways := RunsAgreeWith(mem, xs, n);
  }

  /** The set on its own: after any run it holds exactly the `n` most recently used
      tags, and the next access hits exactly on those. */
  lemma {:induction false} SetRunIsLru(tags: seq<nat>, n: nat)
    requires n >= 1
    ensures Holds(SetRun(tags, n).1, Recency.Take(Recency.MostRecent(tags), n))
    ensures forall tag :: SetEvent(SetRun(tags, n).1, tag).hit <==> tag in Recency.Take(Recency.MostRecent(tags), n)
  {
    Recency.RunIsMostRecent(tags, n);
    SetRunHolds(tags, n);
    var s, r := SetRun(tags, n).1, Recency.Run(tags, n);
    forall tag
      ensures SetEvent(s, tag).hit <==> tag in r
    {
      ProbeIsHeld(s, r, tag);
    }
  }

  lemma {:induction false} SetRunHolds(tags: seq<nat>, n: nat)
    requires n >= 1
    ensures Holds(SetRun(tags, n).1, Recency.Run(tags, n))
  {
    hide Holds, Install, AgeUpdate, Recency.Access;
    if tags == [] {
      FlushedHolds(n);
    } else {
      var before, tag := tags[..|tags| - 1], tags[|tags| - 1];
      SetRunHolds(before, n);
      var s, r := SetRun(before, n).1, Recency.Run(before, n);
      ProbeIsHeld(s, r, tag);
      if ProbeStop(s, tag).Some? {
        HitStep(s, r, ProbeStop(s, tag).value);
      } else {
        InstallStep(s, r, tag, EmptyLine());
      }
    }
  }
}
