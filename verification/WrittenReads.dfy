/** What replacement the code as written does on reads.  cache_insert stores age 0 before
    LRU_age_update reads the age of the way it has just filled, so reads never make any
    age grow, and apply_lru, which takes the last way among equals, always evicts the last
    way. */
module WrittenReads {
  import opened Bytes
  import opened Outcomes
  import opened LineNames
  import opened AgeSets
  import opened ExclusiveSpec
  import opened FlatMemory
  import opened WrittenSpec
  import opened WrittenCalls
  import Recency

  /** The set holds the tags `r`, way by way, and all ages are 0. */
  ghost predicate Ageless(s: seq<Way>, r: seq<nat>)
  {
    && |r| <= |s|
    && (forall w :: 0 <= w < |r| ==> s[w].v && s[w].tag == r[w])
    && (forall w :: |r| <= w < |s| ==> !s[w].v)
    && (forall w :: 0 <= w < |s| ==> s[w].age == 0)
  }

  /** One read of a set that never replaces anything but its last way. */
  function Stick(r: seq<nat>, tag: nat): (r': seq<nat>)
    requires |r| <= L1_WAYS
    ensures |r'| <= L1_WAYS
  {
    if tag in r then r else if |r| < L1_WAYS then r + [tag] else r[..L1_WAYS - 1] + [tag]
  }

  ghost function Sticky(tags: seq<nat>): (r: seq<nat>)
    ensures |r| <= L1_WAYS
  {
    if tags == [] then [] else Stick(Sticky(tags[..|tags| - 1]), tags[|tags| - 1])
  }

  lemma {:induction false} AgelessProbe(s: seq<Way>, r: seq<nat>, tag: nat)
    requires Ageless(s, r)
    ensures ProbeStop(s, tag).Some? <==> tag in r
    ensures |r| < |s| ==> FindPlace(s) == Some(|r|)
    ensures |r| == |s| > 0 ==> FindPlace(s) == None && Oldest(s, |s|) == |s| - 1
  {
    StopIsSkip(s, tag);
    if tag in r {
      var w :| 0 <= w < |r| && r[w] == tag;
      assert s[w].v && s[w].tag == tag;
    }
    if |r| < |s| {
      assert !s[|r|].v;
    } else if |s| > 0 {
      assert s[|s| - 1].age == 0;
    }
  }

  lemma {:induction false} AgelessRead(st: State, addr: Uint32, junk: Way, r: seq<nat>)
    requires Shaped(st) && InMemory(st.mem, addr) && NothingValid(st.l2)
    requires addr % LINE_BYTES == 0 || LineOf(addr) / L1_SETS in r
    requires Ageless(st.l1[LineOf(addr) % L1_SETS], r)
    ensures ReadW(st, addr, junk).Went?
    ensures var st' := ReadW(st, addr, junk).st;
      && st'.l2 == st.l2
      && Ageless(st'.l1[LineOf(addr) % L1_SETS], Stick(r, LineOf(addr) / L1_SETS))
      && (forall i :: 0 <= i < L1_SETS && i != LineOf(addr) % L1_SETS ==> st'.l1[i] == st.l1[i])
  {
    var i, tag := LineOf(addr) % L1_SETS, LineOf(addr) / L1_SETS;
    var s := st.l1[i];
    NamesOfLine(addr);
    AgelessProbe(s, r, tag);
    NeverInL2(st, addr);
    var p := ProbeStop(s, tag);
    if p.Some? {
      YoungestUpdate(s, p.value);
    } else {
      var w := Chosen(s);
      YoungestUpdate(s[w := EntryFor(st.mem, addr, junk)], w);
    }
  }

  /** Every call reads a word or a byte, at a line base or in a line that is held. */
  ghost predicate Reads(ops: seq<Op>)
  {
    ops == [] ||
    (var before, op := ops[..|ops| - 1], ops[|ops| - 1];
     var la := LineOf(op.addr);
     && Reads(before)
     && (op.GetWord? || op.GetByte?)
     && (op.addr % LINE_BYTES == 0 || la / L1_SETS in Sticky(Class(History(before), la % L1_SETS))))
  }

  lemma {:induction false} BaseReads(ops: seq<Op>)
    requires forall op :: op in ops ==> (op.GetWord? || op.GetByte?) && op.addr % LINE_BYTES == 0
    ensures Reads(ops)
  {
    if ops != [] {
      BaseReads(ops[..|ops| - 1]);
    }
  }

  lemma {:induction false} SetsStick(mem: seq<Byte>, ops: seq<Op>, heap: Heap)
    requires CallsFit(ops, |mem|) && Reads(ops)
    ensures RunW(Flushed(mem), ops, heap).Went?
    ensures var st := RunW(Flushed(mem), ops, heap).st;
      NothingValid(st.l2) && forall i :: 0 <= i < L1_SETS ==> Ageless(st.l1[i], Sticky(Class(History(ops), i)))
  {
    hide ReadW, NothingValid, Ageless, Stick, Sticky, Class;
    L2IsNeverPopulated(mem, ops, heap);
    if ops == [] {
      NoLines();
    } else {
      var before, op := ops[..|ops| - 1], ops[|ops| - 1];
      SetsStick(mem, before, heap);
      var st := RunW(Flushed(mem), before, heap).st;
      var la, junk := LineOf(op.addr), heap(|before|).first;
      assert Fits(op, |mem|);
      AgelessRead(st, op.addr, junk, Sticky(Class(History(before), la % L1_SETS)));
      forall i | 0 <= i < L1_SETS
        ensures Ageless(ReadW(st, op.addr, junk).st.l1[i], Sticky(Class(History(ops), i)))
      {
        ClassStep(History(before), la, i);
        StickyAppend(Class(History(before), i), la / L1_SETS);
      }
    }
  }

  lemma {:induction false} NoLines()
    ensures forall i :: Class([], i) == []
    ensures Sticky([]) == [] && Ageless(FlushedSet(L1_WAYS), [])
  {
  }

  lemma {:induction false} StickyAppend(tags: seq<nat>, tag: nat)
    ensures Sticky(tags + [tag]) == Stick(Sticky(tags), tag)
  {
    assert (tags + [tag])[..|tags|] == tags;
  }

  // ----- exactly when that is LRU

  /** The distinct elements of a run in order of first use. */
  ghost function FirstUse(tags: seq<nat>): seq<nat>
  {
    if tags == [] then []
    else
      var before, tag := FirstUse(tags[..|tags| - 1]), tags[|tags| - 1];
      if tag in before then before else before + [tag]
  }

  ghost predicate SameElements(a: seq<nat>, b: seq<nat>)
  {
    forall x :: x in a <==> x in b
  }

  /** The last of four tags that stick is the first of the recently used tags that is
      none of the other three. */
  ghost predicate LastIsFirstOther(r: seq<nat>, d: seq<nat>)
    requires |r| == 4
  {
    exists p :: 0 <= p < |d| && d[p] == r[3] && forall q :: 0 <= q < p ==> d[q] in r[..3]
  }

  /** The tags that stick, `r`, against the recently used ones, `d`. */
  ghost predicate Follows(r: seq<nat>, d: seq<nat>)
  {
    && Recency.NoRepeats(r) && Recency.NoRepeats(d)
    && (forall x :: x in r ==> x in d)
    && (|r| < 4 ==> SameElements(r, d) && |d| == |r|)
    && (|r| == 4 ==> |d| >= 4 && LastIsFirstOther(r, d))
  }

  lemma {:induction false} FollowsNew(r: seq<nat>, d: seq<nat>, tag: nat)
    requires Follows(r, d) && |r| <= 4 && tag !in r
    ensures Follows(Stick(r, tag), Recency.Touch(d, tag))
  {
    var r', d' := Stick(r, tag), Recency.Touch(d, tag);
    Recency.TouchLength(d, tag);
    Recency.TouchNoRepeats(d, tag);
    assert d'[0] == tag;
    assert forall x :: x in r' ==> x in r || x == tag;
    assert |r| < 4 ==> r' == r + [tag];
  }

  lemma {:induction false} FollowsSame(r: seq<nat>, d: seq<nat>, tag: nat)
    requires Follows(r, d) && |r| <= 4 && tag in r
    ensures Follows(r, Recency.Touch(d, tag))
  {
    var d' := Recency.Touch(d, tag);
    Recency.TouchLength(d, tag);
    Recency.TouchNoRepeats(d, tag);
    if |r| == 4 {
      if tag == r[3] {
        assert d'[0] == r[3];
      } else {
        LaterStays(r, d, tag);
      }
    }
  }

  lemma {:induction false} LaterStays(r: seq<nat>, d: seq<nat>, tag: nat)
    requires |r| == 4 && Recency.NoRepeats(r) && Recency.NoRepeats(d)
    requires LastIsFirstOther(r, d) && tag in d && tag in r[..3]
    ensures LastIsFirstOther(r, Recency.Touch(d, tag))
  {
    var d' := Recency.Touch(d, tag);
    var p :| 0 <= p < |d| && d[p] == r[3] && forall q :: 0 <= q < p ==> d[q] in r[..3];
    var k :| 0 <= k < |d| && d[k] == tag;
    Recency.WithoutAt(d, k);
    assert d' == [tag] + (d[..k] + d[k + 1..]);
    var p' := if k < p then p else p + 1;
    assert d'[p'] == r[3];
    forall q | 0 <= q < p'
      ensures d'[q] in r[..3]
    {
      if q > 0 {
        assert d'[q] == if q - 1 < k then d[q - 1] else d[q];
      }
    }
  }

  lemma {:induction false} StickyFollows(tags: seq<nat>)
    ensures Follows(Sticky(tags), Recency.MostRecent(tags))
  {
    hide Follows, Stick, Recency.Touch;
    if tags == [] {
      NothingFollows();
    } else {
      var before, tag := tags[..|tags| - 1], tags[|tags| - 1];
      StickyFollows(before);
      if tag in Sticky(before) {
        FollowsSame(Sticky(before), Recency.MostRecent(before), tag);
        StickSame(Sticky(before), tag);
      } else {
        FollowsNew(Sticky(before), Recency.MostRecent(before), tag);
      }
    }
  }

  lemma {:induction false} NothingFollows()
    ensures Follows([], [])
  {
  }

  lemma {:induction false} StickSame(r: seq<nat>, tag: nat)
    requires |r| <= L1_WAYS && tag in r
    ensures Stick(r, tag) == r
  {
  }

  /** The residents `r` of a set after the accesses `tags`: the first three lines used,
      and the last one used that is none of those. */
  ghost predicate FirstThreeAndLastOther(tags: seq<nat>, r: seq<nat>)
  {
    && Recency.Take(r, 3) == Recency.Take(FirstUse(tags), 3)
    && (|r| <= 3 ==> r == FirstUse(tags))
    && (|r| > 3 ==> |r| == 4 && exists p :: LastOutside(tags, r, p))
  }

  /** The last of `tags` that is not one of the first three of `r` is the last of `r`. */
  ghost predicate LastOutside(tags: seq<nat>, r: seq<nat>, p: nat)
    requires |r| == 4
  {
    && p < |tags| && tags[p] == r[3] && tags[p] !in r[..3]
    && forall q :: p < q < |tags| ==> tags[q] in r[..3]
  }

  lemma {:induction false} StickyKeepsFirst(tags: seq<nat>)
    ensures FirstThreeAndLastOther(tags, Sticky(tags))
  {
    if tags != [] {
      var before, tag := tags[..|tags| - 1], tags[|tags| - 1];
      var r, r' := Sticky(before), Sticky(tags);
      StickyKeepsFirst(before);
      if |r| == 4 && tag in r[..3] {
        var p :| LastOutside(before, r, p);
        assert LastOutside(tags, r', p);
      } else if |r'| == 4 {
        assert LastOutside(tags, r', |tags| - 1);
      }
    }
  }

  /** After any such run from flushed caches, each set of L1 holds the first three lines
      of its class that were read, which are never evicted, and the last one read that is
      none of those, way by way, and all its ages are 0. */
  lemma {:induction false} ReadsStick(mem: seq<Byte>, ops: seq<Op>, heap: Heap, i: nat)
    requires CallsFit(ops, |mem|) && Reads(ops) && i < L1_SETS
    ensures RunW(Flushed(mem), ops, heap).Went?
    ensures exists r :: Ageless(RunW(Flushed(mem), ops, heap).st.l1[i], r) &&
                        FirstThreeAndLastOther(Class(History(ops), i), r)
  {
    hide RunW, Ageless, FirstThreeAndLastOther, Sticky, Class, Flushed;
    SetsStick(mem, ops, heap);
    StickyKeepsFirst(Class(History(ops), i));
  }

  lemma {:induction false} FourEqualFour(r: seq<nat>, t: seq<nat>)
    requires |r| == |t| == 4 && Recency.NoRepeats(r) && Recency.NoRepeats(t)
    requires forall x :: x in r ==> x in t
    ensures SameElements(r, t)
  {
    assert r[0] in t && r[1] in t && r[2] in t && r[3] in t;
    assert t == [t[0], t[1], t[2], t[3]];
    assert r == [r[0], r[1], r[2], r[3]];
  }

  lemma {:induction false} SomeOther(t: seq<nat>, three: seq<nat>)
    requires |t| == 4 && |three| == 3 && Recency.NoRepeats(t)
    ensures exists q :: 0 <= q < 4 && t[q] !in three
  {
    assert three == [three[0], three[1], three[2]];
    if t[0] in three && t[1] in three && t[2] in three {
      assert t[3] !in three;
    }
  }

  lemma {:induction false} FollowsExactly(r: seq<nat>, d: seq<nat>)
    requires Follows(r, d) && |r| <= 4
    ensures SameElements(r, Recency.Take(d, 4)) <==> forall x :: x in Recency.Take(r, 3) ==> x in Recency.Take(d, 4)
  {
    if |r| == 4 && forall x :: x in Recency.Take(r, 3) ==> x in Recency.Take(d, 4) {
      var t := d[..4];
      assert t == Recency.Take(d, 4);
      var p :| 0 <= p < |d| && d[p] == r[3] && forall q :: 0 <= q < p ==> d[q] in r[..3];
      SomeOther(t, r[..3]);
      assert t[p] == r[3];
      assert r == r[..3] + [r[3]];
      FourEqualFour(r, t);
    }
  }

  /** On reads, the replacement as written leaves in a set of L1 what LRU would leave
      if and only if the first three lines of the set are among its last four. */
  lemma {:induction false} ReadsAreLruExactly(mem: seq<Byte>, ops: seq<Op>, heap: Heap, i: nat)
    requires CallsFit(ops, |mem|) && Reads(ops) && i < L1_SETS
    ensures RunW(Flushed(mem), ops, heap).Went?
    ensures var s, tags := RunW(Flushed(mem), ops, heap).st.l1[i], Class(History(ops), i);
      var lastFour := Recency.Take(Recency.MostRecent(tags), 4);
      (forall tag :: ProbeStop(s, tag).Some? <==> tag in lastFour)
      <==>
      (forall tag :: tag in Recency.Take(FirstUse(tags), 3) ==> tag in lastFour)
  {
    hide RunW, Ageless, Follows, Recency.Take, Recency.MostRecent, Sticky, FirstUse, Class, Flushed;
    SetsStick(mem, ops, heap);
    var s, tags := RunW(Flushed(mem), ops, heap).st.l1[i], Class(History(ops), i);
    var r := Sticky(tags);
    StickyFollows(tags);
    StickyKeepsFirst(tags);
    FollowsExactly(r, Recency.MostRecent(tags));
    forall tag
      ensures ProbeStop(s, tag).Some? <==> tag in r
    {
      AgelessProbe(s, r, tag);
    }
  }

  // ----- five reads that show the difference

  /** Five lines of set 0. */
  function FiveReads(): seq<Op>
  {
    [GetWord(0x000), GetWord(0x400), GetWord(0x800), GetWord(0xC00), GetWord(0x1000)]
  }

  /** After five reads of set 0 the first line, which LRU would have dropped, still hits,
      and the fourth, which LRU would have kept, misses. */
  lemma {:induction false} ReadsAreNotLru(mem: seq<Byte>, heap: Heap)
    requires |mem| >= 0x1010
    ensures RunW(Flushed(mem), FiveReads(), heap).Went?
    ensures var s := RunW(Flushed(mem), FiveReads(), heap).st.l1[0];
      ProbeStop(s, 0).Some? && ProbeStop(s, 3).None?
    ensures Recency.Run<nat>(Class(History(FiveReads()), 0), 4) == [4, 3, 2, 1]
  {
    hide RunW, Flushed, Ageless, Sticky, Class, History, Recency.Run;
    BaseReads(FiveReads());
    SetsStick(mem, FiveReads(), heap);
    FiveLines();
    FiveStick();
    FiveUsed();
    AgelessProbe(RunW(Flushed(mem), FiveReads(), heap).st.l1[0], [0, 1, 2, 4], 0);
    AgelessProbe(RunW(Flushed(mem), FiveReads(), heap).st.l1[0], [0, 1, 2, 4], 3);
  }

  lemma {:induction false} FiveLines()
    ensures Class(History(FiveReads()), 0) == [0, 1, 2, 3, 4]
  {
    hide Class, History;
    NoHistory();
    var r0, r1, r2, r3 := GetWord(0x000), GetWord(0x400), GetWord(0x800), GetWord(0xC00);
    ReadAdds([], 0x000, [r0], [], [0]);
    ReadAdds([r0], 0x400, [r0, r1], [0], [0, 1]);
    ReadAdds([r0, r1], 0x800, [r0, r1, r2], [0, 1], [0, 1, 2]);
    ReadAdds([r0, r1, r2], 0xC00, [r0, r1, r2, r3], [0, 1, 2], [0, 1, 2, 3]);
    ReadAdds([r0, r1, r2, r3], 0x1000, FiveReads(), [0, 1, 2, 3], [0, 1, 2, 3, 4]);
  }

  lemma {:induction false} NoHistory()
    ensures Class(History([]), 0) == []
  {
  }

  lemma {:induction false} ReadAdds(ops: seq<Op>, addr: Uint32, ops': seq<Op>, tags: seq<nat>, tags': seq<nat>)
    requires Class(History(ops), 0) == tags && addr % 0x400 == 0
    requires ops' == ops + [GetWord(addr)] && tags' == tags + [addr / 0x400]
    ensures Class(History(ops'), 0) == tags'
  {
    hide Class;
    assert ops'[..|ops|] == ops;
    NamesOfLine(addr);
    ClassStep(History(ops), LineOf(addr), 0);
  }

  lemma {:induction false} FiveStick()
    ensures Sticky([0, 1, 2, 3, 4]) == [0, 1, 2, 4]
  {
    hide Sticky;
    NoneUsed();
    StickyAppend([], 0);
    assert [] + [0] == [0];
    StickyAppend([0], 1);
    assert [0] + [1] == [0, 1];
    StickyAppend([0, 1], 2);
    assert [0, 1] + [2] == [0, 1, 2];
    StickyAppend([0, 1, 2], 3);
    assert [0, 1, 2] + [3] == [0, 1, 2, 3];
    StickyAppend([0, 1, 2, 3], 4);
    assert [0, 1, 2, 3] + [4] == [0, 1, 2, 3, 4];
    assert [0, 1, 2, 3][..3] + [4] == [0, 1, 2, 4];
  }

  lemma {:induction false} NoneUsed()
    ensures Sticky([]) == [] && Recency.Run<nat>([], 4) == []
  {
  }

  lemma {:induction false} RunNew(tags: seq<nat>, tag: nat, r: seq<nat>)
    requires Recency.Run(tags, 4) == r && tag !in r
    ensures Recency.Run(tags + [tag], 4) == Recency.Take([tag] + r, 4)
  {
    Recency.RunAppend(tags, tag, 4);
    Recency.WithoutAbsent(r, tag);
  }

  lemma {:induction false} FiveUsed()
    ensures Recency.Run<nat>([0, 1, 2, 3, 4], 4) == [4, 3, 2, 1]
  {
    hide Recency.Run;
    NoneUsed();
    RunNew([], 0, []);
    assert [] + [0] == [0] && [0] + [] == [0];
    RunNew([0], 1, [0]);
    assert [0] + [1] == [0, 1] && [1] + [0] == [1, 0];
    RunNew([0, 1], 2, [1, 0]);
    assert [0, 1] + [2] == [0, 1, 2] && [2] + [1, 0] == [2, 1, 0];
    RunNew([0, 1, 2], 3, [2, 1, 0]);
    assert [0, 1, 2] + [3] == [0, 1, 2, 3] && [3] + [2, 1, 0] == [3, 2, 1, 0];
    RunNew([0, 1, 2, 3], 4, [3, 2, 1, 0]);
    assert [0, 1, 2, 3] + [4] == [0, 1, 2, 3, 4] && ([4] + [3, 2, 1, 0])[..4] == [4, 3, 2, 1];
  }
}
