/** Exactly when the lines that the cache as written holds in L1 are those that LRU would
    hold, whatever their ages are. */
module WrittenContents {
  import opened Bytes
  import opened Outcomes
  import opened LineNames
  import opened AgeSets
  import opened SetLookup
  import opened ExclusiveSpec
  import opened FlatMemory
  import opened WrittenSpec
  import opened WrittenCalls
  import opened WrittenLru
  import Bits
  import Recency

  /** The set holds exactly the tags `r`, in its first ways. */
  ghost predicate Keeps(s: seq<Way>, r: seq<nat>)
  {
    && |r| <= |s| && Recency.NoRepeats(r) && Distinct(s)
    && (forall w :: 0 <= w < |s| ==> (s[w].v <==> w < |r|))
    && (forall w :: 0 <= w < |r| ==> s[w].tag in r)
    && (forall t :: t in r ==> !Absent(s, t))
  }

  lemma {:induction false} AgedKeeps(s: seq<Way>, r: seq<nat>)
    requires Aged(s, r)
    ensures Keeps(s, r)
    ensures |r| == |s| > 0 ==> s[Oldest(s, |s|)].tag == r[|r| - 1]
  {
    forall t | t in r
      ensures !Absent(s, t)
    {
      HeldHasTag(s, r, t);
    }
    if |r| == |s| > 0 {
      var w := Oldest(s, |s|);
      AgedProbe(s, r, r[|r| - 1]);
      var x := ProbeStop(s, r[|r| - 1]).value;
      assert s[x].age <= s[w].age;
    }
  }

  lemma {:induction false} KeepsProbe(s: seq<Way>, r: seq<nat>, tag: nat)
    requires Keeps(s, r)
    ensures ProbeStop(s, tag).Some? <==> tag in r
    ensures tag !in r ==> Absent(s, tag)
    ensures FindPlace(s) == if |r| < |s| then Some(|r|) else None
  {
    StopIsSkip(s, tag);
    if |r| < |s| {
      assert !s[|r|].v;
    }
  }

  /** Ages and lines do not matter, nor does the order of `r`. */
  ghost predicate SameTags(s: seq<Way>, s': seq<Way>)
  {
    |s'| == |s| && forall w :: 0 <= w < |s| ==> s'[w].v == s[w].v && s'[w].tag == s[w].tag
  }

  lemma {:induction false} KeepsSame(s: seq<Way>, r: seq<nat>, s': seq<Way>, r': seq<nat>)
    requires SameTags(s, s') && |r'| == |r| && Recency.NoRepeats(r) && Recency.NoRepeats(r')
    requires forall t :: t in r <==> t in r'
    ensures Keeps(s, r) <==> Keeps(s', r')
  {
    assert Distinct(s') == Distinct(s);
    forall t
      ensures Absent(s', t) == Absent(s, t)
    {
    }
  }

  lemma {:induction false} HitTags(r: seq<nat>, tag: nat)
    requires Recency.NoRepeats(r) && tag in r && |r| <= L1_WAYS
    ensures var r' := Recency.Access<nat>(r, tag, L1_WAYS);
      |r'| == |r| && Recency.NoRepeats(r') && forall t :: t in r' <==> t in r
  {
    Recency.TouchLength(r, tag);
    Recency.TouchNoRepeats(r, tag);
  }

  lemma {:induction false} NewTags(r: seq<nat>, tag: nat)
    requires Recency.NoRepeats(r) && tag !in r && |r| <= L1_WAYS
    ensures var r' := Recency.Access<nat>(r, tag, L1_WAYS);
      && r' == [tag] + (if |r| < L1_WAYS then r else r[..L1_WAYS - 1])
      && Recency.NoRepeats(r')
  {
    Recency.WithoutAbsent(r, tag);
    Recency.TouchNoRepeats(r, tag);
  }

  /** A hit changes no tag. */
  lemma {:induction false} HitKeeps(s: seq<Way>, r: seq<nat>, s': seq<Way>, tag: nat)
    requires Keeps(s, r) && SameTags(s, s') && |s| == L1_WAYS && tag in r
    ensures Keeps(s', Recency.Access<nat>(r, tag, L1_WAYS))
  {
    HitTags(r, tag);
    KeepsSame(s, r, s', Recency.Access<nat>(r, tag, L1_WAYS));
  }

  /** The line that a miss in a full set drops is the one used least recently. */
  ghost predicate DropsLast(s: seq<Way>, r: seq<nat>)
    requires |s| == L1_WAYS
  {
    |r| < L1_WAYS || s[Oldest(s, L1_WAYS)].tag == r[L1_WAYS - 1]
  }

  lemma {:induction false} PutKeeps(s: seq<Way>, r: seq<nat>, e: Way)
    requires Keeps(s, r) && |s| == L1_WAYS && e.v && e.tag !in r && DropsLast(s, r)
    ensures Keeps(s[Chosen(s) := e], Recency.Access<nat>(r, e.tag, L1_WAYS))
  {
    var w, r' := Chosen(s), Recency.Access<nat>(r, e.tag, L1_WAYS);
    var s' := s[w := e];
    NewTags(r, e.tag);
    KeepsProbe(s, r, e.tag);
    forall t | t in r'
      ensures !Absent(s', t)
    {
      if t == e.tag {
        assert s'[w].v && s'[w].tag == t;
      } else {
        assert !Absent(s, t);
        var x :| 0 <= x < |s| && s[x].v && s[x].tag == t;
        assert s'[x] == s[x];
      }
    }
    forall x | 0 <= x < |r'|
      ensures s'[x].tag in r'
    {
      if x != w {
        assert |r| == L1_WAYS ==> s[x].tag != r[L1_WAYS - 1];
      }
    }
  }

  lemma {:induction false} PutLoses(s: seq<Way>, r: seq<nat>, e: Way)
    requires Keeps(s, r) && |s| == L1_WAYS && e.v && e.tag !in r && !DropsLast(s, r)
    ensures !Keeps(s[Chosen(s) := e], Recency.Access<nat>(r, e.tag, L1_WAYS))
  {
    NewTags(r, e.tag);
    KeepsProbe(s, r, e.tag);
    var w := Oldest(s, L1_WAYS);
    var t := s[w].tag;
    assert t in r[..L1_WAYS - 1];
    assert Absent(s[w := e], t);
  }

  lemma {:induction false} PutExactly(s: seq<Way>, r: seq<nat>, e: Way, s': seq<Way>)
    requires Keeps(s, r) && |s| == L1_WAYS && e.v && e.tag !in r && SameTags(s[Chosen(s) := e], s')
    ensures Keeps(s', Recency.Access<nat>(r, e.tag, L1_WAYS)) <==> DropsLast(s, r)
  {
    var r' := Recency.Access<nat>(r, e.tag, L1_WAYS);
    if DropsLast(s, r) {
      PutKeeps(s, r, e);
    } else {
      PutLoses(s, r, e);
    }
    NewTags(r, e.tag);
    KeepsSame(s[Chosen(s) := e], r', s', r');
  }

  // ----- one call

  lemma {:induction false} AgingSameTags(s: seq<Way>, w: nat, line: Line)
    requires w < |s|
    ensures SameTags(s, AgeUpdate(s, w)) && SameTags(s, AgeIncrease(s, w)) && SameTags(s, Rewrite(s, w, line))
  {
  }

  lemma {:induction false} IntoSameTags(s: seq<Way>, e: Way)
    requires |s| > 0
    ensures SameTags(s[Chosen(s) := e], InsertThenUpdate(s, e)) && SameTags(s[Chosen(s) := e], WriteInto(s, e))
  {
    AgingSameTags(s[Chosen(s) := e], Chosen(s), e.line);
  }

  /** What a call does to the tags of its set when its line is held. */
  lemma {:induction false} HitCall(st: State, op: Op, junk: Junk)
    requires Shaped(st) && NothingValid(st.l2) && Fits(op, |st.mem|) && HitsL1(st, op.addr)
    ensures CallW(st, op, junk).Went?
    ensures var i := LineOf(op.addr) % L1_SETS;
      SameTags(st.l1[i], CallW(st, op, junk).st.l1[i])
  {
    hide ReadW, WriteW, AgeUpdate, Rewrite, PutWord, EntryFor, Bits.ByteOr, NothingValid, SameTags;
    var i, tag := LineOf(op.addr) % L1_SETS, op.addr / 0x400;
    var s := st.l1[i];
    var w := ProbeStop(s, tag).value;
    if op.PutWordAt? {
      WriteSets(st, op.addr, op.word, junk.first);
      AgingSameTags(s, w, PutWord(s[w].line, op.addr, op.word));
    } else {
      ReadSets(st, op.addr, junk.first);
      AgingSameTags(s, w, EmptyLine());
      if op.PutByteAt? {
        var read := ReadW(st, op.addr, junk.first);
        RehitSet(s, read.st.l1[i], tag);
        var w' := ProbeStop(read.st.l1[i], tag).value;
        var word := ByteMerged(read.value, op.addr, op.byte);
        WriteSets(read.st, op.addr, word, junk.second);
        AgingSameTags(read.st.l1[i], w', PutWord(read.st.l1[i][w'].line, op.addr, word));
        SameTagsTwice(s, read.st.l1[i], CallW(st, op, junk).st.l1[i]);
      }
    }
  }

  ghost predicate HitsL1(st: State, addr: nat)
    requires Shaped(st)
  {
    ProbeStop(st.l1[LineOf(addr) % L1_SETS], addr / 0x400).Some?
  }

  lemma {:induction false} SameTagsTwice(s: seq<Way>, s1: seq<Way>, s2: seq<Way>)
    requires SameTags(s, s1) && SameTags(s1, s2)
    ensures SameTags(s, s2)
  {
  }

  lemma {:induction false} RehitSet(s: seq<Way>, s': seq<Way>, tag: nat, i: nat := 0)
    requires SameTags(s, s') && i <= |s|
    ensures ProbeStop(s', tag, i) == ProbeStop(s, tag, i)
    decreases |s| - i
  {
    if i < |s| {
      RehitSet(s, s', tag, i + 1);
    }
  }

  /** What a call at a line base does to the tags of its set when its line is not held. */
  lemma {:induction false} MissCall(st: State, op: Op, junk: Junk, r: seq<nat>)
    requires Shaped(st) && NothingValid(st.l2) && Fits(op, |st.mem|) && op.addr % LINE_BYTES == 0
    requires var s := st.l1[LineOf(op.addr) % L1_SETS]; Keeps(s, r) && op.addr / 0x400 !in r
    ensures CallW(st, op, junk).Went?
    ensures var s := st.l1[LineOf(op.addr) % L1_SETS];
      exists e: Way :: e.v && e.tag == op.addr / 0x400 &&
                       SameTags(s[Chosen(s) := e], CallW(st, op, junk).st.l1[LineOf(op.addr) % L1_SETS])
  {
    hide ReadW, WriteW, AgeUpdate, Rewrite, PutWord, Bits.ByteOr, NothingValid, SameTags, InsertThenUpdate,
         WriteInto, Keeps;
    var i, tag := LineOf(op.addr) % L1_SETS, op.addr / 0x400;
    var s := st.l1[i];
    KeepsProbe(s, r, tag);
    if op.PutWordAt? {
      WriteSets(st, op.addr, op.word, junk.first);
      IntoSameTags(s, EntryFor(WriteW(st, op.addr, op.word, junk.first).st.mem, op.addr, junk.first));
    } else {
      ReadSets(st, op.addr, junk.first);
      var e := EntryFor(st.mem, op.addr, junk.first);
      IntoSameTags(s, e);
      if op.PutByteAt? {
        var read := ReadW(st, op.addr, junk.first);
        NewEntryHits(s, r, e);
        RehitSet(s[Chosen(s) := e], read.st.l1[i], tag);
        var w' := ProbeStop(read.st.l1[i], tag).value;
        var word := ByteMerged(read.value, op.addr, op.byte);
        WriteSets(read.st, op.addr, word, junk.second);
        AgingSameTags(read.st.l1[i], w', PutWord(read.st.l1[i][w'].line, op.addr, word));
        SameTagsTwice(s[Chosen(s) := e], read.st.l1[i], CallW(st, op, junk).st.l1[i]);
      }
    }
  }

  lemma {:induction false} NewEntryHits(s: seq<Way>, r: seq<nat>, e: Way)
    requires Keeps(s, r) && |s| > 0 && e.v && e.tag !in r
    ensures ProbeStop(s[Chosen(s) := e], e.tag).Some?
  {
    KeepsProbe(s, r, e.tag);
    FirstWithTag(s[Chosen(s) := e], e.tag, Chosen(s), 0);
  }

  ghost predicate SetKeeps(st: State, addr: nat, r: seq<nat>)
    requires Shaped(st)
  {
    Keeps(st.l1[LineOf(addr) % L1_SETS], r)
  }

  /** At a line base, or on a hit, the set holds afterwards what an LRU buffer would hold
      if and only if the line was held or the line to be dropped is LRU's. */
  lemma {:induction false} ContentsExactly(st: State, op: Op, junk: Junk, r: seq<nat>)
    requires Shaped(st) && NothingValid(st.l2) && Fits(op, |st.mem|) && SetKeeps(st, op.addr, r)
    requires op.addr % LINE_BYTES == 0 || op.addr / 0x400 in r
    ensures CallW(st, op, junk).Went?
    ensures SetKeeps(CallW(st, op, junk).st, op.addr, Recency.Access<nat>(r, op.addr / 0x400, L1_WAYS))
            <==>
            op.addr / 0x400 in r || DropsLast(st.l1[LineOf(op.addr) % L1_SETS], r)
  {
    hide CallW, NothingValid, Keeps, SameTags, DropsLast, Recency.Access;
    var s, tag := st.l1[LineOf(op.addr) % L1_SETS], op.addr / 0x400;
    KeepsProbe(s, r, tag);
    if tag in r {
      HitCall(st, op, junk);
      HitKeeps(s, r, CallW(st, op, junk).st.l1[LineOf(op.addr) % L1_SETS], tag);
    } else {
      MissCall(st, op, junk, r);
      var s' := CallW(st, op, junk).st.l1[LineOf(op.addr) % L1_SETS];
      var e: Way :| e.v && e.tag == tag && SameTags(s[Chosen(s) := e], s');
      PutExactly(s, r, e, s');
    }
  }

  /** Off a line base a miss may leave the line out. */
  lemma {:induction false} ContentsOffBase(st: State, op: Op, r: seq<nat>)
    requires Shaped(st) && NothingValid(st.l2) && Fits(op, |st.mem|) && SetKeeps(st, op.addr, r)
    requires op.addr % LINE_BYTES != 0 && op.addr / 0x400 !in r
    ensures CallW(st, op, BadJunk()).Went?
    ensures !SetKeeps(CallW(st, op, BadJunk()).st, op.addr, Recency.Access<nat>(r, op.addr / 0x400, L1_WAYS))
  {
    hide CallW, NothingValid;
    KeepsProbe(st.l1[LineOf(op.addr) % L1_SETS], r, op.addr / 0x400);
    MissesOffBase(st, op);
    NewTags(r, op.addr / 0x400);
  }

  /** For any call at any address, from a set that holds the tags `r` with whatever ages:
      the set holds afterwards what an LRU buffer would hold, whatever the allocator
      leaves, if and only if the line was held, or the address is a line base and no line
      or LRU's is dropped. */
  lemma {:induction false} CallContentsAreLruExactly(st: State, op: Op, r: seq<nat>)
    requires Shaped(st) && NothingValid(st.l2) && Fits(op, |st.mem|) && SetKeeps(st, op.addr, r)
    ensures (forall junk :: CallW(st, op, junk).Went? &&
              SetKeeps(CallW(st, op, junk).st, op.addr, Recency.Access<nat>(r, op.addr / 0x400, L1_WAYS)))
            <==>
            op.addr / 0x400 in r ||
            (op.addr % LINE_BYTES == 0 && DropsLast(st.l1[LineOf(op.addr) % L1_SETS], r))
  {
    hide CallW, NothingValid, SetKeeps, DropsLast, Recency.Access;
    if op.addr % LINE_BYTES == 0 || op.addr / 0x400 in r {
      forall junk
        ensures CallW(st, op, junk).Went?
        ensures SetKeeps(CallW(st, op, junk).st, op.addr, Recency.Access<nat>(r, op.addr / 0x400, L1_WAYS))
                <==>
                op.addr / 0x400 in r || DropsLast(st.l1[LineOf(op.addr) % L1_SETS], r)
      {
        ContentsExactly(st, op, junk, r);
      }
      ContentsExactly(st, op, BadJunk(), r);
    } else {
      ContentsOffBase(st, op, r);
    }
  }
}
