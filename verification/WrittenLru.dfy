/** Exactly when one call of the cache as written keeps L1 an LRU buffer.  An insertion
    stores age 0 before LRU_age_update reads the age of the way just filled, so the ages of
    the others stay as they are; only the cold fill of cache_write ages a set as LRU asks. */
module WrittenLru {
  import opened Bytes
  import opened Outcomes
  import opened LineNames
  import opened AgeSets
  import opened ExclusiveSpec
  import opened FlatMemory
  import opened WrittenSpec
  import opened WrittenCalls
  import Bits
  import Counting
  import Recency

  // ----- one set

  /** The set after a miss of cache_read, or of cache_write in a full set. */
  ghost function InsertThenUpdate(s: seq<Way>, e: Way): seq<Way>
    requires |s| > 0
  {
    AgeUpdate(s[Chosen(s) := e], Chosen(s))
  }

  /** The set after a miss of cache_write. */
  ghost function WriteInto(s: seq<Way>, e: Way): seq<Way>
    requires |s| > 0
  {
    if FindPlace(s).Some? then AgeIncrease(s[Chosen(s) := e], Chosen(s)) else InsertThenUpdate(s, e)
  }

  /** The set holds exactly the tags `r`, in its first ways, and the age of each is its rank
      in `r`.  The ages of invalid ways may be anything: apply_lru never sees them, and a
      way that is filled gets a new one. */
  ghost predicate Aged(s: seq<Way>, r: seq<nat>)
  {
    && |r| <= |s| && Recency.NoRepeats(r)
    && (forall w :: 0 <= w < |s| ==> (s[w].v <==> w < |r|))
    && (forall w :: 0 <= w < |r| ==> s[w].age < |r| && s[w].tag == r[s[w].age])
    && (forall w, x :: 0 <= w < x < |r| ==> s[w].age != s[x].age)
  }

  // ----- the same with the ages of invalid ways made right

  function Settled(s: seq<Way>, k: nat): (r: seq<Way>)
    ensures |r| == |s|
  {
    seq(|s|, w requires 0 <= w < |s| => if s[w].v then s[w] else s[w].(age := k))
  }

  /** The ages of invalid ways are all that `Holds` asks beyond `Aged`. */
  lemma {:induction false} AgedIsHolds(s: seq<Way>, r: seq<nat>)
    ensures Aged(s, r) <==> Holds(Settled(s, |r|), r)
  {
    if Aged(s, r) {
      AgedHolds(s, r);
    }
    if Holds(Settled(s, |r|), r) {
      HoldsMeaning(Settled(s, |r|), r);
      HeldOnce(Settled(s, |r|), r);
      assert forall w :: 0 <= w < |s| ==> Settled(s, |r|)[w].v == s[w].v;
      assert forall w :: 0 <= w < |r| ==> Settled(s, |r|)[w] == s[w];
    }
  }

  lemma {:induction false} HeldOnce(s: seq<Way>, r: seq<nat>)
    requires Holds(s, r)
    ensures Recency.NoRepeats(r) && |r| <= |s|
  {
  }

  /** Different ages below their number are all of them, so every rank is some way's age. */
  lemma {:induction false} AgedHolds(s: seq<Way>, r: seq<nat>)
    requires Aged(s, r)
    ensures Holds(Settled(s, |r|), r)
  {
    var k := |r|;
    var ages: seq<nat> := seq(k, w requires 0 <= w < k => s[w].age);
    forall a | 0 <= a < k
      ensures a in ages
    {
      Counting.AllListed(ages, k, a);
    }
    var ways: seq<nat> := seq(k, a requires 0 <= a < k && a in ages => Counting.Position(ages, a));
    forall w | 0 <= w < k
      ensures ways[s[w].age] == w
    {
      assert ages[ways[s[w].age]] == s[w].age;
    }
    forall a | 0 <= a < k
      ensures ways[a] < k && s[ways[a]].age == a
    {
      assert ages[ways[a]] == a;
    }
    assert HoldsWith(Settled(s, k), r, ways);
  }

  lemma {:induction false} AgedHas(s: seq<Way>, r: seq<nat>, tag: nat)
    requires Aged(s, r) && tag in r
    ensures exists w :: 0 <= w < |s| && s[w].v && s[w].tag == tag
  {
    hide Holds;
    AgedHolds(s, r);
    HoldsMeaning(Settled(s, |r|), r);
    var w :| 0 <= w < |r| && Settled(s, |r|)[w].tag == tag;
    assert s[w].v && s[w].tag == tag;
  }

  lemma {:induction false} AgedProbe(s: seq<Way>, r: seq<nat>, tag: nat)
    requires Aged(s, r)
    ensures Packed(s)
    ensures ProbeStop(s, tag).None? <==> tag !in r
    ensures tag !in r ==> Absent(s, tag)
    ensures FindPlace(s) == if |r| < |s| then Some(|r|) else None
  {
    StopIsSkip(s, tag);
    if tag in r {
      AgedHas(s, r, tag);
    }
    if |r| < |s| {
      assert !s[|r|].v;
    }
  }

  lemma {:induction false} HitLength(r: seq<nat>, tag: nat, n: nat)
    requires Recency.NoRepeats(r) && tag in r && |r| <= n
    ensures |Recency.Access<nat>(r, tag, n)| == |r|
  {
    Recency.TouchLength(r, tag);
  }

  lemma {:induction false} AgedHit(s: seq<Way>, r: seq<nat>, w: nat)
    requires Aged(s, r) && w < |s| && s[w].v
    ensures s[w].tag in r && Aged(AgeUpdate(s, w), Recency.Access<nat>(r, s[w].tag, |s|))
  {
    hide Holds, Recency.Access;
    AgedHolds(s, r);
    HitStep(Settled(s, |r|), r, w);
    assert AgeUpdate(Settled(s, |r|), w) == Settled(AgeUpdate(s, w), |r|);
    HitLength(r, s[w].tag, |s|);
    AgedIsHolds(AgeUpdate(s, w), Recency.Access<nat>(r, s[w].tag, |s|));
  }

  lemma {:induction false} AgedRewrite(s: seq<Way>, r: seq<nat>, w: nat, line: Line)
    requires Aged(s, r) && w < |s| && s[w].v
    ensures Aged(Rewrite(s, w, line), Recency.Access<nat>(r, s[w].tag, |s|))
  {
    hide Recency.Access;
    AgedHit(s, r, w);
    var s' := AgeUpdate(s, w);
    YoungestUpdate(s'[w := s'[w].(line := line)], w);
  }

  /** A cold fill by cache_write ages the set as LRU asks. */
  lemma {:induction false} AgedCold(s: seq<Way>, r: seq<nat>, e: Way)
    requires Aged(s, r) && |r| < |s| && e.v && e.age == 0 && e.tag !in r
    ensures Aged(WriteInto(s, e), Recency.Access<nat>(r, e.tag, |s|))
  {
    hide Holds, Recency.Access;
    AgedProbe(s, r, e.tag);
    var s0, k := Settled(s, |r|), |r|;
    AgedHolds(s, r);
    ColdStep(s0, r, e.tag, e.line);
    ColdLength(r, e.tag, |s|);
    assert WriteInto(s, e) == AgeIncrease(s[k := e], k);
    assert AgeIncrease(s0[k := e], k) == Settled(AgeIncrease(s[k := e], k), k + 1);
    AgedIsHolds(WriteInto(s, e), Recency.Access<nat>(r, e.tag, |s|));
  }

  lemma {:induction false} ColdLength(r: seq<nat>, tag: nat, n: nat)
    requires Recency.NoRepeats(r) && tag !in r && |r| < n
    ensures |Recency.Access<nat>(r, tag, n)| == |r| + 1
  {
    Recency.TouchLength(r, tag);
  }

  /** The first line of a set needs no aging. */
  lemma {:induction false} AgedFirst(s: seq<Way>, e: Way)
    requires Aged(s, []) && |s| > 0 && e.v && e.age == 0
    ensures Aged(InsertThenUpdate(s, e), [e.tag]) && Recency.Access<nat>([], e.tag, |s|) == [e.tag]
  {
    AgedProbe(s, [], e.tag);
  }

  // ----- what spoils a set

  ghost predicate TwoYoungest(s: seq<Way>)
  {
    exists w, x :: 0 <= w < x < |s| && s[w].v && s[x].v && s[w].age == 0 && s[x].age == 0
  }

  lemma {:induction false} OneYoungest(s: seq<Way>, r: seq<nat>)
    requires Aged(s, r)
    ensures !TwoYoungest(s)
  {
  }

  lemma {:induction false} HeldHasTag(s: seq<Way>, r: seq<nat>, tag: nat)
    requires Aged(s, r) && tag in r
    ensures !Absent(s, tag)
  {
    AgedProbe(s, r, tag);
  }

  lemma {:induction false} AbsentMisses(s: seq<Way>, tag: nat)
    requires Absent(s, tag)
    ensures ProbeStop(s, tag).None?
  {
  }

  /** An invalid entry brings no tag into a set. */
  lemma {:induction false} InvalidBringsNothing(s: seq<Way>, e: Way, tag: nat)
    requires |s| > 0 && Absent(s, tag) && !e.v
    ensures Absent(InsertThenUpdate(s, e), tag) && Absent(WriteInto(s, e), tag)
  {
  }

  lemma {:induction false} ChosenIsNotYoungest(s: seq<Way>, r: seq<nat>)
    requires Aged(s, r) && |s| > 1
    ensures s[Chosen(s)].v ==> s[Chosen(s)].age > 0
  {
    assert |r| == |s| ==> s[0].age != s[1].age;
  }

  /** A new entry of age 0 changes no other age, so the line that was youngest stays so. */
  lemma {:induction false} InsertionIsNotAged(s: seq<Way>, r: seq<nat>, e: Way)
    requires Aged(s, r) && r != [] && |s| > 1 && e.v && e.age == 0
    ensures InsertThenUpdate(s, e) == s[Chosen(s) := e]
    ensures TwoYoungest(InsertThenUpdate(s, e))
  {
    var w := Chosen(s);
    YoungestUpdate(s[w := e], w);
    AgedProbe(s, r, r[0]);
    var x := ProbeStop(s, r[0]).value;
    assert s[x].age == 0;
    ChosenIsNotYoungest(s, r);
    var s' := s[w := e];
    assert s'[x].v && s'[w].v && s'[x].age == 0 && s'[w].age == 0;
  }

  lemma {:induction false} RewriteKeepsTwo(s: seq<Way>, w: nat, line: Line)
    requires w < |s| && s[w].age == 0 && TwoYoungest(s)
    ensures TwoYoungest(Rewrite(s, w, line))
  {
    YoungestUpdate(s, w);
    var s1 := s[w := s[w].(line := line)];
    YoungestUpdate(s1, w);
    var x, y :| 0 <= x < y < |s| && s[x].v && s[y].v && s[x].age == 0 && s[y].age == 0;
    assert s1[x].v && s1[y].v && s1[x].age == 0 && s1[y].age == 0;
  }

  // ----- one call

  /** What cache_read leaves of the set, and that it leaves the others alone. */
  lemma {:induction false} ReadSets(st: State, addr: Uint32, junk: Way)
    requires Shaped(st) && NothingValid(st.l2) && InMemory(st.mem, addr)
    ensures var i, r := LineOf(addr) % L1_SETS, ReadW(st, addr, junk);
      r.Went? && r.st.l2 == st.l2 && r.st.mem == st.mem &&
      r.st.l1 == st.l1[i := match ProbeStop(st.l1[i], addr / 0x400)
                            case Some(w) => AgeUpdate(st.l1[i], w)
                            case None => InsertThenUpdate(st.l1[i], EntryFor(st.mem, addr, junk))]
  {
    hide AgeUpdate, WordOf, EntryFor;
    NeverInL2(st, addr);
  }

  /** The same for cache_write. */
  lemma {:induction false} WriteSets(st: State, addr: Uint32, word: Word, junk: Way)
    requires Shaped(st) && NothingValid(st.l2) && addr + LINE_BYTES <= |st.mem|
    ensures var i, r := LineOf(addr) % L1_SETS, WriteW(st, addr, word, junk);
      r.Went? &&
      r.st.l1 == st.l1[i := match ProbeStop(st.l1[i], addr / 0x400)
                            case Some(w) => Rewrite(st.l1[i], w, PutWord(st.l1[i][w].line, addr, word))
                            case None => WriteInto(st.l1[i], EntryFor(r.st.mem, addr, junk))]
  {
    hide AgeUpdate, AgeIncrease, Rewrite, PutWord, Splice, EntryFor, StoreInvalid;
    NeverInL2(st, addr);
  }

  /** The sets of L1 that a call leaves alone. */
  lemma {:induction false} OtherSetsStay(st: State, op: Op, junk: Junk, k: nat)
    requires Shaped(st) && NothingValid(st.l2) && Fits(op, |st.mem|)
    requires k < L1_SETS && k != LineOf(op.addr) % L1_SETS
    ensures CallW(st, op, junk).Went? && CallW(st, op, junk).st.l1[k] == st.l1[k]
  {
    hide ReadW, WriteW, AgeUpdate, AgeIncrease, Rewrite, PutWord, EntryFor, Bits.ByteOr, NothingValid;
    ReadSets(st, op.addr, junk.first);
    if op.PutWordAt? {
      WriteSets(st, op.addr, op.word, junk.first);
    } else if op.PutByteAt? {
      var r := ReadW(st, op.addr, junk.first);
      WriteSets(r.st, op.addr, ByteMerged(r.value, op.addr, op.byte), junk.second);
    }
  }

  ghost function ByteMerged(word: Word, addr: nat, byte: Byte): Word
  {
    word[addr % 4 := Bits.ByteOr(word[addr % 4], byte)]
  }

  ghost predicate SetAged(st: State, addr: nat, r: seq<nat>)
    requires Shaped(st)
  {
    Aged(st.l1[LineOf(addr) % L1_SETS], r)
  }

  lemma {:induction false} AgedOnce(st: State, addr: nat, r: seq<nat>)
    requires Shaped(st) && SetAged(st, addr, r)
    ensures Recency.NoRepeats(r) && |r| <= L1_WAYS
  {
  }

  lemma {:induction false} ReadHitKeeps(st: State, addr: Uint32, junk: Way, r: seq<nat>)
    requires Shaped(st) && NothingValid(st.l2) && InMemory(st.mem, addr)
    requires SetAged(st, addr, r) && addr / 0x400 in r
    ensures var st' := ReadW(st, addr, junk).st;
      && ReadW(st, addr, junk).Went? && st'.l2 == st.l2
      && SetAged(st', addr, Recency.Access<nat>(r, addr / 0x400, L1_WAYS))
  {
    hide ReadW, AgeUpdate, EntryFor, Aged, Recency.Access, NothingValid;
    var s := st.l1[LineOf(addr) % L1_SETS];
    ReadSets(st, addr, junk);
    AgedProbe(s, r, addr / 0x400);
    AgedHit(s, r, ProbeStop(s, addr / 0x400).value);
  }

  lemma {:induction false} WriteHitKeeps(st: State, addr: Uint32, word: Word, junk: Way, r: seq<nat>)
    requires Shaped(st) && NothingValid(st.l2) && addr + LINE_BYTES <= |st.mem|
    requires SetAged(st, addr, r) && addr / 0x400 in r
    ensures WriteW(st, addr, word, junk).Went?
    ensures SetAged(WriteW(st, addr, word, junk).st, addr, Recency.Access<nat>(r, addr / 0x400, L1_WAYS))
  {
    hide WriteW, AgeUpdate, Rewrite, EntryFor, Aged, Recency.Access, NothingValid, PutWord;
    var s := st.l1[LineOf(addr) % L1_SETS];
    WriteSets(st, addr, word, junk);
    AgedProbe(s, r, addr / 0x400);
    var w := ProbeStop(s, addr / 0x400).value;
    AgedRewrite(s, r, w, PutWord(s[w].line, addr, word));
  }

  /** The one path that ages as LRU does on a miss: a cold fill by cache_write. */
  lemma {:induction false} ColdWriteKeeps(st: State, addr: Uint32, word: Word, junk: Way, r: seq<nat>)
    requires Shaped(st) && NothingValid(st.l2) && addr + LINE_BYTES <= |st.mem| && addr % LINE_BYTES == 0
    requires SetAged(st, addr, r) && addr / 0x400 !in r && |r| < L1_WAYS
    ensures WriteW(st, addr, word, junk).Went?
    ensures SetAged(WriteW(st, addr, word, junk).st, addr, Recency.Access<nat>(r, addr / 0x400, L1_WAYS))
  {
    hide WriteW, AgeUpdate, AgeIncrease, Aged, Recency.Access, NothingValid;
    var s := st.l1[LineOf(addr) % L1_SETS];
    WriteSets(st, addr, word, junk);
    AgedProbe(s, r, addr / 0x400);
    AgedCold(s, r, EntryFor(WriteW(st, addr, word, junk).st.mem, addr, junk));
  }

  /** The first line of a set is aged rightly by a read too. */
  lemma {:induction false} FirstReadKeeps(st: State, addr: Uint32, junk: Way)
    requires Shaped(st) && NothingValid(st.l2) && InMemory(st.mem, addr) && addr % LINE_BYTES == 0
    requires SetAged(st, addr, [])
    ensures var st' := ReadW(st, addr, junk).st;
      && ReadW(st, addr, junk).Went? && st'.l2 == st.l2
      && SetAged(st', addr, Recency.Access<nat>([], addr / 0x400, L1_WAYS))
  {
    hide ReadW, AgeUpdate, Aged, Recency.Access, NothingValid, InsertThenUpdate;
    var s := st.l1[LineOf(addr) % L1_SETS];
    ReadSets(st, addr, junk);
    AgedProbe(s, [], addr / 0x400);
    AgedFirst(s, EntryFor(st.mem, addr, junk));
  }

  lemma {:induction false} AccessTwice(r: seq<nat>, tag: nat, n: nat)
    requires Recency.NoRepeats(r) && n > 0
    ensures Recency.Access<nat>(Recency.Access<nat>(r, tag, n), tag, n) == Recency.Access<nat>(r, tag, n)
    ensures tag in Recency.Access<nat>(r, tag, n)
  {
    Recency.TouchNoRepeats(r, tag);
    var r1 := Recency.Touch(r, tag);
    Recency.TouchThenTake(r1, tag, n);
    Recency.WithoutAt(r1, 0);
    assert Recency.Touch(r1, tag) == r1;
    assert Recency.Take(r1, n)[0] == tag;
  }

  /** Under the condition, the access is LRU whatever the allocator leaves. */
  lemma {:induction false} CallKeepsAges(st: State, op: Op, junk: Junk, r: seq<nat>)
    requires Shaped(st) && NothingValid(st.l2) && Fits(op, |st.mem|)
    requires SetAged(st, op.addr, r) && AgesRight(r, op)
    ensures CallW(st, op, junk).Went?
    ensures SetAged(CallW(st, op, junk).st, op.addr, Recency.Access<nat>(r, op.addr / 0x400, L1_WAYS))
  {
    hide ReadW, WriteW, Aged, Recency.Access, NothingValid, Bits.ByteOr;
    if op.PutWordAt? {
      if op.addr / 0x400 in r {
        WriteHitKeeps(st, op.addr, op.word, junk.first, r);
      } else {
        ColdWriteKeeps(st, op.addr, op.word, junk.first, r);
      }
    } else {
      var r' := Recency.Access<nat>(r, op.addr / 0x400, L1_WAYS);
      if op.addr / 0x400 in r {
        ReadHitKeeps(st, op.addr, junk.first, r);
      } else {
        FirstReadKeeps(st, op.addr, junk.first);
      }
      if op.PutByteAt? {
        AgedOnce(st, op.addr, r);
        AccessTwice(r, op.addr / 0x400, L1_WAYS);
        var read := ReadW(st, op.addr, junk.first);
        WriteHitKeeps(read.st, op.addr, ByteMerged(read.value, op.addr, op.byte), junk.second, r');
      }
    }
  }

  /** The line is held already; or the address is a line base, and the set is empty or a
      word is written into a set not full. */
  predicate AgesRight(r: seq<nat>, op: Op)
  {
    || op.addr / 0x400 in r
    || (op.addr % LINE_BYTES == 0 && (r == [] || (op.PutWordAt? && |r| < L1_WAYS)))
  }

  ghost function BadJunk(): Junk
  {
    Junk(Way(false, 0, 0, EmptyLine()), Way(false, 0, 0, EmptyLine()))
  }

  /** Otherwise some content of the new entries makes it fail. */
  lemma {:induction false} CallSpoilsAges(st: State, op: Op, r: seq<nat>, r': seq<nat>)
    requires Shaped(st) && NothingValid(st.l2) && Fits(op, |st.mem|)
    requires SetAged(st, op.addr, r) && !AgesRight(r, op) && op.addr / 0x400 in r'
    ensures CallW(st, op, BadJunk()).Went? && !SetAged(CallW(st, op, BadJunk()).st, op.addr, r')
  {
    hide CallW, Aged, NothingValid;
    if op.addr % LINE_BYTES == 0 {
      SpoilsAtBase(st, op, r, r');
    } else {
      AgedProbe(st.l1[LineOf(op.addr) % L1_SETS], r, op.addr / 0x400);
      MissesOffBase(st, op);
      if SetAged(CallW(st, op, BadJunk()).st, op.addr, r') {
        HeldHasTag(CallW(st, op, BadJunk()).st.l1[LineOf(op.addr) % L1_SETS], r', op.addr / 0x400);
      }
    }
  }

  /** Off a line base a line that misses may not be in the set afterwards. */
  lemma {:induction false} MissesOffBase(st: State, op: Op)
    requires Shaped(st) && NothingValid(st.l2) && Fits(op, |st.mem|) && op.addr % LINE_BYTES != 0
    requires Absent(st.l1[LineOf(op.addr) % L1_SETS], op.addr / 0x400)
    ensures CallW(st, op, BadJunk()).Went?
    ensures Absent(CallW(st, op, BadJunk()).st.l1[LineOf(op.addr) % L1_SETS], op.addr / 0x400)
  {
    hide ReadW, WriteW, NothingValid, Bits.ByteOr, InsertThenUpdate, WriteInto, Absent;
    var i, tag := LineOf(op.addr) % L1_SETS, op.addr / 0x400;
    var bad := BadJunk().first;
    AbsentMisses(st.l1[i], tag);
    ReadSets(st, op.addr, bad);
    InvalidBringsNothing(st.l1[i], bad, tag);
    if op.PutWordAt? {
      WriteSets(st, op.addr, op.word, bad);
    } else if op.PutByteAt? {
      var read := ReadW(st, op.addr, bad);
      AbsentMisses(read.st.l1[i], tag);
      InvalidBringsNothing(read.st.l1[i], bad, tag);
      WriteSets(read.st, op.addr, ByteMerged(read.value, op.addr, op.byte), bad);
    }
  }

  lemma {:induction false} SpoilsAtBase(st: State, op: Op, r: seq<nat>, r': seq<nat>)
    requires Shaped(st) && NothingValid(st.l2) && Fits(op, |st.mem|)
    requires op.addr % LINE_BYTES == 0
    requires SetAged(st, op.addr, r) && !AgesRight(r, op) && op.addr / 0x400 in r'
    ensures CallW(st, op, BadJunk()).Went? && !SetAged(CallW(st, op, BadJunk()).st, op.addr, r')
  {
    hide ReadW, WriteW, Aged, NothingValid, Bits.ByteOr, InsertThenUpdate, TwoYoungest;
    var i, tag := LineOf(op.addr) % L1_SETS, op.addr / 0x400;
    var s, bad := st.l1[i], BadJunk().first;
    AgedProbe(s, r, tag);
    ReadSets(st, op.addr, bad);
    var e := EntryFor(st.mem, op.addr, bad);
    InsertionIsNotAged(s, r, e);
    if op.PutWordAt? {
      WriteSets(st, op.addr, op.word, bad);
      InsertionIsNotAged(s, r, EntryFor(WriteW(st, op.addr, op.word, bad).st.mem, op.addr, bad));
    } else if op.PutByteAt? {
      var read := ReadW(st, op.addr, bad);
      WriteSets(read.st, op.addr, ByteMerged(read.value, op.addr, op.byte), bad);
      ByteSpoils(s, r, e, tag, PutWord(e.line, op.addr, ByteMerged(read.value, op.addr, op.byte)));
    }
    if SetAged(CallW(st, op, BadJunk()).st, op.addr, r') {
      OneYoungest(CallW(st, op, BadJunk()).st.l1[i], r');
    }
  }

  /** A byte write that misses reads the line in and then hits it. */
  lemma {:induction false} ByteSpoils(s: seq<Way>, r: seq<nat>, e: Way, tag: nat, line: Line)
    requires Aged(s, r) && r != [] && tag !in r && |s| > 1 && e.v && e.age == 0 && e.tag == tag
    ensures var s' := InsertThenUpdate(s, e);
      && ProbeStop(s', tag) == Some(Chosen(s))
      && s'[Chosen(s)] == e
      && TwoYoungest(Rewrite(s', Chosen(s), line))
  {
    hide Rewrite, TwoYoungest, Holds;
    InsertionIsNotAged(s, r, e);
    var s', w := s[Chosen(s) := e], Chosen(s);
    AgedProbe(s, r, tag);
    FirstWithTag(s', tag, w, 0);
    RewriteKeepsTwo(s', w, line);
  }

  lemma {:induction false} FirstWithTag(s: seq<Way>, tag: nat, w: nat, i: nat)
    requires i <= w < |s| && s[w].tag == tag
    requires forall x :: 0 <= x <= w ==> s[x].v
    requires forall x :: 0 <= x < w ==> s[x].tag != tag
    ensures ProbeStop(s, tag, i) == Some(w)
    decreases w - i
  {
    if i < w {
      FirstWithTag(s, tag, w, i + 1);
    }
  }

  /** From a set whose valid ways have their ranks as ages: whatever the allocator leaves,
      the set then makes one access of an LRU buffer and has ranks as ages again, if and
      only if the line is held, or the address is a line base and the set is empty or a
      word is written into a set not full. */
  lemma {:induction false} CallIsLruExactly(st: State, op: Op, r: seq<nat>)
    requires Shaped(st) && NothingValid(st.l2) && Fits(op, |st.mem|)
    requires SetAged(st, op.addr, r)
    ensures (forall junk :: CallW(st, op, junk).Went? &&
              SetAged(CallW(st, op, junk).st, op.addr, Recency.Access<nat>(r, op.addr / 0x400, L1_WAYS)))
            <==>
            AgesRight(r, op)
  {
    hide CallW, SetAged, NothingValid, AgesRight, Recency.Access;
    if AgesRight(r, op) {
      forall junk
        ensures CallW(st, op, junk).Went? &&
          SetAged(CallW(st, op, junk).st, op.addr, Recency.Access<nat>(r, op.addr / 0x400, L1_WAYS))
      {
        CallKeepsAges(st, op, junk, r);
      }
    } else {
      HeldTwice(st, op, r);
      CallSpoilsAges(st, op, r, Recency.Access<nat>(r, op.addr / 0x400, L1_WAYS));
    }
  }

  lemma {:induction false} HeldTwice(st: State, op: Op, r: seq<nat>)
    requires Shaped(st) && SetAged(st, op.addr, r)
    ensures op.addr / 0x400 in Recency.Access<nat>(r, op.addr / 0x400, L1_WAYS)
  {
    AgedOnce(st, op.addr, r);
    AccessTwice(r, op.addr / 0x400, L1_WAYS);
  }
}
