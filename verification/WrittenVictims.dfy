/** What becomes of the victims that cache_write sends to L2, marked invalid: find_place gives
    every one of them the first way, so each set of L2 remembers at most its last victim,
    where no scan looks for it. */
module WrittenVictims {
  import opened Bytes
  import opened Outcomes
  import opened LineNames
  import opened AgeSets
  import opened ExclusiveSpec
  import opened FlatMemory
  import opened WrittenSpec
  import opened WrittenCalls
  import opened WrittenLru
  import Bits

  /** A set of L2 after `n` victims, `last` being the last one. */
  ghost predicate Stacked(t: seq<Way>, n: nat, last: Way)
  {
    && |t| == 8
    && (t[0] == if n == 0 then Way(false, 0, 0, EmptyLine()) else Way(false, 0, last.tag / 8, last.line))
    && forall w :: 1 <= w < 8 ==> t[w] == Way(false, if n < 7 then n else 7, 0, EmptyLine())
  }

  lemma {:induction false} StoreStacks(t: seq<Way>, n: nat, last: Way, victim: Way)
    requires Stacked(t, n, last)
    ensures Stacked(StoreInvalid(t, victim), n + 1, victim)
  {
    assert FindPlace(t) == Some(0);
  }

  /** The call writes a word to a full set that does not hold its line. */
  ghost predicate Evicts(st: State, addr: nat)
    requires Shaped(st)
  {
    var s := st.l1[addr / 16 % 64];
    ProbeStop(s, addr / 0x400).None? && forall w :: 0 <= w < 4 ==> s[w].v
  }

  /** What a write does to L2: the set of the line asked for gets L1's victim, the last way
      of greatest age; nothing else changes. */
  lemma {:induction false} WriteStacks(st: State, addr: Uint32, word: Word, junk: Way, n: nat, last: Way)
    requires Shaped(st) && NothingValid(st.l2) && addr + LINE_BYTES <= |st.mem|
    requires Stacked(st.l2[addr / 16 % 512], n, last)
    ensures var r, j := WriteW(st, addr, word, junk), addr / 16 % 512;
      && r.Went?
      && (forall k :: 0 <= k < 512 && k != j ==> r.st.l2[k] == st.l2[k])
      && if Evicts(st, addr) then
           Stacked(r.st.l2[j], n + 1, st.l1[addr / 16 % 64][Oldest(st.l1[addr / 16 % 64], 4)])
         else r.st.l2[j] == st.l2[j]
  {
    hide AgeUpdate, AgeIncrease, Rewrite, PutWord, Splice, EntryFor, StoreInvalid, NothingValid;
    NeverInL2(st, addr);
    var s := st.l1[addr / 16 % 64];
    if ProbeStop(s, addr / 0x400).None? && FindPlace(s).None? {
      StoreStacks(st.l2[addr / 16 % 512], n, last, s[Oldest(s, 4)]);
    }
  }

  ghost predicate OneVictim(t: seq<Way>)
  {
    exists n, last :: Stacked(t, n, last)
  }

  /** Every set is of that form. */
  ghost predicate AllStacked(l2: Level)
  {
    LevelShaped(l2, 512, 8) && forall j :: 0 <= j < 512 ==> OneVictim(l2[j])
  }

  lemma {:induction false} WriteKeepsStacked(st: State, addr: Uint32, word: Word, junk: Way)
    requires Shaped(st) && NothingValid(st.l2) && addr + LINE_BYTES <= |st.mem| && AllStacked(st.l2)
    ensures WriteW(st, addr, word, junk).Went? && AllStacked(WriteW(st, addr, word, junk).st.l2)
  {
    hide WriteW, Stacked, NothingValid;
    assert OneVictim(st.l2[addr / 16 % 512]);
    var j := addr / 16 % 512;
    var n, last :| Stacked(st.l2[j], n, last);
    WriteStacks(st, addr, word, junk, n, last);
    var l2 := WriteW(st, addr, word, junk).st.l2;
    assert OneVictim(l2[j]);
    assert forall k :: 0 <= k < 512 && k != j ==> OneVictim(st.l2[k]);
  }

  lemma {:induction false} CallKeepsStacked(st: State, op: Op, junk: Junk)
    requires Shaped(st) && NothingValid(st.l2) && Fits(op, |st.mem|) && AllStacked(st.l2)
    ensures CallW(st, op, junk).Went? && AllStacked(CallW(st, op, junk).st.l2)
  {
    hide ReadW, WriteW, Bits.ByteOr, NothingValid, Stacked;
    if op.PutWordAt? {
      WriteKeepsStacked(st, op.addr, op.word, junk.first);
    } else {
      ReadKeepsL2(st, op.addr, junk.first);
      if op.PutByteAt? {
        var read := ReadW(st, op.addr, junk.first);
        WriteKeepsStacked(read.st, op.addr, ByteMerged(read.value, op.addr, op.byte), junk.second);
      }
    }
  }

  /** In every reachable state each set of L2 remembers at most one victim, the last, in its
      first way; no other way is ever written, and their ages count the victims up to 7. */
  lemma {:induction false} L2RemembersTheLastVictim(mem: seq<Byte>, ops: seq<Op>, heap: Heap)
    requires CallsFit(ops, |mem|)
    ensures RunW(Flushed(mem), ops, heap).Went? && AllStacked(RunW(Flushed(mem), ops, heap).st.l2)
  {
    hide CallW, Flushed, NothingValid, AllStacked;
    L2IsNeverPopulated(mem, ops, heap);
    if ops == [] {
      FlushedStacked(mem);
    } else {
      var before := ops[..|ops| - 1];
      L2RemembersTheLastVictim(mem, before, heap);
      L2IsNeverPopulated(mem, before, heap);
      CallKeepsStacked(RunW(Flushed(mem), before, heap).st, ops[|ops| - 1], heap(|before|));
    }
  }

  lemma {:induction false} FlushedStacked(mem: seq<Byte>)
    ensures AllStacked(Flushed(mem).l2)
  {
    var l2 := Flushed(mem).l2;
    forall j | 0 <= j < 512
      ensures OneVictim(l2[j])
    {
      assert Stacked(l2[j], 0, Way(false, 0, 0, EmptyLine()));
    }
  }
}
