/** One set of the L2 cache.  A promotion to L1 leaves a hole: an invalid way that
    has been used and keeps an age among the others. */
module VictimSets {
  import opened Bytes
  import opened Outcomes
  import opened AgeSets
  import opened SetLookup

  /** Aging after a line is put in an invalid way: a way never used has the greatest
      age and all others grow; a hole is treated like a line of its age. */
  function Refill(s: seq<Way>, w: nat): (r: seq<Way>)
    requires w < |s|
    ensures |r| == |s|
  {
    if s[w].age >= s[Oldest(s, |s|)].age then AgeIncrease(s, w) else AgeUpdate(s, w)
  }

  /** A line evicted from L1 takes the first invalid way, or replaces the oldest line. */
  function Place(s: seq<Way>, tag: nat, line: Line): (r: (seq<Way>, Option<Way>))
    requires |s| > 0
    ensures |r.0| == |s|
  {
    match FindPlace(s)
    case Some(w) => (Refill(s[w := Way(true, s[w].age, tag, line)], w), None)
    case None =>
      var w := Oldest(s, |s|);
      (AgeUpdate(s[w := Way(true, s[w].age, tag, line)], w), Some(s[w]))
  }

  /** A line leaves for L1: cache_hit ages the set, and the way becomes a hole. */
  function Promote(s: seq<Way>, w: nat): (r: seq<Way>)
    requires w < |s|
    ensures |r| == |s|
  {
    var s' := AgeUpdate(s, w);
    s'[w := s'[w].(v := false)]
  }

  /** The invariant of an L2 set. */
  ghost predicate Kept(s: seq<Way>)
  {
    Distinct(s) && exists ways :: Ranked(s, ways)
  }

  /** All ages stay below the number of ways and those of valid ways are all different. */
  lemma {:induction false} KeptMeaning(s: seq<Way>)
    requires Kept(s)
    ensures forall w :: 0 <= w < |s| ==> s[w].age < |s|
    ensures forall w, x :: 0 <= w < x < |s| && s[w].v && s[x].v ==> s[w].age != s[x].age && s[w].tag != s[x].tag
  {
    var ways :| Ranked(s, ways);
    forall w, x | 0 <= w < x < |s| && s[w].v && s[x].v
      ensures s[w].age != s[x].age
    {
      assert ways[s[w].age] == w && ways[s[x].age] == x;
    }
  }

  lemma {:induction false} FlushedKept(n: nat)
    ensures Kept(FlushedSet(n))
  {
    assert Ranked(FlushedSet(n), []);
  }

  lemma {:induction false} UpdateKept(s: seq<Way>, w: nat)
    requires Kept(s) && w < |s| && s[w].v
    ensures Kept(AgeUpdate(s, w))
  {
    var ways :| Ranked(s, ways);
    UpdateRanked(s, ways, w);
    AgingKeepsLines(s, w);
    AgesDoNotMatter(s, AgeUpdate(s, w));
  }

  lemma {:induction false} PromoteKept(s: seq<Way>, w: nat, t: nat)
    requires Kept(s) && w < |s| && s[w].v
    ensures Kept(Promote(s, w))
    ensures Find(Promote(s, w), t) == if t == s[w].tag then None else Find(s, t)
  {
    var s' := AgeUpdate(s, w);
    UpdateKept(s, w);
    AgingKeepsLines(s, w);
    AgesDoNotMatter(s, s');
    DropFinds(s', w, t);
    var ways :| Ranked(s', ways);
    assert Ranked(Promote(s, w), ways);
  }

  /** In a set where every way has been used, growing the ages below the greatest
      one is growing all ages that can grow. */
  lemma {:induction false} IncreaseIsUpdate(s: seq<Way>, w: nat)
    requires w < |s| && s[w].age == |s| - 1
    ensures AgeIncrease(s, w) == AgeUpdate(s, w)
  {
  }

  /** A hole is refilled as LRU_age_update would. */
  lemma {:induction false} RefillHole(s: seq<Way>, ways: seq<nat>, w: nat)
    requires Ranked(s, ways) && w < |ways|
    ensures Refill(s, w) == AgeUpdate(s, w)
  {
    OldestUsed(s, ways, w);
    if s[w].age >= s[Oldest(s, |s|)].age {
      IncreaseIsUpdate(s, w);
    }
  }

  lemma {:induction false} RefillRanked(s: seq<Way>, ways: seq<nat>, e: Way) returns (ways': seq<nat>)
    requires Ranked(s, ways) && FindPlace(s).Some? && e.age == s[FindPlace(s).value].age
    ensures Ranked(Refill(s[FindPlace(s).value := e], FindPlace(s).value), ways')
  {
    hide AgeUpdate, AgeIncrease;
    var w := FindPlace(s).value;
    assert |ways| < |s| ==> !s[|ways|].v;
    if w < |ways| {
      ReplaceRanked(s, ways, w, e);
      RefillHole(s[w := e], ways, w);
      UpdateRanked(s[w := e], ways, w);
      ways' := ToFront(ways, e.age);
    } else {
      IncreaseRanked(s, ways, e);
      ways' := [|ways|] + ways;
    }
  }

  /** A way that has been used and has the greatest age of all shows that every way
      has been used. */
  lemma {:induction false} OldestUsed(s: seq<Way>, ways: seq<nat>, w: nat)
    requires Ranked(s, ways) && w < |ways|
    ensures s[w].age >= s[Oldest(s, |s|)].age ==> |ways| == |s| && s[w].age == |s| - 1
  {
    assert |ways| < |s| ==> s[|ways|].age <= s[Oldest(s, |s|)].age;
    assert s[ways[|ways| - 1]].age == |ways| - 1;
  }

  lemma {:induction false} RefillKeepsLines(s: seq<Way>, w: nat)
    requires w < |s|
    ensures SameButAges(s, Refill(s, w))
  {
    AgingKeepsLines(s, w);
  }

  /** What a victim does to an L2 set: it is found afterwards, at most one line is lost,
      the only one of greatest age in a full set, and every other line stays. */
  lemma {:induction false} PlaceFinds(s: seq<Way>, tag: nat, line: Line, t: nat)
    requires Kept(s) && |s| > 0 && Find(s, tag).None?
    ensures var (s', dropped) := Place(s, tag, line);
      && Kept(s')
      && Find(s', t) == (if t == tag then Some(line)
                         else if dropped.Some? && t == dropped.value.tag then None
                         else Find(s, t))
      && (dropped.Some? <==> FindPlace(s).None?)
      && (dropped.Some? ==>
            && Find(s, dropped.value.tag) == Some(dropped.value.line)
            && forall x :: 0 <= x < |s| && s[x].tag != dropped.value.tag ==> s[x].age < dropped.value.age)
  {
    var w := if FindPlace(s).Some? then FindPlace(s).value else Oldest(s, |s|);
    var e := Way(true, s[w].age, tag, line);
    var s1, s' := s[w := e], Place(s, tag, line).0;
    PutFinds(s, w, e, t);
    RefillKeepsLines(s1, w);
    AgingKeepsLines(s1, w);
    AgesDoNotMatter(s1, s');
    var ways :| Ranked(s, ways);
    if FindPlace(s).Some? {
      var ways' := RefillRanked(s, ways, e);
    } else {
      FindValid(s, w);
      OldestIsAlone(s);
      PlaceFull(s, ways, w, e);
    }
  }

  lemma {:induction false} OldestIsAlone(s: seq<Way>)
    requires Kept(s) && |s| > 0 && FindPlace(s).None?
    ensures forall x :: 0 <= x < |s| && x != Oldest(s, |s|) ==> s[x].age < s[Oldest(s, |s|)].age
  {
    hide Kept;
    KeptMeaning(s);
  }

  lemma {:induction false} PlaceFull(s: seq<Way>, ways: seq<nat>, w: nat, e: Way)
    requires Ranked(s, ways) && w < |s| && s[w].v && e.age == s[w].age
    ensures Ranked(AgeUpdate(s[w := e], w), ToFront(ways, e.age))
  {
    ReplaceRanked(s, ways, w, e);
    UpdateRanked(s[w := e], ways, w);
  }
}
