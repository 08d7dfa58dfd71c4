/** One set of a set-associative cache (cache.h, lru.h): ways with ages, and why
    the ages implement least-recently-used replacement. */
module AgeSets {
  import opened Bytes
  import opened Outcomes
  import Recency

  /** The fields of an l1_icache_entry_t, l1_dcache_entry_t or l2_cache_entry_t. */
  datatype Way = Way(v: bool, age: nat, tag: nat, line: Line)

  function EmptyLine(): Line
  {
    seq(16, _ => 0)
  }

  /** A set after cache_flush. */
  function FlushedSet(ways: nat): seq<Way>
  {
    seq(ways, _ => Way(false, 0, 0, EmptyLine()))
  }

  /** LRU_age_increase: all other ages grow, up to the last. */
  function AgeIncrease(s: seq<Way>, w: nat): (r: seq<Way>)
    requires w < |s|
    ensures |r| == |s|
  {
    seq(|s|, i requires 0 <= i < |s| =>
      if i == w then s[i].(age := 0)
      else if s[i].age < |s| - 1 then s[i].(age := s[i].age + 1)
      else s[i])
  }

  /** LRU_age_update: the ages below that of `w` grow, and `w` becomes the youngest. */
  function AgeUpdate(s: seq<Way>, w: nat): (r: seq<Way>)
    requires w < |s|
    ensures |r| == |s|
  {
    seq(|s|, i requires 0 <= i < |s| =>
      if i == w then s[i].(age := 0)
      else if s[i].age < s[w].age then s[i].(age := s[i].age + 1)
      else s[i])
  }

  lemma {:induction false} UpdateKeepsLine(s: seq<Way>, w: nat)
    requires w < |s|
    ensures AgeUpdate(s, w)[w] == s[w].(age := 0)
  {
  }

  /** find_place: the first invalid way from `i` on. */
  function FindPlace(s: seq<Way>, i: nat := 0): (r: Option<nat>)
    requires i <= |s|
    ensures r.Some? ==> i <= r.value < |s| && !s[r.value].v
    ensures forall k :: i <= k < (if r.Some? then r.value else |s|) ==> s[k].v
    decreases |s| - i
  {
    if i == |s| then None else if !s[i].v then Some(i) else FindPlace(s, i + 1)
  }

  /** apply_lru on the first `n` ways: the last one among those of greatest age. */
  function Oldest(s: seq<Way>, n: nat): (w: nat)
    requires 0 < n <= |s|
    ensures w < n
    ensures forall k :: 0 <= k < n ==> s[k].age <= s[w].age
    ensures forall k :: w < k < n ==> s[k].age < s[w].age
  {
    if n == 1 then 0
    else
      var w := Oldest(s, n - 1);
      if s[n - 1].age >= s[w].age then n - 1 else w
  }

  /** The scan of cache_hit, which gives up at the first invalid way. */
  function ProbeStop(s: seq<Way>, tag: nat, i: nat := 0): (r: Option<nat>)
    requires i <= |s|
    ensures r.Some? ==> i <= r.value < |s| && s[r.value].v && s[r.value].tag == tag
    decreases |s| - i
  {
    if i == |s| || !s[i].v then None
    else if s[i].tag == tag then Some(i)
    else ProbeStop(s, tag, i + 1)
  }

  /** The same scan, passing over invalid ways. */
  function ProbeSkip(s: seq<Way>, tag: nat, i: nat := 0): (r: Option<nat>)
    requires i <= |s|
    ensures r.Some? ==> i <= r.value < |s| && s[r.value].v && s[r.value].tag == tag
    ensures forall k :: i <= k < (if r.Some? then r.value else |s|) ==> !(s[k].v && s[k].tag == tag)
    decreases |s| - i
  {
    if i == |s| then None
    else if s[i].v && s[i].tag == tag then Some(i)
    else ProbeSkip(s, tag, i + 1)
  }

  /** A new line takes the first invalid way and ages the others, or replaces the
      oldest line, whose age it inherits for LRU_age_update. */
  function Install(s: seq<Way>, tag: nat, line: Line): (r: (seq<Way>, Option<Way>))
    requires |s| > 0
    ensures |r.0| == |s|
  {
    match FindPlace(s)
    case Some(w) => (AgeIncrease(s[w := Way(true, 0, tag, line)], w), None)
    case None =>
      var w := Oldest(s, |s|);
      (AgeUpdate(s[w := Way(true, s[w].age, tag, line)], w), Some(s[w]))
  }

  /** `x` with the element at position `a` moved to the front. */
  function ToFront<T>(x: seq<T>, a: nat): (r: seq<T>)
    requires a < |x|
    ensures |r| == |x|
    ensures r[0] == x[a]
    ensures forall i :: 0 <= i < a ==> r[i + 1] == x[i]
    ensures forall i :: a < i < |x| ==> r[i] == x[i]
  {
    [x[a]] + x[..a] + x[a + 1..]
  }

  /** The age invariant.  The ways used so far are the first ones, `ways` lists them
      from youngest to oldest, and the age of each is its position in that list;
      the ways never used are invalid and share the next age. */
  ghost predicate Ranked(s: seq<Way>, ways: seq<nat>)
  {
    && |ways| <= |s|
    && (forall a :: 0 <= a < |ways| ==> ways[a] < |ways| && s[ways[a]].age == a)
    && (forall w :: 0 <= w < |ways| ==> s[w].age < |ways| && ways[s[w].age] == w)
    && (forall w :: |ways| <= w < |s| ==> s[w].age == |ways| && !s[w].v)
  }

  lemma {:induction false} UpdateRanked(s: seq<Way>, ways: seq<nat>, w: nat)
    requires Ranked(s, ways) && w < |ways|
    ensures Ranked(AgeUpdate(s, w), ToFront(ways, s[w].age))
  {
    var s', a := AgeUpdate(s, w), s[w].age;
    var ways' := ToFront(ways, a);
    forall b | 0 <= b < |ways|
      ensures ways'[b] < |ways| && s'[ways'[b]].age == b
    {
      if 0 < b <= a {
        assert ways'[b - 1 + 1] == ways[b - 1];
      }
    }
    UpdatePlaces(s, ways, w);
  }

  lemma {:induction false} UpdatePlaces(s: seq<Way>, ways: seq<nat>, w: nat)
    requires Ranked(s, ways) && w < |ways|
    ensures forall x :: 0 <= x < |ways| ==>
      AgeUpdate(s, w)[x].age < |ways| && ToFront(ways, s[w].age)[AgeUpdate(s, w)[x].age] == x
  {
    var s', a := AgeUpdate(s, w), s[w].age;
    var ways' := ToFront(ways, a);
    forall x | 0 <= x < |ways|
      ensures s'[x].age < |ways| && ways'[s'[x].age] == x
    {
      if s[x].age < a {
        assert ways'[s[x].age + 1] == ways[s[x].age];
      }
    }
  }

  lemma {:induction false} IncreaseRanked(s: seq<Way>, ways: seq<nat>, e: Way)
    requires Ranked(s, ways) && |ways| < |s|
    ensures Ranked(AgeIncrease(s[|ways| := e], |ways|), [|ways|] + ways)
  {
    var k := |ways|;
    var s', ways' := AgeIncrease(s[k := e], k), [k] + ways;
    forall a | 0 <= a < k + 1
      ensures ways'[a] < k + 1 && s'[ways'[a]].age == a
    {
      if a > 0 {
        assert ways'[a] == ways[a - 1];
      }
    }
  }

  lemma {:induction false} ReplaceRanked(s: seq<Way>, ways: seq<nat>, w: nat, e: Way)
    requires Ranked(s, ways) && w < |ways| && e.age == s[w].age
    ensures Ranked(s[w := e], ways)
  {
  }

  lemma {:induction false} OldestRanked(s: seq<Way>, ways: seq<nat>)
    requires Ranked(s, ways) && |ways| == |s| > 0
    ensures Oldest(s, |s|) == ways[|s| - 1]
  {
    assert s[ways[|s| - 1]].age == |s| - 1;
  }

  ghost predicate Tagged(s: seq<Way>, r: seq<nat>, ways: seq<nat>)
  {
    && |r| == |ways|
    && (forall a :: 0 <= a < |ways| ==> ways[a] < |s| && s[ways[a]].v && s[ways[a]].tag == r[a])
  }

  /** The set holds exactly the tags `r`, most recently used first. */
  ghost predicate HoldsWith(s: seq<Way>, r: seq<nat>, ways: seq<nat>)
  {
    Ranked(s, ways) && Tagged(s, r, ways) && Recency.NoRepeats(r)
  }

  ghost predicate Holds(s: seq<Way>, r: seq<nat>)
  {
    exists ways :: HoldsWith(s, r, ways)
  }

  /** What `Holds` says way by way: the valid ways form a prefix as long as `r`,
      their ages are different numbers below |r| and give the positions of their
      tags in `r`, and the invalid ways have age |r|. */
  lemma {:induction false} HoldsMeaning(s: seq<Way>, r: seq<nat>)
    requires Holds(s, r)
    ensures |r| <= |s|
    ensures forall w :: 0 <= w < |s| ==> (s[w].v <==> w < |r|)
    ensures forall w :: 0 <= w < |r| ==> s[w].age < |r| && s[w].tag == r[s[w].age]
    ensures forall w :: |r| <= w < |s| ==> s[w].age == |r|
    ensures forall w, x :: 0 <= w < x < |r| ==> s[w].age != s[x].age && s[w].tag != s[x].tag
    ensures forall tag :: tag in r ==> exists w :: 0 <= w < |r| && s[w].tag == tag
  {
    var ways :| HoldsWith(s, r, ways);
    forall w | 0 <= w < |r|
      ensures s[w].v && s[w].tag == r[s[w].age]
    {
      assert ways[s[w].age] == w;
    }
    forall tag | tag in r
      ensures exists w :: 0 <= w < |r| && s[w].tag == tag
    {
      var a :| 0 <= a < |r| && r[a] == tag;
      assert s[ways[a]].tag == tag;
    }
  }

  /** cache_hit may stop at the first invalid way: it reports a hit exactly if the
      tag is held, by any way whatever. */
  lemma {:induction false} ProbeIsHeld(s: seq<Way>, r: seq<nat>, tag: nat)
    requires Holds(s, r)
    ensures ProbeStop(s, tag) == ProbeSkip(s, tag)
    ensures ProbeStop(s, tag).Some? <==> tag in r
    ensures ProbeStop(s, tag).Some? <==> exists w :: 0 <= w < |s| && s[w].v && s[w].tag == tag
  {
    HoldsMeaning(s, r);
    StopIsSkip(s, tag);
  }

  /** Where the scan of cache_hit ends: at the first way that is invalid or has the tag. */
  lemma {:induction false} ScanEnds(s: seq<Way>, tag: nat, i: nat := 0) returns (e: nat)
    requires i <= |s|
    ensures i <= e <= |s| && forall k :: i <= k < e ==> s[k].v && s[k].tag != tag
    ensures e < |s| ==> !s[e].v || s[e].tag == tag
    ensures ProbeStop(s, tag, i) == if e < |s| && s[e].v then Some(e) else None
    decreases |s| - i
  {
    e := i;
    if i < |s| && s[i].v && s[i].tag != tag {
      e := ScanEnds(s, tag, i + 1);
    }
  }

  /** The valid ways come first. */
  ghost predicate Packed(s: seq<Way>)
  {
    forall w, x :: 0 <= w < x < |s| && s[x].v ==> s[w].v
  }

  /** No valid way has the tag. */
  ghost predicate Absent(s: seq<Way>, tag: nat)
  {
    forall w :: 0 <= w < |s| && s[w].v ==> s[w].tag != tag
  }

  lemma {:induction false} StopIsSkip(s: seq<Way>, tag: nat, i: nat := 0)
    requires Packed(s) && i <= |s|
    ensures ProbeStop(s, tag, i) == ProbeSkip(s, tag, i)
    decreases |s| - i
  {
    if i < |s| {
      StopIsSkip(s, tag, i + 1);
      if !s[i].v {
        assert forall x :: i < x < |s| ==> !s[x].v;
      }
    }
  }

  lemma {:induction false} TagsToFront(s: seq<Way>, r: seq<nat>, ways: seq<nat>, w: nat, a: nat)
    requires Tagged(s, r, ways) && w < |s| && a < |r|
    ensures Tagged(AgeUpdate(s, w), ToFront(r, a), ToFront(ways, a))
  {
    var s', r', ways' := AgeUpdate(s, w), ToFront(r, a), ToFront(ways, a);
    forall b | 0 <= b < |r|
      ensures ways'[b] < |s| && s'[ways'[b]].v && s'[ways'[b]].tag == r'[b]
    {
      if 0 < b <= a {
        assert ways'[b - 1 + 1] == ways[b - 1] && r'[b - 1 + 1] == r[b - 1];
      }
    }
  }

  lemma {:induction false} ToFrontIsTouch(r: seq<nat>, a: nat, n: nat)
    requires Recency.NoRepeats(r) && a < |r| <= n
    ensures ToFront(r, a) == Recency.Access(r, r[a], n)
    ensures Recency.NoRepeats(ToFront(r, a))
  {
    Recency.WithoutAt(r, a);
    Recency.TouchNoRepeats(r, r[a]);
    assert ToFront(r, a) == [r[a]] + (r[..a] + r[a + 1..]);
  }

  /** A hit is one access of the LRU buffer. */
  lemma {:induction false} HitStep(s: seq<Way>, r: seq<nat>, w: nat)
    requires Holds(s, r) && w < |s| && s[w].v
    ensures s[w].tag in r
    ensures Holds(AgeUpdate(s, w), Recency.Access(r, s[w].tag, |s|))
  {
    hide Ranked, AgeUpdate, ToFront, Recency.Access;
    HoldsMeaning(s, r);
    var ways :| HoldsWith(s, r, ways);
    UpdateHolds(s, r, ways, w);
    ToFrontIsTouch(r, s[w].age, |s|);
  }

  lemma {:induction false} UpdateHolds(s: seq<Way>, r: seq<nat>, ways: seq<nat>, w: nat)
    requires HoldsWith(s, r, ways) && w < |ways|
    ensures s[w].age < |r|
    ensures HoldsWith(AgeUpdate(s, w), ToFront(r, s[w].age), ToFront(ways, s[w].age))
  {
    hide AgeUpdate, ToFront, Recency.Access;
    UpdateRanked(s, ways, w);
    TagsToFront(s, r, ways, w, s[w].age);
    ToFrontIsTouch(r, s[w].age, |r|);
  }

  lemma {:induction false} TouchNew(r: seq<nat>, tag: nat)
    requires Recency.NoRepeats(r) && tag !in r
    ensures Recency.Touch(r, tag) == [tag] + r && Recency.NoRepeats([tag] + r)
  {
    Recency.WithoutAbsent(r, tag);
    Recency.TouchNoRepeats(r, tag);
  }

  /** A cold fill is one access of the LRU buffer. */
  lemma {:induction false} ColdStep(s: seq<Way>, r: seq<nat>, tag: nat, line: Line)
    requires Holds(s, r) && tag !in r && |r| < |s|
    ensures FindPlace(s) == Some(|r|)
    ensures Holds(Install(s, tag, line).0, Recency.Access(r, tag, |s|))
  {
    hide AgeIncrease, Ranked, Tagged, Recency.Access;
    HoldsMeaning(s, r);
    var ways :| HoldsWith(s, r, ways);
    assert !s[|r|].v;
    ColdHolds(s, r, ways, Way(true, 0, tag, line));
  }

  lemma {:induction false} ColdHolds(s: seq<Way>, r: seq<nat>, ways: seq<nat>, e: Way)
    requires HoldsWith(s, r, ways) && |r| < |s| && e.v && e.tag !in r
    ensures HoldsWith(AgeIncrease(s[|r| := e], |r|), Recency.Access(r, e.tag, |s|), [|r|] + ways)
  {
    hide AgeIncrease, Ranked;
    IncreaseRanked(s, ways, e);
    ColdTagged(s, r, ways, e);
    TouchNew(r, e.tag);
  }

  lemma {:induction false} ColdTagged(s: seq<Way>, r: seq<nat>, ways: seq<nat>, e: Way)
    requires Ranked(s, ways) && Tagged(s, r, ways) && |r| < |s| && e.v
    ensures Tagged(AgeIncrease(s[|r| := e], |r|), [e.tag] + r, [|r|] + ways)
  {
    var ways' := [|r|] + ways;
    assert forall b :: 1 <= b < |ways'| ==> ways'[b] == ways[b - 1] < |r|;
  }

  lemma {:induction false} ReplaceTagged(s: seq<Way>, r: seq<nat>, ways: seq<nat>, e: Way)
    requires HoldsWith(s, r, ways) && |r| > 0 && e.v
    ensures Tagged(s[ways[|r| - 1] := e], r[..|r| - 1] + [e.tag], ways)
  {
    forall b | 0 <= b < |r| - 1
      ensures ways[b] != ways[|r| - 1]
    {
      assert s[ways[b]].age == b;
    }
  }

  /** An eviction is one access of the LRU buffer: the way chosen by apply_lru is the
      only one of greatest age and holds the least recently used tag. */
  lemma {:induction false} EvictStep(s: seq<Way>, r: seq<nat>, tag: nat, line: Line)
    requires Holds(s, r) && tag !in r && |r| == |s| > 0
    ensures FindPlace(s) == None
    ensures var w := Oldest(s, |s|);
      s[w].tag == r[|r| - 1] && forall x :: 0 <= x < |s| && x != w ==> s[x].age < s[w].age
    ensures Holds(Install(s, tag, line).0, Recency.Access(r, tag, |s|))
  {
    HoldsMeaning(s, r);
    var ways :| HoldsWith(s, r, ways);
    OldestRanked(s, ways);
    EvictHolds(s, r, ways, Way(true, s[ways[|r| - 1]].age, tag, line));
  }

  /** The oldest line is replaced at its age: the same order, with one tag changed. */
  lemma {:induction false} ReplaceHolds(s: seq<Way>, r: seq<nat>, ways: seq<nat>, e: Way)
    requires HoldsWith(s, r, ways) && |r| == |s| > 0
    requires e.v && e.tag !in r && e.age == s[ways[|s| - 1]].age
    ensures HoldsWith(s[ways[|s| - 1] := e], r[..|r| - 1] + [e.tag], ways)
  {
    hide Ranked;
    LastWay(s, r, ways);
    ReplaceRanked(s, ways, ways[|s| - 1], e);
    ReplaceTagged(s, r, ways, e);
  }

  lemma {:induction false} LastWay(s: seq<Way>, r: seq<nat>, ways: seq<nat>)
    requires HoldsWith(s, r, ways) && |r| == |s| > 0
    ensures |ways| == |s| && ways[|s| - 1] < |s| && s[ways[|s| - 1]].age == |s| - 1
  {
  }

  lemma {:induction false} EvictedOrder(r: seq<nat>, tag: nat)
    requires Recency.NoRepeats(r) && tag !in r && r != []
    ensures ToFront(r[..|r| - 1] + [tag], |r| - 1) == Recency.Access(r, tag, |r|)
  {
    TouchNew(r, tag);
    LastToFront(r[..|r| - 1] + [tag]);
    assert [tag] + r[..|r| - 1] == ([tag] + r)[..|r|];
  }

  lemma {:induction false} EvictHolds(s: seq<Way>, r: seq<nat>, ways: seq<nat>, e: Way)
    requires HoldsWith(s, r, ways) && |r| == |s| > 0
    requires e.v && e.tag !in r && e.age == s[ways[|s| - 1]].age
    ensures HoldsWith(AgeUpdate(s[ways[|s| - 1] := e], ways[|s| - 1]), Recency.Access(r, e.tag, |s|),
                      ToFront(ways, |s| - 1))
  {
    hide AgeUpdate, ToFront, Ranked, Tagged, Recency.Without, Recency.Access;
    LastWay(s, r, ways);
    var n, w := |s|, ways[|s| - 1];
    ReplaceHolds(s, r, ways, e);
    UpdateHolds(s[w := e], r[..n - 1] + [e.tag], ways, w);
    EvictedOrder(r, e.tag);
  }

  lemma {:induction false} LastToFront(r: seq<nat>)
    requires r != []
    ensures ToFront(r, |r| - 1) == [r[|r| - 1]] + r[..|r| - 1]
  {
  }

  /** Any miss is one access of the LRU buffer, and its victim is what falls out. */
  lemma {:induction false} InstallStep(s: seq<Way>, r: seq<nat>, tag: nat, line: Line)
    requires Holds(s, r) && tag !in r && |s| > 0
    ensures Holds(Install(s, tag, line).0, Recency.Access(r, tag, |s|))
    ensures match Install(s, tag, line).1
      case None => |r| < |s|
      case Some(victim) => |r| == |s| && victim.v && victim.tag == r[|r| - 1]
  {
    HoldsMeaning(s, r);
    if |r| < |s| {
      ColdStep(s, r, tag, line);
    } else {
      EvictStep(s, r, tag, line);
    }
  }

  lemma {:induction false} FlushedHolds(ways: nat)
    ensures Holds(FlushedSet(ways), [])
  {
    assert HoldsWith(FlushedSet(ways), [], []);
  }
}
