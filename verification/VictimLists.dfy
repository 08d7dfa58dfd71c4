/** The lines of a set of L2 in the order of their ages, and why that is the order in which
    they came from L1, however many holes promotions have left between them. */
module VictimLists {
  import opened Bytes
  import opened AgeSets
  import opened SetLookup
  import opened VictimSets
  import Recency

  /** The tags of the valid ones among the ways listed. */
  ghost function TagsOf(s: seq<Way>, ways: seq<nat>): seq<nat>
  {
    if ways == [] then []
    else (if ways[0] < |s| && s[ways[0]].v then [s[ways[0]].tag] else []) + TagsOf(s, ways[1..])
  }

  /** `l` lists the tags of the valid ways, youngest first. */
  ghost predicate Orders(s: seq<Way>, l: seq<nat>)
  {
    exists ways :: Ranked(s, ways) && TagsOf(s, ways) == l
  }

  lemma {:induction false} TagsOfConcat(s: seq<Way>, x: seq<nat>, y: seq<nat>)
    ensures TagsOf(s, x + y) == TagsOf(s, x) + TagsOf(s, y)
  {
    if x == [] {
      assert x + y == y;
    } else {
      assert (x + y)[1..] == x[1..] + y;
      TagsOfConcat(s, x[1..], y);
    }
  }

  /** Only the valid bits and tags of the ways listed matter. */
  lemma {:induction false} TagsOfSame(s: seq<Way>, s': seq<Way>, ways: seq<nat>)
    requires |s'| == |s|
    requires forall a :: 0 <= a < |ways| && ways[a] < |s| ==>
      s'[ways[a]].v == s[ways[a]].v && s'[ways[a]].tag == s[ways[a]].tag
    ensures TagsOf(s', ways) == TagsOf(s, ways)
  {
    if ways != [] {
      TagsOfSame(s, s', ways[1..]);
    }
  }

  lemma {:induction false} TagsOfHas(s: seq<Way>, ways: seq<nat>, t: nat)
    ensures t in TagsOf(s, ways) <==>
            exists a :: 0 <= a < |ways| && ways[a] < |s| && s[ways[a]].v && s[ways[a]].tag == t
  {
    if ways != [] {
      TagsOfHas(s, ways[1..], t);
      if t in TagsOf(s, ways[1..]) {
        var a :| 0 <= a < |ways| - 1 && ways[1..][a] < |s| && s[ways[1..][a]].v && s[ways[1..][a]].tag == t;
        assert ways[a + 1] == ways[1..][a];
      }
      if a :| 1 <= a < |ways| && ways[a] < |s| && s[ways[a]].v && s[ways[a]].tag == t {
        assert ways[1..][a - 1] == ways[a];
      }
    }
  }

  lemma {:induction false} TagsOfLength(s: seq<Way>, ways: seq<nat>)
    requires forall a :: 0 <= a < |ways| ==> ways[a] < |s|
    ensures |TagsOf(s, ways)| <= |ways|
    ensures |TagsOf(s, ways)| == |ways| <==> forall a :: 0 <= a < |ways| ==> s[ways[a]].v
  {
    if ways != [] {
      TagsOfLength(s, ways[1..]);
      assert forall a :: 1 <= a < |ways| ==> ways[a] == ways[1..][a - 1];
    }
  }

  lemma {:induction false} TagsOfOrder(s: seq<Way>, ways: seq<nat>, a: nat, b: nat) returns (p: nat, q: nat)
    requires a < b < |TagsOf(s, ways)|
    ensures p < q < |ways| && ways[p] < |s| && ways[q] < |s| && s[ways[p]].v && s[ways[q]].v
    ensures s[ways[p]].tag == TagsOf(s, ways)[a] && s[ways[q]].tag == TagsOf(s, ways)[b]
  {
    var rest := TagsOf(s, ways[1..]);
    if ways[0] < |s| && s[ways[0]].v {
      if a == 0 {
        TagsOfHas(s, ways[1..], rest[b - 1]);
        var k :| 0 <= k < |ways| - 1 && ways[1..][k] < |s| && s[ways[1..][k]].v && s[ways[1..][k]].tag == rest[b - 1];
        p, q := 0, k + 1;
        return;
      }
      p, q := TagsOfOrder(s, ways[1..], a - 1, b - 1);
    } else {
      p, q := TagsOfOrder(s, ways[1..], a, b);
    }
    p, q := p + 1, q + 1;
  }

  lemma {:induction false} OrderedAges(s: seq<Way>, ways: seq<nat>, w: nat, x: nat, a: nat, b: nat)
    requires Ranked(s, ways) && Distinct(s) && a < b < |TagsOf(s, ways)|
    requires w < |s| && s[w].v && s[w].tag == TagsOf(s, ways)[a]
    requires x < |s| && s[x].v && s[x].tag == TagsOf(s, ways)[b]
    ensures s[w].age < s[x].age
  {
    hide TagsOf;
    var p, q := TagsOfOrder(s, ways, a, b);
    assert ways[p] == w && ways[q] == x;
  }

  /** What `Orders` says: the list has exactly the tags of the valid ways, and of two of
      them the first in the list has the smaller age. */
  lemma {:induction false} OrdersMeaning(s: seq<Way>, l: seq<nat>)
    requires Orders(s, l) && Distinct(s)
    ensures |l| <= |s|
    ensures forall t :: t in l <==> ProbeSkip(s, t).Some?
    ensures forall w, x, a, b ::
      0 <= w < |s| && 0 <= x < |s| && s[w].v && s[x].v && 0 <= a < b < |l| && s[w].tag == l[a] && s[x].tag == l[b] ==>
      s[w].age < s[x].age
  {
    hide TagsOf;
    var ways :| Ranked(s, ways) && TagsOf(s, ways) == l;
    TagsOfLength(s, ways);
    forall t
      ensures t in l <==> ProbeSkip(s, t).Some?
    {
      TagsOfHas(s, ways, t);
      if ProbeSkip(s, t).Some? {
        var w := ProbeSkip(s, t).value;
        assert ways[s[w].age] == w;
      }
    }
    forall w, x, a, b | 0 <= w < |s| && 0 <= x < |s| && s[w].v && s[x].v && 0 <= a < b < |l| &&
      s[w].tag == l[a] && s[x].tag == l[b]
      ensures s[w].age < s[x].age
    {
      OrderedAges(s, ways, w, x, a, b);
    }
  }

  lemma {:induction false} FlushedOrders(n: nat)
    ensures Orders(FlushedSet(n), [])
  {
    assert Ranked(FlushedSet(n), []) && TagsOf(FlushedSet(n), []) == [];
  }

  /** The list before and after one way is moved to the front. */
  lemma {:induction false} TagsToFront(s: seq<Way>, ways: seq<nat>, a: nat)
    requires a < |ways|
    ensures TagsOf(s, ways) == TagsOf(s, ways[..a]) + TagsOf(s, [ways[a]]) + TagsOf(s, ways[a + 1..])
    ensures TagsOf(s, ToFront(ways, a)) == TagsOf(s, [ways[a]]) + TagsOf(s, ways[..a]) + TagsOf(s, ways[a + 1..])
  {
    var x, w, y := ways[..a], [ways[a]], ways[a + 1..];
    TagsOfConcat(s, x, w);
    TagsOfConcat(s, x + w, y);
    TagsOfConcat(s, w, x);
    TagsOfConcat(s, w + x, y);
    assert ways == x + w + y;
  }

  lemma {:induction false} OneTag(s: seq<Way>, w: nat)
    requires w < |s|
    ensures TagsOf(s, [w]) == if s[w].v then [s[w].tag] else []
  {
  }

  /** Changing way `w = ways[a]` alone does not change the list of the others. */
  lemma {:induction false} OthersSame(s: seq<Way>, s': seq<Way>, ways: seq<nat>, w: nat)
    requires Ranked(s, ways) && w < |ways| && |s'| == |s|
    requires forall x :: 0 <= x < |s| && x != w ==> s'[x].v == s[x].v && s'[x].tag == s[x].tag
    ensures TagsOf(s', ways[..s[w].age]) == TagsOf(s, ways[..s[w].age])
    ensures TagsOf(s', ways[s[w].age + 1..]) == TagsOf(s, ways[s[w].age + 1..])
  {
    TagsOfSame(s, s', ways[..s[w].age]);
    TagsOfSame(s, s', ways[s[w].age + 1..]);
  }

  /** A promotion takes its line out of the list. */
  lemma {:induction false} PromoteOrders(s: seq<Way>, l: seq<nat>, w: nat)
    requires Orders(s, l) && Distinct(s) && w < |s| && s[w].v
    ensures Orders(Promote(s, w), Recency.Without(l, s[w].tag))
  {
    hide Promote, ToFront, TagsOf;
    var ways :| Ranked(s, ways) && TagsOf(s, ways) == l;
    PromoteRanked(s, ways, w);
    PromoteTags(s, ways, w);
  }

  lemma {:induction false} PromoteTags(s: seq<Way>, ways: seq<nat>, w: nat)
    requires Ranked(s, ways) && Distinct(s) && w < |ways| && w < |s| && s[w].v
    ensures TagsOf(Promote(s, w), ToFront(ways, s[w].age)) == Recency.Without(TagsOf(s, ways), s[w].tag)
  {
    hide Promote, ToFront, TagsOf, Ranked, Distinct, Recency.Without;
    var s', a, t := Promote(s, w), s[w].age, s[w].tag;
    RankedAt(s, ways, w);
    PromoteKeepsOthers(s, w);
    TagsToFront(s, ways, a);
    TagsToFront(s', ways, a);
    OthersSame(s, s', ways, w);
    OneTag(s, w);
    OneTag(s', w);
    NotElsewhere(s, ways, w);
    TakenOut(TagsOf(s, ways[..a]), t, TagsOf(s, ways[a + 1..]));
    var x := TagsOf(s, ways[..a]);
    assert [] + x == x;
  }

  lemma {:induction false} RankedAt(s: seq<Way>, ways: seq<nat>, w: nat)
    requires Ranked(s, ways) && w < |ways|
    ensures w < |s| && s[w].age < |ways| && ways[s[w].age] == w
  {
  }

  lemma {:induction false} PromoteKeepsOthers(s: seq<Way>, w: nat)
    requires w < |s|
    ensures !Promote(s, w)[w].v
    ensures forall x :: 0 <= x < |s| && x != w ==> Promote(s, w)[x].v == s[x].v && Promote(s, w)[x].tag == s[x].tag
  {
    AgingKeepsLines(s, w);
  }

  lemma {:induction false} TakenOut(x: seq<nat>, t: nat, y: seq<nat>)
    requires t !in x && t !in y
    ensures Recency.Without(x + [t] + y, t) == x + y
  {
    Recency.WithoutConcat(x + [t], y, t);
    Recency.WithoutConcat(x, [t], t);
    Recency.WithoutAbsent(x, t);
    Recency.WithoutAbsent(y, t);
    assert Recency.Without([t], t) == [];
  }

  lemma {:induction false} PromoteRanked(s: seq<Way>, ways: seq<nat>, w: nat)
    requires Ranked(s, ways) && w < |s| && s[w].v
    ensures w < |ways| && s[w].age < |ways| && ways[s[w].age] == w
    ensures Ranked(Promote(s, w), ToFront(ways, s[w].age))
  {
    hide AgeUpdate, ToFront;
    UpdateRanked(s, ways, w);
  }

  lemma {:induction false} NotElsewhere(s: seq<Way>, ways: seq<nat>, w: nat)
    requires Ranked(s, ways) && Distinct(s) && w < |ways| && s[w].v
    ensures s[w].tag !in TagsOf(s, ways[..s[w].age]) && s[w].tag !in TagsOf(s, ways[s[w].age + 1..])
  {
    hide TagsOf;
    var a := s[w].age;
    TagsOfHas(s, ways[..a], s[w].tag);
    TagsOfHas(s, ways[a + 1..], s[w].tag);
    assert forall b :: 0 <= b < |ways| && b != a ==> ways[b] != w;
  }

  /** A victim goes to the front of the list; a list as long as the set loses its last. */
  lemma {:induction false} PlaceOrders(s: seq<Way>, l: seq<nat>, tag: nat, line: Line)
    requires Orders(s, l) && |s| > 0
    ensures Orders(Place(s, tag, line).0, Recency.Take([tag] + l, |s|))
  {
    hide AgeUpdate, AgeIncrease, ToFront, TagsOf, Refill;
    var ways :| Ranked(s, ways) && TagsOf(s, ways) == l;
    var w := if FindPlace(s).Some? then FindPlace(s).value else Oldest(s, |s|);
    var e := Way(true, s[w].age, tag, line);
    PlaceLength(s, ways);
    if FindPlace(s).Some? {
      RefillKeepsLines(s[w := e], w);
      if w < |ways| {
        ReplaceRanked(s, ways, w, e);
        RefillHole(s[w := e], ways, w);
        PlaceUsed(s, ways, w, e);
      } else {
        PlaceUnused(s, ways, e);
      }
    } else {
      PlaceUsed(s, ways, w, e);
    }
  }

  /** A set has an invalid way exactly if its list is shorter than the set. */
  lemma {:induction false} PlaceLength(s: seq<Way>, ways: seq<nat>)
    requires Ranked(s, ways) && |s| > 0
    ensures |TagsOf(s, ways)| <= |s|
    ensures |TagsOf(s, ways)| == |s| <==> FindPlace(s).None?
    ensures FindPlace(s).None? ==> |ways| == |s| && Oldest(s, |s|) == ways[|s| - 1]
    ensures FindPlace(s).Some? ==> FindPlace(s).value <= |ways|
  {
    hide TagsOf;
    TagsOfLength(s, ways);
    if |ways| < |s| {
      assert !s[|ways|].v;
    } else {
      OldestRanked(s, ways);
      assert forall w :: 0 <= w < |s| ==> ways[s[w].age] == w;
    }
  }

  /** A way used before is given a new line: a hole, or the oldest way of a full set. */
  lemma {:induction false} PlaceUsed(s: seq<Way>, ways: seq<nat>, w: nat, e: Way)
    requires Ranked(s, ways) && w < |ways| && e.v && e.age == s[w].age
    requires s[w].v ==> w == ways[|ways| - 1] && |TagsOf(s, ways)| == |s|
    requires !s[w].v ==> |TagsOf(s, ways)| < |s|
    ensures Orders(AgeUpdate(s[w := e], w), Recency.Take([e.tag] + TagsOf(s, ways), |s|))
  {
    hide AgeUpdate, ToFront, TagsOf;
    var a, s1 := s[w].age, s[w := e];
    var s' := AgeUpdate(s1, w);
    ReplaceRanked(s, ways, w, e);
    UpdateRanked(s1, ways, w);
    AgingKeepsLines(s1, w);
    TagsToFront(s, ways, a);
    TagsToFront(s', ways, a);
    OthersSame(s, s', ways, w);
    OneTag(s, w);
    OneTag(s', w);
    if s[w].v {
      OneTag(s, w);
      assert ways[a + 1..] == [];
      TagsOfLength(s, []);
    }
    assert TagsOf(s', ToFront(ways, a)) == Recency.Take([e.tag] + TagsOf(s, ways), |s|);
  }

  lemma {:induction false} PlaceUnused(s: seq<Way>, ways: seq<nat>, e: Way)
    requires Ranked(s, ways) && |ways| < |s| && e.v && e.age == s[|ways|].age
    requires |TagsOf(s, ways)| < |s|
    ensures Orders(Refill(s[|ways| := e], |ways|), Recency.Take([e.tag] + TagsOf(s, ways), |s|))
  {
    hide AgeUpdate, AgeIncrease, TagsOf;
    var k, s1 := |ways|, s[|ways| := e];
    var s' := Refill(s1, k);
    IncreaseRanked(s, ways, e);
    UnusedIsOldest(s, ways, e);
    AgingKeepsLines(s1, k);
    TagsOfConcat(s', [k], ways);
    OneTag(s', k);
    TagsOfSame(s, s', ways);
    assert TagsOf(s', [k] + ways) == Recency.Take([e.tag] + TagsOf(s, ways), |s|);
  }

  /** A way never used has the greatest age, so `Refill` grows all ages. */
  lemma {:induction false} UnusedIsOldest(s: seq<Way>, ways: seq<nat>, e: Way)
    requires Ranked(s, ways) && |ways| < |s| && e.age == s[|ways|].age
    ensures Refill(s[|ways| := e], |ways|) == AgeIncrease(s[|ways| := e], |ways|)
  {
    hide AgeUpdate, AgeIncrease;
  }
}
