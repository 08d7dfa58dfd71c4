/** One level of cache in place, and the macros of cache.h and lru.h that scan, age
    and fill one set of it, as loops over the ways.  `sets[i][w]` is the entry that
    the source reaches through `cache_entry(TYPE, WAYS, i, w)`. */
module CacheLevel {
  import opened Outcomes
  import opened AgeSets

  class Level {
    const ways: nat
    const sets: array<seq<Way>>

    ghost predicate Valid()
      reads sets
    {
      ways > 0 && forall i :: 0 <= i < sets.Length ==> |sets[i]| == ways
    }

    /** A flushed level. */
    constructor (count: nat, ways: nat)
      requires ways > 0
      ensures Valid() && this.ways == ways && fresh(sets)
      ensures sets[..] == seq(count, _ => FlushedSet(ways))
    {
      this.ways := ways;
      sets := new seq<Way>[count](_ => FlushedSet(ways));
    }

    /** cache_flush. */
    method Flush()
      requires Valid()
      modifies sets
      ensures Valid()
      ensures sets[..] == seq(sets.Length, _ => FlushedSet(ways))
    {
      for i := 0 to sets.Length
        invariant Valid()
        invariant forall k :: 0 <= k < i ==> sets[k] == FlushedSet(ways)
      {
        for w := 0 to ways
          invariant Valid()
          invariant forall k :: 0 <= k < i ==> sets[k] == FlushedSet(ways)
          invariant forall x :: 0 <= x < w ==> sets[i][x] == FlushedSet(ways)[x]
        {
          sets[i] := sets[i][w := Way(false, 0, 0, EmptyLine())];
        }
        assert sets[i] == FlushedSet(ways);
      }
    }

    /** LRU_age_increase. */
    method Increase(i: nat, w: nat)
      requires Valid() && i < sets.Length && w < ways
      modifies sets
      ensures Valid()
      ensures sets[..] == old(sets[..])[i := AgeIncrease(old(sets[i]), w)]
    {
      ghost var s := sets[i];
      for x := 0 to ways
        invariant Valid()
        invariant sets[..] == old(sets[..])[i := sets[i]]
        invariant forall y :: x <= y < ways ==> sets[i][y] == s[y]
        invariant forall y :: 0 <= y < x ==>
          sets[i][y] == if s[y].age < ways - 1 then s[y].(age := s[y].age + 1) else s[y]
      {
        if sets[i][x].age < ways - 1 {
          sets[i] := sets[i][x := sets[i][x].(age := sets[i][x].age + 1)];
        }
      }
      sets[i] := sets[i][w := sets[i][w].(age := 0)];
      assert sets[i] == AgeIncrease(s, w);
    }

    /** LRU_age_update. */
    method Update(i: nat, w: nat)
      requires Valid() && i < sets.Length && w < ways
      modifies sets
      ensures Valid()
      ensures sets[..] == old(sets[..])[i := AgeUpdate(old(sets[i]), w)]
    {
      ghost var s := sets[i];
      var max := sets[i][w].age;
      for x := 0 to ways
        invariant Valid()
        invariant sets[..] == old(sets[..])[i := sets[i]]
        invariant forall y :: x <= y < ways ==> sets[i][y] == s[y]
        invariant forall y :: 0 <= y < x ==>
          sets[i][y] == if s[y].age < max then s[y].(age := s[y].age + 1) else s[y]
      {
        if sets[i][x].age < max {
          sets[i] := sets[i][x := sets[i][x].(age := sets[i][x].age + 1)];
        }
      }
      sets[i] := sets[i][w := sets[i][w].(age := 0)];
      assert sets[i] == AgeUpdate(s, w);
    }

    /** cache_insert, within its bounds. */
    method Insert(i: nat, w: nat, entry: Way)
      requires Valid() && i < sets.Length && w < ways
      modifies sets
      ensures Valid()
      ensures sets[..] == old(sets[..])[i := old(sets[i])[w := entry]]
    {
      sets[i] := sets[i][w := entry];
    }

    /** find_place. */
    method Place(i: nat) returns (r: Option<nat>)
      requires Valid() && i < sets.Length
      ensures r == FindPlace(sets[i])
    {
      for w := 0 to ways
        invariant FindPlace(sets[i], w) == FindPlace(sets[i])
      {
        if !sets[i][w].v {
          return Some(w);
        }
      }
      return None;
    }

    /** apply_lru. */
    method OldestWay(i: nat) returns (way: nat)
      requires Valid() && i < sets.Length
      ensures way == Oldest(sets[i], ways)
    {
      var maxAge := 0;
      way := 0;
      for w := 0 to ways
        invariant way < ways
        invariant w == 0 ==> maxAge == 0 && way == 0
        invariant w > 0 ==> way == Oldest(sets[i], w) && maxAge == sets[i][way].age
      {
        if sets[i][w].age >= maxAge {
          maxAge := sets[i][w].age;
          way := w;
        }
      }
    }

    /** The scan of cache_hit. */
    method Scan(i: nat, tag: nat) returns (r: Option<nat>)
      requires Valid() && i < sets.Length
      ensures r == ProbeStop(sets[i], tag)
    {
      for w := 0 to ways
        invariant ProbeStop(sets[i], tag, w) == ProbeStop(sets[i], tag)
      {
        if !sets[i][w].v {
          return None;
        }
        if sets[i][w].tag == tag {
          return Some(w);
        }
      }
      return None;
    }

    /** The scan of cache_hit, passing over invalid ways. */
    method ScanAll(i: nat, tag: nat) returns (r: Option<nat>)
      requires Valid() && i < sets.Length
      ensures r == ProbeSkip(sets[i], tag)
    {
      for w := 0 to ways
        invariant ProbeSkip(sets[i], tag, w) == ProbeSkip(sets[i], tag)
      {
        if sets[i][w].v && sets[i][w].tag == tag {
          return Some(w);
        }
      }
      return None;
    }
  }
}
