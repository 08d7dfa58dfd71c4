/** Least-recently-used replacement on sequences, most recent first: the
    specification that the list-based TLB and the age-based cache sets refine. */
module Recency {

  ghost predicate NoRepeats<T(!new)>(r: seq<T>)
  {
    forall i, j :: 0 <= i < j < |r| ==> r[i] != r[j]
  }

  function Without<T(==, !new)>(r: seq<T>, x: T): (s: seq<T>)
    ensures |s| <= |r|
    ensures forall y :: y in s <==> y in r && y != x
  {
    if r == [] then []
    else if r[0] == x then Without(r[1..], x)
    else [r[0]] + Without(r[1..], x)
  }

  function Take<T>(r: seq<T>, n: nat): seq<T>
  {
    if |r| <= n then r else r[..n]
  }

  /** `x` is used: it becomes the most recent element. */
  function Touch<T(==, !new)>(r: seq<T>, x: T): seq<T>
  {
    [x] + Without(r, x)
  }

  /** One access to a buffer of `capacity` elements. */
  function Access<T(==, !new)>(r: seq<T>, x: T, capacity: nat): seq<T>
  {
    Take(Touch(r, x), capacity)
  }

  /** The buffer after a whole run, from empty. */
  function Run<T(==, !new)>(xs: seq<T>, capacity: nat): seq<T>
  {
    if xs == [] then [] else Access(Run(xs[..|xs| - 1], capacity), xs[|xs| - 1], capacity)
  }

  /** All the elements of a run, each once, the most recently used first. */
  function MostRecent<T(==, !new)>(xs: seq<T>): seq<T>
  {
    if xs == [] then [] else Touch(MostRecent(xs[..|xs| - 1]), xs[|xs| - 1])
  }

  /** The position of the last use of `x` in the run. */
  function LastUse<T(==, !new)>(xs: seq<T>, x: T): (i: nat)
    requires x in xs
    ensures i < |xs| && xs[i] == x
    ensures forall j :: i < j < |xs| ==> xs[j] != x
  {
    if xs[|xs| - 1] == x then |xs| - 1 else LastUse(xs[..|xs| - 1], x)
  }

  lemma RunAppend<T(!new)>(xs: seq<T>, x: T, capacity: nat)
    ensures Run(xs + [x], capacity) == Access(Run(xs, capacity), x, capacity)
  {
    assert (xs + [x])[..|xs|] == xs;
  }

  lemma {:induction false} WithoutAbsent<T(!new)>(r: seq<T>, x: T)
    requires x !in r
    ensures Without(r, x) == r
  {
    if r != [] {
      WithoutAbsent(r[1..], x);
    }
  }

  lemma {:induction false} WithoutAt<T(!new)>(r: seq<T>, j: nat)
    requires NoRepeats(r)
    requires j < |r|
    ensures Without(r, r[j]) == r[..j] + r[j + 1..]
  {
    if j == 0 {
      WithoutAbsent(r[1..], r[0]);
    } else {
      var rest := r[1..];
      assert rest[j - 1] == r[j];
      WithoutAt(rest, j - 1);
      assert Without(r, r[j]) == [r[0]] + Without(rest, r[j]);
      assert r[..j] == [r[0]] + rest[..j - 1];
      assert r[j + 1..] == rest[j..];
    }
  }

  lemma {:induction false} WithoutConcat<T(!new)>(a: seq<T>, b: seq<T>, x: T)
    ensures Without(a + b, x) == Without(a, x) + Without(b, x)
  {
    if a == [] {
      assert a + b == b;
    } else {
      assert (a + b)[1..] == a[1..] + b;
      WithoutConcat(a[1..], b, x);
    }
  }

  lemma {:induction false} TouchNoRepeats<T(!new)>(r: seq<T>, x: T)
    requires NoRepeats(r)
    ensures NoRepeats(Touch(r, x))
  {
    if x in r {
      var j :| 0 <= j < |r| && r[j] == x;
      WithoutAt(r, j);
    } else {
      WithoutAbsent(r, x);
    }
  }

  /** The length of the recency list grows with a new element only. */
  lemma {:induction false} TouchLength<T(!new)>(r: seq<T>, x: T)
    requires NoRepeats(r)
    ensures |Touch(r, x)| == if x in r then |r| else |r| + 1
  {
    if x in r {
      var k :| 0 <= k < |r| && r[k] == x;
      WithoutAt(r, k);
    } else {
      WithoutAbsent(r, x);
    }
  }

  lemma {:induction false} WithoutOfPrefix<T(!new)>(r: seq<T>, x: T, n: nat)
    requires n <= |r|
    ensures Without(r[..n], x) <= Without(r, x)
    ensures |Without(r[..n], x)| >= n - 1 || Without(r[..n], x) == Without(r, x) || !NoRepeats(r)
  {
    if n > 0 {
      assert r[..n][1..] == r[1..][..n - 1];
      WithoutOfPrefix(r[1..], x, n - 1);
      if r[0] == x && NoRepeats(r) {
        WithoutAbsent(r[1..][..n - 1], x);
      }
    }
  }

  /** What a buffer has already dropped can never come back into its first `n` places. */
  lemma {:induction false} TouchThenTake<T(!new)>(r: seq<T>, x: T, n: nat)
    requires NoRepeats(r)
    ensures Take(Touch(Take(r, n), x), n) == Take(Touch(r, x), n)
  {
    if |r| > n {
      WithoutOfPrefix(r, x, n);
    }
  }

  /** The run of any buffer is the beginning of one list that does not depend on
      the capacity: the distinct elements in order of last use. */
  lemma {:induction false} RunIsMostRecent<T(!new)>(xs: seq<T>, capacity: nat)
    ensures NoRepeats(MostRecent(xs))
    ensures Run(xs, capacity) == Take(MostRecent(xs), capacity)
  {
    if xs != [] {
      var before := xs[..|xs| - 1];
      RunIsMostRecent(before, capacity);
      TouchNoRepeats(MostRecent(before), xs[|xs| - 1]);
      TouchThenTake(MostRecent(before), xs[|xs| - 1], capacity);
    }
  }

  /** The stack property of LRU: a smaller buffer holds a prefix of a larger one. */
  lemma StackProperty<T(!new)>(xs: seq<T>, n: nat, m: nat)
    requires n <= m
    ensures Run(xs, n) == Take(Run(xs, m), n)
    ensures forall x :: x in Run(xs, n) ==> x in Run(xs, m)
  {
    RunIsMostRecent(xs, n);
    RunIsMostRecent(xs, m);
  }

  /** The elements of `r` stand in decreasing order of last use. */
  ghost predicate ByLastUse<T(!new)>(xs: seq<T>, r: seq<T>)
  {
    && (forall x :: x in r <==> x in xs)
    && (forall i, j :: 0 <= i < j < |r| ==> LastUse(xs, r[i]) > LastUse(xs, r[j]))
  }

  lemma LastUseBefore<T(!new)>(xs: seq<T>, x: T, y: T)
    requires y in xs && x != y
    ensures LastUse(xs + [x], y) == LastUse(xs, y)
  {
    assert (xs + [x])[..|xs|] == xs;
  }

  lemma {:induction false} TouchByLastUse<T(!new)>(xs: seq<T>, r: seq<T>, x: T)
    requires NoRepeats(r) && ByLastUse(xs, r)
    ensures ByLastUse(xs + [x], Touch(r, x))
  {
    var now := Touch(r, x);
    forall i, j | 0 <= i < j < |now|
      ensures LastUse(xs + [x], now[i]) > LastUse(xs + [x], now[j])
    {
      assert now[j] in Without(r, x);
      LastUseBefore(xs, x, now[j]);
      if i > 0 {
        assert now[i] in Without(r, x);
        LastUseBefore(xs, x, now[i]);
        WithoutOrder(r, x, i - 1, j - 1);
      }
    }
  }

  /** `MostRecent` is what its name says: exactly the elements of the run,
      without repetition, in decreasing order of last use. */
  lemma {:induction false} MostRecentByLastUse<T(!new)>(xs: seq<T>)
    ensures NoRepeats(MostRecent(xs))
    ensures ByLastUse(xs, MostRecent(xs))
  {
    RunIsMostRecent(xs, 0);
    if xs != [] {
      var before := xs[..|xs| - 1];
      MostRecentByLastUse(before);
      TouchByLastUse(before, MostRecent(before), xs[|xs| - 1]);
      assert xs == before + [xs[|xs| - 1]];
    }
  }

  lemma WithoutOrder<T(!new)>(r: seq<T>, x: T, i: nat, j: nat)
    requires NoRepeats(r)
    requires i < j < |Without(r, x)|
    ensures exists a, b :: 0 <= a < b < |r| && r[a] == Without(r, x)[i] && r[b] == Without(r, x)[j]
  {
    if x in r {
      var k :| 0 <= k < |r| && r[k] == x;
      WithoutAt(r, k);
      var a, b := if i < k then i else i + 1, if j < k then j else j + 1;
      assert r[a] == Without(r, x)[i] && r[b] == Without(r, x)[j];
    } else {
      WithoutAbsent(r, x);
      assert r[i] == Without(r, x)[i] && r[j] == Without(r, x)[j];
    }
  }
}
