/** Which line a set gives for a tag, and how each change of a set changes that. */
module SetLookup {
  import opened Bytes
  import opened Outcomes
  import opened AgeSets

  ghost function Find(s: seq<Way>, tag: nat): Option<Line>
  {
    match ProbeSkip(s, tag)
    case Some(w) => Some(s[w].line)
    case None => None
  }

  /** No two valid ways have the same tag. */
  ghost predicate Distinct(s: seq<Way>)
  {
    forall w, x :: 0 <= w < x < |s| && s[w].v && s[x].v ==> s[w].tag != s[x].tag
  }

  lemma {:induction false} FindValid(s: seq<Way>, w: nat)
    requires Distinct(s) && w < |s| && s[w].v
    ensures ProbeSkip(s, s[w].tag) == Some(w)
    ensures Find(s, s[w].tag) == Some(s[w].line)
  {
  }

  /** Sets that differ in ages only. */
  ghost predicate SameButAges(s: seq<Way>, s': seq<Way>)
  {
    && |s'| == |s|
    && (forall w :: 0 <= w < |s| ==> s'[w].v == s[w].v && s'[w].tag == s[w].tag && s'[w].line == s[w].line)
  }

  lemma {:induction false} AgesDoNotMatter(s: seq<Way>, s': seq<Way>)
    requires SameButAges(s, s')
    ensures Distinct(s') == Distinct(s)
    ensures forall tag :: ProbeSkip(s', tag) == ProbeSkip(s, tag)
    ensures forall tag :: Find(s', tag) == Find(s, tag)
  {
    forall tag
      ensures ProbeSkip(s', tag) == ProbeSkip(s, tag)
    {
    }
  }

  lemma {:induction false} AgingKeepsLines(s: seq<Way>, w: nat)
    requires w < |s|
    ensures SameButAges(s, AgeUpdate(s, w)) && SameButAges(s, AgeIncrease(s, w))
  {
  }

  /** What the set gives after way `w` is overwritten with a new valid line. */
  ghost function FindAfterPut(s: seq<Way>, w: nat, tag: nat, line: Line, t: nat): Option<Line>
    requires w < |s|
  {
    if t == tag then Some(line) else if s[w].v && t == s[w].tag then None else Find(s, t)
  }

  lemma {:induction false} PutFinds(s: seq<Way>, w: nat, e: Way, t: nat)
    requires Distinct(s) && w < |s| && e.v
    requires ProbeSkip(s, e.tag) == None || ProbeSkip(s, e.tag) == Some(w)
    ensures Distinct(s[w := e])
    ensures Find(s[w := e], t) == FindAfterPut(s, w, e.tag, e.line, t)
  {
    var s' := s[w := e];
    if t == e.tag {
      FindValid(s', w);
    } else if s[w].v && t == s[w].tag {
      assert forall x :: 0 <= x < |s| && x != w && s[x].v ==> s[x].tag != t;
    } else if Find(s, t).Some? {
      var x := ProbeSkip(s, t).value;
      assert s'[x] == s[x];
      FindValid(s', x);
    }
  }

  lemma {:induction false} DropFinds(s: seq<Way>, w: nat, t: nat)
    requires Distinct(s) && w < |s| && s[w].v
    ensures Distinct(s[w := s[w].(v := false)])
    ensures Find(s[w := s[w].(v := false)], t) == if t == s[w].tag then None else Find(s, t)
  {
    var s' := s[w := s[w].(v := false)];
    if t == s[w].tag {
      assert forall x :: 0 <= x < |s| && x != w && s[x].v ==> s[x].tag != t;
    } else if Find(s, t).Some? {
      var x := ProbeSkip(s, t).value;
      assert s'[x] == s[x];
      FindValid(s', x);
    }
  }

  lemma {:induction false} InstallFinds(s: seq<Way>, tag: nat, line: Line, t: nat)
    requires Distinct(s) && |s| > 0 && ProbeSkip(s, tag).None?
    ensures var (s', victim) := Install(s, tag, line);
      && Distinct(s')
      && Find(s', t) == (if t == tag then Some(line)
                         else if victim.Some? && t == victim.value.tag then None
                         else Find(s, t))
      && (victim.Some? ==> victim.value.v && victim.value.tag != tag
                           && Find(s, victim.value.tag) == Some(victim.value.line))
  {
    var w := if FindPlace(s).Some? then FindPlace(s).value else Oldest(s, |s|);
    var e := Way(true, if FindPlace(s).Some? then 0 else s[w].age, tag, line);
    PutFinds(s, w, e, t);
    AgingKeepsLines(s[w := e], w);
    AgesDoNotMatter(s[w := e], Install(s, tag, line).0);
    if FindPlace(s).None? {
      FindValid(s, w);
    }
  }
}
