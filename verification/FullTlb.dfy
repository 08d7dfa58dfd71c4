/** The fully associative TLB in place (tlb_mng.c): an array of lines and the
    list that keeps the line numbers in order of use. */
module FullTlb {
  import opened Bytes
  import opened Outcomes
  import opened Addresses
  import opened PageWalk
  import opened Translation
  import opened FullTlbSpec
  import opened LinkedList

  class Tlb {
    const lines: array<Entry>
    const policy: List

    ghost predicate Valid()
      reads this, lines, policy, policy.nodes
    {
      policy.Valid() && Shaped(Contents())
    }

    ghost function Contents(): State
      reads this, lines, policy, policy.nodes
    {
      State(lines[..], policy.Values())
    }

    /** The list of all line numbers in order, as the simulator's main fills it. */
    static method AllLines(n: nat) returns (policy: List)
      ensures policy.Valid() && fresh(policy) && fresh(policy.nodes)
      ensures policy.Values() == Flushed(n).order
    {
      hide ValuesOf;
      policy := new List();
      for i := 0 to n
        invariant policy.Valid() && fresh(policy) && fresh(policy.nodes)
        invariant policy.Values() == Flushed(i).order
      {
        var node := policy.PushBack(i);
        assert Flushed(i).order + [i] == Flushed(i + 1).order;
      }
    }

    /** A flushed TLB. */
    constructor (n: nat)
      requires n >= 1
      ensures Valid() && Contents() == Flushed(n)
      ensures fresh(lines) && fresh(policy) && fresh(policy.nodes)
    {
      hide ValuesOf;
      var order := AllLines(n);
      lines := new Entry[n](_ => Entry(0, 0, false));
      policy := order;
      new;
      assert lines[..] == Flushed(n).lines;
      assert Contents() == Flushed(n);
      FlushedShaped(n);
    }

    /** tlb_flush empties the lines and leaves the list alone. */
    method Flush()
      requires Valid()
      modifies lines
      ensures Valid()
      ensures Contents() == State(seq(lines.Length, _ => Entry(0, 0, false)), old(Contents()).order)
    {
      for i := 0 to lines.Length
        invariant forall k :: 0 <= k < i ==> lines[k] == Entry(0, 0, false)
      {
        lines[i] := Entry(0, 0, false);
      }
    }

    /** The backward loop of tlb_hit over the nodes of the list. */
    method Find(page: Bits36) returns (node: Node?, ghost p: nat)
      requires Valid()
      ensures match Scan(Contents(), page, |Contents().order|)
        case None => node == null
        case Some(q) => p == q < |policy.nodes| && node == policy.nodes[p]
    {
      node := policy.back;
      p := |policy.nodes|;
      while node != null
        invariant p <= |policy.nodes|
        invariant node == if p == 0 then null else policy.nodes[p - 1]
        invariant Scan(Contents(), page, |policy.nodes|) == Scan(Contents(), page, p)
        decreases p
      {
        assert node.value == Contents().order[p - 1];
        p := p - 1;
        if lines[node.value].tag == page && lines[node.value].v {
          return;
        }
        node := node.previous;
      }
    }

    /** tlb_hit: a node found moves to the back. */
    method Hit(va: VirtAddr) returns (found: Option<PhyAddr>)
      requires Valid()
      modifies policy, policy.nodes
      ensures Valid()
      ensures forall n :: n in policy.nodes ==> n in old(policy.nodes) || fresh(n)
      ensures match Scan(old(Contents()), PageNumber(va), |old(Contents()).order|)
        case None => found == None && Contents() == old(Contents()) && policy.nodes == old(policy.nodes)
        case Some(p) =>
          var st := old(Contents());
          found == Some(PhyAddr(st.lines[st.order[p]].pageNum, va.offset)) &&
          Contents() == st.(order := MoveToBack(st.order, p))
    {
      hide PageNumber;
      ghost var st := Contents();
      var node, p := Find(PageNumber(va));
      if node == null {
        return None;
      }
      assert node.value == st.order[p];
      found := Some(PhyAddr(lines[node.value].pageNum, va.offset));
      policy.MoveBack(node, p);
      MovedShape(st, lines[..], p);
    }

    /** tlb_insert. */
    method Insert(index: nat, entry: Entry) returns (r: Result<()>)
      modifies lines
      ensures r.Ok? <==> index < lines.Length
      ensures lines[..] == if index < lines.Length then old(lines[..])[index := entry] else old(lines[..])
    {
      if index >= lines.Length {
        return Err(ErrBadParameter);
      }
      lines[index] := entry;
      r := Ok(());
    }

    /** tlb_search. */
    method Search(mem: array<Byte>, va: VirtAddr) returns (reply: Reply)
      requires Valid() && WalkInMemory(mem[..], va)
      modifies lines, policy, policy.nodes
      ensures Valid()
      ensures forall n :: n in policy.nodes ==> n in old(policy.nodes) || fresh(n)
      ensures (reply, Contents()) == FullTlbSpec.Search(old(mem[..]), va, old(Contents()))
    {
      hide Walk, WalkInMemory, Scan;
      ghost var st := Contents();
      var found := Hit(va);
      assert mem[..] == old(mem[..]);
      if found.Some? {
        return Found(true, found.value);
      }
      assert Contents() == st;
      var walk := Walk(mem[..], va);
      if walk.Err? {
        return Failed(ErrMem);
      }
      Replace(Entry(PageNumber(va), walk.value.pageNum, true));
      reply := Found(false, walk.value);
    }

    /** The end of a miss: the front's line takes the new entry and its node goes back. */
    method Replace(entry: Entry)
      requires Valid()
      modifies lines, policy, policy.nodes
      ensures Valid()
      ensures forall n :: n in policy.nodes ==> n in old(policy.nodes) || fresh(n)
      ensures var st := old(Contents());
        Contents() == State(st.lines[st.order[0] := entry], MoveToBack(st.order, 0))
    {
      ghost var st := Contents();
      assert policy.front.value == st.order[0];
      var r := Insert(policy.front.value, entry);
      assert policy.Values() == st.order;
      policy.MoveBack(policy.front, 0);
      MovedShape(st, lines[..], 0);
    }
  }
}
