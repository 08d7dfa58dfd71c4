/** The doubly linked list of line numbers (list.h, list.c). */
module LinkedList {

  /** `s` with the element at position `p` moved to the end. */
  function MoveToBack<T>(s: seq<T>, p: nat): (r: seq<T>)
    requires p < |s|
    ensures |r| == |s|
    ensures forall x :: x in r ==> x in s
  {
    s[..p] + s[p + 1..] + [s[p]]
  }

  class Node {
    var value: nat
    var previous: Node?
    var next: Node?

    constructor (value: nat, previous: Node?, next: Node?)
      ensures this.value == value && this.previous == previous && this.next == next
    {
      this.value, this.previous, this.next := value, previous, next;
    }
  }

  ghost function ValuesOf(nodes: seq<Node>): (s: seq<nat>)
    reads nodes
    ensures |s| == |nodes|
  {
    seq(|nodes|, i requires 0 <= i < |nodes| reads nodes => nodes[i].value)
  }

  /** Moving a node moves its value. */
  lemma ValuesOfMoved(nodes: seq<Node>, p: nat)
    requires p < |nodes|
    ensures ValuesOf(MoveToBack(nodes, p)) == MoveToBack(ValuesOf(nodes), p)
  {
  }

  lemma CutAndHung<T>(s: seq<T>, p: nat)
    requires p < |s|
    ensures s[..p] + s[p + 1..] + [s[p]] == MoveToBack(s, p)
  {
  }

  lemma ValuesOfEnds(node: Node, nodes: seq<Node>)
    ensures ValuesOf(nodes + [node]) == ValuesOf(nodes) + [node.value]
    ensures ValuesOf([node] + nodes) == [node.value] + ValuesOf(nodes)
    ensures nodes != [] ==> ValuesOf(nodes[1..]) == ValuesOf(nodes)[1..]
  {
  }

  lemma FirstValue(nodes: seq<Node>)
    requires nodes != []
    ensures ValuesOf(nodes)[0] == nodes[0].value
  {
  }

  twostate lemma SameValues(nodes: seq<Node>)
    requires forall n :: n in nodes ==> n.value == old(n.value)
    ensures ValuesOf(nodes) == old(ValuesOf(nodes))
  {
  }

  class List {
    var front: Node?
    var back: Node?
    ghost var nodes: seq<Node>

    /** The two chains mirror each other, end in null and visit no node twice. */
    ghost predicate Valid()
      reads this, nodes
    {
      && (nodes == [] ==> front == null && back == null)
      && (nodes != [] ==>
            && front == nodes[0] && nodes[0].previous == null
            && back == nodes[|nodes| - 1] && nodes[|nodes| - 1].next == null)
      && (forall i {:trigger nodes[i].next} :: 0 <= i < |nodes| - 1 ==> nodes[i].next == nodes[i + 1])
      && (forall i {:trigger nodes[i].previous} :: 0 < i < |nodes| ==> nodes[i].previous == nodes[i - 1])
      && (forall i, j :: 0 <= i < j < |nodes| ==> nodes[i] != nodes[j])
    }

    /** The values from front to back. */
    ghost function Values(): seq<nat>
      reads this, nodes
    {
      ValuesOf(nodes)
    }

    /** init_list. */
    constructor ()
      ensures Valid() && nodes == [] && Values() == []
    {
      front, back := null, null;
      nodes := [];
    }

    /** is_empty_list, on a well-formed list. */
    method IsEmpty() returns (empty: bool)
      requires Valid()
      ensures empty <==> Values() == []
    {
      empty := back == null && front == null;
    }

    method PushBack(value: nat) returns (node: Node)
      requires Valid()
      modifies this, nodes
      ensures Valid() && fresh(node)
      ensures nodes == old(nodes) + [node]
      ensures Values() == old(Values()) + [value]
    {
      hide ValuesOf;
      node := new Node(value, back, null);
      var empty := IsEmpty();
      if !empty {
        back.next := node;
      } else {
        front := node;
      }
      back := node;
      SameValues(nodes);
      ValuesOfEnds(node, nodes);
      nodes := nodes + [node];
    }

    method PushFront(value: nat) returns (node: Node)
      requires Valid()
      modifies this, nodes
      ensures Valid() && fresh(node)
      ensures nodes == [node] + old(nodes)
      ensures Values() == [value] + old(Values())
    {
      hide ValuesOf;
      node := new Node(value, null, front);
      var empty := IsEmpty();
      if empty {
        back := node;
      } else {
        front.previous := node;
      }
      front := node;
      SameValues(nodes);
      ValuesOfEnds(node, nodes);
      nodes := [node] + nodes;
    }

    /** The source frees the only node of a one-element list twice and then
        uses it, so no caller may reach that case. */
    method PopFront()
      requires Valid()
      requires |nodes| != 1
      modifies this, nodes
      ensures Valid()
      ensures nodes == if old(nodes) == [] then [] else old(nodes)[1..]
      ensures Values() == if old(nodes) == [] then [] else old(Values())[1..]
    {
      hide ValuesOf;
      var empty := IsEmpty();
      if empty {
        return;
      }
      front := front.next;
      front.previous := null;
      SameValues(nodes);
      ValuesOfEnds(front, nodes);
      nodes := nodes[1..];
    }

    /** The node at position `p` goes to the back: the front by pushing a copy
        and popping, any other node by relinking it. */
    method MoveBack(node: Node, ghost p: nat)
      requires Valid()
      requires p < |nodes| && nodes[p] == node
      modifies this, nodes
      ensures Valid()
      ensures Values() == MoveToBack(old(Values()), p)
      ensures forall n :: n in nodes ==> n in old(nodes) || fresh(n)
    {
      var empty := IsEmpty();
      if empty {
        return;
      } else if front == back || back == node {
        return;
      } else if front == node {
        Rotate(node);
      } else {
        if node.next != null {
          Relink(node, p);
        }
      }
    }

    /** The branch of move_back for the front node. */
    method Rotate(node: Node)
      requires Valid()
      requires |nodes| > 1 && nodes[0] == node
      modifies this, nodes
      ensures Valid()
      ensures Values() == MoveToBack(old(Values()), 0)
      ensures forall n :: n in nodes ==> n in old(nodes) || fresh(n)
    {
      hide ValuesOf;
      ghost var values := Values();
      FirstValue(nodes);
      assert (values + [values[0]])[1..] == MoveToBack(values, 0);
      var pushed := PushBack(node.value);
      PopFront();
    }

    /** The relinking branch of move_back. */
    method Relink(node: Node, ghost p: nat)
      requires Valid()
      requires 0 < p < |nodes| - 1 && nodes[p] == node
      modifies this, nodes
      ensures Valid()
      ensures nodes == MoveToBack(old(nodes), p)
      ensures Values() == MoveToBack(old(Values()), p)
    {
      hide ValuesOf, MoveToBack;
      ghost var was := nodes;
      CutOut(node, p);
      HangBehind(node);
      SameValues(was);
      ValuesOfMoved(was, p);
      CutAndHung(was, p);
    }

    /** First half of the relinking branch of move_back: an inner node is cut out. */
    method CutOut(node: Node, ghost p: nat)
      requires Valid()
      requires 0 < p < |nodes| - 1 && nodes[p] == node
      modifies this, nodes
      ensures Valid() && node !in nodes
      ensures nodes == old(nodes)[..p] + old(nodes)[p + 1..]
      ensures forall n :: n in old(nodes) ==> n.value == old(n.value)
    {
      node.previous.next := node.next;
      node.next.previous := node.previous;
      nodes := nodes[..p] + nodes[p + 1..];
    }

    /** Second half: the node is hung behind the back. */
    method HangBehind(node: Node)
      requires Valid() && nodes != [] && node !in nodes
      modifies this, nodes, node
      ensures Valid()
      ensures nodes == old(nodes) + [node]
      ensures node.value == old(node.value)
      ensures forall n :: n in old(nodes) ==> n.value == old(n.value)
    {
      back.next := node;
      node.previous := back;
      node.next := null;
      back := node;
      nodes := nodes + [node];
    }
  }
}
