/** The storage of a two-level cache in place: an L1, the L2 behind it and the memory
    space. */
module CacheStore {
  import opened Bytes
  import opened LineNames
  import opened ExclusiveSpec
  import C = CacheLevel

  class Store {
    const l1: C.Level
    const l2: C.Level
    const mem: array<Byte>

    ghost predicate Valid()
      reads l1.sets, l2.sets
    {
      && l1.Valid() && l1.sets.Length == L1_SETS && l1.ways == L1_WAYS
      && l2.Valid() && l2.sets.Length == L2_SETS && l2.ways == L2_WAYS
      && l1.sets != l2.sets
    }

    ghost function Contents(): State
      reads l1.sets, l2.sets, mem
    {
      State(l1.sets[..], l2.sets[..], mem[..])
    }

    lemma ValidShaped()
      requires Valid()
      ensures Shaped(Contents())
    {
    }

    constructor (mem: array<Byte>)
      ensures Valid() && this.mem == mem && Contents() == Flushed(mem[..])
      ensures fresh(l1.sets) && fresh(l2.sets)
    {
      l1 := new C.Level(L1_SETS, L1_WAYS);
      l2 := new C.Level(L2_SETS, L2_WAYS);
      this.mem := mem;
    }

    /** memcpy of sixteen bytes to the memory space. */
    method CopyToMemory(at: nat, line: Line)
      requires at + LINE_BYTES <= mem.Length
      modifies mem
      ensures mem[..] == Splice(old(mem[..]), at, line)
    {
      for k := 0 to LINE_BYTES
        invariant forall i :: 0 <= i < mem.Length ==>
          mem[i] == if at <= i < at + k then line[i - at] else old(mem[i])
      {
        mem[at + k] := line[k];
      }
      assert mem[..] == Splice(old(mem[..]), at, line);
    }
  }
}
