/** The four calls of the cache interface (cache_mng.h:98-188) and what they mean over a
    flat array of bytes: the reference for every model of the cache. */
module FlatMemory {
  import opened Bytes
  import opened Arithmetic
  import opened LineNames

  /** Words and bytes, reads and writes. */
  datatype Op =
    | GetWord(addr: Uint32)
    | PutWordAt(addr: Uint32, word: Word)
    | GetByte(addr: Uint32)
    | PutByteAt(addr: Uint32, byte: Byte)

  datatype Out = GotWord(word: Word) | GotByte(byte: Byte) | Done

  /** One call on a flat array of bytes. */
  ghost function FlatStep(mem: seq<Byte>, op: Op): (r: (Out, seq<Byte>))
    requires InMemory(mem, op.addr)
    ensures |r.1| == |mem|
  {
    WordPlace(op.addr);
    match op
    case GetWord(addr) => (GotWord(FlatRead(mem, addr)), mem)
    case PutWordAt(addr, word) => (Done, FlatWrite(mem, addr, word))
    case GetByte(addr) => (GotByte(mem[addr]), mem)
    case PutByteAt(addr, byte) => (Done, mem[addr := byte])
  }

  ghost predicate AllInMemory(ops: seq<Op>, size: nat)
  {
    forall op :: op in ops ==> LINE_BYTES * LineOf(op.addr) + LINE_BYTES <= size
  }

  ghost function FlatRun(mem: seq<Byte>, ops: seq<Op>): (r: (seq<Out>, seq<Byte>))
    requires AllInMemory(ops, |mem|)
    ensures |r.0| == |ops| && |r.1| == |mem|
  {
    if ops == [] then ([], mem)
    else
      var (outs, mid) := FlatRun(mem, ops[..|ops| - 1]);
      var (out, end) := FlatStep(mid, ops[|ops| - 1]);
      (outs + [out], end)
  }

  /** The lines a call accesses: writing a byte reads the word first. */
  ghost function LinesOf(op: Op): seq<nat>
  {
    if op.PutByteAt? then [LineOf(op.addr), LineOf(op.addr)] else [LineOf(op.addr)]
  }

  /** The lines a run accesses, in order. */
  ghost function History(ops: seq<Op>): seq<nat>
  {
    if ops == [] then [] else History(ops[..|ops| - 1]) + LinesOf(ops[|ops| - 1])
  }

  lemma ByteInWord(mem: seq<Byte>, addr: nat, b: Byte)
    requires InMemory(mem, addr)
    ensures WordBase(addr) + 4 <= |mem| && addr < |mem| && addr == WordBase(addr) + addr % 4
    ensures FlatRead(mem, addr)[addr % 4] == mem[addr]
    ensures FlatWrite(mem, addr, FlatRead(mem, addr)[addr % 4 := b]) == mem[addr := b]
  {
    WordPlace(addr);
    Divided(addr, 4);
    Divided(addr, LINE_BYTES);
    var a := FlatWrite(mem, addr, FlatRead(mem, addr)[addr % 4 := b]);
    assert forall i :: 0 <= i < |mem| ==> a[i] == mem[addr := b][i];
  }

  /** What the four calls mean, in numbers: the word of address `p` begins at `p / 4 * 4`. */
  lemma {:induction false} CallMeaning(mem: seq<Byte>, op: Op)
    requires InMemory(mem, op.addr)
    ensures var p, b := op.addr, op.addr / 4 * 4;
      && p < |mem| && b + 4 <= |mem|
      && FlatStep(mem, op) ==
         match op
         case GetWord(_) => (GotWord(mem[b..b + 4]), mem)
         case GetByte(_) => (GotByte(mem[p]), mem)
         case PutWordAt(_, word) => (Done, mem[..b] + word + mem[b + 4..])
         case PutByteAt(_, byte) => (Done, mem[p := byte])
  {
    WordPlace(op.addr);
    Divided(op.addr, LINE_BYTES);
  }

  /** A run is its calls one after the other. */
  lemma {:induction false} FlatRunAppend(mem: seq<Byte>, ops: seq<Op>, op: Op)
    requires AllInMemory(ops, |mem|) && InMemory(mem, op.addr)
    ensures AllInMemory(ops + [op], |mem|)
    ensures var (outs, mid) := FlatRun(mem, ops);
      var (out, end) := FlatStep(mid, op);
      FlatRun(mem, ops + [op]) == (outs + [out], end)
  {
    hide FlatStep;
    assert (ops + [op])[..|ops|] == ops;
  }
}
