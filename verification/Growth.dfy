/** How the buffer of a node grows over any run of writes (memory/MemMount.cc, memory/MemNode.cc). */
module Growth {
  import opened FlatFs
  import opened Tree

  /** A write at `offset`. */
  datatype Edit = Edit(offset: nat, bytes: Bytes)

  /** A node together with what reallocation has done so far: how often, and how many old bytes it carried over. */
  datatype Buffer = Buffer(node: Node, reallocs: nat, carried: nat)

  predicate Fits(b: Buffer, edits: seq<Edit>)
    decreases |edits|
  {
    edits == [] || (edits[0].offset <= |b.node.content| && Fits(Edited(b, edits[0]), edits[1..]))
  }

  function Edited(b: Buffer, e: Edit): Buffer
    requires e.offset <= |b.node.content|
  {
    var node := WriteNode(b.node, e.offset, e.bytes);
    if e.offset + |e.bytes| > b.node.capacity then Buffer(node, b.reallocs + 1, b.carried + b.node.capacity)
    else Buffer(node, b.reallocs, b.carried)
  }

  function EditAll(b: Buffer, edits: seq<Edit>): Buffer
    requires Fits(b, edits)
    decreases |edits|
  {
    if edits == [] then b else EditAll(Edited(b, edits[0]), edits[1..])
  }

  function Pow2(n: nat): nat {
    if n == 0 then 1 else 2 * Pow2(n - 1)
  }

  predicate Amortised(b: Buffer) {
    && |b.node.content| <= b.node.capacity <= 2 * |b.node.content|
    && b.carried <= b.node.capacity
    && 2 * Pow2(b.reallocs) <= b.node.capacity + 2
  }

  lemma {:induction false} GrowthFrom(b: Buffer, edits: seq<Edit>)
    requires Amortised(b) && Fits(b, edits)
    ensures Amortised(EditAll(b, edits))
    decreases |edits|
  {
    if edits != [] {
      GrowthFrom(Edited(b, edits[0]), edits[1..]);
    }
  }

  /**
    After any writes to a new file: the capacity holds the content and is at most
    twice as large, reallocation has moved no more bytes than the buffer has now,
    and it has happened at most a logarithmic number of times.
   */
  lemma GrowthIsAmortised(name: string, parent: nat, edits: seq<Edit>)
    requires Fits(Buffer(NewNode(name, parent, false), 0, 0), edits)
    ensures var b := EditAll(Buffer(NewNode(name, parent, false), 0, 0), edits);
            && |b.node.content| <= b.node.capacity <= 2 * |b.node.content|
            && b.carried <= b.node.capacity
            && Pow2(b.reallocs) <= |b.node.content| + 1
  {
    GrowthFrom(Buffer(NewNode(name, parent, false), 0, 0), edits);
  }
}
