/** The node object of the memory mount (memory/MemNode.h and memory/MemNode.cc). */
module MemNodes {
  import opened FlatFs
  import opened Tree

  class MemNode {
    var slot: nat
    var name: string
    var parent: nat
    var isDir: bool
    var useCount: int
    var data: array<bv8>
    var len: nat
    var capacity: nat
    var children: seq<nat>

    ghost predicate Valid()
      reads this
    {
      len <= capacity == data.Length
    }

    /** The node as a value: of the buffer only the first `len` bytes mean anything. */
    ghost function Snapshot(): Node
      requires Valid()
      reads this, data
    {
      Node(name, parent, isDir, useCount, data[..len], capacity, children)
    }

    /** Name, parent and kind are left for the mount to set. */
    constructor ()
      ensures Valid() && fresh(data)
      ensures useCount == 0 && len == 0 && capacity == 0 && children == []
    {
      data := new bv8[0];
      len := 0;
      capacity := 0;
      useCount := 0;
      children := [];
    }

    /** The setters that the mount calls on a new node. */
    method Place(name: string, parent: nat, isDir: bool)
      modifies `name, `parent, `isDir
      ensures this.name == name && this.parent == parent && this.isDir == isDir
    {
      this.name := name;
      this.parent := parent;
      this.isDir := isDir;
    }

    method AddChild(child: nat)
      modifies `children
      ensures children == if isDir then old(children) + [child] else old(children)
    {
      if !isDir {
        return;
      }
      children := children + [child];
    }

    method RemoveChild(child: nat)
      modifies `children
      ensures children == if isDir then Without(old(children), child) else old(children)
    {
      if !isDir {
        return;
      }
      children := Without(children, child);
    }

    /** `realloc` keeps the bytes that were there; the new ones are unspecified. */
    method ReallocData(newCapacity: nat)
      requires Valid() && capacity < newCapacity
      modifies `data, `capacity
      ensures Valid() && fresh(data) && capacity == newCapacity
      ensures data[..len] == old(data[..len])
    {
      var bigger := new bv8[newCapacity];
      forall i | 0 <= i < data.Length {
        bigger[i] := data[i];
      }
      data := bigger;
      capacity := newCapacity;
    }

    /** `memcpy` from a position inside the buffer. */
    method CopyOut(offset: nat, count: nat) returns (bytes: Bytes)
      requires Valid() && offset + count <= len
      ensures bytes == data[..len][offset..offset + count]
    {
      bytes := data[offset..offset + count];
    }

    /** `memcpy` to a position inside the buffer, and the new length if the end moved. */
    method CopyIn(offset: nat, bytes: Bytes)
      requires Valid() && offset <= len && offset + |bytes| <= capacity
      modifies `len, data
      ensures Valid()
      ensures data[..len] == Splice(old(data[..len]), offset, bytes)
    {
      forall i | 0 <= i < |bytes| {
        data[offset + i] := bytes[i];
      }
      if offset + |bytes| > len {
        len := offset + |bytes|;
      }
    }
  }
}
