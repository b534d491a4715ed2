/**
  The slot allocator of base/SlotAllocator.h: a vector of objects and a max-heap
  of the indices of its empty entries.
 */
module SlotAllocators {
  import opened Wrappers
  import opened Slots

  // ------------------------------------------------------------ Heap algorithms

  predicate HeapAt(h: seq<nat>, k: nat)
    requires 0 < k < |h|
  {
    h[k] <= h[(k - 1) / 2]
  }

  predicate IsHeap(h: seq<nat>) {
    forall k | 0 < k < |h| :: HeapAt(h, k)
  }

  lemma {:induction false} HeapTop(h: seq<nat>, k: nat)
    requires IsHeap(h) && k < |h|
    ensures h[k] <= h[0]
  {
    if k > 0 {
      HeapTop(h, (k - 1) / 2);
      assert HeapAt(h, k);
    }
  }

  function Swap(h: seq<nat>, i: nat, j: nat): (r: seq<nat>)
    requires i < |h| && j < |h|
    ensures multiset(r) == multiset(h)
  {
    h[i := h[j]][j := h[i]]
  }

  /** A heap, but that the element at `k` may be too large. */
  predicate HeapAbove(h: seq<nat>, k: nat)
    requires k < |h|
  {
    && (forall j | 0 < j < |h| && j != k :: HeapAt(h, j))
    && (forall j | 0 < j < |h| && 0 < k && (j - 1) / 2 == k :: h[j] <= h[(k - 1) / 2])
  }

  lemma SiftUp(h: seq<nat>, k: nat)
    requires 0 < k < |h| && HeapAbove(h, k) && h[(k - 1) / 2] < h[k]
    ensures HeapAbove(Swap(h, k, (k - 1) / 2), (k - 1) / 2)
  {
    var p := (k - 1) / 2;
    var r := Swap(h, k, p);
    forall j | 0 < j < |r| && j != p
      ensures HeapAt(r, j)
    {
      assert j != k ==> HeapAt(h, j);
    }
    forall j | 0 < j < |r| && 0 < p && (j - 1) / 2 == p
      ensures r[j] <= r[(p - 1) / 2]
    {
      assert HeapAt(h, p);
      assert j != k ==> HeapAt(h, j);
    }
  }

  /** `std::push_heap`: the last element rises to its place. */
  method PushHeap(h: seq<nat>) returns (r: seq<nat>)
    requires h != [] && IsHeap(h[..|h| - 1])
    ensures IsHeap(r) && multiset(r) == multiset(h)
  {
    r := h;
    var k := |h| - 1;
    assert forall j | 0 < j < k :: HeapAt(h[..k], j) && HeapAt(h, j);
    while k > 0 && r[(k - 1) / 2] < r[k]
      invariant 0 <= k < |r| && multiset(r) == multiset(h)
      invariant HeapAbove(r, k)
    {
      SiftUp(r, k);
      r := Swap(r, k, (k - 1) / 2);
      k := (k - 1) / 2;
    }
    assert k > 0 ==> HeapAt(r, k);
  }

  /** The first `n` elements are a heap, but that the element at `k` may be too small. */
  predicate HeapBut(h: seq<nat>, n: nat, k: nat)
    requires n <= |h| && (k == 0 || k < n)
  {
    && (forall j | 0 < j < n && (j - 1) / 2 != k :: HeapAt(h, j))
    && (forall j | 0 < j < n && 0 < k && (j - 1) / 2 == k :: h[j] <= h[(k - 1) / 2])
  }

  lemma SiftDown(h: seq<nat>, n: nat, k: nat, c: nat)
    requires n <= |h| && k < n && HeapBut(h, n, k)
    requires c < n && (c == 2 * k + 1 || c == 2 * k + 2) && h[k] < h[c]
    requires h[2 * k + 1] <= h[c] && (2 * k + 2 < n ==> h[2 * k + 2] <= h[c])
    ensures HeapBut(Swap(h, k, c), n, c)
  {
    var r := Swap(h, k, c);
    forall j | 0 < j < n && (j - 1) / 2 != c
      ensures HeapAt(r, j)
    {
      if (j - 1) / 2 != k {
        assert HeapAt(h, j);
      } else {
        assert j == 2 * k + 1 || j == 2 * k + 2;
      }
    }
    forall j | 0 < j < n && (j - 1) / 2 == c
      ensures r[j] <= r[(c - 1) / 2]
    {
      assert HeapAt(h, j);
    }
  }

  lemma SiftedDown(h: seq<nat>, n: nat, k: nat)
    requires n <= |h| && (k == 0 || k < n) && HeapBut(h, n, k)
    requires 2 * k + 1 < n ==> h[2 * k + 1] <= h[k]
    requires 2 * k + 2 < n ==> h[2 * k + 2] <= h[k]
    ensures IsHeap(h[..n])
  {
    forall j | 0 < j < n
      ensures HeapAt(h[..n], j)
    {
      if (j - 1) / 2 != k {
        assert HeapAt(h, j);
      } else {
        assert j == 2 * k + 1 || j == 2 * k + 2;
      }
    }
  }

  /** Of the first `n` elements the one at the top sinks to its place. */
  method Sink(h: seq<nat>, n: nat) returns (r: seq<nat>)
    requires n <= |h| && HeapBut(h, n, 0)
    ensures |r| == |h| && IsHeap(r[..n]) && r[n..] == h[n..] && multiset(r) == multiset(h)
  {
    r := h;
    var k := 0;
    while 2 * k + 1 < n
      invariant |r| == |h| && r[n..] == h[n..] && multiset(r) == multiset(h)
      invariant k == 0 || 0 < k < n
      invariant HeapBut(r, n, k)
      decreases n - k
    {
      var c := 2 * k + 1;
      if c + 1 < n && r[c] < r[c + 1] {
        c := c + 1;
      }
      if r[c] <= r[k] {
        break;
      }
      SiftDown(r, n, k, c);
      r := Swap(r, k, c);
      k := c;
    }
    SiftedDown(r, n, k);
  }

  /** `std::pop_heap`: the top moves to the end, the rest is a heap again. */
  method PopHeap(h: seq<nat>) returns (r: seq<nat>)
    requires h != [] && IsHeap(h)
    ensures |r| == |h| && r[|r| - 1] == h[0]
    ensures IsHeap(r[..|r| - 1]) && multiset(r) == multiset(h)
  {
    var n := |h| - 1;
    var swapped := Swap(h, 0, n);
    forall j | 0 < j < n && (j - 1) / 2 != 0
      ensures HeapAt(swapped, j)
    {
      assert HeapAt(h, j);
    }
    r := Sink(swapped, n);
    assert r[n] == r[n..][0] == swapped[n..][0];
  }

  // ------------------------------------------------------------ The allocator

  ghost function FreeSet<T>(t: Table<T>): set<nat> {
    set i: nat | i < |t| && t[i].None?
  }

  lemma NoneFree<T>(heap: seq<nat>, t: Table<T>)
    requires heap == [] && multiset(heap) == multiset(FreeSet(t))
    ensures Fresh(t) == |t|
  {
    forall k: nat | k < |t|
      ensures t[k].Some?
    {
      assert multiset(FreeSet(t))[k] == 0;
    }
  }

  lemma TopIsFresh<T>(heap: seq<nat>, t: Table<T>)
    requires heap != [] && IsHeap(heap) && multiset(heap) == multiset(FreeSet(t))
    ensures heap[0] == Fresh(t) < |t|
  {
    assert heap[0] in multiset(heap) && heap[0] in FreeSet(t);
    var i := Fresh(t);
    assert i in FreeSet(t) && i in multiset(heap);
    var at :| 0 <= at < |heap| && heap[at] == i;
    HeapTop(heap, at);
  }

  lemma TakeOut<T>(popped: seq<nat>, t: Table<T>, slot: nat, x: T)
    requires popped != [] && popped[|popped| - 1] == slot < |t| && t[slot].None?
    requires multiset(popped) == multiset(FreeSet(t))
    ensures multiset(popped[..|popped| - 1]) == multiset(FreeSet(t[slot := Some(x)]))
  {
    var rest := popped[..|popped| - 1];
    assert popped == rest + [slot];
    assert multiset(rest) == multiset(popped) - multiset{slot};
    assert FreeSet(t[slot := Some(x)]) == FreeSet(t) - {slot};
    assert multiset(FreeSet(t) - {slot}) == multiset(FreeSet(t)) - multiset{slot};
  }

  class SlotAllocator<T> {
    var slots: Table<T>
    var heap: seq<nat>

    /** The heap holds the index of each empty entry exactly once, in heap order. */
    ghost predicate Valid()
      reads this
    {
      IsHeap(heap) && multiset(heap) == multiset(FreeSet(slots))
    }

    constructor ()
      ensures Valid() && slots == []
    {
      slots := [];
      heap := [];
      new;
      assert FreeSet(slots) == {};
    }

    /** `x` is the object that `new T` makes. */
    method Alloc(x: T) returns (slot: nat)
      requires Valid()
      modifies this
      ensures Valid()
      ensures slot == Fresh(old(slots)) && slots == Put(old(slots), x)
    {
      if |heap| == 0 {
        NoneFree(heap, slots);
        slots := slots + [Some(x)];
        slot := |slots| - 1;
        assert FreeSet(slots) == FreeSet(old(slots));
        return;
      }
      slot := heap[0];
      TopIsFresh(heap, slots);
      var popped := PopHeap(heap);
      TakeOut(popped, slots, slot, x);
      heap := popped[..|popped| - 1];
      slots := slots[slot := Some(x)];
    }

    method Free(slot: nat)
      requires Valid() && slot < |slots|
      modifies this
      ensures Valid()
      ensures slots == Drop(old(slots), slot)
      ensures !Live(old(slots), slot) ==> heap == old(heap)
    {
      if slots[slot].None? {
        return;
      }
      slots := slots[slot := None];
      assert FreeSet(slots) == FreeSet(old(slots)) + {slot};
      heap := heap + [slot];
      assert heap[..|heap| - 1] == old(heap);
      heap := PushHeap(heap);
    }

    function At(slot: int): (found: Option<T>)
      reads this
      ensures found.Some? <==> Live(slots, slot)
      ensures found.Some? ==> found == slots[slot]
    {
      if slot < 0 || slot >= |slots| then None else slots[slot]
    }
  }
}
