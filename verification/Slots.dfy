/**
  Slot tables as values: what base/SlotAllocator.h promises about the vector of
  objects, with the heap of free indices left out.
 */
module Slots {
  import opened Wrappers

  type Table<T> = seq<Option<T>>

  predicate Live<T>(t: Table<T>, i: int) {
    0 <= i < |t| && t[i].Some?
  }

  function LargestFree<T>(t: Table<T>, n: nat): (i: int)
    requires n <= |t|
    ensures -1 <= i < n
    ensures i >= 0 ==> t[i].None?
    ensures forall k | i < k < n :: t[k].Some?
  {
    if n == 0 then -1 else if t[n - 1].None? then n - 1 else LargestFree(t, n - 1)
  }

  /** The index the next object gets: the largest empty one, or a new one at the end. */
  function Fresh<T>(t: Table<T>): (i: nat)
    ensures !Live(t, i) && i <= |t|
    ensures forall k | 0 <= k < |t| && t[k].None? :: k <= i < |t|
  {
    var i := LargestFree(t, |t|);
    if i == -1 then |t| else i
  }

  function Put<T>(t: Table<T>, x: T): (t': Table<T>)
    ensures Live(t', Fresh(t)) && t'[Fresh(t)].value == x
    ensures forall i :: i != Fresh(t) ==> Live(t', i) == Live(t, i)
    ensures |t| <= |t'| <= |t| + 1
    ensures forall i | 0 <= i < |t| && i != Fresh(t) :: t'[i] == t[i]
  {
    if Fresh(t) == |t| then t + [Some(x)] else t[Fresh(t) := Some(x)]
  }

  function Drop<T>(t: Table<T>, i: nat): (t': Table<T>)
    requires i < |t|
    ensures |t'| == |t| && !Live(t', i)
    ensures forall j | 0 <= j < |t| && j != i :: t'[j] == t[j]
  {
    t[i := None]
  }

  lemma SameFresh<A, B>(a: Table<A>, b: Table<B>)
    requires |a| == |b| && forall i | 0 <= i < |a| :: a[i].Some? == b[i].Some?
    ensures Fresh(a) == Fresh(b)
  {
    var i, j := Fresh(a), Fresh(b);
    if i < |a| {
      assert b[i].None?;
    }
    if j < |b| {
      assert a[j].None?;
    }
  }

  // ------------------------------------------------------------ Size over a run

  datatype SlotOp<T> = AllocOp(x: T) | FreeOp(i: nat)

  function LiveCount<T>(t: Table<T>): nat {
    if t == [] then 0
    else LiveCount(t[..|t| - 1]) + if t[|t| - 1].Some? then 1 else 0
  }

  function Apply<T>(t: Table<T>, op: SlotOp<T>): Table<T> {
    match op
    case AllocOp(x) => Put(t, x)
    case FreeOp(i) => if i < |t| then Drop(t, i) else t
  }

  function Run<T>(t: Table<T>, ops: seq<SlotOp<T>>): Table<T> {
    if ops == [] then t else Apply(Run(t, ops[..|ops| - 1]), ops[|ops| - 1])
  }

  /** The greatest number of objects live at once during the run. */
  function Peak<T>(t: Table<T>, ops: seq<SlotOp<T>>): nat {
    var now := LiveCount(Run(t, ops));
    if ops == [] then now
    else
      var before := Peak(t, ops[..|ops| - 1]);
      if now > before then now else before
  }

  lemma {:induction false} LiveCountSet<T>(t: Table<T>, i: nat, v: Option<T>)
    requires i < |t|
    ensures LiveCount(t[i := v])
         == LiveCount(t) - (if t[i].Some? then 1 else 0) + (if v.Some? then 1 else 0)
  {
    var n := |t| - 1;
    if i < n {
      LiveCountSet(t[..n], i, v);
      assert t[i := v][..n] == t[..n][i := v];
    } else {
      assert t[i := v][..n] == t[..n];
    }
  }

  lemma {:induction false} LiveCountFull<T>(t: Table<T>)
    ensures LiveCount(t) <= |t|
    ensures LiveCount(t) == |t| <==> Fresh(t) == |t|
  {
    if t != [] {
      LiveCountFull(t[..|t| - 1]);
      var last := |t| - 1;
      if Fresh(t) == |t| {
        assert forall k | 0 <= k < last :: t[..last][k].Some?;
      }
      if t[last].Some? && Fresh(t[..last]) == last {
        assert forall k | 0 <= k < last :: t[k] == t[..last][k] && t[..last][k].Some?;
      }
    }
  }

  /** The table never has more entries than were needed at the busiest moment. */
  lemma {:induction false} SizeIsPeak<T>(ops: seq<SlotOp<T>>)
    ensures |Run([], ops)| == Peak([], ops)
    ensures LiveCount(Run([], ops)) <= |Run([], ops)|
  {
    if ops != [] {
      var before := Run([], ops[..|ops| - 1]);
      SizeIsPeak(ops[..|ops| - 1]);
      match ops[|ops| - 1]
      case AllocOp(x) =>
        LiveCountFull(before);
        LiveCountFull(Put(before, x));
        if Fresh(before) == |before| {
          assert Put(before, x)[..|before|] == before;
        } else {
          LiveCountSet(before, Fresh(before), Some(x));
        }
      case FreeOp(i) =>
        if i < |before| {
          LiveCountSet(before, i, None);
        }
    }
  }
}
