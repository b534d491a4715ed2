/**
  The memory mount (memory/MemMount.cc): node objects in a slot allocator. Each
  method does to the table of nodes what the function of the same name in module
  Tree does, keeps the invariant, and never follows a dangling slot.
 */
module MemMounts {
  import opened Wrappers
  import opened Paths
  import opened Slots
  import opened FlatFs
  import opened SlotAllocators
  import opened PathHandles
  import opened MemNodes
  import Tree
  import TreeProofs

  class MemMount {
    var slots: SlotAllocator<MemNode>

    ghost var names: Names
    ghost var refs: multiset<nat>
    /** The objects the mount consists of, itself left out. */
    ghost var Repr: set<object>

    /** Each live slot has an object and a buffer of its own. */
    ghost predicate Shape()
      reads `slots, `Repr, Repr
    {
      && this !in Repr && slots in Repr && slots.Valid()
      && (forall i | Live(slots.slots, i) ::
            var node := slots.slots[i].value;
            node in Repr && node.data in Repr && node.Valid() && node.slot == i)
      && (forall i, j | Live(slots.slots, i) && Live(slots.slots, j) && i != j ::
            slots.slots[i].value != slots.slots[j].value && slots.slots[i].value.data != slots.slots[j].value.data)
    }

    ghost function DiskUpTo(n: nat): (fs: Tree.Disk)
      requires Shape() && n <= |slots.slots|
      reads `slots, `Repr, Repr
      ensures |fs| == n
      ensures forall i | 0 <= i < n ::
                fs[i] == if slots.slots[i].None? then None else Some(slots.slots[i].value.Snapshot())
    {
      if n == 0 then []
      else
        var x := slots.slots[n - 1];
        DiskUpTo(n - 1) + [if x.None? then None else Some(x.value.Snapshot())]
    }

    /** The table of nodes as a value. */
    ghost function Disk(): (fs: Tree.Disk)
      requires Shape()
      reads `slots, `Repr, Repr
    {
      DiskUpTo(|slots.slots|)
    }

    ghost predicate Valid()
      reads this, Repr
      ensures Valid() ==> Shape()
    {
      Shape() && Tree.Inv(Disk(), names, refs)
    }

    constructor ()
      ensures Valid() && fresh(Repr)
      ensures Disk() == Tree.EMPTY_DISK && names == FlatFs.EMPTY.names && refs == multiset{}
    {
      hide DiskUpTo, Tree.Inv;
      var table := new SlotAllocator<MemNode>();
      slots, Repr := table, {table};
      names, refs := FlatFs.EMPTY.names, multiset{};
      new;
      PlaceRoot();
      TreeProofs.EmptyDiskInv();
    }

    method PlaceRoot()
      requires Shape() && Disk() == []
      modifies `Repr, slots
      ensures Shape() && fresh(Repr - old(Repr)) && names == old(names) && refs == old(refs)
      ensures Disk() == Tree.EMPTY_DISK
    {
      hide DiskUpTo, Disk;
      var root := new MemNode();
      root.Place("/", 0, true);
      assert root.Snapshot() == Tree.ROOT_NODE;
      var slot := Insert(root);
    }

    method GetSlot(path: string) returns (slot: int)
      requires Valid()
      ensures slot == match Tree.GetSlot(Disk(), path) case None => -1 case Some(s) => s
      ensures slot == -1 || Live(Disk(), slot)
    {
      if |path| == 0 {
        return -1;
      }
      var ph := new PathHandle(path);
      slot := WalkDown(ph.path);
      if slot == 0 && |ph.path| > 1 {
        return -1;
      }
    }

    method WalkDown(components: Path) returns (slot: int)
      requires Valid()
      ensures slot == match Tree.Walk(Disk(), 0, components) case None => -1 case Some(s) => s
      ensures slot == -1 || Live(Disk(), slot)
    {
      hide DiskUpTo, Tree.Inv;
      ghost var fs := Disk();
      TreeProofs.NamesAreLive(fs, names, refs);
      slot := 0;
      for k := 0 to |components|
        invariant fs == Disk() && Live(fs, slot)
        invariant Tree.Walk(fs, slot, components[k..]) == Tree.Walk(fs, 0, components)
      {
        assert components[k..][0] == components[k] && components[k..][1..] == components[k + 1..];
        var child := Descend(slot, components[k]);
        if child == -1 {
          return -1;
        }
        slot := child;
      }
    }

    /** One step of the walk: the child of a directory with the given name. */
    method Descend(slot: nat, name: string) returns (child: int)
      requires Valid() && Live(Disk(), slot)
      ensures child == -1 || Live(Disk(), child)
      ensures child == if !Tree.IsDir(Disk(), slot) then -1
                       else match Tree.FindChild(Disk(), Tree.Kids(Disk(), slot), name)
                            case None => -1
                            case Some(c) => c
    {
      var node := slots.At(slot).value;
      if !node.isDir {
        return -1;
      }
      child := FindChild(slot, node.children, name);
    }

    method FindChild(slot: nat, children: seq<nat>, name: string) returns (child: int)
      requires Valid() && Tree.IsDir(Disk(), slot) && children == Tree.Kids(Disk(), slot)
      ensures child == match Tree.FindChild(Disk(), children, name) case None => -1 case Some(c) => c
      ensures child == -1 || Live(Disk(), child)
    {
      ghost var fs := Disk();
      for j := 0 to |children|
        invariant Tree.FindChild(fs, children[j..], name) == Tree.FindChild(fs, children, name)
      {
        TreeProofs.KidIsLive(fs, names, slot, children[j]);
        assert children[j..][0] == children[j] && children[j..][1..] == children[j + 1..];
        if slots.At(children[j]).value.name == name {
          return children[j];
        }
      }
      return -1;
    }

    method GetParentSlot(path: string) returns (slot: int)
      requires Valid()
      ensures slot == match Tree.GetParentSlot(Disk(), path) case None => -1 case Some(s) => s
      ensures slot == -1 || Live(Disk(), slot)
    {
      slot := GetSlot(path + "/..");
    }

    method Stat(slot: int) returns (r: Result<Tree.Stat>)
      requires Valid()
      ensures r == Tree.StatOf(Disk(), slot)
    {
      var node := slots.At(slot);
      if node.None? {
        return Fail(ENOENT);
      }
      return Ok(Tree.Stat(node.value.slot, node.value.isDir, if node.value.isDir then 0 else node.value.len));
    }

    /** Fills records of the given size with the names of children until the caller's buffer is full. */
    method Getdents(slot: nat, record: nat, count: nat) returns (r: Result<seq<Tree.Dirent>>)
      requires Valid() && record > 0
      ensures r == Tree.Getdents(Disk(), slot, record, count)
    {
      var node := slots.At(slot);
      if node.None? || !node.value.isDir {
        return Fail(ENOTDIR);
      }
      var listed := ListChildren(slot, node.value.children, record, count);
      return Ok(listed);
    }

    method ListChildren(slot: nat, children: seq<nat>, record: nat, count: nat) returns (listed: seq<Tree.Dirent>)
      requires Valid() && record > 0 && Tree.IsDir(Disk(), slot) && children == Tree.Kids(Disk(), slot)
      ensures listed == Tree.FirstRecords(Disk(), children, record, count)
    {
      hide Valid, Shape, Disk, Tree.WellFormed, Tree.IsDir, Tree.FirstRecords, Tree.Records, Tree.Taken, Tree.NameField;
      listed := [];
      var bytesRead, pos := 0, 0;
      ghost var fs := Disk();
      Grounded();
      Tree.NoneTaken(fs, children, record, count);
      while pos < |children| && bytesRead + record <= count
        invariant pos <= |children| && Tree.Taken(pos, record, bytesRead, count)
        invariant listed == Tree.Records(fs, children[..pos], record)
        decreases |children| - pos
      {
        TreeProofs.KidIsLive(fs, names, slot, children[pos]);
        Tree.OneChildMore(fs, children, pos, record);
        Tree.TakeOne(pos, record, bytesRead, count);
        var name := ChildName(children[pos]);
        listed := listed + [Tree.Dirent(Tree.D_INO, record, record, Tree.NameField(name))];
        pos, bytesRead := pos + 1, bytesRead + record;
      }
      Tree.AllTaken(fs, children, pos, record, bytesRead, count);
    }

    lemma Apart()
      requires Shape()
      ensures this !in Repr
    {
    }

    lemma Grounded()
      requires Valid()
      ensures Tree.WellFormed(Disk(), names)
    {
      hide Disk, Tree.WellFormed;
    }

    method ChildName(child: nat) returns (name: string)
      requires Valid() && Live(Disk(), child)
      ensures name == Disk()[child].value.name
    {
      return slots.At(child).value.name;
    }

    method GetNode(path: string) returns (r: Result<Tree.Stat>)
      requires Valid()
      ensures r == Tree.GetNode(Disk(), path)
    {
      var slot := GetSlot(path);
      if slot == -1 {
        return Fail(ENOENT);
      }
      r := Stat(slot);
    }

    // ---------------------------------------------------------- Single changes to the table

    function NodeAt(slot: nat): MemNode
      requires Live(slots.slots, slot)
      reads `slots, slots
    {
      slots.slots[slot].value
    }

    /** Increments or decrements a use count. */
    method Count(slot: nat, delta: int)
      requires Shape() && Live(Disk(), slot)
      modifies Repr
      ensures Shape() && Repr == old(Repr) && names == old(names) && refs == old(refs)
      ensures Disk() == old(Disk())[slot := Some(Tree.CountBy(old(Disk())[slot].value, delta))]
    {
      var node := slots.At(slot).value;
      node.useCount := node.useCount + delta;
    }

    method IsDirectory(slot: nat) returns (isDir: bool)
      requires Shape() && Live(Disk(), slot)
      ensures isDir == Tree.IsDir(Disk(), slot)
    {
      isDir := slots.At(slot).value.isDir;
    }

    method LinkChild(parent: nat, child: nat)
      requires Shape() && Live(Disk(), parent)
      modifies Repr
      ensures Shape() && Repr == old(Repr) && names == old(names) && refs == old(refs)
      ensures Disk() == Tree.AddChild(old(Disk()), parent, child)
    {
      slots.At(parent).value.AddChild(child);
    }

    method UnlinkChild(parent: nat, child: nat)
      requires Shape() && Live(Disk(), parent)
      modifies Repr
      ensures Shape() && Repr == old(Repr) && names == old(names) && refs == old(refs)
      ensures Disk() == Tree.RemoveChild(old(Disk()), parent, child)
    {
      slots.At(parent).value.RemoveChild(child);
    }

    method FreeSlot(slot: nat)
      requires Shape() && Live(Disk(), slot)
      modifies Repr
      ensures Shape() && Repr == old(Repr) && names == old(names) && refs == old(refs)
      ensures Disk() == Drop(old(Disk()), slot)
    {
      slots.Free(slot);
    }

    /** Stores a node object in the slot the allocator picks. */
    method Insert(node: MemNode) returns (slot: nat)
      requires Shape() && node.Valid() && node !in Repr && node.data !in Repr
      modifies `Repr, slots, node`slot
      ensures Shape() && Repr == old(Repr) + {node, node.data} && names == old(names) && refs == old(refs)
      ensures slot == Fresh(old(Disk()))
      ensures Disk() == Put(old(Disk()), node.Snapshot())
      ensures node.Valid() && node.Snapshot() == old(node.Snapshot())
    {
      hide DiskUpTo, SlotAllocator.Valid, Fresh, LargestFree;
      ghost var fs := Disk();
      SameFresh(fs, slots.slots);
      slot := slots.Alloc(node);
      node.slot := slot;
      Repr := Repr + {node, node.data};
      assert Shape();
      hide Shape;
      assert |Disk()| == |Put(fs, node.Snapshot())|;
    }

    method NewNode(name: string, parent: nat, isDir: bool) returns (slot: nat)
      requires Shape()
      modifies `Repr, slots
      ensures Shape() && fresh(Repr - old(Repr))
      ensures slot == Fresh(old(Disk()))
      ensures Disk() == Put(old(Disk()), Tree.Node(name, parent, isDir, 0, [], 0, []))
    {
      hide DiskUpTo, Disk;
      var node := new MemNode();
      node.Place(name, parent, isDir);
      slot := Insert(node);
    }

    /** The steps that `Creat` and `Mkdir` share; the link of a file counts as one use. */
    method NewChild(name: string, parent: nat, isDir: bool) returns (slot: nat)
      requires Shape() && Tree.IsDir(Disk(), parent)
      modifies `Repr, Repr
      ensures Shape() && fresh(Repr - old(Repr)) && names == old(names) && refs == old(refs)
      ensures slot == Fresh(old(Disk()))
      ensures Disk() == Tree.AddChild(Put(old(Disk()), Tree.NewNode(name, parent, isDir)), parent, slot)
    {
      ghost var fs := Disk();
      slot := NewNode(name, parent, isDir);
      LinkChild(parent, slot);
      if !isDir {
        Tree.PutThenCount(fs, Tree.Node(name, parent, false, 0, [], 0, []), parent);
        Count(slot, 1);
      }
    }

    // ---------------------------------------------------------- Changing the tree

    static method LastName(path: string) returns (name: string)
      requires Canon(path) != []
      ensures name == Tree.Last(Canon(path))
    {
      var ph := new PathHandle(path);
      name := ph.Last();
    }

    method Creat(path: string) returns (r: Result<nat>)
      requires Valid() && path != ""
      modifies this, Repr
      ensures Valid() && fresh(Repr - old(Repr)) && refs == old(refs)
      ensures (Disk(), r) == Tree.Creat(old(Disk()), path)
      ensures names == FlatFs.Creat(Tree.View(old(Disk()), old(names)), Canon(path)).0.names
    {
      hide Shape, Disk, Tree.Inv, Tree.GetSlot, Tree.GetParentSlot, Tree.Creat, FlatFs.Creat, Canon;
      ghost var fs, names' := Disk(), FlatFs.Creat(Tree.View(Disk(), names), Canon(path)).0.names;
      TreeProofs.CreatOutcome(fs, names, refs, path);
      var parentSlot := GetParentSlot(path);
      if parentSlot == -1 {
        return Fail(ENOTDIR);
      }
      var isDir := IsDirectory(parentSlot);
      if !isDir {
        return Fail(ENOTDIR);
      }
      var child := GetSlot(path);
      if child != -1 {
        return Fail(EEXIST);
      }
      var name := LastName(path);
      var slot := NewChild(name, parentSlot, false);
      names := names';
      return Ok(slot);
    }

    method Mkdir(path: string) returns (r: Result<nat>)
      requires Valid() && path != ""
      modifies this, Repr
      ensures Valid() && fresh(Repr - old(Repr)) && refs == old(refs)
      ensures (Disk(), r) == Tree.Mkdir(old(Disk()), path)
      ensures names == FlatFs.Mkdir(Tree.View(old(Disk()), old(names)), Canon(path)).0.names
    {
      hide Shape, Disk, Tree.Inv, Tree.GetSlot, Tree.GetParentSlot, Tree.Mkdir, FlatFs.Mkdir, Canon;
      ghost var fs, names' := Disk(), FlatFs.Mkdir(Tree.View(Disk(), names), Canon(path)).0.names;
      TreeProofs.MkdirOutcome(fs, names, refs, path);
      var child := GetSlot(path);
      if child != -1 {
        return Fail(EEXIST);
      }
      var parentSlot := GetParentSlot(path);
      if parentSlot == -1 {
        return Fail(ENOENT);
      }
      var isDir := IsDirectory(parentSlot);
      if !isDir {
        return Fail(ENOTDIR);
      }
      var name := LastName(path);
      var slot := NewChild(name, parentSlot, true);
      names := names';
      return Ok(slot);
    }

    method Ref(slot: nat)
      requires Valid()
      modifies this, Repr
      ensures Valid() && Repr == old(Repr) && names == old(names)
      ensures Disk() == Tree.Ref(old(Disk()), slot)
      ensures refs == if Live(old(Disk()), slot) then old(refs) + multiset{slot} else old(refs)
    {
      hide Tree.Inv;
      ghost var fs := Disk();
      if slots.At(slot).None? {
        return;
      }
      TreeProofs.RefKeepsInv(fs, names, refs, slot);
      Count(slot, 1);
      refs := refs + multiset{slot};
    }

    /** The invariant survives if the reference was held, or if nothing counts references to the node. */
    method Unref(slot: nat)
      requires Valid()
      modifies this, Repr
      ensures Shape() && Repr == old(Repr) && names == old(names)
      ensures Disk() == Tree.Unref(old(Disk()), slot)
      ensures refs == old(refs) - multiset{slot}
      ensures Valid() <==> slot in old(refs) || !Live(old(Disk()), slot) || Tree.IsDir(old(Disk()), slot)
    {
      hide Tree.Inv, Tree.Unref, Shape, Disk;
      Apart();
      TreeProofs.UnrefRefines(Disk(), names, refs, slot);
      refs := refs - multiset{slot};
      UnrefNode(slot);
    }

    /** `Unref` as far as the tables go. */
    method UnrefNode(slot: nat)
      requires Shape()
      modifies Repr
      ensures Shape() && Repr == old(Repr) && names == old(names) && refs == old(refs)
      ensures Disk() == Tree.Unref(old(Disk()), slot)
    {
      ghost var fs := Disk();
      var node := slots.At(slot);
      if node.None? || node.value.isDir {
        return;
      }
      Count(slot, -1);
      if slots.At(slot).value.useCount > 0 {
        return;
      }
      FreeSlot(slot);
      assert Disk() == Drop(fs, slot);
    }

    method Unlink(path: string) returns (r: Result<nat>)
      requires Valid()
      modifies this, Repr
      ensures Valid() && Repr == old(Repr) && refs == old(refs)
      ensures (Disk(), r) == Tree.Unlink(old(Disk()), path)
      ensures var p := Canon(path);
              names == if r.Ok? then old(names) - {p} else old(names)
    {
      hide Shape, Disk, Tree.Inv, Tree.GetSlot, Tree.GetParentSlot, Tree.Unlink, Tree.Unref, Tree.RemoveChild, Canon;
      TreeProofs.UnlinkOutcome(Disk(), names, refs, path);
      var slot := GetSlot(path);
      if slot == -1 {
        return Fail(ENOENT);
      }
      var parentSlot := GetParentSlot(path);
      if parentSlot == -1 {
        return Fail(EBUSY);
      }
      var isDir := IsDirectory(slot);
      if isDir {
        return Fail(EISDIR);
      }
      UnlinkChild(parentSlot, slot);
      names, refs := names - {Canon(path)}, refs + multiset{slot};
      Unref(slot);
      return Ok(0);
    }

    /** The invariant survives unless the root or an open directory is removed; the code does not check it. */
    method Rmdir(slot: nat) returns (r: Result<nat>)
      requires Valid()
      modifies this, Repr
      ensures Shape() && Repr == old(Repr) && refs == old(refs)
      ensures (Disk(), r) == Tree.Rmdir(old(Disk()), slot)
      ensures names == FlatFs.Rmdir(Tree.View(old(Disk()), old(names)), slot).0.names
      ensures Valid() <==> (r.Ok? ==> slot != 0 && slot !in old(refs))
    {
      hide DiskUpTo, Tree.Inv;
      ghost var fs := Disk();
      TreeProofs.RmdirRefines(fs, names, refs, slot);
      var node := slots.At(slot);
      if node.None? {
        return Fail(ENOENT);
      }
      if !node.value.isDir {
        return Fail(ENOTDIR);
      }
      if |node.value.children| > 0 {
        return Fail(ENOTEMPTY);
      }
      if slot != 0 {
        TreeProofs.ParentIsLive(fs, names, refs, slot);
        UnlinkChild(node.value.parent, slot);
      }
      FreeSlot(slot);
      names := FlatFs.Rmdir(Tree.View(fs, names), slot).0.names;
      return Ok(0);
    }

    // ---------------------------------------------------------- Contents

    method Read(slot: nat, offset: nat, count: nat) returns (r: Result<Bytes>)
      requires Valid() && Tree.InFile(Disk(), slot, offset)
      ensures r == Tree.Read(Disk(), slot, offset, count)
    {
      hide Tree.Inv;
      var node := slots.At(slot);
      if node.None? {
        return Fail(ENOENT);
      }
      var len := count;
      if len > node.value.len - offset {
        len := node.value.len - offset;
      }
      var bytes := node.value.CopyOut(offset, len);
      ghost var content := Disk()[slot].value.content;
      assert content[offset..|content|] == content[offset..];
      return Ok(bytes);
    }

    /** Grows the buffer of a node; its content stays. */
    method Grow(slot: nat, capacity: nat)
      requires Shape() && Live(Disk(), slot) && NodeAt(slot).capacity < capacity
      modifies `Repr, NodeAt(slot)
      ensures Shape() && fresh(Repr - old(Repr))
      ensures Disk() == old(Disk())[slot := Some(old(Disk())[slot].value.(capacity := capacity))]
    {
      var node := slots.At(slot).value;
      node.ReallocData(capacity);
      Repr := Repr + {node.data};
    }

    method CopyIn(slot: nat, offset: nat, bytes: Bytes)
      requires Shape() && Live(Disk(), slot) && Tree.InFile(Disk(), slot, offset)
      requires offset + |bytes| <= NodeAt(slot).capacity
      modifies NodeAt(slot), NodeAt(slot).data
      ensures Shape()
      ensures var node := old(Disk())[slot].value;
              Disk() == old(Disk())[slot := Some(node.(content := Splice(node.content, offset, bytes)))]
    {
      slots.At(slot).value.CopyIn(offset, bytes);
    }

    method Write(slot: nat, offset: nat, bytes: Bytes) returns (r: Result<nat>)
      requires Valid() && Tree.InFile(Disk(), slot, offset)
      modifies this, Repr
      ensures Valid() && fresh(Repr - old(Repr)) && names == old(names) && refs == old(refs)
      ensures (Disk(), r) == Tree.Write(old(Disk()), slot, offset, bytes)
    {
      hide DiskUpTo, Tree.Inv;
      ghost var fs := Disk();
      var node := slots.At(slot);
      if node.None? {
        return Fail(ENOENT);
      }
      TreeProofs.WriteRefines(fs, names, refs, slot, offset, bytes);
      var len := node.value.capacity;
      if offset + |bytes| > len {
        len := offset + |bytes|;
        var next := (node.value.capacity + 1) * 2;
        if next > len {
          len := next;
        }
        Grow(slot, len);
      }
      CopyIn(slot, offset, bytes);
      assert Disk() == fs[slot := Some(Tree.WriteNode(fs[slot].value, offset, bytes))];
      return Ok(|bytes|);
    }
  }
}
