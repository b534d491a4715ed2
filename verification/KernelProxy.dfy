/**
  The kernel proxy (base/KernelProxy.cc): descriptors, file handles, the working
  directory and the mounts behind them, as objects. Every call does to the
  tables what the function of module Kernels does, and answers like the
  reference of module Worlds.
 */
module KernelProxies {
  import opened Wrappers
  import opened Paths
  import opened Slots
  import opened FlatFs
  import opened Mounts
  import opened Worlds
  import opened Kernels
  import opened SlotAllocators
  import opened PathHandles
  import opened MountManagers
  import opened MemMounts
  import KernelProofs
  import Theorems
  import Tree
  import Rights = Access

  class FileHandle {
    var mount: MemMount
    var node: nat
    var offset: int
    var flags: Flags
    var useCount: int

    constructor (mount: MemMount, node: nat, offset: int, flags: Flags)
      ensures this.mount == mount && this.node == node && this.offset == offset
      ensures this.flags == flags && this.useCount == 1
    {
      this.mount := mount;
      this.node := node;
      this.offset := offset;
      this.flags := flags;
      this.useCount := 1;
    }

    ghost function Snapshot(): Handle<MemMount>
      reads this
    {
      Handle(mount, node, offset, flags, useCount)
    }
  }

  class KernelProxy {
    var cwd: PathHandle
    var mm: MountManager<MemMount>
    /** A descriptor holds the index of its handle. */
    var fds: SlotAllocator<nat>
    var openFiles: SlotAllocator<FileHandle>

    /** Every mount that a path or a handle can lead to. */
    ghost var mounts: set<MemMount>
    /** The reference world this proxy stands for. */
    ghost var world: World<MemMount>
    /** The objects of the proxy itself, and those of the mounts. */
    ghost var Own: set<object>
    ghost var Reach: set<object>

    ghost predicate OwnShape()
      reads `cwd, `mm, `fds, `openFiles, `mounts, `Own, Own
    {
      && this !in Own && cwd in Own && mm in Own && fds in Own && openFiles in Own
      && cwd.Valid() && cwd.isAbsolute && mm.Valid() && fds.Valid() && openFiles.Valid()
      && fds as object != openFiles as object
      && (forall i | Live(openFiles.slots, i) ::
            openFiles.slots[i].value in Own && openFiles.slots[i].value.mount in mounts)
      && (forall i, j | Live(openFiles.slots, i) && Live(openFiles.slots, j) && i != j ::
            openFiles.slots[i].value != openFiles.slots[j].value)
      && (forall key | key in mm.mountMap && mm.mountMap[key].Some? :: mm.mountMap[key].value in mounts)
    }

    /** The mounts share no objects with each other or with the proxy. */
    ghost predicate MountShape()
      reads `mounts, `Own, `Reach, Reach
    {
      && this !in Reach && Own !! Reach
      && (forall m | m in mounts :: m in Reach && m.Repr <= Reach && m.Valid())
      && (forall m, m' | m in mounts && m' in mounts && m != m' ::
            m !in m'.Repr && m' !in m.Repr && m.Repr !! m'.Repr)
    }

    ghost function FilesUpTo(n: nat): (files: Table<Handle<MemMount>>)
      requires OwnShape() && n <= |openFiles.slots|
      reads `cwd, `mm, `fds, `openFiles, `mounts, `Own, Own
      ensures |files| == n
      ensures forall i | 0 <= i < n ::
                files[i] == if openFiles.slots[i].None? then None else Some(openFiles.slots[i].value.Snapshot())
    {
      if n == 0 then []
      else
        var x := openFiles.slots[n - 1];
        FilesUpTo(n - 1) + [if x.None? then None else Some(x.value.Snapshot())]
    }

    ghost function Files(): Table<Handle<MemMount>>
      requires OwnShape()
      reads `cwd, `mm, `fds, `openFiles, `mounts, `Own, Own
    {
      FilesUpTo(|openFiles.slots|)
    }

    ghost function Disks(): (disks: map<MemMount, Tree.Disk>)
      requires MountShape()
      reads `mounts, `Own, `Reach, Reach
    {
      map m | m in mounts :: m.Disk()
    }

    ghost predicate Shape()
      reads `cwd, `mm, `fds, `openFiles, `mounts, `Own, Own, `Reach, Reach
      ensures Shape() ==> this !in Own && this !in Reach
    {
      OwnShape() && MountShape()
    }

    /** The state as a value. */
    ghost function Model(): (k: Kernel<MemMount>)
      requires Shape()
      reads `cwd, `mm, `fds, `openFiles, `mounts, `Own, Own, `Reach, Reach
      ensures k.disks.Keys == mounts
    {
      Kernel(Disks(), mm.mountMap, fds.slots, Files(), cwd.path)
    }

    ghost predicate Valid()
      reads this, Own, Reach
    {
      Shape() && Linked() && KernelProofs.Sim(Model(), world)
    }

    /** Each mount is referenced by exactly the handles on it. */
    ghost predicate Linked()
      requires Shape()
      reads `cwd, `mm, `fds, `openFiles, `mounts, `Own, Own, `Reach, Reach
    {
      forall m | m in mounts :: m.refs == KernelProofs.Refs(KernelProofs.OpensOf(Model().files), m)
    }

    /** `Init`, over a manager whose only mount is a new one at "/". */
    constructor (manager: MountManager<MemMount>, mount: MemMount)
      requires mount.Valid() && mount.Disk() == Tree.EMPTY_DISK && mount.refs == multiset{}
      requires manager.Valid() && manager.mountMap == map["/" := Some(mount)]
      requires mount !in mount.Repr && manager !in mount.Repr && manager as object != mount as object
      ensures Valid() && Reach == {mount} + mount.Repr
      ensures Own == {cwd, manager, fds, openFiles} && fresh(cwd) && fresh(fds) && fresh(openFiles)
      ensures world == Theorems.BootW({mount}, map["/" := Some(mount)])
    {
      hide FilesUpTo, MemMount.Valid, MemMount.Shape, MemMount.Disk, KernelProofs.Sim;
      var path := new PathHandle("");
      path.SetPath("/");
      assert path.path == [];
      var descriptors := new SlotAllocator<nat>();
      var handles := new SlotAllocator<FileHandle>();
      cwd, mm, fds, openFiles := path, manager, descriptors, handles;
      mounts, world := {mount}, Theorems.BootW({mount}, map["/" := Some(mount)]);
      Own := {path, manager, descriptors, handles};
      Reach := {mount} + mount.Repr;
      new;
      Booted(mount);
    }

    lemma Booted(mount: MemMount)
      requires mounts == {mount} && Reach == {mount} + mount.Repr && mount !in mount.Repr && mount.Valid()
      requires Own == {cwd, mm, fds, openFiles} && Own !! Reach && this !in Own && this !in Reach
      requires cwd.Valid() && mm.Valid() && fds.Valid() && openFiles.Valid() && fds as object != openFiles as object
      requires mount.Disk() == Tree.EMPTY_DISK && mount.refs == multiset{}
      requires mm.mountMap == map["/" := Some(mount)]
      requires cwd.path == [] && cwd.isAbsolute && fds.slots == [] && openFiles.slots == []
      requires world == Theorems.BootW({mount}, map["/" := Some(mount)])
      ensures Valid()
    {
      hide FilesUpTo, MemMount.Valid, MemMount.Shape, MemMount.Disk, KernelProofs.Sim;
      assert OwnShape() && MountShape();
      hide OwnShape, MountShape;
      assert Disks() == map[mount := Tree.EMPTY_DISK];
      assert Files() == [];
      assert Model() == Theorems.BootK({mount}, map["/" := Some(mount)]);
      Theorems.BootSim({mount}, map["/" := Some(mount)]);
    }

    // ---------------------------------------------------------- Changes to the proxy's own tables

    /** Only objects of the proxy itself have changed. */
    twostate lemma OwnLeavesMounts()
      requires old(MountShape())
      requires unchanged(`mounts, `Reach) && unchanged(Reach) && this !in Own && Own !! Reach
      ensures MountShape() && Disks() == old(Disks())
      ensures forall m | m in mounts :: m.refs == old(m.refs)
    {
      hide OwnShape, FilesUpTo, MemMount.Valid, MemMount.Shape, MemMount.Disk;
    }

    method MoveOffset(h: nat, offset: int)
      requires OwnShape() && Live(openFiles.slots, h)
      modifies openFiles.slots[h].value
      ensures OwnShape()
      ensures Files() == old(Files())[h := Some(old(Files())[h].value.(offset := offset))]
    {
      hide FilesUpTo;
      var handle := openFiles.At(h).value;
      handle.offset := offset;
    }

    method AddHandle(m: MemMount, node: nat, offset: int, flags: Flags) returns (slot: nat)
      requires OwnShape() && m in mounts
      modifies `Own, openFiles
      ensures OwnShape() && fresh(Own - old(Own)) && old(Own) <= Own
      ensures slot == Fresh(old(Files()))
      ensures Files() == Put(old(Files()), Handle(m, node, offset, flags, 1))
    {
      hide FilesUpTo;
      SameFresh(Files(), openFiles.slots);
      var handle := new FileHandle(m, node, offset, flags);
      slot := openFiles.Alloc(handle);
      Own := Own + {handle};
    }

    method AddDescriptor(handle: nat) returns (fd: nat)
      requires OwnShape()
      modifies fds
      ensures OwnShape() && Files() == old(Files())
      ensures fd == Fresh(old(fds.slots)) && fds.slots == Put(old(fds.slots), handle)
    {
      hide FilesUpTo;
      fd := fds.Alloc(handle);
    }

    method DropDescriptor(fd: nat)
      requires OwnShape() && Live(fds.slots, fd)
      modifies fds
      ensures OwnShape() && Files() == old(Files()) && fds.slots == Drop(old(fds.slots), fd)
    {
      hide FilesUpTo;
      fds.Free(fd);
    }

    method DropHandle(h: nat)
      requires OwnShape() && Live(openFiles.slots, h)
      modifies openFiles
      ensures OwnShape()
      ensures Files() == Drop(old(Files()), h)
    {
      hide FilesUpTo;
      openFiles.Free(h);
    }

    method MoveTo(h: nat, offset: int)
      requires Shape() && Live(Model().files, h)
      modifies Own
      ensures Shape() && unchanged(`mounts, `world, `Own, `Reach)
      ensures Model() == Kernels.MoveTo(old(Model()), h, offset)
      ensures forall m | m in mounts :: m.refs == old(m.refs)
    {
      hide FilesUpTo, MemMount.Valid, MemMount.Shape, MemMount.Disk;
      MoveOffset(h, offset);
      OwnLeavesMounts();
    }

    method Advance(h: nat, offset: int)
      requires Shape() && Linked() && Live(Model().files, h)
      modifies Own
      ensures Shape() && Linked() && unchanged(`mounts, `world, `Own, `Reach)
      ensures Model() == Kernels.MoveTo(old(Model()), h, offset)
    {
      hide Shape, Model, KernelProofs.Refs, MemMount.Valid;
      KernelProofs.OpensMove(Model().files, h, offset);
      MoveTo(h, offset);
    }

    /** Allocates a handle and a descriptor for it. */
    method OpenDescriptor(m: MemMount, node: nat, offset: int, flags: Flags) returns (fd: nat)
      requires Shape() && m in mounts
      modifies `Own, Own
      ensures Shape() && fresh(Own - old(Own)) && unchanged(`mounts, `world, `Reach)
      ensures var k := old(Model());
              && fd == Fresh(k.fds)
              && Model() == k.(files := Put(k.files, Handle(m, node, offset, flags, 1)),
                               fds := Put(k.fds, Fresh(k.files)))
      ensures forall m' | m' in mounts :: m'.refs == old(m'.refs)
    {
      hide FilesUpTo, MemMount.Valid, MemMount.Shape, MemMount.Disk;
      var slot := AddHandle(m, node, offset, flags);
      fd := AddDescriptor(slot);
      OwnLeavesMounts();
    }

    /** Frees a descriptor, and its handle when the descriptor was its only use. */
    method CloseDescriptor(fd: nat) returns (m: MemMount, node: nat)
      requires Shape() && Live(Model().fds, fd)
      requires var h := Model().fds[fd].value; Live(Model().files, h) && Model().files[h].value.useCount == 1
      modifies Own
      ensures Shape() && unchanged(`mounts, `world, `Own, `Reach)
      ensures var k := old(Model());
              var h := k.fds[fd].value;
              && m == k.files[h].value.mount && node == k.files[h].value.node && m in mounts
              && Model() == k.(fds := Drop(k.fds, fd), files := Drop(k.files, h))
      ensures forall m' | m' in mounts :: m'.refs == old(m'.refs)
    {
      hide FilesUpTo, MemMount.Valid, MemMount.Shape, MemMount.Disk;
      var h := fds.At(fd).value;
      var handle := openFiles.At(h).value;
      m, node := handle.mount, handle.node;
      DropDescriptor(fd);
      DropHandle(h);
      OwnLeavesMounts();
    }

    /** `cwd_ = ph`. */
    method SetCwd(ph: PathHandle)
      requires Shape() && ph.Valid() && ph.isAbsolute && ph !in Own && ph !in Reach
      modifies `cwd, `Own
      ensures Shape() && Own == old(Own) + {ph} && unchanged(`mounts, `world, `Reach)
      ensures Model() == old(Model()).(cwd := ph.path)
    {
      hide FilesUpTo, MemMount.Valid, MemMount.Shape, MemMount.Disk;
      cwd := ph;
      Own := Own + {ph};
      OwnLeavesMounts();
    }

    // ---------------------------------------------------------- Calls into one mount

    /** Of all objects only those of mount `m` have changed, and it may have new ones. */
    twostate predicate OnlyMount(m: MemMount)
      reads *
    {
      && m in mounts && unchanged(`cwd, `mm, `fds, `openFiles, `mounts, `Own)
      && unchanged(Own)
      && (forall o | o in old(Reach) && o != m && o !in old(m.Repr) :: unchanged(o))
      && m.Valid() && fresh(m.Repr - old(m.Repr))
      && Reach == old(Reach) + m.Repr
    }

    twostate lemma OnlyMountKeepsOwn(m: MemMount)
      requires old(OwnShape()) && OnlyMount(m)
      ensures OwnShape() && Files() == old(Files())
    {
      hide FilesUpTo, MemMount.Valid;
    }

    twostate lemma OnlyMountKeepsOthers(m: MemMount)
      requires old(OwnShape() && MountShape()) && OnlyMount(m)
      ensures MountShape()
      ensures Disks() == old(Disks())[m := m.Disk()]
      ensures forall m' | m' in mounts && m' != m :: m'.refs == old(m'.refs)
    {
      hide OwnShape, FilesUpTo, MemMount.Valid, MemMount.Shape, MemMount.Disk;
    }

    method MountCreat(m: MemMount, path: string) returns (r: Result<nat>)
      requires Shape() && m in mounts && path != ""
      modifies `Reach, Reach
      ensures Shape() && fresh(Reach - old(Reach)) && unchanged(`mounts, `world, `Own)
      ensures var (disk, r') := Tree.Creat(old(Model()).disks[m], path);
              r == r' && Model() == old(Model()).(disks := old(Model()).disks[m := disk])
      ensures forall m' | m' in mounts :: m'.refs == old(m'.refs)
    {
      hide FilesUpTo, MemMount.Valid, MemMount.Shape, MemMount.Disk;
      r := m.Creat(path);
      Reach := Reach + m.Repr;
      OnlyMountKeepsOwn(m);
      OnlyMountKeepsOthers(m);
    }

    method MountMkdir(m: MemMount, path: string) returns (r: Result<nat>)
      requires Shape() && m in mounts && path != ""
      modifies `Reach, Reach
      ensures Shape() && fresh(Reach - old(Reach)) && unchanged(`mounts, `world, `Own)
      ensures var (disk, r') := Tree.Mkdir(old(Model()).disks[m], path);
              r == r' && Model() == old(Model()).(disks := old(Model()).disks[m := disk])
      ensures forall m' | m' in mounts :: m'.refs == old(m'.refs)
    {
      hide FilesUpTo, MemMount.Valid, MemMount.Shape, MemMount.Disk;
      r := m.Mkdir(path);
      Reach := Reach + m.Repr;
      OnlyMountKeepsOwn(m);
      OnlyMountKeepsOthers(m);
    }

    method MountUnlink(m: MemMount, path: string) returns (r: Result<nat>)
      requires Shape() && m in mounts && path != ""
      modifies `Reach, Reach
      ensures Shape() && fresh(Reach - old(Reach)) && unchanged(`mounts, `world, `Own)
      ensures var (disk, r') := Tree.Unlink(old(Model()).disks[m], path);
              r == r' && Model() == old(Model()).(disks := old(Model()).disks[m := disk])
      ensures forall m' | m' in mounts :: m'.refs == old(m'.refs)
    {
      hide FilesUpTo, MemMount.Valid, MemMount.Shape, MemMount.Disk;
      r := m.Unlink(path);
      Reach := Reach + m.Repr;
      OnlyMountKeepsOwn(m);
      OnlyMountKeepsOthers(m);
    }

    method MountRmdir(m: MemMount, node: nat) returns (r: Result<nat>)
      requires Shape() && m in mounts
      requires Tree.Rmdir(Model().disks[m], node).1.Ok? ==> node != 0 && node !in m.refs
      modifies `Reach, Reach
      ensures Shape() && fresh(Reach - old(Reach)) && unchanged(`mounts, `world, `Own)
      ensures var (disk, r') := Tree.Rmdir(old(Model()).disks[m], node);
              r == r' && Model() == old(Model()).(disks := old(Model()).disks[m := disk])
      ensures forall m' | m' in mounts :: m'.refs == old(m'.refs)
    {
      hide FilesUpTo, MemMount.Valid, MemMount.Shape, MemMount.Disk;
      r := m.Rmdir(node);
      Reach := Reach + m.Repr;
      OnlyMountKeepsOwn(m);
      OnlyMountKeepsOthers(m);
    }

    method MountWrite(m: MemMount, node: nat, offset: nat, bytes: Bytes) returns (r: Result<nat>)
      requires Shape() && m in mounts
      requires Tree.InFile(Model().disks[m], node, offset)
      modifies `Reach, Reach
      ensures Shape() && fresh(Reach - old(Reach)) && unchanged(`mounts, `world, `Own)
      ensures var (disk, r') := Tree.Write(old(Model()).disks[m], node, offset, bytes);
              r == r' && Model() == old(Model()).(disks := old(Model()).disks[m := disk])
      ensures forall m' | m' in mounts :: m'.refs == old(m'.refs)
    {
      hide FilesUpTo, MemMount.Valid, MemMount.Shape, MemMount.Disk;
      r := m.Write(node, offset, bytes);
      Reach := Reach + m.Repr;
      OnlyMountKeepsOwn(m);
      OnlyMountKeepsOthers(m);
    }

    method MountRef(m: MemMount, node: nat)
      requires Shape() && m in mounts && Live(Model().disks[m], node)
      modifies `Reach, Reach
      ensures Shape() && fresh(Reach - old(Reach)) && unchanged(`mounts, `world, `Own)
      ensures Model() == old(Model()).(disks := old(Model()).disks[m := Tree.Ref(old(Model()).disks[m], node)])
      ensures m.refs == old(m.refs) + multiset{node}
      ensures forall m' | m' in mounts && m' != m :: m'.refs == old(m'.refs)
    {
      hide FilesUpTo, MemMount.Valid, MemMount.Shape, MemMount.Disk;
      m.Ref(node);
      Reach := Reach + m.Repr;
      OnlyMountKeepsOwn(m);
      OnlyMountKeepsOthers(m);
    }

    method MountUnref(m: MemMount, node: nat)
      requires Shape() && m in mounts && node in m.refs
      modifies `Reach, Reach
      ensures Shape() && fresh(Reach - old(Reach)) && unchanged(`mounts, `world, `Own)
      ensures Model() == old(Model()).(disks := old(Model()).disks[m := Tree.Unref(old(Model()).disks[m], node)])
      ensures m.refs == old(m.refs) - multiset{node}
      ensures forall m' | m' in mounts && m' != m :: m'.refs == old(m'.refs)
    {
      hide FilesUpTo, MemMount.Valid, MemMount.Shape, MemMount.Disk;
      m.Unref(node);
      Reach := Reach + m.Repr;
      OnlyMountKeepsOwn(m);
      OnlyMountKeepsOthers(m);
    }

    // ---------------------------------------------------------- Paths and lookups

    /** A path handle in canonical form, and the text it prints. */
    static method Canonical(path: string) returns (ph: PathHandle, text: string)
      ensures fresh(ph) && ph.Valid() && ph.path == Canon(path) && ph.isAbsolute == IsAbsolute(path)
      ensures text == CanonicalString(path)
    {
      ph := new PathHandle(path);
      CanonIsCanonical(path);
      CanonicalIsFixed([], Canon(path));
      text := ph.FormulatePath();
    }

    method PrintCwd() returns (text: string)
      requires OwnShape() && IsCanonical(cwd.path)
      modifies cwd
      ensures OwnShape() && Files() == old(Files())
      ensures cwd.path == old(cwd.path) && text == Print(true, cwd.path)
    {
      hide FilesUpTo;
      CanonicalIsFixed([], cwd.path);
      text := cwd.FormulatePath();
    }

    /** The text of the working directory; printing collapses it, which changes nothing. */
    method CwdText() returns (text: string)
      requires Shape() && IsCanonical(Model().cwd)
      modifies Own
      ensures Shape() && Model() == old(Model()) && text == Print(true, Model().cwd)
      ensures forall m | m in mounts :: m.refs == old(m.refs)
    {
      hide FilesUpTo, MemMount.Valid, MemMount.Shape, MemMount.Disk;
      text := PrintCwd();
      OwnLeavesMounts();
    }

    /** A copy of the working directory with the path set or appended, as most calls resolve paths. */
    method Resolve(path: string) returns (ph: PathHandle, text: string)
      requires Shape() && path != ""
      ensures fresh(ph) && ph.Valid() && ph.isAbsolute
      ensures ph.path == ResolveJoinFirst(Model().cwd, path) && text == Print(true, ph.path)
    {
      ph := new PathHandle.Copy(cwd);
      if path[0] == SEP {
        ph.SetPath(path);
      } else {
        ph.AppendPath(path);
      }
      text := ph.FormulatePath();
    }

    method RouteTo(path: string) returns (m: Option<MemMount>, rest: string)
      requires Shape()
      ensures (m, rest) == GetMount(Model().table, path)
      ensures m.Some? ==> m.value in mounts
      ensures path != "" ==> rest != ""
    {
      RouteOrNothing(mm.mountMap, path);
      m, rest := mm.GetMount(path);
    }

    /** `MountManager::GetNode`. */
    method GetNode(path: string) returns (found: Option<(MemMount, nat)>)
      requires Shape()
      ensures found == FindNode(Model(), path)
      ensures found.Some? ==> found.value.0 in mounts
    {
      hide FilesUpTo, MemMount.Valid, MemMount.Shape, MemMount.Disk;
      if path == "" || path[0] != SEP {
        return None;
      }
      var m, rest := RouteTo(path);
      if m.None? {
        return None;
      }
      var r := m.value.GetNode(rest);
      if r.Fail? {
        return None;
      }
      return Some((m.value, r.value.ino));
    }

    /** The static function `is_dir`. */
    method IsDirectory(m: MemMount, node: nat) returns (isDir: bool)
      requires Shape() && m in mounts
      ensures isDir == Tree.IsDir(Model().disks[m], node)
    {
      hide MemMount.Valid, MemMount.Shape, MemMount.Disk;
      var r := m.Stat(node);
      isDir := r.Ok? && r.value.isDir;
    }

    method MountGetNode(m: MemMount, path: string) returns (r: Result<Tree.Stat>)
      requires Shape() && m in mounts
      ensures r == Tree.GetNode(Model().disks[m], path)
    {
      hide MemMount.Valid, MemMount.Shape, MemMount.Disk;
      r := m.GetNode(path);
    }

    method MountStat(m: MemMount, node: nat) returns (r: Result<Tree.Stat>)
      requires Shape() && m in mounts
      ensures r == Tree.StatOf(Model().disks[m], node)
    {
      hide MemMount.Valid, MemMount.Shape, MemMount.Disk;
      r := m.Stat(node);
    }

    method MountRead(m: MemMount, node: nat, offset: nat, count: nat) returns (r: Result<Bytes>)
      requires Shape() && m in mounts && Tree.InFile(Model().disks[m], node, offset)
      ensures r == Tree.Read(old(Model()).disks[m], node, offset, count)
    {
      hide MemMount.Valid, MemMount.Shape, MemMount.Disk;
      r := m.Read(node, offset, count);
    }

    method IsOpen(fd: int) returns (open: bool)
      requires Shape()
      ensures open == Live(Model().fds, fd)
    {
      open := fds.At(fd).Some?;
    }

    /** The index of the handle of a descriptor, and what the handle holds. */
    method GetFileHandle(fd: int) returns (found: Option<(nat, Handle<MemMount>)>)
      requires Shape()
      ensures found == match HandleOf(Model(), fd) case None => None case Some(h) => Some((h, Model().files[h].value))
      ensures found.Some? ==> found.value.1.mount in mounts
    {
      hide MemMount.Valid, MemMount.Shape, MemMount.Disk;
      var h := fds.At(fd);
      if h.None? {
        return None;
      }
      var handle := openFiles.At(h.value);
      if handle.None? {
        return None;
      }
      var o := handle.value;
      return Some((h.value, Handle(o.mount, o.node, o.offset, o.flags, o.useCount)));
    }

    // ---------------------------------------------------------- The calls

    method MkDir(path: string) returns (reply: Reply)
      requires Shape() && Linked()
      modifies `Reach, Own, Reach
      ensures Shape() && Linked() && unchanged(`mounts, `world)
      ensures fresh(Own - old(Own)) && fresh(Reach - old(Reach))
      ensures (Model(), reply) == MkDirK(old(Model()), path)
    {
      hide Shape, Model, KernelProofs.Refs, ResolveJoinFirst, GetMount, Tree.Mkdir, MemMount.Valid;
      if path == "" {
        return Error(None);
      }
      var ph, text := Resolve(path);
      var m, rest := RouteTo(text);
      if m.None? {
        return Error(Some(ENOTDIR));
      }
      var r := MountMkdir(m.value, rest);
      return Answer(r);
    }

    method RmDir(path: string) returns (reply: Reply)
      requires Valid() && Legal(world, Call.RmDir(path))
      modifies `Reach, Own, Reach
      ensures Shape() && Linked() && unchanged(`mounts, `world)
      ensures fresh(Own - old(Own)) && fresh(Reach - old(Reach))
      ensures (Model(), reply) == RmDirK(old(Model()), path)
    {
      hide Shape, Model, KernelProofs.Refs, KernelProofs.Sim, GetMount, Tree.Rmdir, Rmdir, MemMount.Valid;
      KernelProofs.FindNodeIsLookup(Model(), world, path);
      var found := GetNode(path);
      if found.None? {
        return Error(Some(ENOENT));
      }
      var (m, node) := found.value;
      KernelProofs.DirIsFree(Model(), world, m, node);
      var r := MountRmdir(m, node);
      return Answer(r);
    }

    method Remove(path: string) returns (reply: Reply)
      requires Valid() && Legal(world, Call.Remove(path))
      modifies `Reach, Own, Reach
      ensures Shape() && Linked() && unchanged(`mounts, `world)
      ensures fresh(Own - old(Own)) && fresh(Reach - old(Reach))
      ensures (Model(), reply) == RemoveK(old(Model()), path)
    {
      hide Shape, Model, KernelProofs.Refs, KernelProofs.Sim, GetMount;
      hide Tree.Rmdir, Rmdir, Tree.Unlink, Tree.GetNode, MemMount.Valid;
      KernelProofs.RemovedDirIsFree(Model(), world, path);
      var m, rest := RouteTo(path);
      if m.None? {
        return Error(Some(ENOENT));
      }
      var st := MountGetNode(m.value, rest);
      if st.Fail? {
        return Error(Some(ENOENT));
      }
      var r := RemoveFrom(m.value, rest, st.value);
      return Answer(r);
    }

    /** Directories are removed by slot, files by name. */
    method RemoveFrom(m: MemMount, rest: string, st: Tree.Stat) returns (r: Result<nat>)
      requires Shape() && Linked() && m in mounts && rest != ""
      requires st.isDir && Tree.Rmdir(Model().disks[m], st.ino).1.Ok? ==> st.ino != 0 && st.ino !in m.refs
      modifies `Reach, Reach
      ensures Shape() && Linked() && fresh(Reach - old(Reach)) && unchanged(`mounts, `world, `Own)
      ensures var k := old(Model());
              var (disk, r') := if st.isDir then Tree.Rmdir(k.disks[m], st.ino) else Tree.Unlink(k.disks[m], rest);
              r == r' && Model() == k.(disks := k.disks[m := disk])
    {
      hide Shape, Model, KernelProofs.Refs, Tree.Rmdir, Tree.Unlink, MemMount.Valid;
      if st.isDir {
        r := MountRmdir(m, st.ino);
      } else {
        r := MountUnlink(m, rest);
      }
    }

    /** The last steps of `chdir`: the old working directory must still be mounted. */
    method EnterDirectory(ph: PathHandle) returns (reply: Reply)
      requires Shape() && Linked() && IsCanonical(Model().cwd)
      requires ph.Valid() && ph.isAbsolute && ph !in Own && ph !in Reach
      modifies `cwd, `Own, Own
      ensures Shape() && Linked() && unchanged(`mounts, `world, `Reach) && Own <= old(Own) + {ph}
      ensures var k := old(Model());
              (Model(), reply) == if GetMount(k.table, Print(true, k.cwd)).0.None? then (k, Error(None))
                                  else (k.(cwd := old(ph.path)), Done(0))
    {
      hide Shape, Model, KernelProofs.Refs, GetMount, MemMount.Valid;
      var here := CwdText();
      var m, rest := RouteTo(here);
      if m.None? {
        return Error(None);
      }
      SetCwd(ph);
      return Done(0);
    }

    method ChDir(path: string) returns (reply: Reply)
      requires Shape() && Linked() && IsCanonical(Model().cwd)
      modifies `cwd, `Own, Own
      ensures Shape() && Linked() && unchanged(`mounts, `world, `Reach)
      ensures fresh(Own - old(Own))
      ensures (Model(), reply) == ChDirK(old(Model()), path)
    {
      hide Shape, Model, Linked, ResolveJoinFirst, GetMount, FindNode, MemMount.Valid;
      if path == "" {
        return Error(None);
      }
      var ph, text := Resolve(path);
      var found := GetNode(text);
      if found.None? {
        return Error(Some(ENOENT));
      }
      var isDir := IsDirectory(found.value.0, found.value.1);
      if !isDir {
        return Error(Some(ENOTDIR));
      }
      reply := EnterDirectory(ph);
    }

    method StatPath(path: string) returns (reply: Reply)
      requires Shape()
      ensures reply == StatK(Model(), path)
    {
      hide Shape, Model, FindNode, MemMount.Valid;
      var found := GetNode(path);
      if found.None? {
        return Error(Some(ENOENT));
      }
      var r := MountStat(found.value.0, found.value.1);
      return Described(r);
    }

    /** The path that `access` takes apart: joined to the working directory, and not collapsed. */
    method RawPath(path: string) returns (components: Path)
      requires Shape() && path != ""
      ensures components == Rights.RawComponents(Model().cwd, path)
    {
      var ph := new PathHandle.Copy(cwd);
      if path[0] == SEP {
        ph.SetPath(path);
      } else {
        ph.AppendPath(path);
      }
      return ph.path;
    }

    static method BuildPaths(components: Path) returns (paths: seq<string>)
      ensures paths == Rights.IncrementalPaths("/", components)
    {
      hide Rights.IncrementalPaths;
      var curr := "/";
      paths := [curr];
      ghost var front: seq<string> := [];
      for i := 0 to |components|
        invariant paths == front + [curr]
        invariant front + Rights.IncrementalPaths(curr, components[i..]) == Rights.IncrementalPaths("/", components)
      {
        Rights.PathsFrom(curr, components[i..]);
        assert components[i..][1..] == components[i + 1..];
        front := front + [curr];
        curr := curr + "/" + components[i];
        paths := paths + [curr];
      }
      Rights.PathsFrom(curr, []);
    }

    method Access(path: string, amode: bv16) returns (reply: Reply)
      requires Shape()
      ensures reply == Rights.AccessK(Model(), path, amode)
    {
      if path == "" {
        return Error(Some(ENOENT));
      }
      hide Shape, Model, Rights.CheckAll, Rights.AccessFrom, Rights.RawComponents;
      var components := RawPath(path);
      var paths := BuildPaths(components);
      reply := CheckPaths(paths, amode);
      Rights.CheckedAlongTheWay(Model(), "/", components, amode);
    }

    method CheckPaths(paths: seq<string>, amode: bv16) returns (reply: Reply)
      requires Shape()
      ensures reply == Rights.CheckAll(Model(), paths, amode)
    {
      hide Shape, Model, StatK, Rights.Denied, Rights.ModeOf;
      ghost var k := Model();
      for i := 0 to |paths|
        invariant Rights.CheckAll(k, paths, amode) == Rights.CheckAll(k, paths[i..], amode)
      {
        assert paths[i..][0] == paths[i] && paths[i..][1..] == paths[i + 1..];
        var st := StatPath(paths[i]);
        if !st.Info? {
          return st;
        }
        if Rights.Denied(Rights.ModeOf(st.isDir), amode) {
          return Error(Some(EACCES));
        }
      }
      return Done(0);
    }

    // ---------------------------------------------------------- Descriptors

    /** The part of `OpenHandle` after the node is found: a reference, a handle and a descriptor. */
    method AttachHandle(m: MemMount, node: nat, flags: Flags) returns (fd: nat, ghost offset: int)
      requires Shape() && m in mounts && Live(Model().disks[m], node)
      modifies `Own, `Reach, Own, Reach
      ensures Shape() && unchanged(`mounts, `world)
      ensures fresh(Own - old(Own)) && fresh(Reach - old(Reach))
      ensures fd == Fresh(old(Model()).fds) && Model() == Kernels.Attach(old(Model()), m, node, flags)
      ensures Model().files == Put(old(Model()).files, Handle(m, node, offset, flags, 1))
      ensures m.refs == old(m.refs) + multiset{node}
      ensures forall m' | m' in mounts && m' != m :: m'.refs == old(m'.refs)
    {
      hide Shape, Model, Tree.Ref, MemMount.Valid;
      var start := 0;
      if flags.append {
        var st := MountStat(m, node);
        start := match st case Ok(s) => s.size case Fail(_) => 0;
      }
      offset := start;
      MountRef(m, node);
      fd := OpenDescriptor(m, node, start, flags);
    }

    method Attach(m: MemMount, node: nat, flags: Flags) returns (fd: nat)
      requires Shape() && Linked() && m in mounts && Live(Model().disks[m], node)
      modifies `Own, `Reach, Own, Reach
      ensures Shape() && Linked() && unchanged(`mounts, `world)
      ensures fresh(Own - old(Own)) && fresh(Reach - old(Reach))
      ensures fd == Fresh(old(Model()).fds) && Model() == Kernels.Attach(old(Model()), m, node, flags)
    {
      hide Shape, Model, KernelProofs.Refs, Kernels.Attach, MemMount.Valid;
      ghost var k, offset := Model(), 0;
      fd, offset := AttachHandle(m, node, flags);
      KernelProofs.OpensPut(k.files, Handle(m, node, offset, flags, 1));
    }

    method OpenHandle(m: MemMount, path: string, flags: Flags) returns (reply: Reply)
      requires Shape() && Linked() && m in mounts && path != ""
      modifies `Own, `Reach, Own, Reach
      ensures Shape() && Linked() && unchanged(`mounts, `world)
      ensures fresh(Own - old(Own)) && fresh(Reach - old(Reach))
      ensures (Model(), reply) == Kernels.OpenHandle(old(Model()), m, path, flags)
    {
      hide Shape, Model, KernelProofs.Refs, Tree.Creat, Tree.GetNode, Kernels.Attach, MemMount.Valid;
      ghost var k := Model();
      Tree.CreatEffect(k.disks[m], path);
      Tree.NodeFoundIsLive(k.disks[m], path);
      var r: Result<nat>;
      if flags.Nonzero() {
        r := MountCreat(m, path);
      } else {
        assert k.disks[m := k.disks[m]] == k.disks;
        var st := MountGetNode(m, path);
        r := match st case Ok(s) => Ok(s.ino) case Fail(e) => Fail(e);
      }
      if r.Fail? {
        assert k.disks[m := k.disks[m]] == k.disks;
        return Error(Some(r.errno));
      }
      var fd := Attach(m, r.value, flags);
      return Done(fd);
    }

    method OpenFull(ph: PathHandle, text: string, flags: Flags) returns (reply: Reply)
      requires Shape() && Linked() && ph.path != [] && text == Print(true, ph.path) && IsName(ph.path[|ph.path| - 1])
      modifies `Own, `Reach, Own, Reach
      ensures Shape() && Linked() && unchanged(`mounts, `world)
      ensures fresh(Own - old(Own)) && fresh(Reach - old(Reach))
      ensures (Model(), reply) == Kernels.OpenFull(old(Model()), old(ph.path), flags)
    {
      hide Shape, Model, Linked, GetMount, Kernels.OpenHandle, MemMount.Valid, CanonicalString;
      var filename := ph.Last();
      var dir, parent := Canonical(text + "/..");
      var m, rest := RouteTo(parent);
      if m.None? {
        return Error(Some(ENOENT));
      }
      KernelProofs.MountRelativePath(rest, filename);
      var name, relative := Canonical(rest + "/" + filename);
      reply := OpenHandle(m.value, relative, flags);
    }

    method Open(path: string, flags: Flags) returns (reply: Reply)
      requires Shape() && Linked() && IsCanonical(Model().cwd) && OpensSomething(path)
      modifies `Own, `Reach, Own, Reach
      ensures Shape() && Linked() && unchanged(`mounts, `world)
      ensures fresh(Own - old(Own)) && fresh(Reach - old(Reach))
      ensures (Model(), reply) == OpenK(old(Model()), path, flags)
    {
      hide Shape, Model, KernelProofs.Refs, Kernels.OpenFull, MemMount.Valid, Canon, CanonicalString;
      KernelProofs.OpenPaths(Model().cwd, path);
      var ph, text := Canonical(path);
      if text == "" {
        return Error(Some(EINVAL));
      }
      if text[0] != SEP {
        ph, text := BelowCwd(text);
      }
      reply := OpenFull(ph, text, flags);
    }

    /** A collapsed relative path is put behind the working directory. */
    method BelowCwd(relative: string) returns (ph: PathHandle, text: string)
      requires Shape() && Linked() && IsCanonical(Model().cwd)
      modifies Own
      ensures Shape() && Linked() && Model() == old(Model()) && unchanged(`mounts, `world, `Own, `Reach)
      ensures fresh(ph) && ph.Valid() && ph.path == Canon(Print(true, Model().cwd) + "/" + relative)
      ensures text == CanonicalString(Print(true, Model().cwd) + "/" + relative)
    {
      hide Shape, Model, KernelProofs.Refs, MemMount.Valid, Canon, CanonicalString;
      var here := CwdText();
      ph, text := Canonical(here + "/" + relative);
    }

    method CloseHandle(fd: nat, ghost m: MemMount, ghost node: nat)
      requires Shape() && Live(Model().fds, fd)
      requires var h := Model().fds[fd].value;
               && Live(Model().files, h) && Model().files[h].value.useCount == 1
               && Model().files[h].value.mount == m && Model().files[h].value.node == node
               && m in mounts && node in m.refs
      modifies `Reach, Own, Reach
      ensures Shape() && unchanged(`mounts, `world, `Own) && fresh(Reach - old(Reach))
      ensures (Model(), Done(0)) == CloseK(old(Model()), fd)
      ensures Model().files == Drop(old(Model()).files, old(Model()).fds[fd].value)
      ensures m.refs == old(m.refs) - multiset{node}
      ensures forall m' | m' in mounts && m' != m :: m'.refs == old(m'.refs)
    {
      hide Shape, Model, Tree.Unref, MemMount.Valid;
      var mount, ino := CloseDescriptor(fd);
      MountUnref(mount, ino);
    }

    method CloseOpen(fd: nat)
      requires Shape() && Linked() && Live(Model().fds, fd)
      requires var h := Model().fds[fd].value;
               Live(Model().files, h) && Model().files[h].value.useCount == 1 && Model().files[h].value.mount in mounts
      modifies `Reach, Own, Reach
      ensures Shape() && Linked() && unchanged(`mounts, `world, `Own) && fresh(Reach - old(Reach))
      ensures (Model(), Done(0)) == CloseK(old(Model()), fd)
    {
      hide Shape, Model, KernelProofs.Refs, MemMount.Valid, CloseK, KernelProofs.OpensOf;
      ghost var h := Model().fds[fd].value;
      ghost var handle := Model().files[h].value;
      KernelProofs.OpensDrop(Model().files, h);
      CloseHandle(fd, handle.mount, handle.node);
    }

    method Close(fd: int) returns (reply: Reply)
      requires Valid()
      modifies `Reach, Own, Reach
      ensures Shape() && Linked() && unchanged(`mounts, `world)
      ensures fresh(Own - old(Own)) && fresh(Reach - old(Reach))
      ensures (Model(), reply) == CloseK(old(Model()), fd)
    {
      hide Shape, Model, Linked, KernelProofs.Sim, CloseK;
      KernelProofs.HandleReady(Model(), world, fd);
      KernelProofs.ClosesNothing(Model(), fd);
      var open := IsOpen(fd);
      if !open {
        return Error(Some(EBADF));
      }
      CloseOpen(fd);
      return Done(0);
    }

    method Read(fd: int, count: nat) returns (reply: Reply)
      requires Shape() && Linked()
      requires UsableK(Model(), fd, O_WRONLY) ==> AtOffsetK(Model(), fd)
      modifies Own
      ensures Shape() && Linked() && unchanged(`mounts, `world, `Own, `Reach)
      ensures (Model(), reply) == ReadK(old(Model()), fd, count)
    {
      hide Shape, Model, KernelProofs.Refs, Tree.Read, MemMount.Valid;
      ghost var k := Model();
      var found := GetFileHandle(fd);
      if found.None? {
        return Error(Some(EBADF));
      }
      var (h, handle) := found.value;
      var isDir := IsDirectory(handle.mount, handle.node);
      if handle.flags.accMode % 4 == O_WRONLY || isDir {
        return Error(Some(EBADF));
      }
      var r := MountRead(handle.mount, handle.node, handle.offset, count);
      if r.Fail? {
        return Error(Some(r.errno));
      }
      Advance(h, handle.offset + |r.value|);
      return Data(r.value);
    }

    method Write(fd: int, bytes: Bytes) returns (reply: Reply)
      requires Shape() && Linked()
      requires UsableK(Model(), fd, O_RDONLY) ==> AtOffsetK(Model(), fd)
      modifies `Reach, Own, Reach
      ensures Shape() && Linked() && unchanged(`mounts, `world)
      ensures fresh(Own - old(Own)) && fresh(Reach - old(Reach))
      ensures (Model(), reply) == WriteK(old(Model()), fd, bytes)
    {
      hide Shape, Model, KernelProofs.Refs, Tree.Write, MemMount.Valid;
      ghost var k := Model();
      var found := GetFileHandle(fd);
      if found.None? {
        return Error(Some(EBADF));
      }
      var (h, handle) := found.value;
      var isDir := IsDirectory(handle.mount, handle.node);
      if handle.flags.accMode % 4 == O_RDONLY || isDir {
        return Error(Some(EBADF));
      }
      Tree.WriteEffect(k.disks[handle.mount], handle.node, handle.offset, bytes);
      var r := MountWrite(handle.mount, handle.node, handle.offset, bytes);
      if r.Fail? {
        assert k.disks[handle.mount := k.disks[handle.mount]] == k.disks;
        return Error(Some(r.errno));
      }
      Advance(h, handle.offset + r.value);
      return Done(r.value);
    }

    method LSeek(fd: int, offset: int, whence: Whence) returns (reply: Reply)
      requires Shape() && Linked()
      modifies Own
      ensures Shape() && Linked() && unchanged(`mounts, `world, `Own, `Reach)
      ensures (Model(), reply) == LSeekK(old(Model()), fd, offset, whence)
    {
      hide Shape, Model, KernelProofs.Refs, MemMount.Valid;
      ghost var k := Model();
      var found := GetFileHandle(fd);
      if found.None? {
        return Error(Some(EBADF));
      }
      var (h, handle) := found.value;
      var isDir := IsDirectory(handle.mount, handle.node);
      if isDir {
        return Error(Some(EBADF));
      }
      var next;
      match whence {
        case SeekSet =>
          next := offset;
        case SeekCur =>
          next := handle.offset + offset;
        case SeekEnd =>
          var r := MountStat(handle.mount, handle.node);
          if r.Fail? {
            return Error(Some(r.errno));
          }
          next := r.value.size - offset;
        case SeekOther =>
          return Error(Some(EINVAL));
      }
      if next < 0 {
        return Error(Some(EINVAL));
      }
      MoveTo(h, next);
      KernelProofs.OpensMove(k.files, h, next);
      return Done(next);
    }

    method FStat(fd: int) returns (reply: Reply)
      requires Shape()
      ensures reply == FStatK(Model(), fd)
    {
      hide Shape, Model, MemMount.Valid;
      var found := GetFileHandle(fd);
      if found.None? {
        return Error(Some(EBADF));
      }
      var (h, handle) := found.value;
      var r := MountStat(handle.mount, handle.node);
      return Described(r);
    }

    // ---------------------------------------------------------- Any call

    /** One system call of any kind: the answer and the new state are the reference's. */
    method Syscall(c: Call) returns (reply: Reply)
      requires Valid() && Legal(world, c)
      modifies this, Own, Reach
      ensures Valid() && fresh(Own - old(Own)) && fresh(Reach - old(Reach))
      ensures (world, reply) == Step(old(world), c)
    {
      hide Shape, Model, Linked, KernelProofs.Sim, MemMount.Valid, Step;
      hide ChDirK, MkDirK, RmDirK, RemoveK, StatK, OpenK, CloseK, ReadK, WriteK, LSeekK, FStatK;
      ghost var k, w := Model(), world;
      KernelProofs.StepSim(k, w, c);
      KernelProofs.CwdIsCanonical(k, w);
      match c {
        case ChDir(path) => reply := ChDir(path);
        case MkDir(path) => reply := MkDir(path);
        case RmDir(path) => reply := RmDir(path);
        case Remove(path) => reply := Remove(path);
        case StatPath(path) => reply := StatPath(path);
        case Open(path, flags) => reply := Open(path, flags);
        case Close(fd) => reply := Close(fd);
        case Read(fd, count) => reply := Read(fd, count);
        case Write(fd, bytes) => reply := Write(fd, bytes);
        case LSeek(fd, offset, whence) => reply := LSeek(fd, offset, whence);
        case FStat(fd) => reply := FStat(fd);
      }
      assert (Model(), reply) == StepK(k, c);
      world := Step(w, c).0;
    }
  }
}
