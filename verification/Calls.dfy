/**
  What each system call does, said of the tables and bytes alone: the names
  that functions of the model share do not occur in the conclusions.
 */
module Calls {
  import opened Wrappers
  import opened Paths
  import opened Slots
  import opened FlatFs
  import opened Mounts
  import opened Worlds
  import opened Tree
  import opened Kernels
  import opened KernelProofs
  import TreeProofs
  import Theorems

  // ------------------------------------------------------------ Looking

  /** What the mount says about a path is what its names and inodes say. */
  lemma NodeSeen<M>(k: Kernel<M>, w: World<M>, m: M, path: string)
    requires Sim(k, w) && m in w.flats && path != ""
    ensures m in k.disks
    ensures var f := w.flats[m];
            if Canon(path) !in f.names then Tree.GetNode(k.disks[m], path) == Fail(ENOENT)
            else
              var i := f.names[Canon(path)];
              && Live(f.inodes, i)
              && Tree.GetNode(k.disks[m], path)
                 == match f.inodes[i].value
                    case Directory => Ok(Stat(i, true, 0))
                    case Regular(content) => Ok(Stat(i, false, |content|))
  {
    assert MountOk(k.disks, w.flats, w.opens, m);
    TreeProofs.GetSlotIsLookup(k.disks[m], w.flats[m].names, path);
  }

  // ------------------------------------------------------------ Reading and writing

  /** The handle and the node of a live descriptor. */
  lemma DescriptorLeads<M>(k: Kernel<M>, w: World<M>, fd: int)
    requires Sim(k, w) && Live(k.fds, fd)
    ensures k.fds[fd].value == fd && Live(k.files, fd)
    ensures k.files[fd].value.mount in k.disks
    ensures Live(k.disks[k.files[fd].value.mount], k.files[fd].value.node)
  {
    HandleReady(k, w, fd);
    HandleSeen(k, w, fd);
  }

  /**
    `read` is refused on a directory and on a descriptor opened for writing
    only. Otherwise it returns the bytes of the file from the offset on, as many
    as there are and were asked for, and moves the offset by their number.
   */
  lemma ReadReturns<M>(k: Kernel<M>, w: World<M>, fd: int, n: nat)
    requires Sim(k, w) && Live(k.fds, fd)
    ensures Live(k.files, fd) && k.files[fd].value.mount in k.disks
    ensures Live(k.disks[k.files[fd].value.mount], k.files[fd].value.node)
    ensures var handle := k.files[fd].value;
            var node := k.disks[handle.mount][handle.node].value;
            if handle.flags.accMode % 4 == 1 || node.isDir then
              Defined(k, Call.Read(fd, n)) && ReadK(k, fd, n) == (k, Error(Some(EBADF)))
            else 0 <= handle.offset <= |node.content| ==>
              && Defined(k, Call.Read(fd, n))
              && var (k', reply) := ReadK(k, fd, n);
                 var left := |node.content| - handle.offset;
                 && reply.Data?
                 && |reply.bytes| == (if n < left then n else left)
                 && (forall i | 0 <= i < |reply.bytes| :: reply.bytes[i] == node.content[handle.offset + i])
                 && k' == k.(files := k.files[fd := Some(handle.(offset := handle.offset + |reply.bytes|))])
  {
    hide Sim, Slice;
    DescriptorLeads(k, w, fd);
    var handle := k.files[fd].value;
    var node := k.disks[handle.mount][handle.node].value;
    if 0 <= handle.offset <= |node.content| {
      SliceIs(node.content, handle.offset, n);
    }
  }

  /**
    `write` is refused on a directory and on a descriptor opened for reading
    only. Otherwise it replaces the bytes of the file from the offset on, leaves
    those before and behind as they are, and moves the offset.
   */
  lemma WriteReplaces<M>(k: Kernel<M>, w: World<M>, fd: int, bytes: Bytes)
    requires Sim(k, w) && Live(k.fds, fd)
    ensures Live(k.files, fd) && k.files[fd].value.mount in k.disks
    ensures Live(k.disks[k.files[fd].value.mount], k.files[fd].value.node)
    ensures var handle := k.files[fd].value;
            var node := k.disks[handle.mount][handle.node].value;
            if handle.flags.accMode % 4 == 0 || node.isDir then
              Defined(k, Call.Write(fd, bytes)) && WriteK(k, fd, bytes) == (k, Error(Some(EBADF)))
            else 0 <= handle.offset <= |node.content| ==>
              && Defined(k, Call.Write(fd, bytes))
              && var (k', reply) := WriteK(k, fd, bytes);
                 var (m, i, end) := (handle.mount, handle.node, handle.offset + |bytes|);
                 && reply == Done(|bytes|)
                 && k'.files == k.files[fd := Some(handle.(offset := end))]
                 && k' == k.(files := k'.files, disks := k'.disks)
                 && k'.disks.Keys == k.disks.Keys
                 && (forall m' | m' in k.disks && m' != m :: k'.disks[m'] == k.disks[m'])
                 && |k'.disks[m]| == |k.disks[m]|
                 && (forall j | 0 <= j < |k.disks[m]| && j != i :: k'.disks[m][j] == k.disks[m][j])
                 && Live(k'.disks[m], i)
                 && var node' := k'.disks[m][i].value;
                    && node' == node.(content := node'.content, capacity := node'.capacity)
                    && node'.capacity == (if end <= node.capacity then node.capacity
                                          else if end <= 2 * node.capacity + 2 then 2 * node.capacity + 2
                                          else end)
                    && |node'.content| == (if |node.content| < end then end else |node.content|)
                    && forall b | 0 <= b < |node'.content| ::
                         node'.content[b] == if handle.offset <= b < end then bytes[b - handle.offset]
                                             else node.content[b]
  {
    hide Sim, Splice;
    DescriptorLeads(k, w, fd);
    var handle := k.files[fd].value;
    var node := k.disks[handle.mount][handle.node].value;
    if 0 <= handle.offset <= |node.content| {
      SpliceIs(node.content, handle.offset, bytes);
    }
  }

  /** What a call that is defined and removes nothing leaves is again related to a reference. */
  lemma CallsOn<M>(k: Kernel<M>, w: World<M>, c: Call) returns (w': World<M>)
    requires Sim(k, w) && Defined(k, c) && !c.RmDir? && !c.Remove?
    ensures Sim(StepK(k, c).0, w')
  {
    Theorems.LegalIff(k, w, c);
    StepSim(k, w, c);
    w' := Step(w, c).0;
  }

  /** The file behind a descriptor, and where the descriptor is in it. */
  ghost predicate At<M>(k: Kernel<M>, fd: int, offset: int, content: Bytes) {
    && Live(k.fds, fd) && k.fds[fd].value == fd && Live(k.files, fd)
    && var handle := k.files[fd].value;
       && handle.flags.accMode % 4 != 0 && handle.flags.accMode % 4 != 1 && handle.offset == offset
       && handle.mount in k.disks && Live(k.disks[handle.mount], handle.node)
       && !k.disks[handle.mount][handle.node].value.isDir
       && k.disks[handle.mount][handle.node].value.content == content
  }

  lemma WriteAt<M>(k: Kernel<M>, w: World<M>, fd: int, offset: nat, content: Bytes, bytes: Bytes)
    requires Sim(k, w) && At(k, fd, offset, content) && offset <= |content|
    ensures Defined(k, Call.Write(fd, bytes))
    ensures StepK(k, Call.Write(fd, bytes)).1 == Done(|bytes|)
    ensures var end := offset + |bytes|;
            At(StepK(k, Call.Write(fd, bytes)).0, fd, end,
               content[..offset] + bytes + if end < |content| then content[end..] else [])
  {
    WriteReplaces(k, w, fd, bytes);
    var handle := k.files[fd].value;
    var c' := StepK(k, Call.Write(fd, bytes)).0.disks[handle.mount][handle.node].value.content;
    var end := offset + |bytes|;
    assert c' == content[..offset] + bytes + if end < |content| then content[end..] else [];
  }

  lemma SeekAt<M>(k: Kernel<M>, w: World<M>, fd: int, offset: nat, content: Bytes, next: nat)
    requires Sim(k, w) && At(k, fd, offset, content)
    ensures StepK(k, LSeek(fd, next, SeekSet)).1 == Done(next)
    ensures At(StepK(k, LSeek(fd, next, SeekSet)).0, fd, next, content)
  {
    LSeekMoves(k, w, fd, next, SeekSet);
  }

  lemma ReadAt<M>(k: Kernel<M>, w: World<M>, fd: int, content: Bytes, n: nat)
    requires Sim(k, w) && At(k, fd, 0, content) && n >= |content|
    ensures Defined(k, Call.Read(fd, n)) && StepK(k, Call.Read(fd, n)).1 == Data(content)
  {
    ReadReturns(k, w, fd, n);
  }

  /** Write, go back, overwrite the middle, and read it all: only the middle has changed. */
  lemma OverwritesMiddle<M>(k: Kernel<M>, w: World<M>, fd: int, a: Bytes, b: Bytes, p: nat, n: nat)
    requires Sim(k, w) && At(k, fd, 0, []) && p + |b| <= |a| <= n
    ensures var calls := [Call.Write(fd, a), LSeek(fd, p, SeekSet), Call.Write(fd, b), LSeek(fd, 0, SeekSet),
                          Call.Read(fd, n)];
            && DefinedRun(k, calls)
            && RunK(k, calls).1 == [Done(|a|), Done(p), Done(|b|), Done(0), Data(a[..p] + b + a[p + |b|..])]
  {
    hide Sim, At, StepK, Defined, RunK, DefinedRun;
    var c1, c2, c3, c4, c5 := Call.Write(fd, a), LSeek(fd, p, SeekSet), Call.Write(fd, b), LSeek(fd, 0, SeekSet),
                              Call.Read(fd, n);
    var mixed := a[..p] + b + a[p + |b|..];
    WriteAt(k, w, fd, 0, [], a);
    assert [][..0] + a + [] == a;
    var w1 := CallsOn(k, w, c1);
    var k1 := StepK(k, c1).0;
    SeekIsDefined(k1, c2);
    SeekAt(k1, w1, fd, |a|, a, p);
    var w2 := CallsOn(k1, w1, c2);
    var k2 := StepK(k1, c2).0;
    WriteAt(k2, w2, fd, p, a, b);
    assert p + |b| == |a| ==> a[p + |b|..] == [];
    var w3 := CallsOn(k2, w2, c3);
    var k3 := StepK(k2, c3).0;
    SeekIsDefined(k3, c4);
    SeekAt(k3, w3, fd, p + |b|, mixed, 0);
    var w4 := CallsOn(k3, w3, c4);
    var k4 := StepK(k3, c4).0;
    ReadAt(k4, w4, fd, mixed, n);
    RunOfFive(k, c1, c2, c3, c4, c5);
  }

  lemma SeekIsDefined<M>(k: Kernel<M>, c: Call)
    requires c.LSeek?
    ensures Defined(k, c)
  {
  }

  lemma RunOfFive<M>(k: Kernel<M>, c1: Call, c2: Call, c3: Call, c4: Call, c5: Call)
    requires Defined(k, c1)
    requires var k1 := StepK(k, c1).0; Defined(k1, c2)
    requires var k2 := StepK(StepK(k, c1).0, c2).0; Defined(k2, c3) && Defined(StepK(k2, c3).0, c4)
    requires var k4 := StepK(StepK(StepK(StepK(k, c1).0, c2).0, c3).0, c4).0; Defined(k4, c5)
    ensures DefinedRun(k, [c1, c2, c3, c4, c5])
    ensures var (k1, r1) := StepK(k, c1);
            var (k2, r2) := StepK(k1, c2);
            var (k3, r3) := StepK(k2, c3);
            var (k4, r4) := StepK(k3, c4);
            RunK(k, [c1, c2, c3, c4, c5]).1 == [r1, r2, r3, r4, StepK(k4, c5).1]
  {
    hide StepK, Defined, RunK, DefinedRun;
    var (k1, r1) := StepK(k, c1);
    var (k2, r2) := StepK(k1, c2);
    Theorems.ThreeCalls(k2, c3, c4, c5);
    Theorems.OneCallMore(k1, c2, [c3, c4, c5]);
    assert [c2] + [c3, c4, c5] == [c2, c3, c4, c5] && [c1] + [c2, c3, c4, c5] == [c1, c2, c3, c4, c5];
    Theorems.OneCallMore(k, c1, [c2, c3, c4, c5]);
    var later := RunK(k2, [c3, c4, c5]).1;
    assert [r1] + ([r2] + later) == [r1, r2, later[0], later[1], later[2]];
  }

  /** `lseek` counts from the start, from the offset, or backwards from the end, and refuses places before the start. */
  lemma LSeekMoves<M>(k: Kernel<M>, w: World<M>, fd: int, offset: int, whence: Whence)
    requires Sim(k, w) && Live(k.fds, fd)
    ensures Live(k.files, fd) && k.files[fd].value.mount in k.disks
    ensures Live(k.disks[k.files[fd].value.mount], k.files[fd].value.node)
    ensures var handle := k.files[fd].value;
            var node := k.disks[handle.mount][handle.node].value;
            var next := match whence
              case SeekSet => offset
              case SeekCur => handle.offset + offset
              case SeekEnd => |node.content| - offset
              case SeekOther => -1;
            LSeekK(k, fd, offset, whence)
            == if node.isDir then (k, Error(Some(EBADF)))
               else if next < 0 then (k, Error(Some(EINVAL)))
               else (k.(files := k.files[fd := Some(handle.(offset := next))]), Done(next))
  {
    DescriptorLeads(k, w, fd);
  }

  lemma FStatTells<M>(k: Kernel<M>, w: World<M>, fd: int)
    requires Sim(k, w) && Live(k.fds, fd)
    ensures Live(k.files, fd) && k.files[fd].value.mount in k.disks
    ensures Live(k.disks[k.files[fd].value.mount], k.files[fd].value.node)
    ensures var handle := k.files[fd].value;
            var node := k.disks[handle.mount][handle.node].value;
            FStatK(k, fd) == Info(handle.node, node.isDir, if node.isDir then 0 else |node.content|)
  {
    DescriptorLeads(k, w, fd);
  }

  /** Every call on a number that is no descriptor fails and changes nothing. */
  lemma NoDescriptor<M>(k: Kernel<M>, fd: int, n: nat, bytes: Bytes, offset: int, whence: Whence)
    requires !Live(k.fds, fd)
    ensures Defined(k, Call.Read(fd, n)) && ReadK(k, fd, n) == (k, Error(Some(EBADF)))
    ensures Defined(k, Call.Write(fd, bytes)) && WriteK(k, fd, bytes) == (k, Error(Some(EBADF)))
    ensures LSeekK(k, fd, offset, whence) == (k, Error(Some(EBADF)))
    ensures CloseK(k, fd) == (k, Error(Some(EBADF)))
    ensures FStatK(k, fd) == Error(Some(EBADF))
  {
  }

  // ------------------------------------------------------------ Names

  /** Apart from path `p`, the mount says the same about every path before and after. */
  ghost predicate SameBut(disk: Disk, disk': Disk, p: Path) {
    forall path | path != "" && Canon(path) != p :: Tree.GetNode(disk', path) == Tree.GetNode(disk, path)
  }

  ghost predicate SameNames(disk: Disk, disk': Disk) {
    forall path | path != "" :: Tree.GetNode(disk', path) == Tree.GetNode(disk, path)
  }

  ghost predicate Says(disk: Disk, p: Path, r: Result<Stat>) {
    forall path | path != "" && Canon(path) == p :: Tree.GetNode(disk, path) == r
  }

  lemma AlikeSeen<M>(k: Kernel<M>, w: World<M>, k': Kernel<M>, w': World<M>, m: M, path: string)
    requires Sim(k, w) && Sim(k', w') && m in w.flats && m in w'.flats && path != ""
    requires var (f, f', p) := (w.flats[m], w'.flats[m], Canon(path));
             && (p in f.names <==> p in f'.names)
             && (p in f.names ==> f'.names[p] == f.names[p]
                                  && (Live(f.inodes, f.names[p]) ==>
                                        Live(f'.inodes, f.names[p]) && f'.inodes[f.names[p]] == f.inodes[f.names[p]]))
    ensures m in k.disks && m in k'.disks
    ensures Tree.GetNode(k'.disks[m], path) == Tree.GetNode(k.disks[m], path)
  {
    hide Sim, Canon, Tree.GetNode;
    NodeSeen(k, w, m, path);
    NodeSeen(k', w', m, path);
  }

  lemma NamesLive<M>(k: Kernel<M>, w: World<M>, m: M)
    requires Sim(k, w) && m in w.flats
    ensures m in k.disks && Fresh(w.flats[m].inodes) == Fresh(k.disks[m])
    ensures forall p | p in w.flats[m].names :: Live(w.flats[m].inodes, w.flats[m].names[p])
    ensures var names := w.flats[m].names;
            forall p, q | p in names && q in names && names[p] == names[q] :: p == q
  {
    assert MountOk(k.disks, w.flats, w.opens, m);
    SameFresh(w.flats[m].inodes, k.disks[m]);
  }

  /** One more name is one more thing that the mount says. */
  lemma BoundSeen<M>(k: Kernel<M>, w: World<M>, k': Kernel<M>, w': World<M>, m: M, p: Path, inode: Inode)
    requires Sim(k, w) && Sim(k', w') && m in w.flats && m in w'.flats && p !in w.flats[m].names
    requires w'.flats[m] == Bind(w.flats[m], p, inode) && (inode.Directory? || inode.content == [])
    ensures m in k.disks && m in k'.disks
    ensures SameBut(k.disks[m], k'.disks[m], p)
    ensures Says(k'.disks[m], p, Ok(Stat(Fresh(k.disks[m]), inode.Directory?, 0)))
  {
    hide Sim, Canon, Tree.GetNode;
    NamesLive(k, w, m);
    NamesLive(k', w', m);
    forall path | path != "" && Canon(path) != p
      ensures Tree.GetNode(k'.disks[m], path) == Tree.GetNode(k.disks[m], path)
    {
      AlikeSeen(k, w, k', w', m, path);
    }
    forall path | path != "" && Canon(path) == p
      ensures Tree.GetNode(k'.disks[m], path) == Ok(Stat(Fresh(k.disks[m]), inode.Directory?, 0))
    {
      NodeSeen(k', w', m, path);
    }
  }

  /** What the mount says of the canonical path `p`. */
  function NodeAt(disk: Disk, p: Path): Result<Stat> {
    Tree.GetNode(disk, Print(true, p))
  }

  lemma NodeAtSeen<M>(k: Kernel<M>, w: World<M>, m: M, p: Path)
    requires Sim(k, w) && m in w.flats && IsCanonical(p)
    ensures m in k.disks
    ensures NodeAt(k.disks[m], p).Ok? <==> p in w.flats[m].names
    ensures NodeAt(k.disks[m], p).Ok? ==>
              var st := NodeAt(k.disks[m], p).value;
              st.ino == w.flats[m].names[p] && st.isDir == w.flats[m].IsDir(st.ino)
  {
    CanonOfPrint(true, p);
    NodeSeen(k, w, m, Print(true, p));
  }

  // ------------------------------------------------------------ Changing directory, making directories

  /** Where `chdir` and `mkdir` go: an absolute path by itself, a relative one from the working directory. */
  lemma ChDirGoes<M>(k: Kernel<M>, w: World<M>, path: string)
    requires Sim(k, w) && path != ""
    ensures var target := if path[0] == '/' then Canon(path)
                          else Dropped(k.cwd, Climb(Components(path))) + Canon(path);
            var (m, rest) := GetMount(k.table, Print(true, target));
            var (k', reply) := ChDirK(k, path);
            && (reply.Done? ==> k' == k.(cwd := target))
            && (!reply.Done? ==> k' == k)
            && (m.Some? ==> m.value in k.disks)
            && (reply.Done? <==>
                  && m.Some?
                  && (match Tree.GetNode(k.disks[m.value], rest) case Ok(st) => st.isDir case Fail(_) => false)
                  && GetMount(k.table, Print(true, k.cwd)).0.Some?)
  {
    hide Sim, Canon, Climb, Dropped, Join, ResolveJoinFirst, Tree.GetNode, IsCanonical;
    SameSetting(k, w);
    CwdIsCanonical(k, w);
    JoinFirstMeaning(k.cwd, path);
    var target := Print(true, ResolveJoinFirst(k.cwd, path));
    RouteOrNothing(k.table, target);
    var (m, rest) := GetMount(k.table, target);
    if m.Some? {
      RouteIsMounted(k, w, target);
      FoundIsDir(k, w, m.value, rest);
    }
  }

  lemma FoundIsDir<M>(k: Kernel<M>, w: World<M>, m: M, rest: string)
    requires Sim(k, w) && m in w.flats && rest != ""
    ensures m in k.disks
    ensures match Tree.GetNode(k.disks[m], rest)
            case Ok(st) => st.isDir == Tree.IsDir(k.disks[m], st.ino)
            case Fail(_) => true
  {
    NodeSeen(k, w, m, rest);
    if Canon(rest) in w.flats[m].names {
      DescribedAlike(k, w, m, w.flats[m].names[Canon(rest)]);
    }
  }

  /**
    `mkdir` fails and changes nothing if no mount claims the path, if it exists,
    or if its parent does not or is no directory; otherwise there is a new empty
    directory at the path, and every other path leads where it did.
   */
  lemma MkDirMakes<M>(k: Kernel<M>, w: World<M>, path: string)
    requires Sim(k, w) && path != ""
    ensures var target := if path[0] == '/' then Canon(path)
                          else Dropped(k.cwd, Climb(Components(path))) + Canon(path);
            var (m, rest) := GetMount(k.table, Print(true, target));
            var (k', reply) := MkDirK(k, path);
            if m.None? then k' == k && reply == Error(Some(ENOTDIR))
            else
              && m.value in k.disks
              && var disk := k.disks[m.value];
                 if NodeAt(disk, Canon(rest)).Ok? then k' == k && reply == Error(Some(EEXIST))
                 else
                   match NodeAt(disk, Init(Canon(rest)))
                   case Fail(_) => k' == k && reply == Error(Some(ENOENT))
                   case Ok(parent) =>
                     if !parent.isDir then k' == k && reply == Error(Some(ENOTDIR))
                     else
                       && reply == Done(0) && m.value in k'.disks
                       && k' == k.(disks := k.disks[m.value := k'.disks[m.value]])
                       && SameBut(disk, k'.disks[m.value], Canon(rest))
                       && Says(k'.disks[m.value], Canon(rest), Ok(Stat(Fresh(disk), true, 0)))
  {
    CwdIsCanonical(k, w);
    JoinFirstMeaning(k.cwd, path);
    var target := Print(true, ResolveJoinFirst(k.cwd, path));
    RouteOrNothing(k.table, target);
    var (m, rest) := GetMount(k.table, target);
    if m.Some? {
      MkDirSim(k, w, path);
      MkDirInMount(k, w, path, m.value, rest);
    }
  }

  lemma MkDirInMount<M>(k: Kernel<M>, w: World<M>, path: string, m: M, rest: string)
    requires Sim(k, w) && path != "" && rest != ""
    requires GetMount(k.table, Print(true, ResolveJoinFirst(k.cwd, path))) == (Some(m), rest)
    ensures var (k', reply) := MkDirK(k, path);
            && m in k.disks && m in k'.disks
            && k' == k.(disks := k.disks[m := k'.disks[m]])
            && var (disk, disk') := (k.disks[m], k'.disks[m]);
               if NodeAt(disk, Canon(rest)).Ok? then k' == k && reply == Error(Some(EEXIST))
               else
                 match NodeAt(disk, Init(Canon(rest)))
                 case Fail(_) => k' == k && reply == Error(Some(ENOENT))
                 case Ok(parent) =>
                   if !parent.isDir then k' == k && reply == Error(Some(ENOTDIR))
                   else
                     && reply == Done(0) && SameBut(disk, disk', Canon(rest))
                     && Says(disk', Canon(rest), Ok(Stat(Fresh(disk), true, 0)))
  {
    hide Sim, Canon, NodeAt, SameBut, Says, MkDirK, MkDirW;
    var p := Canon(rest);
    MkDirSim(k, w, path);
    MkDirParts(k, w, path, m, rest);
    CanonIsCanonical(rest);
    NodeAtSeen(k, w, m, p);
    NodeAtSeen(k, w, m, Init(p));
    if MkDirK(k, path).1.Done? {
      BoundSeen(k, w, MkDirK(k, path).0, MkDirW(w, path).0, m, p, Directory);
    }
  }

  lemma MkDirParts<M>(k: Kernel<M>, w: World<M>, path: string, m: M, rest: string)
    requires Sim(k, w) && path != "" && rest != ""
    requires GetMount(k.table, Print(true, ResolveJoinFirst(k.cwd, path))) == (Some(m), rest)
    ensures m in k.disks && m in w.flats && m in MkDirK(k, path).0.disks
    ensures MkDirK(k, path).0 == k.(disks := k.disks[m := MkDirK(k, path).0.disks[m]])
    ensures !MkDirK(k, path).1.Done? ==> MkDirK(k, path).0 == k
    ensures MkDirW(w, path).0.flats == w.flats[m := FlatFs.Mkdir(w.flats[m], Canon(rest)).0]
    ensures MkDirW(w, path).1 == match FlatFs.Mkdir(w.flats[m], Canon(rest)).1
                                 case Ok(_) => Done(0)
                                 case Fail(e) => Error(Some(e))
  {
    hide ResolveJoinFirst, Canon, Print, Tree.GetSlot, Tree.GetParentSlot;
    assert k.disks[m := k.disks[m]] == k.disks;
  }

  /** For an absolute path the working directory plays no part. */
  lemma MkDirIgnoresCwd<M>(k: Kernel<M>, w: World<M>, cwd: Path, path: string)
    requires Sim(k, w) && path != "" && path[0] == '/'
    ensures MkDirK(k.(cwd := cwd), path).1 == MkDirK(k, path).1
    ensures MkDirK(k.(cwd := cwd), path).0 == MkDirK(k, path).0.(cwd := cwd)
  {
  }

  /** Calls without a path, or with one that names nothing to open, fail and change nothing. */
  lemma EmptyPathsFail<M>(k: Kernel<M>, w: World<M>, path: string, flags: Flags)
    requires Sim(k, w)
    ensures ChDirK(k, "") == (k, Error(None)) && MkDirK(k, "") == (k, Error(None))
    ensures !IsAbsolute(path) && Canon(path) == [] ==>
              OpensSomething(path) && OpenK(k, path, flags) == (k, Error(Some(EINVAL)))
  {
    if !IsAbsolute(path) && Canon(path) == [] {
      assert CanonicalString(path) == "";
    }
  }

  // ------------------------------------------------------------ Opening

  /** A new descriptor on the node, at the start of the file. */
  ghost predicate OpenedOn<M>(k: Kernel<M>, k': Kernel<M>, fd: int, m: M, i: nat, flags: Flags) {
    && !Live(k.fds, fd) && Live(k'.fds, fd) && k'.fds[fd].value == fd
    && Live(k'.files, fd) && k'.files[fd].value == Handle(m, i, 0, flags, 1)
    && (forall j | 0 <= j < |k.fds| && j != fd :: j < |k'.fds| && k'.fds[j] == k.fds[j])
    && (forall j | 0 <= j < |k.files| && j != fd :: j < |k'.files| && k'.files[j] == k.files[j])
    && k'.cwd == k.cwd && k'.table == k.table
    && m in k.disks && k'.disks == k.disks[m := DiskOf(k', m)]
  }

  /**
    `open` with any bit set in its flags creates a file, and fails if it exists
    or if its parent is no directory; with no bit set it finds what exists. The
    path is collapsed, joined to the working directory, and routed by its parent.
   */
  lemma OpenCreatesOrFinds<M>(k: Kernel<M>, w: World<M>, path: string, flags: Flags)
    requires Sim(k, w) && Canon(path) != []
    ensures OpensSomething(path)
    ensures var target := if IsAbsolute(path) then Canon(path) else k.cwd + Canon(path);
            var (m, rest) := GetMount(k.table, Print(true, Init(target)));
            var p := Canon(rest) + [target[|target| - 1]];
            var (k', reply) := OpenK(k, path, flags);
            if m.None? then k' == k && reply == Error(Some(ENOENT))
            else
              && m.value in k.disks && m.value in k'.disks
              && var (disk, disk') := (k.disks[m.value], k'.disks[m.value]);
                 var (parent, node) := (NodeAt(disk, Canon(rest)), NodeAt(disk, p));
                 if flags != Flags(0, false, false) then
                   if parent.Fail? || !parent.value.isDir then k' == k && reply == Error(Some(ENOTDIR))
                   else if node.Ok? then k' == k && reply == Error(Some(EEXIST))
                   else
                     && reply.Done? && OpenedOn(k, k', reply.n, m.value, Fresh(disk), flags)
                     && SameBut(disk, disk', p) && Says(disk', p, Ok(Stat(Fresh(disk), false, 0)))
                 else if node.Fail? then k' == k && reply == Error(Some(ENOENT))
                 else
                   && reply.Done? && OpenedOn(k, k', reply.n, m.value, node.value.ino, flags)
                   && SameNames(disk, disk')
  {
    hide Sim, Canon, Print, NodeAt, SameBut, SameNames, Says, OpenedOn, OpenK, OpenW;
    var target := if IsAbsolute(path) then Canon(path) else k.cwd + Canon(path);
    var (m, rest) := GetMount(k.table, Print(true, Init(target)));
    var last := target[|target| - 1];
    SameSetting(k, w);
    OpenTouches(k, w, path, flags);
    OpenSim(k, w, path, flags);
    OpenWParts(w, path, flags);
    if m.Some? {
      RouteIsMounted(k, w, Print(true, Init(target)));
      TargetName(k, w, path);
      OpenInMount(k, w, path, flags, m.value, Canon(rest), last);
    }
  }

  lemma TargetName<M>(k: Kernel<M>, w: World<M>, path: string)
    requires Sim(k, w) && Canon(path) != []
    ensures IsName(Canon(path)[|Canon(path)| - 1])
    ensures forall rest :: IsCanonical(Canon(rest))
  {
    CanonIsCanonical(path);
    forall rest
      ensures IsCanonical(Canon(rest))
    {
      CanonIsCanonical(rest);
    }
  }

  /** The bits of the flags written out. */
  lemma OpenWParts<M>(w: World<M>, path: string, flags: Flags)
    requires Canon(path) != []
    ensures var target := if IsAbsolute(path) then Canon(path) else w.cwd + Canon(path);
            var (m, rest) := GetMount(w.table, Print(true, Init(target)));
            var p := Canon(rest) + [target[|target| - 1]];
            OpenW(w, path, flags)
            == if m.None? then (w, Error(Some(ENOENT)))
               else
                 var f := FlatOf(w, m.value);
                 if flags != Flags(0, false, false) then
                   match FlatFs.Creat(f, p).1
                   case Fail(e) => (w, Error(Some(e)))
                   case Ok(i) => (w.(flats := w.flats[m.value := FlatFs.Creat(f, p).0],
                                     opens := Put(w.opens, OpenFile(m.value, i, 0, flags))), Done(Fresh(w.opens)))
                 else if p in f.names then
                   (w.(flats := w.flats[m.value := f], opens := Put(w.opens, OpenFile(m.value, f.names[p], 0, flags))),
                    Done(Fresh(w.opens)))
                 else (w, Error(Some(ENOENT)))
  {
    hide GetMount, Canon, Print, FlatFs.Creat;
  }

  lemma OpenTouches<M>(k: Kernel<M>, w: World<M>, path: string, flags: Flags)
    requires Sim(k, w) && Canon(path) != []
    ensures OpensSomething(path)
    ensures !OpenK(k, path, flags).1.Done? ==> OpenK(k, path, flags).0 == k
    ensures var target := if IsAbsolute(path) then Canon(path) else k.cwd + Canon(path);
            var m := GetMount(k.table, Print(true, Init(target))).0;
            m.Some? ==>
              && m.value in k.disks && m.value in OpenK(k, path, flags).0.disks
              && OpenK(k, path, flags).0.disks == k.disks[m.value := OpenK(k, path, flags).0.disks[m.value]]
  {
    hide Sim, Canon, Print, CanonicalString, OpenHandle, GetMount;
    SameSetting(k, w);
    CwdIsCanonical(k, w);
    OpenPaths(k.cwd, path);
    var target := if IsAbsolute(path) then Canon(path) else k.cwd + Canon(path);
    var (m, rest) := GetMount(k.table, Print(true, Init(target)));
    if m.Some? {
      RouteIsMounted(k, w, Print(true, Init(target)));
      HandleTouches(k, m.value, CanonicalString(rest + "/" + Tree.Last(target)), flags);
    }
  }

  lemma HandleTouches<M>(k: Kernel<M>, m: M, path: string, flags: Flags)
    requires m in k.disks
    ensures var (k', reply) := OpenHandle(k, m, path, flags);
            && (!reply.Done? ==> k' == k)
            && m in k'.disks && k'.disks == k.disks[m := k'.disks[m]]
  {
    hide Tree.Creat, Tree.GetNode, StatOf, Ref;
    assert k.disks[m := k.disks[m]] == k.disks;
  }

  lemma SameSetting<M>(k: Kernel<M>, w: World<M>)
    requires Sim(k, w)
    ensures k.table == w.table && k.cwd == w.cwd
  {
  }

  lemma RouteIsMounted<M>(k: Kernel<M>, w: World<M>, path: string)
    requires Sim(k, w) && GetMount(k.table, path).0.Some?
    ensures GetMount(k.table, path).0.value in w.flats && GetMount(k.table, path).0.value in k.disks
  {
  }

  lemma OpensAlike<M>(k: Kernel<M>, w: World<M>, k': Kernel<M>, w': World<M>, m: M, i: nat, flags: Flags)
    requires Sim(k, w) && Sim(k', w') && m in k.disks && k'.disks == k.disks[m := DiskOf(k', m)]
    requires w'.opens == Put(w.opens, OpenFile(m, i, 0, flags)) && w'.cwd == w.cwd && w'.table == w.table
    ensures OpenedOn(k, k', Fresh(w.opens), m, i, flags)
  {
  }

  lemma OpenInMount<M>(k: Kernel<M>, w: World<M>, path: string, flags: Flags, m: M, dir: Path, last: string)
    requires Sim(k, w) && Canon(path) != [] && OpensSomething(path) && m in w.flats
    requires IsCanonical(dir) && IsName(last)
    requires var (k', reply) := OpenK(k, path, flags);
             m in k.disks && m in k'.disks && k'.disks == k.disks[m := k'.disks[m]] && (!reply.Done? ==> k' == k)
    requires var f := w.flats[m];
             var p := dir + [last];
             OpenW(w, path, flags)
             == if flags != Flags(0, false, false) then
                  match FlatFs.Creat(f, p).1
                  case Fail(e) => (w, Error(Some(e)))
                  case Ok(i) => (w.(flats := w.flats[m := FlatFs.Creat(f, p).0],
                                    opens := Put(w.opens, OpenFile(m, i, 0, flags))), Done(Fresh(w.opens)))
                else if p in f.names then
                  (w.(flats := w.flats[m := f], opens := Put(w.opens, OpenFile(m, f.names[p], 0, flags))),
                   Done(Fresh(w.opens)))
                else (w, Error(Some(ENOENT)))
    ensures var (k', reply) := OpenK(k, path, flags);
            var p := dir + [last];
            var (disk, disk') := (k.disks[m], k'.disks[m]);
            var (parent, node) := (NodeAt(disk, dir), NodeAt(disk, p));
            if flags != Flags(0, false, false) then
              if parent.Fail? || !parent.value.isDir then k' == k && reply == Error(Some(ENOTDIR))
              else if node.Ok? then k' == k && reply == Error(Some(EEXIST))
              else
                && reply.Done? && reply.n >= 0 && OpenedOn(k, k', reply.n, m, Fresh(disk), flags)
                && SameBut(disk, disk', p) && Says(disk', p, Ok(Stat(Fresh(disk), false, 0)))
            else if node.Fail? then k' == k && reply == Error(Some(ENOENT))
            else
              && reply.Done? && reply.n >= 0 && OpenedOn(k, k', reply.n, m, node.value.ino, flags)
              && SameNames(disk, disk')
  {
    hide Sim, Canon, Print, NodeAt, SameBut, SameNames, Says, OpenedOn, OpenK, OpenW;
    var f, p := w.flats[m], dir + [last];
    var (k', reply) := OpenK(k, path, flags);
    var w' := OpenW(w, path, flags).0;
    OpenSim(k, w, path, flags);
    assert Init(p) == dir;
    NodeAtSeen(k, w, m, dir);
    NodeAtSeen(k, w, m, p);
    NamesLive(k, w, m);
    if reply.Done? {
      if flags != Flags(0, false, false) {
        OpensAlike(k, w, k', w', m, Fresh(k.disks[m]), flags);
        BoundSeen(k, w, k', w', m, p, Regular([]));
      } else {
        OpensAlike(k, w, k', w', m, f.names[p], flags);
        SameFlatSeen(k, w, k', w', m);
      }
    }
  }

  lemma SameFlatSeen<M>(k: Kernel<M>, w: World<M>, k': Kernel<M>, w': World<M>, m: M)
    requires Sim(k, w) && Sim(k', w') && m in w.flats && m in w'.flats && w'.flats[m] == w.flats[m]
    ensures m in k.disks && m in k'.disks && SameNames(k.disks[m], k'.disks[m])
  {
    hide Sim, Canon, Tree.GetNode;
    NamesLive(k, w, m);
    NamesLive(k', w', m);
    forall path | path != ""
      ensures Tree.GetNode(k'.disks[m], path) == Tree.GetNode(k.disks[m], path)
    {
      AlikeSeen(k, w, k', w', m, path);
    }
  }

  // ------------------------------------------------------------ Removing, closing, asking

  /** One name less is one thing less that the mount says. */
  lemma UnboundSeen<M>(k: Kernel<M>, w: World<M>, k': Kernel<M>, w': World<M>, m: M, p: Path)
    requires Sim(k, w) && Sim(k', w') && m in w.flats && m in w'.flats && p in w.flats[m].names
    requires w'.flats[m].names == w.flats[m].names - {p}
    requires var (f, f') := (w.flats[m], w'.flats[m]);
             f'.inodes == f.inodes || (f.names[p] < |f.inodes| && f'.inodes == Drop(f.inodes, f.names[p]))
    ensures m in k.disks && m in k'.disks
    ensures SameBut(k.disks[m], k'.disks[m], p) && Says(k'.disks[m], p, Fail(ENOENT))
  {
    hide Sim, Canon, Tree.GetNode;
    NamesLive(k, w, m);
    NamesLive(k', w', m);
    forall path | path != "" && Canon(path) != p
      ensures Tree.GetNode(k'.disks[m], path) == Tree.GetNode(k.disks[m], path)
    {
      AlikeSeen(k, w, k', w', m, path);
    }
    forall path | path != "" && Canon(path) == p
      ensures Tree.GetNode(k'.disks[m], path) == Fail(ENOENT)
    {
      NodeSeen(k', w', m, path);
    }
  }

  /** Some path leads to something inside the directory `p`. */
  ghost predicate HasInside(disk: Disk, p: Path) {
    exists c :: IsName(c) && NodeAt(disk, p + [c]).Ok?
  }

  /**
    `remove` takes away a file or an empty directory, and with it exactly the one
    name; a directory with something inside stays.
   */
  lemma RemoveUnbinds<M>(k: Kernel<M>, w: World<M>, path: string)
    requires Sim(k, w) && Legal(w, Remove(path))
    ensures var (m, rest) := GetMount(k.table, path);
            var (k', reply) := RemoveK(k, path);
            if m.None? then k' == k && reply == Error(Some(ENOENT))
            else
              && m.value in k.disks && m.value in k'.disks
              && k' == k.(disks := k.disks[m.value := k'.disks[m.value]])
              && var (disk, disk', p) := (k.disks[m.value], k'.disks[m.value], Canon(rest));
                 if NodeAt(disk, p).Fail? then k' == k && reply == Error(Some(ENOENT))
                 else if NodeAt(disk, p).value.isDir && HasInside(disk, p) then
                   k' == k && reply == Error(Some(ENOTEMPTY))
                 else reply == Done(0) && SameBut(disk, disk', p) && Says(disk', p, Fail(ENOENT))
  {
    hide Sim, Legal, Canon, NodeAt, SameBut, Says, HasInside, RemoveK, RemoveW;
    var (m, rest) := GetMount(k.table, path);
    SameSetting(k, w);
    RouteOrNothing(k.table, path);
    RemoveSim(k, w, path);
    if m.Some? {
      RouteIsMounted(k, w, path);
      RemoveTouches(k, path);
      CanonIsCanonical(rest);
      NodeAtSeen(k, w, m.value, Canon(rest));
      NamesLive(k, w, m.value);
      RemoveWParts(w, path, m.value, rest);
      if Canon(rest) in w.flats[m.value].names {
        InsideSeen(k, w, m.value, Canon(rest));
      }
      if RemoveK(k, path).1.Done? {
        UnboundSeen(k, w, RemoveK(k, path).0, RemoveW(w, path).0, m.value, Canon(rest));
      }
    } else {
      RemoveNowhere(k, path);
    }
  }

  lemma RemoveNowhere<M>(k: Kernel<M>, path: string)
    ensures GetMount(k.table, path).0.None? ==> RemoveK(k, path) == (k, Error(Some(ENOENT)))
  {
  }

  lemma RemoveTouches<M>(k: Kernel<M>, path: string)
    requires GetMount(k.table, path).0.Some? && GetMount(k.table, path).0.value in k.disks
    ensures var m, (k', reply) := GetMount(k.table, path).0.value, RemoveK(k, path);
            && (!reply.Done? ==> k' == k)
            && m in k'.disks && k' == k.(disks := k.disks[m := k'.disks[m]])
  {
    hide GetMount, Tree.GetNode, Tree.GetSlot, Tree.GetParentSlot;
    var m := GetMount(k.table, path).0.value;
    assert k.disks[m := k.disks[m]] == k.disks;
  }

  lemma RemoveWParts<M>(w: World<M>, path: string, m: M, rest: string)
    requires GetMount(w.table, path) == (Some(m), rest) && m in w.flats
    requires var f := w.flats[m];
             && (forall p | p in f.names :: Live(f.inodes, f.names[p]))
             && (forall p, q | p in f.names && q in f.names && f.names[p] == f.names[q] :: p == q)
    ensures var (f, p) := (w.flats[m], Canon(rest));
            var (w', reply) := RemoveW(w, path);
            if p !in f.names then reply == Error(Some(ENOENT))
            else if f.IsDir(f.names[p]) && HasEntries(f.names, f.names[p]) then reply == Error(Some(ENOTEMPTY))
            else
              && reply == Done(0) && m in w'.flats && w'.flats[m].names == f.names - {p}
              && (w'.flats[m].inodes == f.inodes || w'.flats[m].inodes == Drop(f.inodes, f.names[p]))
  {
    hide GetMount, Canon, HasEntries, Named, Held;
    var f, p := w.flats[m], Canon(rest);
    if p in f.names {
      TreeProofs.OnlyNameRemoved(f.names, p);
    }
  }

  lemma InsideSeen<M>(k: Kernel<M>, w: World<M>, m: M, p: Path)
    requires Sim(k, w) && m in w.flats && p in w.flats[m].names && IsCanonical(p)
    ensures m in k.disks
    ensures HasInside(k.disks[m], p) <==> HasEntries(w.flats[m].names, w.flats[m].names[p])
  {
    hide Sim, NodeAt;
    var names := w.flats[m].names;
    NamesLive(k, w, m);
    if HasEntries(names, names[p]) {
      var q :| q in names && q != [] && Init(q) in names && names[Init(q)] == names[p];
      NameIsCanonical(k, w, m, q);
      var c := q[|q| - 1];
      assert Init(q) == p && q == p + [c];
      NodeAtSeen(k, w, m, q);
      assert IsName(c) && NodeAt(k.disks[m], p + [c]).Ok?;
    }
    if HasInside(k.disks[m], p) {
      var c :| IsName(c) && NodeAt(k.disks[m], p + [c]).Ok?;
      NodeAtSeen(k, w, m, p + [c]);
      assert Init(p + [c]) == p && p + [c] in names;
    }
  }

  lemma NameIsCanonical<M>(k: Kernel<M>, w: World<M>, m: M, p: Path)
    requires Sim(k, w) && m in w.flats && p in w.flats[m].names
    ensures IsCanonical(p)
  {
    assert MountOk(k.disks, w.flats, w.opens, m);
  }

  /** `rmdir` takes an absolute path, and is for directories only. */
  lemma RmDirUnbinds<M>(k: Kernel<M>, w: World<M>, path: string)
    requires Sim(k, w) && Legal(w, RmDir(path))
    ensures var (m, rest) := GetMount(k.table, path);
            var (k', reply) := RmDirK(k, path);
            if path == "" || path[0] != '/' || m.None? then k' == k && reply == Error(Some(ENOENT))
            else
              && m.value in k.disks && m.value in k'.disks
              && k' == k.(disks := k.disks[m.value := k'.disks[m.value]])
              && var (disk, disk', p) := (k.disks[m.value], k'.disks[m.value], Canon(rest));
                 if NodeAt(disk, p).Fail? then k' == k && reply == Error(Some(ENOENT))
                 else if !NodeAt(disk, p).value.isDir then k' == k && reply == Error(Some(ENOTDIR))
                 else if HasInside(disk, p) then k' == k && reply == Error(Some(ENOTEMPTY))
                 else reply == Done(0) && SameBut(disk, disk', p) && Says(disk', p, Fail(ENOENT))
  {
    hide Sim, Legal, Canon, NodeAt, SameBut, Says, HasInside, RmDirK, RmDirW;
    var (m, rest) := GetMount(k.table, path);
    SameSetting(k, w);
    RouteOrNothing(k.table, path);
    RmDirSim(k, w, path);
    if path != "" && path[0] == '/' && m.Some? {
      RouteIsMounted(k, w, path);
      CanonIsCanonical(rest);
      NodeAtSeen(k, w, m.value, Canon(rest));
      NamesLive(k, w, m.value);
      FindNodeIsLookup(k, w, path);
      RmDirTouches(k, path);
      RmDirWParts(w, path, m.value, rest);
      if Canon(rest) in w.flats[m.value].names {
        InsideSeen(k, w, m.value, Canon(rest));
      }
      if RmDirK(k, path).1.Done? {
        UnboundSeen(k, w, RmDirK(k, path).0, RmDirW(w, path).0, m.value, Canon(rest));
      }
    } else {
      RmDirNowhere(k, path);
    }
  }

  lemma RmDirNowhere<M>(k: Kernel<M>, path: string)
    requires path == "" || path[0] != '/' || GetMount(k.table, path).0.None?
    ensures RmDirK(k, path) == (k, Error(Some(ENOENT)))
  {
  }

  lemma RmDirTouches<M>(k: Kernel<M>, path: string)
    requires GetMount(k.table, path).0.Some? && GetMount(k.table, path).0.value in k.disks
    ensures var m, (k', reply) := GetMount(k.table, path).0.value, RmDirK(k, path);
            && (!reply.Done? ==> k' == k)
            && m in k'.disks && k' == k.(disks := k.disks[m := k'.disks[m]])
  {
    hide GetMount, Tree.GetNode, RemoveChild;
    var m := GetMount(k.table, path).0.value;
    assert k.disks[m := k.disks[m]] == k.disks;
  }

  lemma RmDirWParts<M>(w: World<M>, path: string, m: M, rest: string)
    requires path != "" && path[0] == '/' && GetMount(w.table, path) == (Some(m), rest) && m in w.flats
    requires var f := w.flats[m];
             && (forall p | p in f.names :: Live(f.inodes, f.names[p]))
             && (forall p, q | p in f.names && q in f.names && f.names[p] == f.names[q] :: p == q)
    ensures var (f, p) := (w.flats[m], Canon(rest));
            var (w', reply) := RmDirW(w, path);
            if p !in f.names then reply == Error(Some(ENOENT))
            else if !f.IsDir(f.names[p]) then reply == Error(Some(ENOTDIR))
            else if HasEntries(f.names, f.names[p]) then reply == Error(Some(ENOTEMPTY))
            else
              && reply == Done(0) && m in w'.flats && w'.flats[m].names == f.names - {p}
              && w'.flats[m].inodes == Drop(f.inodes, f.names[p])
  {
    hide GetMount, Canon, HasEntries, Named, Held;
    var f, p := w.flats[m], Canon(rest);
    if p in f.names {
      TreeProofs.OnlyNameRemoved(f.names, p);
    }
  }

  /** `close` gives the number back, and nothing that has a name changes. */
  lemma CloseKeepsNames<M>(k: Kernel<M>, w: World<M>, fd: int, m: M)
    requires Sim(k, w) && Live(k.fds, fd) && m in k.disks
    ensures var (k', reply) := CloseK(k, fd);
            && reply == Done(0) && !Live(k'.fds, fd) && !Live(k'.files, fd)
            && |k'.fds| == |k.fds| && |k'.files| == |k.files|
            && (forall j | 0 <= j < |k.fds| && j != fd :: k'.fds[j] == k.fds[j])
            && (forall j | 0 <= j < |k.files| && j != fd :: k'.files[j] == k.files[j])
            && k'.cwd == k.cwd && k'.table == k.table
            && m in k'.disks && SameNames(k.disks[m], k'.disks[m])
  {
    var k', w' := CloseK(k, fd).0, CloseW(w, fd).0;
    CloseSim(k, w, fd);
    DescriptorLeads(k, w, fd);
    hide SameNames, Tree.GetNode, Canon;
    ClosedNames(k, w, k', w', fd, m);
  }

  lemma ClosedNames<M>(k: Kernel<M>, w: World<M>, k': Kernel<M>, w': World<M>, fd: int, m: M)
    requires Sim(k, w) && Sim(k', w') && w' == CloseW(w, fd).0 && m in k.disks
    ensures m in k'.disks && SameNames(k.disks[m], k'.disks[m])
  {
    hide Tree.GetNode, Canon;
    NamesLive(k, w, m);
    NamesLive(k', w', m);
    forall path | path != ""
      ensures Tree.GetNode(k'.disks[m], path) == Tree.GetNode(k.disks[m], path)
    {
      AlikeSeen(k, w, k', w', m, path);
    }
  }

  /** `stat` of an absolute path tells number, kind and size of what the mount has there. */
  lemma StatTells<M>(k: Kernel<M>, w: World<M>, path: string)
    requires Sim(k, w)
    ensures var (m, rest) := GetMount(k.table, path);
            if path == "" || path[0] != '/' || m.None? then StatK(k, path) == Error(Some(ENOENT))
            else
              && m.value in k.disks
              && StatK(k, path) == match NodeAt(k.disks[m.value], Canon(rest))
                                   case Fail(_) => Error(Some(ENOENT))
                                   case Ok(st) => Info(st.ino, st.isDir, st.size)
  {
    if path != "" && path[0] == '/' && GetMount(k.table, path).0.Some? {
      var (m, rest) := GetMount(k.table, path);
      RouteOrNothing(k.table, path);
      RouteIsMounted(k, w, path);
      CanonIsCanonical(rest);
      CanonOfPrint(true, Canon(rest));
      NodeSeen(k, w, m.value, rest);
      NodeSeen(k, w, m.value, Print(true, Canon(rest)));
    }
  }
}
