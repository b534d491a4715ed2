/**
  Consequences for every run that starts with empty mounts, said about the
  tables of the code alone.
 */
module Theorems {
  import opened Wrappers
  import opened Paths
  import opened Slots
  import opened FlatFs
  import opened Mounts
  import opened Worlds
  import opened Tree
  import opened Kernels
  import opened KernelProofs
  import opened TreeProofs
  import Offsets
  import Access

  // ------------------------------------------------------------ The start

  ghost predicate Bootable<M>(mounts: set<M>, table: MountTable<M>) {
    forall key | key in table && table[key].Some? :: table[key].value in mounts
  }

  function BootK<M>(mounts: set<M>, table: MountTable<M>): Kernel<M> {
    Kernel(map m | m in mounts :: EMPTY_DISK, table, [], [], [])
  }

  function BootW<M>(mounts: set<M>, table: MountTable<M>): World<M> {
    World(map m | m in mounts :: FlatFs.EMPTY, table, [], [])
  }

  lemma BootSim<M>(mounts: set<M>, table: MountTable<M>)
    requires Bootable(mounts, table)
    ensures Sim(BootK(mounts, table), BootW(mounts, table))
  {
    EmptyDiskInv();
    var k, w := BootK(mounts, table), BootW(mounts, table);
    forall m | m in w.flats
      ensures MountOk(k.disks, w.flats, w.opens, m)
    {
      assert Refs(w.opens, m) == multiset{};
    }
  }

  // ------------------------------------------------------------ Consistency

  /** The number of live handles on node `i` of mount `m`. */
  function HandleCount<M(==)>(files: Table<Handle<M>>, m: M, i: nat): nat {
    if files == [] then 0
    else
      var last := files[|files| - 1];
      HandleCount(files[..|files| - 1], m, i)
      + if last.Some? && last.value.mount == m && last.value.node == i then 1 else 0
  }

  ghost predicate Linked(fs: Disk, i: int) {
    exists owner :: i in Kids(fs, owner)
  }

  /** Descriptor and handle tables in lockstep, and no handle on a freed slot. */
  ghost predicate DescriptorsOk<M>(k: Kernel<M>) {
    && |k.fds| == |k.files|
    && (forall i | 0 <= i < |k.fds| :: k.fds[i].Some? == k.files[i].Some?)
    && (forall i | Live(k.fds, i) ::
          && k.fds[i].value == i
          && k.files[i].value.useCount == 1
          && k.files[i].value.mount in k.disks
          && Live(k.disks[k.files[i].value.mount], k.files[i].value.node))
  }

  /** Every node hangs once under the directory that is its parent, and climbing ends at the root. */
  ghost predicate TreeOk(fs: Disk) {
    && IsDir(fs, 0) && !Linked(fs, 0)
    && (forall i | IsDir(fs, i) && i != 0 :: Linked(fs, i))
    && (forall i | Live(fs, i) :: NoDuplicates(Kids(fs, i)))
    && (forall i, k {:trigger OwnsOnce(fs, i, k)} | k in Kids(fs, i) :: OwnsOnce(fs, i, k))
  }

  ghost predicate OwnsOnce(fs: Disk, i: int, k: nat) {
    && Live(fs, k) && fs[k].value.parent == i && IsDir(fs, i)
    && IsName(fs[k].value.name)
    && (forall j | k in Kids(fs, j) :: j == i)
    && (forall l | l in Kids(fs, i) && l != k :: Live(fs, l) && fs[l].value.name != fs[k].value.name)
    && PathUp(fs, k, |fs|).Some?
    && GetSlot(fs, Print(true, PathUp(fs, k, |fs|).value)) == Some(k)
  }

  /** A file's use count is its link plus the handles on it, and it has at least one of them. */
  ghost predicate CountsOk<M>(k: Kernel<M>, m: M)
    requires m in k.disks
  {
    forall i: nat | Live(k.disks[m], i) && !IsDir(k.disks[m], i) ::
      k.disks[m][i].value.useCount
      == HandleCount(k.files, m, i) + (if Linked(k.disks[m], i) then 1 else 0) > 0
  }

  ghost predicate Consistent<M>(k: Kernel<M>) {
    && DescriptorsOk(k)
    && forall m | m in k.disks :: TreeOk(k.disks[m]) && CountsOk(k, m)
  }

  lemma LinkedIffNamed(fs: Disk, names: Names, i: int)
    requires WellFormed(fs, names)
    ensures Linked(fs, i) <==> Named(names, i) && i != 0
  {
    if owner :| i in Kids(fs, owner) {
      var p :| p in names && names[p] == owner;
      assert NamedUnder(fs, names, p, i);
      assert names[p + [fs[i].value.name]] == i;
    }
    if Named(names, i) && i != 0 {
      var p :| p in names && names[p] == i;
      assert Hangs(fs, names, p);
    }
  }

  lemma OwnsEachOnce(fs: Disk, names: Names, i: int, k: nat)
    requires WellFormed(fs, names) && k in Kids(fs, i)
    ensures OwnsOnce(fs, i, k)
  {
    LinkedIffNamed(fs, names, k);
    var p := UpThenDown(fs, names, k);
    OneOwner(fs, names, i, i, k);
    forall j | k in Kids(fs, j)
      ensures j == i
    {
      OneOwner(fs, names, i, j, k);
    }
    var q :| q in names && names[q] == i;
    forall l | l in Kids(fs, i) && l != k
      ensures Live(fs, l) && fs[l].value.name != fs[k].value.name
    {
      SiblingsDiffer(fs, names, q, l, k);
    }
    assert NamedUnder(fs, names, q, k);
    var full := q + [fs[k].value.name];
    assert IsName(full[|q|]);
  }

  lemma WellFormedTree(fs: Disk, names: Names)
    requires WellFormed(fs, names)
    ensures TreeOk(fs)
  {
    LinkedIffNamed(fs, names, 0);
    forall i | IsDir(fs, i) && i != 0
      ensures Linked(fs, i)
    {
      LinkedIffNamed(fs, names, i);
    }
    forall i, k | k in Kids(fs, i)
      ensures OwnsOnce(fs, i, k)
    {
      OwnsEachOnce(fs, names, i, k);
    }
  }

  lemma {:induction false} HandleCountIsRefs<M>(files: Table<Handle<M>>, opens: Table<OpenFile<M>>, m: M, i: nat)
    requires |files| == |opens|
    requires forall j | 0 <= j < |files| ::
               && files[j].Some? == opens[j].Some?
               && (files[j].Some? ==> files[j].value.mount == opens[j].value.mount
                                      && files[j].value.node == opens[j].value.node)
    ensures HandleCount(files, m, i) == Refs(opens, m)[i]
  {
    if files != [] {
      HandleCountIsRefs(files[..|files| - 1], opens[..|opens| - 1], m, i);
    }
  }

  lemma SimConsistent<M>(k: Kernel<M>, w: World<M>)
    requires Sim(k, w)
    ensures Consistent(k)
  {
    forall i | Live(k.fds, i)
      ensures k.files[i].value.mount in k.disks && Live(k.disks[k.files[i].value.mount], k.files[i].value.node)
    {
      HandleSeen(k, w, i);
    }
    forall m | m in k.disks
      ensures TreeOk(k.disks[m]) && CountsOk(k, m)
    {
      SimMountConsistent(k, w, m);
    }
  }

  lemma SimMountConsistent<M>(k: Kernel<M>, w: World<M>, m: M)
    requires Sim(k, w) && m in k.disks
    ensures TreeOk(k.disks[m]) && CountsOk(k, m)
  {
    var fs, names, refs := k.disks[m], w.flats[m].names, Refs(w.opens, m);
    assert MountOk(k.disks, w.flats, w.opens, m);
    WellFormedTree(fs, names);
    forall i: nat | Live(fs, i) && !IsDir(fs, i)
      ensures fs[i].value.useCount == HandleCount(k.files, m, i) + (if Linked(fs, i) then 1 else 0) > 0
    {
      assert Counted(fs, names, refs, i);
      LinkedIffNamed(fs, names, i);
      HandleCountIsRefs(k.files, w.opens, m, i);
    }
  }

  /**
    With consistent tables `close` never misses the handle of a live descriptor,
    and the file it names is gone afterwards exactly when it is neither linked
    nor held by another handle.
   */
  lemma LastCloseFrees<M>(k: Kernel<M>, fd: int)
    requires DescriptorsOk(k) && Live(k.fds, fd)
    requires CountsOk(k, k.files[fd].value.mount)
    ensures var handle := k.files[fd].value;
            var (m, i) := (handle.mount, handle.node);
            && CloseK(k, fd).1 == Done(0)
            && (!IsDir(k.disks[m], i) ==>
                  (Live(CloseK(k, fd).0.disks[m], i)
                   <==> Linked(k.disks[m], i) || HandleCount(k.files, m, i) > 1))
  {
    var handle := k.files[fd].value;
    var fs := k.disks[handle.mount];
    HandleCounts(k.files, fd);
    var disks' := k.disks[handle.mount := Unref(fs, handle.node)];
    assert CloseK(k, fd) == (k.(fds := Drop(k.fds, fd), files := Drop(k.files, fd), disks := disks'), Done(0));
  }

  lemma {:induction false} HandleCounts<M>(files: Table<Handle<M>>, h: nat)
    requires Live(files, h)
    ensures HandleCount(files, files[h].value.mount, files[h].value.node) > 0
  {
    if h < |files| - 1 {
      HandleCounts(files[..|files| - 1], h);
    }
  }

  // ------------------------------------------------------------ Removing directories in use

  lemma {:induction false} CountedHandle<M>(files: Table<Handle<M>>, m: M, i: nat) returns (h: nat)
    requires HandleCount(files, m, i) > 0
    ensures Live(files, h) && files[h].value.mount == m && files[h].value.node == i
  {
    h := |files| - 1;
    if !(files[h].Some? && files[h].value.mount == m && files[h].value.node == i) {
      h := CountedHandle(files[..h], m, i);
    }
  }

  lemma HeldIsCounted<M>(k: Kernel<M>, w: World<M>, m: M, i: nat)
    requires Sim(k, w)
    ensures Held(w.opens, m, i) <==> HandleCount(k.files, m, i) > 0
  {
    RefsAreHeld(w.opens, m, i);
    HandleCountIsRefs(k.files, w.opens, m, i);
  }

  /** A directory without entries that is the root of its mount, or that a handle is on. */
  predicate RemovableInUse<M>(k: Kernel<M>, m: M, i: nat) {
    && IsDir(DiskOf(k, m), i) && Kids(DiskOf(k, m), i) == []
    && (i == 0 || HandleCount(k.files, m, i) > 0)
  }

  /** The call will remove such a directory: nothing in the code stops it. */
  predicate RemovesInUse<M>(k: Kernel<M>, c: Call) {
    match c
    case RmDir(path) =>
      (match FindNode(k, path) case None => false case Some((m, i)) => RemovableInUse(k, m, i))
    case Remove(path) =>
      var (m, rest) := GetMount(k.table, path);
      && m.Some?
      && (match Tree.GetNode(DiskOf(k, m.value), rest)
          case Fail(_) => false
          case Ok(st) => RemovableInUse(k, m.value, st.ino))
    case _ => false
  }

  lemma MayRemoveIff<M>(k: Kernel<M>, w: World<M>, m: M, i: nat)
    requires Sim(k, w) && m in w.flats
    ensures MayRemoveDir(w, m, i) <==> !RemovableInUse(k, m, i)
  {
    RemoveDirSim(k, w, m, i);
    HeldIsCounted(k, w, m, i);
  }

  lemma LegalIff<M>(k: Kernel<M>, w: World<M>, c: Call)
    requires Sim(k, w)
    ensures Legal(w, c) <==> Defined(k, c) && !RemovesInUse(k, c)
  {
    match c
    case RmDir(path) =>
      FindNodeIsLookup(k, w, path);
      if Lookup(w, path).Some? {
        MayRemoveIff(k, w, Lookup(w, path).value.0, Lookup(w, path).value.1);
      }
    case Remove(path) =>
      RouteOrNothing(w.table, path);
      var (m, rest) := GetMount(w.table, path);
      if m.Some? {
        NodesSeen(k, w, m.value, rest);
        var names := w.flats[m.value].names;
        if Canon(rest) in names {
          MayRemoveIff(k, w, m.value, names[Canon(rest)]);
        }
      }
    case Read(fd, _) => UsableAlike(k, w, fd, O_WRONLY);
    case Write(fd, _) => UsableAlike(k, w, fd, O_RDONLY);
    case _ =>
  }

  /** Without slot 0, or with a handle on a dead slot, the tables are not consistent. */
  lemma RemovalBreaks<M>(k: Kernel<M>, w: World<M>, m: M, i: nat)
    requires Sim(k, w) && m in w.flats && RemovableInUse(k, m, i)
    ensures !Consistent(k.(disks := k.disks[m := Tree.Rmdir(k.disks[m], i).0]))
  {
    var k' := k.(disks := k.disks[m := Tree.Rmdir(k.disks[m], i).0]);
    assert m in k'.disks && !Live(k'.disks[m], i);
    if i != 0 {
      var h := CountedHandle(k.files, m, i);
      assert Live(k.fds, h);
      assert !DescriptorsOk(k');
    } else {
      assert !TreeOk(k'.disks[m]);
    }
  }

  /**
    `rmdir` and `remove` take away any directory without entries. Of all calls,
    these are the only ones that can leave inconsistent tables, and they do
    exactly when the directory is the root of its mount or a handle is on it.
   */
  lemma StepConsistentIff<M>(k: Kernel<M>, w: World<M>, c: Call)
    requires Sim(k, w) && Defined(k, c)
    ensures Consistent(StepK(k, c).0) <==> !RemovesInUse(k, c)
  {
    LegalIff(k, w, c);
    if !RemovesInUse(k, c) {
      StepSim(k, w, c);
      SimConsistent(StepK(k, c).0, Step(w, c).0);
    } else if c.RmDir? {
      FindNodeIsLookup(k, w, c.path);
      var (m, i) := FindNode(k, c.path).value;
      RemovalBreaks(k, w, m, i);
    } else {
      RouteOrNothing(w.table, c.path);
      var (m, rest) := GetMount(k.table, c.path);
      NodesSeen(k, w, m.value, rest);
      RemovalBreaks(k, w, m.value, Tree.GetNode(k.disks[m.value], rest).value.ino);
    }
  }

  lemma RmDirConsistentIff<M>(k: Kernel<M>, w: World<M>, path: string)
    requires Sim(k, w) && RmDirK(k, path).1.Done?
    ensures FindNode(k, path).Some?
    ensures var (m, i) := FindNode(k, path).value;
            Consistent(RmDirK(k, path).0) <==> i != 0 && HandleCount(k.files, m, i) == 0
  {
    FindNodeIsLookup(k, w, path);
    StepConsistentIff(k, w, RmDir(path));
  }

  lemma RemoveConsistentIff<M>(k: Kernel<M>, w: World<M>, path: string)
    requires Sim(k, w) && RemoveK(k, path).1.Done?
    ensures var (m, rest) := GetMount(k.table, path);
            && m.Some? && Tree.GetNode(DiskOf(k, m.value), rest).Ok?
            && var st := Tree.GetNode(DiskOf(k, m.value), rest).value;
               Consistent(RemoveK(k, path).0)
               <==> !st.isDir || (st.ino != 0 && HandleCount(k.files, m.value, st.ino) == 0)
  {
    RouteOrNothing(w.table, path);
    var (m, rest) := GetMount(k.table, path);
    NodesSeen(k, w, m.value, rest);
    DescribedAlike(k, w, m.value, Tree.GetNode(k.disks[m.value], rest).value.ino);
    StepConsistentIff(k, w, Remove(path));
  }

  // ------------------------------------------------------------ Whole runs

  /** No call of the run removes a directory in use. */
  predicate SparesDirsInUse<M>(k: Kernel<M>, calls: seq<Call>)
    requires DefinedRun(k, calls)
    decreases |calls|
  {
    calls == [] || (!RemovesInUse(k, calls[0]) && SparesDirsInUse(StepK(k, calls[0]).0, calls[1..]))
  }

  /** The tables are consistent before, between and after the calls. */
  ghost predicate StaysConsistent<M>(k: Kernel<M>, calls: seq<Call>)
    requires DefinedRun(k, calls)
    decreases |calls|
  {
    Consistent(k) && (calls == [] || StaysConsistent(StepK(k, calls[0]).0, calls[1..]))
  }

  lemma {:induction false} RunIsLegalIff<M>(k: Kernel<M>, w: World<M>, calls: seq<Call>)
    requires Sim(k, w) && DefinedRun(k, calls)
    ensures SparesDirsInUse(k, calls) <==> LegalRun(w, calls)
    ensures SparesDirsInUse(k, calls) <==> StaysConsistent(k, calls)
    decreases |calls|
  {
    SimConsistent(k, w);
    if calls != [] {
      LegalIff(k, w, calls[0]);
      StepConsistentIff(k, w, calls[0]);
      var k' := StepK(k, calls[0]).0;
      if !RemovesInUse(k, calls[0]) {
        StepSim(k, w, calls[0]);
        RunIsLegalIff(k', Step(w, calls[0]).0, calls[1..]);
      } else {
        BrokenStart(k', calls[1..]);
      }
    }
  }

  lemma BrokenStart<M>(k: Kernel<M>, calls: seq<Call>)
    requires !Consistent(k) && DefinedRun(k, calls)
    ensures !StaysConsistent(k, calls)
  {
  }

  /**
    From empty mounts, a run whose calls are all defined has consistent tables
    all along if and only if it removes no directory in use; and then it gets
    the replies of the reference.
   */
  lemma RunConsistent<M>(mounts: set<M>, table: MountTable<M>, calls: seq<Call>)
    requires Bootable(mounts, table) && DefinedRun(BootK(mounts, table), calls)
    ensures var k, w := BootK(mounts, table), BootW(mounts, table);
            && (StaysConsistent(k, calls) <==> SparesDirsInUse(k, calls))
            && (SparesDirsInUse(k, calls) ==>
                  && LegalRun(w, calls)
                  && Consistent(RunK(k, calls).0)
                  && RunK(k, calls).1 == Worlds.Run(w, calls).1)
  {
    var k, w := BootK(mounts, table), BootW(mounts, table);
    BootSim(mounts, table);
    RunIsLegalIff(k, w, calls);
    if SparesDirsInUse(k, calls) {
      RunSim(k, w, calls);
      SimConsistent(RunK(k, calls).0, Worlds.Run(w, calls).0);
    }
  }

  /** Where the handles are: inside their files. */
  ghost predicate OffsetsInFiles<M>(k: Kernel<M>) {
    forall fd | Live(k.fds, fd) ::
      match HandleOf(k, fd)
      case None => false
      case Some(h) => IsDir(DiskOf(k, k.files[h].value.mount), k.files[h].value.node) || AtOffsetK(k, fd)
  }

  /** A seek that lands behind the end of the file: SEEK_END counts backwards from there. */
  predicate SeeksBeyondEnd<M>(k: Kernel<M>, c: Call) {
    match c
    case LSeek(fd, offset, whence) =>
      (match HandleOf(k, fd)
       case None => false
       case Some(h) =>
         var handle := k.files[h].value;
         var disk := DiskOf(k, handle.mount);
         && Live(disk, handle.node) && !IsDir(disk, handle.node)
         && var length := |disk[handle.node].value.content|;
            match whence
            case SeekSet => offset > length
            case SeekCur => handle.offset + offset > length
            case SeekEnd => offset < 0
            case SeekOther => false)
    case _ => false
  }

  /** What callers have to see to, call by call. */
  predicate Careful<M>(k: Kernel<M>, c: Call) {
    && (c.Open? ==> OpensSomething(c.path))
    && !RemovesInUse(k, c)
    && !SeeksBeyondEnd(k, c)
  }

  predicate CarefulRun<M>(k: Kernel<M>, calls: seq<Call>)
    decreases |calls|
  {
    calls == [] ||
    (Careful(k, calls[0]) && (Defined(k, calls[0]) ==> CarefulRun(StepK(k, calls[0]).0, calls[1..])))
  }

  lemma OffsetsAlike<M>(k: Kernel<M>, w: World<M>)
    requires Sim(k, w)
    ensures OffsetsInFiles(k) <==> Offsets.InBounds(w)
  {
    forall fd | Live(w.opens, fd)
      ensures var o := w.opens[fd].value;
              && HandleOf(k, fd) == Some(fd) && k.files[fd].value.mount == o.mount && k.files[fd].value.node == o.node
              && (IsDir(k.disks[o.mount], o.node) == w.flats[o.mount].IsDir(o.node))
              && (!w.flats[o.mount].IsDir(o.node) ==>
                    (AtOffsetK(k, fd) <==> FlatFs.InFile(w.flats[o.mount], o.node, o.offset)))
    {
      HandleSeen(k, w, fd);
      DescribedAlike(k, w, w.opens[fd].value.mount, w.opens[fd].value.node);
      assert MountOk(k.disks, w.flats, w.opens, w.opens[fd].value.mount);
    }
  }

  lemma SeeksAlike<M>(k: Kernel<M>, w: World<M>, c: Call)
    requires Sim(k, w)
    ensures SeeksBeyondEnd(k, c) <==> Offsets.SeeksBeyond(w, c)
  {
    hide Sim, StatOf, Describe;
    if c.LSeek? {
      HandleSeen(k, w, c.fd);
      if Live(w.opens, c.fd) {
        var o := w.opens[c.fd].value;
        DescribedAlike(k, w, o.mount, o.node);
        LengthSeen(k, w, o.mount, o.node);
      }
    }
  }

  lemma CarefulStep<M>(k: Kernel<M>, w: World<M>, c: Call)
    requires Sim(k, w) && Offsets.InBounds(w) && Careful(k, c)
    ensures Legal(w, c) && Defined(k, c)
    ensures Offsets.InBounds(Step(w, c).0)
  {
    Offsets.SimRooted(k, w);
    LegalIff(k, w, c);
    Offsets.OffsetsStayInBounds(w, c);
    SeeksAlike(k, w, c);
  }

  lemma {:induction false} CarefulFrom<M>(k: Kernel<M>, w: World<M>, calls: seq<Call>)
    requires Sim(k, w) && Offsets.InBounds(w) && CarefulRun(k, calls)
    ensures DefinedRun(k, calls) && SparesDirsInUse(k, calls) && OffsetsInFiles(RunK(k, calls).0)
    decreases |calls|
  {
    if calls == [] {
      OffsetsAlike(k, w);
    } else {
      CarefulStep(k, w, calls[0]);
      StepSim(k, w, calls[0]);
      CarefulFrom(StepK(k, calls[0]).0, Step(w, calls[0]).0, calls[1..]);
    }
  }

  /**
    From empty mounts, a run that never opens the root, removes no directory in
    use and seeks behind the end of no file is defined from the first call to
    the last, keeps the tables consistent, and leaves every offset in its file.
   */
  lemma CarefulRunIsDefined<M>(mounts: set<M>, table: MountTable<M>, calls: seq<Call>)
    requires Bootable(mounts, table) && CarefulRun(BootK(mounts, table), calls)
    ensures var k := BootK(mounts, table);
            && DefinedRun(k, calls) && StaysConsistent(k, calls)
            && OffsetsInFiles(RunK(k, calls).0)
            && LegalRun(BootW(mounts, table), calls)
            && RunK(k, calls).1 == Worlds.Run(BootW(mounts, table), calls).1
  {
    BootSim(mounts, table);
    CarefulFrom(BootK(mounts, table), BootW(mounts, table), calls);
    RunConsistent(mounts, table, calls);
  }

  /** On a fresh system `rmdir("/")` succeeds and frees slot 0. */
  lemma RemovingRootSucceeds<M>(m: M)
    ensures var k := BootK({m}, map["/" := Some(m)]);
            && RmDirK(k, "/").1 == Done(0)
            && RmDirK(k, "/").0.disks[m] == [None]
            && !Consistent(RmDirK(k, "/").0)
  {
    var table := map["/" := Some(m)];
    var k, w := BootK({m}, table), BootW({m}, table);
    BootSim({m}, table);
    FindNodeIsLookup(k, w, "/");
    var root := "/";
    assert root[..1] == root;
    RouteIsLongest(table, root, root);
    CanonOfPrint(true, []);
    assert Print(true, []) == root;
    assert FindNode(k, root) == Some((m, 0));
  }

  /** With a second mount at "/mnt", `stat` finds its root, and `access` does not. */
  lemma AccessMissesMount<M>(a: M, b: M, amode: bv16)
    ensures var k := BootK({a, b}, map["/" := Some(a), "/mnt" := Some(b)]);
            StatK(k, "/mnt").Info? && !Access.AccessK(k, "/mnt", amode).Done?
  {
    var table := map["/" := Some(a), "/mnt" := Some(b)];
    BootSim({a, b}, table);
    var slashes, key := "//", "/mnt";
    assert slashes[1] != key[1] && |slashes| > |"/"|;
    assert Access.NoDoubleSlash(table.Keys);
    Access.AccessSkipsMounts(BootK({a, b}, table), BootW({a, b}, table), b, amode);
  }

  /** One mount that holds the directory "d". */
  function OneDirectory<M>(m: M, opens: Table<OpenFile<M>>): World<M> {
    World(map[m := Flat(map[[] := 0, ["d"] := 1], [Some(Directory), Some(Directory)])], map["/" := Some(m)], opens, [])
  }

  lemma PathsOfOneDirectory<M>(m: M)
    ensures Canon("/d") == ["d"] && IsAbsolute("/d") && Print(true, ["d"]) == "/d"
    ensures Route(map["/" := Some(m)], "/d") == Some((m, ["d"]))
    ensures Route(map["/" := Some(m)], "/") == Some((m, []))
  {
    var dir, p := "/d", ["d"];
    assert Print(true, p) == dir && Print(true, []) == "/";
    CanonOfPrint(true, p);
    CanonOfPrint(true, []);
    Access.RootRoute(m, dir);
    Access.RootRoute(m, "/");
  }

  lemma MakesOneDirectory<M>(m: M)
    ensures MkDirW(BootW({m}, map["/" := Some(m)]), "/d") == (OneDirectory(m, []), Done(0))
  {
    var table, w0 := map["/" := Some(m)], BootW({m}, map["/" := Some(m)]);
    PathsOfOneDirectory(m);
    hide Route, Canon, Print;
    assert ResolveJoinFirst(w0.cwd, "/d") == ["d"];
    assert Init(["d"]) == [];
    var f := FlatFs.Mkdir(FlatFs.EMPTY, ["d"]).0;
    assert f == OneDirectory(m, []).flats[m];
    assert w0.flats[m := f] == OneDirectory(m, []).flats;
  }

  lemma OpensOneDirectory<M>(m: M)
    ensures OpensSomething("/d")
    ensures OpenW(OneDirectory(m, []), "/d", READ_ONLY)
         == (OneDirectory(m, [Some(OpenFile(m, 1, 0, READ_ONLY))]), Done(0))
  {
    var w := OneDirectory(m, []);
    PathsOfOneDirectory(m);
    assert Print(true, []) == "/";
    hide Route, Canon, Print;
    assert Init(["d"]) == [];
    assert OpenRoute(w.table, ["d"]) == Some((m, ["d"]));
    assert w.flats[m := w.flats[m]] == w.flats;
    assert Put(w.opens, OpenFile(m, 1, 0, READ_ONLY)) == [Some(OpenFile(m, 1, 0, READ_ONLY))];
    assert OpenW(w, "/d", READ_ONLY) == OpenAt(w, ["d"], READ_ONLY);
  }

  lemma RemovesOneDirectory<M>(m: M)
    ensures var w := OneDirectory(m, [Some(OpenFile(m, 1, 0, READ_ONLY))]);
            RmDirW(w, "/d").1 == Done(0) && !Legal(w, RmDir("/d"))
  {
    var w := OneDirectory(m, [Some(OpenFile(m, 1, 0, READ_ONLY))]);
    PathsOfOneDirectory(m);
    hide Route, Canon, Print;
    assert Lookup(w, "/d") == Some((m, 1));
    assert Live(w.opens, 0) && Held(w.opens, m, 1);
    assert !HasEntries(w.flats[m].names, 1);
  }

  /** A directory can be opened, and `rmdir` then removes it under the handle. */
  lemma RemovingOpenDirectorySucceeds<M>(m: M)
    ensures var k := BootK({m}, map["/" := Some(m)]);
            var calls := [MkDir("/d"), Open("/d", READ_ONLY), RmDir("/d")];
            && DefinedRun(k, calls)
            && RunK(k, calls).1 == [Done(0), Done(0), Done(0)]
            && !Consistent(RunK(k, calls).0)
  {
    var k0, w0 := BootK({m}, map["/" := Some(m)]), BootW({m}, map["/" := Some(m)]);
    var w1, w2 := OneDirectory(m, []), OneDirectory(m, [Some(OpenFile(m, 1, 0, READ_ONLY))]);
    BootSim({m}, map["/" := Some(m)]);
    MakesOneDirectory(m);
    OpensOneDirectory(m);
    RemovesOneDirectory(m);
    hide BootK, BootW, OneDirectory, Sim, Legal, Defined, Consistent, MkDirK, MkDirW, OpenK, OpenW, RmDirK, RmDirW;
    MkDirSim(k0, w0, "/d");
    var k1 := MkDirK(k0, "/d").0;
    OpenSim(k1, w1, "/d", READ_ONLY);
    var k2 := OpenK(k1, "/d", READ_ONLY).0;
    RmDirSim(k2, w2, "/d");
    RunsIntoRemoval(k0, w2, "/d", READ_ONLY);
  }

  lemma RunsIntoRemoval<M>(k: Kernel<M>, w: World<M>, dir: string, flags: Flags)
    requires OpensSomething(dir)
    requires Sim(OpenK(MkDirK(k, dir).0, dir, flags).0, w) && !Legal(w, RmDir(dir))
    ensures var k1 := MkDirK(k, dir).0;
            var k2 := OpenK(k1, dir, flags).0;
            var calls := [MkDir(dir), Open(dir, flags), RmDir(dir)];
            && DefinedRun(k, calls)
            && RunK(k, calls).1 == [MkDirK(k, dir).1, OpenK(k1, dir, flags).1, RmDirK(k2, dir).1]
            && !Consistent(RunK(k, calls).0)
  {
    hide Sim, Legal, Consistent, RemovesInUse, MkDirK, OpenK, RmDirK;
    var k2 := OpenK(MkDirK(k, dir).0, dir, flags).0;
    LegalIff(k2, w, RmDir(dir));
    StepConsistentIff(k2, w, RmDir(dir));
    ThreeCalls(k, MkDir(dir), Open(dir, flags), RmDir(dir));
  }

  lemma OneCallMore<M>(k: Kernel<M>, c: Call, calls: seq<Call>)
    requires Defined(k, c) && DefinedRun(StepK(k, c).0, calls)
    ensures DefinedRun(k, [c] + calls)
    ensures var (k', replies) := RunK(StepK(k, c).0, calls);
            RunK(k, [c] + calls) == (k', [StepK(k, c).1] + replies)
  {
    hide StepK, Defined;
    assert ([c] + calls)[1..] == calls;
  }

  lemma NoCall<M>(k: Kernel<M>)
    ensures DefinedRun(k, []) && RunK(k, []) == (k, [])
  {
  }

  lemma ThreeCalls<M>(k: Kernel<M>, a: Call, b: Call, c: Call)
    requires Defined(k, a) && Defined(StepK(k, a).0, b) && Defined(StepK(StepK(k, a).0, b).0, c)
    ensures DefinedRun(k, [a, b, c])
    ensures var (k1, r1) := StepK(k, a);
            var (k2, r2) := StepK(k1, b);
            var (k3, r3) := StepK(k2, c);
            RunK(k, [a, b, c]) == (k3, [r1, r2, r3])
  {
    hide StepK, Defined, RunK, DefinedRun;
    var k1, k2 := StepK(k, a).0, StepK(StepK(k, a).0, b).0;
    assert [c] + [] == [c] && [b] + [c] == [b, c] && [a] + [b, c] == [a, b, c];
    NoCall(StepK(k2, c).0);
    OneCallMore(k2, c, []);
    OneCallMore(k1, b, [c]);
    OneCallMore(k, a, [b, c]);
    var r1, r2, r3 := StepK(k, a).1, StepK(k1, b).1, StepK(k2, c).1;
    assert [r3] + [] == [r3] && [r1] + ([r2] + [r3]) == [r1, r2, r3];
  }
}
