/**
  Who can write a file. Since any nonzero flags create exclusively
  (base/KernelProxy.cc:105), the only descriptor that can ever write a file is
  the one that created it.
 */
module Writers {
  import opened Wrappers
  import opened Slots
  import opened FlatFs
  import opened Worlds
  import opened Tree
  import opened Kernels
  import opened KernelProofs
  import opened Theorems
  import Paths
  import Mounts

  predicate CanWrite(flags: Flags) {
    flags.accMode % 4 != O_RDONLY
  }

  predicate WritesAt<M(==)>(opens: Table<OpenFile<M>>, fd: int, m: M, i: nat) {
    && Live(opens, fd) && CanWrite(opens[fd].value.flags)
    && opens[fd].value.mount == m && opens[fd].value.node == i
  }

  /** No two descriptors can write the same node. */
  ghost predicate OneWriter<M>(opens: Table<OpenFile<M>>) {
    forall a, b | Live(opens, a) && WritesAt(opens, b, opens[a].value.mount, opens[a].value.node) ::
      CanWrite(opens[a].value.flags) ==> a == b
  }

  ghost predicate Unwritten<M>(opens: Table<OpenFile<M>>, m: M, i: nat) {
    forall fd :: !WritesAt(opens, fd, m, i)
  }

  /** What a call does to the writers: `close` takes one away, `open` adds one on a new file. */
  lemma WritersAfter<M>(k: Kernel<M>, w: World<M>, c: Call, fd: int, m: M, i: nat)
    requires Sim(k, w) && Legal(w, c) && WritesAt(Step(w, c).0.opens, fd, m, i)
    ensures WritesAt(w.opens, fd, m, i)
         || (c.Open? && fd == Fresh(w.opens) && m in w.flats && !Live(w.flats[m].inodes, i))
  {
    if c.Open? && OpenW(w, c.path, c.flags).1.Done? {
      var m', i' := OpenedIsNew(w, c.path, c.flags);
    }
  }

  lemma OpenedIsNew<M>(w: World<M>, path: string, flags: Flags) returns (m: M, i: nat)
    requires Wired(w) && OpensSomething(path) && OpenW(w, path, flags).1.Done?
    ensures OpenW(w, path, flags).0.opens == Put(w.opens, OpenFile(m, i, 0, flags))
    ensures CanWrite(flags) ==> m in w.flats && !Live(w.flats[m].inodes, i)
  {
    hide Mounts.GetMount, Paths.Canon;
    var p := if Paths.IsAbsolute(path) then Paths.Canon(path) else w.cwd + Paths.Canon(path);
    var route := OpenRoute(w.table, p).value;
    m := route.0;
    var f := FlatOf(w, m);
    i := if flags.Nonzero() then FlatFs.Creat(f, route.1).1.value else FlatFs.GetNode(f, route.1).value;
  }

  lemma OneWriterStep<M>(k: Kernel<M>, w: World<M>, c: Call)
    requires Sim(k, w) && Legal(w, c) && OneWriter(w.opens)
    ensures OneWriter(Step(w, c).0.opens)
  {
    var opens' := Step(w, c).0.opens;
    forall a, b | Live(opens', a) && WritesAt(opens', b, opens'[a].value.mount, opens'[a].value.node)
      ensures CanWrite(opens'[a].value.flags) ==> a == b
    {
      var m, i := opens'[a].value.mount, opens'[a].value.node;
      if CanWrite(opens'[a].value.flags) {
        WritersAfter(k, w, c, a, m, i);
        WritersAfter(k, w, c, b, m, i);
        HeldIsLive(k, w, a, m, i);
        HeldIsLive(k, w, b, m, i);
      }
    }
  }

  lemma HeldIsLive<M>(k: Kernel<M>, w: World<M>, fd: int, m: M, i: nat)
    requires Sim(k, w)
    ensures WritesAt(w.opens, fd, m, i) ==> m in w.flats && Live(w.flats[m].inodes, i)
  {
    if WritesAt(w.opens, fd, m, i) {
      HandleSeen(k, w, fd);
      assert MountOk(k.disks, w.flats, w.opens, m);
    }
  }

  lemma {:induction false} OneWriterFrom<M>(k: Kernel<M>, w: World<M>, calls: seq<Call>)
    requires Sim(k, w) && LegalRun(w, calls) && OneWriter(w.opens)
    ensures OneWriter(Worlds.Run(w, calls).0.opens)
    decreases |calls|
  {
    if calls != [] {
      OneWriterStep(k, w, calls[0]);
      StepSim(k, w, calls[0]);
      OneWriterFrom(StepK(k, calls[0]).0, Step(w, calls[0]).0, calls[1..]);
    }
  }

  /** In every state that a run from empty mounts reaches, a file has at most one descriptor that can write it. */
  lemma AtMostOneWriter<M>(mounts: set<M>, table: Mounts.MountTable<M>, calls: seq<Call>)
    requires Bootable(mounts, table) && DefinedRun(BootK(mounts, table), calls)
    requires SparesDirsInUse(BootK(mounts, table), calls)
    ensures OneWriter(OpensOf(RunK(BootK(mounts, table), calls).0.files))
  {
    var k, w := BootK(mounts, table), BootW(mounts, table);
    BootSim(mounts, table);
    RunIsLegalIff(k, w, calls);
    RunSim(k, w, calls);
    OneWriterFrom(k, w, calls);
    SimShowsOpens(RunK(k, calls).0, Worlds.Run(w, calls).0);
  }

  // ------------------------------------------------------------ Files nobody writes

  predicate FileLives<M>(k: Kernel<M>, m: M, i: nat) {
    m in k.disks && Live(k.disks[m], i) && !IsDir(k.disks[m], i)
  }

  function ContentOf<M>(k: Kernel<M>, m: M, i: nat): Bytes
    requires FileLives(k, m, i)
  {
    k.disks[m][i].value.content
  }

  lemma ContentSeen<M>(k: Kernel<M>, w: World<M>, m: M, i: nat)
    requires Sim(k, w)
    ensures FileLives(k, m, i) <==> m in w.flats && w.flats[m].IsFile(i)
    ensures FileLives(k, m, i) ==> w.flats[m].inodes[i] == Some(Regular(ContentOf(k, m, i)))
  {
    if m in w.flats {
      assert MountOk(k.disks, w.flats, w.opens, m);
    }
  }

  lemma FrozenFlat<M>(w: World<M>, c: Call, m: M, i: nat)
    requires Wired(w) && Legal(w, c) && m in w.flats && w.flats[m].IsFile(i) && Unwritten(w.opens, m, i)
    ensures var w' := Step(w, c).0;
            m in w'.flats && (Live(w'.flats[m].inodes, i) ==> w'.flats[m].inodes[i] == w.flats[m].inodes[i])
  {
    hide Mounts.GetMount, Paths.Canon, HasEntries;
    match c
    case Write(fd, bytes) =>
      if Usable(w, fd, O_RDONLY) {
        assert !WritesAt(w.opens, fd, m, i);
      }
    case Open(path, flags) =>
      if OpenW(w, path, flags).1.Done? {
        var p := if Paths.IsAbsolute(path) then Paths.Canon(path) else w.cwd + Paths.Canon(path);
        var route := OpenRoute(w.table, p).value;
      }
    case _ =>
  }

  lemma FrozenStep<M>(k: Kernel<M>, w: World<M>, c: Call, m: M, i: nat)
    requires Sim(k, w) && Legal(w, c) && FileLives(k, m, i) && Unwritten(w.opens, m, i)
    ensures Defined(k, c) && Sim(StepK(k, c).0, Step(w, c).0)
    ensures Unwritten(Step(w, c).0.opens, m, i)
    ensures FileLives(StepK(k, c).0, m, i) ==> ContentOf(StepK(k, c).0, m, i) == ContentOf(k, m, i)
  {
    var w' := Step(w, c).0;
    StepSim(k, w, c);
    ContentSeen(k, w, m, i);
    ContentSeen(StepK(k, c).0, w', m, i);
    FrozenFlat(w, c, m, i);
    forall fd
      ensures !WritesAt(w'.opens, fd, m, i)
    {
      if WritesAt(w'.opens, fd, m, i) {
        WritersAfter(k, w, c, fd, m, i);
      }
    }
  }

  /** The file is there before, between and after the calls. */
  predicate LivesOn<M>(k: Kernel<M>, calls: seq<Call>, m: M, i: nat)
    requires DefinedRun(k, calls)
    decreases |calls|
  {
    FileLives(k, m, i) && (calls == [] || LivesOn(StepK(k, calls[0]).0, calls[1..], m, i))
  }

  lemma {:induction false} FrozenFrom<M>(k: Kernel<M>, w: World<M>, calls: seq<Call>, m: M, i: nat)
    requires Sim(k, w) && LegalRun(w, calls) && DefinedRun(k, calls) && Unwritten(w.opens, m, i)
    requires LivesOn(k, calls, m, i)
    ensures FileLives(RunK(k, calls).0, m, i) && ContentOf(RunK(k, calls).0, m, i) == ContentOf(k, m, i)
    decreases |calls|
  {
    if calls != [] {
      FrozenStep(k, w, calls[0], m, i);
      FrozenFrom(StepK(k, calls[0]).0, Step(w, calls[0]).0, calls[1..], m, i);
    }
  }

  /** As long as it lives, a file that no descriptor can write keeps its content, whatever is called. */
  lemma FrozenWhileAlive<M>(k: Kernel<M>, w: World<M>, calls: seq<Call>, m: M, i: nat)
    requires Sim(k, w) && DefinedRun(k, calls) && SparesDirsInUse(k, calls)
    requires Unwritten(OpensOf(k.files), m, i) && LivesOn(k, calls, m, i)
    ensures FileLives(RunK(k, calls).0, m, i) && ContentOf(RunK(k, calls).0, m, i) == ContentOf(k, m, i)
  {
    RunIsLegalIff(k, w, calls);
    SimShowsOpens(k, w);
    FrozenFrom(k, w, calls, m, i);
  }

  lemma CloseLeavesUnwritten<M>(w: World<M>, fd: int)
    requires OneWriter(w.opens) && Live(w.opens, fd) && CanWrite(w.opens[fd].value.flags)
    ensures Unwritten(CloseW(w, fd).0.opens, w.opens[fd].value.mount, w.opens[fd].value.node)
  {
    var m, i := w.opens[fd].value.mount, w.opens[fd].value.node;
    forall a
      ensures !WritesAt(CloseW(w, fd).0.opens, a, m, i)
    {
      assert WritesAt(w.opens, a, m, i) ==> a == fd;
    }
  }

  /** Once the descriptor that can write a file is closed, nothing changes the content of the file any more. */
  lemma ClosedIsFrozen<M>(k: Kernel<M>, w: World<M>, fd: int, calls: seq<Call>, m: M, i: nat)
    requires Sim(k, w) && OneWriter(OpensOf(k.files)) && WritesAt(OpensOf(k.files), fd, m, i)
    requires DefinedRun(CloseK(k, fd).0, calls) && SparesDirsInUse(CloseK(k, fd).0, calls)
    requires LivesOn(CloseK(k, fd).0, calls, m, i)
    ensures ContentOf(CloseK(k, fd).0, m, i) == ContentOf(k, m, i)
    ensures FileLives(RunK(CloseK(k, fd).0, calls).0, m, i)
    ensures ContentOf(RunK(CloseK(k, fd).0, calls).0, m, i) == ContentOf(k, m, i)
  {
    var k', w' := CloseK(k, fd).0, CloseW(w, fd).0;
    SimShowsOpens(k, w);
    CloseSim(k, w, fd);
    SimShowsOpens(k', w');
    CloseLeavesUnwritten(w, fd);
    FrozenWhileAlive(k', w', calls, m, i);
    ContentSeen(k, w, m, i);
    ContentSeen(k', w', m, i);
  }

  // ------------------------------------------------------------ What a reader sees

  lemma StaysOpen<M>(w: World<M>, c: Call, fd: int)
    requires Wired(w) && Legal(w, c) && Live(w.opens, fd) && c != Close(fd)
    ensures var opens := Step(w, c).0.opens;
            && Live(opens, fd) && opens[fd].value.mount == w.opens[fd].value.mount
            && opens[fd].value.node == w.opens[fd].value.node
  {
    hide Mounts.GetMount, Paths.Canon, OpenAt, OpensSomething;
    hide FlatFs.Creat, FlatFs.GetNode, FlatFs.Rmdir, FlatFs.Unlink;
    match c
    case Open(path, flags) =>
      if OpenW(w, path, flags).1.Done? {
        var m, i := OpenedIsNew(w, path, flags);
      } else {
        FailedOpenOpensNothing(w, path, flags);
      }
    case _ =>
  }

  lemma FailedOpenOpensNothing<M>(w: World<M>, path: string, flags: Flags)
    requires OpensSomething(path)
    ensures !OpenW(w, path, flags).1.Done? ==> OpenW(w, path, flags).0 == w
  {
    hide Mounts.GetMount, Paths.Canon, FlatFs.Creat, FlatFs.GetNode;
  }

  /** A descriptor that stays open on a file that nobody can write goes on showing the same content. */
  lemma {:induction false} FrozenWhileOpen<M>(k: Kernel<M>, w: World<M>, calls: seq<Call>, fd: int, m: M, i: nat)
    requires Sim(k, w) && LegalRun(w, calls) && Close(fd) !in calls
    requires Live(w.opens, fd) && w.opens[fd].value.mount == m && w.opens[fd].value.node == i
    requires FileLives(k, m, i) && Unwritten(w.opens, m, i)
    ensures DefinedRun(k, calls)
    ensures FileLives(RunK(k, calls).0, m, i) && ContentOf(RunK(k, calls).0, m, i) == ContentOf(k, m, i)
    decreases |calls|
  {
    if calls != [] {
      FrozenStep(k, w, calls[0], m, i);
      var k', w' := StepK(k, calls[0]).0, Step(w, calls[0]).0;
      StaysOpen(w, calls[0], fd);
      assert Close(fd) !in calls[1..];
      StillAFile(k, w, k', w', calls[0], fd, m, i);
      FrozenWhileOpen(k', w', calls[1..], fd, m, i);
    }
  }

  lemma StillAFile<M>(k: Kernel<M>, w: World<M>, k': Kernel<M>, w': World<M>, c: Call, fd: int, m: M, i: nat)
    requires Sim(k, w) && Legal(w, c) && FileLives(k, m, i) && Unwritten(w.opens, m, i)
    requires Sim(k', w') && w' == Step(w, c).0
    requires Live(w'.opens, fd) && w'.opens[fd].value.mount == m && w'.opens[fd].value.node == i
    ensures FileLives(k', m, i)
  {
    ContentSeen(k, w, m, i);
    ContentSeen(k', w', m, i);
    FrozenFlat(w, c, m, i);
    HandleSeen(k', w', fd);
    assert MountOk(k'.disks, w'.flats, w'.opens, m);
  }
}
