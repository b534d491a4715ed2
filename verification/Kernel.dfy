/**
  The kernel proxy as a value (base/KernelProxy.cc): descriptor table, handle
  table, working directory, and the mounts with their slot tables. Each system
  call is a function that goes through the steps of the code.
 */
module Kernels {
  import opened Wrappers
  import opened Paths
  import opened Slots
  import opened FlatFs
  import opened Mounts
  import opened Worlds
  import opened Tree

  datatype Handle<M> = Handle(mount: M, node: nat, offset: int, flags: Flags, useCount: int)

  datatype Kernel<M> = Kernel(
    disks: map<M, Disk>,
    table: MountTable<M>,
    fds: Table<nat>,
    files: Table<Handle<M>>,
    cwd: Path)

  function DiskOf<M>(k: Kernel<M>, m: M): Disk {
    if m in k.disks then k.disks[m] else []
  }

  function Described(r: Result<Stat>): Reply {
    match r
    case Ok(Stat(ino, isDir, size)) => Info(ino, isDir, size)
    case Fail(e) => Error(Some(e))
  }

  /** `MountManager::GetNode`. */
  function FindNode<M>(k: Kernel<M>, path: string): Option<(M, nat)> {
    if !IsAbsolute(path) then None
    else
      var (m, rest) := GetMount(k.table, path);
      if m.None? || rest == "" then None
      else
        match Tree.GetNode(DiskOf(k, m.value), rest)
        case Fail(_) => None
        case Ok(st) => Some((m.value, st.ino))
  }

  function ChDirK<M>(k: Kernel<M>, path: string): (Kernel<M>, Reply) {
    if path == "" then (k, Error(None))
    else
      var target := ResolveJoinFirst(k.cwd, path);
      match FindNode(k, Print(true, target))
      case None => (k, Error(Some(ENOENT)))
      case Some((m, node)) =>
        if !IsDir(DiskOf(k, m), node) then (k, Error(Some(ENOTDIR)))
        else if GetMount(k.table, Print(true, k.cwd)).0.None? then (k, Error(None))
        else (k.(cwd := target), Done(0))
  }

  function MkDirK<M>(k: Kernel<M>, path: string): (Kernel<M>, Reply) {
    if path == "" then (k, Error(None))
    else
      var (m, rest) := GetMount(k.table, Print(true, ResolveJoinFirst(k.cwd, path)));
      if m.None? then (k, Error(Some(ENOTDIR)))
      else
        var (disk, r) := Tree.Mkdir(DiskOf(k, m.value), rest);
        (k.(disks := k.disks[m.value := disk]), Answer(r))
  }

  function RmDirK<M>(k: Kernel<M>, path: string): (Kernel<M>, Reply) {
    match FindNode(k, path)
    case None => (k, Error(Some(ENOENT)))
    case Some((m, node)) =>
      var (disk, r) := Tree.Rmdir(DiskOf(k, m), node);
      (k.(disks := k.disks[m := disk]), Answer(r))
  }

  function RemoveK<M>(k: Kernel<M>, path: string): (Kernel<M>, Reply) {
    var (m, rest) := GetMount(k.table, path);
    if m.None? then (k, Error(Some(ENOENT)))
    else
      match Tree.GetNode(DiskOf(k, m.value), rest)
      case Fail(_) => (k, Error(Some(ENOENT)))
      case Ok(st) =>
        var (disk, r) := if st.isDir then Tree.Rmdir(DiskOf(k, m.value), st.ino)
                         else Tree.Unlink(DiskOf(k, m.value), rest);
        (k.(disks := k.disks[m.value := disk]), Answer(r))
  }

  function StatK<M>(k: Kernel<M>, path: string): Reply {
    match FindNode(k, path)
    case None => Error(Some(ENOENT))
    case Some((m, node)) => Described(StatOf(DiskOf(k, m), node))
  }

  // ------------------------------------------------------------ Descriptors

  /** What `OpenHandle` does once it has the node. */
  function Attach<M>(k: Kernel<M>, m: M, node: nat, flags: Flags): Kernel<M> {
    var offset := if !flags.append then 0
                  else match StatOf(DiskOf(k, m), node) case Ok(st) => st.size case Fail(_) => 0;
    k.(disks := k.disks[m := Ref(DiskOf(k, m), node)],
       files := Put(k.files, Handle(m, node, offset, flags, 1)),
       fds := Put(k.fds, Fresh(k.files)))
  }

  function OpenHandle<M>(k: Kernel<M>, m: M, path: string, flags: Flags): (Kernel<M>, Reply) {
    var disk := DiskOf(k, m);
    var (disk', r) := if flags.Nonzero() then Tree.Creat(disk, path)
                      else (disk, match Tree.GetNode(disk, path) case Ok(st) => Ok(st.ino) case Fail(e) => Fail(e));
    match r
    case Fail(e) => (k, Error(Some(e)))
    case Ok(node) => (Attach(k.(disks := k.disks[m := disk']), m, node, flags), Done(Fresh(k.fds)))
  }

  /** Opens the file with components `ph`, through the mount of its parent directory. */
  function OpenFull<M>(k: Kernel<M>, ph: Path, flags: Flags): (Kernel<M>, Reply) {
    var filename := Last(ph);
    var (m, rest) := GetMount(k.table, CanonicalString(Print(true, ph) + "/.."));
    if m.None? then (k, Error(Some(ENOENT)))
    else OpenHandle(k, m.value, CanonicalString(rest + "/" + filename), flags)
  }

  function OpenK<M>(k: Kernel<M>, path: string, flags: Flags): (Kernel<M>, Reply)
    requires OpensSomething(path)
  {
    var text := CanonicalString(path);
    if text == "" then (k, Error(Some(EINVAL)))
    else OpenFull(k, if text[0] != SEP then Canon(Print(true, k.cwd) + "/" + text) else Canon(path), flags)
  }

  function CloseK<M>(k: Kernel<M>, fd: int): (Kernel<M>, Reply) {
    if !Live(k.fds, fd) then (k, Error(Some(EBADF)))
    else
      var h := k.fds[fd].value;
      var fds := Drop(k.fds, fd);
      if !Live(k.files, h) then (k.(fds := fds), Error(Some(EBADF)))
      else
        var handle := k.files[h].value.(useCount := k.files[h].value.useCount - 1);
        if handle.useCount <= 0 then
          (k.(fds := fds, files := Drop(k.files, h),
              disks := k.disks[handle.mount := Unref(DiskOf(k, handle.mount), handle.node)]), Done(0))
        else (k.(fds := fds, files := k.files[h := Some(handle)]), Done(0))
  }

  /** `GetFileHandle`: the index of the handle of a descriptor. */
  function HandleOf<M>(k: Kernel<M>, fd: int): Option<nat> {
    if Live(k.fds, fd) && Live(k.files, k.fds[fd].value) then Some(k.fds[fd].value) else None
  }

  predicate UsableK<M>(k: Kernel<M>, fd: int, refused: nat) {
    match HandleOf(k, fd)
    case None => false
    case Some(h) =>
      && k.files[h].value.flags.accMode % 4 != refused
      && !IsDir(DiskOf(k, k.files[h].value.mount), k.files[h].value.node)
  }

  predicate AtOffsetK<M>(k: Kernel<M>, fd: int) {
    match HandleOf(k, fd)
    case None => false
    case Some(h) =>
      var handle := k.files[h].value;
      0 <= handle.offset && Tree.InFile(DiskOf(k, handle.mount), handle.node, handle.offset)
  }

  function MoveTo<M>(k: Kernel<M>, h: nat, offset: int): Kernel<M>
    requires Live(k.files, h)
  {
    k.(files := k.files[h := Some(k.files[h].value.(offset := offset))])
  }

  function ReadK<M>(k: Kernel<M>, fd: int, count: nat): (Kernel<M>, Reply)
    requires UsableK(k, fd, O_WRONLY) ==> AtOffsetK(k, fd)
  {
    if !UsableK(k, fd, O_WRONLY) then (k, Error(Some(EBADF)))
    else
      var h := HandleOf(k, fd).value;
      var handle := k.files[h].value;
      match Tree.Read(DiskOf(k, handle.mount), handle.node, handle.offset, count)
      case Fail(e) => (k, Error(Some(e)))
      case Ok(bytes) => (MoveTo(k, h, handle.offset + |bytes|), Data(bytes))
  }

  function WriteK<M>(k: Kernel<M>, fd: int, bytes: Bytes): (Kernel<M>, Reply)
    requires UsableK(k, fd, O_RDONLY) ==> AtOffsetK(k, fd)
  {
    if !UsableK(k, fd, O_RDONLY) then (k, Error(Some(EBADF)))
    else
      var h := HandleOf(k, fd).value;
      var handle := k.files[h].value;
      var (disk, r) := Tree.Write(DiskOf(k, handle.mount), handle.node, handle.offset, bytes);
      match r
      case Fail(e) => (k, Error(Some(e)))
      case Ok(n) => (MoveTo(k.(disks := k.disks[handle.mount := disk]), h, handle.offset + n), Done(n))
  }

  function LSeekK<M>(k: Kernel<M>, fd: int, offset: int, whence: Whence): (Kernel<M>, Reply) {
    match HandleOf(k, fd)
    case None => (k, Error(Some(EBADF)))
    case Some(h) =>
      var handle := k.files[h].value;
      var disk := DiskOf(k, handle.mount);
      if IsDir(disk, handle.node) then (k, Error(Some(EBADF)))
      else
        match whence
        case SeekSet => SeekTo(k, h, offset)
        case SeekCur => SeekTo(k, h, handle.offset + offset)
        case SeekEnd =>
          (match StatOf(disk, handle.node)
           case Fail(e) => (k, Error(Some(e)))
           case Ok(st) => SeekTo(k, h, st.size - offset))
        case SeekOther => (k, Error(Some(EINVAL)))
  }

  function SeekTo<M>(k: Kernel<M>, h: nat, next: int): (Kernel<M>, Reply)
    requires Live(k.files, h)
  {
    if next < 0 then (k, Error(Some(EINVAL))) else (MoveTo(k, h, next), Done(next))
  }

  function FStatK<M>(k: Kernel<M>, fd: int): Reply {
    match HandleOf(k, fd)
    case None => Error(Some(EBADF))
    case Some(h) => Described(StatOf(DiskOf(k, k.files[h].value.mount), k.files[h].value.node))
  }

  // ------------------------------------------------------------ Runs

  /**
    What the code needs besides consistent tables to be defined: no `Last()` of
    an empty path, no access outside a buffer. Without slot 0, or with a dead
    slot in a child list, walks are not defined either.
   */
  predicate Defined<M>(k: Kernel<M>, c: Call) {
    match c
    case Open(path, _) => OpensSomething(path)
    case Read(fd, _) => UsableK(k, fd, O_WRONLY) ==> AtOffsetK(k, fd)
    case Write(fd, _) => UsableK(k, fd, O_RDONLY) ==> AtOffsetK(k, fd)
    case _ => true
  }

  function StepK<M>(k: Kernel<M>, c: Call): (Kernel<M>, Reply)
    requires Defined(k, c)
  {
    match c
    case ChDir(path) => ChDirK(k, path)
    case MkDir(path) => MkDirK(k, path)
    case RmDir(path) => RmDirK(k, path)
    case Remove(path) => RemoveK(k, path)
    case StatPath(path) => (k, StatK(k, path))
    case Open(path, flags) => OpenK(k, path, flags)
    case Close(fd) => CloseK(k, fd)
    case Read(fd, count) => ReadK(k, fd, count)
    case Write(fd, bytes) => WriteK(k, fd, bytes)
    case LSeek(fd, offset, whence) => LSeekK(k, fd, offset, whence)
    case FStat(fd) => (k, FStatK(k, fd))
  }

  predicate DefinedRun<M>(k: Kernel<M>, calls: seq<Call>)
    decreases |calls|
  {
    calls == [] || (Defined(k, calls[0]) && DefinedRun(StepK(k, calls[0]).0, calls[1..]))
  }

  function RunK<M>(k: Kernel<M>, calls: seq<Call>): (Kernel<M>, seq<Reply>)
    requires DefinedRun(k, calls)
    decreases |calls|
  {
    if calls == [] then (k, [])
    else
      var (next, reply) := StepK(k, calls[0]);
      var (last, replies) := RunK(next, calls[1..]);
      (last, [reply] + replies)
  }
}
