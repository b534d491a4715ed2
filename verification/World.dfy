/**
  What the system calls of base/KernelProxy.cc mean, over the reference file
  system: mounts hold flat file systems, and a descriptor is one open entry.
 */
module Worlds {
  import opened Wrappers
  import opened Paths
  import opened Slots
  import opened FlatFs
  import opened Mounts

  const O_RDONLY := 0
  const O_WRONLY := 1

  /** The bits of the flags argument that are looked at: access mode, O_APPEND, and any others. */
  datatype Flags = Flags(accMode: nat, append: bool, other: bool)
  {
    predicate Nonzero() {
      accMode != 0 || append || other
    }
  }

  const READ_ONLY := Flags(O_RDONLY, false, false)

  datatype Whence = SeekSet | SeekCur | SeekEnd | SeekOther

  datatype Call =
    | ChDir(path: string)
    | MkDir(path: string)
    | RmDir(path: string)
    | Remove(path: string)
    | StatPath(path: string)
    | Open(path: string, flags: Flags)
    | Close(fd: int)
    | Read(fd: int, count: nat)
    | Write(fd: int, bytes: Bytes)
    | LSeek(fd: int, offset: int, whence: Whence)
    | FStat(fd: int)

  /** `Error(None)` is a failure that leaves `errno` alone. */
  datatype Reply =
    | Done(n: int)
    | Data(bytes: Bytes)
    | Info(ino: nat, isDir: bool, size: nat)
    | Error(errno: Option<Errno>)

  datatype OpenFile<M> = OpenFile(mount: M, node: nat, offset: int, flags: Flags)

  datatype World<M> = World(
    flats: map<M, Flat>,
    table: MountTable<M>,
    opens: Table<OpenFile<M>>,
    cwd: Path)

  function FlatOf<M>(w: World<M>, m: M): Flat {
    if m in w.flats then w.flats[m] else Flat(map[], [])
  }

  ghost predicate Held<M>(opens: Table<OpenFile<M>>, m: M, i: int) {
    exists fd :: Live(opens, fd) && opens[fd].value.mount == m && opens[fd].value.node == i
  }

  function Answer(r: Result<nat>): Reply {
    match r
    case Ok(_) => Done(0)
    case Fail(e) => Error(Some(e))
  }

  function Describe(f: Flat, i: int): Reply {
    if !Live(f.inodes, i) then Error(Some(ENOENT))
    else
      match f.inodes[i].value
      case Directory => Info(i, true, 0)
      case Regular(content) => Info(i, false, |content|)
  }

  // ------------------------------------------------------------ Finding things

  /** The mount of a path and the components of the path inside the mount. */
  function Route<M>(table: MountTable<M>, path: string): Option<(M, Path)> {
    var (m, rest) := GetMount(table, path);
    if m.None? then None else Some((m.value, Canon(rest)))
  }

  /** Looks an absolute path up; relative paths are not found. */
  function Lookup<M>(w: World<M>, path: string): Option<(M, nat)> {
    if !IsAbsolute(path) then None
    else
      match Route(w.table, path)
      case None => None
      case Some((m, p)) => if p in FlatOf(w, m).names then Some((m, FlatOf(w, m).names[p])) else None
  }

  /** `open` routes the parent directory and adds the last component afterwards. */
  function OpenRoute<M>(table: MountTable<M>, p: Path): Option<(M, Path)>
    requires p != []
  {
    match Route(table, Print(true, Init(p)))
    case None => None
    case Some((m, dir)) => Some((m, dir + [p[|p| - 1]]))
  }

  // ------------------------------------------------------------ The calls

  function ChDirW<M>(w: World<M>, path: string): (World<M>, Reply) {
    if path == "" then (w, Error(None))
    else
      var target := ResolveJoinFirst(w.cwd, path);
      match Lookup(w, Print(true, target))
      case None => (w, Error(Some(ENOENT)))
      case Some((m, i)) =>
        if !FlatOf(w, m).IsDir(i) then (w, Error(Some(ENOTDIR)))
        else if Route(w.table, Print(true, w.cwd)).None? then (w, Error(None))
        else (w.(cwd := target), Done(0))
  }

  function MkDirW<M>(w: World<M>, path: string): (World<M>, Reply) {
    if path == "" then (w, Error(None))
    else
      match Route(w.table, Print(true, ResolveJoinFirst(w.cwd, path)))
      case None => (w, Error(Some(ENOTDIR)))
      case Some((m, p)) =>
        var (f, r) := Mkdir(FlatOf(w, m), p);
        (w.(flats := w.flats[m := f]), Answer(r))
  }

  ghost function RmDirW<M>(w: World<M>, path: string): (World<M>, Reply) {
    match Lookup(w, path)
    case None => (w, Error(Some(ENOENT)))
    case Some((m, i)) =>
      var (f, r) := Rmdir(FlatOf(w, m), i);
      (w.(flats := w.flats[m := f]), Answer(r))
  }

  ghost function RemoveW<M>(w: World<M>, path: string): (World<M>, Reply) {
    match Route(w.table, path)
    case None => (w, Error(Some(ENOENT)))
    case Some((m, p)) =>
      var f := FlatOf(w, m);
      if p !in f.names then (w, Error(Some(ENOENT)))
      else
        var i := f.names[p];
        var (f', r) := if f.IsDir(i) then Rmdir(f, i) else Unlink(f, p, Held(w.opens, m, i));
        (w.(flats := w.flats[m := f']), Answer(r))
  }

  function StatW<M>(w: World<M>, path: string): Reply {
    match Lookup(w, path)
    case None => Error(Some(ENOENT))
    case Some((m, i)) => Describe(FlatOf(w, m), i)
  }

  /** Any nonzero flags mean exclusive creation; zero flags mean opening what is there. */
  function OpenAt<M>(w: World<M>, p: Path, flags: Flags): (World<M>, Reply)
    requires p != []
  {
    match OpenRoute(w.table, p)
    case None => (w, Error(Some(ENOENT)))
    case Some((m, q)) =>
      var (f, r) := if flags.Nonzero() then Creat(FlatOf(w, m), q)
                    else (FlatOf(w, m), GetNode(FlatOf(w, m), q));
      match r
      case Fail(e) => (w, Error(Some(e)))
      case Ok(i) =>
        (w.(flats := w.flats[m := f], opens := Put(w.opens, OpenFile(m, i, 0, flags))),
         Done(Fresh(w.opens)))
  }

  /** A relative path is collapsed before it is joined to the working directory. */
  function OpenW<M>(w: World<M>, path: string, flags: Flags): (World<M>, Reply)
    requires OpensSomething(path)
  {
    if !IsAbsolute(path) && Canon(path) == [] then (w, Error(Some(EINVAL)))
    else OpenAt(w, if IsAbsolute(path) then Canon(path) else w.cwd + Canon(path), flags)
  }

  /** `open` of an absolute path that collapses to the root reads the last element of an empty list. */
  predicate OpensSomething(path: string) {
    IsAbsolute(path) ==> Canon(path) != []
  }

  ghost function CloseW<M>(w: World<M>, fd: int): (World<M>, Reply) {
    if !Live(w.opens, fd) then (w, Error(Some(EBADF)))
    else
      var o := w.opens[fd].value;
      var opens := Drop(w.opens, fd);
      var f := Release(FlatOf(w, o.mount), o.node, Held(opens, o.mount, o.node));
      (w.(flats := w.flats[o.mount := f], opens := opens), Done(0))
  }

  /** The descriptor is open on a regular file and not opened for `refused` only. */
  predicate Usable<M>(w: World<M>, fd: int, refused: nat) {
    && Live(w.opens, fd)
    && w.opens[fd].value.flags.accMode % 4 != refused
    && !FlatOf(w, w.opens[fd].value.mount).IsDir(w.opens[fd].value.node)
  }

  predicate AtOffset<M>(w: World<M>, fd: int) {
    && Live(w.opens, fd)
    && var o := w.opens[fd].value;
       o.mount in w.flats && InFile(w.flats[o.mount], o.node, o.offset)
  }

  function Advance<M>(opens: Table<OpenFile<M>>, fd: nat, offset: int): Table<OpenFile<M>>
    requires Live(opens, fd)
  {
    opens[fd := Some(opens[fd].value.(offset := offset))]
  }

  function ReadW<M>(w: World<M>, fd: int, count: nat): (World<M>, Reply)
    requires Usable(w, fd, O_WRONLY) ==> AtOffset(w, fd)
  {
    if !Usable(w, fd, O_WRONLY) then (w, Error(Some(EBADF)))
    else
      var o := w.opens[fd].value;
      var bytes := FlatFs.Read(w.flats[o.mount], o.node, o.offset, count);
      (w.(opens := Advance(w.opens, fd, o.offset + |bytes|)), Data(bytes))
  }

  function WriteW<M>(w: World<M>, fd: int, bytes: Bytes): (World<M>, Reply)
    requires Usable(w, fd, O_RDONLY) ==> AtOffset(w, fd)
  {
    if !Usable(w, fd, O_RDONLY) then (w, Error(Some(EBADF)))
    else
      var o := w.opens[fd].value;
      var f := FlatFs.Write(w.flats[o.mount], o.node, o.offset, bytes);
      (w.(flats := w.flats[o.mount := f], opens := Advance(w.opens, fd, o.offset + |bytes|)),
       Done(|bytes|))
  }

  function FileLength(f: Flat, i: nat): nat {
    if f.IsFile(i) then |f.inodes[i].value.content| else 0
  }

  /** SEEK_END counts backwards: the offset is subtracted from the length. */
  function LSeekW<M>(w: World<M>, fd: int, offset: int, whence: Whence): (World<M>, Reply) {
    if !Live(w.opens, fd) then (w, Error(Some(EBADF)))
    else
      var o := w.opens[fd].value;
      var f := FlatOf(w, o.mount);
      if f.IsDir(o.node) then (w, Error(Some(EBADF)))
      else if whence.SeekOther? then (w, Error(Some(EINVAL)))
      else
        var next := match whence
          case SeekSet => offset
          case SeekCur => o.offset + offset
          case _ => FileLength(f, o.node) - offset;
        if next < 0 then (w, Error(Some(EINVAL)))
        else (w.(opens := Advance(w.opens, fd, next)), Done(next))
  }

  function FStatW<M>(w: World<M>, fd: int): Reply {
    if !Live(w.opens, fd) then Error(Some(EBADF))
    else Describe(FlatOf(w, w.opens[fd].value.mount), w.opens[fd].value.node)
  }

  // ------------------------------------------------------------ Runs

  /** A directory whose removal would succeed is not its mount's root and not open. */
  ghost predicate MayRemoveDir<M>(w: World<M>, m: M, i: nat) {
    Rmdir(FlatOf(w, m), i).1.Ok? ==> i != 0 && !Held(w.opens, m, i)
  }

  /** The calls whose effect the code defines, and that remove no directory in use. */
  ghost predicate Legal<M>(w: World<M>, c: Call) {
    match c
    case Open(path, _) => OpensSomething(path)
    case RmDir(path) =>
      (match Lookup(w, path) case None => true case Some((m, i)) => MayRemoveDir(w, m, i))
    case Remove(path) =>
      (match Route(w.table, path)
       case None => true
       case Some((m, p)) => p in FlatOf(w, m).names ==> MayRemoveDir(w, m, FlatOf(w, m).names[p]))
    case Read(fd, _) => Usable(w, fd, O_WRONLY) ==> AtOffset(w, fd)
    case Write(fd, _) => Usable(w, fd, O_RDONLY) ==> AtOffset(w, fd)
    case _ => true
  }

  ghost function Step<M>(w: World<M>, c: Call): (World<M>, Reply)
    requires Legal(w, c)
  {
    match c
    case ChDir(path) => ChDirW(w, path)
    case MkDir(path) => MkDirW(w, path)
    case RmDir(path) => RmDirW(w, path)
    case Remove(path) => RemoveW(w, path)
    case StatPath(path) => (w, StatW(w, path))
    case Open(path, flags) => OpenW(w, path, flags)
    case Close(fd) => CloseW(w, fd)
    case Read(fd, count) => ReadW(w, fd, count)
    case Write(fd, bytes) => WriteW(w, fd, bytes)
    case LSeek(fd, offset, whence) => LSeekW(w, fd, offset, whence)
    case FStat(fd) => (w, FStatW(w, fd))
  }

  ghost predicate LegalRun<M>(w: World<M>, calls: seq<Call>)
    decreases |calls|
  {
    calls == [] || (Legal(w, calls[0]) && LegalRun(Step(w, calls[0]).0, calls[1..]))
  }

  ghost function Run<M>(w: World<M>, calls: seq<Call>): (World<M>, seq<Reply>)
    requires LegalRun(w, calls)
    decreases |calls|
  {
    if calls == [] then (w, [])
    else
      var (next, reply) := Step(w, calls[0]);
      var (last, replies) := Run(next, calls[1..]);
      (last, [reply] + replies)
  }
}
