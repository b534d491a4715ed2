/**
  Where file offsets can be: `read` and `write` of the memory mount are defined
  only up to the end of the file, and nothing in the code checks it.
 */
module Offsets {
  import opened Paths
  import opened Slots
  import opened FlatFs
  import opened Worlds
  import opened Kernels
  import opened KernelProofs

  predicate InBounds<M>(w: World<M>) {
    forall fd | 0 <= fd < |w.opens| && w.opens[fd].Some? ::
      var o := w.opens[fd].value;
      && o.mount in w.flats
      && (w.flats[o.mount].IsDir(o.node) || FlatFs.InFile(w.flats[o.mount], o.node, o.offset))
  }

  /** A seek that lands behind the end of the file; SEEK_END does with any negative offset. */
  predicate SeeksBeyond<M>(w: World<M>, c: Call) {
    match c
    case LSeek(fd, offset, whence) =>
      && Live(w.opens, fd)
      && var o := w.opens[fd].value;
         var f := FlatOf(w, o.mount);
         && !f.IsDir(o.node)
         && (match whence
             case SeekSet => offset > FileLength(f, o.node)
             case SeekCur => o.offset + offset > FileLength(f, o.node)
             case SeekEnd => offset < 0
             case SeekOther => false)
    case _ => false
  }

  /** What an open entry needs of its inode goes on to hold: files never shrink. */
  predicate Keeps(f: Flat, f': Flat, i: nat) {
    && (f.IsDir(i) ==> f'.IsDir(i))
    && (f.IsFile(i) ==> f'.IsFile(i) && |f.inodes[i].value.content| <= |f'.inodes[i].value.content|)
  }

  lemma OneFlatInBounds<M>(w: World<M>, m: M, f': Flat)
    requires InBounds(w) && m in w.flats
    requires forall i | Held(w.opens, m, i) && i >= 0 :: Keeps(w.flats[m], f', i)
    ensures InBounds(w.(flats := w.flats[m := f']))
  {
    var w' := w.(flats := w.flats[m := f']);
    forall fd | Live(w'.opens, fd)
      ensures var o := w'.opens[fd].value;
              o.mount in w'.flats
              && (w'.flats[o.mount].IsDir(o.node) || FlatFs.InFile(w'.flats[o.mount], o.node, o.offset))
    {
      var o := w.opens[fd].value;
      if o.mount == m {
        assert Held(w.opens, m, o.node);
      }
    }
  }

  lemma RemovalInBounds<M>(w: World<M>, m: M, p: Path, i: nat)
    requires InBounds(w) && m in w.flats
    ensures MayRemoveDir(w, m, i) ==> InBounds(w.(flats := w.flats[m := Rmdir(w.flats[m], i).0]))
    ensures p in w.flats[m].names ==>
              InBounds(w.(flats := w.flats[m := Unlink(w.flats[m], p, Held(w.opens, m, w.flats[m].names[p])).0]))
  {
    if MayRemoveDir(w, m, i) {
      OneFlatInBounds(w, m, Rmdir(w.flats[m], i).0);
    }
    if p in w.flats[m].names {
      OneFlatInBounds(w, m, Unlink(w.flats[m], p, Held(w.opens, m, w.flats[m].names[p])).0);
    }
  }

  lemma OpenInBounds<M>(w: World<M>, path: string, flags: Flags)
    requires InBounds(w) && Wired(w) && Rooted(w) && OpensSomething(path)
    ensures InBounds(OpenW(w, path, flags).0)
  {
    if OpenW(w, path, flags).1.Done? {
      var p := if IsAbsolute(path) then Canon(path) else w.cwd + Canon(path);
      var (m, q) := OpenRoute(w.table, p).value;
      var f := w.flats[m];
      var (f', r) := if flags.Nonzero() then Creat(f, q) else (f, GetNode(f, q));
      OneFlatInBounds(w, m, f');
      AddInBounds(w.(flats := w.flats[m := f']), m, r.value, flags);
      assert OpenW(w, path, flags).0
          == w.(flats := w.flats[m := f'], opens := Put(w.opens, OpenFile(m, r.value, 0, flags)));
    }
  }

  lemma AddInBounds<M>(w: World<M>, m: M, i: nat, flags: Flags)
    requires InBounds(w) && m in w.flats && Live(w.flats[m].inodes, i)
    ensures InBounds(w.(opens := Put(w.opens, OpenFile(m, i, 0, flags))))
  {
  }

  lemma CloseInBounds<M>(w: World<M>, fd: int)
    requires InBounds(w)
    ensures InBounds(CloseW(w, fd).0)
  {
    if Live(w.opens, fd) {
      var o, opens := w.opens[fd].value, Drop(w.opens, fd);
      OneFlatInBounds(w.(opens := opens), o.mount,
                      Release(FlatOf(w, o.mount), o.node, Held(opens, o.mount, o.node)));
    }
  }

  lemma WriteInBounds<M>(w: World<M>, fd: int, bytes: Bytes)
    requires InBounds(w) && Legal(w, Call.Write(fd, bytes))
    ensures InBounds(WriteW(w, fd, bytes).0)
  {
    if Usable(w, fd, O_RDONLY) {
      var o := w.opens[fd].value;
      OneFlatInBounds(w, o.mount, FlatFs.Write(w.flats[o.mount], o.node, o.offset, bytes));
    }
  }

  /** Every name leads to a live inode. */
  predicate Rooted<M>(w: World<M>) {
    forall m, p | m in w.flats && p in w.flats[m].names :: Live(w.flats[m].inodes, w.flats[m].names[p])
  }

  lemma SimRooted<M>(k: Kernel<M>, w: World<M>)
    requires Sim(k, w)
    ensures Rooted(w)
  {
    forall m, p | m in w.flats && p in w.flats[m].names
      ensures Live(w.flats[m].inodes, w.flats[m].names[p])
    {
      assert MountOk(k.disks, w.flats, w.opens, m);
    }
  }

  /**
    When all offsets are inside their files, `read` and `write` are defined on
    every descriptor; and the only call that moves an offset out is a seek that
    lands behind the end of the file.
   */
  lemma OffsetsStayInBounds<M>(w: World<M>, c: Call)
    requires InBounds(w) && Wired(w) && Rooted(w)
    ensures c.Read? || c.Write? ==> Legal(w, c)
    ensures Legal(w, c) ==> (InBounds(Step(w, c).0) <==> !SeeksBeyond(w, c))
  {
    if Legal(w, c) {
      match c
      case ChDir(path) =>
      case MkDir(path) =>
        var route := Route(w.table, Print(true, ResolveJoinFirst(w.cwd, path)));
        if route.Some? {
          var (m, p) := route.value;
          OneFlatInBounds(w, m, FlatFs.Mkdir(w.flats[m], p).0);
        }
      case RmDir(path) =>
        var found := Lookup(w, path);
        if found.Some? {
          RemovalInBounds(w, found.value.0, [], found.value.1);
        }
      case Remove(path) =>
        var route := Route(w.table, path);
        if route.Some? && route.value.1 in w.flats[route.value.0].names {
          var (m, p) := route.value;
          RemovalInBounds(w, m, p, w.flats[m].names[p]);
        }
      case StatPath(path) =>
      case Open(path, flags) => OpenInBounds(w, path, flags);
      case Close(fd) => CloseInBounds(w, fd);
      case Read(fd, count) =>
      case Write(fd, bytes) => WriteInBounds(w, fd, bytes);
      case LSeek(fd, offset, whence) =>
        if SeeksBeyond(w, c) {
          assert Live(Step(w, c).0.opens, fd);
        }
      case FStat(fd) =>
    }
  }
}
