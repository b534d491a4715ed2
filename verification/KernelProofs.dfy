/**
  The kernel proxy refines the reference world: over every run of legal calls
  the replies are the same and the invariants of all tables are kept.
 */
module KernelProofs {
  import opened Wrappers
  import opened Paths
  import opened Slots
  import opened FlatFs
  import opened Mounts
  import opened Worlds
  import opened Tree
  import opened Kernels
  import TreeProofs

  // ------------------------------------------------------------ Counting handles

  /** The inodes that open descriptors of mount `m` hold, one entry for each. */
  function Refs<M(==)>(opens: Table<OpenFile<M>>, m: M): multiset<nat> {
    if opens == [] then multiset{}
    else
      var last := opens[|opens| - 1];
      Refs(opens[..|opens| - 1], m) + RefOf(last, m)
  }

  function RefOf<M(==)>(o: Option<OpenFile<M>>, m: M): multiset<nat> {
    if o.Some? && o.value.mount == m then multiset{o.value.node} else multiset{}
  }

  lemma BagSwap(a': multiset<nat>, x: multiset<nat>, a: multiset<nat>, y: multiset<nat>, b: multiset<nat>)
    requires a' + x == a + y
    ensures a' + b + x == a + b + y
  {
    forall i
      ensures (a' + b + x)[i] == (a + b + y)[i]
    {
      assert (a' + x)[i] == (a + y)[i];
    }
  }

  lemma BagExchange(a: multiset<nat>, x: multiset<nat>, y: multiset<nat>)
    ensures a + x + y == a + y + x
  {
  }

  lemma UpdateFront<T>(t: seq<T>, i: nat, x: T)
    requires i < |t|
    ensures t[i := x][..|t| - 1] == if i < |t| - 1 then t[..|t| - 1][i := x] else t[..|t| - 1]
  {
  }

  lemma {:induction false} RefsSwap<M>(opens: Table<OpenFile<M>>, fd: nat, o: Option<OpenFile<M>>, m: M)
    requires fd < |opens|
    ensures Refs(opens[fd := o], m) + RefOf(opens[fd], m) == Refs(opens, m) + RefOf(o, m)
  {
    var n := |opens| - 1;
    UpdateFront(opens, fd, o);
    var front, front' := opens[..n], opens[fd := o][..n];
    assert Refs(opens, m) == Refs(front, m) + RefOf(opens[n], m);
    assert Refs(opens[fd := o], m) == Refs(front', m) + RefOf(opens[fd := o][n], m);
    if fd < n {
      RefsSwap(front, fd, o, m);
      BagSwap(Refs(front', m), RefOf(opens[fd], m), Refs(front, m), RefOf(o, m), RefOf(opens[n], m));
    } else {
      BagExchange(Refs(front, m), RefOf(o, m), RefOf(opens[n], m));
    }
  }

  lemma RefsUpdate<M>(opens: Table<OpenFile<M>>, fd: nat, o: Option<OpenFile<M>>, m: M)
    requires fd < |opens|
    ensures RefOf(opens[fd], m) <= Refs(opens, m)
    ensures Refs(opens[fd := o], m) == Refs(opens, m) - RefOf(opens[fd], m) + RefOf(o, m)
  {
    RefsSwap(opens, fd, None, m);
    RefsSwap(opens, fd, o, m);
    BagCancel(Refs(opens[fd := None], m), RefOf(opens[fd], m), Refs(opens, m));
    BagCancel(Refs(opens[fd := o], m), RefOf(opens[fd], m), Refs(opens, m) + RefOf(o, m));
  }

  lemma BagCancel(a: multiset<nat>, x: multiset<nat>, b: multiset<nat>)
    requires a + x == b
    ensures x <= b && a == b - x
  {
  }

  lemma RefsPut<M>(opens: Table<OpenFile<M>>, o: OpenFile<M>, m: M)
    ensures Refs(Put(opens, o), m) == Refs(opens, m) + RefOf(Some(o), m)
  {
    var fd := Fresh(opens);
    if fd == |opens| {
      assert Put(opens, o)[..|opens|] == opens;
    } else {
      RefsUpdate(opens, fd, Some(o), m);
    }
  }

  lemma {:induction false} RefsAreHeld<M>(opens: Table<OpenFile<M>>, m: M, i: nat)
    ensures i in Refs(opens, m) <==> Held(opens, m, i)
  {
    if opens != [] {
      var n := |opens| - 1;
      var front := opens[..n];
      RefsAreHeld(front, m, i);
      if Held(opens, m, i) {
        var fd :| Live(opens, fd) && opens[fd].value.mount == m && opens[fd].value.node == i;
        if fd < n {
          assert Live(front, fd) && front[fd] == opens[fd];
        }
      }
      if Held(front, m, i) {
        var fd :| Live(front, fd) && front[fd].value.mount == m && front[fd].value.node == i;
        assert Live(opens, fd) && front[fd] == opens[fd];
      }
      if i in RefOf(opens[n], m) {
        assert Live(opens, n) && opens[n].value.mount == m && opens[n].value.node == i;
      }
    }
  }

  // ------------------------------------------------------------ The simulation

  /** Descriptor `i` and handle `i` are live together, and both belong to open entry `i`. */
  ghost predicate InStep<M>(fds: Table<nat>, files: Table<Handle<M>>, opens: Table<OpenFile<M>>) {
    && |fds| == |files| == |opens|
    && (forall i | 0 <= i < |opens| :: fds[i].Some? == files[i].Some? == opens[i].Some?)
    && (forall i | Live(opens, i) ::
          && fds[i].value == i
          && var o := opens[i].value;
             files[i].value == Handle(o.mount, o.node, o.offset, o.flags, 1))
  }

  /** The disk of mount `m` satisfies the invariant for the handles on it and shows the flat file system. */
  ghost predicate MountOk<M>(disks: map<M, Disk>, flats: map<M, Flat>, opens: Table<OpenFile<M>>, m: M)
    requires m in disks && m in flats
  {
    && Inv(disks[m], flats[m].names, Refs(opens, m))
    && flats[m] == View(disks[m], flats[m].names)
  }

  ghost predicate MountsOk<M>(disks: map<M, Disk>, flats: map<M, Flat>, opens: Table<OpenFile<M>>) {
    && disks.Keys == flats.Keys
    && (forall m {:trigger MountOk(disks, flats, opens, m)} | m in flats :: MountOk(disks, flats, opens, m))
  }

  ghost predicate Wired<M>(w: World<M>) {
    && IsCanonical(w.cwd)
    && (forall key | key in w.table && w.table[key].Some? :: w.table[key].value in w.flats)
    && (forall fd | Live(w.opens, fd) :: w.opens[fd].value.mount in w.flats)
  }

  ghost predicate Sim<M>(k: Kernel<M>, w: World<M>) {
    && k.table == w.table && k.cwd == w.cwd
    && Wired(w)
    && InStep(k.fds, k.files, w.opens)
    && MountsOk(k.disks, w.flats, w.opens)
  }

  /** The open entries as the handle table shows them. */
  function OpensOf<M>(files: Table<Handle<M>>): (opens: Table<OpenFile<M>>)
    ensures |opens| == |files|
    ensures forall i | 0 <= i < |files| ::
              opens[i] == if files[i].None? then None else
                            var h := files[i].value; Some(OpenFile(h.mount, h.node, h.offset, h.flags))
  {
    seq(|files|, i requires 0 <= i < |files| =>
      if files[i].None? then None
      else var h := files[i].value; Some(OpenFile(h.mount, h.node, h.offset, h.flags)))
  }

  lemma SimShowsOpens<M>(k: Kernel<M>, w: World<M>)
    requires Sim(k, w)
    ensures OpensOf(k.files) == w.opens
  {
  }

  lemma OpensPut<M>(files: Table<Handle<M>>, h: Handle<M>)
    ensures forall m :: Refs(OpensOf(Put(files, h)), m)
                     == Refs(OpensOf(files), m) + if m == h.mount then multiset{h.node} else multiset{}
  {
    var o := OpenFile(h.mount, h.node, h.offset, h.flags);
    SameFresh(files, OpensOf(files));
    assert OpensOf(Put(files, h)) == Put(OpensOf(files), o);
    forall m
      ensures Refs(Put(OpensOf(files), o), m) == Refs(OpensOf(files), m) + RefOf(Some(o), m)
    {
      RefsPut(OpensOf(files), o, m);
    }
  }

  lemma OpensDrop<M>(files: Table<Handle<M>>, h: nat)
    requires Live(files, h)
    ensures var handle := files[h].value;
            && handle.node in Refs(OpensOf(files), handle.mount)
            && forall m :: Refs(OpensOf(Drop(files, h)), m)
                        == Refs(OpensOf(files), m) - if m == handle.mount then multiset{handle.node} else multiset{}
  {
    var opens := OpensOf(files);
    assert OpensOf(Drop(files, h)) == opens[h := None];
    forall m
      ensures RefOf(opens[h], m) <= Refs(opens, m)
      ensures Refs(opens[h := None], m) == Refs(opens, m) - RefOf(opens[h], m)
    {
      RefsUpdate(opens, h, None, m);
    }
  }

  lemma OpensMove<M>(files: Table<Handle<M>>, h: nat, offset: int)
    requires Live(files, h)
    ensures forall m :: Refs(OpensOf(files[h := Some(files[h].value.(offset := offset))]), m) == Refs(OpensOf(files), m)
  {
    var opens := OpensOf(files);
    var opens' := OpensOf(files[h := Some(files[h].value.(offset := offset))]);
    assert opens' == opens[h := opens'[h]];
    forall m
      ensures Refs(opens', m) == Refs(opens, m)
    {
      RefsUpdate(opens, h, opens'[h], m);
    }
  }

  /** The handle of a live descriptor is live and has no other descriptor. */
  lemma HandleReady<M>(k: Kernel<M>, w: World<M>, fd: int)
    requires Sim(k, w)
    ensures Live(k.fds, fd) ==>
              && k.fds[fd].value == fd && Live(k.files, fd) && k.files[fd].value.useCount == 1
              && k.files[fd].value.mount in k.disks
  {
    HandleSeen(k, w, fd);
  }

  lemma SameRefsKeepMounts<M>(disks: map<M, Disk>, flats: map<M, Flat>,
                              opens: Table<OpenFile<M>>, opens': Table<OpenFile<M>>)
    requires MountsOk(disks, flats, opens)
    requires forall m | m in flats :: Refs(opens', m) == Refs(opens, m)
    ensures MountsOk(disks, flats, opens')
  {
    forall m | m in flats
      ensures MountOk(disks, flats, opens', m)
    {
      assert MountOk(disks, flats, opens, m);
    }
  }

  /** One mount changes together with the handles on it. */
  lemma OneMountOk<M>(disks: map<M, Disk>, flats: map<M, Flat>, opens: Table<OpenFile<M>>,
                      m: M, disk: Disk, f: Flat, opens': Table<OpenFile<M>>)
    requires MountsOk(disks, flats, opens) && m in flats
    requires forall m' | m' in flats && m' != m :: Refs(opens', m') == Refs(opens, m')
    requires Inv(disk, f.names, Refs(opens', m)) && f == View(disk, f.names)
    ensures MountsOk(disks[m := disk], flats[m := f], opens')
  {
    hide Tree.Inv;
    assert MountOk(disks[m := disk], flats[m := f], opens', m);
    OtherMountsOk(disks, flats, opens, m, disk, f, opens');
  }

  lemma OtherMountsOk<M>(disks: map<M, Disk>, flats: map<M, Flat>, opens: Table<OpenFile<M>>,
                         m: M, disk: Disk, f: Flat, opens': Table<OpenFile<M>>)
    requires MountsOk(disks, flats, opens) && m in flats
    requires forall m' | m' in flats && m' != m :: Refs(opens', m') == Refs(opens, m')
    ensures forall m' {:trigger MountOk(disks[m := disk], flats[m := f], opens', m')} | m' in flats && m' != m ::
              MountOk(disks[m := disk], flats[m := f], opens', m')
  {
    forall m' | m' in flats && m' != m
      ensures MountOk(disks[m := disk], flats[m := f], opens', m')
    {
      OtherMountOk(disks, flats, opens, m, disk, f, opens', m');
    }
  }

  lemma OtherMountOk<M>(disks: map<M, Disk>, flats: map<M, Flat>, opens: Table<OpenFile<M>>,
                        m: M, disk: Disk, f: Flat, opens': Table<OpenFile<M>>, m': M)
    requires m' in disks && m' in flats && MountOk(disks, flats, opens, m')
    requires m' != m && Refs(opens', m') == Refs(opens, m')
    ensures MountOk(disks[m := disk], flats[m := f], opens', m')
  {
  }

  lemma NodesSeen<M>(k: Kernel<M>, w: World<M>, m: M, path: string)
    requires Sim(k, w) && m in w.flats && path != ""
    ensures var f := w.flats[m];
            match Tree.GetNode(k.disks[m], path)
            case Fail(e) => Canon(path) !in f.names && e == ENOENT
            case Ok(st) => Canon(path) in f.names && st.ino == f.names[Canon(path)]
                           && Live(f.inodes, st.ino) && st.isDir == f.IsDir(st.ino)
  {
    assert MountOk(k.disks, w.flats, w.opens, m);
    TreeProofs.GetSlotIsLookup(k.disks[m], w.flats[m].names, path);
  }

  lemma FindNodeIsLookup<M>(k: Kernel<M>, w: World<M>, path: string)
    requires Sim(k, w)
    ensures FindNode(k, path) == Lookup(w, path)
    ensures FindNode(k, path).Some? ==> FindNode(k, path).value.0 in w.flats
  {
    if IsAbsolute(path) {
      RouteOrNothing(w.table, path);
      var (m, rest) := GetMount(w.table, path);
      if m.Some? {
        NodesSeen(k, w, m.value, rest);
      }
    }
  }

  lemma DescribedAlike<M>(k: Kernel<M>, w: World<M>, m: M, i: int)
    requires Sim(k, w) && m in w.flats
    ensures Described(StatOf(k.disks[m], i)) == Describe(w.flats[m], i)
    ensures IsDir(k.disks[m], i) == w.flats[m].IsDir(i)
  {
    assert MountOk(k.disks, w.flats, w.opens, m);
  }

  /** A call that changes one mount and no descriptor keeps the simulation. */
  lemma OneMountSim<M>(k: Kernel<M>, w: World<M>, m: M, disk: Disk, f: Flat)
    requires Sim(k, w) && m in w.flats
    requires Inv(disk, f.names, Refs(w.opens, m)) && f == View(disk, f.names)
    ensures Sim(k.(disks := k.disks[m := disk]), w.(flats := w.flats[m := f]))
  {
    OneMountOk(k.disks, w.flats, w.opens, m, disk, f, w.opens);
  }

  lemma ChDirSim<M>(k: Kernel<M>, w: World<M>, path: string)
    requires Sim(k, w)
    ensures ChDirK(k, path).1 == ChDirW(w, path).1 && Sim(ChDirK(k, path).0, ChDirW(w, path).0)
  {
    var target := ResolveJoinFirst(w.cwd, path);
    FindNodeIsLookup(k, w, Print(true, target));
    JoinFirstMeaning(w.cwd, path);
    CanonIsCanonical(path);
    match Lookup(w, Print(true, target))
    case None =>
    case Some((m, i)) =>
      DescribedAlike(k, w, m, i);
  }

  lemma MkDirSim<M>(k: Kernel<M>, w: World<M>, path: string)
    requires Sim(k, w)
    ensures MkDirK(k, path).1 == MkDirW(w, path).1 && Sim(MkDirK(k, path).0, MkDirW(w, path).0)
  {
    var full := Print(true, ResolveJoinFirst(w.cwd, path));
    RouteOrNothing(w.table, full);
    var (m, rest) := GetMount(w.table, full);
    if path != "" && m.Some? {
      assert MountOk(k.disks, w.flats, w.opens, m.value);
      TreeProofs.MkdirRefines(k.disks[m.value], w.flats[m.value].names, Refs(w.opens, m.value), rest);
      OneMountSim(k, w, m.value, Tree.Mkdir(k.disks[m.value], rest).0,
                  FlatFs.Mkdir(w.flats[m.value], Canon(rest)).0);
    }
  }

  lemma DirIsFree<M>(k: Kernel<M>, w: World<M>, m: M, i: nat)
    requires Sim(k, w) && m in w.flats && MayRemoveDir(w, m, i)
    ensures m in k.disks
    ensures Tree.Rmdir(k.disks[m], i).1.Ok? ==> i != 0 && i !in Refs(OpensOf(k.files), m)
  {
    var disk, f := k.disks[m], w.flats[m];
    assert MountOk(k.disks, w.flats, w.opens, m);
    SimShowsOpens(k, w);
    RefsAreHeld(w.opens, m, i);
    if IsDir(disk, i) {
      TreeProofs.EmptyIffNoEntries(disk, f.names, i);
    }
  }

  lemma RemovedDirIsFree<M>(k: Kernel<M>, w: World<M>, path: string)
    requires Sim(k, w) && Legal(w, Remove(path))
    ensures var (m, rest) := GetMount(k.table, path);
            m.Some? ==>
              && m.value in k.disks
              && rest != ""
              && match Tree.GetNode(k.disks[m.value], rest)
                 case Fail(_) => true
                 case Ok(st) => Tree.Rmdir(k.disks[m.value], st.ino).1.Ok? ==>
                                  st.ino != 0 && st.ino !in Refs(OpensOf(k.files), m.value)
  {
    RouteOrNothing(w.table, path);
    var (m, rest) := GetMount(w.table, path);
    if m.Some? {
      NodesSeen(k, w, m.value, rest);
      var names := w.flats[m.value].names;
      if Canon(rest) in names {
        DirIsFree(k, w, m.value, names[Canon(rest)]);
      }
    }
  }

  lemma RemoveDirSim<M>(k: Kernel<M>, w: World<M>, m: M, i: nat)
    requires Sim(k, w) && m in w.flats
    ensures Tree.Rmdir(k.disks[m], i).1 == FlatFs.Rmdir(w.flats[m], i).1
    ensures MayRemoveDir(w, m, i)
       <==> Sim(k.(disks := k.disks[m := Tree.Rmdir(k.disks[m], i).0]),
                w.(flats := w.flats[m := FlatFs.Rmdir(w.flats[m], i).0]))
  {
    var disk, f := k.disks[m], w.flats[m];
    var disk', f' := Tree.Rmdir(disk, i).0, FlatFs.Rmdir(f, i).0;
    assert MountOk(k.disks, w.flats, w.opens, m);
    RefsAreHeld(w.opens, m, i);
    TreeProofs.RmdirRefines(disk, f.names, Refs(w.opens, m), i);
    if MayRemoveDir(w, m, i) {
      OneMountSim(k, w, m, disk', f');
    } else {
      assert !MountOk(k.disks[m := disk'], w.flats[m := f'], w.opens, m);
    }
  }

  /** `rmdir` answers as the reference does, and the tables go on matching it unless it removes a directory in use. */
  lemma RmDirSim<M>(k: Kernel<M>, w: World<M>, path: string)
    requires Sim(k, w)
    ensures RmDirK(k, path).1 == RmDirW(w, path).1
    ensures Sim(RmDirK(k, path).0, RmDirW(w, path).0) <==> Legal(w, RmDir(path))
  {
    FindNodeIsLookup(k, w, path);
    match Lookup(w, path)
    case None =>
    case Some((m, i)) => RemoveDirSim(k, w, m, i);
  }

  lemma RemoveSim<M>(k: Kernel<M>, w: World<M>, path: string)
    requires Sim(k, w)
    ensures RemoveK(k, path).1 == RemoveW(w, path).1
    ensures Sim(RemoveK(k, path).0, RemoveW(w, path).0) <==> Legal(w, Remove(path))
  {
    RouteOrNothing(w.table, path);
    var (m, rest) := GetMount(w.table, path);
    if m.Some? {
      NodesSeen(k, w, m.value, rest);
      var f, p := w.flats[m.value], Canon(rest);
      if p in f.names && f.IsDir(f.names[p]) {
        RemoveDirSim(k, w, m.value, f.names[p]);
      } else if p in f.names {
        RemoveFileSim(k, w, m.value, rest);
      }
    }
  }

  lemma RemoveFileSim<M>(k: Kernel<M>, w: World<M>, m: M, rest: string)
    requires Sim(k, w) && m in w.flats && rest != ""
    requires Canon(rest) in w.flats[m].names && !w.flats[m].IsDir(w.flats[m].names[Canon(rest)])
    ensures var f, p := w.flats[m], Canon(rest);
            var (disk', r) := Tree.Unlink(k.disks[m], rest);
            var (f', r') := FlatFs.Unlink(f, p, Held(w.opens, m, f.names[p]));
            r == r' && Sim(k.(disks := k.disks[m := disk']), w.(flats := w.flats[m := f']))
  {
    var disk, f, p := k.disks[m], w.flats[m], Canon(rest);
    assert MountOk(k.disks, w.flats, w.opens, m);
    RefsAreHeld(w.opens, m, f.names[p]);
    TreeProofs.UnlinkRefines(disk, f.names, Refs(w.opens, m), rest);
    OneMountSim(k, w, m, Tree.Unlink(disk, rest).0, FlatFs.Unlink(f, p, Held(w.opens, m, f.names[p])).0);
  }

  lemma StatSim<M>(k: Kernel<M>, w: World<M>, path: string)
    requires Sim(k, w)
    ensures StatK(k, path) == StatW(w, path)
  {
    FindNodeIsLookup(k, w, path);
    match Lookup(w, path)
    case None =>
    case Some((m, i)) => DescribedAlike(k, w, m, i);
  }

  // ------------------------------------------------------------ Open

  /** The strings `open` puts together name the components that the reference resolves. */
  lemma OpenPaths(cwd: Path, path: string)
    requires IsCanonical(cwd) && OpensSomething(path)
    ensures CanonicalString(path) == "" <==> !IsAbsolute(path) && Canon(path) == []
    ensures CanonicalString(path) != "" ==> (CanonicalString(path)[0] == SEP <==> IsAbsolute(path))
    ensures CanonicalString(path) != "" ==>
              var ph := ResolveCollapseFirst(cwd, path);
              && ph != [] && IsCanonical(ph)
              && ph == (if IsAbsolute(path) then Canon(path) else cwd + Canon(path))
              && CanonicalString(Print(true, ph) + "/..") == Print(true, Init(ph))
              && IsName(Last(ph))
              && ph == (if CanonicalString(path)[0] != SEP then Canon(Print(true, cwd) + "/" + CanonicalString(path))
                        else Canon(path))
              && (if CanonicalString(path)[0] != SEP then
                    CanonicalString(Print(true, cwd) + "/" + CanonicalString(path))
                  else CanonicalString(path)) == Print(true, ph)
  {
    CanonIsCanonical(path);
    CanonOfPrint(IsAbsolute(path), Canon(path));
    ComponentsOfJoin(Canon(path));
    CollapseFirstMeaning(cwd, path);
    var ph := ResolveCollapseFirst(cwd, path);
    CanonOfPrint(true, ph);
    CanonDotDot(Print(true, ph));
    assert IsAbsolute(Print(true, ph) + "/..");
  }

  lemma MountRelativePath(rest: string, name: string)
    requires IsName(name)
    ensures var path := CanonicalString(rest + "/" + name);
            path != "" && Canon(path) == Canon(rest) + [name]
  {
    var path := rest + "/" + name;
    CanonIsCanonical(rest);
    CanonIsCanonical(path);
    ParsePrint(false, [name]);
    assert Join([name]) == name && Print(false, [name]) == name;
    CanonConcat(rest, name);
    assert CollapseOnto(Canon(rest), [name]) == Canon(rest) + [name];
    CanonOfPrint(IsAbsolute(path), Canon(path));
    ComponentsOfJoin(Canon(path));
  }

  lemma AddHandleSim<M>(k: Kernel<M>, w: World<M>, m: M, disk: Disk, f: Flat, node: nat, flags: Flags)
    requires Sim(k, w) && m in w.flats
    requires Inv(disk, f.names, Refs(w.opens, m)) && f == View(disk, f.names) && Live(disk, node)
    ensures Fresh(k.fds) == Fresh(k.files) == Fresh(w.opens)
    ensures Sim(k.(disks := k.disks[m := Ref(disk, node)],
                   files := Put(k.files, Handle(m, node, 0, flags, 1)),
                   fds := Put(k.fds, Fresh(k.files))),
                w.(flats := w.flats[m := f], opens := Put(w.opens, OpenFile(m, node, 0, flags))))
  {
    hide Inv;
    InStepPut(k.fds, k.files, w.opens, OpenFile(m, node, 0, flags));
    AddedMount(k, w, m, disk, f, node, flags);
  }

  lemma AddedMount<M>(k: Kernel<M>, w: World<M>, m: M, disk: Disk, f: Flat, node: nat, flags: Flags)
    requires Sim(k, w) && m in w.flats
    requires Inv(disk, f.names, Refs(w.opens, m)) && f == View(disk, f.names) && Live(disk, node)
    ensures MountsOk(k.disks[m := Ref(disk, node)], w.flats[m := f], Put(w.opens, OpenFile(m, node, 0, flags)))
  {
    hide Inv;
    var o := OpenFile(m, node, 0, flags);
    TreeProofs.RefKeepsInv(disk, f.names, Refs(w.opens, m), node);
    forall m'
      ensures Refs(Put(w.opens, o), m') == Refs(w.opens, m') + RefOf(Some(o), m')
    {
      RefsPut(w.opens, o, m');
    }
    OneMountOk(k.disks, w.flats, w.opens, m, Ref(disk, node), f, Put(w.opens, o));
  }

  lemma InStepPut<M>(fds: Table<nat>, files: Table<Handle<M>>, opens: Table<OpenFile<M>>, o: OpenFile<M>)
    requires InStep(fds, files, opens)
    ensures Fresh(fds) == Fresh(files) == Fresh(opens)
    ensures InStep(Put(fds, Fresh(files)), Put(files, Handle(o.mount, o.node, o.offset, o.flags, 1)), Put(opens, o))
  {
    SameFresh(fds, opens);
    SameFresh(files, opens);
  }

  lemma OpenAtSim<M>(k: Kernel<M>, w: World<M>, ph: Path, flags: Flags)
    requires Sim(k, w) && ph != [] && IsName(Last(ph))
    requires CanonicalString(Print(true, ph) + "/..") == Print(true, Init(ph))
    ensures OpenFull(k, ph, flags).1 == OpenAt(w, ph, flags).1
    ensures Sim(OpenFull(k, ph, flags).0, OpenAt(w, ph, flags).0)
  {
    var parent, name := Print(true, Init(ph)), Last(ph);
    RouteOrNothing(w.table, parent);
    var (m, rest) := GetMount(w.table, parent);
    if m.Some? {
      MountRelativePath(rest, name);
      OpenHandleSim(k, w, m.value, CanonicalString(rest + "/" + name), flags);
    }
  }

  lemma OpenSim<M>(k: Kernel<M>, w: World<M>, path: string, flags: Flags)
    requires Sim(k, w) && OpensSomething(path)
    ensures OpenK(k, path, flags).1 == OpenW(w, path, flags).1
    ensures Sim(OpenK(k, path, flags).0, OpenW(w, path, flags).0)
  {
    hide OpenFull, OpenAt, Inv;
    OpenPaths(w.cwd, path);
    if CanonicalString(path) != "" {
      OpenAtSim(k, w, ResolveCollapseFirst(w.cwd, path), flags);
    }
  }

  lemma NewFileOffset(disk: Disk, node: nat, names: Names)
    requires Live(disk, node) && View(disk, names).inodes[node] == Some(Regular([]))
    ensures StatOf(disk, node) == Ok(Stat(node, false, 0))
  {
  }

  lemma OpenHandleSim<M>(k: Kernel<M>, w: World<M>, m: M, path: string, flags: Flags)
    requires Sim(k, w) && m in w.flats && path != ""
    ensures var f := w.flats[m];
            var (f', r) := if flags.Nonzero() then FlatFs.Creat(f, Canon(path))
                           else (f, FlatFs.GetNode(f, Canon(path)));
            var (k', reply) := OpenHandle(k, m, path, flags);
            match r
            case Fail(e) => reply == Error(Some(e)) && k' == k
            case Ok(i) => reply == Done(Fresh(w.opens))
                          && Sim(k', w.(flats := w.flats[m := f'], opens := Put(w.opens, OpenFile(m, i, 0, flags))))
  {
    hide Sim, Tree.Creat, Tree.GetNode, FlatFs.Creat, FlatFs.GetNode, Canon, Attach;
    if flags.Nonzero() {
      CreateHandleSim(k, w, m, path, flags);
    } else {
      FindHandleSim(k, w, m, path, flags);
      assert k.disks[m := k.disks[m]] == k.disks && w.flats[m := w.flats[m]] == w.flats;
    }
  }

  lemma FindHandleSim<M>(k: Kernel<M>, w: World<M>, m: M, path: string, flags: Flags)
    requires Sim(k, w) && m in w.flats && path != "" && !flags.append
    ensures m in k.disks
    ensures match FlatFs.GetNode(w.flats[m], Canon(path))
            case Fail(e) => Tree.GetNode(k.disks[m], path) == Fail(e)
            case Ok(i) =>
              && Tree.GetNode(k.disks[m], path).Ok? && Tree.GetNode(k.disks[m], path).value.ino == i
              && Fresh(k.fds) == Fresh(w.opens)
              && Sim(Attach(k, m, i, flags), w.(opens := Put(w.opens, OpenFile(m, i, 0, flags))))
  {
    hide Tree.Inv, Tree.GetNode, Canon;
    var disk, f := k.disks[m], w.flats[m];
    assert MountOk(k.disks, w.flats, w.opens, m);
    NodesSeen(k, w, m, path);
    assert w.flats[m := f] == w.flats;
    if Canon(path) in f.names {
      AddHandleSim(k, w, m, disk, f, f.names[Canon(path)], flags);
    }
  }

  lemma CreateHandleSim<M>(k: Kernel<M>, w: World<M>, m: M, path: string, flags: Flags)
    requires Sim(k, w) && m in w.flats && path != ""
    ensures m in k.disks
    ensures var (f', r) := FlatFs.Creat(w.flats[m], Canon(path));
            var (disk', r') := Tree.Creat(k.disks[m], path);
            && r == r'
            && (r.Ok? ==>
                  && Fresh(k.fds) == Fresh(w.opens)
                  && Sim(Attach(k.(disks := k.disks[m := disk']), m, r.value, flags),
                         w.(flats := w.flats[m := f'], opens := Put(w.opens, OpenFile(m, r.value, 0, flags)))))
  {
    hide Tree.Inv, Tree.Creat, Canon;
    var disk, f := k.disks[m], w.flats[m];
    assert MountOk(k.disks, w.flats, w.opens, m);
    TreeProofs.CreatRefines(disk, f.names, Refs(w.opens, m), path);
    var (disk', r) := Tree.Creat(disk, path);
    if r.Ok? {
      var f' := FlatFs.Creat(f, Canon(path)).0;
      assert f'.inodes[r.value] == Some(Regular([]));
      AddHandleSim(k, w, m, disk', f', r.value, flags);
      NewFileOffset(disk', r.value, f'.names);
      assert k.disks[m := disk'][m := Ref(disk', r.value)] == k.disks[m := Ref(disk', r.value)];
    }
  }

  // ------------------------------------------------------------ Descriptors

  lemma ClosesNothing<M>(k: Kernel<M>, fd: int)
    ensures !Live(k.fds, fd) ==> CloseK(k, fd) == (k, Error(Some(EBADF)))
  {
  }

  lemma CloseSim<M>(k: Kernel<M>, w: World<M>, fd: int)
    requires Sim(k, w)
    ensures CloseK(k, fd).1 == CloseW(w, fd).1 && Sim(CloseK(k, fd).0, CloseW(w, fd).0)
  {
    hide Tree.Inv;
    if Live(w.opens, fd) {
      var o, opens := w.opens[fd].value, Drop(w.opens, fd);
      var m := o.mount;
      HandleSeen(k, w, fd);
      ClosedMount(k, w, fd);
      var disk := Unref(k.disks[m], o.node);
      var f := Release(w.flats[m], o.node, Held(opens, m, o.node));
      var k' := k.(fds := Drop(k.fds, fd), files := Drop(k.files, fd), disks := k.disks[m := disk]);
      assert CloseK(k, fd) == (k', Done(0));
      assert CloseW(w, fd) == (w.(opens := opens, flats := w.flats[m := f]), Done(0));
    }
  }

  lemma ClosedMount<M>(k: Kernel<M>, w: World<M>, fd: int)
    requires Sim(k, w) && Live(w.opens, fd)
    ensures var o, opens := w.opens[fd].value, Drop(w.opens, fd);
            var m := o.mount;
            m in w.flats && MountsOk(k.disks[m := Unref(k.disks[m], o.node)],
                                     w.flats[m := Release(w.flats[m], o.node, Held(opens, m, o.node))], opens)
  {
    var o, opens := w.opens[fd].value, Drop(w.opens, fd);
    var m := o.mount;
    assert MountOk(k.disks, w.flats, w.opens, m);
    forall m'
      ensures RefOf(w.opens[fd], m') <= Refs(w.opens, m')
      ensures Refs(opens, m') == Refs(w.opens, m') - RefOf(w.opens[fd], m')
    {
      RefsUpdate(w.opens, fd, None, m');
    }
    RefsAreHeld(opens, m, o.node);
    TreeProofs.UnrefRefines(k.disks[m], w.flats[m].names, Refs(w.opens, m), o.node);
    OneMountOk(k.disks, w.flats, w.opens, m, Unref(k.disks[m], o.node),
               Release(w.flats[m], o.node, Held(opens, m, o.node)), opens);
  }

  lemma HandleSeen<M>(k: Kernel<M>, w: World<M>, fd: int)
    requires Sim(k, w)
    ensures Live(w.opens, fd) == HandleOf(k, fd).Some? == (HandleOf(k, fd) == Some(fd))
    ensures Live(w.opens, fd) ==>
              var o := w.opens[fd].value;
              && k.files[fd].value == Handle(o.mount, o.node, o.offset, o.flags, 1)
              && o.mount in w.flats && o.node in Refs(w.opens, o.mount)
              && Live(k.disks[o.mount], o.node)
  {
    if Live(w.opens, fd) {
      var o := w.opens[fd].value;
      RefsAreHeld(w.opens, o.mount, o.node);
      assert MountOk(k.disks, w.flats, w.opens, o.mount);
    }
  }

  lemma UsableAlike<M>(k: Kernel<M>, w: World<M>, fd: int, refused: nat)
    requires Sim(k, w)
    ensures UsableK(k, fd, refused) == Usable(w, fd, refused)
    ensures Usable(w, fd, refused) ==> AtOffsetK(k, fd) == AtOffset(w, fd)
  {
    HandleSeen(k, w, fd);
    if Live(w.opens, fd) {
      var o := w.opens[fd].value;
      assert MountOk(k.disks, w.flats, w.opens, o.mount);
      DescribedAlike(k, w, o.mount, o.node);
    }
  }

  lemma AdvanceSim<M>(k: Kernel<M>, w: World<M>, fd: int, offset: int)
    requires Sim(k, w) && Live(w.opens, fd)
    ensures Live(k.files, fd)
    ensures Sim(MoveTo(k, fd, offset), w.(opens := Advance(w.opens, fd, offset)))
  {
    AdvanceMounts(k.disks, w.flats, w.opens, fd, offset);
    InStepAdvance(k.fds, k.files, w.opens, fd, offset);
  }

  lemma AdvanceMounts<M>(disks: map<M, Disk>, flats: map<M, Flat>, opens: Table<OpenFile<M>>, fd: nat, offset: int)
    requires MountsOk(disks, flats, opens) && Live(opens, fd)
    ensures MountsOk(disks, flats, Advance(opens, fd, offset))
  {
    var opens' := Advance(opens, fd, offset);
    forall m
      ensures Refs(opens', m) == Refs(opens, m)
    {
      RefsUpdate(opens, fd, opens'[fd], m);
    }
    SameRefsKeepMounts(disks, flats, opens, opens');
  }

  lemma InStepAdvance<M>(fds: Table<nat>, files: Table<Handle<M>>, opens: Table<OpenFile<M>>, fd: nat, offset: int)
    requires InStep(fds, files, opens) && Live(opens, fd)
    ensures InStep(fds, files[fd := Some(files[fd].value.(offset := offset))], Advance(opens, fd, offset))
  {
  }

  lemma ReadsAlike<M>(k: Kernel<M>, w: World<M>, fd: int, count: nat)
    requires Sim(k, w) && Usable(w, fd, O_WRONLY) && AtOffset(w, fd)
    ensures UsableK(k, fd, O_WRONLY) && AtOffsetK(k, fd)
    ensures var o := w.opens[fd].value;
            var bytes := FlatFs.Read(w.flats[o.mount], o.node, o.offset, count);
            ReadK(k, fd, count) == (MoveTo(k, fd, o.offset + |bytes|), Data(bytes))
  {
    HandleSeen(k, w, fd);
    UsableAlike(k, w, fd, O_WRONLY);
    assert MountOk(k.disks, w.flats, w.opens, w.opens[fd].value.mount);
  }

  lemma ReadSim<M>(k: Kernel<M>, w: World<M>, fd: int, count: nat)
    requires Sim(k, w) && Legal(w, Call.Read(fd, count))
    ensures Defined(k, Call.Read(fd, count))
    ensures ReadK(k, fd, count).1 == ReadW(w, fd, count).1
    ensures Sim(ReadK(k, fd, count).0, ReadW(w, fd, count).0)
  {
    hide Tree.Inv;
    UsableAlike(k, w, fd, O_WRONLY);
    if Usable(w, fd, O_WRONLY) {
      ReadsAlike(k, w, fd, count);
      var o := w.opens[fd].value;
      AdvanceSim(k, w, fd, o.offset + |FlatFs.Read(w.flats[o.mount], o.node, o.offset, count)|);
    }
  }

  lemma WritesAlike<M>(k: Kernel<M>, w: World<M>, fd: int, bytes: Bytes)
    requires Sim(k, w) && Usable(w, fd, O_RDONLY) && AtOffset(w, fd)
    ensures UsableK(k, fd, O_RDONLY) && AtOffsetK(k, fd)
    ensures var o := w.opens[fd].value;
            var disk := Tree.Write(k.disks[o.mount], o.node, o.offset, bytes).0;
            WriteK(k, fd, bytes)
            == (MoveTo(k.(disks := k.disks[o.mount := disk]), fd, o.offset + |bytes|), Done(|bytes|))
  {
    HandleSeen(k, w, fd);
    UsableAlike(k, w, fd, O_RDONLY);
  }

  lemma WriteMountSim<M>(k: Kernel<M>, w: World<M>, fd: int, bytes: Bytes)
    requires Sim(k, w) && Usable(w, fd, O_RDONLY) && AtOffset(w, fd)
    ensures AtOffsetK(k, fd)
    ensures var o := w.opens[fd].value;
            var disk := Tree.Write(k.disks[o.mount], o.node, o.offset, bytes).0;
            var f := FlatFs.Write(w.flats[o.mount], o.node, o.offset, bytes);
            Sim(k.(disks := k.disks[o.mount := disk]), w.(flats := w.flats[o.mount := f]))
  {
    HandleSeen(k, w, fd);
    UsableAlike(k, w, fd, O_RDONLY);
    var o := w.opens[fd].value;
    var m := o.mount;
    assert MountOk(k.disks, w.flats, w.opens, m);
    DescribedAlike(k, w, m, o.node);
    TreeProofs.WriteRefines(k.disks[m], w.flats[m].names, Refs(w.opens, m), o.node, o.offset, bytes);
    OneMountSim(k, w, m, Tree.Write(k.disks[m], o.node, o.offset, bytes).0,
                FlatFs.Write(w.flats[m], o.node, o.offset, bytes));
  }

  lemma WriteSim<M>(k: Kernel<M>, w: World<M>, fd: int, bytes: Bytes)
    requires Sim(k, w) && Legal(w, Call.Write(fd, bytes))
    ensures Defined(k, Call.Write(fd, bytes))
    ensures WriteK(k, fd, bytes).1 == WriteW(w, fd, bytes).1
    ensures Sim(WriteK(k, fd, bytes).0, WriteW(w, fd, bytes).0)
  {
    hide Tree.Inv;
    UsableAlike(k, w, fd, O_RDONLY);
    if Usable(w, fd, O_RDONLY) {
      WritesAlike(k, w, fd, bytes);
      WriteMountSim(k, w, fd, bytes);
      var o := w.opens[fd].value;
      var disk := Tree.Write(k.disks[o.mount], o.node, o.offset, bytes).0;
      var f := FlatFs.Write(w.flats[o.mount], o.node, o.offset, bytes);
      AdvanceSim(k.(disks := k.disks[o.mount := disk]), w.(flats := w.flats[o.mount := f]), fd,
                 o.offset + |bytes|);
    }
  }

  lemma LengthSeen<M>(k: Kernel<M>, w: World<M>, m: M, i: nat)
    requires Sim(k, w) && m in w.flats && Live(k.disks[m], i)
    ensures m in k.disks && StatOf(k.disks[m], i).Ok?
    ensures !IsDir(k.disks[m], i) ==>
              && StatOf(k.disks[m], i).value.size == FileLength(w.flats[m], i) == |k.disks[m][i].value.content|
  {
    assert MountOk(k.disks, w.flats, w.opens, m);
  }

  lemma LSeekSim<M>(k: Kernel<M>, w: World<M>, fd: int, offset: int, whence: Whence)
    requires Sim(k, w)
    ensures LSeekK(k, fd, offset, whence).1 == LSeekW(w, fd, offset, whence).1
    ensures Sim(LSeekK(k, fd, offset, whence).0, LSeekW(w, fd, offset, whence).0)
  {
    hide Sim, StatOf, Describe;
    HandleSeen(k, w, fd);
    if Live(w.opens, fd) {
      var o := w.opens[fd].value;
      DescribedAlike(k, w, o.mount, o.node);
      LengthSeen(k, w, o.mount, o.node);
      var r := LSeekW(w, fd, offset, whence);
      if r.1.Done? {
        AdvanceSim(k, w, fd, r.1.n);
      }
    }
  }

  // ------------------------------------------------------------ Every call, every run

  lemma StepSim<M>(k: Kernel<M>, w: World<M>, c: Call)
    requires Sim(k, w) && Legal(w, c)
    ensures Defined(k, c)
    ensures StepK(k, c).1 == Step(w, c).1 && Sim(StepK(k, c).0, Step(w, c).0)
  {
    match c
    case ChDir(path) => ChDirSim(k, w, path);
    case MkDir(path) => MkDirSim(k, w, path);
    case RmDir(path) => RmDirSim(k, w, path);
    case Remove(path) => RemoveSim(k, w, path);
    case StatPath(path) => StatSim(k, w, path);
    case Open(path, flags) => OpenSim(k, w, path, flags);
    case Close(fd) => CloseSim(k, w, fd);
    case Read(fd, count) => ReadSim(k, w, fd, count);
    case Write(fd, bytes) => WriteSim(k, w, fd, bytes);
    case LSeek(fd, offset, whence) => LSeekSim(k, w, fd, offset, whence);
    case FStat(fd) =>
      HandleSeen(k, w, fd);
      if Live(w.opens, fd) {
        DescribedAlike(k, w, w.opens[fd].value.mount, w.opens[fd].value.node);
      }
  }

  /** Over every legal run the system answers like the reference and stays consistent. */
  lemma {:induction false} RunSim<M>(k: Kernel<M>, w: World<M>, calls: seq<Call>)
    requires Sim(k, w) && LegalRun(w, calls)
    ensures DefinedRun(k, calls)
    ensures RunK(k, calls).1 == Worlds.Run(w, calls).1
    ensures Sim(RunK(k, calls).0, Worlds.Run(w, calls).0)
    decreases |calls|
  {
    if calls != [] {
      StepSim(k, w, calls[0]);
      RunSim(StepK(k, calls[0]).0, Step(w, calls[0]).0, calls[1..]);
    }
  }

  lemma CwdIsCanonical<M>(k: Kernel<M>, w: World<M>)
    requires Sim(k, w)
    ensures IsCanonical(k.cwd)
  {
  }
}
