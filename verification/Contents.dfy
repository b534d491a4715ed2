/** What is written can be read again, in whatever pieces either is done. */
module Contents {
  import opened Wrappers
  import opened Paths
  import opened Slots
  import opened FlatFs
  import opened Mounts
  import opened Worlds
  import opened Kernels
  import opened KernelProofs
  import Tree

  function Concat(chunks: seq<Bytes>): Bytes {
    if chunks == [] then [] else chunks[0] + Concat(chunks[1..])
  }

  function Sum(sizes: seq<nat>): nat {
    if sizes == [] then 0 else sizes[0] + Sum(sizes[1..])
  }

  function WriteCalls(fd: int, chunks: seq<Bytes>): seq<Call> {
    if chunks == [] then [] else [Call.Write(fd, chunks[0])] + WriteCalls(fd, chunks[1..])
  }

  function ReadCalls(fd: int, sizes: seq<nat>): seq<Call> {
    if sizes == [] then [] else [Call.Read(fd, sizes[0])] + ReadCalls(fd, sizes[1..])
  }

  /** The bytes that the replies deliver, one after the other. */
  function DataOf(replies: seq<Reply>): Bytes {
    if replies == [] then []
    else (if replies[0].Data? then replies[0].bytes else []) + DataOf(replies[1..])
  }

  lemma {:induction false} DataOfConcat(a: seq<Reply>, b: seq<Reply>)
    ensures DataOf(a + b) == DataOf(a) + DataOf(b)
  {
    if a == [] {
      assert a + b == b;
    } else {
      assert (a + b)[1..] == a[1..] + b;
      DataOfConcat(a[1..], b);
    }
  }

  // ------------------------------------------------------------ Splicing and slicing

  lemma SpliceTwice(content: Bytes, offset: nat, a: Bytes, b: Bytes)
    requires offset <= |content|
    ensures offset + |a| <= |Splice(content, offset, a)|
    ensures Splice(Splice(content, offset, a), offset + |a|, b) == Splice(content, offset, a + b)
  {
  }

  lemma SliceTwice(content: Bytes, offset: nat, m: nat, n: nat)
    requires offset <= |content|
    ensures var first := Slice(content, offset, m);
            && offset + |first| <= |content|
            && first + Slice(content, offset + |first|, n) == Slice(content, offset, m + n)
  {
  }

  // ------------------------------------------------------------ Pieces do not matter

  lemma {:induction false} WritesAreOneWrite<M>(w: World<M>, fd: int, chunks: seq<Bytes>)
    requires Usable(w, fd, O_RDONLY) && AtOffset(w, fd)
    ensures LegalRun(w, WriteCalls(fd, chunks))
    ensures Worlds.Run(w, WriteCalls(fd, chunks)).0 == WriteW(w, fd, Concat(chunks)).0
    ensures DataOf(Worlds.Run(w, WriteCalls(fd, chunks)).1) == []
    decreases |chunks|
  {
    var o := w.opens[fd].value;
    var content := w.flats[o.mount].inodes[o.node].value.content;
    if chunks == [] {
      assert Splice(content, o.offset, []) == content;
      assert w.flats[o.mount].inodes[o.node := Some(Regular(content))] == w.flats[o.mount].inodes;
      assert WriteW(w, fd, []).0 == w;
    } else {
      var next := WriteW(w, fd, chunks[0]).0;
      SpliceTwice(content, o.offset, chunks[0], Concat(chunks[1..]));
      WritesAreOneWrite(next, fd, chunks[1..]);
      var calls := WriteCalls(fd, chunks);
      assert calls[0] == Call.Write(fd, chunks[0]) && calls[1..] == WriteCalls(fd, chunks[1..]);
      WriteTwice(w, fd, chunks[0], Concat(chunks[1..]));
    }
  }

  lemma WriteTwice<M>(w: World<M>, fd: int, a: Bytes, b: Bytes)
    requires Usable(w, fd, O_RDONLY) && AtOffset(w, fd)
    ensures var next := WriteW(w, fd, a).0;
            && Usable(next, fd, O_RDONLY) && AtOffset(next, fd)
            && WriteW(next, fd, b).0 == WriteW(w, fd, a + b).0
  {
    var o := w.opens[fd].value;
    SpliceTwice(w.flats[o.mount].inodes[o.node].value.content, o.offset, a, b);
    var next := WriteW(w, fd, a).0;
    assert WriteW(next, fd, b).0.opens == WriteW(w, fd, a + b).0.opens;
    assert WriteW(next, fd, b).0.flats[o.mount].inodes == WriteW(w, fd, a + b).0.flats[o.mount].inodes;
    assert WriteW(next, fd, b).0.flats == WriteW(w, fd, a + b).0.flats;
  }

  lemma {:induction false} ReadsAreOneRead<M>(w: World<M>, fd: int, sizes: seq<nat>)
    requires Usable(w, fd, O_WRONLY) && AtOffset(w, fd)
    ensures LegalRun(w, ReadCalls(fd, sizes))
    ensures Worlds.Run(w, ReadCalls(fd, sizes)).0 == ReadW(w, fd, Sum(sizes)).0
    ensures DataOf(Worlds.Run(w, ReadCalls(fd, sizes)).1) == ReadW(w, fd, Sum(sizes)).1.bytes
    decreases |sizes|
  {
    hide ReadW, Legal, Step, Usable, AtOffset;
    if sizes == [] {
      ReadNothing(w, fd);
    } else {
      ReadStep(w, fd, sizes[0]);
      var (next, reply) := ReadW(w, fd, sizes[0]);
      ReadTwice(w, fd, sizes[0], Sum(sizes[1..]));
      ReadsAreOneRead(next, fd, sizes[1..]);
      var calls := ReadCalls(fd, sizes);
      assert calls[0] == Call.Read(fd, sizes[0]) && calls[1..] == ReadCalls(fd, sizes[1..]);
      var later := Worlds.Run(next, calls[1..]).1;
      assert ([reply] + later)[1..] == later;
    }
  }

  lemma ReadNothing<M>(w: World<M>, fd: int)
    requires Usable(w, fd, O_WRONLY) && AtOffset(w, fd)
    ensures ReadW(w, fd, 0) == (w, Data([]))
  {
    var o := w.opens[fd].value;
    assert Slice(w.flats[o.mount].inodes[o.node].value.content, o.offset, 0) == [];
    assert Advance(w.opens, fd, o.offset) == w.opens;
  }

  lemma ReadStep<M>(w: World<M>, fd: int, n: nat)
    requires Usable(w, fd, O_WRONLY) && AtOffset(w, fd)
    ensures Legal(w, Call.Read(fd, n)) && Step(w, Call.Read(fd, n)) == ReadW(w, fd, n) && ReadW(w, fd, n).1.Data?
  {
  }

  lemma ReadTwice<M>(w: World<M>, fd: int, m: nat, n: nat)
    requires Usable(w, fd, O_WRONLY) && AtOffset(w, fd)
    ensures var (next, reply) := ReadW(w, fd, m);
            && Usable(next, fd, O_WRONLY) && AtOffset(next, fd)
            && ReadW(next, fd, n).0 == ReadW(w, fd, m + n).0
            && reply.bytes + ReadW(next, fd, n).1.bytes == ReadW(w, fd, m + n).1.bytes
  {
    var o := w.opens[fd].value;
    SliceTwice(w.flats[o.mount].inodes[o.node].value.content, o.offset, m, n);
    assert ReadW(ReadW(w, fd, m).0, fd, n).0.opens == ReadW(w, fd, m + n).0.opens;
  }

  // ------------------------------------------------------------ The round trip

  lemma {:induction false} RunConcat<M>(w: World<M>, a: seq<Call>, b: seq<Call>)
    requires LegalRun(w, a) && LegalRun(Worlds.Run(w, a).0, b)
    ensures LegalRun(w, a + b)
    ensures Worlds.Run(w, a + b).0 == Worlds.Run(Worlds.Run(w, a).0, b).0
    ensures Worlds.Run(w, a + b).1 == Worlds.Run(w, a).1 + Worlds.Run(Worlds.Run(w, a).0, b).1
    decreases |a|
  {
    hide Step, Legal, Worlds.Run, LegalRun;
    if a == [] {
      assert a + b == b;
      RunNothing(w);
    } else {
      RunFirst(w, a);
      var (next, reply) := Step(w, a[0]);
      RunConcat(next, a[1..], b);
      var ab := a + b;
      assert ab[0] == a[0] && ab[1..] == a[1..] + b;
      RunFirst(w, ab);
      var ra, rb := Worlds.Run(next, a[1..]).1, Worlds.Run(Worlds.Run(w, a).0, b).1;
      assert [reply] + (ra + rb) == [reply] + ra + rb;
    }
  }

  lemma RunNothing<M>(w: World<M>)
    ensures LegalRun(w, []) && Worlds.Run(w, []) == (w, [])
  {
  }

  lemma RunFirst<M>(w: World<M>, calls: seq<Call>)
    requires calls != []
    ensures LegalRun(w, calls) <==> Legal(w, calls[0]) && LegalRun(Step(w, calls[0]).0, calls[1..])
    ensures LegalRun(w, calls) ==>
              var (next, reply) := Step(w, calls[0]);
              Worlds.Run(w, calls) == (Worlds.Run(next, calls[1..]).0, [reply] + Worlds.Run(next, calls[1..]).1)
  {
    hide Step, Legal;
  }

  lemma RunOne<M>(w: World<M>, c: Call)
    requires Legal(w, c)
    ensures LegalRun(w, [c]) && Worlds.Run(w, [c]) == (Step(w, c).0, [Step(w, c).1])
  {
    var next := Step(w, c).0;
    var reply := Step(w, c).1;
    assert [c][1..] == [] && [reply] + [] == [reply];
    assert LegalRun(next, [c][1..]) && Worlds.Run(next, [c][1..]) == (next, []);
  }

  lemma FreshAgain<T>(t: Table<T>, x: T)
    ensures Fresh(Drop(Put(t, x), Fresh(t))) == Fresh(t)
  {
    var t' := Drop(Put(t, x), Fresh(t));
    if Fresh(t) == |t| {
      assert t' == t + [None];
      assert t'[|t|].None?;
    } else {
      assert t' == t;
    }
  }

  /** A descriptor on a file with a known name and content. */
  ghost predicate Holds<M>(w: World<M>, fd: int, m: M, q: Path, content: Bytes) {
    && Live(w.opens, fd)
    && w.opens[fd].value.mount == m && m in w.flats
    && q in w.flats[m].names
    && w.opens[fd].value.node == w.flats[m].names[q]
    && Live(w.flats[m].inodes, w.flats[m].names[q])
    && w.flats[m].inodes[w.flats[m].names[q]].value == Regular(content)
  }

  function Target<M>(w: World<M>, path: string): Option<(M, Path)>
    requires OpensSomething(path)
  {
    if !IsAbsolute(path) && Canon(path) == [] then None
    else OpenRoute(w.table, if IsAbsolute(path) then Canon(path) else w.cwd + Canon(path))
  }

  lemma CreatesEmpty<M>(w: World<M>, path: string, flags: Flags)
    requires Wired(w) && OpensSomething(path) && flags.Nonzero() && OpenW(w, path, flags).1.Done?
    ensures var (w', r) := OpenW(w, path, flags);
            && r == Done(Fresh(w.opens)) && w'.cwd == w.cwd && w'.table == w.table
            && Target(w, path).Some?
            && var (m, q) := Target(w, path).value;
               && Holds(w', r.n, m, q, [])
               && w'.opens == Put(w.opens, OpenFile(m, w'.flats[m].names[q], 0, flags))
  {
  }

  lemma WriteKeepsName<M>(w: World<M>, fd: int, m: M, q: Path, bytes: Bytes)
    requires Holds(w, fd, m, q, []) && w.opens[fd].value.offset == 0 && Usable(w, fd, O_RDONLY)
    ensures AtOffset(w, fd)
    ensures var w' := WriteW(w, fd, bytes).0;
            && Holds(w', fd, m, q, bytes) && w'.cwd == w.cwd && w'.table == w.table
            && Drop(w'.opens, fd) == Drop(w.opens, fd)
  {
    assert Splice([], 0, bytes) == bytes;
  }

  lemma CloseAndReopen<M>(w: World<M>, fd: int, path: string, m: M, q: Path, content: Bytes)
    requires OpensSomething(path) && Target(w, path) == Some((m, q)) && Holds(w, fd, m, q, content)
    ensures var w1 := CloseW(w, fd).0;
            var (w2, r) := OpenW(w1, path, READ_ONLY);
            && r == Done(Fresh(Drop(w.opens, fd)))
            && Holds(w2, r.n, m, q, content)
            && w2.opens[r.n].value.offset == 0
            && Usable(w2, r.n, O_WRONLY)
  {
    var f, i := w.flats[m], w.flats[m].names[q];
    assert Named(f.names, i);
    assert Release(f, i, Held(Drop(w.opens, fd), m, i)) == f;
    assert CloseW(w, fd).0.flats == w.flats;
  }

  lemma ReopenedHolds<M>(w: World<M>, path: string, flags: Flags, content: Bytes, n: nat)
    requires Wired(w) && OpensSomething(path)
    requires flags.accMode % 4 != O_RDONLY && OpenW(w, path, flags).1.Done?
    ensures var (w1, r1) := OpenW(w, path, flags);
            var fd := r1.n;
            && fd >= 0 && Usable(w1, fd, O_RDONLY) && AtOffset(w1, fd)
            && var (w3, r3) := CloseW(WriteW(w1, fd, content).0, fd);
               var (w4, r4) := OpenW(w3, path, READ_ONLY);
               && r3 == Done(0) && r4 == Done(fd)
               && Usable(w4, fd, O_WRONLY) && AtOffset(w4, fd)
               && ReadW(w4, fd, n).1.bytes == Slice(content, 0, n)
  {
    var (w1, r1) := OpenW(w, path, flags);
    CreatesEmpty(w, path, flags);
    var fd := r1.n;
    var (m, q) := Target(w, path).value;
    WriteKeepsName(w1, fd, m, q, content);
    CloseAndReopen(WriteW(w1, fd, content).0, fd, path, m, q, content);
    FreshAgain(w.opens, w1.opens[fd].value);
  }

  /**
    Create a file, write it in any pieces, close it, open it again and read it in
    any pieces: the bytes come back in order, as many as were asked for.
   */
  lemma WriteThenReadBack<M>(w: World<M>, path: string, flags: Flags, chunks: seq<Bytes>, sizes: seq<nat>)
    requires Wired(w) && OpensSomething(path)
    requires flags.accMode % 4 != O_RDONLY && OpenW(w, path, flags).1.Done?
    ensures var fd := OpenW(w, path, flags).1.n;
            var calls := [Open(path, flags)] + WriteCalls(fd, chunks)
                         + [Close(fd)] + [Open(path, READ_ONLY)] + ReadCalls(fd, sizes);
            && LegalRun(w, calls)
            && DataOf(Worlds.Run(w, calls).1)
               == if Sum(sizes) < |Concat(chunks)| then Concat(chunks)[..Sum(sizes)] else Concat(chunks)
  {
    hide OpenW, WriteW, CloseW, ReadW, Usable, AtOffset, Wired, OpensSomething, WriteCalls, ReadCalls, Concat, Sum;
    hide Step, Legal, Worlds.Run, LegalRun, DataOf, Slice;
    ReopenedHolds(w, path, flags, Concat(chunks), Sum(sizes));
    FirstOf(Concat(chunks), Sum(sizes));
    var (w1, r1) := OpenW(w, path, flags);
    var fd := r1.n;
    var (w3, r3) := CloseW(WriteW(w1, fd, Concat(chunks)).0, fd);
    var (w4, r4) := OpenW(w3, path, READ_ONLY);
    WritesAreOneWrite(w1, fd, chunks);
    ReadsAreOneRead(w4, fd, sizes);
    OpenAndCloseSteps(w, path, flags, fd);
    OpenAndCloseSteps(WriteW(w1, fd, Concat(chunks)).0, path, flags, fd);
    OpenAndCloseSteps(w3, path, READ_ONLY, fd);
    RunOfFive(w, Open(path, flags), WriteCalls(fd, chunks), Close(fd), Open(path, READ_ONLY), ReadCalls(fd, sizes));
    DataOfRoundTrip(r1, Worlds.Run(w1, WriteCalls(fd, chunks)).1, r3, r4, Worlds.Run(w4, ReadCalls(fd, sizes)).1);
  }

  lemma FirstOf(content: Bytes, n: nat)
    ensures Slice(content, 0, n) == if n < |content| then content[..n] else content
  {
    SliceIs(content, 0, n);
  }

  lemma OpenAndCloseSteps<M>(w: World<M>, path: string, flags: Flags, fd: int)
    requires OpensSomething(path)
    ensures Legal(w, Open(path, flags)) && Step(w, Open(path, flags)) == OpenW(w, path, flags)
    ensures Legal(w, Close(fd)) && Step(w, Close(fd)) == CloseW(w, fd)
  {
  }

  lemma RunOfFive<M>(w: World<M>, a: Call, b: seq<Call>, c: Call, d: Call, e: seq<Call>)
    requires Legal(w, a) && LegalRun(Step(w, a).0, b)
    requires var w2 := Worlds.Run(Step(w, a).0, b).0;
             Legal(w2, c) && Legal(Step(w2, c).0, d) && LegalRun(Step(Step(w2, c).0, d).0, e)
    ensures LegalRun(w, [a] + b + [c] + [d] + e)
    ensures var (w1, r1) := Step(w, a);
            var (w2, rs) := Worlds.Run(w1, b);
            var (w3, r3) := Step(w2, c);
            var (w4, r4) := Step(w3, d);
            Worlds.Run(w, [a] + b + [c] + [d] + e).1 == [r1] + rs + [r3] + [r4] + Worlds.Run(w4, e).1
  {
    hide Worlds.Run, Step, Legal, LegalRun;
    var w1 := Step(w, a).0;
    var w2 := Worlds.Run(w1, b).0;
    var w3 := Step(w2, c).0;
    RunOne(w, a);
    RunConcat(w, [a], b);
    RunOne(w2, c);
    RunConcat(w, [a] + b, [c]);
    RunOne(w3, d);
    RunConcat(w, [a] + b + [c], [d]);
    RunConcat(w, [a] + b + [c] + [d], e);
  }

  lemma DataOfRoundTrip(r1: Reply, written: seq<Reply>, r2: Reply, r3: Reply, read: seq<Reply>)
    requires r1.Done? && DataOf(written) == [] && r2.Done? && r3.Done?
    ensures DataOf([r1] + written + [r2] + [r3] + read) == DataOf(read)
  {
    DataOfConcat([r1] + written + [r2] + [r3], read);
    DataOfConcat([r1] + written + [r2], [r3]);
    DataOfConcat([r1] + written, [r2]);
    DataOfConcat([r1], written);
  }

  /** The same for the code: the kernel's replies carry the bytes that were written. */
  lemma KernelReturnsWhatWasWritten<M>(k: Kernel<M>, w: World<M>, path: string, flags: Flags,
                                       chunks: seq<Bytes>, sizes: seq<nat>)
    requires Sim(k, w) && OpensSomething(path) && flags.accMode % 4 != O_RDONLY
    ensures OpenK(k, path, flags).1.Done? ==>
              var fd := OpenK(k, path, flags).1.n;
              var calls := [Open(path, flags)] + WriteCalls(fd, chunks)
                           + [Close(fd)] + [Open(path, READ_ONLY)] + ReadCalls(fd, sizes);
              && DefinedRun(k, calls)
              && DataOf(RunK(k, calls).1)
                 == if Sum(sizes) < |Concat(chunks)| then Concat(chunks)[..Sum(sizes)] else Concat(chunks)
  {
    OpenSim(k, w, path, flags);
    if OpenK(k, path, flags).1.Done? {
      WriteThenReadBack(w, path, flags, chunks, sizes);
      var fd := OpenK(k, path, flags).1.n;
      RunSim(k, w, [Open(path, flags)] + WriteCalls(fd, chunks)
                   + [Close(fd)] + [Open(path, READ_ONLY)] + ReadCalls(fd, sizes));
    }
  }

  // ------------------------------------------------------------ Which files can be opened

  lemma OpenExistingW<M>(w: World<M>, ps: Path)
    requires Wired(w) && IsCanonical(ps) && ps != []
    ensures var path := Print(true, ps);
            && Canon(path) == ps && OpensSomething(path)
            && (forall flags :: OpenW(w, path, flags) == OpenAt(w, ps, flags))
            && (OpenW(w, path, READ_ONLY).1.Done?
                <==> match OpenRoute(w.table, ps)
                     case None => false
                     case Some((m, q)) => m in w.flats && q != [] && q in w.flats[m].names)
  {
    CanonOfPrint(true, ps);
  }

  /**
    What opens with zero flags fails to open with any other flags, because these
    always create exclusively. With zero flags the paths that open are those
    that `stat` sees, if both look in the same place.
   */
  lemma OpenExisting<M>(k: Kernel<M>, w: World<M>, ps: Path, flags: Flags)
    requires Sim(k, w) && IsCanonical(ps) && ps != []
    ensures OpensSomething(Print(true, ps))
    ensures flags.Nonzero() && OpenK(k, Print(true, ps), READ_ONLY).1.Done? ==>
              OpenK(k, Print(true, ps), flags).1 == Error(Some(EEXIST))
    ensures ParentDecides(k.table, ps) ==>
              (OpenK(k, Print(true, ps), READ_ONLY).1.Done? <==> StatK(k, Print(true, ps)).Info?)
  {
    var path := Print(true, ps);
    OpenExistingW(w, ps);
    OpenSim(k, w, path, flags);
    OpenSim(k, w, path, READ_ONLY);
    var route := OpenRoute(w.table, ps);
    if OpenW(w, path, READ_ONLY).1.Done? {
      NameExists(k, w, route.value.0, route.value.1);
    }
    if ParentDecides(w.table, ps) {
      OpenAndStatRoutesAgree(w.table, ps);
      assert Route(w.table, path) == route;
      StatSim(k, w, path);
      if route.Some? && route.value.1 in w.flats[route.value.0].names {
        NameExists(k, w, route.value.0, route.value.1);
      }
    }
  }

  lemma NameExists<M>(k: Kernel<M>, w: World<M>, m: M, q: Path)
    requires Sim(k, w) && m in w.flats && q in w.flats[m].names && q != []
    ensures Creat(w.flats[m], q).1 == Fail(EEXIST)
    ensures Live(w.flats[m].inodes, w.flats[m].names[q])
  {
    assert MountOk(k.disks, w.flats, w.opens, m);
    assert Tree.Hangs(k.disks[m], w.flats[m].names, q);
  }
}
