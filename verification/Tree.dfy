/**
  The memory mount as a value: the table of nodes of memory/MemMount.cc, with
  child lists, parent links and use counts, and each operation as a function
  from one table to the next.
 */
module Tree {
  import opened Wrappers
  import opened Paths
  import opened Slots
  import opened FlatFs

  datatype Node = Node(
    name: string,
    parent: nat,
    isDir: bool,
    useCount: int,
    content: Bytes,
    capacity: nat,
    children: seq<nat>)

  type Disk = Table<Node>

  datatype Stat = Stat(ino: nat, isDir: bool, size: nat)

  const ROOT_NODE := Node("/", 0, true, 0, [], 0, [])
  const EMPTY_DISK: Disk := [Some(ROOT_NODE)]

  predicate IsDir(fs: Disk, i: int) {
    Live(fs, i) && fs[i].value.isDir
  }

  function Kids(fs: Disk, i: int): seq<nat> {
    if Live(fs, i) then fs[i].value.children else []
  }

  // ------------------------------------------------------------ Walking

  function FindChild(fs: Disk, kids: seq<nat>, name: string): Option<nat> {
    if kids == [] then None
    else if Live(fs, kids[0]) && fs[kids[0]].value.name == name then Some(kids[0])
    else FindChild(fs, kids[1..], name)
  }

  function Walk(fs: Disk, slot: nat, ps: Path): Option<nat>
    decreases |ps|
  {
    if ps == [] then Some(slot)
    else if !IsDir(fs, slot) then None
    else
      match FindChild(fs, Kids(fs, slot), ps[0])
      case None => None
      case Some(k) => Walk(fs, k, ps[1..])
  }

  function GetSlot(fs: Disk, path: string): Option<nat> {
    if path == "" then None
    else
      var ps := Canon(path);
      var slot := Walk(fs, 0, ps);
      if slot == Some(0) && |ps| > 1 then None else slot
  }

  function GetParentSlot(fs: Disk, path: string): Option<nat> {
    GetSlot(fs, path + "/..")
  }

  function StatOf(fs: Disk, slot: int): Result<Stat> {
    if !Live(fs, slot) then Fail(ENOENT)
    else Ok(Stat(slot, fs[slot].value.isDir, if fs[slot].value.isDir then 0 else |fs[slot].value.content|))
  }

  function GetNode(fs: Disk, path: string): Result<Stat> {
    match GetSlot(fs, path)
    case None => Fail(ENOENT)
    case Some(slot) => StatOf(fs, slot)
  }

  // ------------------------------------------------------------ Changing

  function Without(kids: seq<nat>, k: nat): seq<nat> {
    if kids == [] then []
    else (if kids[0] == k then [] else [kids[0]]) + Without(kids[1..], k)
  }

  function AddChild(fs: Disk, i: nat, k: nat): Disk {
    if !IsDir(fs, i) then fs
    else fs[i := Some(fs[i].value.(children := fs[i].value.children + [k]))]
  }

  function RemoveChild(fs: Disk, i: nat, k: nat): Disk {
    if !IsDir(fs, i) then fs
    else fs[i := Some(fs[i].value.(children := Without(fs[i].value.children, k)))]
  }

  function Last(ps: Path): string {
    if ps == [] then "" else ps[|ps| - 1]
  }

  /** A new node; a file counts its link. */
  function NewNode(name: string, parent: nat, isDir: bool): Node {
    Node(name, parent, isDir, if isDir then 0 else 1, [], 0, [])
  }

  function CreatAt(fs: Disk, parent: Option<nat>, child: Option<nat>, name: string): (Disk, Result<nat>) {
    match parent
    case None => (fs, Fail(ENOTDIR))
    case Some(dir) =>
      if !Live(fs, dir) then (fs, Fail(EINVAL))
      else if !fs[dir].value.isDir then (fs, Fail(ENOTDIR))
      else if child.Some? then (fs, Fail(EEXIST))
      else
        (AddChild(Put(fs, NewNode(name, dir, false)), dir, Fresh(fs)), Ok(Fresh(fs)))
  }

  function Creat(fs: Disk, path: string): (Disk, Result<nat>) {
    CreatAt(fs, GetParentSlot(fs, path), GetSlot(fs, path), Last(Canon(path)))
  }

  function MkdirAt(fs: Disk, parent: Option<nat>, child: Option<nat>, name: string): (Disk, Result<nat>) {
    if child.Some? then (fs, Fail(EEXIST))
    else
      match parent
      case None => (fs, Fail(ENOENT))
      case Some(dir) =>
        if !IsDir(fs, dir) then (fs, Fail(ENOTDIR))
        else
          (AddChild(Put(fs, NewNode(name, dir, true)), dir, Fresh(fs)), Ok(Fresh(fs)))
  }

  function Mkdir(fs: Disk, path: string): (Disk, Result<nat>) {
    MkdirAt(fs, GetParentSlot(fs, path), GetSlot(fs, path), Last(Canon(path)))
  }

  function CountBy(node: Node, delta: int): Node {
    node.(useCount := node.useCount + delta)
  }

  function Ref(fs: Disk, slot: nat): Disk {
    if !Live(fs, slot) then fs else fs[slot := Some(CountBy(fs[slot].value, 1))]
  }

  /** Counting a new node after it is linked gives the same table as before. */
  lemma PutThenCount(fs: Disk, node: Node, parent: nat)
    requires IsDir(fs, parent)
    ensures var linked := AddChild(Put(fs, node), parent, Fresh(fs));
            && Live(linked, Fresh(fs))
            && linked[Fresh(fs) := Some(CountBy(linked[Fresh(fs)].value, 1))]
               == AddChild(Put(fs, CountBy(node, 1)), parent, Fresh(fs))
  {
  }

  function Unref(fs: Disk, slot: nat): Disk {
    if !Live(fs, slot) || fs[slot].value.isDir then fs
    else
      var node := CountBy(fs[slot].value, -1);
      if node.useCount > 0 then fs[slot := Some(node)] else Drop(fs, slot)
  }

  function UnlinkAt(fs: Disk, node: Option<nat>, parent: Option<nat>): (Disk, Result<nat>) {
    match node
    case None => (fs, Fail(ENOENT))
    case Some(slot) =>
      match parent
      case None => (fs, Fail(EBUSY))
      case Some(dir) =>
        if IsDir(fs, slot) then (fs, Fail(EISDIR))
        else (Unref(RemoveChild(fs, dir, slot), slot), Ok(0))
  }

  function Unlink(fs: Disk, path: string): (Disk, Result<nat>) {
    UnlinkAt(fs, GetSlot(fs, path), GetParentSlot(fs, path))
  }

  function Rmdir(fs: Disk, slot: nat): (Disk, Result<nat>) {
    if !Live(fs, slot) then (fs, Fail(ENOENT))
    else if !fs[slot].value.isDir then (fs, Fail(ENOTDIR))
    else if |fs[slot].value.children| > 0 then (fs, Fail(ENOTEMPTY))
    else
      var parent := fs[slot].value.parent;
      (Drop(if slot != 0 then RemoveChild(fs, parent, slot) else fs, slot), Ok(0))
  }

  // ------------------------------------------------------------ File contents

  predicate InFile(fs: Disk, slot: int, offset: int) {
    Live(fs, slot) ==> 0 <= offset <= |fs[slot].value.content|
  }

  /** The capacity after a write that ends at `end`. */
  function Grown(capacity: nat, end: nat): nat {
    if end <= capacity then capacity
    else if (capacity + 1) * 2 > end then (capacity + 1) * 2
    else end
  }

  function WriteNode(node: Node, offset: nat, bytes: Bytes): Node
    requires offset <= |node.content|
  {
    node.(content := Splice(node.content, offset, bytes), capacity := Grown(node.capacity, offset + |bytes|))
  }

  function Write(fs: Disk, slot: nat, offset: nat, bytes: Bytes): (Disk, Result<nat>)
    requires InFile(fs, slot, offset)
  {
    if !Live(fs, slot) then (fs, Fail(ENOENT))
    else (fs[slot := Some(WriteNode(fs[slot].value, offset, bytes))], Ok(|bytes|))
  }

  function Read(fs: Disk, slot: nat, offset: nat, count: nat): Result<Bytes>
    requires InFile(fs, slot, offset)
  {
    if !Live(fs, slot) then Fail(ENOENT) else Ok(Slice(fs[slot].value.content, offset, count))
  }

  // ------------------------------------------------------------ Failures change nothing

  lemma CreatEffect(fs: Disk, path: string)
    ensures var (fs', r) := Creat(fs, path);
            if r.Ok? then Live(fs', r.value) else fs' == fs
  {
  }

  lemma NodeFoundIsLive(fs: Disk, path: string)
    ensures GetNode(fs, path).Ok? ==> Live(fs, GetNode(fs, path).value.ino)
  {
  }

  lemma WriteEffect(fs: Disk, slot: nat, offset: nat, bytes: Bytes)
    requires InFile(fs, slot, offset)
    ensures var (fs', r) := Write(fs, slot, offset, bytes);
            if r.Ok? then r.value == |bytes| else fs' == fs
  {
  }

  // ------------------------------------------------------------ The invariant

  predicate NoDuplicates(kids: seq<nat>) {
    forall i, j | 0 <= i < j < |kids| :: kids[i] != kids[j]
  }

  /** The node named `p` hangs under the directory named by all but the last component. */
  predicate Hangs(fs: Disk, names: Names, p: Path)
    requires p in names
  {
    && Init(p) in names
    && IsDir(fs, names[Init(p)])
    && names[p] in Kids(fs, names[Init(p)])
    && Live(fs, names[p])
    && fs[names[p]].value.name == Last(p)
    && fs[names[p]].value.parent == names[Init(p)]
  }

  predicate NamedUnder(fs: Disk, names: Names, p: Path, k: nat) {
    && Live(fs, k)
    && p + [fs[k].value.name] in names
    && names[p + [fs[k].value.name]] == k
  }

  /**
    `names` gives every node that can be reached from the root its one path.
    Paths get longer from parent to child, so there are no cycles, whatever the
    order of the slots is.
   */
  ghost predicate WellFormed(fs: Disk, names: Names) {
    && [] in names && names[[]] == 0 && IsDir(fs, 0)
    && (forall p | p in names :: IsCanonical(p) && Live(fs, names[p]))
    && (forall p {:trigger Hangs(fs, names, p)} | p in names && p != [] :: Hangs(fs, names, p))
    && (forall p, q | p in names && q in names && names[p] == names[q] :: p == q)
    && (forall p, k {:trigger NamedUnder(fs, names, p, k)} | p in names && k in Kids(fs, names[p]) ::
           NamedUnder(fs, names, p, k))
    && (forall i | IsDir(fs, i) :: Named(names, i))
    && (forall i | Live(fs, i) :: NoDuplicates(Kids(fs, i)) && (Kids(fs, i) != [] ==> IsDir(fs, i)))
  }

  /** A regular file counts its name and the handles that hold it. */
  ghost predicate Counted(fs: Disk, names: Names, refs: multiset<nat>, i: int)
    requires Live(fs, i)
  {
    fs[i].value.useCount == refs[i] + (if Named(names, i) then 1 else 0) > 0
  }

  /** `refs` holds one entry for each open handle on this mount. */
  ghost predicate Inv(fs: Disk, names: Names, refs: multiset<nat>) {
    && WellFormed(fs, names)
    && (forall i | i in refs :: Live(fs, i))
    && (forall i: nat | Live(fs, i) && !IsDir(fs, i) :: Counted(fs, names, refs, i))
  }

  function Kind(node: Node): Inode {
    if node.isDir then Directory else Regular(node.content)
  }

  function Inodes(fs: Disk): Table<Inode> {
    seq(|fs|, i requires 0 <= i < |fs| => if fs[i].Some? then Some(Kind(fs[i].value)) else None)
  }

  function View(fs: Disk, names: Names): Flat {
    Flat(names, Inodes(fs))
  }

  // ------------------------------------------------------------ Listing

  /** The room for a name in a record (base/dirent.h), and the number every record carries. */
  const D_NAME_SIZE := 256
  const D_INO := 0x60061E
  const NUL := '\0'

  datatype Dirent = Dirent(ino: nat, off: nat, reclen: nat, name: seq<char>)

  /** A name as a C string: up to the first zero. */
  function Cut(name: string): string {
    name[..RunEnd(name, NUL, 0)]
  }

  /** What `strncpy` puts into the zeroed field: as much as there is room for, with zeros only if room is left. */
  function NameField(name: string): (field: seq<char>)
    ensures |field| == D_NAME_SIZE
  {
    var s := Cut(name);
    if |s| < D_NAME_SIZE then s + seq(D_NAME_SIZE - |s|, _ => NUL) else s[..D_NAME_SIZE]
  }

  /** The string a reader finds in the field, if it has an end there. */
  function NameRead(field: seq<char>): Option<string> {
    var n := RunEnd(field, NUL, 0);
    if n < |field| then Some(field[..n]) else None
  }

  predicate Fits(name: string) {
    NUL !in name && |name| < D_NAME_SIZE
  }

  /** One record of `size` bytes for each child. */
  function Records(fs: Disk, kids: seq<nat>, size: nat): seq<Dirent> {
    seq(|kids|, i requires 0 <= i < |kids| =>
      Dirent(D_INO, size, size, NameField(if Live(fs, kids[i]) then fs[kids[i]].value.name else "")))
  }

  lemma OneChildMore(fs: Disk, kids: seq<nat>, n: nat, size: nat)
    requires n < |kids| && Live(fs, kids[n])
    ensures Records(fs, kids[..n + 1], size)
         == Records(fs, kids[..n], size) + [Dirent(D_INO, size, size, NameField(fs[kids[n]].value.name))]
  {
    assert kids[..n + 1] == kids[..n] + [kids[n]];
  }

  /** The records of the first children, as many as fit into `count` bytes. */
  function FirstRecords(fs: Disk, kids: seq<nat>, size: nat, count: nat): seq<Dirent>
    requires size > 0
  {
    var room := count / size;
    Records(fs, if room < |kids| then kids[..room] else kids, size)
  }

  function Getdents(fs: Disk, slot: nat, size: nat, count: nat): Result<seq<Dirent>>
    requires size > 0
  {
    if !IsDir(fs, slot) then Fail(ENOTDIR)
    else Ok(FirstRecords(fs, Kids(fs, slot), size, count))
  }

  lemma OneRecordMore(n: nat, record: nat)
    ensures (n + 1) * record == n * record + record
  {
  }

  lemma {:induction false} MoreRecords(m: nat, n: nat, record: nat)
    requires m < n
    ensures m * record + record <= n * record
    decreases n
  {
    OneRecordMore(n - 1, record);
    if m < n - 1 {
      MoreRecords(m, n - 1, record);
    }
  }

  /** How many whole records fit into `count` bytes. */
  lemma RecordsThatFit(n: nat, record: nat, count: nat)
    requires record > 0 && n * record <= count
    ensures n <= count / record
    ensures n * record + record > count ==> n == count / record
  {
    var q := count / record;
    assert q * record <= count < q * record + record;
    if n > q {
      MoreRecords(q, n, record);
    } else if n < q {
      MoreRecords(n, q, record);
    }
  }

  /** `n` records have taken `bytes` of `count` bytes. */
  predicate Taken(n: nat, record: nat, bytes: nat, count: nat) {
    bytes == n * record <= count
  }

  lemma TakeOne(n: nat, record: nat, bytes: nat, count: nat)
    requires record > 0 && Taken(n, record, bytes, count)
    ensures n <= count / record
    ensures n < count / record <==> bytes + record <= count
    ensures bytes + record <= count ==> Taken(n + 1, record, bytes + record, count)
  {
    RecordsThatFit(n, record, count);
    OneRecordMore(n, record);
    if bytes + record <= count {
      RecordsThatFit(n + 1, record, count);
    }
  }

  lemma NoneTaken(fs: Disk, kids: seq<nat>, size: nat, count: nat)
    ensures Taken(0, size, 0, count) && Records(fs, kids[..0], size) == []
  {
  }

  lemma AllTaken(fs: Disk, kids: seq<nat>, n: nat, size: nat, bytes: nat, count: nat)
    requires size > 0 && n <= |kids| && Taken(n, size, bytes, count)
    requires n == |kids| || bytes + size > count
    ensures FirstRecords(fs, kids, size, count) == Records(fs, kids[..n], size)
  {
    TakeOne(n, size, bytes, count);
    assert kids[..|kids|] == kids;
  }
}
