/**
  The reference file system: one map from canonical paths to inodes and a table
  of inodes. It has no child lists, no parent links and no use counts; an inode
  lives exactly as long as it has a name or somebody holds it open.
 */
module FlatFs {
  import opened Wrappers
  import opened Paths
  import opened Slots

  datatype Errno = EACCES | EBADF | EBUSY | EEXIST | EINVAL | EISDIR | ENOENT | ENOTDIR | ENOTEMPTY

  datatype Result<+T> = Ok(value: T) | Fail(errno: Errno)

  type Bytes = seq<bv8>

  datatype Inode = Directory | Regular(content: Bytes)

  type Names = map<Path, nat>

  datatype Flat = Flat(names: Names, inodes: Table<Inode>)
  {
    predicate IsDir(i: int) {
      Live(inodes, i) && inodes[i].value.Directory?
    }

    predicate IsFile(i: int) {
      Live(inodes, i) && inodes[i].value.Regular?
    }
  }

  ghost predicate Named(names: Names, i: int) {
    exists p :: p in names && names[p] == i
  }

  ghost predicate HasEntries(names: Names, i: nat) {
    exists p :: p in names && p != [] && Init(p) in names && names[Init(p)] == i
  }

  const EMPTY := Flat(map[[] := 0], [Some(Directory)])

  function Bind(f: Flat, p: Path, inode: Inode): Flat {
    Flat(f.names[p := Fresh(f.inodes)], Put(f.inodes, inode))
  }

  function Creat(f: Flat, p: Path): (Flat, Result<nat>) {
    if Init(p) !in f.names || !f.IsDir(f.names[Init(p)]) then (f, Fail(ENOTDIR))
    else if p in f.names then (f, Fail(EEXIST))
    else (Bind(f, p, Regular([])), Ok(Fresh(f.inodes)))
  }

  function Mkdir(f: Flat, p: Path): (Flat, Result<nat>) {
    if p in f.names then (f, Fail(EEXIST))
    else if Init(p) !in f.names then (f, Fail(ENOENT))
    else if !f.IsDir(f.names[Init(p)]) then (f, Fail(ENOTDIR))
    else (Bind(f, p, Directory), Ok(Fresh(f.inodes)))
  }

  function GetNode(f: Flat, p: Path): Result<nat> {
    if p in f.names then Ok(f.names[p]) else Fail(ENOENT)
  }

  /** A file goes away when it has no name and nobody holds it. */
  ghost function Release(f: Flat, i: nat, held: bool): Flat {
    if f.IsFile(i) && !Named(f.names, i) && !held then f.(inodes := Drop(f.inodes, i)) else f
  }

  ghost function Unlink(f: Flat, p: Path, held: bool): (Flat, Result<nat>) {
    if p !in f.names then (f, Fail(ENOENT))
    else if f.IsDir(f.names[p]) then (f, Fail(EISDIR))
    else (Release(f.(names := f.names - {p}), f.names[p], held), Ok(0))
  }

  ghost function Rmdir(f: Flat, i: nat): (Flat, Result<nat>) {
    if !Live(f.inodes, i) then (f, Fail(ENOENT))
    else if !f.IsDir(i) then (f, Fail(ENOTDIR))
    else if HasEntries(f.names, i) then (f, Fail(ENOTEMPTY))
    else (Flat(map p | p in f.names && f.names[p] != i :: f.names[p], Drop(f.inodes, i)), Ok(0))
  }

  /** Bytes from `offset` on are replaced by `bytes`; the rest stays. */
  function Splice(content: Bytes, offset: nat, bytes: Bytes): Bytes
    requires offset <= |content|
  {
    var end := offset + |bytes|;
    content[..offset] + bytes + if end < |content| then content[end..] else []
  }

  /** At most `count` bytes from `offset` on. */
  function Slice(content: Bytes, offset: nat, count: nat): Bytes
    requires offset <= |content|
  {
    if offset + count < |content| then content[offset..offset + count] else content[offset..]
  }

  lemma SpliceIs(content: Bytes, offset: nat, bytes: Bytes)
    requires offset <= |content|
    ensures var spliced, end := Splice(content, offset, bytes), offset + |bytes|;
            && |spliced| == (if |content| < end then end else |content|)
            && forall i | 0 <= i < |spliced| ::
                 spliced[i] == if offset <= i < end then bytes[i - offset] else content[i]
  {
  }

  lemma SliceIs(content: Bytes, offset: nat, count: nat)
    requires offset <= |content|
    ensures var slice := Slice(content, offset, count);
            && |slice| == (if count < |content| - offset then count else |content| - offset)
            && forall i | 0 <= i < |slice| :: slice[i] == content[offset + i]
  {
  }

  predicate InFile(f: Flat, i: int, offset: int) {
    f.IsFile(i) && 0 <= offset <= |f.inodes[i].value.content|
  }

  function Write(f: Flat, i: nat, offset: nat, bytes: Bytes): Flat
    requires InFile(f, i, offset)
  {
    f.(inodes := f.inodes[i := Some(Regular(Splice(f.inodes[i].value.content, offset, bytes)))])
  }

  function Read(f: Flat, i: nat, offset: nat, count: nat): Bytes
    requires InFile(f, i, offset)
  {
    Slice(f.inodes[i].value.content, offset, count)
  }
}
