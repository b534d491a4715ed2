/**
  The slot-encoded tree refines the flat map of module FlatFs: every operation
  keeps the invariant and does to the view what the reference operation does.
 */
module TreeProofs {
  import opened Wrappers
  import opened Paths
  import opened Slots
  import opened FlatFs
  import opened Tree

  // ------------------------------------------------------------ Lookup

  lemma {:induction false} FindChildFinds(fs: Disk, kids: seq<nat>, name: string)
    ensures var r := FindChild(fs, kids, name);
            match r
            case Some(k) => k in kids && Live(fs, k) && fs[k].value.name == name
            case None => forall k | k in kids && Live(fs, k) :: fs[k].value.name != name
  {
    if kids != [] {
      FindChildFinds(fs, kids[1..], name);
    }
  }

  lemma {:induction false} PrefixNamed(fs: Disk, names: Names, p: Path, q: Path)
    requires WellFormed(fs, names) && p + q in names
    ensures p in names
    decreases |q|
  {
    if q == [] {
      assert p + q == p;
    } else {
      assert Init(p + q) == p + Init(q);
      assert Hangs(fs, names, p + q);
      PrefixNamed(fs, names, p, Init(q));
    }
  }

  lemma ChildStep(fs: Disk, names: Names, p: Path, c: string)
    requires WellFormed(fs, names) && p in names
    ensures p + [c] in names ==> IsDir(fs, names[p])
    ensures FindChild(fs, Kids(fs, names[p]), c)
         == if p + [c] in names then Some(names[p + [c]]) else None
  {
    var kids := Kids(fs, names[p]);
    FindChildFinds(fs, kids, c);
    if p + [c] in names {
      assert Init(p + [c]) == p;
      assert Hangs(fs, names, p + [c]);
    }
    match FindChild(fs, kids, c)
    case None =>
    case Some(k) =>
      assert NamedUnder(fs, names, p, k);
  }

  /** Walking down from a named node looks the longer path up in the flat map. */
  lemma {:induction false} WalkIsLookup(fs: Disk, names: Names, p: Path, q: Path)
    requires WellFormed(fs, names) && p in names
    ensures Walk(fs, names[p], q) == if p + q in names then Some(names[p + q]) else None
    decreases |q|
  {
    if q == [] {
      assert p + q == p;
    } else {
      var c := q[0];
      assert (p + [c]) + q[1..] == p + q;
      ChildStep(fs, names, p, c);
      if p + [c] in names {
        WalkIsLookup(fs, names, p + [c], q[1..]);
      } else if p + q in names {
        PrefixNamed(fs, names, p + [c], q[1..]);
      }
    }
  }

  function LookUp(names: Names, p: Path): Option<nat> {
    if p in names then Some(names[p]) else None
  }

  /** `GetSlot` is the map lookup; its check for slot 0 after a long walk never fires. */
  lemma GetSlotIsLookup(fs: Disk, names: Names, path: string)
    requires WellFormed(fs, names) && path != ""
    ensures GetSlot(fs, path) == Walk(fs, 0, Canon(path))
    ensures GetSlot(fs, path) == LookUp(names, Canon(path))
    ensures GetParentSlot(fs, path) == LookUp(names, Init(Canon(path)))
  {
    var ps, up := Canon(path), Init(Canon(path));
    CanonDotDot(path);
    WalkIsLookup(fs, names, [], ps);
    WalkIsLookup(fs, names, [], up);
    assert [] + ps == ps && [] + up == up;
    assert ps in names && names[ps] == 0 ==> ps == [];
    assert up in names && names[up] == 0 ==> up == [];
  }

  /** What the walks find, for a table that satisfies the whole invariant. */
  lemma SlotsFound(fs: Disk, names: Names, refs: multiset<nat>, path: string)
    requires Inv(fs, names, refs) && path != ""
    ensures GetSlot(fs, path) == LookUp(names, Canon(path))
    ensures GetParentSlot(fs, path) == LookUp(names, Init(Canon(path)))
    ensures [] in names && IsDir(fs, names[[]])
    ensures var p := Canon(path);
            p in names && p != [] ==> Hangs(fs, names, p)
  {
    GetSlotIsLookup(fs, names, path);
    var p := Canon(path);
    if p in names && p != [] {
      assert Hangs(fs, names, p);
    }
  }

  // ------------------------------------------------------------ Walk up, walk down

  /** Collects the names met on the way from `i` to the root, in at most `fuel` steps. */
  function PathUp(fs: Disk, i: nat, fuel: nat): Option<Path>
    decreases fuel
  {
    if i == 0 then Some([])
    else if fuel == 0 || !Live(fs, i) then None
    else
      match PathUp(fs, fs[i].value.parent, fuel - 1)
      case None => None
      case Some(p) => Some(p + [fs[i].value.name])
  }

  lemma {:induction false} ClimbingFindsName(fs: Disk, names: Names, p: Path, fuel: nat)
    requires WellFormed(fs, names) && p in names && |p| <= fuel
    ensures PathUp(fs, names[p], fuel) == Some(p)
    decreases |p|
  {
    if p != [] {
      assert Hangs(fs, names, p);
      assert names[p] != 0;
      var node := fs[names[p]].value;
      ClimbingFindsName(fs, names, Init(p), fuel - 1);
      assert PathUp(fs, node.parent, fuel - 1) == Some(Init(p));
      assert PathUp(fs, names[p], fuel) == Some(Init(p) + [node.name]);
      assert Init(p) + [Last(p)] == p;
    }
  }

  /** The nodes on the way up are all different, so no path is longer than the table. */
  lemma {:induction false} DepthBound(fs: Disk, names: Names, p: Path) returns (above: set<nat>)
    requires WellFormed(fs, names) && p in names
    ensures forall i | i in above :: exists q :: q in names && |q| <= |p| && names[q] == i
    ensures |above| == |p| + 1
    decreases |p|
  {
    if p == [] {
      above := {0};
      assert names[p] == 0;
    } else {
      assert Hangs(fs, names, p);
      var more := DepthBound(fs, names, Init(p));
      assert names[p] !in more;
      above := more + {names[p]};
    }
  }

  lemma {:induction false} BoundedSet(s: set<nat>, n: nat)
    requires forall i | i in s :: i < n
    ensures |s| <= n
  {
    if n > 0 {
      BoundedSet(s - {n - 1}, n - 1);
      assert |s| <= |s - {n - 1}| + 1;
    } else {
      assert s == {};
    }
  }

  /**
    Walking up from a named node ends at the root within as many steps as the
    table has entries, and walking down the printed path comes back to it.
   */
  lemma UpThenDown(fs: Disk, names: Names, i: nat) returns (p: Path)
    requires WellFormed(fs, names) && Named(names, i)
    ensures PathUp(fs, i, |fs|) == Some(p)
    ensures GetSlot(fs, Print(true, p)) == Some(i)
  {
    p :| p in names && names[p] == i;
    var above := DepthBound(fs, names, p);
    forall k | k in above
      ensures k < |fs|
    {
      var q :| q in names && |q| <= |p| && names[q] == k;
    }
    BoundedSet(above, |fs|);
    ClimbingFindsName(fs, names, p, |fs|);
    CanonOfPrint(true, p);
    GetSlotIsLookup(fs, names, Print(true, p));
  }

  /** The children of a directory are exactly the names one component below it. */
  lemma ListingIsExact(fs: Disk, names: Names, p: Path, c: string)
    requires WellFormed(fs, names) && p in names
    ensures p + [c] in names
       <==> exists k :: k in Kids(fs, names[p]) && Live(fs, k) && fs[k].value.name == c
  {
    ChildStep(fs, names, p, c);
    FindChildFinds(fs, Kids(fs, names[p]), c);
  }

  /** What a reader finds in the records of a listing are entries, each of them once. */
  ghost predicate Faithful(names: Names, p: Path, listed: seq<Dirent>) {
    && (forall j | 0 <= j < |listed| ::
          NameRead(listed[j].name).Some? && p + [NameRead(listed[j].name).value] in names)
    && (forall j, l | 0 <= j < l < |listed| :: NameRead(listed[j].name) != NameRead(listed[l].name))
  }

  ghost predicate NamesFit(names: Names, p: Path) {
    forall c | p + [c] in names :: Fits(c)
  }

  /** The record has a number that readers accept, its size, and the name of an entry. */
  ghost predicate IsEntry(names: Names, p: Path, size: nat, record: Dirent) {
    && record.ino == 0x60061E && record.off == record.reclen == size
    && exists c :: p + [c] in names && record.name == NameField(c)
  }

  /** What is read back from a record is the name if it fits, its start if that can be told, and nothing else. */
  lemma NameReadIff(c: string)
    ensures NameRead(NameField(c)) == if |Cut(c)| < D_NAME_SIZE then Some(Cut(c)) else None
    ensures NameRead(NameField(c)) == Some(c) <==> Fits(c)
    ensures Fits(c) <==> |c| < 256 && '\0' !in c
    ensures |NameField(c)| == 256
    ensures Fits(c) ==> Cut(c) == c
    ensures Cut(Cut(c)) == Cut(c)
  {
    var n, field := |Cut(c)|, NameField(c);
    assert n == RunEnd(c, NUL, 0);
    assert NUL !in c <==> n == |c|;
    assert n == |c| ==> Cut(c) == c;
    RunEndIs(Cut(c), NUL, 0, n);
    if n < D_NAME_SIZE {
      assert field[n] == NUL && field[..n] == Cut(c);
      RunEndIs(field, NUL, 0, n);
    } else {
      assert field == Cut(c)[..D_NAME_SIZE];
      RunEndIs(field, NUL, 0, D_NAME_SIZE);
    }
  }

  /**
    A listing has a record for every entry if there is room for one more. What a
    reader of the records finds are the entries, each of them once, exactly when
    all names fit into their records; with names that fit, every shorter listing
    is faithful too.
   */
  lemma GetdentsIsExact(fs: Disk, names: Names, p: Path, size: nat, count: nat) returns (listed: seq<Dirent>)
    requires WellFormed(fs, names) && p in names && IsDir(fs, names[p]) && size > 0
    ensures Tree.Getdents(fs, names[p], size, count) == Ok(listed)
    ensures |listed| <= count / size
    ensures forall j | 0 <= j < |listed| :: IsEntry(names, p, size, listed[j])
    ensures |listed| < count / size ==>
              && (forall c | p + [c] in names :: exists j :: 0 <= j < |listed| && listed[j].name == NameField(c))
              && (Faithful(names, p, listed) <==> NamesFit(names, p))
    ensures NamesFit(names, p) ==> Faithful(names, p, listed)
  {
    hide WellFormed, Records, NameField, NamesFit, Faithful, IsEntry;
    var kids := Kids(fs, names[p]);
    var n := Listed(|kids|, size, count);
    FirstRecordsListed(fs, kids, size, count);
    listed := Records(fs, kids[..n], size);
    RecordsName(fs, names, p, n, size);
    if n == |kids| {
      assert kids[..n] == kids && listed == Records(fs, kids, size);
      RecordsNameAll(fs, names, p, size);
    }
  }

  /** How many of the children are listed. */
  function Listed(kids: nat, size: nat, count: nat): nat
    requires size > 0
  {
    if count / size < kids then count / size else kids
  }

  lemma FirstRecordsListed(fs: Disk, kids: seq<nat>, size: nat, count: nat)
    requires size > 0
    ensures var n := Listed(|kids|, size, count);
            && n <= |kids| && n <= count / size && (n < count / size ==> n == |kids|)
            && FirstRecords(fs, kids, size, count) == Records(fs, kids[..n], size)
            && |Records(fs, kids[..n], size)| == n
  {
    assert kids[..|kids|] == kids;
  }

  lemma RecordsName(fs: Disk, names: Names, p: Path, n: nat, size: nat)
    requires WellFormed(fs, names) && p in names && IsDir(fs, names[p]) && n <= |Kids(fs, names[p])|
    ensures var listed := Records(fs, Kids(fs, names[p])[..n], size);
            && (forall j | 0 <= j < |listed| :: IsEntry(names, p, size, listed[j]))
            && (NamesFit(names, p) ==> Faithful(names, p, listed))
  {
    hide WellFormed, NameField, NameRead, Fits;
    var kids := Kids(fs, names[p]);
    var listed := Records(fs, kids[..n], size);
    forall j | 0 <= j < n
      ensures Live(fs, kids[j]) && p + [fs[kids[j]].value.name] in names
      ensures IsEntry(names, p, size, listed[j])
      ensures NamesFit(names, p) ==> NameRead(listed[j].name) == Some(fs[kids[j]].value.name)
    {
      KidIsLive(fs, names, names[p], kids[j]);
      var c := fs[kids[j]].value.name;
      ListingIsExact(fs, names, p, c);
      assert kids[..n][j] == kids[j];
      assert p + [c] in names && listed[j].name == NameField(c);
      NameReadIff(c);
    }
    forall j, l | 0 <= j < l < n
      ensures fs[kids[j]].value.name != fs[kids[l]].value.name
    {
      KidsDiffer(fs, names, p, j, l);
    }
  }

  lemma KidsDiffer(fs: Disk, names: Names, p: Path, j: nat, l: nat)
    requires WellFormed(fs, names) && p in names && j < l < |Kids(fs, names[p])|
    ensures var kids := Kids(fs, names[p]);
            Live(fs, kids[j]) && Live(fs, kids[l]) && fs[kids[j]].value.name != fs[kids[l]].value.name
  {
    var kids := Kids(fs, names[p]);
    assert NoDuplicates(kids);
    SiblingsDiffer(fs, names, p, kids[j], kids[l]);
  }

  lemma RecordsNameAll(fs: Disk, names: Names, p: Path, size: nat)
    requires WellFormed(fs, names) && p in names && IsDir(fs, names[p])
    ensures var listed := Records(fs, Kids(fs, names[p]), size);
            && (forall c | p + [c] in names :: exists j :: 0 <= j < |listed| && listed[j].name == NameField(c))
            && (Faithful(names, p, listed) ==> NamesFit(names, p))
  {
    hide WellFormed, NameField, NameRead, Fits, Cut;
    var listed := Records(fs, Kids(fs, names[p]), size);
    forall c | p + [c] in names
      ensures exists j :: 0 <= j < |listed| && listed[j].name == NameField(c)
      ensures Faithful(names, p, listed) ==> Fits(c)
    {
      var j := EntryIsKid(fs, names, p, c);
      assert 0 <= j < |listed| && listed[j].name == NameField(c);
      if Faithful(names, p, listed) {
        ReadEntryFits(fs, names, p, size, c, j);
      }
    }
  }

  /** A name that does not fit is not read, or is read as another entry, which has a record of its own. */
  lemma ReadEntryFits(fs: Disk, names: Names, p: Path, size: nat, c: string, j: nat)
    requires WellFormed(fs, names) && p in names && IsDir(fs, names[p]) && p + [c] in names
    requires j < |Kids(fs, names[p])| && Live(fs, Kids(fs, names[p])[j]) && fs[Kids(fs, names[p])[j]].value.name == c
    requires Faithful(names, p, Records(fs, Kids(fs, names[p]), size))
    ensures Fits(c)
  {
    hide WellFormed, NameField, NameRead, Fits, Cut;
    var listed := Records(fs, Kids(fs, names[p]), size);
    NameReadIff(c);
    assert listed[j].name == NameField(c) && NameRead(listed[j].name) == Some(Cut(c));
    assert p + [Cut(c)] in names;
    var l := EntryIsKid(fs, names, p, Cut(c));
    NameReadIff(Cut(c));
    assert listed[l].name == NameField(Cut(c)) && NameRead(listed[l].name) == Some(Cut(c));
    assert l == j;
  }

  lemma EntryIsKid(fs: Disk, names: Names, p: Path, c: string) returns (j: nat)
    requires WellFormed(fs, names) && p in names && p + [c] in names
    ensures var kids := Kids(fs, names[p]);
            j < |kids| && Live(fs, kids[j]) && fs[kids[j]].value.name == c
  {
    ListingIsExact(fs, names, p, c);
    var kids := Kids(fs, names[p]);
    var k :| k in kids && Live(fs, k) && fs[k].value.name == c;
    j :| 0 <= j < |kids| && kids[j] == k;
  }

  lemma KidIsLive(fs: Disk, names: Names, i: nat, k: nat)
    requires WellFormed(fs, names) && k in Kids(fs, i)
    ensures Live(fs, k)
  {
    assert IsDir(fs, i);
    var p :| p in names && names[p] == i;
    assert NamedUnder(fs, names, p, k);
  }

  lemma ParentIsLive(fs: Disk, names: Names, refs: multiset<nat>, i: nat)
    requires Inv(fs, names, refs) && IsDir(fs, i) && i != 0
    ensures IsDir(fs, fs[i].value.parent) && fs[i].value.parent != i
  {
    var p :| p in names && names[p] == i;
    assert Hangs(fs, names, p);
  }

  lemma SiblingsDiffer(fs: Disk, names: Names, p: Path, j: nat, k: nat)
    requires WellFormed(fs, names) && p in names
    requires j in Kids(fs, names[p]) && k in Kids(fs, names[p]) && j != k
    ensures Live(fs, j) && Live(fs, k) && fs[j].value.name != fs[k].value.name
  {
    assert NamedUnder(fs, names, p, j) && NamedUnder(fs, names, p, k);
  }

  /** A node is in at most one child list. */
  lemma OneOwner(fs: Disk, names: Names, i: nat, j: nat, k: nat)
    requires WellFormed(fs, names)
    requires k in Kids(fs, i) && k in Kids(fs, j)
    ensures i == j && Live(fs, k) && fs[k].value.parent == i
  {
    var p :| p in names && names[p] == i;
    var q :| q in names && names[q] == j;
    assert NamedUnder(fs, names, p, k) && NamedUnder(fs, names, q, k);
    var n := fs[k].value.name;
    assert p + [n] == q + [n];
    assert Init(p + [n]) == p && Init(q + [n]) == q;
    assert Hangs(fs, names, p + [n]);
  }

  // ------------------------------------------------------------ Adding a name

  lemma InodesPut(fs: Disk, node: Node)
    ensures Fresh(Inodes(fs)) == Fresh(fs)
    ensures Inodes(Put(fs, node)) == Put(Inodes(fs), Kind(node))
  {
    assert forall i | 0 <= i < |fs| :: Inodes(fs)[i].None? == fs[i].None?;
  }

  /** How the table changes when `slot` becomes a child of `parent`. */
  ghost predicate Grafted(fs: Disk, fs': Disk, parent: nat, slot: nat) {
    && slot != parent && IsDir(fs', parent)
    && Live(fs', slot) && !Live(fs, slot)
    && fs'[slot].value.parent == parent && fs'[slot].value.children == []
    && (forall i | i != slot :: IsDir(fs', i) == IsDir(fs, i))
    && (forall i | i != slot && i != parent :: Kids(fs', i) == Kids(fs, i))
    && Kids(fs', parent) == Kids(fs, parent) + [slot]
    && (forall i | Live(fs, i) :: Live(fs', i)
                                  && fs'[i].value.name == fs[i].value.name
                                  && fs'[i].value.parent == fs[i].value.parent)
    && (forall i | Live(fs', i) && i != slot :: Live(fs, i))
  }

  lemma GraftHangs(fs: Disk, fs': Disk, names: Names, p: Path, slot: nat, q: Path)
    requires WellFormed(fs, names) && p != [] && p !in names && Init(p) in names
    requires Grafted(fs, fs', names[Init(p)], slot) && fs'[slot].value.name == Last(p)
    requires q in names[p := slot] && q != []
    ensures Hangs(fs', names[p := slot], q)
  {
    if q != p {
      assert Hangs(fs, names, q);
    }
  }

  lemma KidNamed(fs: Disk, names: Names, q: Path, k: nat)
    requires WellFormed(fs, names) && q in names && k in Kids(fs, names[q])
    ensures NamedUnder(fs, names, q, k)
  {
  }

  lemma NameIsLive(fs: Disk, names: Names, q: Path)
    requires WellFormed(fs, names) && q in names
    ensures Live(fs, names[q])
    ensures forall r | r in names && names[r] == names[q] :: r == q
  {
  }

  lemma NamesDiffer(fs: Disk, names: Names)
    requires WellFormed(fs, names)
    ensures forall q, r | q in names && r in names && names[q] == names[r] :: q == r
  {
  }

  lemma GraftNamedUnder(fs: Disk, fs': Disk, names: Names, p: Path, slot: nat, q: Path, k: nat)
    requires WellFormed(fs, names) && p != [] && p !in names && Init(p) in names
    requires Grafted(fs, fs', names[Init(p)], slot) && fs'[slot].value.name == Last(p)
    requires q in names[p := slot] && k in Kids(fs', names[p := slot][q])
    ensures NamedUnder(fs', names[p := slot], q, k)
  {
    hide WellFormed;
    assert q != p;
    NameIsLive(fs, names, q);
    if k in Kids(fs, names[q]) {
      KidNamed(fs, names, q, k);
      GraftOldChild(fs, fs', names, p, slot, q, k);
    } else {
      assert names[q] == names[Init(p)] && k == slot && q == Init(p);
      GraftNewChild(fs', names, p, slot);
    }
  }

  lemma GraftNewChild(fs': Disk, names: Names, p: Path, slot: nat)
    requires p != [] && Live(fs', slot) && fs'[slot].value.name == Last(p)
    ensures NamedUnder(fs', names[p := slot], Init(p), slot)
  {
    assert Init(p) + [Last(p)] == p;
  }

  lemma GraftOldChild(fs: Disk, fs': Disk, names: Names, p: Path, slot: nat, q: Path, k: nat)
    requires p !in names && Live(fs, k) && k != slot && NamedUnder(fs, names, q, k)
    requires Live(fs', k) && fs'[k].value.name == fs[k].value.name
    ensures NamedUnder(fs', names[p := slot], q, k)
  {
  }

  lemma GraftNamed(fs: Disk, fs': Disk, names: Names, p: Path, slot: nat, i: int)
    requires WellFormed(fs, names) && p !in names && Init(p) in names
    requires Grafted(fs, fs', names[Init(p)], slot)
    requires i == slot || Named(names, i)
    ensures Named(names[p := slot], i)
  {
    if i == slot {
      assert names[p := slot][p] == i;
    } else {
      var q :| q in names && names[q] == i;
      assert names[p := slot][q] == i;
    }
  }

  lemma NoDuplicatesAppend(kids: seq<nat>, k: nat)
    requires NoDuplicates(kids) && k !in kids
    ensures NoDuplicates(kids + [k])
  {
  }

  lemma GraftOnce(fs: Disk, fs': Disk, names: Names, parent: Path, slot: nat, i: int)
    requires WellFormed(fs, names) && parent in names
    requires Grafted(fs, fs', names[parent], slot)
    requires Live(fs', i)
    ensures NoDuplicates(Kids(fs', i)) && (Kids(fs', i) != [] ==> IsDir(fs', i))
  {
    forall k | k in Kids(fs, names[parent])
      ensures k != slot
    {
      assert NamedUnder(fs, names, parent, k);
    }
    if i == names[parent] {
      NoDuplicatesAppend(Kids(fs, i), slot);
    } else if i != slot {
      assert Live(fs, i);
    }
  }

  lemma GraftLive(fs: Disk, fs': Disk, names: Names, p: Path, slot: nat)
    requires WellFormed(fs, names) && p != [] && p !in names && IsCanonical(p) && Init(p) in names
    requires Grafted(fs, fs', names[Init(p)], slot)
    ensures var names' := names[p := slot];
            && (forall q | q in names' :: IsCanonical(q) && Live(fs', names'[q]))
            && (forall q, r | q in names' && r in names' && names'[q] == names'[r] :: q == r)
            && [] in names' && names'[[]] == 0 && IsDir(fs', 0)
  {
    assert forall q | q in names :: names[q] != slot;
  }

  lemma GraftKeepsTree(fs: Disk, fs': Disk, names: Names, p: Path, slot: nat)
    requires WellFormed(fs, names) && p != [] && p !in names && IsCanonical(p) && Init(p) in names
    requires Grafted(fs, fs', names[Init(p)], slot) && fs'[slot].value.name == Last(p)
    ensures WellFormed(fs', names[p := slot])
  {
    hide WellFormed, Hangs, NamedUnder, Named, Grafted, NoDuplicates, IsCanonical;
    var names' := names[p := slot];
    GraftLive(fs, fs', names, p, slot);
    forall q | q in names' && q != []
      ensures Hangs(fs', names', q)
    {
      GraftHangs(fs, fs', names, p, slot, q);
    }
    forall q, k | q in names' && k in Kids(fs', names'[q])
      ensures NamedUnder(fs', names', q, k)
    {
      GraftNamedUnder(fs, fs', names, p, slot, q, k);
    }
    forall i | IsDir(fs', i)
      ensures Named(names', i)
    {
      GraftDirNamed(fs, fs', names, p, slot, i);
    }
    forall i | Live(fs', i)
      ensures NoDuplicates(Kids(fs', i)) && (Kids(fs', i) != [] ==> IsDir(fs', i))
    {
      GraftOnce(fs, fs', names, Init(p), slot, i);
    }
    TreeStands(fs', names');
  }

  lemma GraftDirNamed(fs: Disk, fs': Disk, names: Names, p: Path, slot: nat, i: int)
    requires WellFormed(fs, names) && p !in names && Init(p) in names
    requires Grafted(fs, fs', names[Init(p)], slot) && IsDir(fs', i)
    ensures Named(names[p := slot], i)
  {
    hide Hangs, NamedUnder, Named;
    GraftNamed(fs, fs', names, p, slot, i);
  }

  lemma TreeStands(fs: Disk, names: Names)
    requires [] in names && names[[]] == 0 && IsDir(fs, 0)
    requires forall p | p in names :: IsCanonical(p) && Live(fs, names[p])
    requires forall p {:trigger Hangs(fs, names, p)} | p in names && p != [] :: Hangs(fs, names, p)
    requires forall p, q | p in names && q in names && names[p] == names[q] :: p == q
    requires forall p, k {:trigger NamedUnder(fs, names, p, k)} | p in names && k in Kids(fs, names[p]) ::
               NamedUnder(fs, names, p, k)
    requires forall i | IsDir(fs, i) :: Named(names, i)
    requires forall i | Live(fs, i) :: NoDuplicates(Kids(fs, i)) && (Kids(fs, i) != [] ==> IsDir(fs, i))
    ensures WellFormed(fs, names)
  {
    hide Hangs, NamedUnder, Named, NoDuplicates, IsCanonical;
  }

  lemma GraftKeepsCounts(fs: Disk, fs': Disk, names: Names, refs: multiset<nat>, p: Path, slot: nat)
    requires Inv(fs, names, refs) && p !in names && Init(p) in names
    requires Grafted(fs, fs', names[Init(p)], slot) && WellFormed(fs', names[p := slot])
    requires forall i | Live(fs, i) :: fs'[i].value.useCount == fs[i].value.useCount
    requires !IsDir(fs', slot) ==> fs'[slot].value.useCount == 1
    ensures Inv(fs', names[p := slot], refs)
  {
    var names' := names[p := slot];
    assert names'[p] == slot;
    forall i: nat | Live(fs', i) && !IsDir(fs', i)
      ensures Counted(fs', names', refs, i)
    {
      if i != slot {
        assert Counted(fs, names, refs, i);
        if Named(names, i) {
          var q :| q in names && names[q] == i;
          assert names'[q] == i;
        }
      }
    }
  }

  lemma NamesAreLive(fs: Disk, names: Names, refs: multiset<nat>)
    requires Inv(fs, names, refs)
    ensures IsDir(fs, 0)
    ensures forall p | p in names :: Live(fs, names[p])
  {
  }

  lemma CreatAtRefines(fs: Disk, names: Names, refs: multiset<nat>, p: Path)
    requires Inv(fs, names, refs) && IsCanonical(p)
    ensures var (fs', r) := CreatAt(fs, LookUp(names, Init(p)), LookUp(names, p), Last(p));
            var (f', r') := FlatFs.Creat(View(fs, names), p);
            r == r' && Inv(fs', f'.names, refs) && View(fs', f'.names) == f'
  {
    hide Inv;
    NamesAreLive(fs, names, refs);
    if p !in names && Init(p) in names && IsDir(fs, names[Init(p)]) {
      var node := NewNode(Last(p), names[Init(p)], false);
      AddNamedRefines(fs, names, refs, p, node);
      assert CreatAt(fs, LookUp(names, Init(p)), LookUp(names, p), Last(p))
          == (AddChild(Put(fs, node), node.parent, Fresh(fs)), Ok(Fresh(fs)));
      InodesPut(fs, node);
      assert FlatFs.Creat(View(fs, names), p) == (Bind(View(fs, names), p, Kind(node)), Ok(Fresh(fs)));
    } else {
      assert CreatAt(fs, LookUp(names, Init(p)), LookUp(names, p), Last(p)).0 == fs;
    }
  }

  lemma MkdirAtRefines(fs: Disk, names: Names, refs: multiset<nat>, p: Path)
    requires Inv(fs, names, refs) && IsCanonical(p)
    ensures var (fs', r) := MkdirAt(fs, LookUp(names, Init(p)), LookUp(names, p), Last(p));
            var (f', r') := FlatFs.Mkdir(View(fs, names), p);
            r == r' && Inv(fs', f'.names, refs) && View(fs', f'.names) == f'
  {
    hide Inv;
    if p !in names && Init(p) in names && IsDir(fs, names[Init(p)]) {
      var node := NewNode(Last(p), names[Init(p)], true);
      AddNamedRefines(fs, names, refs, p, node);
      assert MkdirAt(fs, LookUp(names, Init(p)), LookUp(names, p), Last(p))
          == (AddChild(Put(fs, node), node.parent, Fresh(fs)), Ok(Fresh(fs)));
      InodesPut(fs, node);
      assert FlatFs.Mkdir(View(fs, names), p) == (Bind(View(fs, names), p, Kind(node)), Ok(Fresh(fs)));
    } else {
      assert MkdirAt(fs, LookUp(names, Init(p)), LookUp(names, p), Last(p)).0 == fs;
    }
  }

  lemma CreatRefines(fs: Disk, names: Names, refs: multiset<nat>, path: string)
    requires path != "" && Inv(fs, names, refs)
    ensures var (fs', r) := Tree.Creat(fs, path);
            var (f', r') := FlatFs.Creat(View(fs, names), Canon(path));
            r == r' && Inv(fs', f'.names, refs) && View(fs', f'.names) == f'
  {
    GetSlotIsLookup(fs, names, path);
    CanonIsCanonical(path);
    CreatAtRefines(fs, names, refs, Canon(path));
  }

  lemma MkdirRefines(fs: Disk, names: Names, refs: multiset<nat>, path: string)
    requires path != "" && Inv(fs, names, refs)
    ensures var (fs', r) := Tree.Mkdir(fs, path);
            var (f', r') := FlatFs.Mkdir(View(fs, names), Canon(path));
            r == r' && Inv(fs', f'.names, refs) && View(fs', f'.names) == f'
  {
    GetSlotIsLookup(fs, names, path);
    CanonIsCanonical(path);
    MkdirAtRefines(fs, names, refs, Canon(path));
  }

  lemma AddNamedRefines(fs: Disk, names: Names, refs: multiset<nat>, p: Path, node: Node)
    requires Inv(fs, names, refs)
    requires p !in names && IsCanonical(p)
    requires Init(p) in names && IsDir(fs, names[Init(p)])
    requires node.name == Last(p) && node.parent == names[Init(p)] && node.children == []
    requires !node.isDir ==> node.useCount == 1
    ensures var fs' := AddChild(Put(fs, node), node.parent, Fresh(fs));
            var f' := Bind(View(fs, names), p, Kind(node));
            Inv(fs', f'.names, refs) && View(fs', f'.names) == f'
  {
    var slot := Fresh(fs);
    var fs' := AddChild(Put(fs, node), node.parent, slot);
    assert p != [];
    InodesPut(fs, node);
    PutGrafts(fs, node);
    GraftKeepsTree(fs, fs', names, p, slot);
    GraftKeepsCounts(fs, fs', names, refs, p, slot);
  }

  lemma PutGrafts(fs: Disk, node: Node)
    requires IsDir(fs, node.parent) && node.children == []
    ensures var fs' := AddChild(Put(fs, node), node.parent, Fresh(fs));
            && Grafted(fs, fs', node.parent, Fresh(fs))
            && fs'[Fresh(fs)] == Some(node)
            && Inodes(fs') == Inodes(Put(fs, node))
            && forall i | Live(fs, i) :: fs'[i].value.useCount == fs[i].value.useCount
  {
    var slot, mid := Fresh(fs), Put(fs, node);
    var fs' := AddChild(mid, node.parent, slot);
    assert mid[node.parent] == fs[node.parent];
    var parent' := fs[node.parent].value.(children := fs[node.parent].value.children + [slot]);
    assert fs' == mid[node.parent := Some(parent')];
    forall i
      ensures Kids(fs', i) == if i == slot then [] else if i == node.parent then Kids(fs, i) + [slot] else Kids(fs, i)
    {
    }
  }

  /** The outcomes of `Creat`, in the order in which the code finds them. */
  lemma CreatOutcome(fs: Disk, names: Names, refs: multiset<nat>, path: string)
    requires path != "" && Inv(fs, names, refs)
    ensures var (fs', r) := Tree.Creat(fs, path);
            var names' := FlatFs.Creat(View(fs, names), Canon(path)).0.names;
            && Inv(fs', names', refs)
            && match GetParentSlot(fs, path)
               case None => fs' == fs && r == Fail(ENOTDIR) && names' == names
               case Some(dir) =>
                 if !IsDir(fs, dir) then fs' == fs && r == Fail(ENOTDIR) && names' == names
                 else if GetSlot(fs, path).Some? then fs' == fs && r == Fail(EEXIST) && names' == names
                 else Canon(path) != [] && r == Ok(Fresh(fs))
                      && fs' == AddChild(Put(fs, NewNode(Last(Canon(path)), dir, false)), dir, Fresh(fs))
  {
    SlotsFound(fs, names, refs, path);
    CreatRefines(fs, names, refs, path);
  }

  lemma MkdirOutcome(fs: Disk, names: Names, refs: multiset<nat>, path: string)
    requires path != "" && Inv(fs, names, refs)
    ensures var (fs', r) := Tree.Mkdir(fs, path);
            var names' := FlatFs.Mkdir(View(fs, names), Canon(path)).0.names;
            && Inv(fs', names', refs)
            && if GetSlot(fs, path).Some? then fs' == fs && r == Fail(EEXIST) && names' == names
               else
                 match GetParentSlot(fs, path)
                 case None => fs' == fs && r == Fail(ENOENT) && names' == names
                 case Some(dir) =>
                   if !IsDir(fs, dir) then fs' == fs && r == Fail(ENOTDIR) && names' == names
                   else Canon(path) != [] && r == Ok(Fresh(fs))
                        && fs' == AddChild(Put(fs, NewNode(Last(Canon(path)), dir, true)), dir, Fresh(fs))
  {
    SlotsFound(fs, names, refs, path);
    MkdirRefines(fs, names, refs, path);
  }

  // ------------------------------------------------------------ Removing a name

  lemma {:induction false} WithoutRemoves(kids: seq<nat>, k: nat)
    ensures forall x :: x in Without(kids, k) <==> x in kids && x != k
    ensures NoDuplicates(kids) ==> NoDuplicates(Without(kids, k))
  {
    if kids != [] {
      WithoutRemoves(kids[1..], k);
      var rest := Without(kids[1..], k);
      assert kids == [kids[0]] + kids[1..];
      if NoDuplicates(kids) {
        assert forall i, j | 0 <= i < j < |kids[1..]| :: kids[1..][i] == kids[i + 1] && kids[1..][j] == kids[j + 1];
        assert kids[0] !in kids[1..];
        assert kids[0] !in rest;
      }
    }
  }

  /** The other children keep their order. */
  lemma {:induction false} WithoutKeepsOrder(a: seq<nat>, b: seq<nat>, k: nat)
    ensures Without(a + b, k) == Without(a, k) + Without(b, k)
    ensures k !in a ==> Without(a, k) == a
    decreases |a|
  {
    if a == [] {
      assert a + b == b;
    } else {
      assert (a + b)[1..] == a[1..] + b;
      WithoutKeepsOrder(a[1..], b, k);
      assert a == [a[0]] + a[1..];
    }
  }

  /** How the table changes when the childless `slot` leaves the child list of `parent`. */
  ghost predicate Pruned(fs: Disk, fs': Disk, parent: nat, slot: nat) {
    && slot != parent && IsDir(fs, parent)
    && !IsDir(fs', slot) && Kids(fs, slot) == Kids(fs', slot) == []
    && (forall i | i != slot :: IsDir(fs', i) == IsDir(fs, i))
    && (forall i | i != slot && i != parent :: Kids(fs', i) == Kids(fs, i))
    && Kids(fs', parent) == Without(Kids(fs, parent), slot)
    && (forall i | Live(fs, i) && i != slot :: Live(fs', i)
                                               && fs'[i].value.name == fs[i].value.name
                                               && fs'[i].value.parent == fs[i].value.parent)
    && (forall i | Live(fs', i) :: Live(fs, i))
  }

  lemma PruneHangs(fs: Disk, fs': Disk, names: Names, p: Path, q: Path)
    requires WellFormed(fs, names) && p in names && p != [] && Hangs(fs, names, p)
    requires Pruned(fs, fs', names[Init(p)], names[p])
    requires q in names - {p} && q != []
    ensures Hangs(fs', names - {p}, q)
  {
    assert Hangs(fs, names, q);
    WithoutRemoves(Kids(fs, names[Init(p)]), names[p]);
  }

  lemma PruneNamedUnder(fs: Disk, fs': Disk, names: Names, p: Path, q: Path, k: nat)
    requires WellFormed(fs, names) && p in names && p != [] && Hangs(fs, names, p)
    requires Pruned(fs, fs', names[Init(p)], names[p])
    requires q in names - {p} && k in Kids(fs', names[q])
    ensures NamedUnder(fs', names - {p}, q, k)
  {
    hide WellFormed, Without;
    NameIsLive(fs, names, p);
    assert names[q] != names[p];
    KidsAfterPruning(fs, fs', names[Init(p)], names[p], names[q], k);
    KidNamed(fs, names, q, k);
    var path := q + [fs[k].value.name];
    assert Init(path) == q && names[path] == k;
  }

  lemma KidsAfterPruning(fs: Disk, fs': Disk, parent: nat, slot: nat, i: nat, k: nat)
    requires Pruned(fs, fs', parent, slot) && i != slot && k in Kids(fs', i)
    ensures k in Kids(fs, i) && (i == parent ==> k != slot)
  {
    WithoutRemoves(Kids(fs, parent), slot);
  }

  lemma PruneNamed(names: Names, p: Path, i: int)
    requires p in names && (forall q, r | q in names && r in names && names[q] == names[r] :: q == r)
    ensures Named(names - {p}, i) <==> Named(names, i) && i != names[p]
  {
    var names' := names - {p};
    if Named(names, i) && i != names[p] {
      var q :| q in names && names[q] == i;
      assert q in names' && names'[q] == i;
    }
    if Named(names', i) {
      var q :| q in names' && names'[q] == i;
      assert names[q] == i;
    }
  }

  lemma PruneLive(fs: Disk, fs': Disk, names: Names, p: Path)
    requires WellFormed(fs, names) && p in names && p != []
    requires Init(p) in names && Pruned(fs, fs', names[Init(p)], names[p])
    ensures var names' := names - {p};
            && (forall q | q in names' :: IsCanonical(q) && Live(fs', names'[q]))
            && (forall q, r | q in names' && r in names' && names'[q] == names'[r] :: q == r)
            && [] in names' && names'[[]] == 0 && IsDir(fs', 0)
  {
    hide Hangs, NamedUnder, Without;
  }

  lemma PruneOnce(fs: Disk, fs': Disk, names: Names, parent: nat, slot: nat, i: int)
    requires WellFormed(fs, names) && Pruned(fs, fs', parent, slot) && Live(fs', i)
    ensures NoDuplicates(Kids(fs', i)) && (Kids(fs', i) != [] ==> IsDir(fs', i))
  {
    hide Hangs, NamedUnder, Without;
    WithoutRemoves(Kids(fs, parent), slot);
  }

  lemma PruneDirNamed(fs: Disk, fs': Disk, names: Names, p: Path, i: int)
    requires WellFormed(fs, names) && p in names
    requires Init(p) in names && Pruned(fs, fs', names[Init(p)], names[p]) && IsDir(fs', i)
    ensures Named(names - {p}, i)
  {
    hide Hangs, NamedUnder, Without, Named;
    PruneNamed(names, p, i);
  }

  lemma PruneKeepsTree(fs: Disk, fs': Disk, names: Names, p: Path)
    requires WellFormed(fs, names) && p in names && p != [] && Hangs(fs, names, p)
    requires Pruned(fs, fs', names[Init(p)], names[p])
    ensures WellFormed(fs', names - {p})
  {
    hide WellFormed, NamedUnder, Named, Pruned, NoDuplicates, IsCanonical;
    var names' := names - {p};
    PruneLive(fs, fs', names, p);
    forall q | q in names' && q != []
      ensures Hangs(fs', names', q)
    {
      PruneHangs(fs, fs', names, p, q);
    }
    forall q, k | q in names' && k in Kids(fs', names'[q])
      ensures NamedUnder(fs', names', q, k)
    {
      PruneNamedUnder(fs, fs', names, p, q, k);
    }
    forall i | IsDir(fs', i)
      ensures Named(names', i)
    {
      PruneDirNamed(fs, fs', names, p, i);
    }
    forall i | Live(fs', i)
      ensures NoDuplicates(Kids(fs', i)) && (Kids(fs', i) != [] ==> IsDir(fs', i))
    {
      PruneOnce(fs, fs', names, names[Init(p)], names[p], i);
    }
    TreeStands(fs', names');
  }

  lemma RemoveChildPrunes(fs: Disk, parent: nat, slot: nat, drop: bool)
    requires IsDir(fs, parent) && Live(fs, slot) && parent != slot && Kids(fs, slot) == []
    requires drop || !IsDir(fs, slot)
    ensures var mid := RemoveChild(fs, parent, slot);
            && Pruned(fs, if drop then Drop(mid, slot) else mid, parent, slot)
            && |mid| == |fs| && Inodes(mid) == Inodes(fs)
            && forall i | Live(fs, i) :: Live(mid, i) && mid[i].value.useCount == fs[i].value.useCount
  {
    var mid := RemoveChild(fs, parent, slot);
    var fs' := if drop then Drop(mid, slot) else mid;
    var parent' := fs[parent].value.(children := Without(fs[parent].value.children, slot));
    assert mid == fs[parent := Some(parent')];
    forall i
      ensures Kids(fs', i) == if i == slot then [] else if i == parent then Without(Kids(fs, i), slot) else Kids(fs, i)
    {
    }
  }

  /** Nothing that lookups see has changed. */
  ghost predicate SameShape(fs: Disk, fs': Disk) {
    && |fs| == |fs'|
    && (forall i | 0 <= i < |fs| :: fs'[i].Some? == fs[i].Some?)
    && (forall i | Live(fs, i) :: var a, b := fs[i].value, fs'[i].value;
                                  a.name == b.name && a.parent == b.parent && a.isDir == b.isDir
                                  && a.children == b.children)
  }

  lemma SameShapeKeepsTree(fs: Disk, fs': Disk, names: Names)
    requires WellFormed(fs, names) && SameShape(fs, fs')
    ensures WellFormed(fs', names)
  {
    assert forall i :: Live(fs', i) == Live(fs, i) && IsDir(fs', i) == IsDir(fs, i) && Kids(fs', i) == Kids(fs, i);
    assert forall p | p in names && p != [] :: Hangs(fs, names, p) ==> Hangs(fs', names, p);
    assert forall p, k | p in names && k in Kids(fs, names[p]) ::
        NamedUnder(fs, names, p, k) ==> NamedUnder(fs', names, p, k);
  }

  lemma DropUnnamedKeepsTree(fs: Disk, names: Names, slot: nat)
    requires WellFormed(fs, names) && Live(fs, slot) && !IsDir(fs, slot) && !Named(names, slot)
    ensures WellFormed(Drop(fs, slot), names)
  {
    var fs' := Drop(fs, slot);
    assert Kids(fs, slot) == [];
    assert forall i :: Kids(fs', i) == Kids(fs, i) && IsDir(fs', i) == IsDir(fs, i);
    assert forall i | i != slot :: Live(fs', i) == Live(fs, i);
    forall p | p in names && p != []
      ensures Hangs(fs', names, p)
    {
      assert Hangs(fs, names, p);
    }
    forall p, k | p in names && k in Kids(fs', names[p])
      ensures NamedUnder(fs', names, p, k)
    {
      assert NamedUnder(fs, names, p, k);
    }
  }

  // ------------------------------------------------------------ Use counts

  lemma RefKeepsInv(fs: Disk, names: Names, refs: multiset<nat>, slot: nat)
    requires Inv(fs, names, refs) && Live(fs, slot)
    ensures Inv(Ref(fs, slot), names, refs + multiset{slot})
    ensures Inodes(Ref(fs, slot)) == Inodes(fs)
  {
    hide WellFormed, Named;
    var fs' := Ref(fs, slot);
    SameShapeKeepsTree(fs, fs', names);
    forall i: nat | Live(fs', i) && !IsDir(fs', i)
      ensures Counted(fs', names, refs + multiset{slot}, i)
    {
      assert Counted(fs, names, refs, i);
    }
  }

  /**
    Giving back a held reference frees a file exactly when it has no name and no
    other holder. A reference that nobody holds may only be given back for what
    does not count references.
   */
  lemma UnrefRefines(fs: Disk, names: Names, refs: multiset<nat>, slot: nat)
    requires Inv(fs, names, refs)
    ensures var fs', rest := Unref(fs, slot), refs - multiset{slot};
            && (Inv(fs', names, rest) <==> slot in refs || !Live(fs, slot) || IsDir(fs, slot))
            && (Inv(fs', names, rest) ==> View(fs', names) == Release(View(fs, names), slot, slot in rest))
  {
    var fs', rest := Unref(fs, slot), refs - multiset{slot};
    if !Live(fs, slot) || IsDir(fs, slot) {
      forall i: nat | Live(fs', i) && !IsDir(fs', i)
        ensures Counted(fs', names, rest, i)
      {
        assert Counted(fs, names, refs, i);
      }
    } else if slot in refs {
      UnrefFile(fs, names, refs, slot);
    } else {
      assert Counted(fs, names, refs, slot);
      var p :| p in names && names[p] == slot;
      assert !Live(fs', names[p]);
    }
  }

  lemma UnrefFile(fs: Disk, names: Names, refs: multiset<nat>, slot: nat)
    requires Inv(fs, names, refs) && slot in refs && !IsDir(fs, slot)
    ensures var fs', rest := Unref(fs, slot), refs - multiset{slot};
            && Inv(fs', names, rest)
            && Inodes(fs') == if Named(names, slot) || slot in rest then Inodes(fs) else Drop(Inodes(fs), slot)
  {
    hide WellFormed, Named;
    var fs', rest := Unref(fs, slot), refs - multiset{slot};
    assert Counted(fs, names, refs, slot);
    if Named(names, slot) || slot in rest {
      SameShapeKeepsTree(fs, fs', names);
      assert Inodes(fs') == Inodes(fs);
    } else {
      DropUnnamedKeepsTree(fs, names, slot);
      assert fs' == Drop(fs, slot);
      assert Inodes(fs') == Drop(Inodes(fs), slot);
    }
    UnrefKeepsCounts(fs, names, refs, slot);
  }

  lemma UnrefKeepsCounts(fs: Disk, names: Names, refs: multiset<nat>, slot: nat)
    requires Inv(fs, names, refs) && slot in refs && !IsDir(fs, slot)
    ensures var fs', rest := Unref(fs, slot), refs - multiset{slot};
            && (forall i | i in rest :: Live(fs', i))
            && (forall i: nat | Live(fs', i) && !IsDir(fs', i) :: Counted(fs', names, rest, i))
  {
    hide WellFormed, Named;
    var fs', rest := Unref(fs, slot), refs - multiset{slot};
    assert Counted(fs, names, refs, slot);
    forall i: nat | Live(fs', i) && !IsDir(fs', i)
      ensures Counted(fs', names, rest, i)
    {
      assert Counted(fs, names, refs, i);
    }
  }

  lemma RootNamed(fs: Disk, names: Names)
    requires WellFormed(fs, names)
    ensures [] in names && names[[]] == 0 && IsDir(fs, 0)
  {
  }

  lemma NameHangs(fs: Disk, names: Names, p: Path)
    requires WellFormed(fs, names) && p in names && p != []
    ensures Hangs(fs, names, p)
  {
  }

  lemma UnlinkAtRefines(fs: Disk, names: Names, refs: multiset<nat>, p: Path)
    requires Inv(fs, names, refs)
    ensures var (fs', r) := UnlinkAt(fs, LookUp(names, p), LookUp(names, Init(p)));
            var (f', r') := FlatFs.Unlink(View(fs, names), p, p in names && names[p] in refs);
            r == r' && Inv(fs', f'.names, refs) && View(fs', f'.names) == f'
  {
    hide WellFormed, Release;
    RootNamed(fs, names);
    if p in names && p != [] {
      NameHangs(fs, names, p);
      if !IsDir(fs, names[p]) {
        UnlinkFile(fs, names, refs, p);
      }
    }
  }

  lemma UnlinkRefines(fs: Disk, names: Names, refs: multiset<nat>, path: string)
    requires Inv(fs, names, refs)
    ensures path == "" ==> Tree.Unlink(fs, path) == (fs, Fail(ENOENT))
    ensures path != "" ==>
              var (fs', r) := Tree.Unlink(fs, path);
              var p := Canon(path);
              var (f', r') := FlatFs.Unlink(View(fs, names), p, p in names && names[p] in refs);
              r == r' && Inv(fs', f'.names, refs) && View(fs', f'.names) == f'
  {
    if path != "" {
      GetSlotIsLookup(fs, names, path);
      UnlinkAtRefines(fs, names, refs, Canon(path));
    }
  }

  lemma UnlinkFile(fs: Disk, names: Names, refs: multiset<nat>, p: Path)
    requires Inv(fs, names, refs) && p in names && !IsDir(fs, names[p]) && p != [] && Hangs(fs, names, p)
    ensures var fs' := Unref(RemoveChild(fs, names[Init(p)], names[p]), names[p]);
            var f' := Release(Flat(names - {p}, Inodes(fs)), names[p], names[p] in refs);
            Inv(fs', names - {p}, refs) && View(fs', names - {p}) == f'
  {
    var slot, mid := names[p], RemoveChild(fs, names[Init(p)], names[p]);
    DetachKeepsInv(fs, names, refs, p);
    UnrefRefines(mid, names - {p}, refs + multiset{slot}, slot);
    assert refs + multiset{slot} - multiset{slot} == refs;
  }

  /** Between leaving the child list and giving up the link, the link counts like a handle. */
  lemma DetachKeepsInv(fs: Disk, names: Names, refs: multiset<nat>, p: Path)
    requires Inv(fs, names, refs) && p in names && !IsDir(fs, names[p]) && p != [] && Hangs(fs, names, p)
    ensures var mid := RemoveChild(fs, names[Init(p)], names[p]);
            Inv(mid, names - {p}, refs + multiset{names[p]}) && Inodes(mid) == Inodes(fs)
  {
    var slot, parent := names[p], names[Init(p)];
    RemoveChildPrunes(fs, parent, slot, false);
    var mid := RemoveChild(fs, parent, slot);
    PruneKeepsTree(fs, mid, names, p);
    UncountName(fs, mid, names, refs, p);
  }

  /** The outcomes of `Unlink`; between its two steps the invariant holds with one more reference. */
  lemma UnlinkOutcome(fs: Disk, names: Names, refs: multiset<nat>, path: string)
    requires Inv(fs, names, refs)
    ensures var (fs', r) := Tree.Unlink(fs, path);
            match GetSlot(fs, path)
            case None => fs' == fs && r == Fail(ENOENT)
            case Some(slot) =>
              match GetParentSlot(fs, path)
              case None => fs' == fs && r == Fail(EBUSY)
              case Some(dir) =>
                if IsDir(fs, slot) then fs' == fs && r == Fail(EISDIR)
                else r == Ok(0) && IsDir(fs, dir)
                     && fs' == Unref(RemoveChild(fs, dir, slot), slot)
                     && Inv(RemoveChild(fs, dir, slot), names - {Canon(path)}, refs + multiset{slot})
  {
    if path != "" {
      SlotsFound(fs, names, refs, path);
    }
    var p := Canon(path);
    if path != "" && p in names && !IsDir(fs, names[p]) {
      DetachKeepsInv(fs, names, refs, p);
    }
  }

  /** A node that has lost its name still counts it, as if it were one more handle. */
  lemma UncountName(fs: Disk, mid: Disk, names: Names, refs: multiset<nat>, p: Path)
    requires Inv(fs, names, refs) && p in names && !IsDir(fs, names[p])
    requires WellFormed(mid, names - {p})
    requires forall i :: Live(mid, i) == Live(fs, i) && IsDir(mid, i) == IsDir(fs, i)
    requires forall i | Live(fs, i) :: mid[i].value.useCount == fs[i].value.useCount
    ensures Inv(mid, names - {p}, refs + multiset{names[p]})
  {
    forall i: nat | Live(mid, i) && !IsDir(mid, i)
      ensures Counted(mid, names - {p}, refs + multiset{names[p]}, i)
    {
      assert Counted(fs, names, refs, i);
      PruneNamed(names, p, i);
    }
  }

  // ------------------------------------------------------------ Directories

  lemma EmptyIffNoEntries(fs: Disk, names: Names, slot: nat)
    requires WellFormed(fs, names) && IsDir(fs, slot)
    ensures HasEntries(names, slot) <==> Kids(fs, slot) != []
  {
    if HasEntries(names, slot) {
      var p :| p in names && p != [] && Init(p) in names && names[Init(p)] == slot;
      assert Hangs(fs, names, p);
    }
    if Kids(fs, slot) != [] {
      var p :| p in names && names[p] == slot;
      var k := Kids(fs, slot)[0];
      assert k in Kids(fs, names[p]);
      assert NamedUnder(fs, names, p, k);
      var q := p + [fs[k].value.name];
      assert Init(q) == p && q in names;
    }
  }

  /** `Rmdir` answers as the reference does, and does as it does unless it removes the root or an open directory. */
  lemma RmdirRefines(fs: Disk, names: Names, refs: multiset<nat>, slot: nat)
    requires Inv(fs, names, refs)
    ensures var (fs', r) := Tree.Rmdir(fs, slot);
            var (f', r') := FlatFs.Rmdir(View(fs, names), slot);
            && r == r'
            && (Inv(fs', f'.names, refs) <==> (r.Ok? ==> slot != 0 && slot !in refs))
            && (Inv(fs', f'.names, refs) ==> View(fs', f'.names) == f')
  {
    if IsDir(fs, slot) {
      EmptyIffNoEntries(fs, names, slot);
    }
    if Tree.Rmdir(fs, slot).1.Ok? {
      if slot != 0 && slot !in refs {
        var p :| p in names && names[p] == slot;
        assert Hangs(fs, names, p);
        RmdirEmpty(fs, names, refs, p);
        OnlyNameRemoved(names, p);
        assert Tree.Rmdir(fs, slot) == (Drop(RemoveChild(fs, names[Init(p)], slot), slot), Ok(0));
        assert FlatFs.Rmdir(View(fs, names), slot) == (Flat(names - {p}, Drop(Inodes(fs), slot)), Ok(0));
      } else {
        assert !Live(Tree.Rmdir(fs, slot).0, slot);
      }
    }
  }

  lemma OnlyNameRemoved(names: Names, p: Path)
    requires p in names && (forall q, r | q in names && r in names && names[q] == names[r] :: q == r)
    ensures (map q | q in names && names[q] != names[p] :: names[q]) == names - {p}
  {
  }

  lemma RmdirEmpty(fs: Disk, names: Names, refs: multiset<nat>, p: Path)
    requires Inv(fs, names, refs) && p in names && p != [] && Hangs(fs, names, p)
    requires IsDir(fs, names[p]) && Kids(fs, names[p]) == [] && names[p] !in refs
    ensures var fs' := Drop(RemoveChild(fs, names[Init(p)], names[p]), names[p]);
            Inv(fs', names - {p}, refs) && Inodes(fs') == Drop(Inodes(fs), names[p])
  {
    hide WellFormed, Named;
    NameIsLive(fs, names, p);
    NamesDiffer(fs, names);
    var slot, parent := names[p], names[Init(p)];
    assert |Init(p)| < |p|;
    var fs' := Drop(RemoveChild(fs, parent, slot), slot);
    RemoveChildPrunes(fs, parent, slot, true);
    PruneKeepsTree(fs, fs', names, p);
    forall i: nat | Live(fs', i) && !IsDir(fs', i)
      ensures Counted(fs', names - {p}, refs, i)
    {
      assert Counted(fs, names, refs, i);
      PruneNamed(names, p, i);
    }
  }

  /**
    `Rmdir` asks neither whether the directory is the root nor whether it is
    open. When it succeeds, the state stays consistent exactly when the
    directory is not the root and no handle holds it.
   */
  lemma RmdirKeepsInvIff(fs: Disk, names: Names, refs: multiset<nat>, slot: nat)
    requires Inv(fs, names, refs) && Tree.Rmdir(fs, slot).1.Ok?
    ensures (exists names' :: Inv(Tree.Rmdir(fs, slot).0, names', refs)) <==> slot != 0 && slot !in refs
  {
    if slot != 0 && slot !in refs {
      RmdirRefines(fs, names, refs, slot);
    }
  }

  lemma EmptyDiskInv()
    ensures Inv(EMPTY_DISK, FlatFs.EMPTY.names, multiset{})
    ensures View(EMPTY_DISK, FlatFs.EMPTY.names) == FlatFs.EMPTY
  {
    var names := FlatFs.EMPTY.names;
    assert names[[]] == 0;
    assert forall i :: Kids(EMPTY_DISK, i) == [];
  }

  // ------------------------------------------------------------ Contents

  lemma WriteRefines(fs: Disk, names: Names, refs: multiset<nat>, slot: nat, offset: nat, bytes: Bytes)
    requires Inv(fs, names, refs) && Live(fs, slot) && Tree.InFile(fs, slot, offset)
    ensures Inv(Tree.Write(fs, slot, offset, bytes).0, names, refs)
    ensures !IsDir(fs, slot) ==>
              View(Tree.Write(fs, slot, offset, bytes).0, names) == FlatFs.Write(View(fs, names), slot, offset, bytes)
  {
    hide WellFormed, Named;
    var fs' := Tree.Write(fs, slot, offset, bytes).0;
    SameShapeKeepsTree(fs, fs', names);
    forall i: nat | Live(fs', i) && !IsDir(fs', i)
      ensures Counted(fs', names, refs, i)
    {
      assert Counted(fs, names, refs, i);
    }
  }
}
