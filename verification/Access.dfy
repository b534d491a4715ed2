/** The `access` call of base/KernelProxy.cc, which asks `stat` about every prefix of the path. */
module Access {
  import opened Wrappers
  import opened Paths
  import opened FlatFs
  import opened Mounts
  import opened Worlds
  import opened Kernels
  import opened KernelProofs
  import TreeProofs

  const R_OK: bv16 := 4
  const W_OK: bv16 := 2
  const X_OK: bv16 := 1
  const S_IFDIR: bv16 := 0x4000
  const S_IFREG: bv16 := 0x8000

  /** Every node has permission bits 0777. */
  function ModeOf(isDir: bool): bv16 {
    (if isDir then S_IFDIR else S_IFREG) | 0x1FF
  }

  predicate Denied(mode: bv16, amode: bv16) {
    || (amode & R_OK != 0 && mode & R_OK == 0)
    || (amode & W_OK != 0 && mode & W_OK == 0)
    || (amode & X_OK != 0 && mode & X_OK == 0)
  }

  lemma NeverDenied(isDir: bool, amode: bv16)
    ensures !Denied(ModeOf(isDir), amode)
  {
    assert ModeOf(isDir) & R_OK != 0 && ModeOf(isDir) & W_OK != 0 && ModeOf(isDir) & X_OK != 0;
  }

  /** Checks `curr` and then every longer prefix made by adding components of `rest`. */
  function AccessFrom<M>(k: Kernel<M>, curr: string, rest: Path, amode: bv16): Reply
    decreases |rest|
  {
    match StatK(k, curr)
    case Info(_, isDir, _) =>
      if Denied(ModeOf(isDir), amode) then Error(Some(EACCES))
      else if rest == [] then Done(0)
      else AccessFrom(k, curr + "/" + rest[0], rest[1..], amode)
    case e => e
  }

  /** The components that `access` goes through; they are not collapsed. */
  function RawComponents(cwd: Path, path: string): Path {
    if IsAbsolute(path) then Components(path) else cwd + Components(path)
  }

  function AccessK<M>(k: Kernel<M>, path: string, amode: bv16): Reply {
    if path == "" then Error(Some(ENOENT)) else AccessFrom(k, "/", RawComponents(k.cwd, path), amode)
  }

  // ------------------------------------------------------------ The list of prefixes

  /** The paths that the code builds first: `curr`, and `curr` with ever more of the components added. */
  function IncrementalPaths(curr: string, rest: Path): (paths: seq<string>)
    ensures paths != []
    decreases |rest|
  {
    [curr] + if rest == [] then [] else IncrementalPaths(curr + "/" + rest[0], rest[1..])
  }

  lemma PathsFrom(curr: string, rest: Path)
    ensures IncrementalPaths(curr, rest)
         == [curr] + if rest == [] then [] else IncrementalPaths(curr + "/" + rest[0], rest[1..])
  {
  }

  function CheckAll<M>(k: Kernel<M>, paths: seq<string>, amode: bv16): Reply {
    if paths == [] then Done(0)
    else
      match StatK(k, paths[0])
      case Info(_, isDir, _) =>
        if Denied(ModeOf(isDir), amode) then Error(Some(EACCES)) else CheckAll(k, paths[1..], amode)
      case e => e
  }

  lemma {:induction false} CheckedAlongTheWay<M>(k: Kernel<M>, curr: string, rest: Path, amode: bv16)
    ensures CheckAll(k, IncrementalPaths(curr, rest), amode) == AccessFrom(k, curr, rest, amode)
    decreases |rest|
  {
    hide StatK, Denied, ModeOf, IncrementalPaths;
    PathsFrom(curr, rest);
    var paths := IncrementalPaths(curr, rest);
    if rest == [] {
      assert paths == [curr] && paths[1..] == [];
    } else {
      CheckedAlongTheWay(k, curr + "/" + rest[0], rest[1..], amode);
      assert paths[1..] == IncrementalPaths(curr + "/" + rest[0], rest[1..]);
    }
  }

  // ------------------------------------------------------------ Where the prefixes lead

  /** The mount at "/", if there is one. */
  function RootOf<M>(table: MountTable<M>): Option<M> {
    if "/" in table then table["/"] else None
  }

  /** A path that no key but "/" claims goes to the mount at "/" as a whole. */
  lemma RouteByRoot<M>(table: MountTable<M>, path: string)
    requires IsAbsolute(path) && LongestKey(table.Keys, path, |path|) <= 1
    ensures Route(table, path) == match RootOf(table) case None => None case Some(m) => Some((m, Canon(path)))
  {
    hide Canon;
    var n := LongestKey(table.Keys, path, |path|);
    assert path[..1] == "/";
    BelowRoot(path);
    if n == 0 {
      assert "/" !in table.Keys;
    }
  }

  lemma BelowRoot(path: string)
    requires IsAbsolute(path)
    ensures Canon(path) == Canon(if |path| == 1 then "/" else path[1..])
    ensures |path| == 1 ==> path == "/"
  {
    var empty, rest := "", path[1..];
    assert path == ['/'] + rest == empty + "/" + rest;
    ComponentsConcat(empty, rest);
    NoComponents();
    hide Collapse, Components;
    assert Components(path) == [] + Components(rest) == Components(rest);
    assert |path| == 1 ==> rest == empty && path == ['/'];
    assert Canon(path) == Canon(rest);
  }

  lemma NoComponents()
    ensures Components("") == []
  {
  }

  lemma RootRoute<M>(m: M, path: string)
    requires IsAbsolute(path)
    ensures Route(map["/" := Some(m)], path) == Some((m, Canon(path)))
  {
    RouteByRoot(map["/" := Some(m)], path);
  }

  predicate NoDoubleSlash(keys: set<string>) {
    forall key | key in keys :: !("//" <= key)
  }

  /** The paths that `access` asks about are "/" and paths with two slashes in front. */
  predicate Slashed(path: string) {
    path == "/" || "//" <= path
  }

  lemma SlashedKey(keys: set<string>, path: string)
    requires NoDoubleSlash(keys) && Slashed(path)
    ensures LongestKey(keys, path, |path|) <= 1
  {
    forall i | 2 <= i <= |path|
      ensures path[..i] !in keys
    {
      assert path[..i][..2] == path[..2] == "//";
    }
  }

  lemma StatByRoot<M>(k: Kernel<M>, w: World<M>, path: string)
    requires Sim(k, w) && IsAbsolute(path) && LongestKey(w.table.Keys, path, |path|) <= 1
    ensures match RootOf(w.table)
            case None => StatK(k, path) == Error(Some(ENOENT))
            case Some(m) =>
              && m in w.flats
              && (StatK(k, path).Info? <==> Canon(path) in w.flats[m].names)
              && (StatK(k, path).Info? || StatK(k, path) == Error(Some(ENOENT)))
  {
    RouteByRoot(w.table, path);
    StatSim(k, w, path);
    if RootOf(w.table).Some? {
      assert MountOk(k.disks, w.flats, w.opens, RootOf(w.table).value);
    }
  }

  lemma {:induction false} AccessChecksPrefixes<M>(k: Kernel<M>, w: World<M>, curr: string, rest: Path, amode: bv16)
    requires Sim(k, w) && NoDoubleSlash(w.table.Keys) && Slashed(curr)
    requires AllComponents(rest)
    ensures AccessFrom(k, curr, rest, amode) == Done(0) || AccessFrom(k, curr, rest, amode) == Error(Some(ENOENT))
    ensures match RootOf(w.table)
            case None => !AccessFrom(k, curr, rest, amode).Done?
            case Some(m) =>
              && m in w.flats
              && (AccessFrom(k, curr, rest, amode).Done?
                  <==> forall j | 0 <= j <= |rest| :: CollapseOnto(Canon(curr), rest[..j]) in w.flats[m].names)
    decreases |rest|
  {
    hide Sim, StatK, Denied;
    SlashedKey(w.table.Keys, curr);
    StatByRoot(k, w, curr);
    NeverDenied(true, amode);
    NeverDenied(false, amode);
    assert rest[..0] == [];
    if RootOf(w.table).Some? && rest != [] {
      var names, next := w.flats[RootOf(w.table).value].names, curr + "/" + rest[0];
      CanonConcat(curr, rest[0]);
      OneComponent(rest[0]);
      assert Canon(next) == CollapseOnto(Canon(curr), [rest[0]]);
      assert Canon(next) == Enter(Canon(curr), rest[0]);
      AccessChecksPrefixes(k, w, next, rest[1..], amode);
      if Canon(curr) in names {
        ShiftedPrefixes(names, Canon(curr), rest);
      }
    }
  }

  lemma OneComponent(c: string)
    requires IsComponent(c)
    ensures Components(c) == [c]
  {
    ParsePrint(false, [c]);
    assert Print(false, [c]) == c;
  }

  lemma ShiftedPrefixes(names: Names, done: Path, rest: Path)
    requires rest != [] && done in names
    ensures (forall j | 0 <= j <= |rest| :: CollapseOnto(done, rest[..j]) in names)
       <==> (forall j | 0 <= j <= |rest| - 1 :: CollapseOnto(Enter(done, rest[0]), rest[1..][..j]) in names)
  {
    forall j | 0 <= j <= |rest| - 1
      ensures CollapseOnto(done, rest[..j + 1]) == CollapseOnto(Enter(done, rest[0]), rest[1..][..j])
    {
      assert rest[..j + 1][1..] == rest[1..][..j];
    }
    if forall j | 0 <= j <= |rest| - 1 :: CollapseOnto(Enter(done, rest[0]), rest[1..][..j]) in names {
      forall j | 0 <= j <= |rest|
        ensures CollapseOnto(done, rest[..j]) in names
      {
        if j > 0 {
          var i := j - 1;
          assert CollapseOnto(Enter(done, rest[0]), rest[1..][..i]) in names;
          assert rest[..i + 1] == rest[..j];
        }
      }
    }
  }

  /**
    `access` succeeds exactly when every prefix of the uncollapsed path exists in
    the mount at "/", whatever the mode mask, and whatever other mounts there are.
   */
  lemma AccessIffPrefixesExist<M>(k: Kernel<M>, w: World<M>, path: string, amode: bv16)
    requires Sim(k, w) && NoDoubleSlash(w.table.Keys) && path != ""
    ensures AccessK(k, path, amode) == Done(0) || AccessK(k, path, amode) == Error(Some(ENOENT))
    ensures AccessK(k, "", amode) == Error(Some(ENOENT))
    ensures var raw := if path[0] == '/' then Components(path) else k.cwd + Components(path);
            match RootOf(w.table)
            case None => !AccessK(k, path, amode).Done?
            case Some(m) =>
              && m in w.flats
              && (AccessK(k, path, amode).Done?
                  <==> forall j | 0 <= j <= |raw| :: Collapse(raw[..j]) in w.flats[m].names)
  {
    SplitMakesComponents(path, 0);
    CanonOfPrint(true, []);
    assert Print(true, []) == "/";
    AccessChecksPrefixes(k, w, "/", RawComponents(k.cwd, path), amode);
  }

  /** For a canonical absolute path this means that the path itself exists in the mount at "/". */
  lemma AccessIffInRoot<M>(k: Kernel<M>, w: World<M>, ps: Path, amode: bv16)
    requires Sim(k, w) && NoDoubleSlash(w.table.Keys) && IsCanonical(ps)
    ensures match RootOf(w.table)
            case None => !AccessK(k, Print(true, ps), amode).Done?
            case Some(m) => m in w.flats && (AccessK(k, Print(true, ps), amode).Done? <==> ps in w.flats[m].names)
  {
    ParsePrint(true, ps);
    AccessIffPrefixesExist(k, w, Print(true, ps), amode);
    if RootOf(w.table).Some? {
      PrefixesExistIff(k, w, RootOf(w.table).value, ps);
    }
  }

  /** For a canonical relative path it means that the path exists below the working directory. */
  lemma AccessBelowCwd<M>(k: Kernel<M>, w: World<M>, ps: Path, amode: bv16)
    requires Sim(k, w) && NoDoubleSlash(w.table.Keys) && IsCanonical(ps) && ps != []
    ensures match RootOf(w.table)
            case None => !AccessK(k, Print(false, ps), amode).Done?
            case Some(m) =>
              m in w.flats && (AccessK(k, Print(false, ps), amode).Done? <==> k.cwd + ps in w.flats[m].names)
  {
    ParsePrint(false, ps);
    ComponentsOfJoin(ps);
    CwdIsCanonical(k, w);
    AccessIffPrefixesExist(k, w, Print(false, ps), amode);
    if RootOf(w.table).Some? {
      PrefixesExistIff(k, w, RootOf(w.table).value, k.cwd + ps);
    }
  }

  lemma PrefixesExistIff<M>(k: Kernel<M>, w: World<M>, m: M, ps: Path)
    requires Sim(k, w) && m in w.flats && IsCanonical(ps)
    ensures (forall j | 0 <= j <= |ps| :: Collapse(ps[..j]) in w.flats[m].names) <==> ps in w.flats[m].names
  {
    hide Sim, Collapse, IsCanonical;
    forall j | 0 <= j <= |ps|
      ensures Collapse(ps[..j]) == ps[..j]
      ensures ps in w.flats[m].names ==> ps[..j] in w.flats[m].names
    {
      PrefixExists(k, w, m, ps, j);
    }
    assert ps[..|ps|] == ps;
  }

  lemma CanonicalPrefix(ps: Path, j: nat)
    requires IsCanonical(ps) && j <= |ps|
    ensures Collapse(ps[..j]) == ps[..j] && ps[..j] + ps[j..] == ps
  {
    CanonicalIsFixed([], ps[..j]);
  }

  lemma NamesWellFormed<M>(k: Kernel<M>, w: World<M>, m: M)
    requires Sim(k, w) && m in w.flats
    ensures m in k.disks && Tree.WellFormed(k.disks[m], w.flats[m].names)
  {
    assert MountOk(k.disks, w.flats, w.opens, m);
  }

  lemma PrefixExists<M>(k: Kernel<M>, w: World<M>, m: M, ps: Path, j: nat)
    requires Sim(k, w) && m in w.flats && IsCanonical(ps) && j <= |ps|
    ensures Collapse(ps[..j]) == ps[..j]
    ensures ps in w.flats[m].names ==> ps[..j] in w.flats[m].names
  {
    hide Sim, IsCanonical;
    NamesWellFormed(k, w, m);
    CanonicalPrefix(ps, j);
    if ps in w.flats[m].names {
      TreeProofs.PrefixNamed(k.disks[m], w.flats[m].names, ps[..j], ps[j..]);
    }
  }

  /** `access` and `stat` agree on a canonical absolute path that no mount but the one at "/" claims. */
  lemma AccessIffStat<M>(k: Kernel<M>, w: World<M>, ps: Path, amode: bv16)
    requires Sim(k, w) && NoDoubleSlash(w.table.Keys) && IsCanonical(ps)
    requires LongestKey(w.table.Keys, Print(true, ps), |Print(true, ps)|) <= 1
    ensures AccessK(k, Print(true, ps), amode).Done? <==> StatK(k, Print(true, ps)).Info?
  {
    CanonOfPrint(true, ps);
    AccessIffInRoot(k, w, ps, amode);
    StatByRoot(k, w, Print(true, ps));
  }

  /** Other mounts are never asked: the key "/mnt" does not start "//mnt". */
  lemma AccessSkipsMounts<M>(k: Kernel<M>, w: World<M>, m: M, amode: bv16)
    requires Sim(k, w) && "/" in w.table && "/mnt" in w.table && w.table["/mnt"] == Some(m)
    requires NoDoubleSlash(w.table.Keys) && w.table["/"].Some?
    ensures StatK(k, "/mnt").Info?
    ensures w.table["/"].value in w.flats
    ensures AccessK(k, "/mnt", amode).Done? <==> ["mnt"] in w.flats[w.table["/"].value].names
  {
    var path, ps := "/mnt", ["mnt"];
    assert Print(true, ps) == path;
    AccessIffInRoot(k, w, ps, amode);
    assert IsLongest(w.table.Keys, path, path);
    RouteIsLongest(w.table, path, path);
    CanonOfPrint(true, []);
    assert Print(true, []) == "/";
    StatSim(k, w, path);
    assert MountOk(k.disks, w.flats, w.opens, m);
  }
}
