/**
  The object that holds a path while it is being put together
  (base/PathHandle.h and base/PathHandle.cc). Each method is proved against the
  functions of module Paths.
 */
module PathHandles {
  import opened Paths

  /** The components of `ps`, each followed by a separator. */
  function Slashed(ps: Path): string {
    if ps == [] then "" else ps[0] + "/" + Slashed(ps[1..])
  }

  lemma {:induction false} SlashedIsJoin(ps: Path)
    requires ps != []
    ensures Slashed(ps) == Join(ps) + "/"
  {
    if |ps| > 1 {
      SlashedIsJoin(ps[1..]);
    }
  }

  class PathHandle {
    var path: Path
    var isAbsolute: bool

    /** Components come from splitting at separators, so none contains one. */
    ghost predicate Valid()
      reads this
    {
      AllComponents(path)
    }

    constructor (s: string)
      ensures Valid()
      ensures path == Canon(s) && isAbsolute == IsAbsolute(s)
    {
      path := [];
      isAbsolute := s != "" && s[0] == SEP;
      new;
      path := Split(s, SEP);
      SplitMakesComponents(s, 0);
      PathCollapse();
    }

    /** The assignment `ph = other`. */
    constructor Copy(other: PathHandle)
      requires other.Valid()
      ensures Valid()
      ensures path == other.path && isAbsolute == other.isAbsolute
    {
      path := other.path;
      isAbsolute := other.isAbsolute;
    }

    /** `std::string::find`, with -1 for `npos`. */
    static method Find(s: string, c: char, from: nat) returns (at: int)
      requires from <= |s|
      ensures at == if RunEnd(s, c, from) == |s| then -1 else RunEnd(s, c, from)
    {
      at := from;
      while at < |s| && s[at] != c
        invariant from <= at <= |s|
        invariant RunEnd(s, c, at) == RunEnd(s, c, from)
      {
        at := at + 1;
      }
      if at == |s| {
        at := -1;
      }
    }

    static method Split(s: string, c: char) returns (components: Path)
      ensures components == SplitFrom(s, c, 0)
    {
      components := [];
      var ind := 0;
      var next := 0;
      while next != -1
        invariant next != -1 ==> 0 <= ind <= |s|
        invariant components + (if next == -1 then [] else SplitFrom(s, c, ind)) == SplitFrom(s, c, 0)
        decreases next != -1, |s| - ind
      {
        next := Find(s, c, ind);
        if next == ind {
          ind := ind + 1;
          continue;
        }
        var part := if next == -1 then s[ind..] else s[ind..next];
        ghost var end := RunEnd(s, c, ind);
        if part != "" {
          assert s[ind..end] == part;
          assert components + SplitFrom(s, c, ind) == components + [part] + SplitFrom(s, c, end);
          components := components + [part];
        }
        ind := next + 1;
      }
    }

    static method MergePaths(path1: Path, path2: Path) returns (merged: Path)
      ensures merged == path1 + path2
    {
      merged := path1;
      for k := 0 to |path2|
        invariant merged == path1 + path2[..k]
      {
        merged := merged + [path2[k]];
      }
    }

    method PathCollapse()
      requires Valid()
      modifies `path
      ensures Valid()
      ensures path == Collapse(old(path))
    {
      var newPath := [];
      for k := 0 to |path|
        invariant CollapseOnto(newPath, path[k..]) == Collapse(path)
      {
        var curr := path[k];
        if (curr == "/" && k != 0) || curr == "." {
          continue;
        }
        if curr == ".." {
          if |newPath| > 0 {
            newPath := newPath[..|newPath| - 1];
          }
          continue;
        }
        newPath := newPath + [curr];
      }
      CollapseKeepsComponents([], path);
      path := newPath;
    }

    static method AppendSlash(p: string) returns (r: string)
      ensures r == if p == "" || p[|p| - 1] != SEP then p + "/" else p
    {
      r := p;
      if |p| == 0 || p[|p| - 1] != SEP {
        r := r + "/";
      }
    }

    method FormulateRawPath() returns (text: string)
      requires Valid()
      ensures text == Print(isAbsolute, path)
    {
      var start := if isAbsolute then "/" else "";
      text := start;
      for k := 0 to |path|
        invariant text + Slashed(path[k..]) == start + Slashed(path)
      {
        var part := AppendSlash(path[k]);
        text := text + part;
      }
      if path != [] {
        SlashedIsJoin(path);
        ComponentsOfJoin(path);
        assert text + "" == text;
        assert text == start + Join(path) + "/";
        assert text[..|text| - 1] == start + Join(path);
      }
      if |text| > 1 {
        text := text[..|text| - 1];
      }
    }

    method FormulatePath() returns (text: string)
      requires Valid()
      modifies `path
      ensures Valid()
      ensures path == Collapse(old(path))
      ensures text == Print(isAbsolute, path)
    {
      PathCollapse();
      text := FormulateRawPath();
    }

    method SetPath(s: string)
      modifies this
      ensures Valid()
      ensures path == Components(s) && isAbsolute == IsAbsolute(s)
    {
      path := [];
      isAbsolute := s != "" && s[0] == SEP;
      AppendPath(s);
    }

    method AppendPath(s: string)
      requires Valid()
      modifies `path
      ensures Valid()
      ensures path == old(path) + Components(s)
    {
      var parts := Split(s, SEP);
      SplitMakesComponents(s, 0);
      path := MergePaths(path, parts);
    }

    /** `std::list::back`, undefined on an empty list. */
    method Last() returns (name: string)
      requires path != []
      ensures name == path[|path| - 1]
    {
      name := path[|path| - 1];
    }
  }
}
