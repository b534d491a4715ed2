/**
  The meaning of path strings (base/PathHandle.cc), independent of any object:
  splitting at '/', collapsing "." and "..", and printing.
 */
module Paths {

  /** A path as a list of components. */
  type Path = seq<string>

  const SEP := '/'

  predicate IsComponent(c: string) {
    c != "" && SEP !in c
  }

  /** A component that names something, rather than steering the walk. */
  predicate IsName(c: string) {
    IsComponent(c) && c != "." && c != ".."
  }

  predicate AllComponents(ps: Path) {
    forall k | 0 <= k < |ps| :: IsComponent(ps[k])
  }

  predicate IsCanonical(ps: Path) {
    forall k | 0 <= k < |ps| :: IsName(ps[k])
  }

  predicate IsAbsolute(s: string) {
    s != "" && s[0] == SEP
  }

  function Init(ps: Path): Path {
    if ps == [] then [] else ps[..|ps| - 1]
  }

  // ---------------------------------------------------------------- Splitting

  /** The first position of `c` at or after `i`, or the end of `s`. */
  function RunEnd(s: string, c: char, i: nat): (j: nat)
    requires i <= |s|
    ensures i <= j <= |s|
    ensures forall k | i <= k < j :: s[k] != c
    ensures j < |s| ==> s[j] == c
    decreases |s| - i
  {
    if i == |s| || s[i] == c then i else RunEnd(s, c, i + 1)
  }

  lemma RunEndIs(s: string, c: char, i: nat, j: nat)
    requires i <= j <= |s|
    requires forall k | i <= k < j :: s[k] != c
    requires j < |s| ==> s[j] == c
    ensures RunEnd(s, c, i) == j
    decreases j - i
  {
    if i < j {
      RunEndIs(s, c, i + 1, j);
    }
  }

  /** The parts of `s[i..]` between separators, empty parts dropped. */
  function SplitFrom(s: string, c: char, i: nat): Path
    requires i <= |s|
    decreases |s| - i
  {
    if i == |s| then []
    else if s[i] == c then SplitFrom(s, c, i + 1)
    else
      var j := RunEnd(s, c, i);
      [s[i..j]] + SplitFrom(s, c, j)
  }

  function Components(s: string): Path {
    SplitFrom(s, SEP, 0)
  }

  /** `s[a..b]` is a non-empty run without `c` that cannot be made longer at either end. */
  predicate MaximalRun(s: string, c: char, a: nat, b: nat) {
    && a < b <= |s|
    && (forall k | a <= k < b :: s[k] != c)
    && (a == 0 || s[a - 1] == c)
    && (b == |s| || s[b] == c)
  }

  datatype Span = Span(lo: nat, hi: nat)

  function Slices(s: string, spans: seq<Span>): Path
    requires forall k | 0 <= k < |spans| :: spans[k].lo <= spans[k].hi <= |s|
  {
    seq(|spans|, k requires 0 <= k < |spans| => s[spans[k].lo..spans[k].hi])
  }

  ghost predicate ListsRuns(s: string, c: char, i: nat, spans: seq<Span>) {
    && (forall k | 0 <= k < |spans| :: i <= spans[k].lo && MaximalRun(s, c, spans[k].lo, spans[k].hi))
    && (forall k, l | 0 <= k < l < |spans| :: spans[k].hi < spans[l].lo)
    && (forall a: nat, b: nat | i <= a && MaximalRun(s, c, a, b) :: Span(a, b) in spans)
  }

  lemma ListsRunsCons(s: string, c: char, i: nat, j: nat, rest: seq<Span>)
    requires i <= |s| && (i == 0 || s[i - 1] == c) && MaximalRun(s, c, i, j)
    requires ListsRuns(s, c, j, rest)
    ensures ListsRuns(s, c, i, [Span(i, j)] + rest)
  {
    var spans := [Span(i, j)] + rest;
    forall a: nat, b: nat | i <= a && MaximalRun(s, c, a, b)
      ensures Span(a, b) in spans
    {
      if a < j {
        RunEndIs(s, c, a, b);
        RunEndIs(s, c, i, j);
        assert a - 1 < i;
        assert spans[0] == Span(a, b);
      } else {
        assert Span(a, b) in rest;
      }
    }
    forall k | 0 <= k < |rest| ensures j < rest[k].lo {
      assert MaximalRun(s, c, rest[k].lo, rest[k].hi);
      assert rest[k].lo == j ==> s[j] == c;
    }
  }

  lemma ListsRunsSkip(s: string, c: char, i: nat, spans: seq<Span>)
    requires i < |s| && s[i] == c && ListsRuns(s, c, i + 1, spans)
    ensures ListsRuns(s, c, i, spans)
  {
    forall a: nat, b: nat | i <= a && MaximalRun(s, c, a, b)
      ensures Span(a, b) in spans
    {
      assert s[a] != c;
    }
  }

  lemma SlicesCons(s: string, first: Span, rest: seq<Span>)
    requires forall k | 0 <= k < |rest| :: rest[k].lo <= rest[k].hi <= |s|
    requires first.lo <= first.hi <= |s|
    ensures Slices(s, [first] + rest) == [s[first.lo..first.hi]] + Slices(s, rest)
  {
  }

  /** Splitting lists exactly the maximal separator-free runs, each once, from left to right. */
  lemma {:induction false} SplitListsMaximalRuns(s: string, c: char, i: nat) returns (spans: seq<Span>)
    requires i <= |s|
    requires i == 0 || i == |s| || s[i] == c || s[i - 1] == c
    ensures ListsRuns(s, c, i, spans)
    ensures SplitFrom(s, c, i) == Slices(s, spans)
    decreases |s| - i
  {
    if i == |s| {
      spans := [];
    } else if s[i] == c {
      spans := SplitListsMaximalRuns(s, c, i + 1);
      ListsRunsSkip(s, c, i, spans);
    } else {
      var j := RunEnd(s, c, i);
      var rest := SplitListsMaximalRuns(s, c, j);
      ListsRunsCons(s, c, i, j, rest);
      SlicesCons(s, Span(i, j), rest);
      spans := [Span(i, j)] + rest;
    }
  }

  lemma {:induction false} SplitMakesComponents(s: string, i: nat)
    requires i <= |s|
    ensures AllComponents(SplitFrom(s, SEP, i))
    decreases |s| - i
  {
    if i < |s| {
      SplitMakesComponents(s, if s[i] == SEP then i + 1 else RunEnd(s, SEP, i));
    }
  }

  lemma {:induction false} SplitShift(x: string, y: string, c: char, i: nat)
    requires i <= |y|
    ensures SplitFrom(x + y, c, |x| + i) == SplitFrom(y, c, i)
    decreases |y| - i
  {
    var z, n := x + y, |x|;
    if i < |y| {
      assert n + i < |z| && z[n + i] == y[i];
      if y[i] == c {
        SplitShift(x, y, c, i + 1);
      } else {
        var j := RunEnd(y, c, i);
        RunEndIs(z, c, n + i, n + j);
        assert z[n + i..n + j] == y[i..j];
        SplitShift(x, y, c, j);
        assert SplitFrom(z, c, n + i) == [y[i..j]] + SplitFrom(y, c, j);
      }
    }
  }

  lemma {:induction false} SplitConcatFrom(x: string, c: char, y: string, i: nat)
    requires i <= |x|
    ensures SplitFrom(x + [c] + y, c, i) == SplitFrom(x, c, i) + SplitFrom(y, c, 0)
    decreases |x| - i
  {
    var z := x + [c] + y;
    if i == |x| {
      SplitShift(x + [c], y, c, 0);
    } else if x[i] == c {
      SplitConcatFrom(x, c, y, i + 1);
    } else {
      var j := RunEnd(x, c, i);
      RunEndIs(z, c, i, j);
      assert z[i..j] == x[i..j];
      SplitConcatFrom(x, c, y, j);
    }
  }

  /** A separator between two strings separates their components. */
  lemma ComponentsConcat(x: string, y: string)
    ensures Components(x + "/" + y) == Components(x) + Components(y)
  {
    SplitConcatFrom(x, SEP, y, 0);
  }

  // ---------------------------------------------------------------- Printing

  function Join(ps: Path): string {
    if |ps| == 0 then "" else if |ps| == 1 then ps[0] else ps[0] + "/" + Join(ps[1..])
  }

  function Print(absolute: bool, ps: Path): string {
    (if absolute then "/" else "") + Join(ps)
  }

  lemma {:induction false} ComponentsOfJoin(ps: Path)
    requires AllComponents(ps)
    ensures Components(Join(ps)) == ps
    ensures ps != [] ==> Join(ps) != "" && Join(ps)[0] != SEP
  {
    if ps != [] {
      RunEndIs(ps[0], SEP, 0, |ps[0]|);
      var n := |ps[0]|;
      assert ps[0][0..n] == ps[0];
      assert SplitFrom(ps[0], SEP, n) == [];
      assert Components(ps[0]) == [ps[0]];
      if |ps| > 1 {
        ComponentsOfJoin(ps[1..]);
        ComponentsConcat(ps[0], Join(ps[1..]));
      }
    }
  }

  /** Parsing a printed path gives back its components and its absolute flag. */
  lemma ParsePrint(absolute: bool, ps: Path)
    requires AllComponents(ps)
    ensures Components(Print(absolute, ps)) == ps
    ensures IsAbsolute(Print(absolute, ps)) == absolute
  {
    ComponentsOfJoin(ps);
    if absolute {
      assert Components("") == [];
      ComponentsConcat("", Join(ps));
      assert Print(absolute, ps) == "" + "/" + Join(ps);
    } else {
      assert Print(absolute, ps) == Join(ps);
    }
  }

  // ---------------------------------------------------------------- Collapsing

  /** What one more component does to the components collected so far. */
  function Enter(done: Path, c: string): Path {
    if c == "." then done else if c == ".." then Init(done) else done + [c]
  }

  function CollapseOnto(done: Path, ps: Path): Path
    decreases |ps|
  {
    if ps == [] then done else CollapseOnto(Enter(done, ps[0]), ps[1..])
  }

  function Collapse(ps: Path): Path {
    CollapseOnto([], ps)
  }

  /** The components a path string stands for. */
  function Canon(s: string): Path {
    Collapse(Components(s))
  }

  /** The string `FormulatePath` makes of a path string. */
  function CanonicalString(s: string): string {
    Print(IsAbsolute(s), Canon(s))
  }

  /** The change of depth made by one component. */
  function Rise(c: string): int {
    if c == "." then 0 else if c == ".." then -1 else 1
  }

  function Level(ps: Path): int {
    if ps == [] then 0 else Level(ps[..|ps| - 1]) + Rise(ps[|ps| - 1])
  }

  /** How far a path climbs above the place where it starts. */
  function Climb(ps: Path): nat {
    if ps == [] then 0
    else
      var above := Climb(ps[1..]) - Rise(ps[0]);
      if above < 0 then 0 else above
  }

  lemma {:induction false} LevelFront(ps: Path)
    requires ps != []
    ensures Level(ps) == Rise(ps[0]) + Level(ps[1..])
  {
    if |ps| > 1 {
      var front := ps[..|ps| - 1];
      LevelFront(front);
      assert front[1..] == ps[1..][..|ps| - 2];
    } else {
      assert ps[..0] == [];
    }
  }

  /** `Climb` is the greatest depth below the start that any prefix reaches. */
  lemma {:induction false} ClimbIsLowestPoint(ps: Path) returns (low: nat)
    ensures forall i | 0 <= i <= |ps| :: -Level(ps[..i]) <= Climb(ps)
    ensures low <= |ps| && Climb(ps) == -Level(ps[..low])
  {
    low := 0;
    if ps != [] {
      var below := ClimbIsLowestPoint(ps[1..]);
      forall i | 0 < i <= |ps|
        ensures Level(ps[..i]) == Rise(ps[0]) + Level(ps[1..][..i - 1])
      {
        LevelFront(ps[..i]);
        assert ps[..i][1..] == ps[1..][..i - 1];
      }
      if Climb(ps) > 0 || Climb(ps[1..]) == Rise(ps[0]) {
        low := below + 1;
        assert Level(ps[..low]) == Rise(ps[0]) + Level(ps[1..][..below]);
      }
    }
  }

  /** `ps` without its last `n` components, as far as there are any. */
  function Dropped(ps: Path, n: nat): Path {
    ps[..if n < |ps| then |ps| - n else 0]
  }

  lemma ConcatAssociates(a: Path, b: Path, c: Path)
    ensures a + (b + c) == a + b + c
  {
  }

  lemma EnterDrops(done: Path, c: string, up: nat)
    ensures var above := up - Rise(c);
            Dropped(Enter(done, c), up) == Dropped(done, if above < 0 then 0 else above) + Dropped(Enter([], c), up)
  {
  }

  /**
    The composition law of "..": collapsing `ps` on top of `done` drops as many
    components of `done` as `ps` climbs, as far as there are any, and adds what
    `ps` collapses to by itself.
   */
  lemma {:induction false} CollapseOntoLaw(done: Path, ps: Path)
    ensures CollapseOnto(done, ps) == Dropped(done, Climb(ps)) + Collapse(ps)
    decreases |ps|
  {
    if ps != [] {
      var c, up := ps[0], Climb(ps[1..]);
      CollapseOntoLaw(Enter(done, c), ps[1..]);
      CollapseOntoLaw(Enter([], c), ps[1..]);
      EnterDrops(done, c, up);
      ConcatAssociates(Dropped(done, Climb(ps)), Dropped(Enter([], c), up), Collapse(ps[1..]));
    }
  }

  lemma {:induction false} CollapseOntoConcat(done: Path, a: Path, b: Path)
    ensures CollapseOnto(done, a + b) == CollapseOnto(CollapseOnto(done, a), b)
    decreases |a|
  {
    if a == [] {
      assert a + b == b;
    } else {
      assert (a + b)[1..] == a[1..] + b;
      CollapseOntoConcat(Enter(done, a[0]), a[1..], b);
    }
  }

  lemma CollapseComposition(a: Path, b: Path)
    ensures Collapse(a + b) == Dropped(Collapse(a), Climb(b)) + Collapse(b)
  {
    CollapseOntoConcat([], a, b);
    CollapseOntoLaw(Collapse(a), b);
  }

  lemma {:induction false} CanonicalIsFixed(done: Path, ps: Path)
    requires IsCanonical(ps)
    ensures CollapseOnto(done, ps) == done + ps
    ensures Climb(ps) == 0
    decreases |ps|
  {
    if ps != [] {
      CanonicalIsFixed(done + [ps[0]], ps[1..]);
      assert done + [ps[0]] + ps[1..] == done + ps;
    }
  }

  lemma {:induction false} CollapseIsCanonical(done: Path, ps: Path)
    requires IsCanonical(done) && AllComponents(ps)
    ensures IsCanonical(CollapseOnto(done, ps))
    decreases |ps|
  {
    if ps != [] {
      CollapseIsCanonical(Enter(done, ps[0]), ps[1..]);
    }
  }

  lemma {:induction false} CollapseKeepsComponents(done: Path, ps: Path)
    requires AllComponents(done) && AllComponents(ps)
    ensures AllComponents(CollapseOnto(done, ps))
    decreases |ps|
  {
    if ps != [] {
      CollapseKeepsComponents(Enter(done, ps[0]), ps[1..]);
    }
  }

  lemma CanonIsCanonical(s: string)
    ensures IsCanonical(Canon(s))
  {
    SplitMakesComponents(s, 0);
    CollapseIsCanonical([], Components(s));
  }

  /** Collapsing is idempotent, and collapsing the left part first changes nothing. */
  lemma CollapseAbsorbs(a: Path, b: Path)
    requires AllComponents(a)
    ensures Collapse(Collapse(a)) == Collapse(a)
    ensures Collapse(Collapse(a) + b) == Collapse(a + b)
  {
    CollapseIsCanonical([], a);
    CanonicalIsFixed([], Collapse(a));
    CollapseOntoConcat([], Collapse(a), b);
    CollapseOntoConcat([], a, b);
  }

  /** Joining with a separator collapses the right string on top of the left one. */
  lemma CanonConcat(x: string, y: string)
    ensures Canon(x + "/" + y) == CollapseOnto(Canon(x), Components(y))
  {
    ComponentsConcat(x, y);
    CollapseOntoConcat([], Components(x), Components(y));
  }

  /** "path + /.." names the parent: it drops exactly the last canonical component. */
  lemma CanonDotDot(s: string)
    ensures Canon(s + "/..") == Init(Canon(s))
  {
    assert s + "/.." == s + "/" + "..";
    CanonConcat(s, "..");
    assert RunEnd("..", SEP, 0) == 2;
    assert Components("..") == [".."];
  }

  lemma CanonOfPrint(absolute: bool, ps: Path)
    requires IsCanonical(ps)
    ensures Canon(Print(absolute, ps)) == ps
    ensures IsAbsolute(Print(absolute, ps)) == absolute
  {
    ParsePrint(absolute, ps);
    CanonicalIsFixed([], ps);
  }

  /** Two strings print alike exactly when they stand for the same path. */
  lemma CanonicalStringDecides(x: string, y: string)
    ensures CanonicalString(x) == CanonicalString(y)
        <==> IsAbsolute(x) == IsAbsolute(y) && Canon(x) == Canon(y)
  {
    CanonIsCanonical(x);
    CanonIsCanonical(y);
    CanonOfPrint(IsAbsolute(x), Canon(x));
    CanonOfPrint(IsAbsolute(y), Canon(y));
  }

  // ------------------------------------------- Two ways to resolve a relative path

  /** `open` collapses the argument first and joins it to the working directory afterwards. */
  function ResolveCollapseFirst(cwd: Path, s: string): Path {
    if IsAbsolute(s) then Canon(s)
    else Canon(Print(true, cwd) + "/" + CanonicalString(s))
  }

  /** `chdir` and `mkdir` join first and collapse the whole. */
  function ResolveJoinFirst(cwd: Path, s: string): Path {
    if IsAbsolute(s) then Canon(s) else Collapse(cwd + Components(s))
  }

  lemma CollapseFirstMeaning(cwd: Path, s: string)
    requires IsCanonical(cwd)
    ensures ResolveCollapseFirst(cwd, s) == if IsAbsolute(s) then Canon(s) else cwd + Canon(s)
    ensures IsCanonical(ResolveCollapseFirst(cwd, s))
  {
    CanonIsCanonical(s);
    if !IsAbsolute(s) {
      CanonOfPrint(true, cwd);
      CanonConcat(Print(true, cwd), CanonicalString(s));
      ParsePrint(false, Canon(s));
      CanonicalIsFixed(cwd, Canon(s));
    }
  }

  lemma JoinFirstMeaning(cwd: Path, s: string)
    requires IsCanonical(cwd)
    ensures ResolveJoinFirst(cwd, s)
         == if IsAbsolute(s) then Canon(s) else Dropped(cwd, Climb(Components(s))) + Canon(s)
    ensures IsCanonical(ResolveJoinFirst(cwd, s))
  {
    hide CollapseOnto, Climb, Dropped, IsCanonical, SplitFrom;
    SplitMakesComponents(s, 0);
    CanonIsCanonical(s);
    CanonicalIsFixed([], cwd);
    CollapseComposition(cwd, Components(s));
    CollapseOntoConcat([], cwd, Components(s));
    CollapseIsCanonical(cwd, Components(s));
    assert [] + cwd == cwd;
  }

  /**
    The two resolutions of a relative path agree exactly when the path does not
    climb above its start, or there is nothing above the working directory.
   */
  lemma ResolutionsAgreeIff(cwd: Path, s: string)
    requires IsCanonical(cwd) && !IsAbsolute(s)
    ensures ResolveCollapseFirst(cwd, s) == ResolveJoinFirst(cwd, s)
       <==> Climb(Components(s)) == 0 || cwd == []
  {
    CollapseFirstMeaning(cwd, s);
    JoinFirstMeaning(cwd, s);
  }

  /** In /a, the path "../b" is /a/b to `open` and /b to `chdir`. */
  lemma ResolutionsDiffer()
    ensures ResolveCollapseFirst(["a"], "../b") == ["a", "b"]
    ensures ResolveJoinFirst(["a"], "../b") == ["b"]
  {
    assert ["..", "b"][1..] == ["b"];
    assert Join(["..", "b"]) == "../b";
    ComponentsOfJoin(["..", "b"]);
    assert Canon("../b") == ["b"];
    CollapseFirstMeaning(["a"], "../b");
    JoinFirstMeaning(["a"], "../b");
  }
}
