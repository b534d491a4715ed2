/**
  Routing paths to mounts (base/MountManager.cc). A mount table maps key strings
  to mounts; `None` stands for a key bound to NULL.
 */
module Mounts {
  import opened Wrappers
  import opened Paths

  type MountTable<M> = map<string, Option<M>>

  /** The length of the longest non-empty key that starts `path` and has at most `n` characters. */
  function LongestKey(keys: set<string>, path: string, n: nat): (k: nat)
    requires n <= |path|
    ensures k <= n
    ensures k > 0 ==> path[..k] in keys
    ensures forall j | k < j <= n :: path[..j] !in keys
  {
    if n == 0 then 0 else if path[..n] in keys then n else LongestKey(keys, path, n - 1)
  }

  /** The mount a path goes to, and the rest of the path. */
  function GetMount<M>(table: MountTable<M>, path: string): (Option<M>, string) {
    var n := LongestKey(table.Keys, path, |path|);
    if n == 0 then (None, path)
    else (table[path[..n]], if n == |path| then "/" else path[n..])
  }

  function AddMount<M>(table: MountTable<M>, m: Option<M>, path: Option<string>): (MountTable<M>, int) {
    if m.None? then (table, -2)
    else if path.None? then (table, -3)
    else
      var bound := if path.value in table then table else table[path.value := None];
      if bound[path.value].Some? then (bound, -1)
      else if path.value == "" then (bound, -3)
      else (bound[path.value := m], 0)
  }

  function RemoveMount<M>(table: MountTable<M>, path: string): (MountTable<M>, int) {
    if path in table then (table - {path}, 0) else (table, -1)
  }

  // ------------------------------------------------------------ What routing means

  /** `key` is a non-empty key that starts `path`, and no longer key does. */
  ghost predicate IsLongest(keys: set<string>, path: string, key: string) {
    && key in keys && key != "" && key <= path
    && (forall k | k in keys && k <= path :: |k| <= |key|)
  }

  lemma RouteIsLongest<M>(table: MountTable<M>, path: string, key: string)
    requires IsLongest(table.Keys, path, key)
    ensures GetMount(table, path) == (table[key], if key == path then "/" else path[|key|..])
    ensures key + (if key == path then "" else GetMount(table, path).1) == path
    ensures forall k | IsLongest(table.Keys, path, k) :: k == key
  {
    var n := LongestKey(table.Keys, path, |path|);
    assert path[..|key|] == key;
    assert path[..n] in table.Keys && path[..n] <= path;
  }

  lemma RouteOrNothing<M>(table: MountTable<M>, path: string)
    ensures (exists key :: IsLongest(table.Keys, path, key)) <==> LongestKey(table.Keys, path, |path|) > 0
    ensures !(exists key :: IsLongest(table.Keys, path, key)) ==> GetMount(table, path) == (None, path)
    ensures path != "" ==> GetMount(table, path).1 != ""
  {
    var n := LongestKey(table.Keys, path, |path|);
    if n > 0 {
      forall k | k in table.Keys && k <= path
        ensures |k| <= n
      {
        assert path[..|k|] == k;
      }
      assert IsLongest(table.Keys, path, path[..n]);
    }
    if key :| IsLongest(table.Keys, path, key) {
      assert path[..|key|] == key;
    }
  }

  /** Only the empty key is ever bound to NULL. */
  ghost predicate NullOnlyAtEmpty<M>(table: MountTable<M>) {
    forall key | key in table && table[key].None? :: key == ""
  }

  lemma MountingKeepsNulls<M>(table: MountTable<M>, m: Option<M>, path: Option<string>, key: string)
    requires NullOnlyAtEmpty(table)
    ensures NullOnlyAtEmpty(AddMount(table, m, path).0)
    ensures NullOnlyAtEmpty(RemoveMount(table, key).0)
    ensures GetMount(table, key).0.None? <==> LongestKey(table.Keys, key, |key|) == 0
  {
  }

  /** Mounting and unmounting again restores the route of every path. */
  lemma MountThenUnmount<M>(table: MountTable<M>, m: M, key: string, path: string)
    requires NullOnlyAtEmpty(table)
    ensures var (mounted, rc) := AddMount(table, Some(m), Some(key));
            && (rc == 0 <==> key != "" && key !in table)
            && (rc == 0 ==> GetMount(mounted, key) == (Some(m), "/"))
            && (rc == 0 ==> RemoveMount(mounted, key) == (table, 0))
            && (rc == 0 ==> GetMount(RemoveMount(mounted, key).0, path) == GetMount(table, path))
            && (rc != 0 ==> GetMount(mounted, path) == GetMount(table, path))
  {
    var (mounted, rc) := AddMount(table, Some(m), Some(key));
    if rc == 0 {
      assert key[..|key|] == key;
      assert RemoveMount(mounted, key).0 == table;
    } else {
      NullKeyIsNoRoute(table, mounted, path, |path|);
    }
  }

  lemma {:induction false} NullKeyIsNoRoute<M>(a: MountTable<M>, b: MountTable<M>, path: string, n: nat)
    requires n <= |path| && forall key | key != "" :: key in a <==> key in b
    ensures LongestKey(a.Keys, path, n) == LongestKey(b.Keys, path, n)
  {
    if n > 0 {
      NullKeyIsNoRoute(a, b, path, n - 1);
      assert path[..n] != "";
    }
  }

  // ------------------------------------------------------------ Components

  lemma {:induction false} JoinConcat(a: Path, b: Path)
    requires a != [] && b != []
    ensures Join(a + b) == Join(a) + "/" + Join(b)
  {
    if |a| == 1 {
      assert (a + b)[1..] == b;
    } else {
      assert (a + b)[1..] == a[1..] + b;
      JoinConcat(a[1..], b);
    }
  }

  /** The rest of `path` after `key`, as `GetMount` returns it. */
  function Remainder(key: string, path: string): string
    requires key <= path
  {
    if key == path then "/" else path[|key|..]
  }

  /** A key that is a prefix by components is a prefix by characters, and leaves the other components. */
  lemma ComponentPrefix(ks: Path, rest: Path)
    requires IsCanonical(ks) && IsCanonical(rest)
    ensures Print(true, ks) <= Print(true, ks + rest)
    ensures Canon(Remainder(Print(true, ks), Print(true, ks + rest))) == rest
    ensures rest != [] ==> |Print(true, ks)| < |Print(true, ks + rest)|
  {
    var key, path := Print(true, ks), Print(true, ks + rest);
    CanonOfPrint(true, rest);
    CanonOfPrint(false, rest);
    ComponentsOfJoin(rest);
    if rest == [] {
      assert ks + rest == ks;
      assert Print(true, rest) == "/";
    } else if ks == [] {
      assert ks + rest == rest;
      assert path[|key|..] == Print(false, rest);
    } else {
      JoinConcat(ks, rest);
      assert path == key + Print(true, rest);
      assert path[|key|..] == Print(true, rest);
    }
  }

  /** The number of components in the longest key that is a prefix by components. */
  function DeepestKey(keys: set<string>, ps: Path, n: nat): (d: int)
    requires n <= |ps|
    ensures -1 <= d <= n
    ensures d >= 0 ==> Print(true, ps[..d]) in keys
    ensures forall j | d < j <= n :: Print(true, ps[..j]) !in keys
  {
    if Print(true, ps[..n]) in keys then n else if n == 0 then -1 else DeepestKey(keys, ps, n - 1)
  }

  /** Component-wise routing: the mount of the deepest directory that is a key, and the components below it. */
  function ComponentRoute<M>(table: MountTable<M>, ps: Path): Option<(Option<M>, Path)> {
    var d := DeepestKey(table.Keys, ps, |ps|);
    if d < 0 then None else Some((table[Print(true, ps[..d])], ps[d..]))
  }

  /** The longest key that starts the path ends at the end of a component. */
  ghost predicate EndsAtComponent(keys: set<string>, ps: Path) {
    exists d | 0 <= d <= |ps| :: IsLongest(keys, Print(true, ps), Print(true, ps[..d]))
  }

  lemma LongestIsDeepest(keys: set<string>, ps: Path, d: nat)
    requires IsCanonical(ps) && d <= |ps| && IsLongest(keys, Print(true, ps), Print(true, ps[..d]))
    ensures DeepestKey(keys, ps, |ps|) == d
  {
    var e := DeepestKey(keys, ps, |ps|);
    assert ps[..e] + ps[e..] == ps;
    ComponentPrefix(ps[..e], ps[e..]);
    assert ps[..d] + ps[d..e] == ps[..e];
    ComponentPrefix(ps[..d], ps[d..e]);
  }

  /**
    The longest key is a directory of the path with a slash too many, and the
    directory is a key for the same mount as well.
   */
  ghost predicate TrailingTwin<M>(table: MountTable<M>, ps: Path) {
    exists d | 0 < d < |ps| ::
      var key := Print(true, ps[..d]);
      && IsLongest(table.Keys, Print(true, ps), key + "/")
      && key in table && table[key] == table[key + "/"]
  }

  /**
    Routing matches characters, not components. It finds the mount and the
    components that routing by components finds exactly when the longest key
    ends at the end of a component, or is the slashed twin of the right key.
   */
  lemma RoutesAgreeIff<M>(table: MountTable<M>, ps: Path)
    requires IsCanonical(ps)
    ensures var (m, rest) := GetMount(table, Print(true, ps));
            ComponentRoute(table, ps) == Some((m, Canon(rest)))
            <==> EndsAtComponent(table.Keys, ps) || TrailingTwin(table, ps)
  {
    var path := Print(true, ps);
    if key :| IsLongest(table.Keys, path, key) {
      assert key[0] == '/' by { assert key[0] == path[0]; }
      var d, s := PrefixEnds(ps, key[1..]);
      if key[1..] == Join(ps[..d]) {
        assert key == Print(true, ps[..d]);
        AgreeAtComponent(table, ps);
      } else {
        assert key == "/" + (Lead(ps, d) + s);
        AgreeInComponent(table, ps, key, d, s);
      }
    } else {
      NoKeyNoRoute(table, ps);
    }
  }

  /** For keys as `Print` writes them, the end of the longest key alone decides. */
  lemma CanonicalRoutesAgreeIff<M>(table: MountTable<M>, ps: Path, ks: Path)
    requires IsCanonical(ps) && IsCanonical(ks) && IsLongest(table.Keys, Print(true, ps), Print(true, ks))
    ensures var (m, rest) := GetMount(table, Print(true, ps));
            ComponentRoute(table, ps) == Some((m, Canon(rest))) <==> EndsAtComponent(table.Keys, ps)
  {
    RoutesAgreeIff(table, ps);
    forall d | 0 < d < |ps|
      ensures !IsLongest(table.Keys, Print(true, ps), Print(true, ps[..d]) + "/")
    {
      NeverSlashed(ks, ps[..d]);
      if IsLongest(table.Keys, Print(true, ps), Print(true, ps[..d]) + "/") {
        RouteIsLongest(table, Print(true, ps), Print(true, ks));
      }
    }
  }

  lemma NeverSlashed(ks: Path, ps: Path)
    requires IsCanonical(ks) && IsCanonical(ps)
    ensures Print(true, ks) != Print(true, ps) + "/"
  {
    var key, empty := Print(true, ps), "";
    ParsePrint(true, ks);
    ParsePrint(true, ps);
    ComponentsConcat(key, empty);
    assert Components(empty) == [];
    assert key + "/" + empty == key + "/";
    assert Components(key + "/") == ps;
  }

  lemma NoKeyNoRoute<M>(table: MountTable<M>, ps: Path)
    requires !exists key :: IsLongest(table.Keys, Print(true, ps), key)
    requires IsCanonical(ps)
    ensures ComponentRoute(table, ps) == None
    ensures !EndsAtComponent(table.Keys, ps) && !TrailingTwin(table, ps)
  {
    var path := Print(true, ps);
    RouteOrNothing(table, path);
    forall j | 0 <= j <= |ps|
      ensures Print(true, ps[..j]) !in table.Keys
    {
      RemainderNames(ps, j);
      assert path[..PrintedLength(ps, j)] == Print(true, ps[..j]);
    }
  }

  lemma AgreeAtComponent<M>(table: MountTable<M>, ps: Path)
    requires IsCanonical(ps) && EndsAtComponent(table.Keys, ps)
    ensures var (m, rest) := GetMount(table, Print(true, ps));
            ComponentRoute(table, ps) == Some((m, Canon(rest)))
  {
    var path := Print(true, ps);
    var d :| 0 <= d <= |ps| && IsLongest(table.Keys, path, Print(true, ps[..d]));
    var key := Print(true, ps[..d]);
    LongestIsDeepest(table.Keys, ps, d);
    RouteIsLongest(table, path, key);
    RemainderNames(ps, d);
    assert GetMount(table, path).1 == Remainder(key, path);
  }

  /** The characters before component `d`. */
  function Lead(ps: Path, d: nat): string
    requires d <= |ps|
  {
    if d == 0 then "" else Join(ps[..d]) + "/"
  }

  /** What is left of the components after the first `|s|` characters of component `d`. */
  function Tail(ps: Path, d: nat, s: string): Path
    requires d < |ps| && |s| <= |ps[d]|
  {
    [ps[d][|s|..]] + ps[d + 1..]
  }

  /** A prefix of a joined path ends with a component, or inside or just before component `d`. */
  predicate EndsIn(ps: Path, x: string, d: nat, s: string) {
    && d < |ps| && s <= ps[d] && s != ps[d] && (s == "" ==> d > 0)
    && x == Lead(ps, d) + s
    && Join(ps) == x + Join(Tail(ps, d, s))
  }

  lemma {:induction false} PrefixEnds(ps: Path, x: string) returns (d: nat, s: string)
    requires AllComponents(ps) && x <= Join(ps)
    ensures d <= |ps|
    ensures x == Join(ps[..d]) || EndsIn(ps, x, d, s)
    decreases |ps|
  {
    d, s := 0, x;
    if x == "" {
      assert ps[..0] == [];
    } else if |x| < |ps[0]| {
      assert x == ps[0][..|x|];
      assert Tail(ps, 0, x)[1..] == ps[1..];
    } else if |x| == |ps[0]| {
      d := 1;
      assert ps[..1] == [ps[0]] && x == Join(ps)[..|x|] == ps[0];
    } else {
      var rest, x' := ps[1..], x[|ps[0]| + 1..];
      assert Join(ps) == ps[0] + "/" + Join(rest);
      assert x == Join(ps)[..|x|] == ps[0] + "/" + x';
      d, s := PrefixEnds(rest, x');
      BehindFirst(ps, x', d, s);
      d := d + 1;
      if x' == "" {
        d, s := 1, "";
      }
    }
  }

  lemma BehindFirst(ps: Path, x: string, d: nat, s: string)
    requires |ps| > 1 && AllComponents(ps) && d < |ps|
    ensures x == "" ==> EndsIn(ps, ps[0] + "/" + x, 1, "")
    ensures x != "" && x == Join(ps[1..][..d]) ==> ps[0] + "/" + x == Join(ps[..d + 1])
    ensures x != "" && EndsIn(ps[1..], x, d, s) ==> EndsIn(ps, ps[0] + "/" + x, d + 1, s)
  {
    var rest := ps[1..];
    assert ps[..d + 1] == [ps[0]] + rest[..d] && ps[..1] == [ps[0]];
    assert Tail(ps, 1, "") == rest;
    if EndsIn(rest, x, d, s) {
      assert Tail(ps, d + 1, s) == Tail(rest, d, s);
      assert ps[0] + "/" + (x + Join(Tail(rest, d, s))) == ps[0] + "/" + x + Join(Tail(rest, d, s));
      assert ps[0] + "/" + (Lead(rest, d) + s) == ps[0] + "/" + Lead(rest, d) + s;
      assert Lead(ps, d + 1) == ps[0] + "/" + Lead(rest, d);
    }
  }

  /** A remainder that starts inside component `d` names what follows, and the rest of `d` only if that is a name. */
  lemma TailNames(ps: Path, d: nat, s: string)
    requires IsCanonical(ps) && d < |ps| && s <= ps[d] && s != ps[d]
    ensures var t := ps[d][|s|..];
            Canon(Join(Tail(ps, d, s))) == if IsName(t) then Tail(ps, d, s) else ps[d + 1..]
  {
    var t, tail := ps[d][|s|..], Tail(ps, d, s);
    assert IsComponent(t);
    ComponentsOfJoin(tail);
    assert tail[0] == t && tail[1..] == ps[d + 1..];
    CanonicalIsFixed(Enter([], t), ps[d + 1..]);
    assert Collapse(tail) == CollapseOnto(Enter([], t), ps[d + 1..]);
  }

  function PrintedLength(ps: Path, d: nat): nat
    requires d <= |ps|
  {
    |Print(true, ps[..d])|
  }

  lemma LengthStep(ps: Path, d: nat)
    requires d < |ps|
    ensures PrintedLength(ps, d + 1) == PrintedLength(ps, d) + |ps[d]| + if d > 0 then 1 else 0
  {
    if d > 0 {
      assert ps[..d + 1] == ps[..d] + [ps[d]];
      JoinConcat(ps[..d], [ps[d]]);
    } else {
      assert ps[..1] == [ps[0]];
    }
  }

  lemma {:induction false} LengthsGrow(ps: Path, i: nat, j: nat)
    requires IsCanonical(ps) && i < j <= |ps|
    ensures PrintedLength(ps, i) + |ps[i]| + (if i > 0 then 1 else 0) <= PrintedLength(ps, j)
    decreases j
  {
    LengthStep(ps, j - 1);
    if i < j - 1 {
      LengthStep(ps, i);
      LengthsGrow(ps, i, j - 1);
    }
  }

  /** The key is longer than what is printed up to component `d`, and shorter than with that component. */
  lemma KeyInside(ps: Path, key: string, d: nat, s: string)
    requires IsCanonical(ps) && key != "" && EndsIn(ps, key[1..], d, s)
    ensures |key| == PrintedLength(ps, d) + |s| + if d > 0 then 1 else 0
    ensures forall j | 0 <= j <= |ps| :: PrintedLength(ps, j) < |key| <==> j <= d
    ensures forall j | 0 <= j <= |ps| :: PrintedLength(ps, j) != |key|
    ensures forall j | 0 < j <= |ps| && PrintedLength(ps, j) + 1 == |key| :: j == d && s == ""
  {
    assert ps[..0] == [];
    LengthStep(ps, d);
    forall j | 0 <= j <= |ps|
      ensures if j <= d then PrintedLength(ps, j) < |key| else PrintedLength(ps, j) > |key|
      ensures 0 < j && PrintedLength(ps, j) + 1 == |key| ==> j == d && s == ""
    {
      if j < d {
        LengthsGrow(ps, j, d);
      } else if j > d + 1 {
        LengthsGrow(ps, d + 1, j);
      }
    }
  }

  lemma DeepestIsBefore(keys: set<string>, ps: Path, key: string, d: nat, s: string)
    requires IsCanonical(ps) && IsLongest(keys, Print(true, ps), key) && EndsIn(ps, key[1..], d, s)
    ensures !EndsAtComponent(keys, ps)
    ensures DeepestKey(keys, ps, |ps|) <= d
  {
    KeyInside(ps, key, d, s);
    forall j | 0 <= j <= |ps|
      ensures j > d ==> Print(true, ps[..j]) !in keys
      ensures !IsLongest(keys, Print(true, ps), Print(true, ps[..j]))
    {
      RemainderNames(ps, j);
      assert |Print(true, ps[..j])| == PrintedLength(ps, j) != |key|;
    }
  }

  /** Components cut off inside a component differ from those below any directory. */
  lemma CutDiffers(ps: Path, d: nat, s: string, e: nat)
    requires IsCanonical(ps) && d < |ps| && s <= ps[d] && s != ps[d] && e <= d
    ensures Canon(Join(Tail(ps, d, s))) == ps[e..] <==> s == "" && e == d
  {
    TailNames(ps, d, s);
    assert ps[d..] == [ps[d]] + ps[d + 1..];
    if s == "" {
      assert Tail(ps, d, s) == ps[d..];
    } else if e == d {
      assert |ps[e..][0]| != |Tail(ps, d, s)[0]|;
    }
  }

  lemma InsideRoute<M>(table: MountTable<M>, ps: Path, key: string, d: nat, s: string)
    requires IsCanonical(ps) && IsLongest(table.Keys, Print(true, ps), key)
    requires key[0] == '/' && EndsIn(ps, key[1..], d, s)
    ensures GetMount(table, Print(true, ps)) == (table[key], Join(Tail(ps, d, s)))
  {
    hide Join, Lead, GetMount;
    var path, rest := Print(true, ps), Join(Tail(ps, d, s));
    RouteIsLongest(table, path, key);
    TailIsThere(ps, d, s);
    hide Tail, IsCanonical;
    SlashInFront(key, rest);
    assert path == "/" + (key[1..] + rest) == key + rest;
  }

  lemma TailIsThere(ps: Path, d: nat, s: string)
    requires IsCanonical(ps) && d < |ps| && s <= ps[d] && s != ps[d]
    ensures Join(Tail(ps, d, s)) != ""
  {
    assert IsComponent(ps[d][|s|..]);
    ComponentsOfJoin(Tail(ps, d, s));
  }

  lemma SlashInFront(key: string, rest: string)
    requires key != "" && key[0] == '/'
    ensures "/" + (key[1..] + rest) == key + rest
    ensures (key + rest)[|key|..] == rest
  {
    assert "/" + key[1..] == key;
  }

  lemma AgreeInComponent<M>(table: MountTable<M>, ps: Path, key: string, d: nat, s: string)
    requires IsCanonical(ps) && IsLongest(table.Keys, Print(true, ps), key)
    requires key[0] == '/' && EndsIn(ps, key[1..], d, s)
    ensures !EndsAtComponent(table.Keys, ps)
    ensures var (m, rest) := GetMount(table, Print(true, ps));
            ComponentRoute(table, ps) == Some((m, Canon(rest))) <==> TrailingTwin(table, ps)
  {
    var e := DeepestKey(table.Keys, ps, |ps|);
    InsideRoute(table, ps, key, d, s);
    DeepestIsBefore(table.Keys, ps, key, d, s);
    TwinIs(table, ps, key, d, s);
    if e >= 0 {
      CutDiffers(ps, d, s, e);
    }
    hide GetMount, TrailingTwin, EndsAtComponent, Canon, Join, Tail, Print;
  }

  lemma TwinIs<M>(table: MountTable<M>, ps: Path, key: string, d: nat, s: string)
    requires IsCanonical(ps) && IsLongest(table.Keys, Print(true, ps), key)
    requires key[0] == '/' && EndsIn(ps, key[1..], d, s)
    ensures TrailingTwin(table, ps) <==>
            var twin := Print(true, ps[..d]); s == "" && twin in table && table[twin] == table[key]
  {
    var path := Print(true, ps);
    KeyInside(ps, key, d, s);
    if s == "" {
      assert key == Print(true, ps[..d]) + "/";
    }
    if TrailingTwin(table, ps) {
      var j :| 0 < j < |ps| && IsLongest(table.Keys, path, Print(true, ps[..j]) + "/")
               && Print(true, ps[..j]) in table
               && table[Print(true, ps[..j])] == table[Print(true, ps[..j]) + "/"];
      RouteIsLongest(table, path, key);
      assert key == Print(true, ps[..j]) + "/";
      assert PrintedLength(ps, j) + 1 == |key|;
    }
  }

  lemma RemainderNames(ps: Path, d: nat)
    requires IsCanonical(ps) && d <= |ps|
    ensures Print(true, ps[..d]) <= Print(true, ps)
    ensures Canon(Remainder(Print(true, ps[..d]), Print(true, ps))) == ps[d..]
  {
    assert ps[..d] + ps[d..] == ps;
    ComponentPrefix(ps[..d], ps[d..]);
  }

  /** With mounts at "/" and "/mn", the path /mnt/x goes to the second one. */
  lemma RoutingSplitsComponents<M>(root: M, other: M)
    ensures var table := map["/" := Some(root), "/mn" := Some(other)];
            && GetMount(table, "/mnt/x") == (Some(other), "t/x")
            && ComponentRoute(table, ["mnt", "x"]) == Some((Some(root), ["mnt", "x"]))
  {
    var table := map["/" := Some(root), "/mn" := Some(other)];
    var path := "/mnt/x";
    assert path[..3] == "/mn";
    RouteIsLongest(table, path, "/mn");
    var ps := ["mnt", "x"];
    assert ps[..2] == ps && ps[..1] == ["mnt"] && ps[..0] == [];
    assert ps[1..] == ["x"];
    assert Join(ps) == "mnt/x";
    assert Print(true, ps) == "/mnt/x" && Print(true, ps[..1]) == "/mnt" && Print(true, ps[..0]) == "/";
    assert DeepestKey(table.Keys, ps, 2) == 0;
    assert ps[0..] == ps;
  }

  /**
    The longest key that starts the path is not longer than the parent; or it is
    the parent and a slash, for the mount that has the parent as its root.
   */
  predicate ParentDecides<M(==)>(table: MountTable<M>, ps: Path)
    requires ps != []
  {
    var path, parent := Print(true, ps), Print(true, Init(ps));
    var n := LongestKey(table.Keys, path, |path|);
    var (m, rest) := GetMount(table, parent);
    n <= |parent| || (Init(ps) != [] && n == |parent| + 1 && GetMount(table, path).0 == m && Canon(rest) == [])
  }

  /**
    `open` routes the parent and appends the last component; the other calls
    route the whole path. When both find the same mount and components.
   */
  lemma OpenAndStatRoutesAgree<M>(table: MountTable<M>, ps: Path)
    requires IsCanonical(ps) && ps != []
    ensures var (m, rest) := GetMount(table, Print(true, ps));
            var (m', rest') := GetMount(table, Print(true, Init(ps)));
            m == m' && Canon(rest) == Canon(rest') + [ps[|ps| - 1]] <==> ParentDecides(table, ps)
  {
    var path, parent := Print(true, ps), Print(true, Init(ps));
    var n := LongestKey(table.Keys, path, |path|);
    if n <= |parent| {
      KeyOfParent(table, ps);
    } else {
      KeyBehindParent(table, ps);
    }
  }

  lemma LastBehindParent(ps: Path)
    requires IsCanonical(ps) && ps != []
    ensures var (parent, c) := (Print(true, Init(ps)), ps[|ps| - 1]);
            && Print(true, ps) == (if Init(ps) == [] then parent else parent + "/") + c
            && Canon(c) == [c] && Canon("") == [] && Canon("/") == []
  {
    var c := ps[|ps| - 1];
    assert ps == Init(ps) + [c];
    if Init(ps) != [] {
      JoinConcat(Init(ps), [c]);
    }
    CanonOfPrint(false, [c]);
    CanonOfPrint(true, []);
    assert Print(false, [c]) == c && Print(true, []) == "/";
  }

  lemma SameLongestKey(keys: set<string>, path: string, parent: string)
    requires parent <= path && LongestKey(keys, path, |path|) <= |parent|
    ensures LongestKey(keys, parent, |parent|) == LongestKey(keys, path, |path|)
  {
    var n, n' := LongestKey(keys, path, |path|), LongestKey(keys, parent, |parent|);
    assert parent[..n] == path[..n] && parent[..n'] == path[..n'];
  }

  lemma KeyOfParent<M>(table: MountTable<M>, ps: Path)
    requires IsCanonical(ps) && ps != []
    requires LongestKey(table.Keys, Print(true, ps), |Print(true, ps)|) <= |Print(true, Init(ps))|
    ensures var (m, rest) := GetMount(table, Print(true, ps));
            var (m', rest') := GetMount(table, Print(true, Init(ps)));
            m == m' && Canon(rest) == Canon(rest') + [ps[|ps| - 1]]
  {
    var path, parent, c := Print(true, ps), Print(true, Init(ps)), ps[|ps| - 1];
    var n := LongestKey(table.Keys, path, |path|);
    LastBehindParent(ps);
    SameLongestKey(table.Keys, path, parent);
    assert parent[..n] == path[..n] && |parent| < |path|;
    assert GetMount(table, path) == (if n == 0 then None else table[path[..n]], path[n..]);
    var left := parent[n..];
    assert n == |parent| ==> left == "";
    if Init(ps) != [] {
      assert path[n..] == left + "/" + c;
      CanonConcat(left, c);
      assert Components(c) == [c] by { ParsePrint(false, [c]); assert Print(false, [c]) == c; }
    } else if n == 1 {
      assert path[n..] == c;
    } else {
      assert path[n..] == path && parent == "/" && ps == [c];
      CanonOfPrint(true, ps);
    }
  }

  lemma KeyBehindParent<M>(table: MountTable<M>, ps: Path)
    requires IsCanonical(ps) && ps != []
    requires LongestKey(table.Keys, Print(true, ps), |Print(true, ps)|) > |Print(true, Init(ps))|
    ensures var (m, rest) := GetMount(table, Print(true, ps));
            var (m', rest') := GetMount(table, Print(true, Init(ps)));
            m == m' && Canon(rest) == Canon(rest') + [ps[|ps| - 1]] <==> ParentDecides(table, ps)
  {
    var path, parent, c := Print(true, ps), Print(true, Init(ps)), ps[|ps| - 1];
    var n := LongestKey(table.Keys, path, |path|);
    LastBehindParent(ps);
    var start := |path| - |c|;
    var rest := GetMount(table, path).1;
    assert n < |path| ==> rest == path[n..] == c[n - start..];
    assert n == |path| ==> rest == "/";
    if n == start {
      assert rest == c;
    } else if n < |path| {
      LastCut(c, c[n - start..]);
    }
  }

  /** The end of a name without its first characters stands for no components, or for one that is not the name. */
  lemma LastCut(c: string, t: string)
    requires IsName(c) && 0 < |t| < |c| && t == c[|c| - |t|..]
    ensures |Canon(t)| <= 1 && Canon(t) != [c]
  {
    assert IsComponent(t);
    ParsePrint(false, [t]);
    assert Print(false, [t]) == t;
    var rest := [t][1..];
    assert rest == [];
    assert Canon(t) == Collapse([t]) == CollapseOnto(Enter([], t), rest) == Enter([], t);
    assert Enter([], t) == [] || Enter([], t)[0] == t;
    assert [c][0] == c != t;
  }
}
