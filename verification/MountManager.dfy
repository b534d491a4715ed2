/**
  The object that owns the mount table (base/MountManager.cc). `M` is the type of
  mounts; `None` is a NULL pointer.
 */
module MountManagers {
  import opened Wrappers
  import opened Mounts

  class MountManager<M(==)> {
    var mountMap: MountTable<M>
    var cwdMount: Option<M>

    ghost predicate Valid()
      reads this
    {
      NullOnlyAtEmpty(mountMap)
    }

    /** `Init` adds the default mount at "/". */
    constructor (defaultMount: M)
      ensures Valid()
      ensures mountMap == map["/" := Some(defaultMount)] && cwdMount == Some(defaultMount)
    {
      mountMap := map[];
      cwdMount := Some(defaultMount);
      new;
      var rc := AddMount(Some(defaultMount), Some("/"));
    }

    method AddMount(m: Option<M>, path: Option<string>) returns (rc: int)
      requires Valid()
      modifies `mountMap
      ensures Valid()
      ensures (mountMap, rc) == Mounts.AddMount(old(mountMap), m, path)
      ensures rc == 0 <==> m.Some? && path.Some? && path.value != "" && path.value !in old(mountMap)
      ensures rc == 0 ==> mountMap == old(mountMap)[path.value := m]
      ensures rc == -1 <==> m.Some? && path.Some? && path.value in old(mountMap) && old(mountMap)[path.value].Some?
      ensures rc == -2 <==> m.None?
      ensures rc in {0, -1, -2, -3}
      ensures rc != 0 ==> mountMap - {""} == old(mountMap) - {""}
    {
      if m.None? {
        return -2;
      }
      if path.None? {
        return -3;
      }
      var p := path.value;
      if p !in mountMap {
        mountMap := mountMap[p := None];
      }
      if mountMap[p].Some? {
        return -1;
      }
      if |p| == 0 {
        return -3;
      }
      mountMap := mountMap[p := m];
      return 0;
    }

    method RemoveMount(path: string) returns (rc: int)
      requires Valid()
      modifies this
      ensures Valid()
      ensures (mountMap, rc) == Mounts.RemoveMount(old(mountMap), path)
      ensures mountMap == old(mountMap) - {path} && rc == if path in old(mountMap) then 0 else -1
      ensures cwdMount == if rc == 0 && old(cwdMount == mountMap[path]) then None else old(cwdMount)
    {
      if path !in mountMap {
        return -1;
      }
      if cwdMount == mountMap[path] {
        cwdMount := None;
      }
      mountMap := mountMap - {path};
      return 0;
    }

    method ClearMounts()
      modifies this
      ensures Valid() && mountMap == map[] && cwdMount == None
    {
      mountMap := map[];
      cwdMount := None;
    }

    /** The keys are visited in no particular order. */
    method GetMount(path: string) returns (m: Option<M>, rest: string)
      ensures (m, rest) == Mounts.GetMount(mountMap, path)
    {
      m, rest := None, path;
      if |path| == 0 {
        return;
      }
      var best := "";
      var todo := mountMap.Keys;
      while todo != {}
        invariant todo <= mountMap.Keys
        invariant best <= path && (best == "" || best in mountMap)
        invariant forall k | k in mountMap.Keys - todo && k <= path :: |k| <= |best|
      {
        var key :| key in todo;
        todo := todo - {key};
        if key <= path && |key| > |best| {
          best := key;
        }
      }
      RouteOrNothing(mountMap, path);
      if |best| == 0 {
        assert forall key :: !IsLongest(mountMap.Keys, path, key);
        return;
      }
      assert IsLongest(mountMap.Keys, path, best);
      RouteIsLongest(mountMap, path, best);
      m := mountMap[best];
      rest := if best == path then "/" else path[|best|..];
    }
  }
}
