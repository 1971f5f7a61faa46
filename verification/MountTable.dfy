/** The mount table (fs/vfs/vfs.c): an unordered array searched from the front, with the
    last entry moved into the place of a removed one.  While no two entries have the same
    host and name it is a map. */
module MountTable {
  import opened MachineInts

  const MOUNT_MAX: nat := 32
  const NAME_ROOM: nat := 127

  datatype Mount = Mount(host: nat, name: string, target: nat)

  type Key = (nat, string)

  predicate Matches(m: Mount, host: nat, name: string) {
    m.host == host && m.name == name
  }

  /** The first entry from `i` on for a host and name, or the number of entries. */
  function Find(t: seq<Mount>, host: nat, name: string, i: nat): (k: nat)
    requires i <= |t|
    ensures i <= k <= |t| && (k < |t| ==> Matches(t[k], host, name)) && forall j | i <= j < k :: !Matches(t[j], host, name)
    decreases |t| - i
  {
    if i == |t| || Matches(t[i], host, name) then i else Find(t, host, name, i + 1)
  }

  function Cut(name: string): (c: string)
    ensures |name| <= NAME_ROOM ==> c == name
  {
    if |name| <= NAME_ROOM then name else name[..NAME_ROOM]
  }

  function SwapOut(t: seq<Mount>, k: nat): seq<Mount>
    requires k < |t|
  {
    t[k := t[|t| - 1]][..|t| - 1]
  }

  // ---- As a map ---------------------------------------------------------------------------------

  ghost predicate KeysUnique(t: seq<Mount>) {
    forall i, j | 0 <= i < |t| && 0 <= j < |t| && t[i].host == t[j].host && t[i].name == t[j].name :: i == j
  }

  lemma FindIs(t: seq<Mount>, k: nat, host: nat, name: string)
    requires KeysUnique(t) && k < |t| && Matches(t[k], host, name)
    ensures Find(t, host, name, 0) == k
  {
    var i := Find(t, host, name, 0);
    assert i <= k;
  }

  function AsMap(t: seq<Mount>): map<Key, nat> {
    if t == [] then map[] else AsMap(t[..|t| - 1])[(t[|t| - 1].host, t[|t| - 1].name) := t[|t| - 1].target]
  }

  lemma {:induction false} MapHolds(t: seq<Mount>, host: nat, name: string)
    requires KeysUnique(t)
    ensures (host, name) in AsMap(t) <==> Find(t, host, name, 0) < |t|
    ensures Find(t, host, name, 0) < |t| ==> AsMap(t)[(host, name)] == t[Find(t, host, name, 0)].target
  {
    if t != [] {
      var n := |t| - 1;
      MapHolds(t[..n], host, name);
      var j := Find(t[..n], host, name, 0);
      if Matches(t[n], host, name) {
        FindIs(t, n, host, name);
      } else if j < n {
        FindIs(t, j, host, name);
      } else {
        assert forall i | 0 <= i < n :: !Matches(t[..n][i], host, name) && t[..n][i] == t[i];
      }
    }
  }

  lemma AppendKeepsUnique(t: seq<Mount>, m: Mount)
    requires KeysUnique(t) && forall i | 0 <= i < |t| :: !Matches(t[i], m.host, m.name)
    ensures KeysUnique(t + [m])
  {
    var u := t + [m];
    forall i, j | 0 <= i < |u| && 0 <= j < |u| && u[i].host == u[j].host && u[i].name == u[j].name ensures i == j {
      assert i < |t| ==> u[i] == t[i] && !Matches(t[i], m.host, m.name);
      assert j < |t| ==> u[j] == t[j] && !Matches(t[j], m.host, m.name);
    }
  }

  /** Mounting adds one binding. */
  lemma MountIsInsert(t: seq<Mount>, m: Mount)
    requires KeysUnique(t) && Find(t, m.host, m.name, 0) == |t|
    ensures KeysUnique(t + [m]) && AsMap(t + [m]) == AsMap(t)[(m.host, m.name) := m.target]
  {
    AppendKeepsUnique(t, m);
    assert (t + [m])[..|t|] == t;
  }

  /** Keys stay unique exactly when the new entry's key, as stored, was free. */
  lemma AppendAndKeys(t: seq<Mount>, m: Mount)
    requires KeysUnique(t)
    ensures KeysUnique(t + [m]) <==> Find(t, m.host, m.name, 0) == |t|
  {
    var k := Find(t, m.host, m.name, 0);
    if k < |t| {
      var u := t + [m];
      assert u[k].host == u[|t|].host && u[k].name == u[|t|].name;
    } else {
      AppendKeepsUnique(t, m);
    }
  }

  /** `vfs_mount`: the name is compared as given and stored cut. */
  predicate CanMount(t: seq<Mount>, host: nat, name: string) {
    |t| < MOUNT_MAX && Find(t, host, name, 0) == |t|
  }

  /** A mount is found again under its name exactly when the name fits. */
  lemma FoundAgain(t: seq<Mount>, host: nat, name: string, target: nat)
    requires CanMount(t, host, name)
    ensures var u := t + [Mount(host, Cut(name), target)];
            Find(u, host, name, 0) < |u| <==> |name| <= NAME_ROOM
  {
    var u := t + [Mount(host, Cut(name), target)];
    var k := Find(u, host, name, 0);
    assert forall i | 0 <= i < |t| :: u[i] == t[i] && !Matches(t[i], host, name);
    if |name| <= NAME_ROOM {
      assert Matches(u[|t|], host, name);
    }
  }

  /** Any two names that differ only past the room for them can both be mounted, and then
      one key is there twice. */
  lemma LongNamesCollide(host: nat, p: string, x: string, y: string, a: nat, b: nat)
    requires |p| == NAME_ROOM && x != "" && y != ""
    ensures var t := [Mount(host, Cut(p + x), a)];
            var u := t + [Mount(host, Cut(p + y), b)];
            CanMount([], host, p + x) && CanMount(t, host, p + y) && KeysUnique(t) && !KeysUnique(u)
  {
    var t := [Mount(host, Cut(p + x), a)];
    var u := t + [Mount(host, Cut(p + y), b)];
    assert (p + x)[..NAME_ROOM] == p && (p + y)[..NAME_ROOM] == p;
    assert u[0].name == u[1].name == p && |p + y| > |p|;
  }

  /** Where an entry of the table after the swap was before. */
  function Was(t: seq<Mount>, k: nat, i: nat): (a: nat)
    requires k < |t| && i < |t| - 1
    ensures a < |t| && a != k && SwapOut(t, k)[i] == t[a]
  {
    if i == k then |t| - 1 else i
  }

  lemma SwapKeepsUnique(t: seq<Mount>, k: nat)
    requires KeysUnique(t) && k < |t|
    ensures KeysUnique(SwapOut(t, k))
  {
    var u := SwapOut(t, k);
    forall i, j | 0 <= i < |u| && 0 <= j < |u| && u[i].host == u[j].host && u[i].name == u[j].name ensures i == j {
      assert Was(t, k, i) == Was(t, k, j);
    }
  }

  /** A name is found after the swap exactly if it was found elsewhere than at `k`, with
      the same entry. */
  lemma SwapFinds(t: seq<Mount>, k: nat, host: nat, name: string)
    requires KeysUnique(t) && k < |t|
    ensures var u := SwapOut(t, k);
            var j, i := Find(u, host, name, 0), Find(t, host, name, 0);
            (j < |u| <==> i < |t| && i != k) && (j < |u| ==> u[j] == t[i])
  {
    var u, n := SwapOut(t, k), |t| - 1;
    SwapKeepsUnique(t, k);
    var j, i := Find(u, host, name, 0), Find(t, host, name, 0);
    if i < |t| && i != k {
      FindIs(u, if i == n then k else i, host, name);
    }
    if j < |u| {
      FindIs(t, Was(t, k, j), host, name);
    }
  }

  /** Unmounting removes one binding. */
  lemma UmountIsRemove(t: seq<Mount>, k: nat)
    requires KeysUnique(t) && k < |t|
    ensures KeysUnique(SwapOut(t, k)) && AsMap(SwapOut(t, k)) == AsMap(t) - {(t[k].host, t[k].name)}
  {
    SwapKeepsUnique(t, k);
    var u, m := AsMap(SwapOut(t, k)), AsMap(t) - {(t[k].host, t[k].name)};
    forall key: Key ensures key in u <==> key in m {
      UmountAt(t, k, key.0, key.1);
    }
    forall key: Key | key in u ensures u[key] == m[key] {
      UmountAt(t, k, key.0, key.1);
    }
  }

  lemma UmountAt(t: seq<Mount>, k: nat, host: nat, name: string)
    requires KeysUnique(t) && k < |t|
    ensures (host, name) in AsMap(SwapOut(t, k)) <==> (host, name) in AsMap(t) && !Matches(t[k], host, name)
    ensures (host, name) in AsMap(SwapOut(t, k)) ==> AsMap(SwapOut(t, k))[(host, name)] == AsMap(t)[(host, name)]
  {
    SwapKeepsUnique(t, k);
    MapHolds(t, host, name);
    MapHolds(SwapOut(t, k), host, name);
    SwapFinds(t, k, host, name);
    if Matches(t[k], host, name) {
      FindIs(t, k, host, name);
    }
  }

  class Mounts {
    var table: seq<Mount>

    constructor ()
      ensures table == []
    {
      table := [];
    }

    method Lookup(host: nat, name: string) returns (target: Option<nat>)
      ensures KeysUnique(table) ==> target == if (host, name) in AsMap(table) then Some(AsMap(table)[(host, name)]) else None
    {
      var k := Search(host, name);
      if KeysUnique(table) {
        MapHolds(table, host, name);
      }
      target := if k < |table| then Some(table[k].target) else None;
    }

    method Search(host: nat, name: string) returns (k: nat)
      ensures k == Find(table, host, name, 0)
    {
      k := 0;
      while k < |table| && !Matches(table[k], host, name)
        invariant k <= |table| && Find(table, host, name, 0) == Find(table, host, name, k)
      {
        k := k + 1;
      }
    }

    /** `vfs_mount`: refused when the table is full or the name is taken.  Keys stay unique
        exactly when the name as stored was free, in particular for names that fit. */
    method MountAt(host: nat, name: string, target: nat) returns (rc: int)
      modifies this
      ensures rc == (if CanMount(old(table), host, name) then 0 else -1)
      ensures rc != 0 ==> table == old(table)
      ensures rc == 0 ==> table == old(table) + [Mount(host, Cut(name), target)]
      ensures rc == 0 && KeysUnique(old(table)) ==>
                (KeysUnique(table) <==> Find(old(table), host, Cut(name), 0) == |old(table)|)
      ensures rc == 0 && KeysUnique(old(table)) && KeysUnique(table) ==>
                AsMap(table) == AsMap(old(table))[(host, Cut(name)) := target]
      ensures rc == 0 ==> (Find(table, host, name, 0) < |table| <==> |name| <= NAME_ROOM)
    {
      if |table| >= MOUNT_MAX {
        return -1;
      }
      var k := Search(host, name);
      if k < |table| {
        return -1;
      }
      FoundAgain(table, host, name, target);
      if KeysUnique(table) {
        AppendAndKeys(table, Mount(host, Cut(name), target));
        if Find(table, host, Cut(name), 0) == |table| {
          MountIsInsert(table, Mount(host, Cut(name), target));
        }
      }
      table := table + [Mount(host, Cut(name), target)];
      return 0;
    }

    /** `vfs_umount`. */
    method Umount(host: nat, name: string) returns (rc: int)
      modifies this
      ensures rc == if Find(old(table), host, name, 0) < |old(table)| then 0 else -1
      ensures rc != 0 ==> table == old(table)
      ensures rc == 0 && KeysUnique(old(table)) ==> KeysUnique(table) && AsMap(table) == AsMap(old(table)) - {(host, name)}
    {
      var k := Search(host, name);
      if k < |table| {
        if KeysUnique(table) {
          UmountIsRemove(table, k);
        }
        table := SwapOut(table, k);
        return 0;
      }
      return -1;
    }
  }
}
