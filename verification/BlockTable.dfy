/** The device table of the block layer (drivers/block/blkdev/blkdev.c): disks and their
    partitions in one array of slots that is never compacted. */
module BlockTable {
  import opened MachineInts

  const SLOTS: nat := 136
  const PARTS_PER_DISK: nat := 16
  const NAME_ROOM: nat := 14   // what the bounded copy of a name keeps
  const PART_NAME_ROOM: nat := 15

  datatype Dev = Dev(name: string, id: nat, maxLba: U32, parent: Option<nat>, start: U32, partNo: nat, ptype: nat, format: nat)

  type Slots = seq<Option<Dev>>

  datatype Table = Table(slots: Slots, count: int, boot: Option<nat>)

  predicate IsDisk(s: Option<Dev>) {
    s.Some? && s.value.parent == None
  }

  predicate IsPartOf(s: Option<Dev>, disk: nat) {
    s.Some? && s.value.parent == Some(disk)
  }

  /** Names longer than the field are cut. */
  function Cut(name: string, room: nat): (c: string)
    ensures |name| <= room ==> c == name
  {
    if |name| <= room then name else name[..room]
  }

  // ---- Scans over the slots -------------------------------------------------------------------

  /** The first free slot from `i` on, or the number of slots. */
  function FirstFree(s: Slots, i: nat): (k: nat)
    requires i <= |s|
    ensures i <= k <= |s| && (k < |s| ==> s[k] == None) && forall j | i <= j < k :: s[j].Some?
    decreases |s| - i
  {
    if i == |s| || s[i] == None then i else FirstFree(s, i + 1)
  }

  function Find(s: Slots, name: string, i: nat): (k: nat)
    requires i <= |s|
    ensures i <= k <= |s| && (k < |s| ==> s[k].Some? && s[k].value.name == name)
    ensures forall j | i <= j < k :: s[j].Some? ==> s[j].value.name != name
    decreases |s| - i
  {
    if i == |s| || (s[i].Some? && s[i].value.name == name) then i else Find(s, name, i + 1)
  }

  function FirstDisk(s: Slots, i: nat): (k: nat)
    requires i <= |s|
    ensures i <= k <= |s| && (k < |s| ==> IsDisk(s[k])) && forall j | i <= j < k :: !IsDisk(s[j])
    decreases |s| - i
  {
    if i == |s| || IsDisk(s[i]) then i else FirstDisk(s, i + 1)
  }

  function Used(s: Slots): nat {
    if s == [] then 0 else Used(s[..|s| - 1]) + if s[|s| - 1].Some? then 1 else 0
  }

  function Parts(s: Slots, disk: nat): nat {
    if s == [] then 0 else Parts(s[..|s| - 1], disk) + if IsPartOf(s[|s| - 1], disk) then 1 else 0
  }

  function Cleared(s: Slots, disk: nat): (c: Slots)
    ensures |c| == |s| && forall i | 0 <= i < |s| :: c[i] == if IsPartOf(s[i], disk) then None else s[i]
  {
    seq(|s|, i requires 0 <= i < |s| => if IsPartOf(s[i], disk) then None else s[i])
  }

  // ---- Operations -----------------------------------------------------------------------------

  const EMPTY: Table := Table(seq(SLOTS, i => None), 0, None)

  function Insert(t: Table, idx: nat, d: Dev): Table
    requires idx < |t.slots|
  {
    t.(slots := t.slots[idx := Some(d)], count := t.count + 1)
  }

  /** `register_blkdev`: 0, or why not. */
  function RegisterError(t: Table, name: string): int {
    if name == "" then -1
    else if Find(t.slots, name, 0) < |t.slots| then -3
    else if FirstFree(t.slots, 0) == |t.slots| then -2
    else 0
  }

  function Register(t: Table, name: string, maxLba: U32): Table {
    if RegisterError(t, name) != 0 then t
    else
      var idx := FirstFree(t.slots, 0);
      var u := Insert(t, idx, Dev(Cut(name, NAME_ROOM), idx, maxLba, None, 0, 0, 0, 0));
      if u.boot == None then u.(boot := Some(idx)) else u
  }

  function Clear(t: Table, disk: nat): Table {
    Table(Cleared(t.slots, disk), t.count - Parts(t.slots, disk), t.boot)
  }

  function PickBoot(s: Slots): Option<nat> {
    var k := FirstDisk(s, 0);
    if k < |s| then Some(k) else None
  }

  function Unregister(t: Table, name: string): Table {
    var k := Find(t.slots, name, 0);
    if k == |t.slots| || !IsDisk(t.slots[k]) then t
    else
      var u := Clear(t, k);
      var s := u.slots[k := None];
      Table(s, u.count - 1, PickBoot(s))
  }

  function Digits(n: nat): string {
    if n < 10 then [Digit(n)] else Digits(n / 10) + [Digit(n % 10)]
  }

  function Digit(n: nat): char
    requires n < 10
  {
    '0' + n as char
  }

  predicate EndsInDigit(name: string) {
    name != "" && '0' <= name[|name| - 1] <= '9'
  }

  function PartitionName(disk: string, partNo: nat): string {
    Cut(disk + (if EndsInDigit(disk) then "p" else "") + Digits(partNo), PART_NAME_ROOM)
  }

  predicate CanAdd(t: Table, disk: nat, partNo: nat, start: U32, len: U32)
    requires disk < |t.slots| && t.slots[disk].Some?
  {
    var d := t.slots[disk].value;
    && d.parent == None && partNo > 0 && len > 0 && Parts(t.slots, disk) < PARTS_PER_DISK
    && start < d.maxLba && len <= d.maxLba - start
    && Find(t.slots, PartitionName(d.name, partNo), 0) == |t.slots|
    && FirstFree(t.slots, 0) < |t.slots|
  }

  function AddPartition(t: Table, disk: nat, partNo: nat, start: U32, len: U32, ptype: nat, format: nat): Table
    requires disk < |t.slots| && t.slots[disk].Some?
  {
    if !CanAdd(t, disk, partNo, start, len) then t
    else
      var idx := FirstFree(t.slots, 0);
      Insert(t, idx, Dev(Cut(PartitionName(t.slots[disk].value.name, partNo), NAME_ROOM), idx, len, Some(disk), start, partNo, ptype, format))
  }

  // ---- The invariant --------------------------------------------------------------------------

  /** The device in slot `i` is a disk, or a partition inside a live disk. */
  ghost predicate SlotOk(s: Slots, i: nat)
    requires i < |s|
  {
    s[i].Some? ==>
      var d := s[i].value;
      && d.id == i
      && (d.parent == None ==> d.start == 0 && d.partNo == 0)
      && (d.parent.Some? ==>
            && d.parent.value < |s| && IsDisk(s[d.parent.value]) && d.partNo > 0 && d.maxLba > 0
            && d.start + d.maxLba <= s[d.parent.value].value.maxLba)
  }

  ghost predicate SlotsOk(s: Slots) {
    |s| == SLOTS && forall i | 0 <= i < |s| :: SlotOk(s, i)
  }

  /** The boot device is a live disk, and there is one exactly if there is any disk. */
  ghost predicate BootOk(t: Table) {
    && (t.boot.Some? ==> t.boot.value < |t.slots| && IsDisk(t.slots[t.boot.value]))
    && (t.boot == None ==> forall i | 0 <= i < |t.slots| :: !IsDisk(t.slots[i]))
  }

  ghost predicate PartsBounded(s: Slots) {
    forall disk: nat :: Parts(s, disk) <= PARTS_PER_DISK
  }

  ghost predicate TableOk(t: Table) {
    SlotsOk(t.slots) && t.count == Used(t.slots) && BootOk(t) && PartsBounded(t.slots)
  }

  // ---- Counting ---------------------------------------------------------------------------------

  lemma {:induction false} SetCounts(s: Slots, i: nat, v: Option<Dev>, disk: nat)
    requires i < |s|
    ensures Used(s[i := v]) == Used(s) - (if s[i].Some? then 1 else 0) + (if v.Some? then 1 else 0)
    ensures Parts(s[i := v], disk) == Parts(s, disk) - (if IsPartOf(s[i], disk) then 1 else 0) + (if IsPartOf(v, disk) then 1 else 0)
  {
    var n := |s| - 1;
    if i < n {
      SetCounts(s[..n], i, v, disk);
      assert s[i := v][..n] == s[..n][i := v];
    } else {
      assert s[i := v][..n] == s[..n];
    }
  }

  lemma {:induction false} ClearCounts(s: Slots, disk: nat, other: nat)
    ensures Used(Cleared(s, disk)) == Used(s) - Parts(s, disk)
    ensures Parts(Cleared(s, disk), other) == if other == disk then 0 else Parts(s, other)
  {
    if s != [] {
      var n := |s| - 1;
      ClearCounts(s[..n], disk, other);
      assert Cleared(s, disk)[..n] == Cleared(s[..n], disk);
    }
  }

  lemma {:induction false} PartsFewer(s: Slots, disk: nat)
    ensures Parts(s, disk) <= Used(s)
  {
    if s != [] {
      PartsFewer(s[..|s| - 1], disk);
    }
  }

  /** A disk counts besides its partitions. */
  lemma RemoveCounts(s: Slots, k: nat)
    requires k < |s| && IsDisk(s[k])
    ensures Used(Cleared(s, k)[k := None]) == Used(s) - Parts(s, k) - 1 >= 0
  {
    ClearCounts(s, k, k);
    SetCounts(Cleared(s, k), k, None, k);
  }

  // ---- Every operation keeps it -----------------------------------------------------------------

  lemma EmptyIsOk()
    ensures TableOk(EMPTY)
  {
    NoneCounts(EMPTY.slots);
    forall disk: nat ensures Parts(EMPTY.slots, disk) <= PARTS_PER_DISK {
      PartsFewer(EMPTY.slots, disk);
    }
  }

  lemma {:induction false} NoneCounts(s: Slots)
    requires forall i | 0 <= i < |s| :: s[i] == None
    ensures Used(s) == 0
  {
    if s != [] {
      NoneCounts(s[..|s| - 1]);
    }
  }

  lemma InsertKeepsSlots(s: Slots, idx: nat, d: Dev)
    requires SlotsOk(s) && idx < |s| && s[idx] == None && d.id == idx
    requires d.parent == None ==> d.start == 0 && d.partNo == 0
    requires d.parent.Some? ==> d.parent.value < |s| && IsDisk(s[d.parent.value]) && d.partNo > 0 && d.maxLba > 0
                                && d.start + d.maxLba <= s[d.parent.value].value.maxLba
    ensures SlotsOk(s[idx := Some(d)])
  {
    var u := s[idx := Some(d)];
    forall i | 0 <= i < |s| ensures SlotOk(u, i) {
      assert SlotOk(s, i);
    }
  }

  lemma RegisterKeeps(t: Table, name: string, maxLba: U32)
    requires TableOk(t)
    ensures TableOk(Register(t, name, maxLba))
  {
    var u := Register(t, name, maxLba);
    if RegisterError(t, name) == 0 {
      var idx := FirstFree(t.slots, 0);
      var d := Dev(Cut(name, NAME_ROOM), idx, maxLba, None, 0, 0, 0, 0);
      InsertKeepsSlots(t.slots, idx, d);
      forall disk: nat ensures Parts(u.slots, disk) <= PARTS_PER_DISK {
        SetCounts(t.slots, idx, Some(d), disk);
      }
      SetCounts(t.slots, idx, Some(d), 0);
    }
  }

  lemma AddPartitionKeeps(t: Table, disk: nat, partNo: nat, start: U32, len: U32, ptype: nat, format: nat)
    requires TableOk(t) && disk < |t.slots| && t.slots[disk].Some?
    ensures TableOk(AddPartition(t, disk, partNo, start, len, ptype, format))
  {
    var u := AddPartition(t, disk, partNo, start, len, ptype, format);
    if CanAdd(t, disk, partNo, start, len) {
      var idx := FirstFree(t.slots, 0);
      InsertKeepsSlots(t.slots, idx, u.slots[idx].value);
      forall d: nat ensures Parts(u.slots, d) <= PARTS_PER_DISK {
        SetCounts(t.slots, idx, u.slots[idx], d);
      }
      SetCounts(t.slots, idx, u.slots[idx], 0);
      forall i | 0 <= i < |t.slots| ensures IsDisk(u.slots[i]) == IsDisk(t.slots[i]) {
      }
    }
  }

  lemma ClearKeeps(t: Table, disk: nat)
    requires TableOk(t)
    ensures TableOk(Clear(t, disk)) && Parts(Clear(t, disk).slots, disk) == 0
  {
    var u := Clear(t, disk);
    forall i | 0 <= i < |u.slots| ensures SlotOk(u.slots, i) {
      assert SlotOk(t.slots, i);
    }
    forall d: nat ensures Parts(u.slots, d) <= PARTS_PER_DISK {
      ClearCounts(t.slots, disk, d);
    }
    ClearCounts(t.slots, disk, disk);
    forall i | 0 <= i < |t.slots| ensures IsDisk(u.slots[i]) == IsDisk(t.slots[i]) {
    }
  }

  lemma UnregisterKeeps(t: Table, name: string)
    requires TableOk(t)
    ensures TableOk(Unregister(t, name))
  {
    var k := Find(t.slots, name, 0);
    if k < |t.slots| && IsDisk(t.slots[k]) {
      ClearKeeps(t, k);
      RemoveKeepsSlots(Clear(t, k).slots, k);
      RemoveCounts(t.slots, k);
      var s := Clear(t, k).slots;
      var u := s[k := None];
      forall d: nat ensures Parts(u, d) <= PARTS_PER_DISK {
        SetCounts(s, k, None, d);
      }
    }
  }

  /** A disk with no partitions can go. */
  lemma RemoveKeepsSlots(s: Slots, k: nat)
    requires SlotsOk(s) && k < |s| && forall i | 0 <= i < |s| :: !IsPartOf(s[i], k)
    ensures SlotsOk(s[k := None])
  {
    var u := s[k := None];
    forall i | 0 <= i < |s| ensures SlotOk(u, i) {
      assert SlotOk(s, i) && !IsPartOf(s[i], k);
    }
  }

  // ---- Names --------------------------------------------------------------------------------------

  ghost predicate UniqueNames(s: Slots) {
    forall i, j | 0 <= i < j < |s| && s[i].Some? && s[j].Some? :: s[i].value.name != s[j].value.name
  }

  /** A new device keeps names unique exactly when its name, as cut, is not taken. */
  lemma InsertKeepsNamesUnique(s: Slots, idx: nat, d: Dev)
    requires UniqueNames(s) && idx < |s| && s[idx] == None
    ensures UniqueNames(s[idx := Some(d)]) <==> Find(s, d.name, 0) == |s|
  {
    var u := s[idx := Some(d)];
    var k := Find(s, d.name, 0);
    if k < |s| {
      assert u[k].value.name == u[idx].value.name;
    } else {
      forall i, j | 0 <= i < j < |u| && u[i].Some? && u[j].Some? ensures u[i].value.name != u[j].value.name {
      }
    }
  }

  /** Registration compares the name as given but stores it cut: names stay unique
      exactly when the cut name was free, in particular for names that fit. */
  lemma RegisterAndNames(t: Table, name: string, maxLba: U32)
    requires UniqueNames(t.slots) && RegisterError(t, name) == 0
    ensures UniqueNames(Register(t, name, maxLba).slots) <==> Find(t.slots, Cut(name, NAME_ROOM), 0) == |t.slots|
    ensures |name| <= NAME_ROOM ==> UniqueNames(Register(t, name, maxLba).slots)
  {
    var idx := FirstFree(t.slots, 0);
    InsertKeepsNamesUnique(t.slots, idx, Dev(Cut(name, NAME_ROOM), idx, maxLba, None, 0, 0, 0, 0));
  }

  lemma AddPartitionAndNames(t: Table, disk: nat, partNo: nat, start: U32, len: U32, ptype: nat, format: nat)
    requires UniqueNames(t.slots) && disk < |t.slots| && t.slots[disk].Some? && CanAdd(t, disk, partNo, start, len)
    ensures UniqueNames(AddPartition(t, disk, partNo, start, len, ptype, format).slots)
            <==> Find(t.slots, Cut(PartitionName(t.slots[disk].value.name, partNo), NAME_ROOM), 0) == |t.slots|
    ensures |PartitionName(t.slots[disk].value.name, partNo)| <= NAME_ROOM
            ==> UniqueNames(AddPartition(t, disk, partNo, start, len, ptype, format).slots)
  {
    var idx := FirstFree(t.slots, 0);
    InsertKeepsNamesUnique(t.slots, idx, AddPartition(t, disk, partNo, start, len, ptype, format).slots[idx].value);
  }

  lemma RemovalKeepsNamesUnique(t: Table, name: string, disk: nat)
    requires UniqueNames(t.slots)
    ensures UniqueNames(Clear(t, disk).slots) && UniqueNames(Unregister(t, name).slots)
  {
  }

  /** Unregistering a disk by the name it was registered under undoes the registration
      exactly when the name fits; a longer name is not found again. */
  lemma UnregisterUndoesRegister(t: Table, name: string, maxLba: U32)
    requires TableOk(t) && RegisterError(t, name) == 0
    ensures TableOk(Register(t, name, maxLba))
    ensures var u := Register(t, name, maxLba);
            var v := Unregister(u, name);
            && (v.slots == t.slots <==> |name| <= NAME_ROOM)
            && (|name| <= NAME_ROOM ==> v.count == t.count && v.boot == PickBoot(t.slots))
            && (|name| > NAME_ROOM ==> v == u)
  {
    RegisterKeeps(t, name, maxLba);
    var idx := FirstFree(t.slots, 0);
    var u := Register(t, name, maxLba);
    var k := Find(u.slots, name, 0);
    assert forall j | 0 <= j < |t.slots| && j != idx :: u.slots[j] == t.slots[j];
    assert k < |u.slots| ==> k == idx;
    if |name| <= NAME_ROOM {
      assert u.slots[idx].Some? && u.slots[idx].value.name == name;
      assert k == idx;
      forall j | 0 <= j < |t.slots| ensures !IsPartOf(u.slots[j], idx) {
        assert SlotOk(t.slots, j);
      }
      RemoveCounts(u.slots, idx);
      assert Cleared(u.slots, idx)[idx := None] == t.slots;
    } else {
      assert u.slots[idx].value.name != name;
      assert u.slots[idx] != t.slots[idx];
    }
  }

  /** Two names that differ only past the cut end up the same. */
  lemma LongNamesCollide(maxLba: U32)
    ensures var t := Register(Register(EMPTY, "abcdefghijklmno", maxLba), "abcdefghijklmnp", maxLba);
            TableOk(t) && !UniqueNames(t.slots)
  {
    var one := Register(EMPTY, "abcdefghijklmno", maxLba);
    EmptyIsOk();
    RegisterKeeps(EMPTY, "abcdefghijklmno", maxLba);
    RegisterKeeps(one, "abcdefghijklmnp", maxLba);
    assert FirstFree(EMPTY.slots, 0) == 0;
    assert one.slots[0].value.name == "abcdefghijklmn";
    assert forall i | 1 <= i < SLOTS :: one.slots[i] == None;
    assert FirstFree(one.slots, 0) == 1;
    var two := Register(one, "abcdefghijklmnp", maxLba);
    assert two.slots[1].value.name == "abcdefghijklmn" && two.slots[0] == one.slots[0];
  }
}
