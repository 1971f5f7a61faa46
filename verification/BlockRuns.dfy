/** The block layer over whole runs (drivers/block/blkdev/blkdev.c and part.c): disks come
    and go, are scanned as they appear and again on request, and partitions are added and
    dropped, in any order. */
module BlockRuns {
  import opened MachineInts
  import opened ImageBytes
  import opened BlockTable
  import opened PartitionScan

  datatype Op =
    | DoRegister(name: string, maxLba: U32)   // before the partition layer is armed
    | DoPlug(name: string, maxLba: U32, data: seq<Byte>, past: nat -> Byte)
    | DoUnregister(name: string)
    | DoAdd(disk: nat, partNo: nat, start: U32, len: U32, ptype: nat, format: nat)
    | DoClear(disk: nat)
    | DoScan(disk: nat, data: seq<Byte>, past: nat -> Byte)

  /** Slot `disk` holds a disk whose sectors are `data`. */
  predicate Holds(t: Table, disk: nat, data: seq<Byte>) {
    disk < |t.slots| && IsDisk(t.slots[disk]) && |data| == SECTOR * t.slots[disk].value.maxLba
  }

  function Rescan(t: Table, disk: nat, data: seq<Byte>, past: nat -> Byte): Table {
    if Holds(t, disk, data) then Scan(t, disk, data, past) else t
  }

  /** The table after one operation.  Nothing happens where an operation names no live
      device, or contents that are not a disk's. */
  function Do(t: Table, op: Op): Table {
    match op
    case DoRegister(name, maxLba) => Register(t, name, maxLba)
    case DoPlug(name, maxLba, data, past) =>
      if RegisterError(t, name) != 0 then t else Rescan(Register(t, name, maxLba), FirstFree(t.slots, 0), data, past)
    case DoUnregister(name) => Unregister(t, name)
    case DoAdd(disk, partNo, start, len, ptype, format) =>
      if disk < |t.slots| && t.slots[disk].Some? then AddPartition(t, disk, partNo, start, len, ptype, format) else t
    case DoClear(disk) => Clear(t, disk)
    case DoScan(disk, data, past) => Rescan(t, disk, data, past)
  }

  function After(t: Table, ops: seq<Op>): Table
    decreases |ops|
  {
    if ops == [] then t else After(Do(t, ops[0]), ops[1..])
  }

  // ---- The table stays well formed ---------------------------------------------------------------

  lemma RescanKeeps(t: Table, disk: nat, data: seq<Byte>, past: nat -> Byte)
    requires TableOk(t)
    ensures TableOk(Rescan(t, disk, data, past))
  {
    if Holds(t, disk, data) {
      ScanKeeps(t, disk, data, past);
    }
  }

  lemma DoKeeps(t: Table, op: Op)
    requires TableOk(t)
    ensures TableOk(Do(t, op))
  {
    match op
    case DoRegister(name, maxLba) => RegisterKeeps(t, name, maxLba);
    case DoPlug(name, maxLba, data, past) =>
      RegisterKeeps(t, name, maxLba);
      RescanKeeps(Register(t, name, maxLba), FirstFree(t.slots, 0), data, past);
    case DoUnregister(name) => UnregisterKeeps(t, name);
    case DoAdd(disk, partNo, start, len, ptype, format) =>
      if disk < |t.slots| && t.slots[disk].Some? {
        AddPartitionKeeps(t, disk, partNo, start, len, ptype, format);
      }
    case DoClear(disk) => ClearKeeps(t, disk);
    case DoScan(disk, data, past) => RescanKeeps(t, disk, data, past);
  }

  /** Whatever is done, in whatever order, the table stays well formed. */
  lemma {:induction false} EveryTableIsOk(t: Table, ops: seq<Op>)
    requires TableOk(t)
    ensures TableOk(After(t, ops))
    decreases |ops|
  {
    if ops != [] {
      DoKeeps(t, ops[0]);
      EveryTableIsOk(Do(t, ops[0]), ops[1..]);
    }
  }

  lemma EveryReachableTableIsOk(ops: seq<Op>)
    ensures TableOk(After(EMPTY, ops))
  {
    EmptyIsOk();
    EveryTableIsOk(EMPTY, ops);
  }

  // ---- Names stay unique ---------------------------------------------------------------------------

  predicate ExtentsFit(name: string, es: seq<Extent>) {
    forall e | e in es :: |PartitionName(name, e.partNo)| <= NAME_ROOM
  }

  predicate LabelFits(name: string, data: seq<Byte>, past: nat -> Byte) {
    |data| >= 2 * SECTOR ==> ExtentsFit(name, Label(data, past).1)
  }

  /** No name this operation stores is cut. */
  predicate Fitting(t: Table, op: Op) {
    match op
    case DoRegister(name, _) => |name| <= NAME_ROOM
    case DoPlug(name, _, data, past) => |name| <= NAME_ROOM && LabelFits(name, data, past)
    case DoAdd(disk, partNo, _, _, _, _) =>
      disk < |t.slots| && IsDisk(t.slots[disk]) ==> |PartitionName(t.slots[disk].value.name, partNo)| <= NAME_ROOM
    case DoScan(disk, data, past) =>
      Holds(t, disk, data) ==> LabelFits(t.slots[disk].value.name, data, past)
    case _ => true
  }

  predicate RunFits(t: Table, ops: seq<Op>)
    decreases |ops|
  {
    ops == [] || (Fitting(t, ops[0]) && RunFits(Do(t, ops[0]), ops[1..]))
  }

  lemma {:induction false} CreateAllAndNames(t: Table, disk: nat, es: seq<Extent>, format: nat)
    requires disk < |t.slots| && t.slots[disk].Some? && UniqueNames(t.slots) && ExtentsFit(t.slots[disk].value.name, es)
    ensures UniqueNames(CreateAll(t, disk, es, format).slots)
    decreases |es|
  {
    if es != [] {
      var e := es[0];
      if e.start <= 0xFFFF_FFFF && e.len <= 0xFFFF_FFFF && CanAdd(t, disk, e.partNo, e.start, e.len) {
        AddPartitionAndNames(t, disk, e.partNo, e.start, e.len, e.ptype, format);
      }
      CreateAllAndNames(Create(t, disk, e, format), disk, es[1..], format);
    }
  }

  lemma RescanAndNames(t: Table, disk: nat, data: seq<Byte>, past: nat -> Byte)
    requires UniqueNames(t.slots)
    requires Holds(t, disk, data) ==> LabelFits(t.slots[disk].value.name, data, past)
    ensures UniqueNames(Rescan(t, disk, data, past).slots)
  {
    if Holds(t, disk, data) && t.slots[disk].value.maxLba >= 2 {
      RemovalKeepsNamesUnique(t, "", disk);
      CreateAllAndNames(Clear(t, disk), disk, Label(data, past).1, Label(data, past).0);
    }
  }

  lemma DoKeepsNames(t: Table, op: Op)
    requires UniqueNames(t.slots) && Fitting(t, op)
    ensures UniqueNames(Do(t, op).slots)
  {
    match op
    case DoRegister(name, maxLba) =>
      if RegisterError(t, name) == 0 {
        RegisterAndNames(t, name, maxLba);
      }
    case DoPlug(name, maxLba, data, past) =>
      if RegisterError(t, name) == 0 {
        RegisterAndNames(t, name, maxLba);
        RescanAndNames(Register(t, name, maxLba), FirstFree(t.slots, 0), data, past);
      }
    case DoUnregister(name) => RemovalKeepsNamesUnique(t, name, 0);
    case DoAdd(disk, partNo, start, len, ptype, format) =>
      if disk < |t.slots| && t.slots[disk].Some? && CanAdd(t, disk, partNo, start, len) {
        AddPartitionAndNames(t, disk, partNo, start, len, ptype, format);
      }
    case DoClear(disk) => RemovalKeepsNamesUnique(t, "", disk);
    case DoScan(disk, data, past) => RescanAndNames(t, disk, data, past);
  }

  /** As long as no stored name is cut, no two live devices ever have the same name. */
  lemma {:induction false} EveryTableHasUniqueNames(t: Table, ops: seq<Op>)
    requires UniqueNames(t.slots) && RunFits(t, ops)
    ensures UniqueNames(After(t, ops).slots)
    decreases |ops|
  {
    if ops != [] {
      DoKeepsNames(t, ops[0]);
      EveryTableHasUniqueNames(Do(t, ops[0]), ops[1..]);
    }
  }

  // ---- Short disk names ------------------------------------------------------------------------------

  const SHORT: nat := 11   // leaves room for "p" and two digits

  /** What a caller can see to it that: short disk names, and two-digit partition numbers. */
  predicate Short(op: Op) {
    match op
    case DoRegister(name, _) => |name| <= SHORT
    case DoPlug(name, _, _, _) => |name| <= SHORT
    case DoAdd(_, partNo, _, _, _, _) => partNo < 100
    case _ => true
  }

  ghost predicate ShortDisks(s: Slots) {
    forall i | 0 <= i < |s| && IsDisk(s[i]) :: |s[i].value.name| <= SHORT
  }

  lemma ShortNameFits(name: string, partNo: nat)
    requires |name| <= SHORT && partNo < 100
    ensures |PartitionName(name, partNo)| <= NAME_ROOM
  {
    if partNo >= 10 {
      assert |BlockTable.Digits(partNo / 10)| == 1;
    }
  }

  lemma {:induction false} MbrNumbers(sec: seq<Byte>, i: nat)
    requires |sec| == SECTOR && i <= 4
    ensures forall e | e in MbrFrom(sec, i) :: e.partNo <= 4
    decreases 4 - i
  {
    if i < 4 {
      MbrNumbers(sec, i + 1);
    }
  }

  lemma {:induction false} GptNumbers(b: seq<Byte>, past: nat -> Byte, size: nat, n: nat, i: nat)
    requires i <= n
    ensures forall e | e in GptFrom(b, past, size, n, i) :: e.partNo <= n
    decreases n - i
  {
    if i < n {
      GptNumbers(b, past, size, n, i + 1);
    }
  }

  lemma ShortLabelFits(name: string, data: seq<Byte>, past: nat -> Byte)
    requires |name| <= SHORT
    ensures LabelFits(name, data, past)
  {
    if |data| >= 2 * SECTOR {
      MbrNumbers(data[..SECTOR], 0);
      GptLabelNumbers(data, past);
      forall e | e in Label(data, past).1 ensures |PartitionName(name, e.partNo)| <= NAME_ROOM {
        ShortNameFits(name, e.partNo);
      }
    }
  }

  lemma GptLabelNumbers(data: seq<Byte>, past: nat -> Byte)
    requires |data| >= 2 * SECTOR
    ensures forall e | e in GptExtents(data, past) :: e.partNo <= PARTS_PER_DISK
  {
    var h := data[SECTOR..2 * SECTOR];
    if GptHeaderOk(h) {
      GptNumbers(EntryArray(data, Rd64(h, 72), EntryCount(h) * Rd32(h, 84)), past, Rd32(h, 84), EntryCount(h), 0);
    }
  }

  lemma {:induction false} CreateAllKeepsDisks(t: Table, disk: nat, es: seq<Extent>, format: nat)
    requires disk < |t.slots| && t.slots[disk].Some? && ShortDisks(t.slots)
    ensures ShortDisks(CreateAll(t, disk, es, format).slots)
    decreases |es|
  {
    if es != [] {
      CreateAllKeepsDisks(Create(t, disk, es[0], format), disk, es[1..], format);
    }
  }

  lemma RescanKeepsDisks(t: Table, disk: nat, data: seq<Byte>, past: nat -> Byte)
    requires ShortDisks(t.slots)
    ensures ShortDisks(Rescan(t, disk, data, past).slots)
  {
    if Holds(t, disk, data) && t.slots[disk].value.maxLba >= 2 {
      CreateAllKeepsDisks(Clear(t, disk), disk, Label(data, past).1, Label(data, past).0);
    }
  }

  lemma ShortFits(t: Table, op: Op)
    requires ShortDisks(t.slots) && Short(op)
    ensures Fitting(t, op)
  {
    match op
    case DoPlug(name, _, data, past) => ShortLabelFits(name, data, past);
    case DoAdd(disk, partNo, _, _, _, _) =>
      if disk < |t.slots| && IsDisk(t.slots[disk]) {
        ShortNameFits(t.slots[disk].value.name, partNo);
      }
    case DoScan(disk, data, past) =>
      if Holds(t, disk, data) {
        ShortLabelFits(t.slots[disk].value.name, data, past);
      }
    case _ =>
  }

  lemma DisksStayShort(t: Table, op: Op)
    requires ShortDisks(t.slots) && Short(op)
    ensures ShortDisks(Do(t, op).slots)
  {
    match op
    case DoPlug(name, maxLba, data, past) =>
      RescanKeepsDisks(Register(t, name, maxLba), FirstFree(t.slots, 0), data, past);
    case DoScan(disk, data, past) => RescanKeepsDisks(t, disk, data, past);
    case _ =>
  }

  /** With short disk names no name is ever cut, so names are unique over every run. */
  lemma {:induction false} ShortRunFits(t: Table, ops: seq<Op>)
    requires ShortDisks(t.slots) && forall op | op in ops :: Short(op)
    ensures RunFits(t, ops)
    decreases |ops|
  {
    if ops != [] {
      ShortFits(t, ops[0]);
      DisksStayShort(t, ops[0]);
      ShortRunFits(Do(t, ops[0]), ops[1..]);
    }
  }

  lemma ShortNamesStayUnique(ops: seq<Op>)
    requires forall op | op in ops :: Short(op)
    ensures UniqueNames(After(EMPTY, ops).slots)
  {
    ShortRunFits(EMPTY, ops);
    EveryTableHasUniqueNames(EMPTY, ops);
  }

  /** A disk whose name fills the field shares it with any partition it gets. */
  lemma FullNameIsShared(t: Table, disk: nat, partNo: nat, start: U32, len: U32, ptype: nat, format: nat)
    requires disk < |t.slots| && t.slots[disk].Some? && CanAdd(t, disk, partNo, start, len)
    requires |t.slots[disk].value.name| == NAME_ROOM
    ensures !UniqueNames(AddPartition(t, disk, partNo, start, len, ptype, format).slots)
  {
    var u := AddPartition(t, disk, partNo, start, len, ptype, format);
    var idx := FirstFree(t.slots, 0);
    var name := t.slots[disk].value.name;
    assert Cut(PartitionName(name, partNo), NAME_ROOM) == name;
    assert u.slots[idx].value.name == u.slots[disk].value.name;
  }
}
