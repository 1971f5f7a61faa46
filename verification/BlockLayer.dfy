/** The block layer as it runs: the device table changed in place, slot by slot
    (drivers/block/blkdev/blkdev.c), and the label of a disk read entry by entry
    (drivers/block/blkdev/part.c).  Each method is the table operation of the same name. */
module BlockLayer {
  import opened MachineInts
  import opened ImageBytes
  import opened BlockTable
  import opened PartitionScan
  import BlockRuns

  class BlockLayer {
    var slots: Slots
    var count: int
    var boot: Option<nat>

    ghost function View(): Table
      reads this
    {
      Table(slots, count, boot)
    }

    constructor ()
      ensures View() == EMPTY && TableOk(View())
    {
      slots, count, boot := EMPTY.slots, 0, None;
      new;
      EmptyIsOk();
    }

    method AllocSlot() returns (k: nat)
      ensures k == FirstFree(slots, 0)
    {
      k := 0;
      while k < |slots| && slots[k].Some?
        invariant k <= |slots| && FirstFree(slots, 0) == FirstFree(slots, k)
      {
        k := k + 1;
      }
    }

    method FindDevice(name: string) returns (k: nat)
      ensures k == Find(slots, name, 0)
    {
      k := 0;
      while k < |slots| && !(slots[k].Some? && slots[k].value.name == name)
        invariant k <= |slots| && Find(slots, name, 0) == Find(slots, name, k)
      {
        k := k + 1;
      }
    }

    method PickBootDevice()
      modifies `boot
      ensures boot == PickBoot(slots)
    {
      boot := None;
      var i := 0;
      while i < |slots|
        invariant i <= |slots| && boot == None && FirstDisk(slots, 0) == FirstDisk(slots, i)
      {
        if IsDisk(slots[i]) {
          boot := Some(i);
          return;
        }
        i := i + 1;
      }
    }

    method PartCount(disk: nat) returns (n: nat)
      ensures n == Parts(slots, disk)
    {
      n := 0;
      for i := 0 to |slots|
        invariant n == Parts(slots[..i], disk)
      {
        assert slots[..i + 1][..i] == slots[..i];
        if IsPartOf(slots[i], disk) {
          n := n + 1;
        }
      }
      assert slots[..|slots|] == slots;
    }

    method RegisterDisk(name: string, maxLba: U32) returns (rc: int)
      requires TableOk(View())
      modifies this
      ensures rc == RegisterError(old(View()), name) && View() == Register(old(View()), name, maxLba) && TableOk(View())
    {
      RegisterKeeps(View(), name, maxLba);
      if name == "" {
        return -1;
      }
      var k := FindDevice(name);
      if k < |slots| {
        return -3;
      }
      var idx := AllocSlot();
      if idx == |slots| {
        return -2;
      }
      slots := slots[idx := Some(Dev(Cut(name, NAME_ROOM), idx, maxLba, None, 0, 0, 0, 0))];
      count := count + 1;
      if boot == None {
        boot := Some(idx);
      }
      return 0;
    }

    method ClearPartitions(disk: nat) returns (n: nat)
      requires TableOk(View())
      modifies `slots, `count
      ensures n == Parts(old(slots), disk) && View() == Clear(old(View()), disk) && TableOk(View())
    {
      ClearKeeps(View(), disk);
      n := 0;
      ghost var was := slots;
      for i := 0 to |slots|
        invariant |slots| == |was| && count + n == old(count) && n == Parts(was[..i], disk)
        invariant forall j | 0 <= j < |was| :: slots[j] == if j < i && IsPartOf(was[j], disk) then None else was[j]
      {
        assert was[..i + 1][..i] == was[..i];
        PartsOfPrefix(was, disk, i + 1);
        if IsPartOf(slots[i], disk) {
          slots := slots[i := None];
          count := count - 1;
          n := n + 1;
        }
      }
      assert was[..|was|] == was;
      assert slots == Cleared(was, disk);
    }

    method UnregisterDisk(name: string)
      requires TableOk(View())
      modifies this
      ensures View() == Unregister(old(View()), name) && TableOk(View())
    {
      UnregisterKeeps(View(), name);
      var k := FindDevice(name);
      if k == |slots| || !IsDisk(slots[k]) {
        return;
      }
      RemoveCounts(slots, k);
      var n := ClearPartitions(k);
      slots := slots[k := None];
      count := count - 1;
      PickBootDevice();
    }

    method AddPart(disk: nat, partNo: nat, start: U32, len: U32, ptype: nat, format: nat) returns (made: bool)
      requires TableOk(View()) && disk < |slots| && slots[disk].Some?
      modifies `slots, `count
      ensures made == CanAdd(old(View()), disk, partNo, start, len)
      ensures View() == AddPartition(old(View()), disk, partNo, start, len, ptype, format) && TableOk(View())
    {
      AddPartitionKeeps(View(), disk, partNo, start, len, ptype, format);
      var d := slots[disk].value;
      if d.parent.Some? || partNo == 0 || len == 0 {
        return false;
      }
      var n := PartCount(disk);
      if n >= PARTS_PER_DISK || start >= d.maxLba || len > d.maxLba - start {
        return false;
      }
      var name := PartitionName(d.name, partNo);
      var k := FindDevice(name);
      if k < |slots| {
        return false;
      }
      var idx := AllocSlot();
      if idx == |slots| {
        return false;
      }
      slots := slots[idx := Some(Dev(Cut(name, NAME_ROOM), idx, len, Some(disk), start, partNo, ptype, format))];
      count := count + 1;
      return true;
    }

    method CreatePart(disk: nat, e: Extent, format: nat) returns (made: bool)
      requires TableOk(View()) && disk < |slots| && slots[disk].Some?
      modifies `slots, `count
      ensures View() == Create(old(View()), disk, e, format) && TableOk(View())
    {
      if e.start > 0xFFFF_FFFF || e.len > 0xFFFF_FFFF {
        return false;
      }
      made := AddPart(disk, e.partNo, e.start, e.len, e.ptype, format);
    }

    /** `part_parse_mbr`. */
    method ParseMbr(disk: nat, sec: seq<Byte>)
      requires TableOk(View()) && disk < |slots| && slots[disk].Some? && |sec| == SECTOR
      modifies `slots, `count
      ensures View() == CreateAll(old(View()), disk, MbrFrom(sec, 0), MBR) && TableOk(View())
    {
      for i := 0 to 4
        invariant TableOk(View()) && disk < |slots| && slots[disk].Some?
        invariant CreateAll(old(View()), disk, MbrFrom(sec, 0), MBR) == CreateAll(View(), disk, MbrFrom(sec, i), MBR)
      {
        var e := MbrEntry(sec, i);
        if e.Some? {
          var made := CreatePart(disk, e.value, MBR);
        }
      }
    }

    /** The entry loop of `part_parse_gpt`; `past` is what follows the entry buffer. */
    method CreateEntries(disk: nat, b: seq<Byte>, past: nat -> Byte, size: nat, n: nat)
      requires TableOk(View()) && disk < |slots| && slots[disk].Some?
      modifies `slots, `count
      ensures View() == CreateAll(old(View()), disk, GptFrom(b, past, size, n, 0), GPT) && TableOk(View())
    {
      for i := 0 to n
        invariant TableOk(View()) && disk < |slots| && slots[disk].Some?
        invariant CreateAll(old(View()), disk, GptFrom(b, past, size, n, 0), GPT)
                  == CreateAll(View(), disk, GptFrom(b, past, size, n, i), GPT)
      {
        var e := GptEntry(b, past, size, i);
        if e.Some? {
          var made := CreatePart(disk, e.value, GPT);
        }
      }
    }

    /** `part_parse_gpt`; `data` is what the disk holds. */
    method ParseGpt(disk: nat, data: seq<Byte>, past: nat -> Byte)
      requires TableOk(View()) && disk < |slots| && slots[disk].Some?
      requires |data| >= 2 * SECTOR && |data| % SECTOR == 0
      modifies `slots, `count
      ensures View() == CreateAll(old(View()), disk, GptExtents(data, past), GPT) && TableOk(View())
    {
      var h := data[SECTOR..2 * SECTOR];
      if !GptHeaderOk(h) {
        return;
      }
      var n, size := EntryCount(h), Rd32(h, 84);
      var b := ReadEntryArray(data, Rd64(h, 72), n * size);
      CreateEntries(disk, b, past, size, n);
    }

    /** `part_scan_disk`. */
    method ScanDisk(disk: nat, data: seq<Byte>, past: nat -> Byte)
      requires TableOk(View()) && disk < |slots| && IsDisk(slots[disk])
      requires |data| == SECTOR * slots[disk].value.maxLba
      modifies `slots, `count
      ensures View() == Scan(old(View()), disk, data, past) && TableOk(View())
    {
      ScanKeeps(View(), disk, data, past);
      if slots[disk].value.maxLba < 2 {
        return;
      }
      var n := ClearPartitions(disk);
      if HasGpt(data) {
        ParseGpt(disk, data, past);
        slots := slots[disk := Some(slots[disk].value.(format := GPT))];
      } else if HasMbr(data) {
        ParseMbr(disk, data[..SECTOR]);
        slots := slots[disk := Some(slots[disk].value.(format := MBR))];
      } else {
        slots := slots[disk := Some(slots[disk].value.(format := 0))];
      }
    }

    /** `register_blkdev` with the partition layer armed: the new disk is scanned at once. */
    method PlugDisk(name: string, maxLba: U32, data: seq<Byte>, past: nat -> Byte) returns (rc: int)
      requires TableOk(View()) && |data| == SECTOR * maxLba
      modifies this
      ensures rc == RegisterError(old(View()), name)
      ensures View() == BlockRuns.Do(old(View()), BlockRuns.DoPlug(name, maxLba, data, past)) && TableOk(View())
    {
      var idx := AllocSlot();
      rc := RegisterDisk(name, maxLba);
      if rc == 0 {
        ScanDisk(idx, data, past);
      }
    }
  }

  lemma {:induction false} PartsOfPrefix(s: Slots, disk: nat, i: nat)
    requires i <= |s|
    ensures Parts(s[..i], disk) <= Parts(s, disk) && Parts(s, disk) <= Used(s)
    decreases |s|
  {
    PartsFewer(s, disk);
    if i < |s| {
      assert s[..|s| - 1][..i] == s[..i];
      PartsOfPrefix(s[..|s| - 1], disk, i);
    } else {
      assert s[..i] == s;
    }
  }

  /** The loop that gathers the entry array sector by sector. */
  method ReadEntryArray(data: seq<Byte>, at: nat, need: nat) returns (b: seq<Byte>)
    requires |data| % SECTOR == 0
    ensures b == EntryArray(data, at, need)
  {
    var have, cur := 0, at;
    b := seq(need, i => 0);
    while have < need && SECTOR * cur < |data|
      invariant |b| == need && have <= need && cur >= at && (have < need ==> have == SECTOR * (cur - at))
      invariant have == need || SECTOR * cur <= |data| || have == 0
      invariant have > 0 ==> SECTOR * at + have <= |data|
      invariant forall k | 0 <= k < need :: b[k] == if k < have then data[SECTOR * at + k] else 0
    {
      var sec := data[SECTOR * cur..SECTOR * cur + SECTOR];
      var take := need - have;
      if take > SECTOR {
        take := SECTOR;
      }
      ghost var was := b;
      b := Splice(b, have, sec[..take]);
      forall k | 0 <= k < need ensures b[k] == if k < have + take then data[SECTOR * at + k] else 0 {
        SpliceAt(was, have, sec[..take], k);
      }
      have := have + take;
      cur := cur + 1;
    }
  }
}
