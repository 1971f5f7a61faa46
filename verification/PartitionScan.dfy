/** The block layer's table updated in place, and the partition scan over it
    (drivers/block/blkdev/blkdev.c and part.c): MBR and GPT labels as in sections 5.2 and
    5.3 of the UEFI specification. */
module PartitionScan {
  import opened MachineInts
  import opened ImageBytes
  import opened BlockTable

  const SECTOR: nat := 512
  const MBR: nat := 1
  const GPT: nat := 2
  const ENTRY_COPY: nat := 128   // what is copied out of the array for one GPT entry

  // ---- Labels ---------------------------------------------------------------------------------

  /** A partition a label describes. */
  datatype Extent = Extent(partNo: nat, start: nat, len: nat, ptype: nat)

  function Rd64(b: seq<Byte>, off: nat): nat
    requires off + 8 <= |b|
  {
    Rd32(b, off) + TWO_32 * Rd32(b, off + 4)
  }

  /** Entry `i` of the table in the first sector; containers and empty entries do not count. */
  function MbrEntry(sec: seq<Byte>, i: nat): Option<Extent>
    requires |sec| == SECTOR && i < 4
  {
    var o := 446 + 16 * i;
    var kind, start, len := sec[o + 4], Rd32(sec, o + 8), Rd32(sec, o + 12);
    if kind == 0 || start == 0 || len == 0 || kind == 0x05 || kind == 0x0F || kind == 0x85 || kind == 0xEE then None
    else Some(Extent(i + 1, start, len, kind))
  }

  function MbrFrom(sec: seq<Byte>, i: nat): seq<Extent>
    requires |sec| == SECTOR && i <= 4
    decreases 4 - i
  {
    if i == 4 then []
    else if MbrEntry(sec, i) == None then MbrFrom(sec, i + 1)
    else [MbrEntry(sec, i).value] + MbrFrom(sec, i + 1)
  }

  /** The entry array: `need` bytes from sector `at` on, zero where the disk ends. */
  function EntryArray(data: seq<Byte>, at: nat, need: nat): (b: seq<Byte>)
    ensures |b| == need && forall k | 0 <= k < need :: b[k] == if SECTOR * at + k < |data| then data[SECTOR * at + k] else 0
  {
    seq(need, k requires 0 <= k < need => if SECTOR * at + k < |data| then data[SECTOR * at + k] else 0)
  }

  predicate AllZero(b: seq<Byte>) {
    forall k | 0 <= k < |b| :: b[k] == 0
  }

  /** What an entry copy of 128 bytes at offset `o` of the array holds; `past` are the
      bytes that follow the array in memory. */
  function EntryBytes(b: seq<Byte>, past: nat -> Byte, o: nat): (e: seq<Byte>)
    ensures |e| == ENTRY_COPY
  {
    seq(ENTRY_COPY, k requires 0 <= k < ENTRY_COPY => if o + k < |b| then b[o + k] else past(o + k - |b|))
  }

  function GptEntry(b: seq<Byte>, past: nat -> Byte, size: nat, i: nat): Option<Extent> {
    var e := EntryBytes(b, past, size * i);
    var first, last := Rd64(e, 32), Rd64(e, 40);
    if AllZero(e[..16]) || first == 0 || last < first then None
    else Some(Extent(i + 1, first, last - first + 1, 0))
  }

  function GptFrom(b: seq<Byte>, past: nat -> Byte, size: nat, n: nat, i: nat): seq<Extent>
    requires i <= n
    decreases n - i
  {
    if i == n then []
    else if GptEntry(b, past, size, i) == None then GptFrom(b, past, size, n, i + 1)
    else [GptEntry(b, past, size, i).value] + GptFrom(b, past, size, n, i + 1)
  }

  /** The header's fields are in range. */
  predicate GptHeaderOk(sec: seq<Byte>)
    requires |sec| == SECTOR
  {
    && 92 <= Rd32(sec, 12) <= 512 && 0 < Rd32(sec, 80) <= 128
    && 0 < Rd32(sec, 84) <= 512 && 0 < Rd64(sec, 72) <= 0xFFFF_FFFF
  }

  const EFI_PART: seq<Byte> := [69, 70, 73, 32, 80, 65, 82, 84]

  predicate HasGpt(data: seq<Byte>)
    requires |data| >= 2 * SECTOR
  {
    data[SECTOR..SECTOR + 8] == EFI_PART
  }

  predicate HasMbr(data: seq<Byte>)
    requires |data| >= 2 * SECTOR
  {
    data[510] == 0x55 && data[511] == 0xAA
  }

  function EntryCount(header: seq<Byte>): nat
    requires |header| == SECTOR
  {
    if Rd32(header, 80) > PARTS_PER_DISK then PARTS_PER_DISK else Rd32(header, 80)
  }

  function GptExtents(data: seq<Byte>, past: nat -> Byte): seq<Extent>
    requires |data| >= 2 * SECTOR
  {
    var h := data[SECTOR..2 * SECTOR];
    if !GptHeaderOk(h) then []
    else GptFrom(EntryArray(data, Rd64(h, 72), EntryCount(h) * Rd32(h, 84)), past, Rd32(h, 84), EntryCount(h), 0)
  }

  /** The format of the label and the partitions it describes. */
  function Label(data: seq<Byte>, past: nat -> Byte): (nat, seq<Extent>)
    requires |data| >= 2 * SECTOR
  {
    if HasGpt(data) then (GPT, GptExtents(data, past))
    else if HasMbr(data) then (MBR, MbrFrom(data[..SECTOR], 0))
    else (0, [])
  }

  // ---- Entries smaller than their copy ---------------------------------------------------------

  /** Every entry copy stays inside an array of `n` entries exactly when entries are at
      least as large as the copy.  Headers with smaller entries are accepted. */
  lemma CopiesStayInside(n: nat, size: nat)
    requires n > 0
    ensures (forall i | 0 <= i < n :: i * size + ENTRY_COPY <= n * size) <==> size >= ENTRY_COPY
  {
    if size >= ENTRY_COPY {
      forall i | 0 <= i < n ensures i * size + ENTRY_COPY <= n * size {
        assert i * size + size == (i + 1) * size <= n * size;
      }
    } else {
      assert (n - 1) * size + size == n * size;
    }
  }

  /** A label whose entries the copy does not overrun. */
  predicate LabelSelfContained(data: seq<Byte>)
    requires |data| >= 2 * SECTOR
  {
    var h := data[SECTOR..2 * SECTOR];
    HasGpt(data) && GptHeaderOk(h) ==> Rd32(h, 84) >= ENTRY_COPY
  }

  lemma SameCopy(b: seq<Byte>, past: nat -> Byte, other: nat -> Byte, o: nat)
    requires o + ENTRY_COPY <= |b|
    ensures EntryBytes(b, past, o) == EntryBytes(b, other, o)
  {
  }

  lemma EntrySelfContained(b: seq<Byte>, past: nat -> Byte, other: nat -> Byte, size: nat, n: nat, i: nat)
    requires size >= ENTRY_COPY && i < n && |b| == n * size
    ensures GptEntry(b, past, size, i) == GptEntry(b, other, size, i)
  {
    CopiesStayInside(n, size);
    assert i * size + ENTRY_COPY <= n * size;
    SameCopy(b, past, other, size * i);
  }

  lemma {:induction false} EntriesSelfContained(b: seq<Byte>, past: nat -> Byte, other: nat -> Byte, size: nat, n: nat, i: nat)
    requires size >= ENTRY_COPY && i <= n && |b| == n * size
    ensures GptFrom(b, past, size, n, i) == GptFrom(b, other, size, n, i)
    decreases n - i
  {
    if i < n {
      EntrySelfContained(b, past, other, size, n, i);
      EntriesSelfContained(b, past, other, size, n, i + 1);
    }
  }

  /** Such a label says the same whatever follows the array in memory. */
  lemma LabelIgnoresPast(data: seq<Byte>, past: nat -> Byte, other: nat -> Byte)
    requires |data| >= 2 * SECTOR && LabelSelfContained(data)
    ensures Label(data, past) == Label(data, other)
  {
    var h := data[SECTOR..2 * SECTOR];
    if HasGpt(data) && GptHeaderOk(h) {
      var n, size := EntryCount(h), Rd32(h, 84);
      EntriesSelfContained(EntryArray(data, Rd64(h, 72), n * size), past, other, size, n, 0);
    }
  }

  /** Three sectors: a GPT header announcing one entry of one byte at sector 2. */
  function TinyGptByte(i: nat): Byte {
    if SECTOR <= i < SECTOR + 8 then EFI_PART[i - SECTOR]
    else if i == SECTOR + 12 then 92
    else if i == SECTOR + 72 then 2
    else if i == SECTOR + 80 || i == SECTOR + 84 || i == 2 * SECTOR then 1
    else 0
  }

  function TinyGpt(): (data: seq<Byte>)
    ensures |data| == 3 * SECTOR && forall i | 0 <= i < |data| :: data[i] == TinyGptByte(i)
  {
    seq(3 * SECTOR, i requires 0 <= i => TinyGptByte(i))
  }

  lemma TinyHeader(h: seq<Byte>)
    requires |h| == SECTOR && forall i | 0 <= i < SECTOR :: h[i] == TinyGptByte(SECTOR + i)
    ensures Rd32(h, 12) == 92 && Rd64(h, 72) == 2 && Rd32(h, 80) == 1 && Rd32(h, 84) == 1
  {
  }

  lemma TinyLabel(past: nat -> Byte)
    ensures Label(TinyGpt(), past) == (GPT, GptFrom([1], past, 1, 1, 0))
  {
    var data := TinyGpt();
    var h := data[SECTOR..2 * SECTOR];
    TinyHeader(h);
    assert data[SECTOR..SECTOR + 8] == EFI_PART;
    assert EntryArray(data, 2, 1) == [1];
  }

  lemma TinyEntry(x: Byte, past: nat -> Byte)
    requires forall k: nat :: past(k) == if k == 31 || k == 39 then x else 0
    ensures GptFrom([1], past, 1, 1, 0) == if x > 0 then [Extent(1, x, 1, 0)] else []
  {
    var e := EntryBytes([1], past, 0);
    assert e[0] == 1 && !AllZero(e[..16]);
    assert GptFrom([1], past, 1, 1, 1) == [];
  }

  /** A disk with one entry of one byte: the partition found there is what follows the
      entry buffer in memory. */
  lemma SmallEntryReadsPast(x: Byte)
    requires x > 0
    ensures Label(TinyGpt(), k => if k == 31 || k == 39 then x else 0) == (GPT, [Extent(1, x, 1, 0)])
    ensures Label(TinyGpt(), k => 0) == (GPT, [])
  {
    var past: nat -> Byte := k => if k == 31 || k == 39 then x else 0;
    TinyLabel(past);
    TinyEntry(x, past);
    var none: nat -> Byte := k => 0;
    TinyLabel(none);
    TinyEntry(0, none);
  }

  // ---- Scanning ------------------------------------------------------------------------------

  function Create(t: Table, disk: nat, e: Extent, format: nat): Table
    requires disk < |t.slots| && t.slots[disk].Some?
  {
    if e.start > 0xFFFF_FFFF || e.len > 0xFFFF_FFFF then t
    else AddPartition(t, disk, e.partNo, e.start, e.len, e.ptype, format)
  }

  function CreateAll(t: Table, disk: nat, es: seq<Extent>, format: nat): (u: Table)
    requires disk < |t.slots| && t.slots[disk].Some?
    ensures disk < |u.slots| == |t.slots| && u.slots[disk] == t.slots[disk]
    decreases |es|
  {
    if es == [] then t else CreateAll(Create(t, disk, es[0], format), disk, es[1..], format)
  }

  function SetFormat(t: Table, disk: nat, format: nat): Table
    requires disk < |t.slots| && t.slots[disk].Some?
  {
    t.(slots := t.slots[disk := Some(t.slots[disk].value.(format := format))])
  }

  /** `part_scan_disk` on a disk holding `data`. */
  function Scan(t: Table, disk: nat, data: seq<Byte>, past: nat -> Byte): Table
    requires disk < |t.slots| && IsDisk(t.slots[disk]) && |data| == SECTOR * t.slots[disk].value.maxLba
  {
    if t.slots[disk].value.maxLba < 2 then t
    else
      var u := Clear(t, disk);
      SetFormat(CreateAll(u, disk, Label(data, past).1, Label(data, past).0), disk, Label(data, past).0)
  }

  // ---- Rescanning -----------------------------------------------------------------------------

  /** `u` is `t` with some partitions of `disk` in slots that were free. */
  ghost predicate OnlyAdds(t: Table, disk: nat, u: Table) {
    && |u.slots| == |t.slots| && u.boot == t.boot
    && Cleared(u.slots, disk) == t.slots && t.count + Parts(u.slots, disk) == u.count
  }

  lemma CreateOnlyAdds(t: Table, disk: nat, u: Table, e: Extent, format: nat)
    requires OnlyAdds(t, disk, u) && disk < |t.slots| && t.slots[disk].Some? && u.slots[disk].Some?
    ensures OnlyAdds(t, disk, Create(u, disk, e, format))
  {
    var v := Create(u, disk, e, format);
    if v != u {
      var idx := FirstFree(u.slots, 0);
      SetCounts(u.slots, idx, v.slots[idx], disk);
      assert Cleared(v.slots, disk) == Cleared(u.slots, disk);
    }
  }

  lemma {:induction false} CreateAllOnlyAdds(t: Table, disk: nat, u: Table, es: seq<Extent>, format: nat)
    requires OnlyAdds(t, disk, u) && disk < |t.slots| && t.slots[disk].Some? && u.slots[disk].Some?
    ensures OnlyAdds(t, disk, CreateAll(u, disk, es, format))
    decreases |es|
  {
    if es != [] {
      CreateOnlyAdds(t, disk, u, es[0], format);
      CreateAllOnlyAdds(t, disk, Create(u, disk, es[0], format), es[1..], format);
    }
  }

  /** The disk's own format field does not matter to what is created. */
  lemma {:induction false} FormatDoesNotMatter(t: Table, disk: nat, f: nat, es: seq<Extent>, format: nat)
    requires disk < |t.slots| && IsDisk(t.slots[disk])
    ensures CreateAll(SetFormat(t, disk, f), disk, es, format) == SetFormat(CreateAll(t, disk, es, format), disk, f)
    decreases |es|
  {
    if es != [] {
      FormatDoesNotMatterOnce(t, disk, f, es[0], format);
      FormatDoesNotMatter(Create(t, disk, es[0], format), disk, f, es[1..], format);
    }
  }

  lemma FormatDoesNotMatterOnce(t: Table, disk: nat, f: nat, e: Extent, format: nat)
    requires disk < |t.slots| && IsDisk(t.slots[disk])
    ensures Create(SetFormat(t, disk, f), disk, e, format) == SetFormat(Create(t, disk, e, format), disk, f)
  {
    var u := SetFormat(t, disk, f);
    SetCounts(t.slots, disk, u.slots[disk], disk);
    SameFree(t.slots, u.slots, 0);
    SameFind(t.slots, u.slots, PartitionName(t.slots[disk].value.name, e.partNo), 0);
    var idx := FirstFree(t.slots, 0);
    if idx < |t.slots| {
      assert idx != disk;
    }
  }

  lemma {:induction false} SameFree(s: Slots, u: Slots, i: nat)
    requires i <= |s| == |u| && forall j | 0 <= j < |s| :: s[j].Some? == u[j].Some?
    ensures FirstFree(s, i) == FirstFree(u, i)
    decreases |s| - i
  {
    if i < |s| && s[i].Some? {
      SameFree(s, u, i + 1);
    }
  }

  lemma {:induction false} SameFind(s: Slots, u: Slots, name: string, i: nat)
    requires i <= |s| == |u|
    requires forall j | 0 <= j < |s| :: s[j].Some? == u[j].Some? && (s[j].Some? ==> s[j].value.name == u[j].value.name)
    ensures Find(s, name, i) == Find(u, name, i)
    decreases |s| - i
  {
    if i < |s| && !(s[i].Some? && s[i].value.name == name) {
      SameFind(s, u, name, i + 1);
    }
  }

  lemma {:induction false} CreateAllKeeps(t: Table, disk: nat, es: seq<Extent>, format: nat)
    requires TableOk(t) && disk < |t.slots| && t.slots[disk].Some?
    ensures TableOk(CreateAll(t, disk, es, format))
    decreases |es|
  {
    if es != [] {
      var e := es[0];
      if e.start <= 0xFFFF_FFFF && e.len <= 0xFFFF_FFFF {
        AddPartitionKeeps(t, disk, e.partNo, e.start, e.len, e.ptype, format);
      }
      CreateAllKeeps(Create(t, disk, es[0], format), disk, es[1..], format);
    }
  }

  lemma SetFormatKeeps(t: Table, disk: nat, f: nat)
    requires TableOk(t) && disk < |t.slots| && IsDisk(t.slots[disk])
    ensures TableOk(SetFormat(t, disk, f)) && IsDisk(SetFormat(t, disk, f).slots[disk])
  {
    var u := SetFormat(t, disk, f);
    forall i | 0 <= i < |u.slots| ensures SlotOk(u.slots, i) {
      assert SlotOk(t.slots, i);
    }
    forall d: nat ensures Parts(u.slots, d) <= PARTS_PER_DISK {
      SetCounts(t.slots, disk, u.slots[disk], d);
    }
    SetCounts(t.slots, disk, u.slots[disk], 0);
    forall i | 0 <= i < |t.slots| ensures IsDisk(u.slots[i]) == IsDisk(t.slots[i]) {
    }
  }

  lemma ScanKeeps(t: Table, disk: nat, data: seq<Byte>, past: nat -> Byte)
    requires TableOk(t) && disk < |t.slots| && IsDisk(t.slots[disk])
    requires |data| == SECTOR * t.slots[disk].value.maxLba
    ensures TableOk(Scan(t, disk, data, past)) && disk < |Scan(t, disk, data, past).slots| && IsDisk(Scan(t, disk, data, past).slots[disk])
    ensures Scan(t, disk, data, past).slots[disk].value.maxLba == t.slots[disk].value.maxLba
  {
    if t.slots[disk].value.maxLba >= 2 {
      ClearKeeps(t, disk);
      var u := Clear(t, disk);
      CreateAllKeeps(u, disk, Label(data, past).1, Label(data, past).0);
      SetFormatKeeps(CreateAll(u, disk, Label(data, past).1, Label(data, past).0), disk, Label(data, past).0);
    }
  }

  /** A slot holds what extent `e` describes. */
  predicate Describes(e: Extent, s: Option<Dev>, disk: nat, format: nat) {
    && s.Some? && s.value.parent == Some(disk) && s.value.format == format
    && s.value.partNo == e.partNo && s.value.start == e.start && s.value.maxLba == e.len && s.value.ptype == e.ptype
  }

  lemma {:induction false} CreatesOnlyDescribed(t: Table, disk: nat, es: seq<Extent>, format: nat, i: nat)
    requires disk < |t.slots| && t.slots[disk].Some? && i < |t.slots|
    ensures var s := CreateAll(t, disk, es, format).slots[i];
            && (t.slots[i].Some? ==> s == t.slots[i])
            && (s == t.slots[i] || exists e | e in es :: Describes(e, s, disk, format))
    decreases |es|
  {
    if es != [] {
      var u := Create(t, disk, es[0], format);
      CreatesOnlyDescribed(u, disk, es[1..], format, i);
      var s := CreateAll(u, disk, es[1..], format).slots[i];
      if s == u.slots[i] && s != t.slots[i] {
        assert Describes(es[0], s, disk, format);
      }
    }
  }

  /** Every partition a disk has after a scan is one its label describes, with that
      number and extent; every other device is as it was, the disk's own format aside;
      and a slot that was free is still free or holds such a partition. */
  lemma ScanCreatesOnlyLabelled(t: Table, disk: nat, data: seq<Byte>, past: nat -> Byte, i: nat)
    requires disk < |t.slots| && IsDisk(t.slots[disk]) && t.slots[disk].value.maxLba >= 2 && i < |t.slots|
    requires |data| == SECTOR * t.slots[disk].value.maxLba
    ensures |Scan(t, disk, data, past).slots| == |t.slots|
    ensures var s := Scan(t, disk, data, past).slots[i];
            && (IsPartOf(s, disk) ==> exists e | e in Label(data, past).1 :: Describes(e, s, disk, Label(data, past).0))
            && (t.slots[i].Some? && !IsPartOf(t.slots[i], disk) && i != disk ==> s == t.slots[i])
            && (t.slots[i] == None ==> s == None || IsPartOf(s, disk))
            && (i == disk ==> s == Some(t.slots[disk].value.(format := Label(data, past).0)))
  {
    CreatesOnlyDescribed(Clear(t, disk), disk, Label(data, past).1, Label(data, past).0, i);
  }

  /** Why `u` has no partition for `e`: it leaves the disk or 32 bits, its name is taken,
      the disk has all the partitions it may have, or no slot is free. */
  predicate Refused(u: Table, disk: nat, e: Extent)
    requires disk < |u.slots| && u.slots[disk].Some?
  {
    var d := u.slots[disk].value;
    || e.partNo == 0 || e.len == 0 || e.len > 0xFFFF_FFFF || e.start + e.len > d.maxLba
    || Parts(u.slots, disk) >= PARTS_PER_DISK
    || Find(u.slots, PartitionName(d.name, e.partNo), 0) < |u.slots|
    || FirstFree(u.slots, 0) == |u.slots|
  }

  ghost predicate Has(u: Table, disk: nat, e: Extent, format: nat) {
    exists i | 0 <= i < |u.slots| :: Describes(e, u.slots[i], disk, format)
  }

  lemma CreateOrRefuse(t: Table, disk: nat, e: Extent, format: nat)
    requires disk < |t.slots| && IsDisk(t.slots[disk])
    ensures Has(Create(t, disk, e, format), disk, e, format) || Refused(t, disk, e)
  {
    if !Refused(t, disk, e) {
      var idx := FirstFree(t.slots, 0);
      var u := Create(t, disk, e, format);
      assert Describes(e, u.slots[idx], disk, format);
    }
  }

  /** A table with more devices refuses no less. */
  lemma RefusedStays(t: Table, u: Table, disk: nat, e: Extent)
    requires disk < |t.slots| == |u.slots| && t.slots[disk].Some? && Parts(t.slots, disk) <= Parts(u.slots, disk)
    requires forall i | 0 <= i < |t.slots| && t.slots[i].Some? :: u.slots[i] == t.slots[i]
    requires Refused(t, disk, e)
    ensures Refused(u, disk, e)
  {
    var name := PartitionName(t.slots[disk].value.name, e.partNo);
    var k := Find(t.slots, name, 0);
    if k < |t.slots| {
      assert u.slots[k] == t.slots[k];
      assert Find(u.slots, name, 0) <= k;
    }
    if FirstFree(t.slots, 0) == |t.slots| {
      assert forall i | 0 <= i < |t.slots| :: u.slots[i].Some?;
    }
  }

  lemma {:induction false} PartsGrow(s: Slots, u: Slots, disk: nat)
    requires |s| == |u| && forall i | 0 <= i < |s| && s[i].Some? :: u[i] == s[i]
    ensures Parts(s, disk) <= Parts(u, disk)
  {
    if s != [] {
      PartsGrow(s[..|s| - 1], u[..|s| - 1], disk);
    }
  }

  lemma CreateAllGrows(t: Table, disk: nat, es: seq<Extent>, format: nat)
    requires disk < |t.slots| && t.slots[disk].Some?
    ensures forall i | 0 <= i < |t.slots| && t.slots[i].Some? :: CreateAll(t, disk, es, format).slots[i] == t.slots[i]
  {
    forall i | 0 <= i < |t.slots| && t.slots[i].Some? ensures CreateAll(t, disk, es, format).slots[i] == t.slots[i] {
      CreatesOnlyDescribed(t, disk, es, format, i);
    }
  }

  lemma {:induction false} AllCreatedOrRefused(t: Table, disk: nat, es: seq<Extent>, format: nat, k: nat)
    requires disk < |t.slots| && IsDisk(t.slots[disk]) && k < |es|
    ensures var u := CreateAll(t, disk, es, format);
            Has(u, disk, es[k], format) || Refused(u, disk, es[k])
    decreases |es|
  {
    var v := Create(t, disk, es[0], format);
    var u := CreateAll(v, disk, es[1..], format);
    if k > 0 {
      AllCreatedOrRefused(v, disk, es[1..], format, k - 1);
    } else {
      CreateOrRefuse(t, disk, es[0], format);
      if Refused(t, disk, es[0]) {
        CreateAllGrows(t, disk, es, format);
        PartsGrow(t.slots, u.slots, disk);
        RefusedStays(t, u, disk, es[0]);
      } else {
        CreateAllGrows(v, disk, es[1..], format);
        var i :| 0 <= i < |v.slots| && Describes(es[0], v.slots[i], disk, format);
        assert Describes(es[0], u.slots[i], disk, format);
      }
    }
  }

  /** Every extent of the label is a partition after the scan, unless its range, its
      name, the disk's limit or the table's room refuses it. */
  lemma ScanCreatesEveryLabelled(t: Table, disk: nat, data: seq<Byte>, past: nat -> Byte, k: nat)
    requires disk < |t.slots| && IsDisk(t.slots[disk]) && t.slots[disk].value.maxLba >= 2
    requires |data| == SECTOR * t.slots[disk].value.maxLba && k < |Label(data, past).1|
    ensures |Scan(t, disk, data, past).slots| == |t.slots| && Scan(t, disk, data, past).slots[disk].Some?
    ensures var u, e := Scan(t, disk, data, past), Label(data, past).1[k];
            Has(u, disk, e, Label(data, past).0) || Refused(u, disk, e)
  {
    var f, es := Label(data, past).0, Label(data, past).1;
    var v := CreateAll(Clear(t, disk), disk, es, f);
    AllCreatedOrRefused(Clear(t, disk), disk, es, f, k);
    var u := SetFormat(v, disk, f);
    if Has(v, disk, es[k], f) {
      var i :| 0 <= i < |v.slots| && Describes(es[k], v.slots[i], disk, f);
      assert Describes(es[k], u.slots[i], disk, f);
    } else {
      SetCounts(v.slots, disk, u.slots[disk], disk);
      SameFree(v.slots, u.slots, 0);
      SameFind(v.slots, u.slots, PartitionName(v.slots[disk].value.name, es[k].partNo), 0);
    }
  }

  /** Clearing what a scan created leaves what the scan started from. */
  lemma ClearUndoesCreate(u: Table, disk: nat, es: seq<Extent>, format: nat)
    requires disk < |u.slots| && IsDisk(u.slots[disk]) && Cleared(u.slots, disk) == u.slots && Parts(u.slots, disk) == 0
    ensures Clear(SetFormat(CreateAll(u, disk, es, format), disk, format), disk) == SetFormat(u, disk, format)
  {
    var v := CreateAll(u, disk, es, format);
    CreateAllOnlyAdds(u, disk, u, es, format);
    var w := SetFormat(v, disk, format);
    SetCounts(v.slots, disk, w.slots[disk], disk);
    assert Cleared(w.slots, disk) == Cleared(v.slots, disk)[disk := w.slots[disk]];
  }

  /** Scanning an unchanged disk again, with nothing else changed, gives the same table:
      the same partitions, with the same numbers, extents, names and slots.  What follows
      the entry array in memory may differ, as long as the label does not reach it. */
  lemma RescanChangesNothing(t: Table, disk: nat, data: seq<Byte>, past: nat -> Byte, later: nat -> Byte)
    requires TableOk(t) && disk < |t.slots| && IsDisk(t.slots[disk])
    requires |data| == SECTOR * t.slots[disk].value.maxLba
    requires past == later || (|data| >= 2 * SECTOR ==> LabelSelfContained(data))
    ensures disk < |Scan(t, disk, data, past).slots| && IsDisk(Scan(t, disk, data, past).slots[disk])
    ensures Scan(t, disk, data, past).slots[disk].value.maxLba == t.slots[disk].value.maxLba
    ensures Scan(Scan(t, disk, data, past), disk, data, later) == Scan(t, disk, data, past)
  {
    ScanKeeps(t, disk, data, past);
    if t.slots[disk].value.maxLba >= 2 {
      if LabelSelfContained(data) {
        LabelIgnoresPast(data, past, later);
      }
      ClearKeeps(t, disk);
      var u, f, es := Clear(t, disk), Label(data, past).0, Label(data, past).1;
      assert Cleared(u.slots, disk) == u.slots;
      ClearUndoesCreate(u, disk, es, f);
      FormatDoesNotMatter(u, disk, f, es, f);
    }
  }
}
