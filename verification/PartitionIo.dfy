/** Sector and byte I/O on a disk and its partitions (drivers/block/blkdev/blkdev.c and
    part.c): a partition translates its sectors into its parent's, and `part_rw` moves
    any byte range sector by sector.  Seen from outside, a partition is a flat array of
    512 bytes per sector. */
module PartitionIo {
  import opened MachineInts
  import opened ImageBytes

  const SECTOR: nat := 512

  /** A device of a disk: the disk itself, or a partition of it. */
  datatype Device = Whole | Partition(start: U32, len: U32)

  function Min(a: nat, b: nat): nat {
    if a < b then a else b
  }

  /** How many of `size` bytes from `off` on lie in an array of `n` bytes. */
  function InRange(n: nat, off: nat, size: nat): nat {
    if n <= off then 0 else Min(size, n - off)
  }

  // ---- Flat arrays ---------------------------------------------------------------------------

  function FlatRead(a: seq<Byte>, off: nat, size: nat): seq<Byte> {
    var n := InRange(|a|, off, size);
    if n == 0 then [] else a[off..off + n]
  }

  function FlatWrite(a: seq<Byte>, off: nat, b: seq<Byte>): (r: seq<Byte>)
    ensures |r| == |a|
  {
    var n := InRange(|a|, off, |b|);
    if n == 0 then a else Splice(a, off, b[..n])
  }

  /** What was written is read back, as far as it fits. */
  lemma WriteThenRead(a: seq<Byte>, off: nat, b: seq<Byte>)
    ensures FlatRead(FlatWrite(a, off, b), off, |b|) == b[..InRange(|a|, off, |b|)]
  {
    var n := InRange(|a|, off, |b|);
    if n > 0 {
      var after, c := Splice(a, off, b[..n]), b[..n];
      assert after[off..off + n] == c;
    }
  }

  /** Every other byte is kept. */
  lemma WriteKeepsOthers(a: seq<Byte>, off: nat, b: seq<Byte>, i: nat)
    requires i < |a| && !(off <= i < off + |b|)
    ensures FlatWrite(a, off, b)[i] == a[i]
  {
    var n := InRange(|a|, off, |b|);
    if n > 0 {
      SpliceAt(a, off, b[..n], i);
    }
  }

  // ---- Disks ---------------------------------------------------------------------------------

  /** Partitions lie inside the disk. */
  predicate DeviceOk(d: Device, sectors: nat) {
    d.Partition? ==> d.start + d.len <= sectors
  }

  function Start(d: Device): nat {
    if d.Whole? then 0 else d.start
  }

  function Sectors(d: Device, sectors: nat): nat {
    if d.Whole? then sectors else d.len
  }

  class Disk {
    const sectors: U32
    var data: seq<Byte>

    ghost predicate Valid()
      reads this
    {
      |data| == SECTOR * sectors
    }

    constructor (sectors: U32, data: seq<Byte>)
      requires |data| == SECTOR * sectors
      ensures Valid() && this.sectors == sectors && this.data == data
    {
      this.sectors := sectors;
      this.data := data;
    }

    /** The device as a flat array. */
    ghost function Bytes(d: Device): (b: seq<Byte>)
      requires Valid() && DeviceOk(d, sectors)
      reads this
      ensures |b| == SECTOR * Sectors(d, sectors)
    {
      data[SECTOR * Start(d)..SECTOR * (Start(d) + Sectors(d, sectors))]
    }

    /** `blkdev_read`: it fails exactly on a sector outside the device; the test for a
        parent sector above 32 bits never fires. */
    method Read(d: Device, lba: nat) returns (ok: bool, sec: seq<Byte>)
      requires Valid() && DeviceOk(d, sectors)
      ensures ok <==> lba < Sectors(d, sectors)
      ensures ok ==> |sec| == SECTOR && sec == Bytes(d)[SECTOR * lba..SECTOR * lba + SECTOR]
      decreases d.Partition?
    {
      sec := [];
      if lba >= (if d.Whole? then sectors else d.len) {
        return false, [];
      }
      if d.Partition? {
        var plba := d.start + lba;
        if plba > 0xFFFF_FFFF {
          assert false;
        }
        ok, sec := Read(Whole, plba);
        assert Bytes(Whole) == data;
        SliceOfPart(data, SECTOR * d.start, SECTOR * d.len, SECTOR * lba, SECTOR);
        return;
      }
      sec := data[SECTOR * lba..SECTOR * lba + SECTOR];
      assert Bytes(Whole) == data;
      return true, sec;
    }

    method Write(d: Device, lba: nat, sec: seq<Byte>) returns (ok: bool)
      requires Valid() && DeviceOk(d, sectors) && |sec| == SECTOR
      modifies this
      decreases d.Partition?
      ensures Valid() && (ok <==> lba < Sectors(d, sectors))
      ensures data == if ok then Splice(old(data), SECTOR * (Start(d) + lba), sec) else old(data)
    {
      if lba >= (if d.Whole? then sectors else d.len) {
        return false;
      }
      if d.Partition? {
        var plba := d.start + lba;
        if plba > 0xFFFF_FFFF {
          assert false;
        }
        ok := Write(Whole, plba, sec);
        return;
      }
      data := Splice(data, SECTOR * lba, sec);
      return true;
    }

    /** `part_rw` reading: exactly the bytes of the request that lie in the device. */
    method ReadBytes(d: Device, off: U32, size: U32) returns (out: seq<Byte>)
      requires Valid() && DeviceOk(d, sectors)
      ensures out == FlatRead(Bytes(d), off, size)
    {
      out := [];
      var lba: nat, soff: nat := off / SECTOR, off % SECTOR;
      ghost var all := Bytes(d);
      while |out| < size
        invariant |out| <= size && soff < SECTOR
        invariant |out| < size ==> SECTOR * lba + soff == off + |out|
        invariant |out| > 0 ==> off + |out| <= |all| && out == all[off..off + |out|]
      {
        var want, avail := size - |out|, SECTOR - soff;
        var chunk := if want < avail then want else avail;
        var ok, sec := Read(d, lba);
        if !ok {
          NothingPastTheEnd(all, off, size, out, lba, soff);
          return;
        }
        NextChunk(all, off, out, lba, soff, chunk, sec);
        out := out + sec[soff..soff + chunk];
        lba := lba + 1;
        soff := 0;
      }
    }

    /** One sector of `part_rw` writing: a whole sector is written as it is, a part of one
        is read, changed and written back. */
    method WritePart(d: Device, lba: nat, soff: nat, b: seq<Byte>) returns (ok: bool)
      requires Valid() && DeviceOk(d, sectors) && 0 < |b| && soff + |b| <= SECTOR
      modifies this
      ensures Valid() && (ok <==> lba < Sectors(d, sectors))
      ensures data == if ok then Splice(old(data), SECTOR * (Start(d) + lba) + soff, b) else old(data)
    {
      if soff == 0 && |b| == SECTOR {
        ok := Write(d, lba, b);
      } else {
        var got, sec := Read(d, lba);
        if !got {
          sec := seq(SECTOR, i => 0);
        }
        ok := Write(d, lba, Splice(sec, soff, b));
        if ok {
          SliceOfPart(old(data), SECTOR * Start(d), SECTOR * Sectors(d, sectors), SECTOR * lba, SECTOR);
          SpliceTwice(old(data), SECTOR * (Start(d) + lba), sec, soff, b);
        }
      }
    }

    /** One round of the loop: the next bytes of `b`, up to the end of the sector. */
    method WriteNext(d: Device, b: seq<Byte>, done: nat, lba: nat, soff: nat, ghost was: seq<Byte>, ghost base: nat)
      returns (ok: bool, chunk: nat)
      requires Valid() && DeviceOk(d, sectors) && done < |b| && soff < SECTOR && |was| == |data|
      requires SECTOR * (Start(d) + lba) + soff == base + done && (done == 0 || base + done <= |was|)
      requires data == Written(was, base, b, done)
      modifies this
      ensures Valid() && (ok <==> lba < Sectors(d, sectors)) && chunk == Min(|b| - done, SECTOR - soff)
      ensures !ok ==> data == Written(was, base, b, done)
      ensures ok ==> base + done + chunk <= |was| && data == Written(was, base, b, done + chunk)
    {
      var want, avail := |b| - done, SECTOR - soff;
      chunk := if want < avail then want else avail;
      ok := WritePart(d, lba, soff, b[done..done + chunk]);
      if ok {
        WrittenNext(was, base, b, done, chunk, SECTOR * (Start(d) + lba) + soff);
      }
    }

    /** The loop of `part_rw` writing. */
    method WriteLoop(d: Device, off: U32, b: seq<Byte>) returns (done: nat)
      requires Valid() && DeviceOk(d, sectors) && |b| < TWO_32
      modifies this
      ensures Valid() && done == InRange(SECTOR * Sectors(d, sectors), off, |b|)
      ensures SECTOR * Start(d) + off + done <= |old(data)| || done == 0
      ensures data == Written(old(data), SECTOR * Start(d) + off, b, done)
    {
      done := 0;
      var lba: nat, soff: nat := off / SECTOR, off % SECTOR;
      ghost var base := SECTOR * Start(d) + off;
      while done < |b|
        invariant Valid() && done <= |b| && soff < SECTOR && (done == 0 || base + done <= |old(data)|)
        invariant done < |b| ==> SECTOR * lba + soff == off + done
        invariant done > 0 ==> off + done <= SECTOR * Sectors(d, sectors)
        invariant data == Written(old(data), base, b, done)
      {
        var ok, chunk := WriteNext(d, b, done, lba, soff, old(data), base);
        if !ok {
          return;
        }
        done := done + chunk;
        lba := lba + 1;
        soff := 0;
      }
    }

    /** `part_rw` writing: the device is the flat array written at `off`, as far as the
        request lies in it, and every other byte of the disk is as it was. */
    method WriteBytes(d: Device, off: U32, b: seq<Byte>) returns (done: nat)
      requires Valid() && DeviceOk(d, sectors) && |b| < TWO_32
      modifies this
      ensures Valid() && done == InRange(SECTOR * Sectors(d, sectors), off, |b|)
      ensures Bytes(d) == FlatWrite(old(Bytes(d)), off, b)
      ensures data[..SECTOR * Start(d)] == old(data[..SECTOR * Start(d)])
      ensures var end := SECTOR * (Start(d) + Sectors(d, sectors));
              data[end..] == old(data[end..])
    {
      done := WriteLoop(d, off, b);
      ghost var start, end := SECTOR * Start(d), SECTOR * (Start(d) + Sectors(d, sectors));
      DeviceWriteIsFlat(old(data), data, start, end, off, b, done);
    }
  }

  lemma SliceOfPart(data: seq<Byte>, base: nat, n: nat, i: nat, k: nat)
    requires base + n <= |data| && i + k <= n
    ensures data[base..base + n][i..i + k] == data[base + i..base + i + k]
  {
    var part := data[base..base + n];
    var a, b := part[i..i + k], data[base + i..base + i + k];
    forall j | 0 <= j < k ensures a[j] == b[j] {
      assert a[j] == part[i + j];
    }
  }

  lemma NothingPastTheEnd(all: seq<Byte>, off: nat, size: nat, out: seq<Byte>, lba: nat, soff: nat)
    requires |out| < size && SECTOR * lba + soff == off + |out| && |all| <= SECTOR * lba
    requires |out| > 0 ==> off + |out| <= |all| && out == all[off..off + |out|]
    ensures out == FlatRead(all, off, size)
  {
  }

  lemma NextChunk(all: seq<Byte>, off: nat, out: seq<Byte>, lba: nat, soff: nat, chunk: nat, sec: seq<Byte>)
    requires SECTOR * lba + soff == off + |out| && soff + chunk <= SECTOR && SECTOR * lba + SECTOR <= |all|
    requires sec == all[SECTOR * lba..SECTOR * lba + SECTOR] && (|out| > 0 ==> off + |out| <= |all| && out == all[off..off + |out|])
    ensures out + sec[soff..soff + chunk] == all[off..off + |out| + chunk]
  {
    SliceOfPart(all, SECTOR * lba, SECTOR, soff, chunk);
    assert all[off..off + |out| + chunk] == all[off..off + |out|] + all[off + |out|..off + |out| + chunk];
  }

  /** Writing back a sector with a part of it changed changes that part. */
  lemma SpliceTwice(data: seq<Byte>, at: nat, sec: seq<Byte>, soff: nat, b: seq<Byte>)
    requires at + |sec| <= |data| && sec == data[at..at + |sec|] && soff + |b| <= |sec|
    ensures Splice(data, at, Splice(sec, soff, b)) == Splice(data, at + soff, b)
  {
    var s := Splice(sec, soff, b);
    var one, two := Splice(data, at, s), Splice(data, at + soff, b);
    forall k | 0 <= k < |data| ensures one[k] == two[k] {
      SpliceAt(data, at, s, k);
      SpliceAt(data, at + soff, b, k);
      if at <= k < at + |sec| {
        SpliceAt(sec, soff, b, k - at);
      }
    }
  }

  lemma SpliceNext(data: seq<Byte>, at: nat, b: seq<Byte>, done: nat, chunk: nat)
    requires done + chunk <= |b| && at + done + chunk <= |data|
    ensures Splice(Splice(data, at, b[..done]), at + done, b[done..done + chunk]) == Splice(data, at, b[..done + chunk])
  {
    var one := Splice(data, at, b[..done]);
    var two, both := Splice(one, at + done, b[done..done + chunk]), Splice(data, at, b[..done + chunk]);
    forall k | 0 <= k < |data| ensures two[k] == both[k] {
      SpliceAt(data, at, b[..done], k);
      SpliceAt(one, at + done, b[done..done + chunk], k);
      SpliceAt(data, at, b[..done + chunk], k);
    }
  }

  /** The disk after the first `done` bytes of `b` have been written at `at`. */
  function Written(data: seq<Byte>, at: nat, b: seq<Byte>, done: nat): seq<Byte>
    requires done <= |b| && (done == 0 || at + done <= |data|)
  {
    if done == 0 then data else Splice(data, at, b[..done])
  }

  lemma WrittenNext(data: seq<Byte>, at: nat, b: seq<Byte>, done: nat, chunk: nat, next: nat)
    requires done + chunk <= |b| && at + done + chunk <= |data| && chunk > 0 && next == at + done
    ensures Splice(Written(data, at, b, done), next, b[done..done + chunk]) == Written(data, at, b, done + chunk)
  {
    if done > 0 {
      SpliceNext(data, at, b, done, chunk);
    } else {
      assert b[0..chunk] == b[..chunk];
    }
  }

  /** Writing to a device leaves its flat array written and every sector outside it as it
      was. */
  lemma DeviceWriteIsFlat(data: seq<Byte>, after: seq<Byte>, start: nat, end: nat, off: nat, b: seq<Byte>, done: nat)
    requires start <= end <= |data| && done == InRange(end - start, off, |b|) && after == Written(data, start + off, b, done)
    ensures |after| == |data| && after[start..end] == FlatWrite(data[start..end], off, b)
    ensures after[..start] == data[..start] && after[end..] == data[end..]
  {
    if done > 0 {
      SpliceInPart(data, start, end - start, off, b[..done]);
    }
  }

  lemma SpliceInPart(data: seq<Byte>, start: nat, n: nat, off: nat, c: seq<Byte>)
    requires start + n <= |data| && off + |c| <= n
    ensures var after := Splice(data, start + off, c);
            && after[start..start + n] == Splice(data[start..start + n], off, c)
            && after[..start] == data[..start] && after[start + n..] == data[start + n..]
  {
    var after, was := Splice(data, start + off, c), data[start..start + n];
    var part, flat := after[start..start + n], Splice(was, off, c);
    forall k | 0 <= k < n ensures part[k] == flat[k] {
      SpliceAt(data, start + off, c, start + k);
      SpliceAt(was, off, c, k);
    }
  }
}
