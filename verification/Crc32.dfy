/** CRC-32 two ways: bit by bit, as section 8 of RFC 1952 and the signer's library define
    it, and by the kernel's table (drivers/initfs/initfs_modblob.c).  They are the same
    function of every byte string. */
module Crc32 {
  import opened MachineInts
  import opened Checksums
  import opened ImageBytes
  import opened Crc32Register
  import opened Crc32Table

  function Wide(b: Byte): (w: bv32)
    ensures w < 256
  {
    (b as bv8) as bv32
  }

  /** One byte through the shift register. */
  function SerialStep(c: bv32, b: Byte): bv32 {
    Iter(Bit, Xor(c, Wide(b)), 8)
  }

  lemma NatRoundTrip(y: bv32)
    ensures (y as nat) as bv32 == y
  {
  }

  lemma SmallIndex(y: bv32)
    requires y < 256
    ensures y as nat < 256
  {
  }

  /** The table index for the register and byte combined into `x`. */
  function Index(x: bv32): (i: nat)
    ensures i < 256 && i as bv32 == x & 0xFF
  {
    SmallIndex(x & 0xFF);
    NatRoundTrip(x & 0xFF);
    (x & 0xFF) as nat
  }

  /** The words of `tab` are the register's. */
  ghost predicate IsTable(tab: seq<bv32>) {
    |tab| == 256 && forall i | 0 <= i < 256 :: tab[i] == Iter(Bit, i as bv32, 8)
  }

  /** One byte through a table of 256 words. */
  function TableStep(tab: seq<bv32>, c: bv32, b: Byte): bv32
    requires |tab| == 256
  {
    Xor(tab[Index(Xor(c, Wide(b)))], c >> 8)
  }

  lemma ByteShiftsOut(c: bv32, w: bv32)
    requires w < 256
    ensures (c ^ w) >> 8 == c >> 8
  {
  }

  /** The low byte's word and the shifted register make up one byte's step. */
  lemma OneByte(c: bv32, w: bv32, e: bv32)
    requires w < 256 && e == Iter(Bit, Xor(c, w) & 0xFF, 8)
    ensures Xor(e, c >> 8) == Iter(Bit, Xor(c, w), 8)
  {
    ByteShiftsOut(c, w);
    LowByteDecides(c ^ w);
  }

  lemma EntryAt(tab: seq<bv32>, x: bv32, i: nat)
    requires IsTable(tab) && i < 256 && i as bv32 == x & 0xFF
    ensures tab[i] == Iter(Bit, x & 0xFF, 8)
  {
  }

  lemma StepAt(tab: seq<bv32>, c: bv32, w: bv32, i: nat)
    requires IsTable(tab) && w < 256 && i < 256 && i as bv32 == Xor(c, w) & 0xFF
    ensures Xor(tab[i], c >> 8) == Iter(Bit, Xor(c, w), 8)
  {
    EntryAt(tab, Xor(c, w), i);
    OneByte(c, w, tab[i]);
  }

  lemma StepsAgree(tab: seq<bv32>, c: bv32, b: Byte)
    requires IsTable(tab)
    ensures TableStep(tab, c, b) == SerialStep(c, b)
  {
    StepAt(tab, c, Wide(b), Index(Xor(c, Wide(b))));
  }

  lemma KernelTable()
    ensures IsTable(CRC32_TAB)
  {
    forall i | 0 <= i < 256 ensures |CRC32_TAB| == 256 && CRC32_TAB[i] == Iter(Bit, i as bv32, 8) {
      TableIsComputed(i);
    }
  }

  /** One byte through the kernel's table. */
  function KernelStep(c: bv32, b: Byte): (d: bv32)
    ensures d == SerialStep(c, b)
  {
    KernelTable();
    StepsAgree(CRC32_TAB, c, b);
    TableStep(CRC32_TAB, c, b)
  }

  function SerialCrc(s: seq<Byte>): U32 {
    Crc(SerialStep, s) as int
  }

  function TableCrc(s: seq<Byte>): U32 {
    Crc(KernelStep, s) as int
  }

  /** The kernel's table CRC is the bit-serial CRC. */
  lemma TableCrcIsSerialCrc(s: seq<Byte>)
    ensures TableCrc(s) == SerialCrc(s)
  {
    FoldSame(KernelStep, SerialStep, 0xFFFF_FFFF, s);
  }

  /** `compute_image_crc32`, with the constant table: the bit-serial CRC-32 of the image
      with its checksum field zeroed. */
  method ComputeImageCrc32(img: seq<Byte>) returns (crc: U32)
    ensures crc == SerialCrc(WithoutChecksum(img))
  {
    var c := ImageCrc(KernelStep, img);
    TableCrcIsSerialCrc(WithoutChecksum(img));
    crc := c as int;
  }
}
