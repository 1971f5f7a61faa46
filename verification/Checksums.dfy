/** Running checksums over a 32-bit register. */
module Checksums {
  import opened MachineInts
  import opened ImageBytes

  /** The register after the bytes of `s`. */
  function Fold<T>(step: (T, Byte) -> T, c: T, s: seq<Byte>): T
    decreases |s|
  {
    if s == [] then c else Fold(step, step(c, s[0]), s[1..])
  }

  /** Steps that agree everywhere leave the same register. */
  lemma {:induction false} FoldSame<T(!new)>(f: (T, Byte) -> T, g: (T, Byte) -> T, c: T, s: seq<Byte>)
    requires forall c, b :: f(c, b) == g(c, b)
    ensures Fold(f, c, s) == Fold(g, c, s)
    decreases |s|
  {
    if s != [] {
      FoldSame(f, g, f(c, s[0]), s[1..]);
    }
  }

  /** The loop of `compute_image_crc32`: it treats the checksum field as zero. */
  method FoldImage(step: (bv32, Byte) -> bv32, init: bv32, img: seq<Byte>) returns (c: bv32)
    ensures c == Fold(step, init, WithoutChecksum(img))
  {
    ghost var z := WithoutChecksum(img);
    c := init;
    var i := 0;
    while i < |img|
      invariant 0 <= i <= |img|
      invariant Fold(step, c, z[i..]) == Fold(step, init, z)
    {
      var b := img[i];
      if i >= CKSUM_OFF && i < CKSUM_OFF + 4 {
        b := 0;
      }
      assert z[i..][1..] == z[i + 1..];
      c := step(c, b);
      i := i + 1;
    }
  }

  /** The CRC-32 of a byte string, for the register step `step`. */
  function Crc(step: (bv32, Byte) -> bv32, s: seq<Byte>): bv32 {
    Fold(step, 0xFFFF_FFFF, s) ^ 0xFFFF_FFFF
  }

  /** The loop of `compute_image_crc32`, skipping the checksum field. */
  method ImageCrc(step: (bv32, Byte) -> bv32, img: seq<Byte>) returns (crc: bv32)
    ensures crc == Crc(step, WithoutChecksum(img))
  {
    var c := FoldImage(step, 0xFFFF_FFFF, img);
    crc := c ^ 0xFFFF_FFFF;
  }
}
