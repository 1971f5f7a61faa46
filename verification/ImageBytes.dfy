/** Little-endian words in byte images. */
module ImageBytes {
  import opened MachineInts

  function Le32(x: nat): (b: seq<Byte>)
    ensures |b| == 4
  {
    [x % 256, x / 256 % 256, x / 65536 % 256, x / 16777216 % 256]
  }

  function Rd32(img: seq<Byte>, off: nat): U32
    requires off + 4 <= |img|
  {
    var b0: int, b1: int, b2: int, b3: int := img[off], img[off + 1], img[off + 2], img[off + 3];
    b0 + 256 * b1 + 65536 * b2 + 16777216 * b3
  }

  lemma Digits(x: nat)
    requires x < TWO_32
    ensures x % 256 + 256 * (x / 256 % 256) + 65536 * (x / 65536 % 256) + 16777216 * (x / 16777216 % 256) == x
  {
  }

  /** Reading a word back where it was written. */
  lemma WordRoundTrip(img: seq<Byte>, off: nat, x: nat)
    requires off + 4 <= |img| && img[off..off + 4] == Le32(x) && x < TWO_32
    ensures Rd32(img, off) == x
  {
    var v := img[off..off + 4];
    assert v[0] == img[off] && v[1] == img[off + 1] && v[2] == img[off + 2] && v[3] == img[off + 3];
    Digits(x);
  }

  function Words(ws: seq<nat>): (b: seq<Byte>)
    ensures |b| == 4 * |ws|
  {
    if ws == [] then [] else Le32(ws[0]) + Words(ws[1..])
  }

  lemma {:induction false} WordsAt(ws: seq<nat>, i: nat)
    requires i < |ws|
    ensures Words(ws)[4 * i..4 * i + 4] == Le32(ws[i])
  {
    if i > 0 {
      WordsAt(ws[1..], i - 1);
      var t := Words(ws[1..]);
      assert Words(ws)[4 * i..4 * i + 4] == t[4 * (i - 1)..4 * (i - 1) + 4];
    }
  }

  lemma {:induction false} WordsAppend(v: seq<nat>, w: seq<nat>)
    ensures Words(v + w) == Words(v) + Words(w)
  {
    if v == [] {
      assert v + w == w;
    } else {
      assert (v + w)[1..] == v[1..] + w;
      WordsAppend(v[1..], w);
    }
  }

  lemma PrefixSlice<T>(p: seq<T>, s: seq<T>, i: nat, j: nat)
    requires p <= s && i <= j <= |p|
    ensures s[i..j] == p[i..j]
  {
  }

  /** Reading word `i` of an image that starts with `Words(ws)`. */
  lemma ReadWord(ws: seq<nat>, img: seq<Byte>, i: nat, off: nat)
    requires i < |ws| && ws[i] < TWO_32 && Words(ws) <= img && off == 4 * i
    ensures Rd32(img, off) == ws[i]
  {
    WordsAt(ws, i);
    PrefixSlice(Words(ws), img, off, off + 4);
    WordRoundTrip(img, off, ws[i]);
  }

  /** The image with the word at `off` overwritten. */
  function PutWord(img: seq<Byte>, off: nat, x: nat): (r: seq<Byte>)
    requires off + 4 <= |img|
    ensures |r| == |img|
  {
    img[..off] + Le32(x) + img[off + 4..]
  }

  /** Writing a word changes its four bytes and no others. */
  lemma PutWordBytes(img: seq<Byte>, off: nat, x: nat)
    requires off + 4 <= |img|
    ensures PutWord(img, off, x)[off..off + 4] == Le32(x)
    ensures forall i | 0 <= i < |img| && !(off <= i < off + 4) :: PutWord(img, off, x)[i] == img[i]
  {
  }

  /** The image with `b` written at `at`. */
  function Splice(img: seq<Byte>, at: nat, b: seq<Byte>): (r: seq<Byte>)
    requires at + |b| <= |img|
    ensures |r| == |img|
  {
    img[..at] + b + img[at + |b|..]
  }

  lemma SpliceAt(img: seq<Byte>, at: nat, b: seq<Byte>, k: nat)
    requires at + |b| <= |img| && k < |img|
    ensures Splice(img, at, b)[k] == if at <= k < at + |b| then b[k - at] else img[k]
  {
  }

  /** `memcpy` into a buffer. */
  method CopyInto(image: array<Byte>, at: nat, b: seq<Byte>)
    requires at + |b| <= image.Length
    modifies image
    ensures image[..] == Splice(old(image[..]), at, b)
  {
    for k := 0 to |b|
      invariant image[at..at + k] == b[..k]
      invariant image[..at] == old(image[..at]) && image[at + |b|..] == old(image[at + |b|..])
    {
      image[at + k] := b[k];
      assert image[at..at + (k + 1)] == b[..k + 1];
    }
    assert image[at..at + |b|] == b;
    assert image[..] == image[..at] + image[at..at + |b|] + image[at + |b|..];
  }

  const CKSUM_OFF: nat := 28

  /** The image with its checksum field zeroed. */
  function WithoutChecksum(img: seq<Byte>): (z: seq<Byte>)
    ensures |z| == |img|
    ensures forall i | 0 <= i < |img| :: z[i] == if CKSUM_OFF <= i < CKSUM_OFF + 4 then 0 else img[i]
  {
    seq(|img|, i requires 0 <= i < |img| => if CKSUM_OFF <= i < CKSUM_OFF + 4 then 0 else img[i])
  }
}
