/** The cctkfs archive format (drivers/initfs/cctkfs.h): how an archive is laid out
    as bytes, and how the bytes are read back. */
module Cctkfs {
  import opened MachineInts
  import opened ImageBytes

  const MAGIC: nat := 0x53464B43
  const VERSION: nat := 1
  const HEADER_SIZE: nat := 32
  const ENTRY_SIZE: nat := 24
  const TAG_SIZE: nat := 32

  datatype Entry = Entry(nameOff: U32, nameLen: U32, flags: U32, data: seq<Byte>)

  /** `namesSize` is the announced size of the name blob; the two differ only when the
      blob was cut short by the end of a damaged file. */
  datatype Archive = Archive(names: seq<Byte>, namesSize: U32, entries: seq<Entry>)

  /** The two external functions: the HMAC-SHA-256 tag of a blob and the CRC-32 of an image. */
  datatype Env = Env(hmac: seq<Byte> -> seq<Byte>, crc: seq<Byte> -> U32)

  ghost predicate EnvOk(env: Env) {
    forall b: seq<Byte> :: |env.hmac(b)| == TAG_SIZE
  }

  function AlignUp(v: nat, align: nat): nat
    requires align > 0
  {
    (v + align - 1) / align * align
  }

  /** Zero bytes up to the next multiple of 16. */
  function Pad(n: nat): (p: seq<Byte>)
    ensures |p| == (16 - n % 16) % 16
  {
    seq((16 - n % 16) % 16, i => 0)
  }

  lemma PadAligns(n: nat)
    ensures n + |Pad(n)| == AlignUp(n, 16) && AlignUp(n, 16) % 16 == 0
  {
    var q, r := n / 16, n % 16;
    assert (n + 15) / 16 == if r == 0 then q else q + 1;
  }

  lemma NextOffset(off: nat, n: nat)
    requires off % 16 == 0
    ensures AlignUp(off + n, 16) == off + n + |Pad(n)| && AlignUp(off + n, 16) % 16 == 0
  {
  }

  lemma SliceAfter<T>(p: seq<T>, q: seq<T>, i: nat, j: nat)
    requires i <= j <= |q|
    ensures (p + q)[|p| + i..|p| + j] == q[i..j]
  {
  }

  // ---- Layout --------------------------------------------------------------------

  function NamesOff(a: Archive): nat {
    AlignUp(HEADER_SIZE + |a.entries| * ENTRY_SIZE, 8)
  }

  function DataStart(a: Archive): nat {
    AlignUp(NamesOff(a) + a.namesSize, 16)
  }

  /** The announced data offset of each entry. */
  function Offsets(es: seq<Entry>, off: nat): (o: seq<nat>)
    ensures |o| == |es|
  {
    if es == [] then [] else [off] + Offsets(es[1..], AlignUp(off + |es[0].data|, 16))
  }

  function EntryWords(es: seq<Entry>, off: nat): (w: seq<nat>)
    ensures |w| == 6 * |es|
  {
    if es == [] then []
    else [es[0].nameOff, es[0].nameLen, off, |es[0].data|, es[0].flags, 0] + EntryWords(es[1..], AlignUp(off + |es[0].data|, 16))
  }

  function DataBytes(es: seq<Entry>): seq<Byte> {
    if es == [] then [] else es[0].data + Pad(|es[0].data|) + DataBytes(es[1..])
  }

  function HeaderWords(a: Archive, total: nat, crc: nat): (w: seq<nat>)
    ensures |w| == 8
  {
    [MAGIC, VERSION, total, |a.entries|, HEADER_SIZE, NamesOff(a), a.namesSize, crc]
  }

  function Tail(a: Archive): seq<Byte> {
    a.names + Pad(NamesOff(a) + |a.names|) + DataBytes(a.entries)
  }

  function Total(a: Archive): nat {
    HEADER_SIZE + ENTRY_SIZE * |a.entries| + |Tail(a)|
  }

  function AllWords(a: Archive, crc: nat): (w: seq<nat>)
    ensures |w| == 8 + 6 * |a.entries|
  {
    HeaderWords(a, Total(a), crc) + EntryWords(a.entries, DataStart(a))
  }

  /** The archive as bytes, with the given checksum word. */
  function Image(a: Archive, crc: nat): (img: seq<Byte>)
    ensures |img| == Total(a)
  {
    Words(AllWords(a, crc)) + Tail(a)
  }

  /** The archive as bytes, sealed with the checksum of the image whose field is zero. */
  function Build(env: Env, a: Archive): seq<Byte> {
    Image(a, env.crc(Image(a, 0)))
  }

  /** The announced name-blob size is the real one, and the image fits 32-bit offsets. */
  predicate ArchiveOk(a: Archive) {
    a.namesSize == |a.names| && Total(a) < TWO_32
  }

  // ---- Where things are --------------------------------------------------------------

  lemma EightDivides(n: nat)
    ensures AlignUp(HEADER_SIZE + n * ENTRY_SIZE, 8) == HEADER_SIZE + ENTRY_SIZE * n
  {
    EightUp(4 + 3 * n);
  }

  lemma EightUp(k: nat)
    ensures AlignUp(8 * k, 8) == 8 * k
  {
  }

  lemma NamesAreAligned(a: Archive)
    requires a.namesSize == |a.names|
    ensures NamesOff(a) == HEADER_SIZE + ENTRY_SIZE * |a.entries| && DataStart(a) % 16 == 0
    ensures NamesOff(a) + |a.names| + |Pad(NamesOff(a) + |a.names|)| == DataStart(a)
    ensures Total(a) == DataStart(a) + |DataBytes(a.entries)|
  {
    EightDivides(|a.entries|);
    PadAligns(NamesOff(a) + |a.names|);
  }

  lemma {:induction false} EntryWordsAt(es: seq<Entry>, off: nat, i: nat)
    requires i < |es|
    ensures EntryWords(es, off)[6 * i..6 * i + 6]
            == [es[i].nameOff, es[i].nameLen, Offsets(es, off)[i], |es[i].data|, es[i].flags, 0]
  {
    var next := AlignUp(off + |es[0].data|, 16);
    var w := EntryWords(es[1..], next);
    if i > 0 {
      EntryWordsAt(es[1..], next, i - 1);
      assert EntryWords(es, off)[6 * i..6 * i + 6] == w[6 * (i - 1)..6 * (i - 1) + 6];
    }
  }

  /** The bytes of blob `i` lie at `o`. */
  predicate HasBlob(es: seq<Entry>, i: nat, o: int)
    requires i < |es|
  {
    0 <= o && o + |es[i].data| <= |DataBytes(es)| && DataBytes(es)[o..o + |es[i].data|] == es[i].data
  }

  lemma FirstBlob(es: seq<Entry>)
    requires es != []
    ensures HasBlob(es, 0, 0)
  {
    FirstSlice(es[0].data, Pad(|es[0].data|), DataBytes(es[1..]));
  }

  lemma LaterBlob(es: seq<Entry>, i: nat, was: int, o: int)
    requires 0 < i < |es| && HasBlob(es[1..], i - 1, was) && o == |es[0].data| + |Pad(|es[0].data|)| + was
    ensures HasBlob(es, i, o)
  {
    SliceAfter(es[0].data + Pad(|es[0].data|), DataBytes(es[1..]), was, was + |es[i].data|);
  }

  lemma LaterOffset(es: seq<Entry>, off: nat, i: nat, next: nat)
    requires 0 < i < |es| && next == AlignUp(off + |es[0].data|, 16)
    ensures Offsets(es, off)[i] == Offsets(es[1..], next)[i - 1]
  {
  }

  /** The announced offset of blob `i` is its real position. */
  lemma {:induction false} BlobAt(es: seq<Entry>, off: nat, i: nat)
    requires i < |es| && off % 16 == 0
    ensures HasBlob(es, i, Offsets(es, off)[i] - off)
  {
    if i > 0 {
      var next := off + |es[0].data| + |Pad(|es[0].data|)|;
      NextOffset(off, |es[0].data|);
      LaterOffset(es, off, i, next);
      BlobAt(es[1..], next, i - 1);
      LaterBlob(es, i, Offsets(es[1..], next)[i - 1] - next, Offsets(es, off)[i] - off);
    } else {
      FirstBlob(es);
    }
  }

  lemma FirstSlice<T>(p: seq<T>, q: seq<T>, r: seq<T>)
    ensures (p + q + r)[0..|p|] == p
  {
  }

  lemma ImageStartsWithWords(a: Archive, crc: nat)
    ensures Words(AllWords(a, crc)) <= Image(a, crc)
  {
  }

  /** The header words read back. */
  lemma HeaderReadsBack(a: Archive, crc: U32)
    requires Total(a) < TWO_32
    ensures var img := Image(a, crc);
            && Rd32(img, 0) == MAGIC && Rd32(img, 4) == VERSION && Rd32(img, 8) == Total(a) && Rd32(img, 12) == |a.entries|
            && Rd32(img, 16) == HEADER_SIZE && Rd32(img, 20) == NamesOff(a) && Rd32(img, 24) == a.namesSize && Rd32(img, 28) == crc
  {
    var img, w := Image(a, crc), AllWords(a, crc);
    EightDivides(|a.entries|);
    ImageStartsWithWords(a, crc);
    ReadWord(w, img, 0, 0);
    ReadWord(w, img, 1, 4);
    ReadWord(w, img, 2, 8);
    ReadWord(w, img, 3, 12);
    ReadWord(w, img, 4, 16);
    ReadWord(w, img, 5, 20);
    ReadWord(w, img, 6, 24);
    ReadWord(w, img, 7, 28);
  }

  function EntryOff(i: nat): nat {
    HEADER_SIZE + ENTRY_SIZE * i
  }

  lemma OffsetInImage(a: Archive, i: nat)
    requires i < |a.entries| && a.namesSize == |a.names|
    ensures var o := Offsets(a.entries, DataStart(a))[i]; DataStart(a) <= o && o + |a.entries[i].data| <= Total(a)
  {
    NamesAreAligned(a);
    BlobAt(a.entries, DataStart(a), i);
  }

  /** Word `j` of directory entry `i`. */
  lemma EntryFieldReadsBack(a: Archive, crc: U32, i: nat, j: nat, off: nat, x: U32)
    requires i < |a.entries| && j < 6 && off == EntryOff(i) + 4 * j
    requires x == [a.entries[i].nameOff, a.entries[i].nameLen, Offsets(a.entries, DataStart(a))[i],
                   |a.entries[i].data|, a.entries[i].flags, 0][j]
    ensures off + 4 <= Total(a) && Rd32(Image(a, crc), off) == x
  {
    EntryWordsAt(a.entries, DataStart(a), i);
    var w := EntryWords(a.entries, DataStart(a));
    assert w[6 * i + j] == w[6 * i..6 * i + 6][j];
    ReadWord(AllWords(a, crc), Image(a, crc), 8 + (6 * i + j), off);
  }

  /** The words of directory entry `i` read back. */
  lemma EntryReadsBack(a: Archive, crc: U32, i: nat)
    requires ArchiveOk(a) && i < |a.entries|
    ensures EntryOff(i) + ENTRY_SIZE <= Total(a)
    ensures EntryHolds(Image(a, crc), i, a.entries[i], Offsets(a.entries, DataStart(a))[i])
  {
    OffsetInImage(a, i);
    var e, o := a.entries[i], EntryOff(i);
    EntryFieldReadsBack(a, crc, i, 0, o, e.nameOff);
    EntryFieldReadsBack(a, crc, i, 1, o + 4, e.nameLen);
    EntryFieldReadsBack(a, crc, i, 2, o + 8, Offsets(a.entries, DataStart(a))[i]);
    EntryFieldReadsBack(a, crc, i, 3, o + 12, |e.data|);
    EntryFieldReadsBack(a, crc, i, 4, o + 16, e.flags);
  }

  ghost predicate EntryHolds(img: seq<Byte>, i: nat, e: Entry, off: nat)
    requires EntryOff(i) + ENTRY_SIZE <= |img|
  {
    && Rd32(img, EntryOff(i)) == e.nameOff && Rd32(img, EntryOff(i) + 4) == e.nameLen
    && Rd32(img, EntryOff(i) + 8) == off && Rd32(img, EntryOff(i) + 12) == |e.data|
    && Rd32(img, EntryOff(i) + 16) == e.flags
  }

  /** The name blob is where the header says. */
  lemma NamesReadBack(a: Archive, crc: U32)
    requires a.namesSize == |a.names|
    ensures NamesOff(a) + |a.names| <= Total(a) && Image(a, crc)[NamesOff(a)..NamesOff(a) + |a.names|] == a.names
  {
    NamesAreAligned(a);
    var w := Words(AllWords(a, crc));
    assert |w| == NamesOff(a);
    assert Image(a, crc) == w + (a.names + (Pad(NamesOff(a) + |a.names|) + DataBytes(a.entries)));
  }

  /** Each blob is where its directory entry says. */
  lemma BlobReadsBack(a: Archive, crc: U32, i: nat)
    requires i < |a.entries| && a.namesSize == |a.names|
    ensures var o := Offsets(a.entries, DataStart(a))[i];
            o + |a.entries[i].data| <= Total(a) && Image(a, crc)[o..o + |a.entries[i].data|] == a.entries[i].data
  {
    NamesAreAligned(a);
    BlobAt(a.entries, DataStart(a), i);
    var o := Offsets(a.entries, DataStart(a))[i];
    var before := Words(AllWords(a, crc)) + a.names + Pad(NamesOff(a) + |a.names|);
    assert |before| == DataStart(a);
    assert Image(a, crc) == before + DataBytes(a.entries);
    SliceAfter(before, DataBytes(a.entries), o - DataStart(a), o - DataStart(a) + |a.entries[i].data|);
  }

  // ---- Reading an archive ------------------------------------------------------------

  /** A slice cut short at the end of the file. */
  function Slice(img: seq<Byte>, off: nat, n: nat): (s: seq<Byte>)
    ensures off + n <= |img| ==> s == img[off..off + n]
  {
    if |img| <= off then [] else if |img| < off + n then img[off..] else img[off..off + n]
  }

  function ReadEntry(img: seq<Byte>, off: nat): Entry
    requires off + ENTRY_SIZE <= |img|
  {
    Entry(Rd32(img, off), Rd32(img, off + 4), Rd32(img, off + 16), Slice(img, Rd32(img, off + 8), Rd32(img, off + 12)))
  }

  function ReadEntries(img: seq<Byte>, off: nat, n: nat): (es: seq<Entry>)
    requires n == 0 || off + ENTRY_SIZE * n <= |img|
    ensures |es| == n && forall i | 0 <= i < n :: es[i] == ReadEntry(img, off + ENTRY_SIZE * i)
  {
    seq(n, i requires 0 <= i < n && off + ENTRY_SIZE * n <= |img| => ReadEntry(img, off + ENTRY_SIZE * i))
  }

  /** The archive a file holds; none when the file is too small, has another magic
      number, or ends before its directory does. */
  function ReadArchive(img: seq<Byte>): Option<Archive> {
    if |img| < HEADER_SIZE || Rd32(img, 0) != MAGIC then None
    else if Rd32(img, 12) != 0 && |img| < Rd32(img, 16) + ENTRY_SIZE * Rd32(img, 12) then None
    else Some(Archive(Slice(img, Rd32(img, 20), Rd32(img, 24)), Rd32(img, 24), ReadEntries(img, Rd32(img, 16), Rd32(img, 12))))
  }

  lemma EntryParses(a: Archive, crc: U32, i: nat)
    requires ArchiveOk(a) && i < |a.entries|
    ensures EntryOff(i) + ENTRY_SIZE <= Total(a) && ReadEntry(Image(a, crc), EntryOff(i)) == a.entries[i]
  {
    EntryReadsBack(a, crc, i);
    BlobReadsBack(a, crc, i);
  }

  lemma EntriesParse(a: Archive, crc: U32)
    requires ArchiveOk(a)
    ensures EntryOff(|a.entries|) <= Total(a)
    ensures ReadEntries(Image(a, crc), HEADER_SIZE, |a.entries|) == a.entries
  {
    forall i | 0 <= i < |a.entries|
      ensures ReadEntries(Image(a, crc), HEADER_SIZE, |a.entries|)[i] == a.entries[i]
    {
      EntryParses(a, crc, i);
    }
  }

  lemma FieldsMakeArchive(img: seq<Byte>, a: Archive, namesOff: nat)
    requires HEADER_SIZE <= |img| && Rd32(img, 0) == MAGIC && Rd32(img, 12) == |a.entries| && Rd32(img, 16) == HEADER_SIZE
    requires Rd32(img, 20) == namesOff && Rd32(img, 24) == a.namesSize && Slice(img, namesOff, a.namesSize) == a.names
    requires EntryOff(|a.entries|) <= |img| && ReadEntries(img, HEADER_SIZE, |a.entries|) == a.entries
    ensures ReadArchive(img) == Some(a)
  {
  }

  /** Reading an image back gives the archive it was laid out from: all announced
      offsets and sizes are the real ones. */
  lemma LayoutRoundTrip(a: Archive, crc: U32)
    requires ArchiveOk(a)
    ensures ReadArchive(Image(a, crc)) == Some(a)
  {
    HeaderReadsBack(a, crc);
    NamesReadBack(a, crc);
    EntriesParse(a, crc);
    FieldsMakeArchive(Image(a, crc), a, NamesOff(a));
  }
}
