/** The kernel's side of the archive (drivers/initfs/initfs_modblob.c): the header check
    with its 32-bit sums, and the lookup by path and then by base name. */
module CctkfsReader {
  import opened MachineInts
  import opened ImageBytes
  import opened Cctkfs

  const MAX_IMAGE: nat := 4096 * 4096
  const SLASH: Byte := 47

  function Add32(a: U32, b: U32): U32 {
    (a + b) % TWO_32
  }

  /** The tests of the size and offset fields, in their order. */
  function CheckFields(total: U32, count: U32, entriesOff: U32, namesOff: U32, namesSize: U32, size: nat): int {
    if total != size then -4
    else if entriesOff < HEADER_SIZE then -5
    else
      var namesEnd := Add32(namesOff, namesSize);
      if namesEnd < namesOff || namesEnd > size then -6
      else if count > 0xFFFF_FFFF / ENTRY_SIZE then -7
      else
        var entriesEnd := Add32(entriesOff, count * ENTRY_SIZE % TWO_32);
        if entriesEnd < entriesOff || entriesEnd > namesOff then -7 else 0
  }

  lemma CheckFieldsIsExact(total: U32, count: U32, entriesOff: U32, namesOff: U32, namesSize: U32, size: nat)
    ensures CheckFields(total, count, entriesOff, namesOff, namesSize, size) == 0
            <==> InRange(total, count, entriesOff, namesOff, namesSize, size)
  {
    Add32Carries(namesOff, namesSize);
    if count <= 0xFFFF_FFFF / ENTRY_SIZE {
      Add32Carries(entriesOff, count * ENTRY_SIZE);
    }
  }

  predicate InRange(total: U32, count: U32, entriesOff: U32, namesOff: U32, namesSize: U32, size: nat) {
    && total == size && HEADER_SIZE <= entriesOff
    && entriesOff + ENTRY_SIZE * count <= namesOff && namesOff + namesSize <= size
  }

  /** `validate_header`: 0, or the code of the first check that fails. */
  function Validate(crc: seq<Byte> -> U32, img: seq<Byte>): int {
    if |img| < HEADER_SIZE then -1
    else if Rd32(img, 0) != MAGIC then -2
    else if Rd32(img, 4) != VERSION then -3
    else
      var rc := CheckFields(Rd32(img, 8), Rd32(img, 12), Rd32(img, 16), Rd32(img, 20), Rd32(img, 24), |img|);
      if rc != 0 then rc
      else if Rd32(img, 28) != 0 && Rd32(img, 28) != crc(WithoutChecksum(img)) then -8
      else 0
  }

  /** Directory, then names, all inside the image. */
  ghost predicate Accepted(img: seq<Byte>) {
    && HEADER_SIZE <= |img| && Rd32(img, 0) == MAGIC && Rd32(img, 4) == VERSION
    && InRange(Rd32(img, 8), Rd32(img, 12), Rd32(img, 16), Rd32(img, 20), Rd32(img, 24), |img|)
  }

  /** The wrapping checks accept exactly the images whose true sums are in range and
      whose checksum, when there is one, is right. */
  lemma ValidateIsExact(crc: seq<Byte> -> U32, img: seq<Byte>)
    ensures Validate(crc, img) == 0
            <==> Accepted(img) && (Rd32(img, 28) == 0 || Rd32(img, 28) == crc(WithoutChecksum(img)))
  {
    if HEADER_SIZE <= |img| {
      CheckFieldsIsExact(Rd32(img, 8), Rd32(img, 12), Rd32(img, 16), Rd32(img, 20), Rd32(img, 24), |img|);
    }
  }

  /** A 32-bit sum falls below its first operand exactly when it wraps. */
  lemma Add32Carries(a: U32, b: U32)
    ensures Add32(a, b) < a <==> a + b >= TWO_32
    ensures a + b < TWO_32 ==> Add32(a, b) == a + b
  {
    assert a + b < TWO_32 || (a + b) % TWO_32 == a + b - TWO_32;
  }

  // ---- Names -----------------------------------------------------------------------------

  /** Where the last path component starts. */
  function BaseStart(s: seq<Byte>): (b: nat)
    ensures b <= |s| && (b == 0 || s[b - 1] == SLASH) && forall i | b <= i < |s| :: s[i] != SLASH
  {
    if s == [] then 0 else if s[|s| - 1] == SLASH then |s| else BaseStart(s[..|s| - 1])
  }

  function Base(s: seq<Byte>): seq<Byte> {
    s[BaseStart(s)..]
  }

  /** `want` is the string before its terminator. */
  method NameEq(want: seq<Byte>, blob: seq<Byte>, off: nat, len: nat) returns (eq: bool)
    requires off + len <= |blob|
    ensures eq <==> blob[off..off + len] == want
  {
    for i := 0 to len
      invariant i <= |want| && want[..i] == blob[off..off + i]
    {
      if i == |want| {
        return false;
      }
      if want[i] != blob[off + i] {
        assert blob[off..off + len][i] == blob[off + i];
        return false;
      }
    }
    if len == |want| {
      assert want[..len] == want;
    }
    return len == |want|;
  }

  method BasenameStart(s: seq<Byte>, off: nat, len: nat) returns (b: nat)
    requires off + len <= |s|
    ensures b == off + BaseStart(s[off..off + len])
  {
    b := off;
    ghost var t := s[off..off + len];
    for i := 0 to len
      invariant b == off + BaseStart(t[..i])
    {
      assert t[..i + 1][..i] == t[..i] && t[i] == s[off + i];
      if s[off + i] == SLASH {
        b := off + i + 1;
      }
    }
    assert t[..len] == t;
  }

  method BasenameOf(path: seq<Byte>) returns (base: seq<Byte>)
    ensures base == Base(path)
  {
    var b := BasenameStart(path, 0, |path|);
    assert path[0..|path|] == path;
    base := path[b..];
  }

  method BasenameEq(want: seq<Byte>, blob: seq<Byte>, off: nat, len: nat) returns (eq: bool)
    requires off + len <= |blob|
    ensures eq <==> Base(blob[off..off + len]) == want
  {
    var b := BasenameStart(blob, off, len);
    eq := NameEq(want, blob, b, off + len - b);
    var t := blob[off..off + len];
    assert t[b - off..] == blob[b..off + len];
  }

  // ---- Lookup ----------------------------------------------------------------------------

  function EntryAt(img: seq<Byte>, i: nat): (off: nat)
    requires Accepted(img) && i < Rd32(img, 12)
    ensures off + ENTRY_SIZE <= |img|
  {
    Rd32(img, 16) + ENTRY_SIZE * i
  }

  /** The name of directory entry `i`, if it lies inside the name blob. */
  function NameAt(img: seq<Byte>, i: nat): Option<seq<Byte>>
    requires Accepted(img) && i < Rd32(img, 12)
  {
    var o := EntryAt(img, i);
    if Rd32(img, o) + Rd32(img, o + 4) > Rd32(img, 24) then None
    else
      var n := Rd32(img, 20) + Rd32(img, o);
      Some(img[n..n + Rd32(img, o + 4)])
  }

  function BaseAt(img: seq<Byte>, i: nat): Option<seq<Byte>>
    requires Accepted(img) && i < Rd32(img, 12)
  {
    if NameAt(img, i).Some? then Some(Base(NameAt(img, i).value)) else None
  }

  /** The payload of entry `i` as offset and size, if it lies inside the image. */
  function PayloadAt(img: seq<Byte>, i: nat): Option<(nat, nat)>
    requires Accepted(img) && i < Rd32(img, 12)
  {
    var o := EntryAt(img, i);
    if Rd32(img, o + 8) + Rd32(img, o + 12) <= |img| then Some((Rd32(img, o + 8), Rd32(img, o + 12))) else None
  }

  ghost predicate FirstNamed(img: seq<Byte>, name: seq<Byte>, i: nat)
    requires Accepted(img)
  {
    && i < Rd32(img, 12) && NameAt(img, i) == Some(name)
    && forall j | 0 <= j < i :: NameAt(img, j) != Some(name)
  }

  ghost predicate FirstBased(img: seq<Byte>, base: seq<Byte>, i: nat)
    requires Accepted(img)
  {
    && i < Rd32(img, 12) && BaseAt(img, i) == Some(base)
    && forall j | 0 <= j < i :: BaseAt(img, j) != Some(base)
  }

  /** The first entry with the whole name decides; failing that, the first with the
      same non-empty base name; failing that, nothing is found. */
  ghost predicate IsLookup(img: seq<Byte>, path: seq<Byte>, r: Option<(nat, nat)>)
    requires Accepted(img)
  {
    && (forall i | FirstNamed(img, path, i) :: r == PayloadAt(img, i))
    && (Unnamed(img, path) && Base(path) != [] ==> forall i | FirstBased(img, Base(path), i) :: r == PayloadAt(img, i))
    && (Unnamed(img, path) && (Base(path) == [] || Unbased(img, Base(path))) ==> r == None)
  }

  ghost predicate Unnamed(img: seq<Byte>, name: seq<Byte>)
    requires Accepted(img)
  {
    forall i | 0 <= i < Rd32(img, 12) :: NameAt(img, i) != Some(name)
  }

  ghost predicate Unbased(img: seq<Byte>, base: seq<Byte>)
    requires Accepted(img)
  {
    forall i | 0 <= i < Rd32(img, 12) :: BaseAt(img, i) != Some(base)
  }

  /** Where the name of entry `i` lies, if it is inside the name blob. */
  method NameRange(img: seq<Byte>, i: nat) returns (ok: bool, start: nat, len: nat)
    requires Accepted(img) && i < Rd32(img, 12)
    ensures ok <==> NameAt(img, i).Some?
    ensures ok ==> start + len <= |img| && NameAt(img, i) == Some(img[start..start + len])
  {
    var o := EntryAt(img, i);
    var nameOff, nameLen := Rd32(img, o), Rd32(img, o + 4);
    var nameEnd := Add32(nameOff, nameLen);
    Add32Carries(nameOff, nameLen);
    if nameEnd < nameOff || nameEnd > Rd32(img, 24) {
      return false, 0, 0;
    }
    return true, Rd32(img, 20) + nameOff, nameLen;
  }

  /** One entry of the scan: does its name, or its base name, equal `want`? */
  method Matches(img: seq<Byte>, i: nat, want: seq<Byte>, byBase: bool) returns (m: bool)
    requires Accepted(img) && i < Rd32(img, 12)
    ensures m <==> (if byBase then BaseAt(img, i) else NameAt(img, i)) == Some(want)
  {
    var ok, start, len := NameRange(img, i);
    if !ok {
      return false;
    }
    if byBase {
      m := BasenameEq(want, img, start, len);
    } else {
      m := NameEq(want, img, start, len);
    }
  }

  method Payload(img: seq<Byte>, i: nat) returns (r: Option<(nat, nat)>)
    requires Accepted(img) && i < Rd32(img, 12)
    ensures r == PayloadAt(img, i)
  {
    var o := EntryAt(img, i);
    var dataOff, dataSize := Rd32(img, o + 8), Rd32(img, o + 12);
    var dataEnd := Add32(dataOff, dataSize);
    Add32Carries(dataOff, dataSize);
    if dataEnd < dataOff || dataEnd > |img| {
      return None;
    }
    return Some((dataOff, dataSize));
  }

  method Scan(img: seq<Byte>, want: seq<Byte>, byBase: bool) returns (i: nat)
    requires Accepted(img)
    ensures i <= Rd32(img, 12)
    ensures !byBase ==> if i < Rd32(img, 12) then FirstNamed(img, want, i) else Unnamed(img, want)
    ensures byBase ==> if i < Rd32(img, 12) then FirstBased(img, want, i) else Unbased(img, want)
  {
    i := 0;
    while i < Rd32(img, 12)
      invariant i <= Rd32(img, 12)
      invariant forall j | 0 <= j < i :: (if byBase then BaseAt(img, j) else NameAt(img, j)) != Some(want)
    {
      var m := Matches(img, i, want, byBase);
      if m {
        return;
      }
      i := i + 1;
    }
  }

  /** The first match is one entry. */
  lemma FirstIsUnique(img: seq<Byte>, want: seq<Byte>, i: nat)
    requires Accepted(img)
    ensures FirstNamed(img, want, i) ==> !Unnamed(img, want) && forall j | FirstNamed(img, want, j) :: j == i
    ensures FirstBased(img, want, i) ==> !Unbased(img, want) && forall j | FirstBased(img, want, j) :: j == i
  {
  }

  method GetByBase(img: seq<Byte>, base: seq<Byte>) returns (r: Option<(nat, nat)>)
    requires Accepted(img)
    ensures forall i | FirstBased(img, base, i) :: r == PayloadAt(img, i)
    ensures Unbased(img, base) ==> r == None
  {
    var i := Scan(img, base, true);
    if i < Rd32(img, 12) {
      FirstIsUnique(img, base, i);
      r := Payload(img, i);
    } else {
      r := None;
    }
  }

  method GetByName(img: seq<Byte>, path: seq<Byte>) returns (found: bool, r: Option<(nat, nat)>)
    requires Accepted(img)
    ensures found <==> !Unnamed(img, path)
    ensures forall i | FirstNamed(img, path, i) :: found && r == PayloadAt(img, i)
  {
    var i := Scan(img, path, false);
    if i < Rd32(img, 12) {
      FirstIsUnique(img, path, i);
      r := Payload(img, i);
      found := true;
    } else {
      found, r := false, None;
    }
  }

  /** `initfs_modblob_get` on a loaded image. */
  method Get(img: seq<Byte>, path: seq<Byte>) returns (r: Option<(nat, nat)>)
    requires Accepted(img)
    ensures IsLookup(img, path, r)
  {
    var found;
    found, r := GetByName(img, path);
    if !found {
      var base := BasenameOf(path);
      if base == [] {
        r := None;
      } else {
        r := GetByBase(img, base);
      }
    }
  }

  /** The staging area: a fixed buffer, of which the first `size` bytes count. */
  class ModBlob {
    const crc: seq<Byte> -> U32
    var buf: seq<Byte>
    var size: nat
    var ready: bool

    ghost predicate Shape()
      reads this
    {
      size <= |buf| == MAX_IMAGE
    }

    function Staged(): seq<Byte>
      requires Shape()
      reads this
    {
      buf[..size]
    }

    ghost predicate Valid()
      reads this
    {
      Shape() && (ready ==> Accepted(Staged()))
    }

    constructor (crc: seq<Byte> -> U32)
      ensures Valid() && !ready && this.crc == crc
    {
      this.crc := crc;
      buf, size, ready := seq(MAX_IMAGE, i => 0), 0, false;
    }

    /** `image` is what the boot loader left in memory, empty when it supplied nothing.
        An image that fails the checks stays in the buffer with size 0, but does not take
        back the mark an earlier one left: what counts as staged is then no image. */
    method Load(image: seq<Byte>) returns (rc: int)
      requires Valid()
      modifies this
      ensures rc == if image == [] then -1 else if |image| > MAX_IMAGE then -2 else Validate(crc, image)
      ensures ready <==> old(ready) || rc == 0
      ensures Shape() && if image == [] || |image| > MAX_IMAGE then buf == old(buf) && size == old(size)
                         else buf == image + old(buf)[|image|..] && size == if rc == 0 then |image| else 0
      ensures Valid() <==> !old(ready) || rc == 0 || image == [] || |image| > MAX_IMAGE
      ensures rc == 0 ==> Staged() == image
    {
      if image == [] {
        return -1;
      }
      if |image| > MAX_IMAGE {
        return -2;
      }
      buf := image + buf[|image|..];
      size := |image|;
      assert Staged() == image;
      rc := Validate(crc, Staged());
      if rc != 0 {
        size := 0;
        return;
      }
      ValidateIsExact(crc, image);
      ready := true;
    }

    method Find(path: seq<Byte>) returns (r: Option<(nat, nat)>)
      requires Valid()
      ensures ready ==> IsLookup(Staged(), path, r)
      ensures !ready ==> r == None
    {
      if !ready {
        return None;
      }
      r := Get(Staged(), path);
    }
  }
}
