/** Writer and reader together: the kernel accepts what the signer writes, and looking a
    module up by its name gives exactly the blob the signer stored for it. */
module CctkfsEndToEnd {
  import opened MachineInts
  import opened ImageBytes
  import opened Cctkfs
  import opened CctkfsSigner
  import opened CctkfsReader

  /** Zeroing the checksum field of a sealed image gives back what was summed. */
  lemma ChecksumFieldAlone(a: Archive, c: U32)
    ensures WithoutChecksum(Image(a, c)) == Image(a, 0)
  {
    PutInWords(AllWords(a, c), Tail(a), 7, 28, 0);
    assert AllWords(a, c)[7 := 0] == AllWords(a, 0);
    ZeroedIsPut(Image(a, c));
  }

  lemma ZeroedIsPut(img: seq<Byte>)
    requires |img| >= HEADER_SIZE
    ensures WithoutChecksum(img) == PutWord(img, CKSUM_OFF, 0)
  {
    assert Le32(0) == [0, 0, 0, 0];
  }

  lemma ImageIsAccepted(a: Archive, c: U32)
    requires ArchiveOk(a)
    ensures Accepted(Image(a, c)) && Rd32(Image(a, c), 12) == |a.entries|
  {
    HeaderReadsBack(a, c);
    NamesAreAligned(a);
  }

  /** A kernel whose checksum `crc` agrees with the signer's on what was summed accepts
      the built image. */
  lemma BuiltPasses(env: Env, crc: seq<Byte> -> U32, a: Archive)
    requires ArchiveOk(a) && crc(Image(a, 0)) == env.crc(Image(a, 0))
    ensures Validate(crc, Build(env, a)) == 0
  {
    var c := env.crc(Image(a, 0));
    ImageIsAccepted(a, c);
    ChecksumFieldAlone(a, c);
    HeaderReadsBack(a, c);
    ValidateIsExact(crc, Build(env, a));
  }

  /** An archive with nothing in it, as bytes without a checksum. */
  function BareImage(): seq<Byte> {
    Image(Archive([], 0, []), 0)
  }

  lemma BareIsAccepted(crc: seq<Byte> -> U32)
    ensures Validate(crc, BareImage()) == 0 && 0 < |BareImage()| <= MAX_IMAGE
  {
    var a, img := Archive([], 0, []), BareImage();
    assert ArchiveOk(a) && Total(a) == HEADER_SIZE by {
      NamesAreAligned(a);
    }
    assert Rd32(img, 28) == 0 && Rd32(img, 8) == HEADER_SIZE by {
      HeaderReadsBack(a, 0);
    }
    assert Accepted(img) by {
      ImageIsAccepted(a, 0);
    }
    ValidateIsExact(crc, img);
  }

  /** A second load, of one byte, leaves the staging area marked ready with no image. */
  method SecondLoadSpoils(crc: seq<Byte> -> U32) returns (m: ModBlob)
    ensures fresh(m) && m.ready && m.size == 0 && !m.Valid()
  {
    m := new ModBlob(crc);
    BareIsAccepted(crc);
    var first := m.Load(BareImage());
    var second := m.Load([0]);
  }

  // ---- Lookup ------------------------------------------------------------------------------

  predicate NamesInside(a: Archive) {
    forall i | 0 <= i < |a.entries| :: a.entries[i].nameOff + a.entries[i].nameLen <= |a.names|
  }

  function NameOf(a: Archive, i: nat): seq<Byte>
    requires NamesInside(a) && i < |a.entries|
  {
    a.names[a.entries[i].nameOff..a.entries[i].nameOff + a.entries[i].nameLen]
  }

  ghost predicate NamesDistinct(a: Archive)
    requires NamesInside(a)
  {
    forall i, j | 0 <= i < j < |a.entries| :: NameOf(a, i) != NameOf(a, j)
  }

  ghost predicate BasesDistinct(a: Archive)
    requires NamesInside(a)
  {
    forall i, j | 0 <= i < j < |a.entries| :: Base(NameOf(a, i)) != Base(NameOf(a, j))
  }

  lemma SliceOfSlice<T>(s: seq<T>, lo: nat, hi: nat, i: nat, j: nat)
    requires lo <= hi <= |s| && i <= j <= hi - lo
    ensures s[lo..hi][i..j] == s[lo + i..lo + j]
  {
    var t := s[lo..hi];
    forall k | 0 <= k < j - i ensures t[i..j][k] == s[lo + i..lo + j][k] {
      assert t[i..j][k] == t[i + k];
    }
  }

  /** A name read through the directory of any accepted image. */
  lemma NameSeen(img: seq<Byte>, names: seq<Byte>, e: Entry, off: nat, i: nat)
    requires Accepted(img) && i < Rd32(img, 12) && Rd32(img, 16) == HEADER_SIZE && EntryHolds(img, i, e, off)
    requires Rd32(img, 24) == |names| && img[Rd32(img, 20)..Rd32(img, 20) + |names|] == names
    requires e.nameOff + e.nameLen <= |names|
    ensures NameAt(img, i) == Some(names[e.nameOff..e.nameOff + e.nameLen])
  {
    assert EntryAt(img, i) == EntryOff(i);
    SliceOfSlice(img, Rd32(img, 20), Rd32(img, 20) + |names|, e.nameOff, e.nameOff + e.nameLen);
  }

  lemma PayloadSeen(img: seq<Byte>, e: Entry, off: nat, i: nat)
    requires Accepted(img) && i < Rd32(img, 12) && Rd32(img, 16) == HEADER_SIZE && EntryHolds(img, i, e, off)
    requires off + |e.data| <= |img|
    ensures PayloadAt(img, i) == Some((off, |e.data|))
  {
    assert EntryAt(img, i) == EntryOff(i);
  }

  /** What the directory of a built image says about entry `i`. */
  lemma EntrySeen(a: Archive, c: U32, i: nat)
    requires ArchiveOk(a) && NamesInside(a) && i < |a.entries|
    requires Accepted(Image(a, c)) && Rd32(Image(a, c), 12) == |a.entries|
    ensures NameAt(Image(a, c), i) == Some(NameOf(a, i))
    ensures PayloadAt(Image(a, c), i) == Some((Offsets(a.entries, DataStart(a))[i], |a.entries[i].data|))
  {
    HeaderReadsBack(a, c);
    EntryReadsBack(a, c, i);
    OffsetInImage(a, i);
    NamesReadBack(a, c);
    var off := Offsets(a.entries, DataStart(a))[i];
    NameSeen(Image(a, c), a.names, a.entries[i], off, i);
    PayloadSeen(Image(a, c), a.entries[i], off, i);
  }

  ghost predicate SeenAs(img: seq<Byte>, a: Archive)
    requires Accepted(img) && NamesInside(a)
  {
    && Rd32(img, 12) == |a.entries|
    && forall i | 0 <= i < |a.entries| :: NameAt(img, i) == Some(NameOf(a, i))
  }

  lemma NamedFirst(img: seq<Byte>, a: Archive, i: nat)
    requires Accepted(img) && NamesInside(a) && SeenAs(img, a) && NamesDistinct(a) && i < |a.entries|
    ensures FirstNamed(img, NameOf(a, i), i)
  {
    forall j | 0 <= j < i ensures NameAt(img, j) != Some(NameOf(a, i)) {
      assert NameOf(a, j) != NameOf(a, i);
    }
  }

  lemma BasedFirst(img: seq<Byte>, a: Archive, i: nat)
    requires Accepted(img) && NamesInside(a) && SeenAs(img, a) && BasesDistinct(a) && i < |a.entries|
    ensures FirstBased(img, Base(NameOf(a, i)), i)
  {
    forall j | 0 <= j < i ensures BaseAt(img, j) != Some(Base(NameOf(a, i))) {
      assert Base(NameOf(a, j)) != Base(NameOf(a, i));
    }
    assert BaseAt(img, i) == Some(Base(NameOf(a, i)));
  }

  lemma BuiltIsSeen(env: Env, a: Archive)
    requires ArchiveOk(a) && NamesInside(a)
    ensures Accepted(Build(env, a)) && SeenAs(Build(env, a), a)
  {
    ImageIsAccepted(a, env.crc(Image(a, 0)));
    forall i | 0 <= i < |a.entries| ensures NameAt(Build(env, a), i) == Some(NameOf(a, i)) {
      EntrySeen(a, env.crc(Image(a, 0)), i);
    }
  }

  ghost predicate Delivers(img: seq<Byte>, r: Option<(nat, nat)>, data: seq<Byte>) {
    r.Some? && r.value.0 + r.value.1 <= |img| && img[r.value.0..r.value.0 + r.value.1] == data
  }

  lemma PayloadDelivers(env: Env, a: Archive, i: nat)
    requires ArchiveOk(a) && NamesInside(a) && i < |a.entries|
    requires Accepted(Build(env, a)) && Rd32(Build(env, a), 12) == |a.entries|
    ensures Delivers(Build(env, a), PayloadAt(Build(env, a), i), a.entries[i].data)
  {
    var c := env.crc(Image(a, 0));
    EntrySeen(a, c, i);
    BlobReadsBack(a, c, i);
  }

  /** Looking up a name in a built image gives exactly that entry's blob. */
  lemma LookupDeliversBlob(env: Env, a: Archive, i: nat, r: Option<(nat, nat)>)
    requires ArchiveOk(a) && NamesInside(a) && NamesDistinct(a) && i < |a.entries|
    requires Accepted(Build(env, a)) && IsLookup(Build(env, a), NameOf(a, i), r)
    ensures Delivers(Build(env, a), r, a.entries[i].data)
  {
    BuiltIsSeen(env, a);
    NamedFirst(Build(env, a), a, i);
    PayloadDelivers(env, a, i);
  }

  lemma NotNamed(img: seq<Byte>, a: Archive, path: seq<Byte>)
    requires Accepted(img) && NamesInside(a) && SeenAs(img, a)
    requires forall j | 0 <= j < |a.entries| :: NameOf(a, j) != path
    ensures Unnamed(img, path)
  {
  }

  /** Any other path with the same base name resolves to the same blob, as long as base
      names are distinct too. */
  lemma BaseLookupDeliversBlob(env: Env, a: Archive, i: nat, path: seq<Byte>, r: Option<(nat, nat)>)
    requires ArchiveOk(a) && NamesInside(a) && BasesDistinct(a) && i < |a.entries|
    requires Base(path) == Base(NameOf(a, i)) != []
    requires Accepted(Build(env, a)) && IsLookup(Build(env, a), path, r)
    ensures Delivers(Build(env, a), r, a.entries[i].data)
  {
    BuiltIsSeen(env, a);
    PayloadDelivers(env, a, i);
    if j :| 0 <= j < |a.entries| && NameOf(a, j) == path {
      assert j == i;
      NamedByBase(Build(env, a), a, i);
    } else {
      NotNamed(Build(env, a), a, path);
      BasedFirst(Build(env, a), a, i);
    }
  }

  lemma NamedByBase(img: seq<Byte>, a: Archive, i: nat)
    requires Accepted(img) && NamesInside(a) && SeenAs(img, a) && BasesDistinct(a) && i < |a.entries|
    ensures FirstNamed(img, NameOf(a, i), i)
  {
    forall j | 0 <= j < i ensures NameAt(img, j) != Some(NameOf(a, i)) {
      assert Base(NameOf(a, j)) != Base(NameOf(a, i));
    }
  }

  /** In a signed image the name of every module leads to that module's blob with its
      tag, when names are distinct. */
  lemma SignedLookup(env: Env, img: seq<Byte>, i: nat, r: Option<(nat, nat)>)
    requires Signed(env, img).Some?
    requires var a := ReadArchive(img).value;
             a.namesSize == |a.names| && NamesInside(a) && NamesDistinct(a) && i < |a.entries|
    ensures var out := Signed(env, img).value;
            && Accepted(out)
            && (IsLookup(out, NameOf(ReadArchive(img).value, i), r)
                ==> Delivers(out, r, SignBlob(env, ReadArchive(img).value.entries[i].data)))
  {
    var a := ReadArchive(img).value;
    var s := SignAll(env, a);
    ImageIsAccepted(s, env.crc(Image(s, 0)));
    SigningKeepsNames(env, a);
    if IsLookup(Build(env, s), NameOf(s, i), r) {
      LookupDeliversBlob(env, s, i, r);
    }
  }

  lemma SigningKeepsNames(env: Env, a: Archive)
    requires NamesInside(a)
    ensures NamesInside(SignAll(env, a)) && forall i | 0 <= i < |a.entries| :: NameOf(SignAll(env, a), i) == NameOf(a, i)
    ensures NamesDistinct(a) ==> NamesDistinct(SignAll(env, a))
  {
  }
}
