/** Signing a file again (tools/cact_sign_cctkfs.py), also when the end of the file cut its
    name blob short: the signer then announces the old size and lays out what is left. */
module CctkfsResign {
  import opened MachineInts
  import opened ImageBytes
  import opened Cctkfs
  import opened CctkfsSigner

  /** What follows the name blob up to the first data. */
  function Gap(a: Archive): seq<Byte> {
    Pad(NamesOff(a) + |a.names|)
  }

  /** The announced name blob ends before the data starts, or there is no data. */
  predicate NamesFit(a: Archive) {
    a.entries == [] || a.namesSize <= |a.names| + |Gap(a)|
  }

  lemma NeverLonger(img: seq<Byte>)
    requires ReadArchive(img).Some?
    ensures |ReadArchive(img).value.names| <= ReadArchive(img).value.namesSize
  {
  }

  // ---- The name blob taken with its padding -----------------------------------------------------

  /** The archive with `k` bytes of the padding counted as names. */
  function Padded(a: Archive, k: nat): Archive
    requires k <= |Gap(a)|
  {
    a.(names := a.names + Gap(a)[..k])
  }

  lemma SameTail(a: Archive, k: nat)
    requires k <= |Gap(a)|
    ensures Tail(Padded(a, k)) == Tail(a) && Total(Padded(a, k)) == Total(a)
  {
    var n := NamesOff(a) + |a.names|;
    PadAligns(n);
    PadAligns(n + k);
    SameUp(n, k);
    assert Gap(a)[..k] + Gap(Padded(a, k)) == Gap(a);
  }

  lemma SameUp(n: nat, k: nat)
    requires k <= |Pad(n)|
    ensures |Pad(n + k)| == |Pad(n)| - k
  {
    var q, r := n / 16, n % 16;
    if r == 0 {
      assert k == 0;
    } else if r + k == 16 {
      assert n + k == 16 * (q + 1);
    } else {
      assert n + k == 16 * q + (r + k) && r + k < 16;
    }
  }

  /** Both are laid out as the same bytes. */
  lemma SameImage(env: Env, a: Archive, k: nat)
    requires k <= |Gap(a)|
    ensures Build(env, Padded(a, k)) == Build(env, a) && (Fits(Padded(a, k)) <==> Fits(a))
  {
    SameTail(a, k);
    var b := Padded(a, k);
    forall c: U32 ensures Image(b, c) == Image(a, c) {
      assert AllWords(b, c) == AllWords(a, c);
    }
  }

  // ---- Reading it back ----------------------------------------------------------------------------

  /** An archive with no entries reads back with its padding as names. */
  lemma EmptyReadsBack(a: Archive, c: U32)
    requires a.entries == [] && Total(a) < TWO_32 && a.namesSize > |a.names| + |Gap(a)|
    ensures ReadArchive(Image(a, c)) == Some(Padded(a, |Gap(a)|))
  {
    HeaderReadsBack(a, c);
    EightDivides(0);
    var img, w := Image(a, c), Words(AllWords(a, c));
    assert |w| == NamesOff(a);
    assert img == w + (a.names + Gap(a));
    assert img[NamesOff(a)..] == a.names + Gap(a);
    assert Gap(a)[..|Gap(a)|] == Gap(a);
  }

  /** How many bytes of its padding an archive gets as names when it is read back. */
  function Gains(a: Archive): (k: nat)
    requires |a.names| <= a.namesSize
    ensures k <= |Gap(a)|
  {
    if a.namesSize <= |a.names| + |Gap(a)| then a.namesSize - |a.names| else |Gap(a)|
  }

  lemma FitReadsBack(env: Env, a: Archive)
    requires |a.names| <= a.namesSize && NamesFit(a) && Fits(a)
    ensures ReadArchive(Build(env, a)) == Some(Padded(a, Gains(a)))
  {
    var k := Gains(a);
    SameImage(env, a, k);
    SameTail(a, k);
    if a.namesSize <= |a.names| + |Gap(a)| {
      var b := Padded(a, k);
      assert b.namesSize == |b.names|;
      LayoutRoundTrip(b, env.crc(Image(b, 0)));
    } else {
      EmptyReadsBack(a, env.crc(Image(a, 0)));
    }
  }

  lemma SigningKeepsLayout(env: Env, a: Archive)
    ensures NamesFit(SignAll(env, a)) <==> NamesFit(a)
    ensures SignAll(env, a).names == a.names && SignAll(env, a).namesSize == a.namesSize
  {
  }

  lemma SignedAgain(env: Env, a: Archive, k: nat)
    requires EnvOk(env) && k <= |Gap(SignAll(env, a))|
    ensures SignAll(env, Padded(SignAll(env, a), k)) == Padded(SignAll(env, a), k)
  {
    SignAllTwice(env, a);
  }

  lemma ResignSigned(env: Env, s: Archive)
    requires |s.names| <= s.namesSize && NamesFit(s) && Fits(s) && SignAll(env, Padded(s, Gains(s))) == Padded(s, Gains(s))
    ensures Signed(env, Build(env, s)) == Some(Build(env, s))
  {
    FitReadsBack(env, s);
    SameImage(env, s, Gains(s));
  }

  /** Signing a signed file again leaves it byte for byte as it is, as long as the
      announced name blob ends before the data. */
  lemma SigningTwiceIsSigningOnce(env: Env, img: seq<Byte>)
    requires EnvOk(env) && Signed(env, img).Some? && NamesFit(ReadArchive(img).value)
    ensures Signed(env, Signed(env, img).value) == Signed(env, img)
  {
    var a := ReadArchive(img).value;
    var s := SignAll(env, a);
    NeverLonger(img);
    SigningKeepsLayout(env, a);
    SignedAgain(env, a, Gains(s));
    ResignSigned(env, s);
  }

  // ---- When it does not end there ------------------------------------------------------------------

  lemma {:induction false} LastOffset(es: seq<Entry>, off: nat)
    requires es != [] && off % 16 == 0 && PackOk(es, off)
    ensures var n := |es| - 1;
            && Offsets(es, off)[n] < TWO_32 && |es[n].data| < TWO_32
            && Offsets(es, off)[n] + |es[n].data| + |Pad(|es[n].data|)| == off + |DataBytes(es)|
  {
    NextOffset(off, |es[0].data|);
    if |es| > 1 {
      LastOffset(es[1..], AlignUp(off + |es[0].data|, 16));
    } else {
      assert DataBytes(es[1..]) == [];
    }
  }

  lemma ShiftedData(a: Archive)
    requires |a.names| + |Gap(a)| < a.namesSize
    ensures DataStart(a) % 16 == 0 && DataStart(a) + |DataBytes(a.entries)| >= Total(a) + 16
  {
    EightDivides(|a.entries|);
    PadAligns(NamesOff(a) + |a.names|);
    PadAligns(NamesOff(a) + a.namesSize);
  }

  lemma SliceIsCut(img: seq<Byte>, off: nat, n: nat)
    requires |img| < off + n && n > 0
    ensures |Slice(img, off, n)| < n
  {
  }

  /** The directory of an image reads back whatever its name blob announces. */
  lemma DirectoryReadsBack(a: Archive, c: U32)
    requires Total(a) < TWO_32
    ensures ReadArchive(Image(a, c)).Some? && |ReadArchive(Image(a, c)).value.entries| == |a.entries|
    ensures forall i | 0 <= i < |a.entries| ::
              EntryOff(i) + ENTRY_SIZE <= Total(a) && ReadArchive(Image(a, c)).value.entries[i] == ReadEntry(Image(a, c), EntryOff(i))
  {
    HeaderReadsBack(a, c);
    assert |Image(a, c)| >= EntryOff(|a.entries|);
  }

  lemma LastEntryIsCut(a: Archive, c: U32, n: nat, o: U32)
    requires Total(a) < TWO_32 && n == |a.entries| - 1 && o == Offsets(a.entries, DataStart(a))[n]
    requires |a.entries[n].data| < TWO_32 && Total(a) < o + |a.entries[n].data| && a.entries[n].data != []
    ensures EntryOff(n) + ENTRY_SIZE <= Total(a) && |ReadEntry(Image(a, c), EntryOff(n)).data| < |a.entries[n].data|
  {
    EntryFieldReadsBack(a, c, n, 2, EntryOff(n) + 8, o);
    EntryFieldReadsBack(a, c, n, 3, EntryOff(n) + 12, |a.entries[n].data|);
    EntryFieldReadsBack(a, c, n, 5, EntryOff(n) + 20, 0);
    SliceIsCut(Image(a, c), o, |a.entries[n].data|);
  }

  /** Otherwise the announced offsets lie past the data, and the last blob reads back
      shorter than it was laid out. */
  lemma LastBlobIsCut(env: Env, a: Archive)
    requires |a.names| <= a.namesSize && !NamesFit(a) && Fits(a) && a.entries[|a.entries| - 1].data != []
    ensures ReadArchive(Build(env, a)).Some? && |ReadArchive(Build(env, a)).value.entries| == |a.entries|
    ensures var n := |a.entries| - 1;
            |ReadArchive(Build(env, a)).value.entries[n].data| < |a.entries[n].data|
  {
    var c, n := env.crc(Image(a, 0)), |a.entries| - 1;
    ShiftedData(a);
    LastOffset(a.entries, DataStart(a));
    LastEntryIsCut(a, c, n, Offsets(a.entries, DataStart(a))[n]);
    DirectoryReadsBack(a, c);
  }

  lemma SignedBlobIsNotEmpty(env: Env, b: seq<Byte>)
    requires EnvOk(env)
    ensures SignBlob(env, b) != []
  {
    assert |env.hmac(b)| == TAG_SIZE;
  }

  lemma SignedBlobsReadBack(env: Env, s: Archive)
    requires |s.names| <= s.namesSize && Fits(s) && (s.entries != [] ==> s.entries[|s.entries| - 1].data != [])
    ensures ReadArchive(Build(env, s)).Some?
    ensures ReadArchive(Build(env, s)).value.entries == s.entries <==> NamesFit(s)
  {
    if NamesFit(s) {
      FitReadsBack(env, s);
    } else {
      LastBlobIsCut(env, s);
    }
  }

  /** The blobs of a signed file read back as they were signed exactly when the announced
      name blob ends before the data. */
  lemma BlobsReadBack(env: Env, img: seq<Byte>)
    requires EnvOk(env) && Signed(env, img).Some?
    ensures ReadArchive(Signed(env, img).value).Some?
    ensures ReadArchive(Signed(env, img).value).value.entries == SignAll(env, ReadArchive(img).value).entries
            <==> NamesFit(ReadArchive(img).value)
  {
    var a := ReadArchive(img).value;
    NeverLonger(img);
    SigningKeepsLayout(env, a);
    if a.entries != [] {
      SignedBlobIsNotEmpty(env, a.entries[|a.entries| - 1].data);
    }
    SignedBlobsReadBack(env, SignAll(env, a));
  }
}
