/** The archive signer (tools/cact_sign_cctkfs.py): every blob gets an HMAC tag unless
    it already ends in its own, and the archive is laid out afresh around the new sizes.
    What the byte-appending program writes is the layout of the signed archive, and
    signing a signed image changes nothing. */
module CctkfsSigner {
  import opened MachineInts
  import opened ImageBytes
  import opened Cctkfs

  function SignBlob(env: Env, b: seq<Byte>): (s: seq<Byte>)
    ensures b <= s
  {
    if |b| >= TAG_SIZE && env.hmac(b[..|b| - TAG_SIZE]) == b[|b| - TAG_SIZE..] then b else b + env.hmac(b)
  }

  function SignEntry(env: Env, e: Entry): Entry {
    e.(data := SignBlob(env, e.data))
  }

  function SignEntries(env: Env, es: seq<Entry>): (s: seq<Entry>)
    ensures |s| == |es| && forall i | 0 <= i < |es| :: s[i] == SignEntry(env, es[i])
  {
    seq(|es|, i requires 0 <= i < |es| => SignEntry(env, es[i]))
  }

  function SignAll(env: Env, a: Archive): Archive {
    a.(entries := SignEntries(env, a.entries))
  }

  /** Every word of the directory can be packed into 32 bits. */
  predicate PackOk(es: seq<Entry>, off: nat) {
    es == [] || (off < TWO_32 && |es[0].data| < TWO_32 && PackOk(es[1..], AlignUp(off + |es[0].data|, 16)))
  }

  predicate Fits(a: Archive) {
    NamesOff(a) < TWO_32 && PackOk(a.entries, DataStart(a)) && Total(a) < TWO_32
  }

  /** What signing a file leaves in it; none when the program stops with an error. */
  function Signed(env: Env, img: seq<Byte>): Option<seq<Byte>> {
    match ReadArchive(img)
    case None => None
    case Some(a) =>
      var s := SignAll(env, a);
      if Fits(s) then Some(Build(env, s)) else None
  }

  // ---- Patching words -----------------------------------------------------------------

  lemma PutInWords(ws: seq<nat>, t: seq<Byte>, k: nat, off: nat, x: nat)
    requires k < |ws| && off == 4 * k
    ensures PutWord(Words(ws) + t, off, x) == Words(ws[k := x]) + t
  {
    var u := ws[k := x];
    SplitWords(ws, k);
    SplitWords(u, k);
    assert u[..k] == ws[..k] && u[k + 1..] == ws[k + 1..];
    PutInMiddle(Words(ws[..k]), Le32(ws[k]), Words(ws[k + 1..]), t, x);
  }

  lemma PutInMiddle(p: seq<Byte>, w: seq<Byte>, q: seq<Byte>, t: seq<Byte>, x: nat)
    requires |w| == 4
    ensures PutWord(p + (w + q) + t, |p|, x) == p + (Le32(x) + q) + t
  {
    var s := p + (w + q) + t;
    assert s[..|p|] == p && s[|p| + 4..] == q + t;
  }

  lemma SplitWords(ws: seq<nat>, k: nat)
    requires k < |ws|
    ensures Words(ws) == Words(ws[..k]) + (Le32(ws[k]) + Words(ws[k + 1..]))
  {
    assert ws == ws[..k] + ws[k..];
    WordsAppend(ws[..k], ws[k..]);
    assert ws[k..][1..] == ws[k + 1..];
  }

  // ---- The program ----------------------------------------------------------------------

  method AppendPad(out: seq<Byte>) returns (r: seq<Byte>)
    ensures r == out + Pad(|out|) && |r| % 16 == 0
  {
    r := out;
    while |r| % 16 != 0
      invariant r == out + seq(|r| - |out|, i => 0) && |out| <= |r| <= AlignUp(|out|, 16)
      decreases AlignUp(|out|, 16) - |r|
    {
      PadAligns(|out|);
      r := r + [0];
    }
    PadAligns(|out|);
  }

  method ReadAll(img: seq<Byte>, off: nat, n: nat) returns (es: seq<Entry>)
    requires n == 0 || off + ENTRY_SIZE * n <= |img|
    ensures es == ReadEntries(img, off, n)
  {
    es := [];
    for i := 0 to n
      invariant |es| == i && forall j | 0 <= j < i :: es[j] == ReadEntry(img, off + ENTRY_SIZE * j)
    {
      es := es + [ReadEntry(img, off + ENTRY_SIZE * i)];
    }
  }

  method SignBlobs(env: Env, es: seq<Entry>) returns (s: seq<Entry>)
    ensures s == SignEntries(env, es)
  {
    s := [];
    for i := 0 to |es|
      invariant |s| == i && forall j | 0 <= j < i :: s[j] == SignEntry(env, es[j])
    {
      var blob := es[i].data;
      var signed := blob + env.hmac(blob);
      if |blob| >= TAG_SIZE && env.hmac(blob[..|blob| - TAG_SIZE]) == blob[|blob| - TAG_SIZE..] {
        signed := blob;
      }
      s := s + [es[i].(data := signed)];
    }
  }

  method AppendDirectory(out: seq<Byte>, es: seq<Entry>, start: nat) returns (ok: bool, r: seq<Byte>)
    ensures ok == PackOk(es, start)
    ensures ok ==> r == out + Words(EntryWords(es, start))
  {
    r := out;
    var cur: nat := start;
    for i := 0 to |es|
      invariant PackOk(es, start) == PackOk(es[i..], cur)
      invariant out + Words(EntryWords(es, start)) == r + Words(EntryWords(es[i..], cur))
    {
      if cur >= TWO_32 || |es[i].data| >= TWO_32 {
        return false, r;
      }
      assert es[i..][1..] == es[i + 1..];
      var six: seq<nat> := [es[i].nameOff, es[i].nameLen, cur, |es[i].data|, es[i].flags, 0];
      var next: nat := AlignUp(cur + |es[i].data|, 16);
      WordsAppend(six, EntryWords(es[i + 1..], next));
      r := r + Words(six);
      cur := next;
    }
    ok := true;
  }

  method AppendBlobs(out: seq<Byte>, es: seq<Entry>) returns (r: seq<Byte>)
    requires |out| % 16 == 0
    ensures r == out + DataBytes(es)
  {
    r := out;
    for i := 0 to |es|
      invariant |r| % 16 == 0 && out + DataBytes(es) == r + DataBytes(es[i..])
    {
      assert es[i..][1..] == es[i + 1..];
      var d := es[i].data;
      assert DataBytes(es[i..]) == d + Pad(|d|) + DataBytes(es[i + 1..]);
      PadAfter(|r|, |d|);
      ghost var before := r;
      r := AppendPad(r + d);
      assert r == before + (d + Pad(|d|));
      assert before + (d + Pad(|d|) + DataBytes(es[i + 1..])) == r + DataBytes(es[i + 1..]);
    }
  }

  lemma PadAfter(m: nat, n: nat)
    requires m % 16 == 0
    ensures Pad(m + n) == Pad(n)
  {
  }

  /** The header with its two fields filled in last. */
  lemma SealedHeader(env: Env, a: Archive, out: seq<Byte>)
    requires out == Words(HeaderWords(a, 0, 0) + EntryWords(a.entries, DataStart(a))) + Tail(a)
    ensures |out| == Total(a)
    ensures PutWord(out, 8, |out|) == Image(a, 0)
    ensures PutWord(Image(a, 0), CKSUM_OFF, 0) == Image(a, 0)
    ensures PutWord(Image(a, 0), CKSUM_OFF, env.crc(Image(a, 0))) == Build(env, a)
  {
    var w := EntryWords(a.entries, DataStart(a));
    PutInWords(HeaderWords(a, 0, 0) + w, Tail(a), 2, 8, |out|);
    assert (HeaderWords(a, 0, 0) + w)[2 := |out|] == AllWords(a, 0);
    PutInWords(AllWords(a, 0), Tail(a), 7, 28, 0);
    assert AllWords(a, 0)[7 := 0] == AllWords(a, 0);
    var c := env.crc(Image(a, 0));
    PutInWords(AllWords(a, 0), Tail(a), 7, 28, c);
    assert AllWords(a, 0)[7 := c] == AllWords(a, c);
  }

  /** Appends the parts, then patches the size and the checksum into the header. */
  method Rebuild(env: Env, a: Archive) returns (r: Option<seq<Byte>>)
    ensures r == if Fits(a) then Some(Build(env, a)) else None
  {
    if NamesOff(a) >= TWO_32 {
      return None;
    }
    var out := Words(HeaderWords(a, 0, 0));
    var ok;
    ok, out := AppendDirectory(out, a.entries, DataStart(a));
    if !ok {
      return None;
    }
    ghost var w := EntryWords(a.entries, DataStart(a));
    WordsAppend(HeaderWords(a, 0, 0), w);
    ghost var words := out;
    EightDivides(|a.entries|);
    assert |out| == NamesOff(a);
    out := AppendPad(out + a.names);
    out := AppendBlobs(out, a.entries);
    assert out == words + Tail(a);
    SealedHeader(env, a, out);
    if |out| >= TWO_32 {
      return None;
    }
    out := PutWord(out, 8, |out|);
    out := PutWord(out, CKSUM_OFF, 0);
    out := PutWord(out, CKSUM_OFF, env.crc(out));
    r := Some(out);
  }

  method SignImage(env: Env, img: seq<Byte>) returns (r: Option<seq<Byte>>)
    ensures r == Signed(env, img)
  {
    if |img| < HEADER_SIZE || Rd32(img, 0) != MAGIC {
      return None;
    }
    var count, entriesOff, namesOff, namesSize := Rd32(img, 12), Rd32(img, 16), Rd32(img, 20), Rd32(img, 24);
    if count != 0 && |img| < entriesOff + ENTRY_SIZE * count {
      return None;
    }
    var entries := ReadAll(img, entriesOff, count);
    var signed := SignBlobs(env, entries);
    r := Rebuild(env, Archive(Slice(img, namesOff, namesSize), namesSize, signed));
  }

  // ---- Signing twice ---------------------------------------------------------------------

  lemma SignBlobTwice(env: Env, b: seq<Byte>)
    requires EnvOk(env)
    ensures SignBlob(env, SignBlob(env, b)) == SignBlob(env, b)
  {
    var t := env.hmac(b);
    assert (b + t)[..|b + t| - TAG_SIZE] == b && (b + t)[|b + t| - TAG_SIZE..] == t;
  }

  lemma SignAllTwice(env: Env, a: Archive)
    requires EnvOk(env)
    ensures SignAll(env, SignAll(env, a)) == SignAll(env, a)
  {
    var s := SignEntries(env, a.entries);
    forall i | 0 <= i < |s| ensures SignEntries(env, s)[i] == s[i] {
      SignBlobTwice(env, a.entries[i].data);
    }
    assert SignEntries(env, s) == s;
  }

  /** A signed image holds the signed archive, at the offsets it announces, when the input
      announced the true size of its name blob. */
  lemma SignedArchiveReadsBack(env: Env, img: seq<Byte>)
    requires Signed(env, img).Some? && ReadArchive(img).value.namesSize == |ReadArchive(img).value.names|
    ensures ReadArchive(Signed(env, img).value) == Some(SignAll(env, ReadArchive(img).value))
  {
    var s := SignAll(env, ReadArchive(img).value);
    LayoutRoundTrip(s, env.crc(Image(s, 0)));
  }

  /** For such an archive the only thing that can stop the signer is an image of
      4 GiB or more. */
  lemma OnlySizeStopsIt(a: Archive)
    requires a.namesSize == |a.names|
    ensures Fits(a) <==> ArchiveOk(a)
  {
    if Total(a) < TWO_32 {
      NamesAreAligned(a);
      OffsetsPack(a.entries, DataStart(a));
    }
  }

  lemma {:induction false} OffsetsPack(es: seq<Entry>, off: nat)
    requires off % 16 == 0 && off + |DataBytes(es)| < TWO_32
    ensures PackOk(es, off)
  {
    if es != [] {
      NextOffset(off, |es[0].data|);
      OffsetsPack(es[1..], AlignUp(off + |es[0].data|, 16));
    }
  }
}
