/** Loading an executable (kernel/elf/elf_loader.c): every page of every PT_LOAD segment
    gets a frame, filled from the file and with zeros, and the initial break is put above
    all of them.  Program headers are taken as records, and file contents as bytes. */
module ElfLoader {
  import opened MachineInts

  const PAGE: nat := 4096
  const PT_LOAD: nat := 1

  datatype Phdr = Phdr(kind: U32, offset: U32, vaddr: U32, filesz: U32, memsz: U32)

  function DownToPage(x: nat): (r: nat)
    ensures r % PAGE == 0 && r <= x < r + PAGE
  {
    x / PAGE * PAGE
  }

  /** Rounding up to a page in 32 bits. */
  function UpToPage(x: U32): (r: U32)
    ensures r % PAGE == 0
    ensures x + PAGE - 1 < TWO_32 ==> x <= r < x + PAGE
    ensures x + PAGE - 1 >= TWO_32 ==> r == 0
  {
    var y := (x + PAGE - 1) % TWO_32;
    y / PAGE * PAGE
  }

  /** The header is for a segment with memory, and its sums do not wrap. */
  predicate Loads(p: Phdr) {
    p.kind == PT_LOAD && p.memsz != 0 && p.vaddr + p.memsz < TWO_32 && p.vaddr + p.filesz < TWO_32
  }

  /** `va` is a page the segment gets. */
  predicate HasPage(p: Phdr, va: nat) {
    Loads(p) && va % PAGE == 0 && DownToPage(p.vaddr) <= va < UpToPage(p.vaddr + p.memsz)
  }

  /** The byte the header prescribes at address `a`: the file's, up to its size there,
      and zero elsewhere. */
  function ByteAt(file: seq<Byte>, p: Phdr, a: nat): Byte {
    if p.vaddr <= a < p.vaddr + p.filesz && p.offset + (a - p.vaddr) < |file| then file[p.offset + (a - p.vaddr)] else 0
  }

  /** The first address of page `va` that the segment has. */
  function From(p: Phdr, va: nat): nat {
    if va > p.vaddr then va else p.vaddr
  }

  /** Where the file is read for page `va`, computed in 32 bits. */
  function FileOff(p: Phdr, va: nat): U32 {
    (p.offset + (From(p, va) - p.vaddr)) % TWO_32
  }

  /** The byte loaded at address `a` of page `va`. */
  function LoadedByte(file: seq<Byte>, p: Phdr, va: nat, a: nat): Byte {
    if p.vaddr <= a < p.vaddr + p.filesz && va <= a && FileOff(p, va) + (a - From(p, va)) < |file|
    then file[FileOff(p, va) + (a - From(p, va))] else 0
  }

  function PageAt(file: seq<Byte>, p: Phdr, va: nat): (b: seq<Byte>)
    ensures |b| == PAGE && forall k | 0 <= k < PAGE :: b[k] == LoadedByte(file, p, va, va + k)
  {
    seq<Byte>(PAGE, k requires 0 <= k < PAGE => LoadedByte(file, p, va, va + k))
  }

  /** The place of page `va` in the file is past what 32 bits can say. */
  predicate OffsetOverflows(p: Phdr, va: nat) {
    va < p.vaddr + p.filesz && p.offset + (From(p, va) - p.vaddr) >= TWO_32
  }

  /** What is loaded for page `va` is what the header prescribes. */
  ghost predicate PagePrescribed(file: seq<Byte>, p: Phdr, va: nat) {
    forall a: nat | va <= a < va + PAGE :: LoadedByte(file, p, va, a) == ByteAt(file, p, a)
  }

  lemma LoadedAsPrescribed(file: seq<Byte>, p: Phdr, va: nat)
    requires !OffsetOverflows(p, va)
    ensures PagePrescribed(file, p, va)
  {
    forall a: nat | va <= a < va + PAGE ensures LoadedByte(file, p, va, a) == ByteAt(file, p, a) {
    }
  }

  /** A file that tells a page whose offset overflows from what was prescribed. */
  function Telltale(p: Phdr, va: nat): (file: seq<Byte>)
    requires HasPage(p, va) && OffsetOverflows(p, va)
    ensures |file| == FileOff(p, va) + 1 < TWO_32 && file[FileOff(p, va)] == 1
  {
    seq(FileOff(p, va) + 1, _ => 1)
  }

  lemma OverflowShows(p: Phdr, va: nat)
    requires HasPage(p, va) && OffsetOverflows(p, va)
    ensures !PagePrescribed(Telltale(p, va), p, va)
  {
    var file, a := Telltale(p, va), From(p, va);
    assert va <= a < va + PAGE && LoadedByte(file, p, va, a) == 1 && ByteAt(file, p, a) == 0;
  }

  /** Every page of the segment is loaded as its header prescribes, whatever the file. */
  ghost predicate AlwaysPrescribed(p: Phdr) {
    forall file: seq<Byte>, va: nat | |file| < TWO_32 && HasPage(p, va) :: PagePrescribed(file, p, va)
  }

  /** A segment is loaded as its header prescribes from every file exactly when none of
      its pages has a file offset past 32 bits. */
  lemma OffsetsAreExact(p: Phdr)
    ensures AlwaysPrescribed(p) <==> forall va: nat | HasPage(p, va) :: !OffsetOverflows(p, va)
  {
    forall file: seq<Byte>, va: nat | |file| < TWO_32 && HasPage(p, va) && !OffsetOverflows(p, va)
      ensures PagePrescribed(file, p, va)
    {
      LoadedAsPrescribed(file, p, va);
    }
    if va: nat :| HasPage(p, va) && OffsetOverflows(p, va) {
      OverflowShows(p, va);
    }
  }

  /** A segment may end past 4 GiB in its file and still be loaded as prescribed, as long
      as its last page begins below. */
  lemma EndPastFourGiB()
    ensures var p := Phdr(PT_LOAD, 0xFFFF_FFF0, 0x1000, 0x100, 0x100);
            Loads(p) && p.offset + p.filesz > TWO_32 && AlwaysPrescribed(p)
  {
    var p := Phdr(PT_LOAD, 0xFFFF_FFF0, 0x1000, 0x100, 0x100);
    forall va: nat | HasPage(p, va) ensures !OffsetOverflows(p, va) {
      assert va == 0x1000;
    }
    OffsetsAreExact(p);
  }

  /** A page whose place in the file is at or past 4 GiB gets what lies 4 GiB before. */
  lemma OffsetWraps(file: seq<Byte>, p: Phdr, va: nat, k: nat)
    requires HasPage(p, va) && va > p.vaddr && va + k < p.vaddr + p.filesz
    requires p.offset + (va - p.vaddr) >= TWO_32 > |file|
    ensures ByteAt(file, p, va + k) == 0
    ensures var at := p.offset + (va - p.vaddr) - TWO_32 + k;
            LoadedByte(file, p, va, va + k) == if at < |file| then file[at] else 0
  {
  }

  /** The last of the first `n` segments that has page `va`; `n` if there is none. */
  function LastWith(ps: seq<Phdr>, n: nat, va: nat): (i: nat)
    requires n <= |ps|
    ensures i <= |ps|
    ensures i < n ==> HasPage(ps[i], va) && forall j | i < j < n :: !HasPage(ps[j], va)
    ensures i >= n ==> i == |ps| && forall j | 0 <= j < n :: !HasPage(ps[j], va)
  {
    if n == 0 then |ps| else if HasPage(ps[n - 1], va) then n - 1 else LastWith(ps, n - 1, va)
  }

  type Pages = map<nat, seq<Byte>>

  /** The address space after the first `n` segments: a later segment takes over a page
      it shares with an earlier one. */
  ghost predicate LoadedTo(file: seq<Byte>, ps: seq<Phdr>, n: nat, pages: Pages)
    requires n <= |ps|
  {
    forall va: nat :: PageLoaded(file, ps, n, pages, va)
  }

  ghost predicate PageLoaded(file: seq<Byte>, ps: seq<Phdr>, n: nat, pages: Pages, va: nat)
    requires n <= |ps|
  {
    var i := LastWith(ps, n, va);
    if i < n then va in pages && pages[va] == PageAt(file, ps[i], va) else va !in pages
  }

  /** The first pages of segment `p` have been mapped over `was`. */
  ghost predicate MappedTo(file: seq<Byte>, p: Phdr, was: Pages, pages: Pages, end: nat) {
    forall va: nat :: PageMapped(file, p, was, pages, end, va)
  }

  ghost predicate PageMapped(file: seq<Byte>, p: Phdr, was: Pages, pages: Pages, end: nat, va: nat) {
    if HasPage(p, va) && va < end then va in pages && pages[va] == PageAt(file, p, va)
    else (va in pages <==> va in was) && (va in pages ==> pages[va] == was[va])
  }

  lemma SegmentDone(file: seq<Byte>, ps: seq<Phdr>, n: nat, was: Pages, pages: Pages, end: nat)
    requires n < |ps| && LoadedTo(file, ps, n, was) && MappedTo(file, ps[n], was, pages, end)
    requires forall va: nat | HasPage(ps[n], va) :: va < end
    ensures LoadedTo(file, ps, n + 1, pages)
  {
    var m := n + 1;
    forall va: nat ensures PageLoaded(file, ps, m, pages, va) {
      assert PageLoaded(file, ps, n, was, va) && PageMapped(file, ps[n], was, pages, end, va);
    }
  }

  // ---- The loader -----------------------------------------------------------------------------------

  /** Copies what the file has of `n` bytes at `off` into a zeroed page; nothing there is
      a failed read. */
  method ReadInto(file: seq<Byte>, off: nat, n: nat, at: nat) returns (ok: bool, page: seq<Byte>)
    requires at + n <= PAGE && n > 0
    ensures ok <==> off < |file|
    ensures |page| == PAGE
    ensures forall k | 0 <= k < PAGE :: page[k] == if at <= k < at + n && off + (k - at) < |file| then file[off + (k - at)] else 0
  {
    page := seq(PAGE, i => 0);
    ok := off < |file|;
    if ok {
      var have := if off + n <= |file| then n else |file| - off;
      page := page[..at] + file[off..off + have] + page[at + have..];
    }
  }

  /** One page of a segment. */
  method FillPage(file: seq<Byte>, p: Phdr, va: nat) returns (ok: bool, page: seq<Byte>)
    requires Loads(p) && HasPage(p, va) && |file| < TWO_32
    ensures ok ==> page == PageAt(file, p, va)
    ensures !ok ==> p.offset + p.filesz > |file|
  {
    var fileEnd := p.vaddr + p.filesz;
    ok, page := true, seq(PAGE, i => 0);
    if va < fileEnd {
      var from := if va > p.vaddr then va else p.vaddr;
      var to := if va + PAGE < fileEnd then va + PAGE else fileEnd;
      if to > from {
        ok, page := ReadInto(file, (p.offset + (from - p.vaddr)) % TWO_32, to - from, from - va);
      }
    }
    assert ok ==> page == PageAt(file, p, va);
  }

  /** The file has every byte its segments ask for. */
  ghost predicate Complete(file: seq<Byte>, ps: seq<Phdr>) {
    forall i | 0 <= i < |ps| && Loads(ps[i]) :: ps[i].offset + ps[i].filesz <= |file|
  }

  class AddressSpace {
    var pages: Pages
    var frames: nat

    constructor (frames: nat)
      ensures pages == map[] && this.frames == frames
    {
      pages, this.frames := map[], frames;
    }

    /** The page loop for one segment; it fails when frames run out or a read fails. */
    method LoadSegment(file: seq<Byte>, p: Phdr) returns (ok: bool)
      requires Loads(p) && |file| < TWO_32
      modifies this
      ensures ok ==> MappedTo(file, p, old(pages), pages, UpToPage(p.vaddr + p.memsz))
      ensures !ok ==> frames == 0 || p.offset + p.filesz > |file|
    {
      var va, end := DownToPage(p.vaddr), UpToPage(p.vaddr + p.memsz);
      NothingMapped(file, p, pages, va);
      while va < end
        invariant va % PAGE == 0 && DownToPage(p.vaddr) <= va
        invariant MappedTo(file, p, old(pages), pages, va)
      {
        if frames == 0 {
          return false;
        }
        var got, page := FillPage(file, p, va);
        if !got {
          return false;
        }
        frames := frames - 1;
        NextPage(file, p, old(pages), pages, va);
        pages := pages[va := page];
        va := va + PAGE;
      }
      EndReached(file, p, old(pages), pages, va, end);
      return true;
    }

    /** `load_elf` past its header checks; on failure every page is given back. */
    method Load(file: seq<Byte>, ps: seq<Phdr>) returns (ok: bool)
      requires pages == map[] && |file| < TWO_32
      modifies this
      ensures ok ==> LoadedTo(file, ps, |ps|, pages)
      ensures !ok ==> pages == map[] && (Complete(file, ps) ==> frames == 0)
    {
      for i := 0 to |ps|
        invariant LoadedTo(file, ps, i, pages)
      {
        if Loads(ps[i]) {
          ghost var was := pages;
          ok := LoadSegment(file, ps[i]);
          if !ok {
            pages := map[];
            return;
          }
          SegmentDone(file, ps, i, was, pages, UpToPage(ps[i].vaddr + ps[i].memsz));
        } else {
          NoSegment(file, ps, i, pages);
        }
      }
      return true;
    }
  }

  lemma NothingMapped(file: seq<Byte>, p: Phdr, pages: Pages, va: nat)
    requires va == DownToPage(p.vaddr)
    ensures MappedTo(file, p, pages, pages, va)
  {
    forall a: nat ensures PageMapped(file, p, pages, pages, va, a) {
    }
  }

  lemma NextPage(file: seq<Byte>, p: Phdr, was: Pages, pages: Pages, va: nat)
    requires MappedTo(file, p, was, pages, va) && HasPage(p, va)
    ensures MappedTo(file, p, was, pages[va := PageAt(file, p, va)], va + PAGE)
  {
    var now, end := pages[va := PageAt(file, p, va)], va + PAGE;
    forall a: nat ensures PageMapped(file, p, was, now, end, a) {
      assert PageMapped(file, p, was, pages, va, a);
      assert a % PAGE == 0 && va < a ==> a >= end;
    }
  }

  lemma EndReached(file: seq<Byte>, p: Phdr, was: Pages, pages: Pages, va: nat, end: nat)
    requires Loads(p) && MappedTo(file, p, was, pages, va) && va >= end == UpToPage(p.vaddr + p.memsz)
    ensures MappedTo(file, p, was, pages, end)
  {
    forall a: nat ensures PageMapped(file, p, was, pages, end, a) {
      assert PageMapped(file, p, was, pages, va, a);
    }
  }

  lemma NoSegment(file: seq<Byte>, ps: seq<Phdr>, n: nat, pages: Pages)
    requires n < |ps| && !Loads(ps[n]) && LoadedTo(file, ps, n, pages)
    ensures LoadedTo(file, ps, n + 1, pages)
  {
    var m := n + 1;
    forall va: nat ensures PageLoaded(file, ps, m, pages, va) {
      assert PageLoaded(file, ps, n, pages, va);
    }
  }

  // ---- What a loaded program sees --------------------------------------------------------------------

  ghost predicate PagesDisjoint(ps: seq<Phdr>) {
    forall i, j, va: nat | 0 <= i < |ps| && 0 <= j < |ps| && HasPage(ps[i], va) && HasPage(ps[j], va) :: i == j
  }

  /** With page-disjoint segments, every page of every segment holds exactly what is read
      for that segment, and that is what the header prescribes where the page's file
      offset fits 32 bits. */
  lemma EverySegmentIsLoaded(file: seq<Byte>, ps: seq<Phdr>, pages: Pages, i: nat, va: nat, k: nat)
    requires LoadedTo(file, ps, |ps|, pages) && PagesDisjoint(ps) && i < |ps| && HasPage(ps[i], va) && k < PAGE
    ensures va in pages && |pages[va]| == PAGE && pages[va][k] == LoadedByte(file, ps[i], va, va + k)
    ensures !OffsetOverflows(ps[i], va) ==> pages[va][k] == ByteAt(file, ps[i], va + k)
  {
    assert PageLoaded(file, ps, |ps|, pages, va);
    assert LastWith(ps, |ps|, va) == i;
    if !OffsetOverflows(ps[i], va) {
      LoadedAsPrescribed(file, ps[i], va);
    }
  }

  // ---- The break --------------------------------------------------------------------------------------

  /** Headers `elf_get_brk_start` looks at; empty segments count here. */
  predicate Counts(p: Phdr) {
    p.kind == PT_LOAD && p.vaddr + p.memsz < TWO_32
  }

  function Highest(ps: seq<Phdr>, n: nat): (h: U32)
    requires n <= |ps|
    ensures forall i | 0 <= i < n && Counts(ps[i]) :: ps[i].vaddr + ps[i].memsz <= h
  {
    if n == 0 then 0
    else if Counts(ps[n - 1]) && ps[n - 1].vaddr + ps[n - 1].memsz > Highest(ps, n - 1) then ps[n - 1].vaddr + ps[n - 1].memsz
    else Highest(ps, n - 1)
  }

  method BreakStart(ps: seq<Phdr>) returns (brk: U32)
    ensures brk == UpToPage(Highest(ps, |ps|))
  {
    var highest: U32 := 0;
    for i := 0 to |ps|
      invariant highest == Highest(ps, i)
    {
      if ps[i].kind == PT_LOAD && ps[i].vaddr + ps[i].memsz < TWO_32 {
        var end := ps[i].vaddr + ps[i].memsz;
        if end > highest {
          highest := end;
        }
      }
    }
    brk := UpToPage(highest);
  }

  /** The break is page-aligned and above every mapped page exactly when rounding it up
      does not wrap, or there is no page to be above. */
  lemma BreakIsAbove(ps: seq<Phdr>)
    ensures UpToPage(Highest(ps, |ps|)) % PAGE == 0
    ensures (forall i, va: nat | 0 <= i < |ps| && HasPage(ps[i], va) :: va + PAGE <= UpToPage(Highest(ps, |ps|)))
            <==> (Highest(ps, |ps|) + PAGE - 1 < TWO_32 || forall i, va: nat | 0 <= i < |ps| :: !HasPage(ps[i], va))
  {
    var h := Highest(ps, |ps|);
    if h + PAGE - 1 < TWO_32 {
      forall i, va: nat | 0 <= i < |ps| && HasPage(ps[i], va) ensures va + PAGE <= UpToPage(h) {
        AlignedBelow(va, ps[i].vaddr + ps[i].memsz, h);
      }
    }
  }

  lemma AlignedBelow(va: nat, end: U32, h: U32)
    requires va % PAGE == 0 && va < UpToPage(end) && end <= h && h + PAGE - 1 < TWO_32
    ensures va + PAGE <= UpToPage(h)
  {
  }

  /** A segment ending in the last page of the address space is not mapped but still
      counts, and puts the break at 0, below the others. */
  lemma TopSegmentLosesTheBreak()
    ensures var ps := [Phdr(PT_LOAD, 0, 0x1000, 0, 1), Phdr(PT_LOAD, 0, 0xFFFF_F000, 0, 1)];
            HasPage(ps[0], 0x1000) && UpToPage(Highest(ps, 2)) == 0
  {
    var ps := [Phdr(PT_LOAD, 0, 0x1000, 0, 1), Phdr(PT_LOAD, 0, 0xFFFF_F000, 0, 1)];
    assert Highest(ps, 1) == 0x1001;
    assert Highest(ps, 2) == 0xFFFF_F001;
  }
}
