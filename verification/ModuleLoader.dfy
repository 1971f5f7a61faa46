/** Loading a relocatable module (fs/vfs/fs_mod.c, load_module_image): lay the sections
    out, copy the PROGBITS ones from the file, patch every relocation site and find the
    entry points.  Section headers, symbols and relocation entries are taken as records;
    sums of sizes and offsets are taken not to wrap. */
module ModuleLoader {
  import opened MachineInts
  import opened ImageBytes
  import opened ModuleLayout
  import opened Relocation

  const STB_GLOBAL: nat := 1
  const STB_WEAK: nat := 2
  const STT_FUNC: nat := 2
  const R_386_32: nat := 1
  const R_386_PC32: nat := 2

  datatype Sym = Sym(name: string, value: U32, bind: nat, kind: nat, shndx: nat)
  datatype Rel = Rel(offset: U32, sym: nat, kind: nat)

  /** A verified module file; `syms` is its symbol table and `rels[i]` are the entries of
      section `i` read as relocations. */
  datatype Object = Object(file: seq<Byte>, sections: seq<Section>, syms: seq<Sym>, rels: seq<seq<Rel>>)

  datatype Loaded = Loaded(image: seq<Byte>, mount: U32, unmount: U32) | Failed(code: int)

  ghost predicate NoWrap(o: Object, base: U32) {
    && base + End(o.sections, |o.sections|) < TWO_32 && |o.rels| == |o.sections|
    && (forall i | 0 <= i < |o.sections| :: o.sections[i].offset + o.sections[i].size < TWO_32)
    && (forall i, r | 0 <= i < |o.rels| && 0 <= r < |o.rels[i]| :: o.rels[i][r].offset + 4 < TWO_32)
  }

  predicate InFile(o: Object, i: nat) {
    i < |o.sections| && o.sections[i].offset + o.sections[i].size <= |o.file|
  }

  // ---- Copying ----------------------------------------------------------------------------

  predicate Copies(o: Object, i: nat)
    requires i < |o.sections|
  {
    o.sections[i].alloc && o.sections[i].kind == SHT_PROGBITS
  }

  /** Every section to copy is inside the file. */
  predicate Copyable(o: Object, n: nat)
    requires n <= |o.sections|
  {
    forall i | 0 <= i < n :: Copies(o, i) ==> InFile(o, i)
  }

  function SectionBytes(o: Object, i: nat): (b: seq<Byte>)
    requires InFile(o, i)
    ensures |b| == o.sections[i].size
  {
    o.file[o.sections[i].offset..o.sections[i].offset + o.sections[i].size]
  }

  /** The image after the first `i` sections have been copied into zeros. */
  function Copied(o: Object, i: nat): (img: seq<Byte>)
    requires i <= |o.sections| && Copyable(o, i)
    ensures |img| == End(o.sections, |o.sections|)
  {
    if i == 0 then seq(End(o.sections, |o.sections|), k => 0)
    else if Copies(o, i - 1) then
      SectionInside(o.sections, i - 1);
      Splice(Copied(o, i - 1), Addr(o.sections, i - 1), SectionBytes(o, i - 1))
    else Copied(o, i - 1)
  }

  predicate Holds(o: Object, i: nat, k: nat)
    requires i < |o.sections|
  {
    Copies(o, i) && Addr(o.sections, i) <= k < Addr(o.sections, i) + o.sections[i].size
  }

  /** A byte of a copied section is the file's byte. */
  lemma {:induction false} CopiedByte(o: Object, n: nat, i: nat, k: nat)
    requires i < n <= |o.sections| && Copyable(o, n) && Holds(o, i, k)
    ensures k < |Copied(o, n)| && o.sections[i].offset + (k - Addr(o.sections, i)) < |o.file|
    ensures Copied(o, n)[k] == o.file[o.sections[i].offset + (k - Addr(o.sections, i))]
    decreases n
  {
    SectionInside(o.sections, i);
    if i < n - 1 {
      CopiedByte(o, n - 1, i, k);
      if Copies(o, n - 1) {
        SectionInside(o.sections, n - 1);
        LayoutIsDisjoint(o.sections, i, n - 1);
      }
    }
  }

  /** Every other byte is zero. */
  lemma {:induction false} OtherByteZero(o: Object, n: nat, k: nat)
    requires n <= |o.sections| && Copyable(o, n) && k < End(o.sections, |o.sections|)
    requires forall i | 0 <= i < n :: !Holds(o, i, k)
    ensures Copied(o, n)[k] == 0
    decreases n
  {
    if n > 0 {
      OtherByteZero(o, n - 1, k);
      if Copies(o, n - 1) {
        SectionInside(o.sections, n - 1);
        assert !Holds(o, n - 1, k);
      }
    }
  }

  // ---- Relocations --------------------------------------------------------------------------

  /** What one relocation entry does: nothing, a patch, or it stops the load. */
  datatype Action = Stop | Skip | Do(patch: Patch)

  function SymbolValue(o: Object, ksym: string -> U32, base: U32, sym: nat): Option<U32> {
    if sym >= |o.syms| then None
    else
      var s := o.syms[sym];
      if s.shndx == 0 then
        if ksym(s.name) == 0 && s.bind != STB_WEAK then None else Some(ksym(s.name))
      else if s.shndx >= |o.sections| || !o.sections[s.shndx].alloc then None
      else Some((base + Addr(o.sections, s.shndx) + s.value) % TWO_32)
  }

  /** The symbol is not there, is not the kernel's to give and not weak, or is in a
      section that is not loaded. */
  predicate Unresolved(o: Object, ksym: string -> U32, sym: nat) {
    || sym >= |o.syms|
    || (o.syms[sym].shndx == 0 && o.syms[sym].bind != STB_WEAK && ksym(o.syms[sym].name) == 0)
    || (o.syms[sym].shndx > 0 && (o.syms[sym].shndx >= |o.sections| || !o.sections[o.syms[sym].shndx].alloc))
  }

  function Resolve(o: Object, ksym: string -> U32, base: U32, target: nat, rel: Rel): (a: Action)
    requires target < |o.sections| && o.sections[target].alloc
    ensures a.Do? ==> Inside(a.patch, End(o.sections, |o.sections|))
  {
    SectionInside(o.sections, target);
    var v := SymbolValue(o, ksym, base, rel.sym);
    if v == None || rel.offset + 4 > o.sections[target].size then Stop
    else
      var site := Addr(o.sections, target) + rel.offset;
      if rel.kind == R_386_32 then Do(Patch(site, v.value))
      else if rel.kind == R_386_PC32 then Do(Patch(site, v.value - (base + site)))
      else Skip
  }

  /** An entry stops the load exactly when its symbol cannot be resolved or its site leaves
      the section it is for; an entry that patches stays inside that section. */
  lemma ResolveStops(o: Object, ksym: string -> U32, base: U32, target: nat, rel: Rel)
    requires target < |o.sections| && o.sections[target].alloc
    ensures var a := Resolve(o, ksym, base, target, rel);
            && (a.Stop? <==> Unresolved(o, ksym, rel.sym) || rel.offset + 4 > o.sections[target].size)
            && (a.Skip? ==> rel.kind != R_386_32 && rel.kind != R_386_PC32)
            && (a.Do? ==> 0 <= a.patch.site - Addr(o.sections, target) <= o.sections[target].size - 4)
  {
    SectionInside(o.sections, target);
  }

  /** The section the entries of relocation section `i` apply to, if they count at all. */
  function Target(o: Object, i: nat): Option<nat>
    requires i < |o.sections|
  {
    var t := o.sections[i].info % 0x10000;
    if o.sections[i].kind == SHT_REL && t < |o.sections| && o.sections[t].alloc then Some(t) else None
  }

  /** The patches of entries `rs` followed by `rest`, or none if an entry stops the load. */
  function Patches(o: Object, ksym: string -> U32, base: U32, target: nat, rs: seq<Rel>, rest: Option<seq<Patch>>): (ps: Option<seq<Patch>>)
    requires target < |o.sections| && o.sections[target].alloc
    requires rest.Some? ==> AllInside(rest.value, End(o.sections, |o.sections|))
    ensures ps.Some? ==> AllInside(ps.value, End(o.sections, |o.sections|))
  {
    if rs == [] then rest
    else
      match Resolve(o, ksym, base, target, rs[0])
      case Stop => None
      case Skip => Patches(o, ksym, base, target, rs[1..], rest)
      case Do(p) =>
        var more := Patches(o, ksym, base, target, rs[1..], rest);
        if more == None then None else Some([p] + more.value)
  }

  /** All patches of the sections from `i` on. */
  function AllPatches(o: Object, ksym: string -> U32, base: U32, i: nat): (ps: Option<seq<Patch>>)
    requires i <= |o.sections| == |o.rels|
    ensures ps.Some? ==> AllInside(ps.value, End(o.sections, |o.sections|))
    decreases |o.sections| - i
  {
    if i == |o.sections| then Some([])
    else
      var rest := AllPatches(o, ksym, base, i + 1);
      match Target(o, i)
      case None => rest
      case Some(t) => Patches(o, ksym, base, t, o.rels[i], rest)
  }

  /** Patching an image with the remaining patches, if nothing stops the load. */
  function Outcome(img: seq<Byte>, ps: Option<seq<Patch>>): Option<seq<Byte>>
    requires ps.Some? ==> AllInside(ps.value, |img|)
  {
    if ps == None then None else Some(ApplyPatches(img, ps.value))
  }

  // ---- Entry points ---------------------------------------------------------------------------

  predicate Exports(o: Object, s: nat, name: string)
    requires s < |o.syms|
  {
    o.syms[s].bind == STB_GLOBAL && o.syms[s].kind == STT_FUNC && 0 < o.syms[s].shndx < |o.sections| && o.syms[s].name == name
  }

  /** The address of the last exported function of that name among the first `n`
      symbols, 0 if there is none. */
  function Entry(o: Object, base: U32, name: string, n: nat): U32
    requires n <= |o.syms|
  {
    if n == 0 then 0
    else if Exports(o, n - 1, name) then (base + Addr(o.sections, o.syms[n - 1].shndx) + o.syms[n - 1].value) % TWO_32
    else Entry(o, base, name, n - 1)
  }

  // ---- The whole load ----------------------------------------------------------------------

  function FirstSymtab(ss: seq<Section>, i: nat): (k: nat)
    requires i <= |ss|
    ensures i <= k <= |ss| && (k < |ss| ==> ss[k].kind == SHT_SYMTAB) && forall j | i <= j < k :: ss[j].kind != SHT_SYMTAB
    decreases |ss| - i
  {
    if i == |ss| || ss[i].kind == SHT_SYMTAB then i else FirstSymtab(ss, i + 1)
  }

  /** The symbol table and its string table are there and inside the file. */
  function TablesError(o: Object): int {
    var s := FirstSymtab(o.sections, 0);
    if s == |o.sections| then -4
    else if !InFile(o, s) || !InFile(o, o.sections[s].link % 0x10000) then -8
    else 0
  }

  function LoadedOrFailed(o: Object, base: U32, img: Option<seq<Byte>>): Loaded {
    if img == None then Failed(-7)
    else
      var mnt := Entry(o, base, "fs_mount", |o.syms|);
      if mnt == 0 then Failed(-5) else Loaded(img.value, mnt, Entry(o, base, "fs_unmount", |o.syms|))
  }

  /** The result of loading into an image at `base`, none when no memory was available. */
  function Load(o: Object, ksym: string -> U32, base: Option<U32>): Loaded
    requires |o.rels| == |o.sections|
  {
    if base == None then Failed(-3)
    else if !Copyable(o, |o.sections|) then Failed(-8)
    else if TablesError(o) != 0 then Failed(TablesError(o))
    else LoadedOrFailed(o, base.value, Outcome(Copied(o, |o.sections|), AllPatches(o, ksym, base.value, 0)))
  }

  // ---- What a loaded image is -----------------------------------------------------------------

  ghost predicate Unpatched(ps: seq<Patch>, k: nat) {
    forall i | 0 <= i < |ps| :: !Covers(ps[i], k)
  }

  /** Each site of `copy` patched once, in whatever order, and nothing else changed. */
  ghost predicate PatchedOnce(copy: seq<Byte>, ps: seq<Patch>, img: seq<Byte>) {
    && |img| == |copy| && AllInside(ps, |img|)
    && (forall i | 0 <= i < |ps| :: PatchedAt(copy, img, ps[i].site, ps[i].delta))
    && (forall k | 0 <= k < |img| && Unpatched(ps, k) :: img[k] == copy[k])
  }

  lemma ApplyingPatchesOnce(copy: seq<Byte>, ps: seq<Patch>)
    requires AllInside(ps, |copy|) && AllApart(ps)
    ensures PatchedOnce(copy, ps, ApplyPatches(copy, ps))
  {
    var img := ApplyPatches(copy, ps);
    forall i | 0 <= i < |ps| ensures PatchedAt(copy, img, ps[i].site, ps[i].delta) {
      PatchTakesEffect(copy, ps, i);
    }
    forall k | 0 <= k < |copy| && Unpatched(ps, k) ensures img[k] == copy[k] {
      OtherByteKept(copy, ps, k);
    }
  }

  /** A loaded image is the laid-out file with each site patched once: with patch sites
      apart, the word at a site is the laid-out word plus S, or plus S minus the site's
      address, modulo 2^32; no other byte differs; and every order of the entries gives
      the same image. */
  lemma LoadedImageIsPatchedOnce(o: Object, ksym: string -> U32, base: U32, ps: seq<Patch>, qs: seq<Patch>)
    requires |o.rels| == |o.sections| && Load(o, ksym, Some(base)).Loaded?
    requires AllPatches(o, ksym, base, 0) == Some(ps) && AllApart(ps) && multiset(qs) == multiset(ps)
    ensures PatchedOnce(Copied(o, |o.sections|), ps, Load(o, ksym, Some(base)).image)
    ensures AllInside(qs, |Copied(o, |o.sections|)|)
    ensures ApplyPatches(Copied(o, |o.sections|), qs) == Load(o, ksym, Some(base)).image
  {
    ApplyingPatchesOnce(Copied(o, |o.sections|), ps);
    OrderDoesNotMatter(Copied(o, |o.sections|), ps, qs);
  }

  /** Every entry of a loaded module was resolved, and one that patches is among the
      patches. */
  lemma {:induction false} EntryIsPatched(o: Object, ksym: string -> U32, base: U32, t: nat, rs: seq<Rel>, rest: Option<seq<Patch>>, r: nat)
    requires t < |o.sections| && o.sections[t].alloc && r < |rs|
    requires rest.Some? ==> AllInside(rest.value, End(o.sections, |o.sections|))
    requires Patches(o, ksym, base, t, rs, rest).Some?
    ensures var a := Resolve(o, ksym, base, t, rs[r]);
            a != Stop && (a.Do? ==> a.patch in Patches(o, ksym, base, t, rs, rest).value)
    decreases |rs|
  {
    if r > 0 {
      EntryIsPatched(o, ksym, base, t, rs[1..], rest, r - 1);
      assert rs[1..][r - 1] == rs[r];
    }
  }

  lemma {:induction false} LaterPatchesKept(o: Object, ksym: string -> U32, base: U32, t: nat, rs: seq<Rel>, rest: Option<seq<Patch>>)
    requires t < |o.sections| && o.sections[t].alloc
    requires rest.Some? ==> AllInside(rest.value, End(o.sections, |o.sections|))
    requires Patches(o, ksym, base, t, rs, rest).Some?
    ensures rest.Some? && forall p | p in rest.value :: p in Patches(o, ksym, base, t, rs, rest).value
    decreases |rs|
  {
    if rs != [] {
      LaterPatchesKept(o, ksym, base, t, rs[1..], rest);
    }
  }

  lemma {:induction false} SectionIsPatched(o: Object, ksym: string -> U32, base: U32, n: nat, i: nat, r: nat)
    requires n <= i < |o.sections| == |o.rels| && Target(o, i).Some? && r < |o.rels[i]| && AllPatches(o, ksym, base, n).Some?
    ensures var a := Resolve(o, ksym, base, Target(o, i).value, o.rels[i][r]);
            a != Stop && (a.Do? ==> a.patch in AllPatches(o, ksym, base, n).value)
    decreases i - n
  {
    if n == i {
      EntryIsPatched(o, ksym, base, Target(o, i).value, o.rels[i], AllPatches(o, ksym, base, i + 1), r);
    } else {
      if Target(o, n).Some? {
        LaterPatchesKept(o, ksym, base, Target(o, n).value, o.rels[n], AllPatches(o, ksym, base, n + 1));
      }
      SectionIsPatched(o, ksym, base, n + 1, i, r);
    }
  }

  /** The relocation law for one entry: `img` has A + S at its site P for R_386_32 and
      A + S - P for R_386_PC32, modulo 2^32, where A is the word of `copy` there. */
  ghost predicate RelocationHolds(o: Object, ksym: string -> U32, base: U32, t: nat, rel: Rel, copy: seq<Byte>, img: seq<Byte>)
    requires t < |o.sections|
  {
    var site, s := Addr(o.sections, t) + rel.offset, SymbolValue(o, ksym, base, rel.sym);
    && s.Some? && rel.offset + 4 <= o.sections[t].size
    && (rel.kind == R_386_32 ==> PatchedAt(copy, img, site, s.value))
    && (rel.kind == R_386_PC32 ==> PatchedAt(copy, img, site, s.value - (base + site)))
  }

  lemma PatchInEffect(copy: seq<Byte>, ps: seq<Patch>, p: Patch)
    requires AllInside(ps, |copy|) && AllApart(ps) && p in ps
    ensures PatchedAt(copy, ApplyPatches(copy, ps), p.site, p.delta)
  {
    var k :| 0 <= k < |ps| && ps[k] == p;
    PatchTakesEffect(copy, ps, k);
  }

  lemma PatchMakesItHold(o: Object, ksym: string -> U32, base: U32, t: nat, rel: Rel, copy: seq<Byte>, img: seq<Byte>)
    requires t < |o.sections| && o.sections[t].alloc
    requires var a := Resolve(o, ksym, base, t, rel); a != Stop && (a.Do? ==> PatchedAt(copy, img, a.patch.site, a.patch.delta))
    ensures RelocationHolds(o, ksym, base, t, rel, copy, img)
  {
  }

  /** In a loaded image whose patch sites are apart, the relocation law holds of every
      entry of every relocation section that counts. */
  lemma EveryEntryIsRelocated(o: Object, ksym: string -> U32, base: U32, ps: seq<Patch>, i: nat, r: nat)
    requires i < |o.sections| == |o.rels| && Load(o, ksym, Some(base)).Loaded?
    requires AllPatches(o, ksym, base, 0) == Some(ps) && AllApart(ps) && Target(o, i).Some? && r < |o.rels[i]|
    ensures RelocationHolds(o, ksym, base, Target(o, i).value, o.rels[i][r], Copied(o, |o.sections|), Load(o, ksym, Some(base)).image)
  {
    var t, copy := Target(o, i).value, Copied(o, |o.sections|);
    SectionIsPatched(o, ksym, base, 0, i, r);
    var a := Resolve(o, ksym, base, t, o.rels[i][r]);
    if a.Do? {
      PatchInEffect(copy, ps, a.patch);
    }
    PatchMakesItHold(o, ksym, base, t, o.rels[i][r], copy, ApplyPatches(copy, ps));
  }

  /** Bytes no patch covers: the file's byte where a section was copied, zero elsewhere. */
  lemma LoadedByte(o: Object, ksym: string -> U32, base: U32, ps: seq<Patch>, k: nat)
    requires |o.rels| == |o.sections| && Load(o, ksym, Some(base)).Loaded?
    requires AllPatches(o, ksym, base, 0) == Some(ps) && k < |Load(o, ksym, Some(base)).image| && Unpatched(ps, k)
    ensures forall i | 0 <= i < |o.sections| && Holds(o, i, k) :: FileByte(o, i, k) == Some(Load(o, ksym, Some(base)).image[k])
    ensures (forall i | 0 <= i < |o.sections| :: !Holds(o, i, k)) ==> Load(o, ksym, Some(base)).image[k] == 0
  {
    OtherByteKept(Copied(o, |o.sections|), ps, k);
    forall i | 0 <= i < |o.sections| && Holds(o, i, k) ensures FileByte(o, i, k) == Some(Copied(o, |o.sections|)[k]) {
      CopiedByte(o, |o.sections|, i, k);
    }
    if forall i | 0 <= i < |o.sections| :: !Holds(o, i, k) {
      OtherByteZero(o, |o.sections|, k);
    }
  }

  /** The file's byte for address `k` of section `i`. */
  function FileByte(o: Object, i: nat, k: nat): Option<Byte>
    requires i < |o.sections| && Holds(o, i, k)
  {
    var p := o.sections[i].offset + (k - Addr(o.sections, i));
    if p < |o.file| then Some(o.file[p]) else None
  }

  /** The addend of a site in a copied section is the word the file has there. */
  lemma AddendIsInFile(o: Object, t: nat, r: nat)
    requires t < |o.sections| && Copies(o, t) && Copyable(o, |o.sections|) && r + 4 <= o.sections[t].size
    ensures Addr(o.sections, t) + r + 4 <= |Copied(o, |o.sections|)| && o.sections[t].offset + r + 4 <= |o.file|
    ensures Rd32(Copied(o, |o.sections|), Addr(o.sections, t) + r) == Rd32(o.file, o.sections[t].offset + r)
  {
    SectionInside(o.sections, t);
    var n, a := |o.sections|, Addr(o.sections, t) + r;
    CopiedByte(o, n, t, a);
    CopiedByte(o, n, t, a + 1);
    CopiedByte(o, n, t, a + 2);
    CopiedByte(o, n, t, a + 3);
  }

  // ---- The program ------------------------------------------------------------------------------

  method AddToWord(image: array<Byte>, p: Patch)
    requires Inside(p, image.Length)
    modifies image
    ensures image[..] == PatchWord(old(image[..]), p)
  {
    var x := (Rd32(image[..], p.site) + p.delta) % TWO_32;
    CopyInto(image, p.site, Le32(x));
  }

  /** Copies every PROGBITS section, or finds one that is not inside the file. */
  method CopySections(o: Object, addrs: seq<nat>, image: array<Byte>) returns (ok: bool)
    requires |addrs| == |o.sections| && forall i | 0 <= i < |addrs| :: addrs[i] == Addr(o.sections, i)
    requires image.Length == End(o.sections, |o.sections|) && forall k | 0 <= k < image.Length :: image[k] == 0
    modifies image
    ensures ok == Copyable(o, |o.sections|)
    ensures ok ==> image[..] == Copied(o, |o.sections|)
  {
    assert image[..] == Copied(o, 0);
    for i := 0 to |o.sections|
      invariant Copyable(o, i) && image[..] == Copied(o, i)
    {
      if Copies(o, i) {
        if !InFile(o, i) {
          return false;
        }
        SectionInside(o.sections, i);
        CopyInto(image, addrs[i], SectionBytes(o, i));
      }
    }
    return true;
  }

  /** The entries of one relocation section. */
  method RelocateSection(o: Object, ksym: string -> U32, base: U32, target: nat, rs: seq<Rel>, image: array<Byte>,
                         ghost rest: Option<seq<Patch>>) returns (ok: bool)
    requires target < |o.sections| && o.sections[target].alloc && image.Length == End(o.sections, |o.sections|)
    requires rest.Some? ==> AllInside(rest.value, image.Length)
    modifies image
    ensures Outcome(old(image[..]), Patches(o, ksym, base, target, rs, rest)) == if ok then Outcome(image[..], rest) else None
  {
    for r := 0 to |rs|
      invariant Outcome(old(image[..]), Patches(o, ksym, base, target, rs, rest))
             == Outcome(image[..], Patches(o, ksym, base, target, rs[r..], rest))
    {
      assert rs[r..][1..] == rs[r + 1..];
      match Resolve(o, ksym, base, target, rs[r])
      case Stop =>
        return false;
      case Skip =>
      case Do(p) =>
        FirstPatch(image[..], p, Patches(o, ksym, base, target, rs[r + 1..], rest));
        AddToWord(image, p);
    }
    return true;
  }

  lemma FirstPatch(img: seq<Byte>, p: Patch, more: Option<seq<Patch>>)
    requires Inside(p, |img|) && (more.Some? ==> AllInside(more.value, |img|))
    ensures more.Some? ==> AllInside([p] + more.value, |img|)
    ensures Outcome(img, if more == None then None else Some([p] + more.value)) == Outcome(PatchWord(img, p), more)
  {
    if more.Some? {
      assert ([p] + more.value)[1..] == more.value;
    }
  }

  method Relocate(o: Object, ksym: string -> U32, base: U32, image: array<Byte>) returns (ok: bool)
    requires |o.rels| == |o.sections| && image.Length == End(o.sections, |o.sections|)
    modifies image
    ensures Outcome(old(image[..]), AllPatches(o, ksym, base, 0)) == if ok then Some(image[..]) else None
  {
    for i := 0 to |o.sections|
      invariant Outcome(old(image[..]), AllPatches(o, ksym, base, 0)) == Outcome(image[..], AllPatches(o, ksym, base, i))
    {
      match Target(o, i)
      case None =>
      case Some(t) =>
        ok := RelocateSection(o, ksym, base, t, o.rels[i], image, AllPatches(o, ksym, base, i + 1));
        if !ok {
          return;
        }
    }
    return true;
  }

  method FindEntry(o: Object, base: U32, addrs: seq<nat>, name: string) returns (addr: U32)
    requires |addrs| == |o.sections| && forall i | 0 <= i < |addrs| :: addrs[i] == Addr(o.sections, i)
    ensures addr == Entry(o, base, name, |o.syms|)
  {
    addr := 0;
    for s := 0 to |o.syms|
      invariant addr == Entry(o, base, name, s)
    {
      if Exports(o, s, name) {
        addr := (base + addrs[o.syms[s].shndx] + o.syms[s].value) % TWO_32;
      }
    }
  }

  method LoadModule(o: Object, ksym: string -> U32, base: Option<U32>) returns (r: Loaded)
    requires base.Some? ==> NoWrap(o, base.value)
    requires |o.rels| == |o.sections|
    ensures r == Load(o, ksym, base)
  {
    var addrs, total := AssignAddresses(o.sections);
    if base == None {
      return Failed(-3);
    }
    var image: array<Byte> := new Byte[total](_ => 0);
    var ok := CopySections(o, addrs, image);
    if !ok {
      return Failed(-8);
    }
    if TablesError(o) != 0 {
      return Failed(TablesError(o));
    }
    ok := Relocate(o, ksym, base.value, image);
    if !ok {
      return Failed(-7);
    }
    var mnt := FindEntry(o, base.value, addrs, "fs_mount");
    var unm := FindEntry(o, base.value, addrs, "fs_unmount");
    if mnt == 0 {
      return Failed(-5);
    }
    return Loaded(image[..], mnt, unm);
  }
}
