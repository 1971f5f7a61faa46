/** Word patches in an image (R_386_32 and R_386_PC32 of the System V ABI, Intel386
    supplement, chapter 4): each adds a value modulo 2^32 to the word at its site.  When
    sites do not overlap, the order of the patches makes no difference, every patched
    word is its old value plus its own addend, and no other byte changes. */
module Relocation {
  import opened MachineInts
  import opened ImageBytes

  /** What is added at a site; only its value modulo 2^32 matters. */
  datatype Patch = Patch(site: nat, delta: int)

  predicate Inside(p: Patch, n: nat) {
    p.site + 4 <= n
  }

  predicate Apart(p: Patch, q: Patch) {
    p.site + 4 <= q.site || q.site + 4 <= p.site
  }

  ghost predicate AllInside(ps: seq<Patch>, n: nat) {
    forall i | 0 <= i < |ps| :: Inside(ps[i], n)
  }

  ghost predicate AllApart(ps: seq<Patch>) {
    forall i, j | 0 <= i < j < |ps| :: Apart(ps[i], ps[j])
  }

  function PatchWord(img: seq<Byte>, p: Patch): (r: seq<Byte>)
    requires Inside(p, |img|)
    ensures |r| == |img|
  {
    PutWord(img, p.site, (Rd32(img, p.site) + p.delta) % TWO_32)
  }

  function ApplyPatches(img: seq<Byte>, ps: seq<Patch>): (r: seq<Byte>)
    requires AllInside(ps, |img|)
    ensures |r| == |img|
    decreases |ps|
  {
    if ps == [] then img else ApplyPatches(PatchWord(img, ps[0]), ps[1..])
  }

  predicate Covers(p: Patch, k: nat) {
    p.site <= k < p.site + 4
  }

  // ---- One patch ------------------------------------------------------------------------

  lemma PatchedWord(img: seq<Byte>, p: Patch)
    requires Inside(p, |img|)
    ensures Rd32(PatchWord(img, p), p.site) == (Rd32(img, p.site) + p.delta) % TWO_32
    ensures forall k | 0 <= k < |img| && !Covers(p, k) :: PatchWord(img, p)[k] == img[k]
  {
    var x := (Rd32(img, p.site) + p.delta) % TWO_32;
    PutWordBytes(img, p.site, x);
    WordRoundTrip(PatchWord(img, p), p.site, x);
  }

  lemma OtherWordKept(img: seq<Byte>, p: Patch, q: Patch)
    requires Inside(p, |img|) && Inside(q, |img|) && Apart(p, q)
    ensures Rd32(PatchWord(img, p), q.site) == Rd32(img, q.site)
  {
    PatchedWord(img, p);
  }

  /** Patches apart commute. */
  lemma PatchesCommute(img: seq<Byte>, p: Patch, q: Patch)
    requires Inside(p, |img|) && Inside(q, |img|) && Apart(p, q)
    ensures PatchWord(PatchWord(img, p), q) == PatchWord(PatchWord(img, q), p)
  {
    OtherWordKept(img, p, q);
    OtherWordKept(img, q, p);
    PutsCommute(img, p.site, (Rd32(img, p.site) + p.delta) % TWO_32, q.site, (Rd32(img, q.site) + q.delta) % TWO_32);
  }

  lemma PutsCommute(img: seq<Byte>, i: nat, x: nat, j: nat, y: nat)
    requires i + 4 <= |img| && j + 4 <= |img| && (i + 4 <= j || j + 4 <= i)
    ensures PutWord(PutWord(img, i, x), j, y) == PutWord(PutWord(img, j, y), i, x)
  {
    if i + 4 <= j {
      PutsInOrder(img, i, x, j, y);
    } else {
      PutsInOrder(img, j, y, i, x);
    }
  }

  lemma PutsInOrder(img: seq<Byte>, i: nat, x: nat, j: nat, y: nat)
    requires i + 4 <= j && j + 4 <= |img|
    ensures PutWord(PutWord(img, i, x), j, y) == PutWord(PutWord(img, j, y), i, x)
  {
    var b := img[..i] + Le32(x) + img[i + 4..j] + Le32(y) + img[j + 4..];
    var u, v := PutWord(img, i, x), PutWord(img, j, y);
    assert u[..j] == img[..i] + Le32(x) + img[i + 4..j] && u[j + 4..] == img[j + 4..];
    assert v[..i] == img[..i] && v[i + 4..] == img[i + 4..j] + Le32(y) + img[j + 4..];
    assert PutWord(u, j, y) == b;
    assert PutWord(v, i, x) == b;
  }

  // ---- All patches ----------------------------------------------------------------------

  lemma {:induction false} WordOutside(img: seq<Byte>, ps: seq<Patch>, site: nat)
    requires AllInside(ps, |img|) && site + 4 <= |img| && forall i | 0 <= i < |ps| :: Apart(Patch(site, 0), ps[i])
    ensures Rd32(ApplyPatches(img, ps), site) == Rd32(img, site)
    decreases |ps|
  {
    if ps != [] {
      OtherWordKept(img, ps[0], Patch(site, 0));
      WordOutside(PatchWord(img, ps[0]), ps[1..], site);
    }
  }

  /** The word of `img` at `site` is the one of `copy` plus `d`, modulo 2^32. */
  predicate PatchedAt(copy: seq<Byte>, img: seq<Byte>, site: nat, d: int) {
    site + 4 <= |copy| == |img| && Rd32(img, site) == (Rd32(copy, site) + d) % TWO_32
  }

  /** Every patched word is its old value plus its own addend, whatever was patched
      before or after it. */
  lemma {:induction false} PatchTakesEffect(img: seq<Byte>, ps: seq<Patch>, i: nat)
    requires AllInside(ps, |img|) && AllApart(ps) && i < |ps|
    ensures PatchedAt(img, ApplyPatches(img, ps), ps[i].site, ps[i].delta)
    decreases |ps|
  {
    var one, rest := PatchWord(img, ps[0]), ps[1..];
    if i > 0 {
      PatchTakesEffect(one, rest, i - 1);
      assert ps[i] == rest[i - 1];
      OtherWordKept(img, ps[0], ps[i]);
    } else {
      PatchedWord(img, ps[0]);
      WordOutside(one, rest, ps[0].site);
    }
  }

  /** A byte no patch covers is as it was. */
  lemma {:induction false} OtherByteKept(img: seq<Byte>, ps: seq<Patch>, k: nat)
    requires AllInside(ps, |img|) && k < |img| && forall i | 0 <= i < |ps| :: !Covers(ps[i], k)
    ensures ApplyPatches(img, ps)[k] == img[k]
    decreases |ps|
  {
    if ps != [] {
      PatchedWord(img, ps[0]);
      OtherByteKept(PatchWord(img, ps[0]), ps[1..], k);
    }
  }

  function Without(ps: seq<Patch>, k: nat): seq<Patch>
    requires k < |ps|
  {
    ps[..k] + ps[k + 1..]
  }

  /** Any patch may go first. */
  lemma {:induction false} MoveToFront(img: seq<Byte>, ps: seq<Patch>, k: nat)
    requires AllInside(ps, |img|) && AllApart(ps) && k < |ps|
    ensures ApplyPatches(img, ps) == ApplyPatches(PatchWord(img, ps[k]), Without(ps, k))
    decreases |ps|
  {
    if k == 0 {
      assert Without(ps, 0) == ps[1..];
    } else {
      var one := PatchWord(img, ps[0]);
      MoveToFront(one, ps[1..], k - 1);
      assert ps[1..][k - 1] == ps[k];
      PatchesCommute(img, ps[0], ps[k]);
      assert Without(ps, k)[0] == ps[0];
      assert Without(ps, k)[1..] == Without(ps[1..], k - 1);
    }
  }

  lemma RemoveFirst(ps: seq<Patch>, qs: seq<Patch>, k: nat)
    requires k < |ps| && qs != [] && ps[k] == qs[0] && multiset(ps) == multiset(qs)
    ensures multiset(Without(ps, k)) == multiset(qs[1..])
  {
    assert qs == [qs[0]] + qs[1..];
    assert ps == ps[..k] + ([ps[k]] + ps[k + 1..]);
    assert multiset(ps) == multiset(ps[..k]) + multiset{ps[k]} + multiset(ps[k + 1..]);
    assert multiset(qs) == multiset{qs[0]} + multiset(qs[1..]);
    assert multiset(Without(ps, k)) == multiset(ps) - multiset{ps[k]};
  }

  lemma KeptApart(ps: seq<Patch>, k: nat, n: nat)
    requires k < |ps| && AllApart(ps) && AllInside(ps, n)
    ensures AllApart(Without(ps, k)) && AllInside(Without(ps, k), n)
  {
    var w := Without(ps, k);
    forall i, j | 0 <= i < j < |w| ensures Apart(w[i], w[j]) {
      assert w[i] == ps[if i < k then i else i + 1] && w[j] == ps[if j < k then j else j + 1];
    }
    forall i | 0 <= i < |w| ensures Inside(w[i], n) {
      assert w[i] == ps[if i < k then i else i + 1];
    }
  }

  /** The result does not depend on the order of the patches. */
  lemma {:induction false} OrderDoesNotMatter(img: seq<Byte>, ps: seq<Patch>, qs: seq<Patch>)
    requires AllInside(ps, |img|) && AllApart(ps) && multiset(ps) == multiset(qs)
    ensures AllInside(qs, |img|) && ApplyPatches(img, ps) == ApplyPatches(img, qs)
    decreases |qs|
  {
    if qs == [] {
      assert |multiset(ps)| == 0;
    } else {
      assert qs[0] in multiset(ps);
      var k :| 0 <= k < |ps| && ps[k] == qs[0];
      RemoveFirst(ps, qs, k);
      KeptApart(ps, k, |img|);
      MoveToFront(img, ps, k);
      OrderDoesNotMatter(PatchWord(img, ps[k]), Without(ps, k), qs[1..]);
    }
  }
}
