/** The module loader's sums as it computes them, in 32 bits (fs/vfs/fs_mod.c): exactly
    when its layout and its bounds checks mean what they say. */
module ModuleWraps {
  import opened MachineInts
  import opened ModuleLayout

  function RoundUp32(n: U32, a: nat): U32
    requires a > 0
  {
    DownTo((n + a - 1) % TWO_32, a)
  }

  function DownTo(x: U32, a: nat): U32
    requires a > 0
  {
    Floor(x, a);
    x / a * a
  }

  lemma Floor(x: nat, a: nat)
    requires a > 0
    ensures x / a * a <= x
  {
    assert x == x / a * a + x % a;
  }

  function End32(ss: seq<Section>, i: nat): U32
    requires i <= |ss|
  {
    if i == 0 then 0
    else if !ss[i - 1].alloc then End32(ss, i - 1)
    else (RoundUp32(End32(ss, i - 1), Align(ss[i - 1])) + ss[i - 1].size) % TWO_32
  }

  function Addr32(ss: seq<Section>, i: nat): U32
    requires i < |ss|
  {
    if ss[i].alloc then RoundUp32(End32(ss, i), Align(ss[i])) else ss[i].addr
  }

  /** Sections that take memory lie inside the image, in order and disjoint. */
  ghost predicate LaidOut(ss: seq<Section>) {
    && (forall i, j | 0 <= i < j < |ss| && ss[i].alloc && ss[j].alloc :: Addr32(ss, i) + ss[i].size <= Addr32(ss, j))
    && (forall j | 0 <= j < |ss| && ss[j].alloc :: Addr32(ss, j) + ss[j].size <= End32(ss, |ss|))
  }

  // ---- Rounding ------------------------------------------------------------------------------------

  lemma {:induction false} PowersDivide(a: nat, b: nat)
    requires PowerOfTwo(a) && PowerOfTwo(b) && a <= b
    ensures b % a == 0
    decreases b
  {
    if a > 1 {
      PowersDivide(a / 2, b / 2);
      var q := b / 2 / (a / 2);
      assert b / 2 == q * (a / 2);
      assert b == q * a;
      MultipleIsDivisible(q, a);
    }
  }

  lemma {:induction false} DoubleIsPower(k: nat)
    requires PowerOfTwo(k)
    ensures PowerOfTwo(2 * k)
  {
  }

  lemma FourTimes(k: nat)
    requires PowerOfTwo(k)
    ensures PowerOfTwo(4 * k)
  {
    DoubleIsPower(k);
    DoubleIsPower(2 * k);
  }

  lemma SixteenTimes(k: nat)
    requires PowerOfTwo(k)
    ensures PowerOfTwo(16 * k)
  {
    FourTimes(k);
    FourTimes(4 * k);
  }

  lemma TwoTo32IsPower()
    ensures PowerOfTwo(TWO_32)
  {
    SixteenTimes(1);
    SixteenTimes(0x10);
    SixteenTimes(0x100);
    SixteenTimes(0x1000);
    SixteenTimes(0x1_0000);
    SixteenTimes(0x10_0000);
    SixteenTimes(0x100_0000);
    SixteenTimes(0x1000_0000);
  }

  lemma LessTimes(p: nat, q: nat, a: nat)
    requires p * a < q * a
    ensures p < q
  {
  }

  /** A multiple of an alignment below 2^32 leaves room for one more before it. */
  lemma RoomBelow(r: nat, a: nat)
    requires a > 0 && r % a == 0 && r < TWO_32 && TWO_32 % a == 0
    ensures r + a <= TWO_32
  {
    var p, q := r / a, TWO_32 / a;
    assert r == p * a && TWO_32 == q * a;
    LessTimes(p, q, a);
    assert (p + 1) * a <= q * a;
  }

  lemma AlignDivides(s: Section)
    ensures Align(s) <= TWO_32 && TWO_32 % Align(s) == 0
  {
    TwoTo32IsPower();
    PowersDivide(Align(s), TWO_32);
  }

  /** Rounding in 32 bits is rounding, or wraps to 0. */
  lemma RoundUp32Is(n: U32, s: Section)
    ensures RoundUp32(n, Align(s)) == if RoundUp(n, Align(s)) < TWO_32 then RoundUp(n, Align(s)) else 0
    ensures RoundUp(n, Align(s)) >= TWO_32 ==> n > 0
  {
    var a := Align(s);
    AlignDivides(s);
    if RoundUp(n, a) < TWO_32 {
      RoomBelow(RoundUp(n, a), a);
    } else {
      var x := n + a - 1;
      assert TWO_32 <= RoundUp(n, a) <= x < 2 * TWO_32;
      assert RoundUp(n, a) == x / a * a;
      WrapsBelow(n, a);
    }
  }

  lemma WrapsBelow(n: U32, a: nat)
    requires 0 < a <= TWO_32 && n + a - 1 >= TWO_32
    ensures (n + a - 1) % TWO_32 / a * a == 0 && n > 0
  {
    var y := n + a - 1 - TWO_32;
    assert (n + a - 1) % TWO_32 == y && y < a;
    assert y / a == 0;
  }

  // ---- The layout -----------------------------------------------------------------------------------

  lemma AddrAgrees(ss: seq<Section>, i: nat)
    requires i < |ss| && ss[i].alloc && End32(ss, i) == End(ss, i)
    ensures Addr32(ss, i) == if Addr(ss, i) < TWO_32 then Addr(ss, i) else 0
  {
    RoundUp32Is(End(ss, i), ss[i]);
  }

  lemma EndStep(ss: seq<Section>, i: nat, addr: nat, addr32: U32)
    requires i < |ss| && ss[i].alloc && addr == Addr(ss, i) && addr32 == Addr32(ss, i)
    ensures End(ss, i + 1) == addr + ss[i].size && End32(ss, i + 1) == (addr32 + ss[i].size) % TWO_32
  {
  }

  lemma NextEnd(ss: seq<Section>, i: nat)
    requires i < |ss| && End32(ss, i) == End(ss, i) && End(ss, i + 1) < TWO_32
    ensures End32(ss, i + 1) == End(ss, i + 1)
  {
    if ss[i].alloc {
      AddrAgrees(ss, i);
      EndStep(ss, i, Addr(ss, i), Addr32(ss, i));
    }
  }

  lemma {:induction false} LayoutAgrees(ss: seq<Section>, i: nat)
    requires i <= |ss| && End(ss, i) < TWO_32
    ensures End32(ss, i) == End(ss, i)
  {
    if i > 0 {
      EndGrows(ss, i - 1, i);
      LayoutAgrees(ss, i - 1);
      NextEnd(ss, i - 1);
    }
  }

  /** Somewhere before the image reaches 2^32 a section is out of place. */
  lemma {:induction false} WrapShows(ss: seq<Section>, i: nat)
    requires i <= |ss| && End(ss, i) >= TWO_32
    ensures !LaidOut(ss)
  {
    if End(ss, i - 1) >= TWO_32 {
      WrapShows(ss, i - 1);
    } else {
      var k := i - 1;
      LayoutAgrees(ss, k);
      AddrAgrees(ss, k);
      EndStep(ss, k, Addr(ss, k), Addr32(ss, k));
      if Addr(ss, k) < TWO_32 {
        assert Addr32(ss, k) + ss[k].size >= TWO_32;
      } else {
        LastBefore(ss, k);
      }
    }
  }

  /** What a section wrapped to address 0 lies on. */
  lemma {:induction false} LastBefore(ss: seq<Section>, k: nat)
    requires k <= |ss| && 0 < End(ss, k) < TWO_32
    ensures exists j :: 0 <= j < k && ss[j].alloc && Addr32(ss, j) + ss[j].size == End(ss, k)
  {
    if ss[k - 1].alloc {
      EndGrows(ss, k - 1, k);
      LayoutAgrees(ss, k - 1);
      AddrAgrees(ss, k - 1);
      EndStep(ss, k - 1, Addr(ss, k - 1), Addr32(ss, k - 1));
      assert Addr32(ss, k - 1) + ss[k - 1].size == End(ss, k);
    } else {
      LastBefore(ss, k - 1);
    }
  }

  /** The sections are laid out in order, disjoint and inside the image exactly when the
      image ends below 2^32. */
  lemma LayoutIsExact(ss: seq<Section>)
    ensures LaidOut(ss) <==> End(ss, |ss|) < TWO_32
  {
    if End(ss, |ss|) < TWO_32 {
      LayoutAgrees(ss, |ss|);
      forall j | 0 <= j < |ss| && ss[j].alloc
        ensures Addr32(ss, j) == Addr(ss, j) && Addr(ss, j) + ss[j].size <= End(ss, |ss|)
      {
        EndGrows(ss, j, |ss|);
        SectionInside(ss, j);
        LayoutAgrees(ss, j);
        AddrAgrees(ss, j);
      }
      forall i, j | 0 <= i < j < |ss| && ss[i].alloc && ss[j].alloc ensures Addr32(ss, i) + ss[i].size <= Addr32(ss, j) {
        LayoutIsDisjoint(ss, i, j);
      }
    } else {
      WrapShows(ss, |ss|);
    }
  }

  const SHT_NOBITS: U32 := 8

  /** Two sections of 2 GiB without file contents fill the address space between them. */
  lemma TwoHalvesWrap()
    ensures var half := Section(SHT_NOBITS, true, 0, 0, 0x8000_0000, 0, 0, 1);
            !LaidOut([half, half]) && End32([half, half], 2) == 0
  {
    var half := Section(SHT_NOBITS, true, 0, 0, 0x8000_0000, 0, 0, 1);
    var ss := [half, half];
    assert End(ss, 1) == 0x8000_0000 && End(ss, 2) == TWO_32;
    LayoutIsExact(ss);
    assert End32(ss, 1) == 0x8000_0000;
  }

  // ---- The bounds checks ------------------------------------------------------------------------------

  /** A stretch of `n` bytes at `off` passes the check against `size` bytes. */
  predicate Passes(off: U32, n: U32, size: U32) {
    (off + n) % TWO_32 <= size
  }

  /** The check means that the stretch is inside, unless its end is past 2^32 and comes
      round to a place inside. */
  lemma CheckIsExact(off: U32, n: U32, size: U32)
    ensures (Passes(off, n, size) <==> off + n <= size) <==> off + n < TWO_32 || off + n - TWO_32 > size
  {
  }

  /** A relocation at the last word of the address space passes for a section of any size. */
  lemma LastWordPasses(size: U32)
    ensures Passes(0xFFFF_FFFC, 4, size) && 0xFFFF_FFFC + 4 > size
  {
  }
}
