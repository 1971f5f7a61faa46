/** Where the loader puts the sections of a relocatable module (fs/vfs/fs_mod.c, first
    pass): the sections that take memory are placed one after another, each rounded up
    to its alignment. */
module ModuleLayout {
  import opened MachineInts

  const SHT_PROGBITS: nat := 1
  const SHT_SYMTAB: nat := 2
  const SHT_REL: nat := 9

  /** A section header; `addr` is the address field as found in the file. */
  datatype Section = Section(kind: U32, alloc: bool, addr: U32, offset: U32, size: U32, link: U32, info: U32, align: U32)

  predicate PowerOfTwo(n: nat) {
    n == 1 || (n > 1 && n % 2 == 0 && PowerOfTwo(n / 2))
  }

  /** The alignment used: 0 and anything but a power of two count as 1. */
  function Align(s: Section): (a: nat)
    ensures a > 0
  {
    if PowerOfTwo(s.align) then s.align else 1
  }

  function RoundUp(n: nat, a: nat): (r: nat)
    requires a > 0
    ensures n <= r < n + a && r % a == 0
  {
    RoundingFits(n, a);
    (n + a - 1) / a * a
  }

  lemma RoundingFits(n: nat, a: nat)
    requires a > 0
    ensures var r := (n + a - 1) / a * a; n <= r < n + a && r % a == 0
  {
    var q := (n + a - 1) / a;
    assert n + a - 1 == q * a + (n + a - 1) % a;
    MultipleIsDivisible(q, a);
  }

  lemma MultipleIsDivisible(q: nat, a: nat)
    requires a > 0
    ensures q * a % a == 0
  {
    var x := q * a;
    var p, r := x / a, x % a;
    assert x == p * a + r;
    var d: int := q - p;
    assert d * a == r;
    assert d >= 1 ==> d * a >= a;
    assert d <= -1 ==> d * a + a <= 0;
  }

  /** The end of the image after the first `i` sections. */
  function End(ss: seq<Section>, i: nat): nat
    requires i <= |ss|
  {
    if i == 0 then 0
    else if !ss[i - 1].alloc then End(ss, i - 1)
    else RoundUp(End(ss, i - 1), Align(ss[i - 1])) + ss[i - 1].size
  }

  /** The address of section `i` relative to the image: assigned if it takes memory,
      otherwise what the file says. */
  function Addr(ss: seq<Section>, i: nat): nat
    requires i < |ss|
  {
    if ss[i].alloc then RoundUp(End(ss, i), Align(ss[i])) else ss[i].addr
  }

  lemma {:induction false} EndGrows(ss: seq<Section>, i: nat, j: nat)
    requires i <= j <= |ss|
    ensures End(ss, i) <= End(ss, j)
    decreases j - i
  {
    if i < j {
      EndGrows(ss, i, j - 1);
    }
  }

  /** Sections that take memory lie in order and disjoint. */
  lemma LayoutIsDisjoint(ss: seq<Section>, i: nat, j: nat)
    requires i < j < |ss| && ss[i].alloc && ss[j].alloc
    ensures Addr(ss, i) % Align(ss[i]) == 0 && Addr(ss, j) % Align(ss[j]) == 0
    ensures Addr(ss, i) + ss[i].size <= Addr(ss, j)
    ensures Addr(ss, j) + ss[j].size <= End(ss, |ss|)
  {
    EndGrows(ss, i + 1, j);
    EndGrows(ss, j + 1, |ss|);
  }

  /** Every section that takes memory is aligned and inside the image. */
  lemma SectionInside(ss: seq<Section>, i: nat)
    requires i < |ss| && ss[i].alloc
    ensures Addr(ss, i) % Align(ss[i]) == 0 && Addr(ss, i) + ss[i].size <= End(ss, |ss|)
  {
    EndGrows(ss, i + 1, |ss|);
  }

  /** The first pass. */
  method AssignAddresses(ss: seq<Section>) returns (addrs: seq<nat>, total: nat)
    ensures total == End(ss, |ss|) && |addrs| == |ss| && forall i | 0 <= i < |ss| :: addrs[i] == Addr(ss, i)
  {
    addrs := seq(|ss|, i requires 0 <= i < |ss| => ss[i].addr);
    total := 0;
    for i := 0 to |ss|
      invariant total == End(ss, i) && |addrs| == |ss|
      invariant forall j | 0 <= j < i :: addrs[j] == Addr(ss, j)
      invariant forall j | i <= j < |ss| :: addrs[j] == ss[j].addr
    {
      if ss[i].alloc {
        var align := if ss[i].align != 0 then ss[i].align else 1;
        if !PowerOfTwo(align) {
          align := 1;
        }
        total := RoundUp(total, align);
        addrs := addrs[i := total];
        total := total + ss[i].size;
      }
    }
  }
}
