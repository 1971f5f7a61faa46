/** The shift register of CRC-32 (section 8 of RFC 1952), one bit at a time.  It is linear
    over exclusive or, so a step of eight bits splits into the low byte and the rest. */
module Crc32Register {

  /** One step of the shift register for the reflected polynomial 0xEDB88320. */
  function Bit(c: bv32): bv32 {
    if c & 1 == 1 then 0xEDB88320 ^ (c >> 1) else c >> 1
  }

  function Xor(a: bv32, b: bv32): bv32 {
    a ^ b
  }

  function Iter<T>(f: T -> T, c: T, n: nat): T
    decreases n
  {
    if n == 0 then c else Iter(f, f(c), n - 1)
  }

  /** `f` respects the operation `x` on `a` and `b` for `n` steps. */
  ghost predicate Respects<T(!new)>(f: T -> T, x: (T, T) -> T) {
    forall a, b {:trigger f(x(a, b))} :: f(x(a, b)) == x(f(a), f(b))
  }

  lemma {:induction false} IterRespects<T(!new)>(f: T -> T, x: (T, T) -> T, a: T, b: T, n: nat)
    requires Respects(f, x)
    ensures Iter(f, x(a, b), n) == x(Iter(f, a, n), Iter(f, b, n))
    decreases n
  {
    if n > 0 {
      IterRespects(f, x, f(a), f(b), n - 1);
    }
  }

  lemma Compose<T(!new)>(f: T -> T, x: (T, T) -> T, c: T, lo: T, hi: T, y: T, n: nat)
    requires Respects(f, x) && c == x(lo, hi) && Iter(f, hi, n) == y
    ensures Iter(f, c, n) == x(Iter(f, lo, n), y)
  {
    IterRespects(f, x, lo, hi, n);
  }

  // ---- One step is linear --------------------------------------------------------------------

  lemma LowBit(a: bv32, b: bv32)
    ensures (a ^ b) & 1 == 1 <==> (a & 1 == 1) != (b & 1 == 1)
  {
  }

  lemma BothOdd(a: bv32, b: bv32)
    requires a & 1 == 1 && b & 1 == 1
    ensures Bit(a ^ b) == Bit(a) ^ Bit(b)
  {
    LowBit(a, b);
  }

  lemma FirstOdd(a: bv32, b: bv32)
    requires a & 1 == 1 && b & 1 != 1
    ensures Bit(a ^ b) == Bit(a) ^ Bit(b)
  {
    LowBit(a, b);
  }

  lemma SecondOdd(a: bv32, b: bv32)
    requires a & 1 != 1 && b & 1 == 1
    ensures Bit(a ^ b) == Bit(a) ^ Bit(b)
  {
    LowBit(a, b);
  }

  lemma BothEven(a: bv32, b: bv32)
    requires a & 1 != 1 && b & 1 != 1
    ensures Bit(a ^ b) == Bit(a) ^ Bit(b)
  {
    LowBit(a, b);
  }

  lemma BitIsLinear(a: bv32, b: bv32)
    ensures Bit(a ^ b) == Bit(a) ^ Bit(b)
  {
    if a & 1 == 1 {
      if b & 1 == 1 { BothOdd(a, b); } else { FirstOdd(a, b); }
    } else {
      if b & 1 == 1 { SecondOdd(a, b); } else { BothEven(a, b); }
    }
  }

  lemma Unrolled(f: bv32 -> bv32, c: bv32)
    ensures Iter(f, c, 8) == f(f(f(f(f(f(f(f(c))))))))
  {
    var d := f(f(f(f(c))));
    assert Iter(f, c, 8) == Iter(f, f(f(c)), 6) == Iter(f, d, 4);
    assert Iter(f, d, 4) == Iter(f, f(f(d)), 2) == Iter(f, f(f(f(f(d)))), 0);
  }

  lemma HighShiftsOut(x: bv32)
    ensures Bit(Bit(Bit(Bit(Bit(Bit(Bit(Bit(x & 0xFFFF_FF00)))))))) == x >> 8
  {
  }

  lemma HighPart(x: bv32)
    ensures Iter(Bit, x & 0xFFFF_FF00, 8) == x >> 8
  {
    Unrolled(Bit, x & 0xFFFF_FF00);
    HighShiftsOut(x);
  }

  lemma Halves(x: bv32)
    ensures x == (x & 0xFF) ^ (x & 0xFFFF_FF00)
  {
  }

  lemma BitRespectsXor()
    ensures Respects(Bit, Xor)
  {
    forall a, b ensures Bit(Xor(a, b)) == Xor(Bit(a), Bit(b)) {
      BitIsLinear(a, b);
    }
  }

  lemma Joined(x: bv32, lo: bv32, hi: bv32, y: bv32)
    requires x == Xor(lo, hi) && Iter(Bit, hi, 8) == y
    ensures Iter(Bit, x, 8) == Xor(Iter(Bit, lo, 8), y)
  {
    BitRespectsXor();
    Compose(Bit, Xor, x, lo, hi, y, 8);
  }

  /** Only the low byte meets the polynomial; the others are shifted down. */
  lemma LowByteDecides(x: bv32)
    ensures Iter(Bit, x, 8) == Xor(Iter(Bit, x & 0xFF, 8), x >> 8)
  {
    Halves(x);
    HighPart(x);
    Joined(x, x & 0xFF, x & 0xFFFF_FF00, x >> 8);
  }
}
