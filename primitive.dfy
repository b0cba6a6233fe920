/** Rust's unsigned machine integers as bounded integers. Arithmetic that
    wraps or saturates in the source is written out where it is used. The
    bitwise operators are defined bit by bit, least significant bit first,
    on natural numbers; `BitOr`, `BitAnd` and `BitXor` are their `u8`
    instances and `RotateRight` is `u64::rotate_right`. */
module Primitive {

  type u8 = b: int | 0 <= b < 0x100
  type u16 = w: int | 0 <= w < 0x1_0000
  type u64 = w: int | 0 <= w < 0x1_0000_0000_0000_0000

  function Pow2(n: nat): (r: nat)
    ensures r > 0
  {
    if n == 0 then 1 else 2 * Pow2(n - 1)
  }

  /** `a ^ b`: a bit is set where exactly one operand has it. */
  function XorNat(a: nat, b: nat): nat
    decreases a + b
  {
    if a == 0 && b == 0 then 0 else (a + b) % 2 + 2 * XorNat(a / 2, b / 2)
  }

  /** `a & b`: a bit is set where both operands have it. */
  function AndNat(a: nat, b: nat): nat
    decreases a
  {
    if a == 0 then 0 else (if a % 2 == 1 && b % 2 == 1 then 1 else 0) + 2 * AndNat(a / 2, b / 2)
  }

  /** `a | b`: a bit is set where either operand has it. */
  function OrNat(a: nat, b: nat): nat
    decreases a + b
  {
    if a == 0 && b == 0 then 0 else (if a % 2 == 1 || b % 2 == 1 then 1 else 0) + 2 * OrNat(a / 2, b / 2)
  }

  /** `a & !b`: the bits of `a` that `b` does not have. The complement's
      bits above the width of `a` meet zeros in `a`, so no width is needed. */
  function AndNotNat(a: nat, b: nat): nat
    decreases a
  {
    if a == 0 then 0 else (if a % 2 == 1 && b % 2 == 0 then 1 else 0) + 2 * AndNotNat(a / 2, b / 2)
  }

  /** The bitwise operators keep an `n`-bit width. */
  lemma {:induction false} Bounded(a: nat, b: nat, n: nat)
    requires a < Pow2(n) && b < Pow2(n)
    ensures XorNat(a, b) < Pow2(n) && AndNat(a, b) < Pow2(n) && OrNat(a, b) < Pow2(n)
  {
    if n > 0 && !(a == 0 && b == 0) {
      Bounded(a / 2, b / 2, n - 1);
    }
  }

  lemma Pow2Widths()
    ensures Pow2(8) == 0x100 && Pow2(64) == 0x1_0000_0000_0000_0000
  {
    Pow2Add(8, 8);
    assert Pow2(16) == 0x1_0000;
    Pow2Add(16, 16);
    assert Pow2(32) == 0x1_0000_0000;
    Pow2Add(32, 32);
  }

  /** `a | b` on `u8`. */
  function BitOr(a: u8, b: u8): u8 {
    Pow2Widths();
    Bounded(a, b, 8);
    OrNat(a, b)
  }

  /** `a & b` on `u8`. */
  function BitAnd(a: u8, b: u8): u8 {
    Pow2Widths();
    Bounded(a, b, 8);
    AndNat(a, b)
  }

  /** `a ^ b` on `u8`. */
  function BitXor(a: u8, b: u8): u8 {
    Pow2Widths();
    Bounded(a, b, 8);
    XorNat(a, b)
  }

  /** `a ^ b` on `u64`. */
  function Xor64(a: u64, b: u64): u64 {
    Pow2Widths();
    Bounded(a, b, 64);
    XorNat(a, b)
  }

  /** XOR with the same operand twice is the identity. */
  lemma {:induction false} XorTwice(a: nat, b: nat)
    ensures XorNat(XorNat(a, b), b) == a
    decreases a + b
  {
    if !(a == 0 && b == 0) {
      var x := XorNat(a, b);
      XorTwice(a / 2, b / 2);
      XorHalves(a, b);
      XorHalves(x, b);
      var y := XorNat(x, b);
      assert y / 2 == a / 2;
      Parity(x, a, b);
      assert y == 2 * (y / 2) + y % 2;
    }
  }

  lemma Parity(x: nat, a: nat, b: nat)
    requires x % 2 == (a + b) % 2
    ensures (x + b) % 2 == a % 2
  {
  }

  /** One step of `XorNat`, also when both operands are zero. */
  lemma XorHalves(a: nat, b: nat)
    ensures XorNat(a, b) / 2 == XorNat(a / 2, b / 2)
    ensures XorNat(a, b) % 2 == (a + b) % 2
  {
  }

  /** The bits of `a` cleared by XOR with `p` are exactly the bits `a`
      shares with `p`. */
  lemma {:induction false} AndNotXor(a: nat, p: nat)
    ensures AndNotNat(a, XorNat(a, p)) == AndNat(a, p)
    decreases a
  {
    if a != 0 {
      XorHalves(a, p);
      AndNotXor(a / 2, p / 2);
    }
  }

  /** `a & b` is at most `b`. */
  lemma {:induction false} AndBelow(a: nat, b: nat)
    ensures AndNat(a, b) <= b
    decreases a
  {
    if a != 0 {
      AndBelow(a / 2, b / 2);
    }
  }

  lemma {:induction false} Pow2Add(m: nat, n: nat)
    ensures Pow2(m + n) == Pow2(m) * Pow2(n)
  {
    if m > 0 {
      Pow2Add(m - 1, n);
    }
  }

  /** `v.rotate_right(r)` on `u64`: the low `r` bits move to the top. */
  function RotateRight(v: u64, r: nat): (w: u64)
    requires r < 64
  {
    RotateBound(v, r);
    v / Pow2(r) + v % Pow2(r) * Pow2(64 - r)
  }

  lemma RotateBound(v: u64, r: nat)
    requires r < 64
    ensures 0 <= v / Pow2(r) + v % Pow2(r) * Pow2(64 - r) < 0x1_0000_0000_0000_0000
  {
    var lo, hi := Pow2(r), Pow2(64 - r);
    Pow2Widths();
    Pow2Add(r, 64 - r);
    assert lo * hi == 0x1_0000_0000_0000_0000;
    ProductBound(v, lo, hi);
  }

  lemma ProductBound(v: nat, lo: nat, hi: nat)
    requires 0 < lo && 0 < hi && v < lo * hi
    ensures 0 <= v / lo + v % lo * hi < lo * hi
  {
    var q, m := v / lo, v % lo;
    assert v == q * lo + m && 0 <= m < lo;
    if q >= hi {
      MulLe(hi, q, lo);
      assert false;
    }
    MulLe(m, lo - 1, hi);
    MulLe(0, m, hi);
    assert (lo - 1) * hi == lo * hi - hi;
  }

  /** Bit `k` of `v`, counting from the least significant bit. */
  function BitAt(v: nat, k: nat): (b: nat)
    ensures b < 2
  {
    v / Pow2(k) % 2
  }

  /** Bit `k` of `v.rotate_right(r)` is bit `(k + r) % 64` of `v`. */
  lemma RotateBit(v: u64, r: nat, k: nat)
    requires r < 64 && k < 64
    ensures BitAt(RotateRight(v, r), k) == BitAt(v, (k + r) % 64)
  {
    if k + r < 64 {
      RotateBitLow(v, r, k);
    } else {
      RotateBitHigh(v, r, k);
    }
  }

  /** The bits of the rotation below `64 - r` come from the quotient. */
  lemma RotateBitLow(v: u64, r: nat, k: nat)
    requires r < 64 && k + r < 64
    ensures BitAt(RotateRight(v, r), k) == BitAt(v, k + r)
  {
    var P, hi := Pow2(r), Pow2(64 - r);
    DivMod(v, P);
    var q, m := v / P, v % P;
    assert RotateRight(v, r) == q + m * hi;
    var d, e := Pow2(k), Pow2(64 - r - k);
    Pow2Add(k, 64 - r - k);
    assert hi == d * e;
    DivMulAdd(q, m, d, e);
    DivMod(q, d);
    EvenTerm(q / d, m, 64 - r - k);
    DivDiv(v, P, d);
    Pow2Add(r, k);
  }

  /** The bits of the rotation from `64 - r` on come from the remainder. */
  lemma RotateBitHigh(v: u64, r: nat, k: nat)
    requires r < 64 && k < 64 && k + r >= 64
    ensures BitAt(RotateRight(v, r), k) == BitAt(v, k + r - 64)
  {
    var P, hi := Pow2(r), Pow2(64 - r);
    DivMod(v, P);
    var q, m := v / P, v % P;
    assert RotateRight(v, r) == q + m * hi;
    RotateQuotient(v, r);
    var j := k + r - 64;
    Pow2Add(64 - r, j);
    HighPart(q, m, hi, Pow2(j));
    LowBit(v, r, j);
  }

  /** `v / 2^r` has at most `64 - r` bits. */
  lemma RotateQuotient(v: u64, r: nat)
    requires r < 64
    ensures v / Pow2(r) < Pow2(64 - r)
  {
    Pow2Widths();
    Pow2Add(r, 64 - r);
    QuotientBelow(v, Pow2(r), Pow2(64 - r));
  }

  /** Dividing `q + m * hi` by `hi * d`, for `q` below `hi`, drops `q`. */
  lemma HighPart(q: nat, m: nat, hi: nat, d: nat)
    requires 0 < hi && 0 < d && q < hi
    ensures (q + m * hi) / (hi * d) == m / d
  {
    DivDiv(q + m * hi, hi, d);
    DivMulAdd(q, m, hi, 1);
    DivSmall(q, hi);
  }

  /** A quotient by `lo` of a number below `lo * hi` is below `hi`. */
  lemma QuotientBelow(v: nat, lo: nat, hi: nat)
    requires lo > 0 && v < lo * hi
    ensures v / lo < hi
  {
    DivMod(v, lo);
    var q := v / lo;
    if q >= hi {
      MulLe(hi, q, lo);
      assert false;
    }
  }

  lemma DivSmall(n: nat, d: nat)
    requires n < d
    ensures n / d == 0
  { }

  /** Cutting `v` to its low `r` bits keeps every bit below `r`. */
  lemma LowBit(v: nat, r: nat, j: nat)
    requires j < r
    ensures BitAt(v % Pow2(r), j) == BitAt(v, j)
  {
    var P, d, e := Pow2(r), Pow2(j), Pow2(r - j);
    var m, big := v % P, v / P;
    Pow2Add(j, r - j);
    assert P == d * e;
    DivMod(v, P);
    DivMulAdd(m, big, d, e);
    assert v / d == m / d + big * e;
    EvenTerm(m / d, big, r - j);
  }

  lemma DivMod(n: nat, d: nat)
    requires d > 0
    ensures n == n / d * d + n % d
    ensures 0 <= n / d && 0 <= n % d < d
  { }

  /** A multiple of a positive power of two does not change parity. */
  lemma EvenTerm(a: nat, b: nat, n: nat)
    requires n > 0
    ensures (a + b * Pow2(n)) % 2 == a % 2
  {
    var p := Pow2(n - 1);
    assert Pow2(n) == 2 * p;
    MulDouble(b, p);
    AddEven(a, b * p);
  }

  lemma MulDouble(b: nat, p: nat)
    ensures b * (2 * p) == 2 * (b * p)
  { }

  lemma AddEven(a: nat, c: nat)
    ensures (a + 2 * c) % 2 == a % 2
  { }

  /** A byte has no bits from 8 on. */
  lemma HighBits(b: u8, k: nat)
    requires k >= 8
    ensures BitAt(b, k) == 0
  {
    Pow2Widths();
    Pow2Add(8, k - 8);
    var p := Pow2(k - 8);
    assert Pow2(k) == 0x100 * p;
    MulLe(1, p, 0x100);
    DivSmall(b, Pow2(k));
  }

  /** Adding a multiple of `d` to the dividend adds its quotient. */
  lemma DivMulAdd(a: nat, m: nat, d: nat, e: nat)
    requires d > 0
    ensures (a + m * (d * e)) / d == a / d + m * e
  {
    DivMod(a, d);
    Distrib(a / d, m * e, d);
    DivUnique(a + m * (d * e), d, a / d + m * e, a % d);
  }

  /** Dividing by `b` and then by `c` is dividing by `b * c`. */
  lemma DivDiv(a: nat, b: nat, c: nat)
    requires b > 0 && c > 0
    ensures a / (b * c) == a / b / c
  {
    DivMod(a, b);
    var q, r := a / b, a % b;
    DivMod(q, c);
    var q2, r2 := q / c, q % c;
    Distrib(q2 * c, r2, b);
    assert a == q2 * (b * c) + (r2 * b + r);
    MulLe(r2, c - 1, b);
    Distrib(c, -1, b);
    DivUnique(a, b * c, q2, r2 * b + r);
  }

  lemma Distrib(x: int, y: int, z: int)
    ensures (x + y) * z == x * z + y * z
  { }

  /** The quotient and remainder are the only ones with `0 <= r < d`. */
  lemma DivUnique(n: nat, d: nat, q: nat, r: nat)
    requires d > 0 && r < d && n == q * d + r
    ensures n / d == q && n % d == r
  {
    var q0, r0 := n / d, n % d;
    if q0 < q {
      MulLe(q0 + 1, q, d);
      assert false;
    } else if q0 > q {
      MulLe(q + 1, q0, d);
      assert false;
    }
  }

  /** Multiplying by a natural keeps the order. */
  lemma {:induction false} MulLe(a: int, b: int, c: nat)
    requires a <= b
    ensures a * c <= b * c
  {
    if c > 0 {
      MulLe(a, b, c - 1);
      assert a * c == a * (c - 1) + a && b * c == b * (c - 1) + b;
    }
  }
}
