/** Powers of two and CIDR blocks: alignment, masking, and the bit trick that spots a single block. */
module Prefixes {

  function Pow2(k: nat): (p: nat)
    ensures p > 0
  {
    if k == 0 then 1 else 2 * Pow2(k - 1)
  }

  lemma {:induction false} Pow2Sum(a: nat, b: nat)
    ensures Pow2(a + b) == Pow2(a) * Pow2(b)
  {
    if a > 0 { Pow2Sum(a - 1, b); }
  }

  lemma Pow2Squared(a: nat, p: nat)
    requires Pow2(a) == p
    ensures Pow2(2 * a) == p * p
  {
    Pow2Sum(a, a);
  }

  lemma Pow2Values()
    ensures Pow2(32) == 0x1_0000_0000 && Pow2(128) == 0x1_0000_0000_0000_0000_0000_0000_0000_0000
  {
    hide Pow2;
    Pow2Four();
    Pow2Squared(4, 0x10);
    Pow2Squared(8, 0x100);
    Pow2Squared(16, 0x1_0000);
    Pow2Squared(32, 0x1_0000_0000);
    Pow2Squared(64, 0x1_0000_0000_0000_0000);
  }

  lemma Pow2Four()
    ensures Pow2(4) == 16
  {
    assert Pow2(1) == 2 && Pow2(2) == 4;
  }

  /** Bitwise "and" of two naturals, bit by bit. */
  function BitAnd(a: nat, b: nat): nat {
    if a == 0 || b == 0 then 0 else (a % 2) * (b % 2) + 2 * BitAnd(a / 2, b / 2)
  }

  function BitLength(n: nat): nat {
    if n == 0 then 0 else 1 + BitLength(n / 2)
  }

  lemma {:induction false} BitAndSelf(n: nat)
    ensures BitAnd(n, n) == n
  {
    if n > 0 { BitAndSelf(n / 2); }
  }

  lemma OddAnd(n: nat)
    requires n % 2 == 1
    ensures BitAnd(n, n - 1) == n - 1
  {
    assert (n - 1) / 2 == n / 2;
    BitAndSelf(n / 2);
  }

  lemma EvenAnd(n: nat)
    requires n > 0 && n % 2 == 0
    ensures BitAnd(n, n - 1) == 2 * BitAnd(n / 2, n / 2 - 1)
  {
    assert (n - 1) / 2 == n / 2 - 1;
  }

  /** `n & (n - 1)` vanishes exactly for powers of two, and the bit length names the exponent. */
  lemma {:induction false} PowerTest(n: nat)
    requires n > 0
    ensures BitAnd(n, n - 1) == 0 <==> n == Pow2(BitLength(n) - 1)
  {
    var k := BitLength(n / 2);
    assert BitLength(n) == 1 + k;
    if n % 2 == 1 {
      OddAnd(n);
      if k > 0 { assert Pow2(k) == 2 * Pow2(k - 1); }
    } else {
      PowerTest(n / 2);
      EvenAnd(n);
      assert Pow2(k) == 2 * Pow2(k - 1);
    }
  }

  lemma {:induction false} BitLengthOfPower(k: nat)
    ensures BitLength(Pow2(k)) == k + 1
  {
    if k == 0 {
      assert BitLength(1) == 1 + BitLength(0);
    } else {
      BitLengthOfPower(k - 1);
      assert Pow2(k) / 2 == Pow2(k - 1);
    }
  }

  lemma {:induction false} Pow2Monotone(a: nat, b: nat)
    requires a <= b
    ensures Pow2(a) <= Pow2(b) && (a < b ==> Pow2(a) < Pow2(b))
  {
    if a < b { Pow2Monotone(a, b - 1); }
  }

  lemma {:induction false} ScaledGap(x: nat, y: nat, s: nat)
    requires x < y
    ensures x * s + s <= y * s
  {
    assert y * s == (y - 1) * s + s;
    if x < y - 1 { ScaledGap(x, y - 1, s); }
  }

  lemma QuotientUnique(a: nat, s: nat, q: nat, r: nat)
    requires s > 0 && r < s && a == q * s + r
    ensures a / s == q && a % s == r
  {
    var q', r' := a / s, a % s;
    assert a == q' * s + r';
    if q' < q {
      ScaledGap(q', q, s);
    } else if q < q' {
      ScaledGap(q, q', s);
    }
  }

  lemma MultipleOf(m: nat, s: nat)
    requires s > 0
    ensures (m * s) % s == 0 && (m * s) / s == m
  {
    QuotientUnique(m * s, s, m, 0);
  }

  lemma {:induction false} Pow2Divides(a: nat, b: nat)
    requires a <= b
    ensures Pow2(b) % Pow2(a) == 0
  {
    if a == b {
      MultipleOf(1, Pow2(a));
    } else {
      Pow2Divides(a, b - 1);
      var m, s := Pow2(b - 1) / Pow2(a), Pow2(a);
      assert Pow2(b - 1) == m * s;
      assert Pow2(b) == 2 * (m * s) == (2 * m) * s;
      MultipleOf(2 * m, s);
    }
  }

  /** Multiples of `s` that differ lie at least `s` apart. */
  lemma MultipleGap(a: nat, b: nat, s: nat)
    requires s > 0 && a % s == 0 && b % s == 0 && a < b
    ensures a + s <= b
  {
    var x, y := a / s, b / s;
    assert a == x * s && b == y * s;
    if y < x {
      ScaledGap(y, x, s);
    } else if x < y {
      ScaledGap(x, y, s);
    }
  }

  lemma DividesThrough(a: nat, t: nat, s: nat)
    requires s > 0 && t > 0 && a % t == 0 && t % s == 0
    ensures a % s == 0
  {
    var x, y := a / t, t / s;
    assert a == x * t && t == y * s;
    assert a == (x * y) * s;
    MultipleOf(x * y, s);
  }

  function Mask(addr: nat, size: nat): (lo: nat)
    requires size > 0
    ensures lo <= addr
  {
    addr - addr % size
  }

  lemma SmallMask(addr: nat, size: nat)
    requires addr < size
    ensures Mask(addr, size) == 0 && Mask(addr, 1) == addr
  {
    var q := addr / size;
    assert addr == q * size + addr % size;
    assert q == 0 || q * size >= size;
  }

  lemma MaskAligned(addr: nat, size: nat)
    requires size > 0
    ensures Mask(addr, size) % size == 0 && addr < Mask(addr, size) + size
    ensures addr % size == 0 ==> Mask(addr, size) == addr
  {
    assert Mask(addr, size) == (addr / size) * size;
    MultipleOf(addr / size, size);
  }

  /** CIDR blocks are laminar: the smaller of two either lies inside the larger or misses it. */
  lemma Laminar(lo1: nat, size1: nat, lo2: nat, size2: nat)
    requires size1 > 0 && size2 > 0 && lo1 % size1 == 0 && lo2 % size2 == 0 && size2 % size1 == 0
    ensures || (lo2 <= lo1 && lo1 + size1 <= lo2 + size2)
            || lo1 + size1 <= lo2 || lo2 + size2 <= lo1
  {
    DividesThrough(lo2, size2, size1);
    SumAligned(lo2, size2, size1);
    if lo1 < lo2 {
      MultipleGap(lo1, lo2, size1);
    } else if lo1 < lo2 + size2 {
      MultipleGap(lo1, lo2 + size2, size1);
    }
  }

  lemma SumAligned(a: nat, b: nat, s: nat)
    requires s > 0 && a % s == 0 && b % s == 0
    ensures (a + b) % s == 0
  {
    assert a + b == (a / s + b / s) * s;
    MultipleOf(a / s + b / s, s);
  }
}
