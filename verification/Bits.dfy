/** Bitwise operations on non-negative integers, defined bit by bit, and 32-bit wrap-around. */
module Bits {
  function Pow2(n: nat): (p: nat)
    ensures p >= 1
  {
    if n == 0 then 1 else 2 * Pow2(n - 1)
  }

  function Or(a: nat, b: nat): nat {
    if a == 0 && b == 0 then 0
    else 2 * Or(a / 2, b / 2) + if a % 2 == 1 || b % 2 == 1 then 1 else 0
  }

  function And(a: nat, b: nat): nat {
    if a == 0 || b == 0 then 0
    else 2 * And(a / 2, b / 2) + if a % 2 == 1 && b % 2 == 1 then 1 else 0
  }

  lemma QuotientNonNegative(a: nat, d: nat)
    requires d > 0
    ensures a / d >= 0
  {
  }

  function ShiftRight(a: nat, n: nat): nat {
    QuotientNonNegative(a, Pow2(n));
    a / Pow2(n)
  }

  const TWO_31: int := 0x8000_0000
  const TWO_32: int := 0x1_0000_0000

  /** The int32 an integer is truncated to. */
  function Wrap32(x: int): (w: int)
    ensures -TWO_31 <= w < TWO_31
    ensures -TWO_31 <= x < TWO_31 ==> w == x
  {
    var m := x % TWO_32;
    if m < TWO_31 then m else m - TWO_32
  }

  /** The two's complement bits of an int32, read as a natural number. */
  function Unsigned32(x: int): nat
    requires -TWO_31 <= x < TWO_31
  {
    if x < 0 then x + TWO_32 else x
  }

  lemma {:induction false} Pow2Add(a: nat, b: nat)
    ensures Pow2(a + b) == Pow2(a) * Pow2(b)
  {
    if a > 0 {
      Pow2Add(a - 1, b);
      assert (2 * Pow2(a - 1)) * Pow2(b) == 2 * (Pow2(a - 1) * Pow2(b));
    }
  }

  lemma {:induction false} Pow2Monotone(a: nat, b: nat)
    requires a <= b
    ensures Pow2(a) <= Pow2(b)
    ensures a < b ==> Pow2(a) < Pow2(b)
    decreases b - a
  {
    if a < b {
      Pow2Monotone(a + 1, b);
    }
  }

  lemma Pow2Reflects(a: nat, b: nat)
    requires Pow2(a) < Pow2(b)
    ensures a < b
  {
    if b <= a {
      Pow2Monotone(b, a);
    }
  }

  /** Masking with 2^k - 1 is taking the remainder modulo 2^k. */
  lemma {:induction false} MaskIsModulo(x: nat, k: nat)
    ensures And(x, Pow2(k) - 1) == x % Pow2(k)
  {
    if k == 0 {
    } else if x == 0 {
    } else {
      var p := Pow2(k - 1);
      MaskIsModulo(x / 2, k - 1);
      assert (2 * p - 1) / 2 == p - 1 && (2 * p - 1) % 2 == 1;
      ModDouble(x, p);
      if p == 1 {
        assert And(x / 2, 0) == 0;
      }
    }
  }

  lemma ModDouble(x: nat, p: nat)
    requires p >= 1
    ensures x % (2 * p) == 2 * ((x / 2) % p) + x % 2
  {
    var h := x / 2;
    var q, r := h / p, h % p;
    assert h == q * p + r;
    assert x == q * (2 * p) + (2 * r + x % 2);
    ModUnique(x, 2 * p, q, 2 * r + x % 2);
  }

  lemma ModUnique(x: int, m: int, q: int, r: int)
    requires m > 0 && x == q * m + r && 0 <= r < m
    ensures x % m == r && x / m == q
  {
    var d := x / m - q;
    assert (x / m) * m + x % m == q * m + r;
    assert d * m == r - x % m;
    assert d >= 1 ==> d * m >= m;
    assert d <= -1 ==> d * m <= -m;
  }

  // ----- smearing the top bit to the right -----

  lemma {:induction false} OrAtLeast(a: nat, b: nat)
    ensures Or(a, b) >= a && Or(a, b) >= b
  {
    if a != 0 || b != 0 {
      OrAtLeast(a / 2, b / 2);
    }
  }

  lemma {:induction false} OrZero(a: nat)
    ensures Or(a, 0) == a
  {
    if a != 0 {
      OrZero(a / 2);
    }
  }

  lemma {:induction false} OrBelow(a: nat, b: nat, q: nat)
    requires a < Pow2(q) && b < Pow2(q)
    ensures Or(a, b) < Pow2(q)
  {
    if q > 0 && (a != 0 || b != 0) {
      OrBelow(a / 2, b / 2, q - 1);
    }
  }

  lemma TwiceTimes(hi: nat, p: nat)
    ensures hi * (2 * p) == 2 * (hi * p)
  {
  }

  /** One step of the definition, with the left operand's half known. */
  lemma OrHalves(half: nat, lo: nat, b: nat)
    requires Or(half + lo / 2, b / 2) == half + Or(lo / 2, b / 2)
    ensures Or(2 * half + lo, b) == 2 * half + Or(lo, b)
  {
    var a := 2 * half + lo;
    assert a / 2 == half + lo / 2 && a % 2 == lo % 2;
  }

  /** Bits at or above q come from the left operand alone. */
  lemma {:induction false} OrSplit(high: nat, hi: nat, lo: nat, b: nat, q: nat)
    requires high == hi * Pow2(q) && lo < Pow2(q) && b < Pow2(q)
    ensures Or(high + lo, b) == high + Or(lo, b)
  {
    if q == 0 {
      OrZero(high);
    } else {
      var half := hi * Pow2(q - 1);
      TwiceTimes(hi, Pow2(q - 1));
      OrSplit(half, hi, lo / 2, b / 2, q - 1);
      OrHalves(half, lo, b);
    }
  }

  /** The n + 1 bit number v has its m top bits set (all of them when m > n). */
  ghost predicate TopOnes(v: nat, n: nat, m: nat) {
    v < Pow2(n + 1) && v >= Pow2(n + 1) - if m <= n + 1 then Pow2(n + 1 - m) else 1
  }

  /** Or-ing in a copy shifted by m doubles a run of m leading ones. */
  lemma SmearDoubles(v: nat, n: nat, m: nat)
    requires m >= 1 && TopOnes(v, n, m)
    ensures TopOnes(Or(v, ShiftRight(v, m)), n, 2 * m)
  {
    var top := Pow2(n + 1);
    if m >= n + 1 {
      Pow2Monotone(n + 1, m);
      assert v == top - 1;
      QuotientBelow(v, Pow2(m), 1);
      OrZero(v);
    } else {
      SmearPartial(v, n, m);
    }
  }

  lemma SmearPartial(v: nat, n: nat, m: nat)
    requires 1 <= m <= n && TopOnes(v, n, m)
    ensures TopOnes(Or(v, ShiftRight(v, m)), n, 2 * m)
  {
    ShiftedOnes(v, n, m);
    OrTopUp(v, ShiftRight(v, m), n, m);
  }

  /** Or-ing q low bits into a number whose higher bits are all ones. */
  lemma OrTopUp(v: nat, b: nat, n: nat, m: nat)
    requires 1 <= m <= n && TopOnes(v, n, m)
    requires b < Pow2(n + 1 - m)
    ensures Pow2(n + 1) - Pow2(n + 1 - m) + b <= Or(v, b) < Pow2(n + 1)
  {
    var q := n + 1 - m;
    Pow2Add(m, q);
    var high := (Pow2(m) - 1) * Pow2(q);
    MinusOneTimes(Pow2(m), Pow2(q));
    assert high == Pow2(n + 1) - Pow2(q);
    var lo := v - high;
    OrSplit(high, Pow2(m) - 1, lo, b, q);
    OrAtLeast(lo, b);
    OrBelow(lo, b, q);
  }

  lemma MinusOneTimes(a: int, b: int)
    ensures (a - 1) * b == a * b - b
  {
  }

  /** The shifted copy continues the run of ones below the first m bits. */
  lemma ShiftedOnes(v: nat, n: nat, m: nat)
    requires 1 <= m <= n && TopOnes(v, n, m)
    ensures Pow2(n + 1 - m) - (if 2 * m <= n + 1 then Pow2(n + 1 - 2 * m) else 1) <= ShiftRight(v, m) < Pow2(n + 1 - m)
  {
    Pow2Add(m, n + 1 - m);
    var z := WidthLeft(n, m);
    ShiftedPart(v, Pow2(m), Pow2(n + 1 - m), z);
  }

  lemma WidthLeft(n: nat, m: nat) returns (z: nat)
    requires 1 <= m <= n
    ensures z == if 2 * m <= n + 1 then Pow2(n + 1 - 2 * m) else 1
    ensures z <= Pow2(n + 1 - m) <= Pow2(m) * z
  {
    if 2 * m <= n + 1 {
      z := Pow2(n + 1 - 2 * m);
      Pow2Add(m, n + 1 - 2 * m);
      Pow2Monotone(n + 1 - 2 * m, n + 1 - m);
    } else {
      z := 1;
      Pow2Monotone(n + 1 - m, m);
    }
  }

  lemma ShiftedPart(v: nat, s: nat, w: nat, z: nat)
    requires s > 0 && z <= w <= s * z
    requires s * w - w <= v < s * w
    ensures w - z <= v / s < w
  {
    QuotientBelow(v, s, w);
    TimesDifference(s, w, z);
    QuotientAtLeast(v, s, w - z);
  }

  lemma TimesDifference(s: int, w: int, z: int)
    ensures (w - z) * s == s * w - s * z
  {
  }

  lemma QuotientBelow(v: nat, s: nat, w: nat)
    requires s > 0 && v < s * w
    ensures v / s < w
  {
    var d := v / s;
    assert d >= w ==> d * s >= w * s;
  }

  lemma QuotientAtLeast(v: nat, s: nat, x: nat)
    requires s > 0 && v >= x * s
    ensures v / s >= x
  {
    var d := v / s + 1;
    assert d <= x ==> d * s <= x * s;
  }

  /** The power of two just above v - 1, for v >= 2. */
  lemma {:induction false} BitLength(v: nat) returns (n: nat)
    requires v >= 1
    ensures Pow2(n) <= v < Pow2(n + 1)
  {
    if v == 1 {
      n := 0;
      assert Pow2(1) == 2;
    } else {
      var h := BitLength(v / 2);
      n := h + 1;
    }
  }

  ghost predicate IsPowerOf2(p: int) {
    exists n: nat :: p == Pow2(n)
  }

  /** p is the least power of two that is at least v. */
  ghost predicate IsLeastPowerOf2(p: int, v: int) {
    IsPowerOf2(p) && p >= v && forall n: nat :: Pow2(n) >= v ==> Pow2(n) >= p
  }

  /** Rounds up to a power of two by smearing the top bit; the last addition wraps in 32 bits. */
  method NextPowerOf2(value: int) returns (r: int)
    requires -TWO_31 <= value < TWO_31
    ensures value <= 1 ==> r == 2
    ensures 2 <= value <= 0x4000_0000 ==> IsLeastPowerOf2(r, value)
    ensures value > 0x4000_0000 ==> r == -TWO_31
  {
    if value <= 1 {
      assert Pow2(1) == 2;
      return 2;
    }
    var v: nat := value - 1;
    ghost var n := BitLength(v);
    LargePowers();
    Pow2Reflects(n, 31);
    v := Smear(v, n);
    r := Wrap32(v + 1);
    Rounded(value, n);
  }

  /** Copies the top bit of a number of n + 1 bits, at most 32, into all the lower ones. */
  method Smear(value: nat, ghost n: nat) returns (v: nat)
    requires n < 32 && Pow2(n) <= value < Pow2(n + 1)
    ensures v == Pow2(n + 1) - 1
  {
    v := value;
    SmearDoubles(v, n, 1);
    v := Or(v, ShiftRight(v, 1));
    SmearDoubles(v, n, 2);
    v := Or(v, ShiftRight(v, 2));
    SmearDoubles(v, n, 4);
    v := Or(v, ShiftRight(v, 4));
    SmearDoubles(v, n, 8);
    v := Or(v, ShiftRight(v, 8));
    SmearDoubles(v, n, 16);
    v := Or(v, ShiftRight(v, 16));
  }

  lemma Rounded(value: int, n: nat)
    requires 2 <= value < TWO_31 && Pow2(n) <= value - 1 < Pow2(n + 1)
    ensures value <= 0x4000_0000 ==> IsLeastPowerOf2(Wrap32(Pow2(n + 1)), value)
    ensures value > 0x4000_0000 ==> Wrap32(Pow2(n + 1)) == -TWO_31
  {
    LargePowers();
    if value <= 0x4000_0000 {
      Pow2Reflects(n, 30);
      Pow2Monotone(n + 1, 30);
      LeastAbove(n, value);
    } else {
      Pow2Reflects(n, 31);
      Pow2Reflects(30, n + 1);
    }
  }

  lemma LargePowers()
    ensures Pow2(4) == 16 && Pow2(30) == 0x4000_0000 && Pow2(31) == TWO_31 && Pow2(32) == TWO_32
  {
    assert Pow2(10) == 1024;
    Pow2Add(10, 10);
    Pow2Add(20, 10);
    Pow2Add(30, 1);
    Pow2Add(31, 1);
  }

  lemma LeastAbove(n: nat, v: int)
    requires Pow2(n) < v <= Pow2(n + 1)
    ensures IsLeastPowerOf2(Pow2(n + 1), v)
  {
    forall m: nat | Pow2(m) >= v
      ensures Pow2(m) >= Pow2(n + 1)
    {
      if m <= n {
        Pow2Monotone(m, n);
      } else {
        Pow2Monotone(n + 1, m);
      }
    }
  }
}
