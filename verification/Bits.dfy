/** Powers of two and the bit tricks the hasher relies on, over unbounded
    naturals: every operand in the hasher stays below 2^64, so no operation
    here wraps. */
module Bits {

  predicate IsPow2(n: nat) {
    n == 1 || (n >= 2 && n % 2 == 0 && IsPow2(n / 2))
  }

  function Pow2(k: nat): (p: nat)
    ensures IsPow2(p)
    ensures k > 0 ==> p % 2 == 0
  {
    if k == 0 then 1 else 2 * Pow2(k - 1)
  }

  lemma Pow2Plus4(k: nat)
    ensures Pow2(k + 4) == 16 * Pow2(k)
  {
    assert Pow2(k + 2) == 4 * Pow2(k);
  }

  lemma Pow2Zero()
    ensures Pow2(0) == 1
  {
  }

  lemma Pow2Plus10(k: nat)
    ensures Pow2(k + 10) == 1024 * Pow2(k)
  {
    Pow2Plus4(k);
    Pow2Plus4(k + 4);
    assert Pow2(k + 10) == 4 * Pow2(k + 8);
  }

  lemma Pow2Literals()
    ensures Pow2(10) == 1024 && Pow2(54) == 0x40_0000_0000_0000
  {
    hide Pow2, IsPow2;
    Pow2Zero();
    Pow2Plus10(0);
    Pow2Plus10(10);
    Pow2Plus10(20);
    Pow2Plus10(30);
    Pow2Plus10(40);
    Pow2Plus4(50);
  }

  /** Index of the highest set bit. */
  function HighestOne(x: nat): (k: nat)
    requires x > 0
    ensures Pow2(k) <= x < 2 * Pow2(k)
  {
    if x == 1 then 0 else 1 + HighestOne(x / 2)
  }

  /** `1 << highest_one(x | 1)`: the largest power of two not above `x`, and 1 for 0. */
  function RoundDownToPowerOf2(x: nat): (r: nat)
    ensures IsPow2(r)
    ensures x >= 1 ==> r <= x < 2 * r
    ensures x == 0 ==> r == 1
  {
    Pow2(HighestOne(if x % 2 == 0 then x + 1 else x))
  }

  function BitAnd(x: nat, y: nat): nat {
    if x == 0 || y == 0 then 0
    else (if x % 2 == 1 && y % 2 == 1 then 1 else 0) + 2 * BitAnd(x / 2, y / 2)
  }

  /** Number of set bits. */
  function PopCount(x: nat): nat {
    if x == 0 then 0 else x % 2 + PopCount(x / 2)
  }

  /** Kernighan's loop, the portable fallback of the source, counts the set bits. */
  method PopCountLoop(x: nat) returns (count: nat)
    ensures count == PopCount(x)
  {
    var rest := x;
    count := 0;
    while rest != 0
      invariant count + PopCount(rest) == PopCount(x)
    {
      ClearLowestBit(rest);
      count := count + 1;
      rest := BitAnd(rest, rest - 1);
    }
  }

  lemma BitAndSelf(x: nat)
    ensures BitAnd(x, x) == x
  {
  }

  lemma {:induction false} ClearLowestBit(x: nat)
    requires x > 0
    ensures BitAnd(x, x - 1) < x
    ensures PopCount(BitAnd(x, x - 1)) == PopCount(x) - 1
  {
    var h := x / 2;
    if x % 2 == 1 {
      BitAndSelf(h);
      assert BitAnd(x, x - 1) == 2 * h;
    } else {
      ClearLowestBit(h);
      assert (x - 1) / 2 == h - 1;
      assert BitAnd(x, x - 1) == 2 * BitAnd(h, h - 1);
    }
  }

  /** Masking with a power of two minus one is taking the remainder. */
  lemma {:induction false} MaskIsRemainder(p: nat, x: nat)
    requires IsPow2(p)
    ensures BitAnd(p - 1, x) == x % p
  {
    hide BitAnd;
    if p > 1 && x > 0 {
      var q := p / 2;
      MaskIsRemainder(q, x / 2);
      MaskStep(q, x);
      HalveRemainder(x, q);
    } else {
      MaskBase(p, x);
    }
  }

  lemma MaskBase(p: nat, x: nat)
    requires p == 1 || (p > 1 && x == 0)
    ensures BitAnd(p - 1, x) == 0 && x % p == 0
  {
  }

  lemma MaskStep(q: nat, x: nat)
    requires q > 0 && x > 0
    ensures BitAnd(2 * q - 1, x) == x % 2 + 2 * BitAnd(q - 1, x / 2)
  {
    assert (2 * q - 1) % 2 == 1 && (2 * q - 1) / 2 == q - 1;
  }

  lemma HalveRemainder(x: nat, q: nat)
    requires q > 0
    ensures x % (2 * q) == x % 2 + 2 * ((x / 2) % q)
  {
    var h := x / 2;
    var r := x % 2 + 2 * (h % q);
    assert h == q * (h / q) + h % q;
    assert x == 2 * h + x % 2 == 2 * (q * (h / q)) + r;
    assert 2 * (q * (h / q)) == (2 * q) * (h / q);
    RemainderIs(x, 2 * q, h / q, r);
  }

  lemma RemainderIs(x: int, m: int, k: int, r: int)
    requires 0 <= r < m && x == m * k + r
    ensures x % m == r
  {
    var d := k - x / m;
    assert m * d == x % m - r;
    assert d >= 1 ==> m * d >= m;
    assert d <= -1 ==> m * d <= -m;
  }

  lemma {:induction false} Pow2Gap(a: nat, b: nat)
    requires IsPow2(a) && IsPow2(b) && a < b
    ensures 2 * a <= b
  {
    if a > 1 { Pow2Gap(a / 2, b / 2); }
  }

  /** The largest power of two not above `x` is unique. */
  lemma RoundDownIs(x: nat, p: nat)
    requires IsPow2(p) && p <= x < 2 * p
    ensures RoundDownToPowerOf2(x) == p
  {
    var r := RoundDownToPowerOf2(x);
    if r < p { Pow2Gap(r, p); }
    if p < r { Pow2Gap(p, r); }
  }

  lemma {:induction false} PopCountTopBit(p: nat, r: nat)
    requires IsPow2(p) && r < p
    ensures PopCount(p + r) == 1 + PopCount(r)
  {
    if p > 1 {
      PopCountTopBit(p / 2, r / 2);
      assert (p + r) / 2 == p / 2 + r / 2 && (p + r) % 2 == r % 2;
    }
  }

  lemma {:induction false} PopCountBound(x: nat, k: nat)
    requires x < Pow2(k)
    ensures PopCount(x) <= k
  {
    if k > 0 { PopCountBound(x / 2, k - 1); }
  }

  lemma {:induction false} Pow2Divides(a: nat, b: nat)
    requires IsPow2(a) && IsPow2(b) && a <= b
    ensures b % a == 0
  {
    if a > 1 {
      Pow2Divides(a / 2, b / 2);
      HalveRemainder(b, a / 2);
    }
  }

  /** A power of two that divides `x` has every smaller power of two dividing `x`. */
  lemma {:induction false} DividesDown(a: nat, b: nat, x: nat)
    requires IsPow2(a) && IsPow2(b) && a <= b && x % b == 0
    ensures x % a == 0
  {
    if a > 1 {
      HalveRemainder(x, b / 2);
      DividesDown(a / 2, b / 2, x / 2);
      HalveRemainder(x, a / 2);
    } else {
      assert a == 1;
    }
  }
}
