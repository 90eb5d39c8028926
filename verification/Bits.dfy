/** Binary digits of natural numbers, and of byte strings read lowest bit first. */
module Bits {
  type byte = x: int | 0 <= x < 256

  function Pow2(n: nat): (p: nat)
    ensures p >= 1
  {
    if n == 0 then 1 else 2 * Pow2(n - 1)
  }

  lemma Pow2Values()
    ensures Pow2(8) == 256 && Pow2(9) == 512 && Pow2(10) == 1024 && Pow2(16) == 65536
  {
    assert Pow2(4) == 16 && Pow2(12) == 4096;
  }

  /** x >> k */
  function Shr(x: nat, k: nat): nat {
    DivNonneg(x, Pow2(k));
    x / Pow2(k)
  }

  /** x & ((1 << k) - 1) */
  function Low(x: nat, k: nat): (r: nat)
    ensures r < Pow2(k)
  {
    x % Pow2(k)
  }

  lemma DivNonneg(x: nat, p: nat)
    requires p > 0
    ensures x / p >= 0
  {
  }

  /** Bit i of x, counted from the low end. */
  predicate Bit(x: nat, i: nat)
    decreases i
  {
    if i == 0 then x % 2 == 1 else Bit(x / 2, i - 1)
  }

  lemma {:induction false} DivPow2Step(x: nat, k: nat)
    requires k > 0
    ensures x / Pow2(k) == (x / 2) / Pow2(k - 1)
  {
    var p := Pow2(k - 1);
    var h, q := x / 2, (x / 2) / p;
    assert x == 2 * h + x % 2 && h == p * q + h % p;
    assert x == (2 * p) * q + (2 * (h % p) + x % 2);
    DivUnique(x, 2 * p, q, 2 * (h % p) + x % 2);
  }

  lemma DivUnique(x: int, d: int, q: int, r: int)
    requires d > 0 && x == d * q + r && 0 <= r < d
    ensures x / d == q && x % d == r
  {
    var q', r' := x / d, x % d;
    assert d * (q' - q) == r - r';
    MulGap(d, q' - q);
  }

  lemma MulGap(d: int, k: int)
    requires d > 0
    ensures k >= 1 ==> d * k >= d
    ensures k <= -1 ==> d * k <= -d
  {
  }

  /** Shifting right by k drops the k lowest bits. */
  lemma {:induction false} ShiftRightBit(x: nat, k: nat, i: nat)
    ensures Bit(Shr(x, k), i) == Bit(x, i + k)
    decreases k
  {
    if k > 0 {
      DivPow2Step(x, k);
      ShiftRightBit(x / 2, k - 1, i);
    }
  }

  lemma {:induction false} Pow2Sum(k: nat, m: nat)
    ensures Pow2(k + m) == Pow2(k) * Pow2(m)
  {
    if k > 0 {
      Pow2Sum(k - 1, m);
      assert Pow2(k + m) == 2 * Pow2(k - 1 + m);
      MulAssoc(2, Pow2(k - 1), Pow2(m));
    }
  }

  lemma MulAssoc(a: nat, b: nat, c: nat)
    ensures a * (b * c) == (a * b) * c
  {
  }

  lemma JoinBound(lo: nat, hi: nat, k: nat, m: nat)
    requires lo < Pow2(k) && hi < Pow2(m)
    ensures lo + Pow2(k) * hi < Pow2(k + m)
  {
    Pow2Sum(k, m);
    MulMono(Pow2(k), hi, Pow2(m) - 1);
  }

  lemma MulMono(p: nat, a: nat, b: nat)
    requires a <= b
    ensures p * a <= p * b
  {
  }

  lemma DivBound(x: nat, p: nat, q: nat)
    requires p > 0 && x < p * q
    ensures x / p < q
  {
    var lo, hi := DivMod(x, p);
    if hi >= q { MulMono(p, q, hi); }
  }

  /** Two numbers below 2^n with the same n bits are equal. */
  lemma {:induction false} BitsDetermine(x: nat, y: nat, n: nat)
    requires x < Pow2(n) && y < Pow2(n)
    requires forall i: nat :: i < n ==> Bit(x, i) == Bit(y, i)
    ensures x == y
  {
    if n > 0 {
      assert Bit(x, 0) == Bit(y, 0);
      forall i: nat | i < n - 1 ensures Bit(x / 2, i) == Bit(y / 2, i) {
        assert Bit(x, i + 1) == Bit(y, i + 1);
      }
      BitsDetermine(x / 2, y / 2, n - 1);
    }
  }

  /** A number put above k low bits keeps both parts. */
  lemma {:induction false} JoinBit(lo: nat, hi: nat, k: nat, i: nat)
    requires lo < Pow2(k)
    ensures Bit(lo + Pow2(k) * hi, i) == if i < k then Bit(lo, i) else Bit(hi, i - k)
    decreases k
  {
    if k > 0 {
      var p := Pow2(k - 1);
      assert lo + Pow2(k) * hi == 2 * (lo / 2 + p * hi) + lo % 2;
      assert (lo + Pow2(k) * hi) / 2 == lo / 2 + p * hi;
      if i > 0 { JoinBit(lo / 2, hi, k - 1, i - 1); }
    } else {
      assert Pow2(k) * hi == hi;
    }
  }

  /** Masking with 2^k - 1 keeps the k lowest bits. */
  lemma {:induction false} MaskBit(x: nat, k: nat, i: nat)
    ensures Bit(Low(x, k), i) == (i < k && Bit(x, i))
  {
    var lo, hi := DivMod(x, Pow2(k));
    if i < k {
      JoinBit(lo, hi, k, i);
    } else {
      HighBitsZero(lo, k, i);
    }
  }

  lemma DivMod(x: nat, p: nat) returns (lo: nat, hi: nat)
    requires p > 0
    ensures lo == x % p && hi == x / p && lo < p && x == lo + p * hi
  {
    lo, hi := x % p, x / p;
  }

  lemma {:induction false} HighBitsZero(x: nat, k: nat, i: nat)
    requires x < Pow2(k) && k <= i
    ensures !Bit(x, i)
    decreases i
  {
    if i > 0 { HighBitsZero(x / 2, if k > 0 then k - 1 else 0, i - 1); }
  }

  /** Bit p of a byte string: byte p / 8, bit p % 8. */
  predicate BitAt(s: seq<byte>, p: nat)
    requires p < 8 * |s|
  {
    Bit(s[p / 8], p % 8)
  }

  /** The n bits of s from position p on spell the number c. */
  ghost predicate Holds(s: seq<byte>, p: nat, n: nat, c: nat)
  {
    && p + n <= 8 * |s|
    && c < Pow2(n)
    && forall i: nat :: i < n ==> BitAt(s, p + i) == Bit(c, i)
  }

  /** Bits the two byte strings agree on keep the numbers stored in them. */
  lemma HoldsKept(s: seq<byte>, t: seq<byte>, p: nat, n: nat, c: nat)
    requires Holds(s, p, n, c)
    requires p + n <= 8 * |t|
    requires forall q: nat :: p <= q < p + n ==> BitAt(s, q) == BitAt(t, q)
    ensures Holds(t, p, n, c)
  {
    forall i: nat | i < n ensures BitAt(t, p + i) == Bit(c, i) {
      assert BitAt(s, p + i) == Bit(c, i);
    }
  }

  /** Exclusive or. */
  function Xor(x: nat, y: nat): (r: nat)
    decreases x + y
  {
    if x == 0 && y == 0 then 0
    else (x + y) % 2 + 2 * Xor(x / 2, y / 2)
  }

  lemma {:induction false} XorBound(x: nat, y: nat, n: nat)
    requires x < Pow2(n) && y < Pow2(n)
    ensures Xor(x, y) < Pow2(n)
  {
    if n > 0 && (x != 0 || y != 0) { XorBound(x / 2, y / 2, n - 1); }
  }
}
