/** The three checksums of btoa and atob: what they are, and how both programs keep them. */
module Base85Sums {
  import opened Bits
  import opened Base85Code

  datatype Sums = Sums(eor: int, sum: int, rot: int)

  // ----- What they are -----

  ghost function Total(b: seq<byte>): nat {
    if b == [] then 0 else Total(b[..|b| - 1]) + b[|b| - 1]
  }

  /** How many of the bytes have bit k. */
  ghost function Ones(b: seq<byte>, k: nat): nat {
    if b == [] then 0 else Ones(b[..|b| - 1], k) + if Bit(b[|b| - 1], k) then 1 else 0
  }

  /** Each bit of e is the parity of that bit over the bytes. */
  ghost predicate Parity(b: seq<byte>, e: int) {
    0 <= e < 256 && forall k: nat :: k < 8 ==> (Bit(e, k) <==> Ones(b, k) % 2 == 1)
  }

  /** v is the unsigned word u turned left by one bit. */
  ghost predicate Turned(u: nat, v: nat) {
    && v < TWO32
    && (Bit(v, 0) <==> Bit(u, 31))
    && forall k: nat :: k < 31 ==> (Bit(v, k + 1) <==> Bit(u, k))
  }

  /** Starting from 0, for each byte the word is turned left and the byte is added, modulo 2^32. */
  ghost predicate Rolled(b: seq<byte>, u: nat) {
    if b == [] then u == 0
    else exists was: nat, v: nat :: Rolled(b[..|b| - 1], was) && Turned(was, v) && u == (v + b[|b| - 1]) % TWO32
  }

  /** Parities; the sum of the bytes and their number; the rolling sum: the last two as signed words. */
  ghost predicate Checksums(b: seq<byte>, s: Sums) {
    && Parity(b, s.eor)
    && s.sum == Wrap(Total(b) + |b|)
    && -TWO31 <= s.rot < TWO31 && Rolled(b, Unsigned(s.rot))
  }

  // ----- How they are kept -----

  function Update(s: Sums, c: byte): Sums {
    var r := if s.rot < 0 then Wrap(Wrap(2 * s.rot) + 1) else Wrap(2 * s.rot);
    Sums(if 0 <= s.eor then Xor(s.eor, c) else s.eor, Wrap(Wrap(s.sum + c) + 1), Wrap(r + c))
  }

  lemma ChecksumsNone()
    ensures Checksums([], Sums(0, 0, 0))
  {
    forall k: nat | k < 8 ensures !Bit(0, k) {
      HighBitsZero(0, 0, k);
    }
  }

  lemma {:induction false} XorBit(x: nat, y: nat, k: nat)
    ensures Bit(Xor(x, y), k) <==> Bit(x, k) != Bit(y, k)
    decreases k
  {
    hide Xor;
    XorHalves(x, y);
    if k > 0 {
      XorBit(x / 2, y / 2, k - 1);
    } else {
      Odd(x, y);
    }
  }

  lemma Odd(x: nat, y: nat)
    ensures (x + y) % 2 == 1 <==> (x % 2 == 1) != (y % 2 == 1)
  {
  }

  lemma XorHalves(x: nat, y: nat)
    ensures Xor(x, y) / 2 == Xor(x / 2, y / 2) && Xor(x, y) % 2 == (x + y) % 2
  {
  }

  lemma OnesMore(b: seq<byte>, c: byte, k: nat)
    ensures Ones(b + [c], k) == Ones(b, k) + if Bit(c, k) then 1 else 0
  {
    assert (b + [c])[..|b|] == b;
  }

  lemma ParityMore(b: seq<byte>, e: int, c: byte)
    requires Parity(b, e)
    ensures Parity(b + [c], Xor(e, c))
  {
    hide Xor, Bit, Ones, Pow2;
    Pow2Values();
    XorBound(e, c, 8);
    forall k: nat | k < 8 ensures Bit(Xor(e, c), k) <==> Ones(b + [c], k) % 2 == 1 {
      XorBit(e, c, k);
      OnesMore(b, c, k);
    }
  }

  lemma Word31()
    ensures Pow2(31) == TWO31 && Pow2(32) == TWO32
  {
    Pow2Values();
    Pow2Sum(16, 15);
    Pow2Sum(10, 5);
    assert Pow2(5) == 32;
    Pow2Sum(16, 16);
  }

  /** Doubling, and putting the top bit below, turns a word. */
  lemma TurnedBits(u: nat)
    requires u < TWO32
    ensures (Bit(u, 31) <==> u >= TWO31)
    ensures Turned(u, 2 * (u % TWO31) + u / TWO31)
  {
    Word31();
    var lo, hi := u % TWO31, u / TWO31;
    JoinBit(lo, hi, 31, 31);
    assert u == lo + TWO31 * hi;
    forall k: nat | k < 31 ensures Bit(2 * lo + hi, k + 1) <==> Bit(u, k) {
      JoinBit(lo, hi, 31, k);
      assert (2 * lo + hi) / 2 == lo;
    }
  }

  lemma TurnedOnce(u: nat, v: nat, w: nat)
    requires Turned(u, v) && Turned(u, w)
    ensures v == w
  {
    Word31();
    forall i: nat | i < 32 ensures Bit(v, i) == Bit(w, i) {
      if i > 0 { assert Bit(v, i - 1 + 1) <==> Bit(u, i - 1); }
    }
    BitsDetermine(v, w, 32);
  }

  lemma {:induction false} RolledOnce(b: seq<byte>, u: nat, v: nat)
    requires Rolled(b, u) && Rolled(b, v)
    ensures u == v
    decreases |b|
  {
    hide Turned;
    if b != [] {
      var front := b[..|b| - 1];
      var was: nat, x: nat :| Rolled(front, was) && Turned(was, x) && u == (x + b[|b| - 1]) % TWO32;
      var was': nat, y: nat :| Rolled(front, was') && Turned(was', y) && v == (y + b[|b| - 1]) % TWO32;
      RolledOnce(front, was, was');
      TurnedOnce(was, x, y);
    }
  }

  /** What the signed shifts do to the unsigned word. */
  lemma ShiftedRot(rot: int, c: byte)
    requires -TWO31 <= rot < TWO31
    ensures var u := Unsigned(rot);
      var r := if rot < 0 then Wrap(Wrap(2 * rot) + 1) else Wrap(2 * rot);
      Unsigned(Wrap(r + c)) == (2 * (u % TWO31) + u / TWO31 + c) % TWO32
  {
    hide Wrap, Unsigned;
    RotHalves(rot);
    WrapSum(2 * rot, 1);
    if rot < 0 {
      WrapSum(2 * rot + 1, c);
      WrapSame(2 * rot + 1 + c);
      UnsignedTurns(2 * rot + 1 + c);
    } else {
      WrapSum(2 * rot, c);
      WrapSame(2 * rot + c);
      UnsignedTurns(2 * rot + c);
    }
  }

  lemma RotHalves(rot: int)
    requires -TWO31 <= rot < TWO31
    ensures var u := Unsigned(rot);
      2 * (u % TWO31) + u / TWO31 == if rot < 0 then 2 * rot + 1 + TWO32 else 2 * rot
  {
    var u := Unsigned(rot);
    if rot < 0 {
      assert u == rot + TWO32;
      DivUnique(u, TWO31, 1, u - TWO31);
    } else {
      DivUnique(u, TWO31, 0, u);
    }
  }

  lemma UnsignedTurns(x: int)
    ensures Unsigned(x) == x % TWO32 == (x + TWO32) % TWO32
  {
  }

  lemma RolledMore(b: seq<byte>, rot: int, c: byte)
    requires -TWO31 <= rot < TWO31 && Rolled(b, Unsigned(rot))
    ensures var r := if rot < 0 then Wrap(Wrap(2 * rot) + 1) else Wrap(2 * rot);
      Rolled(b + [c], Unsigned(Wrap(r + c)))
  {
    hide Rolled, Turned, Wrap, Unsigned;
    var u := Unsigned(rot);
    WrapSame(rot);
    WordRange32(rot);
    TurnedBits(u);
    ShiftedRot(rot, c);
    RolledStep(b, u, 2 * (u % TWO31) + u / TWO31, c);
  }

  lemma WordRange32(x: int)
    ensures 0 <= Unsigned(x) < TWO32
  {
  }

  lemma RolledStep(b: seq<byte>, u: nat, v: nat, c: byte)
    requires Rolled(b, u) && Turned(u, v)
    ensures Rolled(b + [c], (v + c) % TWO32)
  {
    hide Turned;
    var all := b + [c];
    assert all[..|all| - 1] == b && all[|all| - 1] == c;
  }

  /** One more byte. */
  lemma ChecksumsMore(b: seq<byte>, s: Sums, c: byte)
    requires Checksums(b, s)
    ensures Checksums(b + [c], Update(s, c))
  {
    hide Parity, Rolled, Xor;
    ParityMore(b, s.eor, c);
    EorRange(b, s.eor);
    RolledMore(b, s.rot, c);
    WrapSame(s.rot);
    assert (b + [c])[..|b|] == b;
    WrapSum(Total(b) + |b|, c);
    WrapSum(Total(b) + |b| + c, 1);
  }

  lemma EorRange(b: seq<byte>, e: int)
    requires Parity(b, e)
    ensures 0 <= e
  {
  }

  lemma ParityOnce(b: seq<byte>, e: int, f: int)
    requires Parity(b, e) && Parity(b, f)
    ensures e == f
  {
    Pow2Values();
    BitsDetermine(e, f, 8);
  }

  /** The bytes determine their checksums. */
  lemma ChecksumsOnce(b: seq<byte>, s: Sums, t: Sums)
    requires Checksums(b, s) && Checksums(b, t)
    ensures s == t
  {
    hide Parity, Rolled;
    ParityOnce(b, s.eor, t.eor);
    RolledOnce(b, Unsigned(s.rot), Unsigned(t.rot));
  }
}
