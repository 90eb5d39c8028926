/** The numbers of dc: base 100, least digit first, and a top digit -1 in negative ones. */
module DcNumber {
  import Bits

  function Pow(b: int, n: nat): int {
    if n == 0 then 1 else b * Pow(b, n - 1)
  }

  lemma {:induction false} PowPositive(b: int, n: nat)
    requires b >= 1
    ensures Pow(b, n) >= 1
  {
    if n > 0 {
      PowPositive(b, n - 1);
      assert b * Pow(b, n - 1) >= Pow(b, n - 1);
    }
  }

  /** Digit i, and zero beyond the end. */
  function Digit(s: seq<int>, i: nat): int {
    if i < |s| then s[i] else 0
  }

  /** What the first n digits stand for. */
  ghost function Val(s: seq<int>, n: nat): int {
    if n == 0 then 0 else Val(s, n - 1) + Digit(s, n - 1) * Pow(100, n - 1)
  }

  ghost function Value(s: seq<int>): int {
    Val(s, |s|)
  }

  predicate DigitOk(s: seq<int>, i: nat)
    requires i < |s|
  {
    0 <= s[i] <= 99 || (i == |s| - 1 && s[i] == -1)
  }

  ghost predicate Number(s: seq<int>) {
    forall i :: 0 <= i < |s| ==> DigitOk(s, i)
  }

  ghost predicate Plain(s: seq<int>) {
    forall i :: 0 <= i < |s| ==> 0 <= s[i] <= 99
  }

  lemma {:induction false} ValFrame(s: seq<int>, t: seq<int>, n: nat)
    requires forall i :: 0 <= i < n ==> Digit(s, i) == Digit(t, i)
    ensures Val(s, n) == Val(t, n)
  {
    if n > 0 {
      ValFrame(s, t, n - 1);
    }
  }

  /** Digits beyond the end add nothing. */
  lemma {:induction false} ValBeyond(s: seq<int>, n: nat)
    requires n >= |s|
    ensures Val(s, n) == Value(s)
    decreases n
  {
    if n > |s| {
      ValBeyond(s, n - 1);
      assert Digit(s, n - 1) * Pow(100, n - 1) == 0;
    }
  }

  lemma ValueSnoc(s: seq<int>, d: int)
    ensures Value(s + [d]) == Value(s) + d * Pow(100, |s|)
  {
    ValFrame(s + [d], s, |s|);
  }

  lemma {:induction false} PlainRange(s: seq<int>, n: nat)
    requires n <= |s| && forall i :: 0 <= i < n ==> 0 <= s[i] <= 99
    ensures 0 <= Val(s, n) < Pow(100, n)
  {
    PowPositive(100, n);
    if n > 0 {
      PlainRange(s, n - 1);
      PowPositive(100, n - 1);
      DigitTimes(s[n - 1], Pow(100, n - 1));
    }
  }

  lemma DigitTimes(d: int, p: int)
    requires 0 <= d <= 99 && p >= 1
    ensures 0 <= d * p <= 99 * p
  {
  }

  /** The top digit tells the sign. */
  lemma Sign(s: seq<int>)
    requires Number(s)
    ensures Value(s) < 0 <==> s != [] && s[|s| - 1] == -1
    ensures Value(s) >= 0 ==> Plain(s)
  {
    if s != [] {
      var n := |s| - 1;
      forall i | 0 <= i < n ensures 0 <= s[i] <= 99 {
        assert DigitOk(s, i);
      }
      assert DigitOk(s, n);
      PlainRange(s, n);
      PowPositive(100, n);
      if s[n] >= 0 {
        DigitTimes(s[n], Pow(100, n));
      }
    }
  }

  // ----- The form of a number -----

  /** No zero at the top, and no 99 below a top -1, unless that makes the -1 of two digits. */
  ghost predicate Trimmed(s: seq<int>) {
    s != [] ==>
      && s[|s| - 1] != 0
      && (s[|s| - 1] == -1 && |s| > 2 ==> s[|s| - 2] != 99)
  }

  /** As add leaves numbers: a top -1 has a digit below it. */
  ghost predicate Normal(s: seq<int>) {
    Trimmed(s) && s != [-1]
  }

  lemma {:induction false} PowGrows(b: int, m: nat, n: nat)
    requires b >= 1 && m <= n
    ensures Pow(b, m) <= Pow(b, n)
    decreases n
  {
    if m < n {
      PowGrows(b, m, n - 1);
      PowPositive(b, n - 1);
      assert Pow(b, n - 1) <= b * Pow(b, n - 1);
    }
  }

  /** The digits of a number without sign are determined by its value. */
  lemma {:induction false} SameDigits(s: seq<int>, t: seq<int>, n: nat)
    requires n <= |s| && n <= |t| && Val(s, n) == Val(t, n)
    requires forall i :: 0 <= i < n ==> 0 <= s[i] <= 99 && 0 <= t[i] <= 99
    ensures s[..n] == t[..n]
  {
    if n > 0 {
      PlainRange(s, n - 1);
      PlainRange(t, n - 1);
      TopSame(Val(s, n - 1), s[n - 1], Val(t, n - 1), t[n - 1], Pow(100, n - 1));
      SameDigits(s, t, n - 1);
      assert s[..n] == s[..n - 1] + [s[n - 1]] && t[..n] == t[..n - 1] + [t[n - 1]];
    }
  }

  lemma TopSame(x: int, d: int, y: int, e: int, p: int)
    requires 0 <= x < p && 0 <= y < p && x + d * p == y + e * p
    ensures d == e && x == y
  {
    Apart(d, e, p);
    Bits.MulGap(p, d - e);
  }

  lemma Apart(d: int, e: int, p: int)
    ensures d * p - e * p == p * (d - e)
  {
  }

  /** The digits below the top one. */
  lemma Below(s: seq<int>)
    requires Number(s) && s != []
    ensures Value(s) == Val(s, |s| - 1) + s[|s| - 1] * Pow(100, |s| - 1)
    ensures 0 <= Val(s, |s| - 1) < Pow(100, |s| - 1) && -1 <= s[|s| - 1] <= 99
    ensures forall i :: 0 <= i < |s| - 1 ==> 0 <= s[i] <= 99
  {
    forall i | 0 <= i < |s| - 1 ensures 0 <= s[i] <= 99 {
      assert DigitOk(s, i);
    }
    PlainRange(s, |s| - 1);
    assert DigitOk(s, |s| - 1);
  }

  /** How many digits a number takes is told by its value. */
  lemma Size(s: seq<int>)
    requires Number(s) && Normal(s) && s != []
    ensures Value(s) != 0
    ensures Value(s) > 0 ==> Pow(100, |s| - 1) <= Value(s) < Pow(100, |s|)
    ensures Value(s) < 0 ==> |s| >= 2 && -Pow(100, |s| - 1) <= Value(s) && s[|s| - 1] == -1
    ensures Value(s) < 0 && |s| > 2 ==> Value(s) < -Pow(100, |s| - 2)
  {
    hide Val;
    var n := |s| - 1;
    Below(s);
    if s[n] > 0 {
      TopPart(s[n], Pow(100, n));
      assert Pow(100, |s|) == 100 * Pow(100, n);
    } else if n >= 2 {
      SecondDigit(s);
    }
  }

  lemma TopPart(d: int, p: int)
    requires 1 <= d <= 99 && p >= 1
    ensures p <= d * p <= 99 * p
  {
  }

  /** Below a top -1 that has no 99 next to it there is less than 99 of the hundred. */
  lemma SecondDigit(s: seq<int>)
    requires Number(s) && Trimmed(s) && |s| > 2 && s[|s| - 1] == -1
    ensures Val(s, |s| - 1) < 99 * Pow(100, |s| - 2) && Pow(100, |s| - 1) == 100 * Pow(100, |s| - 2)
  {
    var m := |s| - 2;
    Below(s);
    PlainRange(s, m);
    DigitTimes(98 - s[m], Pow(100, m));
    SecondTimes(s[m], Pow(100, m));
  }

  lemma SecondTimes(d: int, p: int)
    requires 0 <= d <= 98 && p >= 1
    ensures d * p <= 98 * p
  {
  }

  /** Two numbers as add leaves them are the same if they have the same value: zero, above all, is the empty number. */
  lemma NormalOnce(s: seq<int>, t: seq<int>)
    requires Number(s) && Normal(s) && Number(t) && Normal(t) && Value(s) == Value(t)
    ensures s == t
  {
    if s == [] || t == [] {
      if s != [] { Size(s); }
      if t != [] { Size(t); }
    } else {
      Size(s);
      Size(t);
      NotShorter(s, t);
      NotShorter(t, s);
      Below(s);
      Below(t);
      var n := |s| - 1;
      TopSame(Val(s, n), s[n], Val(t, n), t[n], Pow(100, n));
      SameDigits(s, t, n);
      assert s == s[..n] + [s[n]] && t == t[..n] + [t[n]];
    }
  }

  lemma NotShorter(s: seq<int>, t: seq<int>)
    requires Number(s) && Normal(s) && Number(t) && Normal(t) && s != [] && t != [] && Value(s) == Value(t)
    ensures |t| <= |s|
  {
    Size(s);
    Size(t);
    if |s| < |t| {
      if Value(s) > 0 {
        PowGrows(100, |s|, |t| - 1);
      } else {
        PowGrows(100, |s| - 1, |t| - 2);
      }
    }
  }

  /** There is a 99 right below a top -1 in one number only. */
  lemma MinusOne(s: seq<int>)
    requires Number(s) && Normal(s)
    ensures Number([99, -1]) && Normal([99, -1]) && Value([99, -1]) == -1
    ensures s != [] && s[|s| - 1] == -1 && s[|s| - 2] == 99 <==> Value(s) == -1
  {
    var m := [99, -1];
    assert Pow(100, 1) == 100 && Pow(100, 0) == 1;
    assert Val(m, 1) == 99 && Val(m, 2) == 99 - 100;
    assert DigitOk(m, 0) && DigitOk(m, 1);
    if Value(s) == -1 {
      NormalOnce(s, m);
    }
    if s != [] && s[|s| - 1] == -1 && s[|s| - 2] == 99 {
      assert s == m;
    }
  }

  /** Dropping zeros at the top changes nothing. */
  lemma {:induction false} DropZeros(s: seq<int>, m: nat)
    requires m <= |s| && forall i :: m <= i < |s| ==> s[i] == 0
    ensures Value(s[..m]) == Value(s)
  {
    ValFrame(s, s[..m], |s|);
    ValBeyond(s[..m], |s|);
  }

  /** A row of 99s below a top -1 can go. */
  lemma {:induction false} DropNines(s: seq<int>, m: nat)
    requires m < |s| && s[|s| - 1] == -1 && forall i :: m <= i < |s| - 1 ==> s[i] == 99
    ensures Value(s[..m] + [-1]) == Value(s)
    decreases |s|
  {
    var n := |s| - 1;
    if m < n {
      var t := s[..n - 1] + [-1];
      assert s[..n - 1] + [99] + [-1] == s;
      ValueSnoc(s[..n - 1] + [99], -1);
      ValueSnoc(s[..n - 1], 99);
      ValueSnoc(s[..n - 1], -1);
      assert Pow(100, n) == 100 * Pow(100, n - 1);
      assert t[..m] == s[..m];
      DropNines(t, m);
    } else {
      assert s[..m] + [-1] == s;
    }
  }

  lemma {:induction false} ValueZeros(n: nat, s: seq<int>)
    ensures Value(seq(n, i => 0) + s) == Pow(100, n) * Value(s)
    decreases |s|
  {
    var z := seq(n, i => 0);
    if s == [] {
      assert z + s == z;
      assert z[..0] == [];
      DropZeros(z, 0);
    } else {
      var m := |s| - 1;
      assert z + s == z + s[..m] + [s[m]] && s == s[..m] + [s[m]];
      ValueZeros(n, s[..m]);
      ValueSnoc(z + s[..m], s[m]);
      ValueSnoc(s[..m], s[m]);
      PowAdd(100, n, m);
      Distribute(Pow(100, n), Value(s[..m]), s[m], Pow(100, m));
    }
  }

  lemma Distribute(a: int, b: int, c: int, d: int)
    ensures a * (b + c * d) == a * b + c * (a * d)
  {
  }

  lemma {:induction false} PowAdd(b: int, m: nat, n: nat)
    ensures Pow(b, m + n) == Pow(b, m) * Pow(b, n)
    decreases n
  {
    if n > 0 {
      PowAdd(b, m, n - 1);
      assert Pow(b, m + n) == b * Pow(b, m + n - 1);
      assert b * (Pow(b, m) * Pow(b, n - 1)) == Pow(b, m) * (b * Pow(b, n - 1));
    }
  }

  lemma {:induction false} Hundreds(n: nat)
    ensures Pow(100, n) == Pow(10, 2 * n)
  {
    if n > 0 {
      Hundreds(n - 1);
      assert Pow(10, 2 * n) == 10 * (10 * Pow(10, 2 * n - 2));
    }
  }
}
