/** Fixed-point addition and subtraction on the stack of dc. */
module DcStack {
  import opened DcNumber
  import opened DcBlock

  const MAXSCALE := 127

  /** On the stack a number is followed by its scale, the number of decimal places. */
  ghost predicate Entry(e: seq<int>) {
    e != [] && Number(e[..|e| - 1]) && 0 <= e[|e| - 1] <= MAXSCALE
  }

  function Digits(e: seq<int>): seq<int>
    requires e != []
  {
    e[..|e| - 1]
  }

  function Scale(e: seq<int>): nat
    requires e != [] && e[|e| - 1] >= 0
  {
    e[|e| - 1]
  }

  ghost function Amount(e: seq<int>): real
    requires Entry(e)
  {
    PowPositive(10, Scale(e));
    Value(e[..|e| - 1]) as real / Pow(10, Scale(e)) as real
  }

  lemma Fraction(v: real, a: real, b: real)
    requires a != 0.0 && b != 0.0
    ensures (v * b) / (a * b) == v / a
  {
    var q := v / a;
    assert v == q * a;
    assert v * b == q * (a * b);
  }

  lemma Sum(x: real, y: real, d: real)
    requires d != 0.0
    ensures (x + y) / d == x / d + y / d
  {
  }

  /** More decimal places, the same amount. */
  lemma Rescaled(v: int, sk: nat, more: nat)
    ensures Pow(10, sk) >= 1 && Pow(10, sk + more) >= 1
    ensures (Pow(10, more) * v) as real / Pow(10, sk + more) as real == v as real / Pow(10, sk) as real
  {
    PowPositive(10, sk);
    PowPositive(10, more);
    PowPositive(10, sk + more);
    PowAdd(10, sk, more);
    hide Pow;
    RescaledReal(v, Pow(10, sk), Pow(10, more));
  }

  lemma RescaledReal(v: int, a: int, b: int)
    requires a >= 1 && b >= 1 && a * b >= 1
    ensures (b * v) as real / (a * b) as real == v as real / a as real
  {
    ProductReal(b, v);
    ProductReal(a, b);
    Fraction(v as real, a as real, b as real);
  }

  lemma ProductReal(x: int, y: int)
    ensures (x * y) as real == x as real * y as real
  {
  }

  function Larger(a: nat, b: nat): nat {
    if a >= b then a else b
  }

  datatype Relation = Less | Greater | Equal | NotLess | NotGreater | NotEqual

  predicate Related(c: Relation, x: real, y: real) {
    match c
    case Less => x < y
    case Greater => x > y
    case Equal => x == y
    case NotLess => x >= y
    case NotGreater => x <= y
    case NotEqual => x != y
  }

  /** The sign of an amount is that of the top digit; zero has no digits. */
  lemma SignOfAmount(e: seq<int>)
    requires Entry(e) && Normal(Digits(e))
    ensures Amount(e) == 0.0 <==> Digits(e) == []
    ensures Digits(e) != [] ==> (Amount(e) < 0.0 <==> Digits(e)[|e| - 2] < 0) && Digits(e)[|e| - 2] != 0
  {
    hide Val, Number;
    PowPositive(10, Scale(e));
    var v := Value(Digits(e));
    Sign(Digits(e));
    if Digits(e) == [] {
      NoValue();
    } else {
      Size(Digits(e));
      Below(Digits(e));
    }
    SignOfQuotient(v as real, Pow(10, Scale(e)) as real);
  }

  lemma NoValue()
    ensures Value([]) == 0
  {
  }

  lemma SignOfQuotient(x: real, d: real)
    requires d > 0.0
    ensures x / d == 0.0 <==> x == 0.0
    ensures x / d < 0.0 <==> x < 0.0
  {
    var q := x / d;
    assert x == q * d;
  }

  class Calculator {
    /** the top is the last */
    var stack: seq<seq<int>>
    var savk: int
    var arg1: Blk
    var arg2: Blk

    ghost predicate Valid()
      reads this
    {
      forall i :: 0 <= i < |stack| ==> Entry(stack[i])
    }

    constructor (entries: seq<seq<int>>)
      requires forall i :: 0 <= i < |entries| ==> Entry(entries[i])
      ensures Valid() && stack == entries
    {
      stack := entries;
      savk := 0;
      arg1 := new Blk([]);
      arg2 := new Blk([]);
    }

    method Pop() returns (p: Blk, empty: bool)
      requires Valid()
      modifies `stack
      ensures Valid() && fresh(p) && (empty <==> old(stack) == [])
      ensures !empty ==> p.data == old(stack[|stack| - 1]) && stack == old(stack[..|stack| - 1]) && Entry(p.data)
      ensures empty ==> stack == []
    {
      if stack == [] {
        p := new Blk([]);
        return p, true;
      }
      p := new Blk(stack[|stack| - 1]);
      stack := stack[..|stack| - 1];
      return p, false;
    }

    method Push(p: Blk)
      requires Valid() && Entry(p.data)
      modifies `stack
      ensures Valid() && stack == old(stack) + [p.data]
    {
      stack := stack + [p.data];
    }

    /** Takes the scale off. */
    method Unscale(p: Blk) returns (sk: nat)
      requires Entry(p.data)
      modifies p
      ensures p.data == old(p.data[..|p.data| - 1]) && sk == old(Scale(p.data)) <= MAXSCALE && Number(p.data)
    {
      sk := p.Sunputc();
    }

    /** Pops two numbers and gives them the larger of their scales; fails when there are not two. */
    method Eqk() returns (failed: bool)
      requires Valid()
      modifies `stack, `savk, `arg1, `arg2
      ensures Valid() && (failed <==> |old(stack)| < 2)
      ensures failed ==> stack == old(stack)
      ensures !failed ==> stack == old(stack)[..|old(stack)| - 2] && fresh(arg1) && fresh(arg2) && arg1 != arg2
      ensures !failed ==>
        var p, q := old(stack)[|old(stack)| - 1], old(stack)[|old(stack)| - 2];
        && Entry(p) && Entry(q) && savk == Larger(Scale(p), Scale(q))
        && Number(arg1.data) && Value(arg1.data) == Pow(10, savk - Scale(p)) * Value(p[..|p| - 1])
        && Number(arg2.data) && Value(arg2.data) == Pow(10, savk - Scale(q)) * Value(q[..|q| - 1])
    {
      hide Number, Val;
      var p, e := Pop();
      if e {
        return true;
      }
      var q;
      q, e := Pop();
      if e {
        Push(p);
        return true;
      }
      var skp := Unscale(p);
      var skq := Unscale(q);
      if skp == skq {
        savk := skp;
      } else if skp < skq {
        savk := skq;
        p := Add0(p, skq - skp);
      } else {
        savk := skp;
        q := Add0(q, skp - skq);
      }
      arg1, arg2 := p, q;
      return false;
    }

    /** '+' */
    method Plus() returns (failed: bool)
      requires Valid()
      modifies `stack, `savk, `arg1, `arg2
      ensures Valid() && (failed <==> |old(stack)| < 2)
      ensures failed ==> stack == old(stack)
      ensures !failed ==>
        var p, q := old(stack)[|old(stack)| - 1], old(stack)[|old(stack)| - 2];
        && Entry(p) && Entry(q) && |stack| == |old(stack)| - 1 && stack[..|stack| - 1] == old(stack)[..|stack| - 1]
        && Entry(stack[|stack| - 1]) && Scale(stack[|stack| - 1]) == Larger(Scale(p), Scale(q))
        && Amount(stack[|stack| - 1]) == Amount(p) + Amount(q) && Normal(Digits(stack[|stack| - 1]))
    {
      hide Number, Val, Amount;
      failed := Eqk();
      if !failed {
        ghost var p, q := old(stack)[|old(stack)| - 1], old(stack)[|old(stack)| - 2];
        var r := Add(arg1, arg2);
        ghost var v := r.data;
        r.Sputc(savk);
        assert r.data[..|r.data| - 1] == v;
        SumAmounts(p, q, r.data);
        Push(r);
        assert stack[..|stack| - 1] == old(stack)[..|stack| - 1];
      }
    }

    /** '-': changes the sign of the top and adds. A single number is left with its sign changed. */
    method Subt() returns (failed: bool)
      requires Valid()
      modifies `stack, `savk, `arg1, `arg2
      ensures Valid() && (failed <==> |old(stack)| < 2)
      ensures |old(stack)| == 0 ==> stack == []
      ensures |old(stack)| == 1 ==>
        |stack| == 1 && Amount(stack[0]) == -Amount(old(stack)[0]) && Scale(stack[0]) == Scale(old(stack)[0])
      ensures |old(stack)| == 1 && Trimmed(Digits(old(stack)[0])) ==> Trimmed(Digits(stack[0]))
      ensures !failed ==>
        var p, q := old(stack)[|old(stack)| - 1], old(stack)[|old(stack)| - 2];
        && Entry(p) && Entry(q) && |stack| == |old(stack)| - 1 && stack[..|stack| - 1] == old(stack)[..|stack| - 1]
        && Entry(stack[|stack| - 1]) && Scale(stack[|stack| - 1]) == Larger(Scale(p), Scale(q))
        && Amount(stack[|stack| - 1]) == Amount(q) - Amount(p) && Normal(Digits(stack[|stack| - 1]))
    {
      hide Number, Val, Amount;
      var p, e := Pop();
      if e {
        return true;
      }
      ghost var was := p.data;
      savk := Unscale(p);
      Chsign(p);
      ghost var v := p.data;
      p.Sputc(savk);
      assert p.data[..|p.data| - 1] == v;
      NegAmount(was, p.data);
      Push(p);
      failed := Plus();
    }

    /** The commands < > = and their negations: pops two numbers, and runs the register named next if the top one has
      * that relation to the one below it. */
    method Cond(c: Relation) returns (failed: bool, runs: bool)
      requires Valid()
      modifies `stack, `savk, `arg1, `arg2
      ensures Valid() && (failed <==> |old(stack)| < 2)
      ensures !failed ==>
        var p, q := old(stack)[|old(stack)| - 1], old(stack)[|old(stack)| - 2];
        && Entry(p) && Entry(q) && stack == old(stack)[..|old(stack)| - 2]
        && runs == Related(c, Amount(p), Amount(q))
    {
      hide Number, Val, Amount, Normal;
      failed := Subt();
      if failed {
        return true, false;
      }
      ghost var d := stack[|stack| - 1];
      SignOfAmount(d);
      var p, _ := Pop();
      var _ := Unscale(p);
      assert p.data == Digits(d);
      if p.data == [] {
        return false, !(c == Less || c == Greater || c == NotEqual);
      }
      if c == Equal {
        return false, false;
      }
      if c == NotEqual {
        return false, true;
      }
      p.Fsfile();
      var cc := p.Sbackc();
      runs := !((cc < 0 && (c == Less || c == NotGreater)) || (cc > 0 && (c == Greater || c == NotLess)));
    }
  }

  lemma SumAmounts(p: seq<int>, q: seq<int>, r: seq<int>)
    requires Entry(p) && Entry(q) && Entry(r) && Scale(r) == Larger(Scale(p), Scale(q))
    requires Value(r[..|r| - 1]) ==
             Pow(10, Scale(r) - Scale(p)) * Value(p[..|p| - 1]) + Pow(10, Scale(r) - Scale(q)) * Value(q[..|q| - 1])
    ensures Amount(r) == Amount(p) + Amount(q)
  {
    hide Val, Number;
    var s := Scale(r);
    var vp, vq := Value(p[..|p| - 1]), Value(q[..|q| - 1]);
    Rescaled(vp, Scale(p), s - Scale(p));
    Rescaled(vq, Scale(q), s - Scale(q));
    Sum((Pow(10, s - Scale(p)) * vp) as real, (Pow(10, s - Scale(q)) * vq) as real, Pow(10, s) as real);
  }

  lemma NegAmount(p: seq<int>, r: seq<int>)
    requires Entry(p) && Entry(r) && Scale(p) == Scale(r) && Value(r[..|r| - 1]) == -Value(p[..|p| - 1])
    ensures Amount(r) == -Amount(p)
  {
    PowPositive(10, Scale(p));
    Opposite(Value(p[..|p| - 1]) as real, Pow(10, Scale(p)) as real);
  }

  lemma Opposite(x: real, d: real)
    requires d != 0.0
    ensures (-x) / d == -(x / d)
  {
  }
}
