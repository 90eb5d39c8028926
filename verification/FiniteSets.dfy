/** Finite sets of integers. */
module FiniteSets {
  lemma NoMember(s: set<int>)
    requires forall x :: x !in s
    ensures s == {}
  {
    var none: set<int> := {};
    assert forall x | x in s :: x in none;
    assert s <= none;
  }

  lemma SomeMember(s: set<int>) returns (x: int)
    requires s != {}
    ensures x in s
  {
    if forall y :: y !in s {
      NoMember(s);
    }
    x :| x in s;
  }

  lemma {:induction false} SubsetSize(a: set<int>, b: set<int>)
    requires a <= b
    ensures |a| <= |b|
    ensures |a| == |b| ==> a == b
  {
    if b - a == {} {
      forall x | x in b ensures x in a {
        assert x in a || x in b - a;
      }
      assert b <= a && a == b;
    } else {
      var x := SomeMember(b - a);
      SubsetSize(a, b - {x});
    }
  }

  lemma NothingLeft(a: set<int>, b: set<int>)
    requires b - a == {}
    ensures |b| <= |a|
  {
    forall x | x in b ensures x in a {
      assert x in a || x in b - a;
    }
    SubsetSize(b, a);
  }

  /** The larger set has a member that the other has not. */
  lemma SomethingLeft(a: set<int>, b: set<int>) returns (x: int)
    requires |a| < |b|
    ensures x in b && x !in a
  {
    if b - a == {} {
      NothingLeft(a, b);
    }
    x := SomeMember(b - a);
  }

  /** A set of positions between 3 and n has fewer than n of them. */
  lemma {:induction false} RangeSize(s: set<int>, n: int)
    requires n >= 2 && forall x :: x in s ==> 3 <= x <= n
    ensures |s| <= n - 2
    decreases n
  {
    if n == 2 {
      NoMember(s);
    } else {
      RangeSize(s - {n}, n - 1);
      SubsetSize(s - {n}, s);
    }
  }

  function Interval(n: nat): (s: set<int>)
    ensures forall k :: k in s <==> 0 <= k < n
  {
    if n == 0 then {} else Interval(n - 1) + {n - 1}
  }

  lemma {:induction false} IntervalSize(n: nat)
    ensures |Interval(n)| == n
  {
    if n == 0 {
      NoMember(Interval(0));
    } else {
      IntervalSize(n - 1);
      assert Interval(n) == Interval(n - 1) + {n - 1};
    }
  }
}
