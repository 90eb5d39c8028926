/** The three-way quicksort of sort. */
module SortQuick {
  import opened SortOrder
  import Bits

  /**
   Of s[lo..hi] the part up to i comes before x, the part from lp through hp is equal to x and the part
   after j comes after it.
   */
  ghost predicate Parted<T>(compare: (T, T) -> int, s: seq<T>, lo: int, i: int, lp: int, hp: int, j: int, hi: int,
                            x: T) {
    && 0 <= lo <= i <= lp <= hp <= j < hi <= |s|
    && (forall k :: lo <= k < i ==> compare(s[k], x) < 0)
    && (forall k :: lp <= k <= hp ==> compare(s[k], x) == 0)
    && forall k :: j < k < hi ==> compare(s[k], x) > 0
  }

  method Exchange<T>(a: array<T>, i: int, j: int)
    requires 0 <= i < a.Length && 0 <= j < a.Length
    modifies a
    ensures a[..] == Swapped(old(a[..]), i, j)
  {
    ghost var s := Swapped(a[..], i, j);
    a[i], a[j] := a[j], a[i];
    assert a[..] == s;
  }

  /** p gets what is at r, r what is at q, and q what was at p. */
  function Rotated<T>(s: seq<T>, p: int, q: int, r: int): seq<T>
    requires 0 <= p < |s| && 0 <= q < |s| && 0 <= r < |s|
  {
    Swapped(Swapped(s, p, r), r, q)
  }

  method Rotate<T>(a: array<T>, p: int, q: int, r: int)
    requires 0 <= p < a.Length && 0 <= q < a.Length && 0 <= r < a.Length && p != q
    modifies a
    ensures a[..] == Rotated(old(a[..]), p, q, r)
  {
    ghost var s := Rotated(a[..], p, q, r);
    var t := a[p];
    a[p] := a[r];
    a[r] := a[q];
    a[q] := t;
    assert a[..] == s;
  }

  lemma RotatePerm<T>(s: seq<T>, p: int, q: int, r: int, lo: int, hi: int)
    requires 0 <= lo <= p < hi <= |s| && lo <= q < hi && lo <= r < hi
    ensures Perm(s, Rotated(s, p, q, r), lo, hi)
  {
    SwapPerm(s, p, r, lo, hi);
    SwapPerm(Swapped(s, p, r), r, q, lo, hi);
    PermTrans(s, Swapped(s, p, r), Rotated(s, p, q, r), lo, hi);
  }

  lemma SwapAgain<T>(s0: seq<T>, s: seq<T>, i: int, j: int, lo: int, hi: int)
    requires Perm(s0, s, lo, hi) && lo <= i < hi && lo <= j < hi
    ensures Perm(s0, Swapped(s, i, j), lo, hi)
  {
    SwapPerm(s, i, j, lo, hi);
    PermTrans(s0, s, Swapped(s, i, j), lo, hi);
  }

  lemma RotateAgain<T>(s0: seq<T>, s: seq<T>, p: int, q: int, r: int, lo: int, hi: int)
    requires Perm(s0, s, lo, hi) && lo <= p < hi && lo <= q < hi && lo <= r < hi
    ensures Perm(s0, Rotated(s, p, q, r), lo, hi)
  {
    RotatePerm(s, p, q, r, lo, hi);
    PermTrans(s0, s, Rotated(s, p, q, r), lo, hi);
  }

  /** The element at i is on the wrong side, if the left part is not done. */
  ghost predicate Astray<T>(compare: (T, T) -> int, s: seq<T>, i: int, lp: int, x: T) {
    0 <= i <= lp <= |s| && (i < lp ==> compare(s[i], x) > 0)
  }

  /** Steps of the partition, on values. The pivot stays the same throughout. */
  lemma Bounds<T>(compare: (T, T) -> int, s: seq<T>, lo: int, i: int, lp: int, hp: int, j: int, hi: int, x: T)
    requires Parted(compare, s, lo, i, lp, hp, j, hi, x)
    ensures 0 <= lo <= i <= lp <= hp <= j < hi <= |s|
    ensures compare(s[lp], x) == 0 && compare(s[hp], x) == 0
  {
  }

  lemma LeftBefore<T>(compare: (T, T) -> int, s: seq<T>, lo: int, i: int, lp: int, hp: int, j: int, hi: int, x: T)
    requires Parted(compare, s, lo, i, lp, hp, j, hi, x) && i < lp && compare(s[i], x) < 0
    ensures Parted(compare, s, lo, i + 1, lp, hp, j, hi, x)
  {
  }

  lemma RightAfter<T>(compare: (T, T) -> int, s: seq<T>, lo: int, i: int, lp: int, hp: int, j: int, hi: int, x: T)
    requires Parted(compare, s, lo, i, lp, hp, j, hi, x) && hp < j && compare(s[j], x) > 0
    ensures Parted(compare, s, lo, i, lp, hp, j - 1, hi, x)
  {
  }

  lemma LeftEqual<T>(compare: (T, T) -> int, s: seq<T>, lo: int, i: int, lp: int, hp: int, j: int, hi: int, x: T)
    requires Parted(compare, s, lo, i, lp, hp, j, hi, x) && i < lp && compare(s[i], x) == 0
    ensures Parted(compare, Swapped(s, i, lp - 1), lo, i, lp - 1, hp, j, hi, x)
  {
  }

  lemma RightEqual<T>(compare: (T, T) -> int, s: seq<T>, lo: int, i: int, lp: int, hp: int, j: int, hi: int, x: T)
    requires Parted(compare, s, lo, i, lp, hp, j, hi, x) && hp < j && compare(s[j], x) == 0
    requires Astray(compare, s, i, lp, x)
    ensures Parted(compare, Swapped(s, hp + 1, j), lo, i, lp, hp + 1, j, hi, x)
    ensures Astray(compare, Swapped(s, hp + 1, j), i, lp, x)
  {
  }

  lemma ShiftRight<T>(compare: (T, T) -> int, s: seq<T>, lo: int, i: int, hp: int, j: int, hi: int, x: T)
    requires Parted(compare, s, lo, i, i, hp, j, hi, x) && hp < j && compare(s[j], x) < 0
    ensures Parted(compare, Rotated(s, i, hp + 1, j), lo, i + 1, i + 1, hp + 1, j, hi, x)
    ensures Astray(compare, Rotated(s, i, hp + 1, j), i + 1, i + 1, x)
  {
  }

  lemma CrossOver<T>(compare: (T, T) -> int, s: seq<T>, lo: int, i: int, lp: int, hp: int, j: int, hi: int, x: T)
    requires Parted(compare, s, lo, i, lp, hp, j, hi, x) && i < lp && hp < j && compare(s[j], x) < 0
    requires Astray(compare, s, i, lp, x)
    ensures Parted(compare, Swapped(s, i, j), lo, i + 1, lp, hp, j - 1, hi, x)
  {
  }

  lemma ShiftLeft<T>(compare: (T, T) -> int, s: seq<T>, lo: int, i: int, lp: int, hp: int, hi: int, x: T)
    requires Parted(compare, s, lo, i, lp, hp, hp, hi, x) && i < lp && Astray(compare, s, i, lp, x)
    ensures Parted(compare, Rotated(s, hp, lp - 1, i), lo, i, lp - 1, hp - 1, hp - 1, hi, x)
  {
  }

  /** The loop that follows the choice of the pivot. */
  method Partition<T(!new)>(compare: (T, T) -> int, a: array<T>, lo: int, i0: int, lp0: int, hp0: int, j0: int, hi: int,
                     ghost x: T)
    returns (lp: int, hp: int)
    requires Preorder(compare) && hi <= a.Length && Parted(compare, a[..], lo, i0, lp0, hp0, j0, hi, x)
    modifies a
    ensures Parted(compare, a[..], lo, lp, lp, hp, hp, hi, x) && Perm(old(a[..]), a[..], lo, hi)
  {
    hide Preorder, Perm, Parted, Swapped, Rotated;
    var i, j;
    i, lp, hp, j := i0, lp0, hp0, j0;
    ghost var s0 := a[..];
    Bounds(compare, s0, lo, i, lp, hp, j, hi, x);
    PermSame(s0, lo, hi);
    while true
      invariant Parted(compare, a[..], lo, i, lp, hp, j, hi, x) && Perm(s0, a[..], lo, hi)
      invariant i <= lp && hp <= j
      decreases (lp - i) + (j - hp)
    {
      ghost var s := a[..];
      Bounds(compare, s, lo, i, lp, hp, j, hi, x);
      if i < lp {
        var c := compare(a[i], a[lp]);
        Alike(compare, a[i], a[lp], x);
        if c == 0 {
          LeftEqual(compare, s, lo, i, lp, hp, j, hi, x);
          SwapAgain(s0, s, i, lp - 1, lo, hi);
          lp := lp - 1;
          Exchange(a, i, lp);
          continue;
        }
        if c < 0 {
          LeftBefore(compare, s, lo, i, lp, hp, j, hi, x);
          i := i + 1;
          continue;
        }
      }
      var crossed := false;
      i, lp, hp, j, crossed := RightSide(compare, a, lo, i, lp, hp, j, hi, x);
      PermTrans(s0, s, a[..], lo, hi);
      if crossed {
        continue;
      }
      if i == lp {
        break;
      }
      s := a[..];
      Bounds(compare, s, lo, i, lp, hp, j, hi, x);
      ShiftLeft(compare, s, lo, i, lp, hp, hi, x);
      RotateAgain(s0, s, hp, lp - 1, i, lo, hi);
      lp := lp - 1;
      Rotate(a, j, lp, i);
      hp := hp - 1;
      j := hp;
    }
  }

  lemma PermSame<T>(s: seq<T>, lo: int, hi: int)
    requires 0 <= lo <= hi <= |s|
    ensures Perm(s, s, lo, hi)
  {
  }

  /** Takes in elements from the right until none is left there or one has changed sides with that at i. */
  method RightSide<T(!new)>(compare: (T, T) -> int, a: array<T>, lo: int, i0: int, lp0: int, hp0: int, j0: int, hi: int,
                     ghost x: T)
    returns (i: int, lp: int, hp: int, j: int, crossed: bool)
    requires Preorder(compare) && hi <= a.Length && Parted(compare, a[..], lo, i0, lp0, hp0, j0, hi, x)
    requires Astray(compare, a[..], i0, lp0, x)
    modifies a
    ensures 0 <= i <= lp <= hp <= j < a.Length
    ensures Parted(compare, a[..], lo, i, lp, hp, j, hi, x) && Perm(old(a[..]), a[..], lo, hi)
    ensures (lp - i) + (j - hp) <= (lp0 - i0) + (j0 - hp0)
    ensures crossed ==> (lp - i) + (j - hp) < (lp0 - i0) + (j0 - hp0)
    ensures !crossed ==> j == hp && Astray(compare, a[..], i, lp, x)
  {
    hide Preorder, Perm, Parted, Swapped, Rotated, Astray;
    i, lp, hp, j, crossed := i0, lp0, hp0, j0, false;
    ghost var s0 := a[..];
    Bounds(compare, s0, lo, i, lp, hp, j, hi, x);
    PermSame(s0, lo, hi);
    while j > hp
      invariant Parted(compare, a[..], lo, i, lp, hp, j, hi, x) && Perm(s0, a[..], lo, hi)
      invariant 0 <= i <= lp <= hp <= j < a.Length
      invariant Astray(compare, a[..], i, lp, x)
      invariant lp - i == lp0 - i0 && j - hp <= j0 - hp0 && !crossed
      decreases j - hp
    {
      ghost var s := a[..];
      Bounds(compare, s, lo, i, lp, hp, j, hi, x);
      var c := compare(a[hp], a[j]);
      Alike(compare, a[j], a[hp], x);
      if c == 0 {
        RightEqual(compare, s, lo, i, lp, hp, j, hi, x);
        SwapAgain(s0, s, hp + 1, j, lo, hi);
        hp := hp + 1;
        Exchange(a, hp, j);
      } else if c > 0 {
        if i == lp {
          ShiftRight(compare, s, lo, i, hp, j, hi, x);
          RotateAgain(s0, s, i, hp + 1, j, lo, hi);
          hp := hp + 1;
          Rotate(a, i, hp, j);
          lp := lp + 1;
          i := lp;
        } else {
          CrossOver(compare, s, lo, i, lp, hp, j, hi, x);
          SwapAgain(s0, s, i, j, lo, hi);
          Exchange(a, i, j);
          j := j - 1;
          i := i + 1;
          crossed := true;
          return;
        }
      } else {
        RightAfter(compare, s, lo, i, lp, hp, j, hi, x);
        j := j - 1;
      }
    }
  }

  // ----- The choice of the pivot: the middle one of the first, the middle and the last element -----

  ghost predicate Three<T>(s: seq<T>, lo: int, mid: int, hi: int) {
    0 <= lo < mid < hi - 1 && hi <= |s|
  }

  lemma Itself<T(!new)>(compare: (T, T) -> int, x: T)
    requires Preorder(compare)
    ensures compare(x, x) == 0
  {
  }

  // The arrangements of the three, named as in the program, with s[mid] as x unless stated otherwise.

  lemma AllEqual<T>(compare: (T, T) -> int, s: seq<T>, lo: int, mid: int, hi: int, x: T)
    requires Three(s, lo, mid, hi) && compare(s[lo], x) == 0 && compare(s[mid], x) == 0 && compare(s[hi - 1], x) == 0
    ensures Parted(compare, Swapped(Swapped(s, lo, mid - 1), mid + 1, hi - 1), lo, lo, mid - 1, mid + 1, hi - 1, hi, x)
  {
  }

  lemma LastLow<T>(compare: (T, T) -> int, s: seq<T>, lo: int, mid: int, hi: int, x: T)
    requires Three(s, lo, mid, hi) && compare(s[lo], x) == 0 && compare(s[mid], x) == 0 && compare(s[hi - 1], x) < 0
    ensures Parted(compare, Swapped(Swapped(s, lo, hi - 1), mid + 1, hi - 1), lo, lo + 1, mid, mid + 1, hi - 1, hi, x)
  {
  }

  lemma LastHigh<T>(compare: (T, T) -> int, s: seq<T>, lo: int, mid: int, hi: int, x: T)
    requires Three(s, lo, mid, hi) && compare(s[lo], x) == 0 && compare(s[mid], x) == 0 && compare(s[hi - 1], x) > 0
    ensures Parted(compare, Swapped(s, lo, mid - 1), lo, lo, mid - 1, mid, hi - 2, hi, x)
  {
  }

  lemma FirstLow<T>(compare: (T, T) -> int, s: seq<T>, lo: int, mid: int, hi: int, x: T)
    requires Three(s, lo, mid, hi) && compare(s[lo], x) < 0 && compare(s[mid], x) == 0 && compare(s[hi - 1], x) == 0
    ensures Parted(compare, Swapped(s, mid + 1, hi - 1), lo, lo + 1, mid, mid + 1, hi - 1, hi, x)
  {
  }

  lemma FirstHigh<T>(compare: (T, T) -> int, s: seq<T>, lo: int, mid: int, hi: int, x: T)
    requires Three(s, lo, mid, hi) && compare(s[lo], x) > 0 && compare(s[mid], x) == 0 && compare(s[hi - 1], x) == 0
    ensures Parted(compare, Swapped(Swapped(s, lo, hi - 1), lo, mid - 1), lo, lo, mid - 1, mid, hi - 2, hi, x)
  {
  }

  /** The ends are on the right sides. */
  lemma EndsRight<T>(compare: (T, T) -> int, s: seq<T>, lo: int, mid: int, hi: int, x: T)
    requires Three(s, lo, mid, hi) && compare(s[lo], x) < 0 && compare(s[mid], x) == 0 && compare(s[hi - 1], x) > 0
    ensures Parted(compare, s, lo, lo + 1, mid, mid, hi - 2, hi, x)
  {
  }

  /** What the three are after two of them changed places. */
  lemma ThreeAfter<T>(s: seq<T>, lo: int, mid: int, hi: int, i: int, j: int)
    requires Three(s, lo, mid, hi) && lo <= i < hi && lo <= j < hi
    ensures var t := Swapped(s, i, j);
      && Three(t, lo, mid, hi)
      && t[lo] == (if lo == j then s[i] else if lo == i then s[j] else s[lo])
      && t[mid] == (if mid == j then s[i] else if mid == i then s[j] else s[mid])
      && t[hi - 1] == (if hi - 1 == j then s[i] else if hi - 1 == i then s[j] else s[hi - 1])
  {
  }

  method Setup<T(!new)>(compare: (T, T) -> int, a: array<T>, lo: int, hi: int)
    returns (i: int, lp: int, hp: int, j: int, ghost x: T)
    requires Preorder(compare) && 0 <= lo && lo + 3 <= hi <= a.Length
    modifies a
    ensures Parted(compare, a[..], lo, i, lp, hp, j, hi, x) && Perm(old(a[..]), a[..], lo, hi)
  {
    hide Preorder, Perm, Parted, Swapped;
    var mid := lo + (hi - lo) / 2;
    var c := compare(a[lo], a[mid]);
    var d := compare(a[mid], a[hi - 1]);
    if c == 0 {
      i, lp, hp, j, x := SetupLeft(compare, a, lo, mid, hi);
    } else if d == 0 {
      i, lp, hp, j, x := SetupRight(compare, a, lo, mid, hi);
    } else if c > 0 {
      i, lp, hp, j, x := SetupHigh(compare, a, lo, mid, hi);
    } else {
      i, lp, hp, j, x := SetupLow(compare, a, lo, mid, hi);
    }
  }

  /** The first is equal to the middle one. */
  method SetupLeft<T(!new)>(compare: (T, T) -> int, a: array<T>, lo: int, mid: int, hi: int)
    returns (i: int, lp: int, hp: int, j: int, ghost x: T)
    requires Preorder(compare) && Three(a[..], lo, mid, hi) && compare(a[lo], a[mid]) == 0
    modifies a
    ensures Parted(compare, a[..], lo, i, lp, hp, j, hi, x) && Perm(old(a[..]), a[..], lo, hi)
  {
    hide Preorder, Perm, Parted, Swapped;
    x := a[mid];
    i, lp, hp, j := lo, mid, mid, hi - 1;
    ghost var s := a[..];
    PermSame(s, lo, hi);
    Itself(compare, x);
    Flip(compare, a[j], x);
    var d := compare(a[lp], a[j]);
    if d == 0 {
      AllEqual(compare, s, lo, mid, hi, x);
      lp := lp - 1;
      SwapAgain(s, s, i, lp, lo, hi);
      Exchange(a, i, lp);
      hp := hp + 1;
      SwapAgain(s, a[..], hp, j, lo, hi);
      Exchange(a, hp, j);
    } else if d > 0 {
      LastLow(compare, s, lo, mid, hi, x);
      SwapAgain(s, s, i, j, lo, hi);
      Exchange(a, i, j);
      i := i + 1;
      hp := hp + 1;
      SwapAgain(s, a[..], hp, j, lo, hi);
      Exchange(a, hp, j);
    } else {
      LastHigh(compare, s, lo, mid, hi, x);
      j := j - 1;
      lp := lp - 1;
      SwapAgain(s, s, i, lp, lo, hi);
      Exchange(a, i, lp);
    }
  }

  /** The last is equal to the middle one, the first is not. */
  method SetupRight<T(!new)>(compare: (T, T) -> int, a: array<T>, lo: int, mid: int, hi: int)
    returns (i: int, lp: int, hp: int, j: int, ghost x: T)
    requires Preorder(compare) && Three(a[..], lo, mid, hi) && compare(a[lo], a[mid]) != 0
    requires compare(a[mid], a[hi - 1]) == 0
    modifies a
    ensures Parted(compare, a[..], lo, i, lp, hp, j, hi, x) && Perm(old(a[..]), a[..], lo, hi)
  {
    hide Preorder, Perm, Parted, Swapped;
    x := a[mid];
    i, lp, hp, j := lo, mid, mid, hi - 1;
    ghost var s := a[..];
    PermSame(s, lo, hi);
    Itself(compare, x);
    Flip(compare, x, a[j]);
    if compare(a[i], a[lp]) < 0 {
      FirstLow(compare, s, lo, mid, hi, x);
      i := i + 1;
      hp := hp + 1;
      SwapAgain(s, s, hp, j, lo, hi);
      Exchange(a, hp, j);
    } else {
      FirstHigh(compare, s, lo, mid, hi, x);
      SwapAgain(s, s, i, j, lo, hi);
      Exchange(a, i, j);
      j := j - 1;
      lp := lp - 1;
      SwapAgain(s, a[..], i, lp, lo, hi);
      Exchange(a, i, lp);
    }
  }

  /** The first comes after the middle one. */
  method SetupHigh<T(!new)>(compare: (T, T) -> int, a: array<T>, lo: int, mid: int, hi: int)
    returns (i: int, lp: int, hp: int, j: int, ghost x: T)
    requires Preorder(compare) && Three(a[..], lo, mid, hi) && compare(a[lo], a[mid]) > 0
    requires compare(a[mid], a[hi - 1]) != 0
    modifies a
    ensures Parted(compare, a[..], lo, i, lp, hp, j, hi, x) && Perm(old(a[..]), a[..], lo, hi)
  {
    hide Preorder, Perm, Parted, Swapped;
    i, lp, hp, j := lo, mid, mid, hi - 1;
    ghost var s := a[..];
    PermSame(s, lo, hi);
    Itself(compare, a[mid]);
    Itself(compare, a[lo]);
    Itself(compare, a[hi - 1]);
    Flip(compare, a[lo], a[mid]);
    Flip(compare, a[mid], a[hi - 1]);
    Flip(compare, a[lo], a[hi - 1]);
    if compare(a[lp], a[j]) > 0 {
      x := a[mid];
      SwapAgain(s, s, i, j, lo, hi);
      ThreeAfter(s, lo, mid, hi, i, j);
      Exchange(a, i, j);
      EndsRight(compare, a[..], lo, mid, hi, x);
      i := i + 1;
      j := j - 1;
    } else {
      SwapAgain(s, s, i, lp, lo, hi);
      ThreeAfter(s, lo, mid, hi, i, lp);
      Exchange(a, i, lp);
      i := i + 1;
      var c := compare(a[lp], a[j]);
      if c != 0 {
        if c > 0 {
          SwapAgain(s, a[..], lp, j, lo, hi);
          ThreeAfter(a[..], lo, mid, hi, lp, j);
          Exchange(a, lp, j);
        }
        x := a[lp];
        EndsRight(compare, a[..], lo, mid, hi, x);
        j := j - 1;
      } else {
        x := a[lp];
        FirstLow(compare, a[..], lo, mid, hi, x);
        hp := hp + 1;
        SwapAgain(s, a[..], hp, j, lo, hi);
        ThreeAfter(a[..], lo, mid, hi, hp, j);
        Exchange(a, hp, j);
      }
    }
  }

  /** The first comes before the middle one. */
  method SetupLow<T(!new)>(compare: (T, T) -> int, a: array<T>, lo: int, mid: int, hi: int)
    returns (i: int, lp: int, hp: int, j: int, ghost x: T)
    requires Preorder(compare) && Three(a[..], lo, mid, hi) && compare(a[lo], a[mid]) < 0
    requires compare(a[mid], a[hi - 1]) != 0
    modifies a
    ensures Parted(compare, a[..], lo, i, lp, hp, j, hi, x) && Perm(old(a[..]), a[..], lo, hi)
  {
    hide Preorder, Perm, Parted, Swapped;
    i, lp, hp, j := lo, mid, mid, hi - 1;
    ghost var s := a[..];
    PermSame(s, lo, hi);
    Itself(compare, a[mid]);
    Itself(compare, a[lo]);
    Itself(compare, a[hi - 1]);
    Flip(compare, a[lo], a[mid]);
    Flip(compare, a[mid], a[hi - 1]);
    Flip(compare, a[lo], a[hi - 1]);
    if compare(a[lp], a[j]) > 0 {
      SwapAgain(s, s, lp, j, lo, hi);
      ThreeAfter(s, lo, mid, hi, lp, j);
      Exchange(a, lp, j);
      j := j - 1;
      var c := compare(a[i], a[lp]);
      if c != 0 {
        if c > 0 {
          SwapAgain(s, a[..], i, lp, lo, hi);
          ThreeAfter(a[..], lo, mid, hi, i, lp);
          Exchange(a, i, lp);
        }
        x := a[lp];
        EndsRight(compare, a[..], lo, mid, hi, x);
        i := i + 1;
      } else {
        x := a[lp];
        LastHigh(compare, a[..], lo, mid, hi, x);
        lp := lp - 1;
        SwapAgain(s, a[..], i, lp, lo, hi);
        ThreeAfter(a[..], lo, mid, hi, i, lp);
        Exchange(a, i, lp);
      }
    } else {
      x := a[mid];
      EndsRight(compare, s, lo, mid, hi, x);
      i := i + 1;
      j := j - 1;
    }
  }

  // ----- Sorting -----

  /** Of s[lo0..hi0] all is in order but for what may be wrong within lo..hi. */
  ghost predicate SortedOutside<T>(compare: (T, T) -> int, s: seq<T>, lo0: int, lo: int, hi: int, hi0: int) {
    && 0 <= lo0 <= lo <= hi <= hi0 <= |s|
    && forall p, q :: lo0 <= p < q < hi0 && (p < lo || q >= hi) ==> compare(s[p], s[q]) <= 0
  }

  lemma OutsidePerm<T>(compare: (T, T) -> int, s: seq<T>, t: seq<T>, lo0: int, lo: int, hi: int, hi0: int)
    requires SortedOutside(compare, s, lo0, lo, hi, hi0) && Perm(s, t, lo, hi)
    ensures SortedOutside(compare, t, lo0, lo, hi, hi0)
  {
    forall p, q | lo0 <= p < q < hi0 && (p < lo || q >= hi) ensures compare(t[p], t[q]) <= 0 {
      var p', q' := p, q;
      if lo <= p < hi {
        p' := PermFrom(s, t, lo, hi, p);
      }
      if lo <= q < hi {
        q' := PermFrom(s, t, lo, hi, q);
      }
      assert compare(s[p'], s[q']) <= 0;
    }
  }

  /** A part of a partition is still on its side after it was rearranged. */
  lemma PartedPerm<T>(compare: (T, T) -> int, s: seq<T>, t: seq<T>, lo: int, lp: int, hp: int, hi: int, x: T, b: int,
                      e: int)
    requires Parted(compare, s, lo, lp, lp, hp, hp, hi, x) && Perm(s, t, b, e)
    requires ((b == lo && e == lp) || (b == hp + 1 && e == hi))
    ensures Parted(compare, t, lo, lp, lp, hp, hp, hi, x)
  {
    forall k | lo <= k < hi
      ensures (k < lp ==> compare(t[k], x) < 0) && (lp <= k <= hp ==> compare(t[k], x) == 0)
      ensures (k > hp ==> compare(t[k], x) > 0)
    {
      if b <= k < e {
        var m := PermFrom(s, t, b, e, k);
      }
    }
  }

  /** With the right part in order only the left part is left. */
  lemma RightDone<T(!new)>(compare: (T, T) -> int, s: seq<T>, lo0: int, lo: int, lp: int, hp: int, hi: int, hi0: int,
                    x: T)
    requires Preorder(compare) && Parted(compare, s, lo, lp, lp, hp, hp, hi, x)
    requires SortedOutside(compare, s, lo0, lo, hi, hi0)
    requires Sorted(compare, s, hp + 1, hi)
    ensures SortedOutside(compare, s, lo0, lo, lp, hi0)
  {
    hide Preorder;
    forall p, q | lo0 <= p < q < hi0 && (p < lo || q >= lp) ensures compare(s[p], s[q]) <= 0 {
      if lo <= p && q < hi && p <= hp {
        Flip(compare, s[q], x);
        Trans(compare, s[p], x, s[q]);
      }
    }
  }

  lemma LeftDone<T(!new)>(compare: (T, T) -> int, s: seq<T>, lo0: int, lo: int, lp: int, hp: int, hi: int, hi0: int,
                   x: T)
    requires Preorder(compare) && Parted(compare, s, lo, lp, lp, hp, hp, hi, x)
    requires SortedOutside(compare, s, lo0, lo, hi, hi0)
    requires Sorted(compare, s, lo, lp)
    ensures SortedOutside(compare, s, lo0, hp + 1, hi, hi0)
  {
    hide Preorder;
    forall p, q | lo0 <= p < q < hi0 && (p < hp + 1 || q >= hi) ensures compare(s[p], s[q]) <= 0 {
      if lo <= p && q < hi && q >= lp {
        Flip(compare, s[q], x);
        Trans(compare, s[p], x, s[q]);
      }
    }
  }

  function Max(a: nat, b: nat): nat {
    if a >= b then a else b
  }

  /** How deep calls may nest on n elements: 2 to that power is at most n. */
  ghost predicate Shallow(depth: nat, n: int) {
    depth == 0 || Bits.Pow2(depth) <= n
  }

  lemma Deeper(d: nat, m: int, n: int)
    requires Shallow(d, m) && 0 <= m && 2 * m < n && n >= 3
    ensures Shallow(d + 1, n)
  {
    assert Bits.Pow2(d + 1) == 2 * Bits.Pow2(d);
  }

  /** One round: the larger part is left for the next one. */
  method Round<T(!new)>(compare: (T, T) -> int, a: array<T>, lo0: int, lo: int, hi: int, hi0: int)
    returns (lo': int, hi': int, depth: nat)
    requires Preorder(compare) && hi0 <= a.Length && SortedOutside(compare, a[..], lo0, lo, hi, hi0) && lo + 3 <= hi
    modifies a
    ensures lo <= lo' <= hi' <= hi && hi' - lo' < hi - lo
    ensures SortedOutside(compare, a[..], lo0, lo', hi', hi0) && Perm(old(a[..]), a[..], lo, hi)
    ensures Shallow(depth, hi - lo)
    decreases hi - lo, 0
  {
    hide Preorder, Perm, Parted, Sorted, SortedOutside, Shallow;
    ghost var s0 := a[..];
    OutsideBounds(compare, s0, lo0, lo, hi, hi0);
    var i, lp, hp, j;
    ghost var x;
    i, lp, hp, j, x := Setup(compare, a, lo, hi);
    ghost var s1 := a[..];
    lp, hp := Partition(compare, a, lo, i, lp, hp, j, hi, x);
    ghost var s2 := a[..];
    PermTrans(s0, s1, s2, lo, hi);
    OutsidePerm(compare, s0, s2, lo0, lo, hi, hi0);
    Bounds(compare, s2, lo, lp, lp, hp, hp, hi, x);
    if lp - lo >= hi - hp {
      depth := Qsort(compare, a, hp + 1, hi);
      Deeper(depth, hi - hp - 1, hi - lo);
      PermWider(s2, a[..], hp + 1, hi, lo, hi);
      PartedPerm(compare, s2, a[..], lo, lp, hp, hi, x, hp + 1, hi);
      OutsidePerm(compare, s2, a[..], lo0, lo, hi, hi0);
      RightDone(compare, a[..], lo0, lo, lp, hp, hi, hi0, x);
      lo', hi' := lo, lp;
    } else {
      depth := Qsort(compare, a, lo, lp);
      Deeper(depth, lp - lo, hi - lo);
      PermWider(s2, a[..], lo, lp, lo, hi);
      PartedPerm(compare, s2, a[..], lo, lp, hp, hi, x, lo, lp);
      OutsidePerm(compare, s2, a[..], lo0, lo, hi, hi0);
      LeftDone(compare, a[..], lo0, lo, lp, hp, hi, hi0, x);
      lo', hi' := hp + 1, hi;
    }
    PermTrans(s0, s2, a[..], lo, hi);
    depth := depth + 1;
  }

  lemma OutsideBounds<T>(compare: (T, T) -> int, s: seq<T>, lo0: int, lo: int, hi: int, hi0: int)
    requires SortedOutside(compare, s, lo0, lo, hi, hi0)
    ensures 0 <= lo0 <= lo <= hi <= hi0 <= |s|
  {
  }

  /** Sorts a[lo0..hi0] in place; depth is how many calls were nested below this one. */
  method Qsort<T(!new)>(compare: (T, T) -> int, a: array<T>, lo0: int, hi0: int) returns (depth: nat)
    requires Preorder(compare) && 0 <= lo0 <= hi0 <= a.Length
    modifies a
    ensures Sorted(compare, a[..], lo0, hi0) && Perm(old(a[..]), a[..], lo0, hi0)
    ensures Shallow(depth, hi0 - lo0)
    decreases hi0 - lo0, 1
  {
    hide Preorder, Perm, Shallow, SortedOutside, Sorted, Swapped;
    var lo, hi := lo0, hi0;
    depth := 0;
    ghost var s0 := a[..];
    OutsideNone(compare, s0, lo0, hi0);
    PermSame(s0, lo0, hi0);
    NotDeep(hi0 - lo0);
    while hi - lo > 2
      invariant SortedOutside(compare, a[..], lo0, lo, hi, hi0) && Perm(s0, a[..], lo0, hi0)
      invariant Shallow(depth, hi0 - lo0)
      decreases hi - lo
    {
      ghost var s := a[..];
      OutsideBounds(compare, s, lo0, lo, hi, hi0);
      var d;
      ghost var lo1, hi1 := lo, hi;
      lo, hi, d := Round(compare, a, lo0, lo, hi, hi0);
      PermWider(s, a[..], lo1, hi1, lo0, hi0);
      PermTrans(s0, s, a[..], lo0, hi0);
      ShallowMore(d, hi1 - lo1, hi0 - lo0);
      depth := Max(depth, d);
    }
    ghost var s := a[..];
    OutsideBounds(compare, s, lo0, lo, hi, hi0);
    if hi - lo == 2 {
      if compare(a[lo], a[lo + 1]) > 0 {
        Pair(compare, s, lo0, lo, hi0);
        SwapAgain(s0, s, lo, lo + 1, lo0, hi0);
        Exchange(a, lo, lo + 1);
      }
    }
    OutsideAll(compare, a[..], lo0, lo, hi, hi0);
  }

  lemma OutsideNone<T>(compare: (T, T) -> int, s: seq<T>, lo: int, hi: int)
    requires 0 <= lo <= hi <= |s|
    ensures SortedOutside(compare, s, lo, lo, hi, hi)
  {
  }

  lemma OutsideAll<T>(compare: (T, T) -> int, s: seq<T>, lo0: int, lo: int, hi: int, hi0: int)
    requires SortedOutside(compare, s, lo0, lo, hi, hi0) && hi - lo <= 2
    requires (hi - lo == 2 ==> compare(s[lo], s[lo + 1]) <= 0)
    ensures Sorted(compare, s, lo0, hi0)
  {
  }

  lemma Pair<T(!new)>(compare: (T, T) -> int, s: seq<T>, lo0: int, lo: int, hi0: int)
    requires Preorder(compare) && SortedOutside(compare, s, lo0, lo, lo + 2, hi0) && compare(s[lo], s[lo + 1]) > 0
    ensures SortedOutside(compare, Swapped(s, lo, lo + 1), lo0, lo, lo + 2, hi0)
    ensures compare(Swapped(s, lo, lo + 1)[lo], Swapped(s, lo, lo + 1)[lo + 1]) <= 0
  {
    Flip(compare, s[lo], s[lo + 1]);
    SwapPerm(s, lo, lo + 1, lo, lo + 2);
    OutsidePerm(compare, s, Swapped(s, lo, lo + 1), lo0, lo, lo + 2, hi0);
  }

  lemma NotDeep(n: int)
    ensures Shallow(0, n)
  {
  }

  lemma ShallowMore(d: nat, m: int, n: int)
    requires Shallow(d, m) && m <= n
    ensures Shallow(d, n)
  {
  }
}
