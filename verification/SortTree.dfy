/** The ordered row of current records from which sort merges. */
module SortTree {
  import opened SortOrder

  const TREEZ := 32

  /** A record and the number of the source it comes from. */
  datatype Node<T> = Node(rp: T, rn: int)

  /** compare is positive when its first argument is to be written first. */
  ghost predicate Ordered<T>(compare: (T, T) -> int, s: seq<Node<T>>) {
    forall p, q :: 0 <= p < q < |s| ==> compare(s[p].rp, s[q].rp) >= 0
  }

  ghost predicate Ascending<T>(compare: (T, T) -> int, s: seq<T>) {
    forall p, q :: 0 <= p < q < |s| ==> compare(s[p], s[q]) >= 0
  }

  lemma TransDown<T(!new)>(compare: (T, T) -> int, x: T, y: T, z: T)
    requires Preorder(compare) && compare(x, y) >= 0 && compare(y, z) >= 0
    ensures compare(x, z) >= 0
  {
    Flip(compare, x, y);
    Flip(compare, y, z);
    Flip(compare, x, z);
    Trans(compare, z, y, x);
  }

  /** The first element goes behind the m that follow it. */
  function Moved<T>(s: seq<T>, m: int): seq<T>
    requires 0 <= m < |s|
  {
    s[1..m + 1] + [s[0]] + s[m + 1..]
  }

  /** Where an element of the row was before. */
  function MovedFrom(m: int, k: int): int {
    if k < m then k + 1 else if k == m then 0 else k
  }

  lemma MovedAt<T>(s: seq<T>, m: int, k: int)
    requires 0 <= m < |s| && 0 <= k < |s|
    ensures |Moved(s, m)| == |s| && Moved(s, m)[k] == s[MovedFrom(m, k)]
  {
  }

  /** The place for the first element among the others. */
  ghost predicate Place<T>(compare: (T, T) -> int, s: seq<Node<T>>, m: int) {
    && 0 <= m < |s|
    && (forall k :: 1 <= k <= m ==> compare(s[k].rp, s[0].rp) >= 0)
    && forall k :: m < k < |s| ==> compare(s[0].rp, s[k].rp) >= 0
  }

  lemma MovedOrdered<T>(compare: (T, T) -> int, s: seq<Node<T>>, m: int)
    requires |s| > 0 && Ordered(compare, s[1..]) && Place(compare, s, m)
    ensures Ordered(compare, Moved(s, m))
  {
    var t := Moved(s, m);
    forall p, q | 0 <= p < q < |t| ensures compare(t[p].rp, t[q].rp) >= 0 {
      MovedAt(s, m, p);
      MovedAt(s, m, q);
      var p', q' := MovedFrom(m, p), MovedFrom(m, q);
      if p' > 0 && q' > 0 {
        assert s[1..][p' - 1] == s[p'] && s[1..][q' - 1] == s[q'];
      }
    }
  }

  /** All before lo come before the first element, all after hi come after it. */
  ghost predicate Search<T>(compare: (T, T) -> int, s: seq<Node<T>>, lo: int, hi: int) {
    && 1 <= lo <= hi + 1 <= |s|
    && (forall k :: 1 <= k < lo ==> compare(s[k].rp, s[0].rp) >= 0)
    && forall k :: hi < k < |s| ==> compare(s[0].rp, s[k].rp) >= 0
  }

  lemma SearchUp<T(!new)>(compare: (T, T) -> int, s: seq<Node<T>>, lo: int, hi: int, mid: int)
    requires Preorder(compare) && |s| > 0 && Ordered(compare, s[1..]) && Search(compare, s, lo, hi) && lo <= mid <= hi
    requires compare(s[0].rp, s[mid].rp) <= 0
    ensures Search(compare, s, mid + 1, hi)
  {
    hide Preorder;
    Flip(compare, s[0].rp, s[mid].rp);
    forall k | 1 <= k < mid + 1 ensures compare(s[k].rp, s[0].rp) >= 0 {
      if k < mid {
        assert s[1..][k - 1] == s[k] && s[1..][mid - 1] == s[mid];
        TransDown(compare, s[k].rp, s[mid].rp, s[0].rp);
      }
    }
  }

  lemma SearchDown<T(!new)>(compare: (T, T) -> int, s: seq<Node<T>>, lo: int, hi: int, mid: int)
    requires Preorder(compare) && |s| > 0 && Ordered(compare, s[1..]) && Search(compare, s, lo, hi) && lo <= mid <= hi
    requires compare(s[0].rp, s[mid].rp) >= 0
    ensures Search(compare, s, lo, mid - 1)
  {
    hide Preorder;
    forall k | mid <= k < |s| ensures compare(s[0].rp, s[k].rp) >= 0 {
      if k > mid {
        assert s[1..][k - 1] == s[k] && s[1..][mid - 1] == s[mid];
        TransDown(compare, s[0].rp, s[mid].rp, s[k].rp);
      }
    }
  }

  /** An equal one in the middle ends the search: the first element goes in front of it. */
  lemma SearchHit<T(!new)>(compare: (T, T) -> int, s: seq<Node<T>>, lo: int, hi: int, mid: int)
    requires Preorder(compare) && |s| > 0 && Ordered(compare, s[1..]) && Search(compare, s, lo, hi) && lo <= mid <= hi
    requires compare(s[0].rp, s[mid].rp) == 0
    ensures Place(compare, s, mid - 1)
  {
    hide Preorder;
    SearchDown(compare, s, lo, hi, mid);
    SearchUp(compare, s, lo, hi, mid);
  }

  lemma FirstStays<T(!new)>(compare: (T, T) -> int, s: seq<Node<T>>)
    requires Preorder(compare) && |s| > 1 && Ordered(compare, s[1..]) && compare(s[0].rp, s[1].rp) >= 0
    ensures Ordered(compare, s)
  {
    hide Preorder;
    forall p, q | 0 <= p < q < |s| ensures compare(s[p].rp, s[q].rp) >= 0 {
      assert s[1..][q - 1] == s[q];
      if p > 0 {
        assert s[1..][p - 1] == s[p];
      } else if q > 1 {
        assert s[1..][0] == s[1];
        TransDown(compare, s[0].rp, s[1].rp, s[q].rp);
      }
    }
  }

  lemma MovedSize<T>(s: seq<T>, m: int)
    requires 0 <= m < |s|
    ensures |Moved(s, m)| == |s|
  {
  }

  lemma MovedNone<T>(s: seq<T>)
    requires |s| > 0
    ensures Moved(s, 0) == s
  {
  }

  /** From tp up to lop each element is the one that was above it. */
  ghost predicate ShiftedTo<T>(was: seq<T>, now: seq<T>, tp: int, lop: int) {
    && 0 <= tp <= lop < |was| == |now|
    && (forall k :: 0 <= k < tp ==> now[k] == was[k])
    && (forall k :: tp <= k < lop ==> now[k] == was[k + 1])
    && forall k :: lop <= k < |was| ==> now[k] == was[k]
  }

  lemma ShiftOne<T>(was: seq<T>, now: seq<T>, tp: int, lop: int)
    requires ShiftedTo(was, now, tp, lop) && lop + 1 < |was|
    ensures ShiftedTo(was, now[lop := now[lop + 1]], tp, lop + 1)
  {
  }

  lemma Middle<T>(a: seq<T>, b: seq<T>, c: seq<T>)
    ensures (a + b + c)[|a|..|a| + |b|] == b
  {
  }

  /** The row and the counters that tell whether the input seems to be in order already. */
  class Row<T(!new)> {
    const compare: (T, T) -> int
    var treep: seq<Node<T>>
    var wasfirst: int
    var notfirst: int
    var bonus: int

    constructor (order: (T, T) -> int, filler: T)
      requires Preorder(order)
      ensures compare == order && Valid() && wasfirst == notfirst == 0
    {
      compare := order;
      treep := seq(TREEZ, i => Node(filler, 0));
      wasfirst, notfirst, bonus := 0, 0, 0;
    }

    ghost predicate Valid()
      reads this
    {
      |treep| == TREEZ && Preorder(compare)
    }

    static method CmpSave(n: int) returns (award: int)
    {
      if n < 2 {
        return 0;
      }
      var k := (n + 1) / 2;
      award := 0;
      while k > 0
        decreases k
      {
        award := award + 1;
        k := k / 2;
      }
    }

    /** Puts the node at tp into its place among the n from tp on; the others are in order. */
    method Insert(tp: int, n: int) returns (m: int)
      requires Valid() && 0 <= tp && 1 <= n && tp + n <= TREEZ && Ordered(compare, treep[tp + 1..tp + n])
      modifies `treep, `wasfirst, `notfirst
      ensures Valid() && 0 <= m < n && Ordered(compare, treep[tp..tp + n])
      ensures treep == old(treep[..tp]) + Moved(old(treep[tp..tp + n]), m) + old(treep[tp + n..])
    {
      hide Preorder, Ordered, Place, Moved, Search;
      ghost var s := treep[tp..tp + n];
      assert s[1..] == treep[tp + 1..tp + n];
      ghost var below, above := treep[..tp], treep[tp + n..];
      if wasfirst > notfirst && n > 2 && compare(treep[tp].rp, treep[tp + 1].rp) >= 0 {
        wasfirst := wasfirst + bonus;
        FirstStays(compare, s);
        MovedNone(s);
        assert treep == below + s + above;
        return 0;
      }
      var midp := Find(tp, n);
      m := midp - tp - 1;
      MovedOrdered(compare, s, m);
      if m > 0 {
        Shift(tp, n, m);
        notfirst := notfirst + 1;
      } else {
        wasfirst := wasfirst + bonus;
        MovedNone(s);
        assert treep == below + s + above;
      }
      MovedSize(s, m);
      Middle(below, Moved(s, m), above);
    }

    /** Binary search for the node that the one at tp goes in front of. */
    method Find(tp: int, n: int) returns (midp: int)
      requires Valid() && 0 <= tp && 1 <= n && tp + n <= TREEZ && Ordered(compare, treep[tp..tp + n][1..])
      ensures tp < midp <= tp + n && Place(compare, treep[tp..tp + n], midp - tp - 1)
    {
      hide Preorder, Ordered;
      ghost var s := treep[tp..tp + n];
      var lop, hip := tp + 1, tp + n - 1;
      midp := tp + 1;
      while hip - lop >= 0
        invariant Search(compare, s, lop - tp, hip - tp)
        invariant midp == lop || midp == hip + 1
        decreases hip - lop
      {
        midp := lop + (hip - lop) / 2;
        var c := compare(treep[tp].rp, treep[midp].rp);
        assert s[0] == treep[tp] && s[midp - tp] == treep[midp];
        if c == 0 {
          SearchHit(compare, s, lop - tp, hip - tp, midp - tp);
          return;
        }
        if c < 0 {
          SearchUp(compare, s, lop - tp, hip - tp, midp - tp);
          midp := midp + 1;
          lop := midp;
        } else {
          SearchDown(compare, s, lop - tp, hip - tp, midp - tp);
          hip := midp - 1;
        }
      }
    }

    /** Moves m nodes down by one and the one at tp behind them. */
    method Shift(tp: int, n: int, m: int)
      requires |treep| == TREEZ && 0 <= tp && 0 < m < n && tp + n <= TREEZ
      modifies `treep
      ensures treep == old(treep[..tp]) + Moved(old(treep[tp..tp + n]), m) + old(treep[tp + n..])
    {
      ghost var was := treep;
      var lop, hip, c := tp, tp + 1, m;
      var hold := treep[lop];
      while c > 0
        invariant 0 <= c <= m && lop == tp + m - c && hip == lop + 1 && ShiftedTo(was, treep, tp, lop)
      {
        ShiftOne(was, treep, tp, lop);
        treep := treep[lop := treep[hip]];
        lop := lop + 1;
        hip := hip + 1;
        c := c - 1;
      }
      treep := treep[lop := hold];
      ghost var s := was[tp..tp + n];
      forall k | 0 <= k < n ensures treep[tp + k] == Moved(s, m)[k] {
        MovedAt(s, m, k);
      }
      assert treep == was[..tp] + Moved(s, m) + was[tp + n..];
    }
  }
}
