/** Merging runs from files, and sorting a coreload of records. */
module SortMerge {
  import opened SortOrder
  import opened SortTree
  import opened SortFlow
  import SortQuick

  const N := 16

  /** The row from tp on, n nodes long, with what goes with it. */
  ghost predicate Going<T(!new)>(row: Row<T>, out: seq<T>, tp: int, n: int, rest: seq<seq<T>>, all: multiset<T>)
    reads row
  {
    && row.Valid() && 0 <= tp && 0 <= n && tp + n <= TREEZ
    && Flow(row.compare, out, row.treep[tp..tp + n], rest, all) && Spent(row.treep[tp..tp + n], rest)
  }

  lemma FlowNone<T>(compare: (T, T) -> int)
    ensures Flow(compare, [], [], [], multiset{}) && Spent<T>([], [])
  {
  }

  /** A new source enters the row at its end. */
  lemma FlowAdd<T(!new)>(compare: (T, T) -> int, live: seq<Node<T>>, rest: seq<seq<T>>, all: multiset<T>, run: seq<T>)
    requires Flow(compare, [], live, rest, all) && Spent(live, rest) && run != [] && Ascending(compare, run)
    ensures Flow(compare, [], live + [Node(run[0], |rest|)], rest + [run[1..]], all + multiset(run))
    ensures Spent(live + [Node(run[0], |rest|)], rest + [run[1..]])
  {
    hide Records, Sum;
    var x := Node(run[0], |rest|);
    var live', rest' := live + [x], rest + [run[1..]];
    TailRun(compare, run);
    forall k | 0 <= k < |live'| ensures NodeOk(compare, live'[k], rest') {
      assert k < |live| ==> NodeOk(compare, live[k], rest);
    }
    RecordsConcat(live, [x]);
    RecordsOne(x);
    SumSnoc(rest, run[1..]);
    assert run == [run[0]] + run[1..];
    SpentAdd(live, rest, x, run[1..]);
  }

  lemma SpentAdd<T>(live: seq<Node<T>>, rest: seq<seq<T>>, x: Node<T>, r: seq<T>)
    requires Spent(live, rest) && x.rn == |rest|
    ensures Spent(live + [x], rest + [r])
  {
    var live', rest' := live + [x], rest + [r];
    forall i | 0 <= i < |rest'| && (forall k :: 0 <= k < |live'| ==> live'[k].rn != i) ensures rest'[i] == [] {
      assert live'[|live|] == x;
      forall k | 0 <= k < |live| ensures live[k].rn != i {
        assert live'[k] == live[k];
      }
    }
  }

  /** Reads the first record of every file that has one; the nodes are numbered by place. */
  method Load<T(==,!new)>(row: Row<T>, runs: seq<seq<T>>) returns (nf: int, tfile: seq<seq<T>>)
    requires row.Valid() && |runs| <= N && forall i :: 0 <= i < |runs| ==> Ascending(row.compare, runs[i])
    modifies row`treep
    ensures Going(row, [], 0, nf, tfile, Sum(runs))
  {
    hide Flow, SpentFrom, Preorder, Ascending, Sum;
    nf, tfile := 0, [];
    var i := 0;
    FlowNone(row.compare);
    assert runs[..0] == [];
    SumNone(runs[..0]);
    while i < |runs|
      invariant 0 <= nf <= i <= |runs| && |tfile| == nf && row.Valid()
      invariant Flow(row.compare, [], row.treep[..nf], tfile, Sum(runs[..i])) && Spent(row.treep[..nf], tfile)
    {
      var run := runs[i];
      assert runs[..i + 1] == runs[..i] + [run];
      SumSnoc(runs[..i], run);
      if run != [] {
        FlowAdd(row.compare, row.treep[..nf], tfile, Sum(runs[..i]), run);
        ghost var before := row.treep[..nf];
        row.treep := row.treep[nf := Node(run[0], nf)];
        assert row.treep[..nf + 1] == before + [Node(run[0], nf)];
        tfile := tfile + [run[1..]];
        nf := nf + 1;
      } else {
        assert Sum(runs[..i + 1]) == Sum(runs[..i]);
      }
      i := i + 1;
    }
    assert runs[..|runs|] == runs;
    assert row.treep[0..0 + nf] == row.treep[..nf];
  }

  /** Puts the nodes in order, from the last one to the first. */
  method Build<T(==,!new)>(row: Row<T>, nf: int, ghost rest: seq<seq<T>>, ghost all: multiset<T>)
    requires Going(row, [], 0, nf, rest, all)
    modifies row`treep, row`wasfirst, row`notfirst
    ensures Going(row, [], 0, nf, rest, all) && Ordered(row.compare, row.treep[0..nf])
  {
    hide Flow, SpentFrom, Preorder, Ordered, Moved;
    var tp, i := nf - 1, 1;
    OrderedOne(row.compare, row.treep[0..nf]);
    if nf > 0 {
      assert row.treep[0..nf][nf - 1..nf] == row.treep[nf - 1..nf];
    }
    while i < nf
      invariant nf == 0 || 1 <= i <= nf
      invariant tp == nf - i && Going(row, [], 0, nf, rest, all)
      invariant nf > 0 ==> Ordered(row.compare, row.treep[tp..nf])
    {
      i := i + 1;
      tp := tp - 1;
      ghost var s := row.treep;
      var m := row.Insert(tp, i);
      SliceMoved(s, row.treep, 0, tp, nf, m);
      FlowRearranged(row.compare, [], s[0..nf], rest, all, tp, m);
      SpentRearranged(s[0..nf], rest, tp, m, 0);
    }
    if nf > 0 {
      assert tp == 0;
    }
  }

  lemma OrderedOne<T>(compare: (T, T) -> int, s: seq<Node<T>>)
    ensures |s| > 0 ==> Ordered(compare, s[|s| - 1..|s|])
    ensures s == [] ==> Ordered(compare, s)
  {
  }

  /** What Insert did to the part of the row from lo to hi. */
  lemma SliceMoved<T>(s: seq<T>, t: seq<T>, lo: int, tp: int, hi: int, m: int)
    requires 0 <= lo <= tp < hi <= |s| && 0 <= m < hi - tp && t == s[..tp] + Moved(s[tp..hi], m) + s[hi..]
    ensures |t| == |s| && t[lo..hi] == Rearranged(s[lo..hi], tp - lo, m)
  {
    MovedSize(s[tp..hi], m);
    assert s[lo..hi][tp - lo..] == s[tp..hi] && s[lo..hi][..tp - lo] == s[lo..tp];
    var mid := Moved(s[tp..hi], m);
    assert t[lo..hi] == s[lo..tp] + mid;
  }

  /** The next record of the source at the front takes its place in the row. */
  method Refill<T(==,!new)>(row: Row<T>, out: seq<T>, tp: int, n: int, ghost live: seq<Node<T>>,
                  ghost rest: seq<seq<T>>,
                            ghost all: multiset<T>, next: T)
    returns (ghost rest': seq<seq<T>>, ghost m: int)
    requires Going(row, out, tp, n, rest, all) && live == row.treep[tp..tp + n] && n > 0 && Ordered(row.compare, live)
    requires 0 <= live[0].rn < |rest| && rest[live[0].rn] != [] && next == rest[live[0].rn][0]
    modifies row`treep, row`wasfirst, row`notfirst
    ensures rest' == rest[live[0].rn := rest[live[0].rn][1..]]
    ensures 0 <= m < n && Going(row, out + [live[0].rp], tp, n, rest', all)
    ensures Ordered(row.compare, row.treep[tp..tp + n])
    ensures row.treep[tp..tp + n] == Rearranged(live[0 := Node(next, live[0].rn)], 0, m)
  {
    hide Flow, SpentFrom, Preorder, Ordered, Moved, Rearranged;
    ghost var h := live[0];
    assert h == row.treep[tp];
    HeadOk(row.compare, out, live, rest, all);
    WriteNext(row.compare, out, live, rest, all);
    SpentNext(live, rest, next);
    OrderedTail(row.compare, live, Node(next, h.rn));
    rest' := rest[h.rn := rest[h.rn][1..]];
    row.treep := row.treep[tp := Node(next, row.treep[tp].rn)];
    ghost var s, live1 := row.treep, live[0 := Node(next, h.rn)];
    assert s[tp..tp + n] == live1 && s[tp + 1..tp + n] == live1[1..];
    m := row.Insert(tp, n);
    SliceMoved(s, row.treep, tp, tp, tp + n, m);
    FlowRearranged(row.compare, out + [h.rp], live1, rest', all, 0, m);
    SpentRearranged(live1, rest', 0, m, 0);
  }

  lemma HeadOk<T>(compare: (T, T) -> int, out: seq<T>, live: seq<Node<T>>, rest: seq<seq<T>>, all: multiset<T>)
    requires Flow(compare, out, live, rest, all) && live != []
    ensures NodeOk(compare, live[0], rest) && 0 <= live[0].rn < |rest|
  {
  }

  lemma Dropped<T(!new)>(row: Row<T>, out: seq<T>, tp: int, n: int, rest: seq<seq<T>>, all: multiset<T>)
    requires Going(row, out, tp, n, rest, all) && n > 0 && Ordered(row.compare, row.treep[tp..tp + n])
    requires 0 <= row.treep[tp].rn < |rest| && rest[row.treep[tp].rn] == []
    ensures Going(row, out + [row.treep[tp].rp], tp + 1, n - 1, rest, all)
    ensures Ordered(row.compare, row.treep[tp + 1..tp + n])
  {
    hide Flow, SpentFrom, Preorder, Ordered;
    var live := row.treep[tp..tp + n];
    HeadOk(row.compare, out, live, rest, all);
    WriteLast(row.compare, out, live, rest, all);
    SpentLast(live, rest);
    assert live[1..] == row.treep[tp + 1..tp + n];
    assert tp + 1 + (n - 1) == tp + n;
  }

  /** Merges files that are in order into one that is. */
  method Merge<T(==,!new)>(row: Row<T>, runs: seq<seq<T>>) returns (out: seq<T>)
    requires row.Valid() && |runs| <= N && forall i :: 0 <= i < |runs| ==> Ascending(row.compare, runs[i])
    modifies row
    ensures row.Valid() && Ascending(row.compare, out) && multiset(out) == Sum(runs)
  {
    hide Flow, SpentFrom, Preorder, Ordered, Ascending, Sum, NodeOk;
    ghost var all := Sum(runs);
    var nf, tfile := Load(row, runs);
    Build(row, nf, tfile, all);
    row.bonus := Row<T>.CmpSave(nf);
    var tp := 0;
    out := [];
    while nf > 0
      invariant Going(row, out, tp, nf, tfile, all) && Ordered(row.compare, row.treep[tp..tp + nf])
      decreases Left(tfile), nf
    {
      HeadOk(row.compare, out, row.treep[tp..tp + nf], tfile, all);
      var head := row.treep[tp];
      var i := head.rn;
      if tfile[i] == [] {
        Dropped(row, out, tp, nf, tfile, all);
        nf := nf - 1;
        tp := tp + 1;
        row.bonus := Row<T>.CmpSave(nf);
      } else {
        LeftLess(tfile, i);
        var next := tfile[i][0];
        ghost var rest, m := Refill(row, out, tp, nf, row.treep[tp..tp + nf], tfile, all, next);
        tfile := tfile[i := tfile[i][1..]];
      }
      out := out + [head.rp];
    }
    assert row.treep[tp..tp + nf] == [];
    FlowDone(row.compare, out, tfile, all);
  }

  ghost function Left<T>(rest: seq<seq<T>>): nat {
    if rest == [] then 0 else Left(rest[..|rest| - 1]) + |rest[|rest| - 1]|
  }

  lemma {:induction false} LeftLess<T>(rest: seq<seq<T>>, i: int)
    requires 0 <= i < |rest| && rest[i] != []
    ensures Left(rest[i := rest[i][1..]]) == Left(rest) - 1
    decreases |rest|
  {
    var n, r := |rest| - 1, rest[i][1..];
    if i < n {
      LeftLess(rest[..n], i);
      assert rest[i := r][..n] == rest[..n][i := r];
    } else {
      assert rest[i := r][..n] == rest[..n];
    }
  }

  // ----- A coreload: blocks sorted in place and merged from their ends -----

  /** s[b..e] from the end. */
  ghost function Back<T>(s: seq<T>, b: int, e: int): seq<T>
    requires 0 <= b <= e <= |s|
    decreases e - b
  {
    if b == e then [] else [s[e - 1]] + Back(s, b, e - 1)
  }

  lemma {:induction false} BackAt<T>(s: seq<T>, b: int, e: int, k: int)
    requires 0 <= b <= e <= |s| && 0 <= k < e - b
    ensures |Back(s, b, e)| == e - b && Back(s, b, e)[k] == s[e - 1 - k]
    decreases e - b
  {
    if e - b > 1 {
      BackAt(s, b, e - 1, if k > 0 then k - 1 else 0);
    }
  }

  lemma BackSize<T>(s: seq<T>, b: int, e: int)
    requires 0 <= b <= e <= |s|
    ensures |Back(s, b, e)| == e - b
  {
    if b < e {
      BackAt(s, b, e, 0);
    }
  }

  lemma BackAscending<T(!new)>(compare: (T, T) -> int, s: seq<T>, b: int, e: int)
    requires Preorder(compare) && 0 <= b <= e <= |s| && Sorted(compare, s, b, e)
    ensures Ascending(compare, Back(s, b, e))
  {
    hide Preorder;
    BackSize(s, b, e);
    forall p, q | 0 <= p < q < e - b ensures compare(Back(s, b, e)[p], Back(s, b, e)[q]) >= 0 {
      BackAt(s, b, e, p);
      BackAt(s, b, e, q);
      Flip(compare, s[e - 1 - q], s[e - 1 - p]);
    }
  }

  lemma {:induction false} BackContents<T>(s: seq<T>, b: int, e: int)
    requires 0 <= b <= e <= |s|
    ensures multiset(Back(s, b, e)) == multiset(s[b..e])
    decreases e - b
  {
    if b < e {
      BackContents(s, b, e - 1);
      assert s[b..e] == s[b..e - 1] + [s[e - 1]];
      Turned(s[e - 1], Back(s, b, e - 1), s[b..e - 1]);
    }
  }

  lemma Turned<T>(x: T, a: seq<T>, c: seq<T>)
    requires multiset(a) == multiset(c)
    ensures multiset([x] + a) == multiset(c + [x])
  {
  }

  /** Block k lies between bounds k and k + 1. */
  ghost predicate Bounded(bounds: seq<int>, lo: int, hi: int) {
    && |bounds| > 0 && bounds[0] == lo && bounds[|bounds| - 1] == hi
    && forall j, k :: 0 <= j < k < |bounds| ==> bounds[j] < bounds[k]
  }

  ghost predicate BlocksSorted<T>(compare: (T, T) -> int, s: seq<T>, bounds: seq<int>, lo: int, hi: int) {
    && 0 <= lo <= hi <= |s| && Bounded(bounds, lo, hi)
    && forall k :: 0 <= k < |bounds| - 1 ==> BlockSorted(compare, s, bounds, k)
  }

  ghost predicate BlockSorted<T>(compare: (T, T) -> int, s: seq<T>, bounds: seq<int>, k: int) {
    0 <= k < |bounds| - 1 && 0 <= bounds[k] <= bounds[k + 1] <= |s| && Sorted(compare, s, bounds[k], bounds[k + 1])
  }

  ghost predicate Rising<T>(s: seq<T>, bounds: seq<int>) {
    && |bounds| > 0 && 0 <= bounds[0] && bounds[|bounds| - 1] <= |s|
    && forall j, k :: 0 <= j < k < |bounds| ==> bounds[j] < bounds[k]
  }

  /** The number of records in each block. */
  ghost predicate Counted(cnt: seq<int>, bounds: seq<int>) {
    |bounds| == |cnt| + 1 && forall k :: 0 <= k < |cnt| ==> SizeOk(cnt, bounds, k)
  }

  ghost predicate SizeOk(cnt: seq<int>, bounds: seq<int>, k: int)
    requires 0 <= k < |cnt| && k + 1 < |bounds|
  {
    cnt[k] == bounds[k + 1] - bounds[k]
  }

  /** The blocks from their ends. */
  ghost function Backs<T>(s: seq<T>, bounds: seq<int>, n: nat): seq<seq<T>>
    requires n < |bounds| && Rising(s, bounds)
    ensures |Backs(s, bounds, n)| == n
  {
    if n == 0 then [] else Backs(s, bounds, n - 1) + [Back(s, bounds[n - 1], bounds[n])]
  }

  lemma {:induction false} BacksAt<T>(s: seq<T>, bounds: seq<int>, n: nat, k: nat)
    requires k < n < |bounds| && Rising(s, bounds)
    ensures Backs(s, bounds, n)[k] == Back(s, bounds[k], bounds[k + 1])
  {
    hide Back;
    if k < n - 1 {
      BacksAt(s, bounds, n - 1, k);
    }
  }

  lemma {:induction false} BacksContents<T>(s: seq<T>, bounds: seq<int>, n: nat)
    requires 0 < n < |bounds| && Rising(s, bounds)
    ensures Sum(Backs(s, bounds, n)) == multiset(s[bounds[0]..bounds[n]])
  {
    hide Back, Sum;
    BackContents(s, bounds[n - 1], bounds[n]);
    SumSnoc(Backs(s, bounds, n - 1), Back(s, bounds[n - 1], bounds[n]));
    if n > 1 {
      BacksContents(s, bounds, n - 1);
      assert s[bounds[0]..bounds[n]] == s[bounds[0]..bounds[n - 1]] + s[bounds[n - 1]..bounds[n]];
    } else {
      SumNone(Backs(s, bounds, 0));
    }
  }

  /** Breaks a[lo..hi] into n blocks of about the same size and sorts each. */
  method Blocks<T(==,!new)>(compare: (T, T) -> int, a: array<T>, lo: int, hi: int, n: int)
    returns (blkcnt: seq<int>, blkcur: seq<int>)
    requires Preorder(compare) && 0 <= lo <= hi <= a.Length && 0 < n <= hi - lo
    modifies a
    ensures |blkcnt| == |blkcur| == n && BlocksSorted(compare, a[..], [lo] + blkcur, lo, hi)
    ensures Counted(blkcnt, [lo] + blkcur)
    ensures Perm(old(a[..]), a[..], lo, hi)
  {
    hide Preorder, Perm, Sorted, BlocksSorted, Counted, SortQuick.Shallow;
    ghost var s0 := a[..];
    blkcnt, blkcur := [], [];
    var i, m, pos := hi - lo, n, lo;
    SortQuick.PermSame(s0, lo, hi);
    BlocksNone(compare, s0, lo);
    CountsNone(lo);
    while m > 0
      invariant 0 <= m <= n && |blkcnt| == |blkcur| == n - m && i == hi - pos && i >= m && lo <= pos
      invariant m == 0 ==> i == 0
      invariant BlocksSorted(compare, a[..], [lo] + blkcur, lo, pos)
      invariant Counted(blkcnt, [lo] + blkcur)
      invariant Perm(s0, a[..], lo, hi)
    {
      var cnt := i / m;
      Share(i, m);
      ghost var s := a[..];
      var _ := SortQuick.Qsort(compare, a, pos, pos + cnt);
      BlockTaken(compare, s0, s, a[..], blkcnt, blkcur, lo, hi, pos, pos + cnt);
      blkcnt := blkcnt + [cnt];
      pos := pos + cnt;
      blkcur := blkcur + [pos];
      i := i - cnt;
      m := m - 1;
    }
  }

  /** One more block was cut off and sorted. */
  lemma BlockTaken<T>(compare: (T, T) -> int, s0: seq<T>, s: seq<T>, t: seq<T>, cnt: seq<int>, cur: seq<int>,
                      lo: int, hi: int, pos: int, end: int)
    requires BlocksSorted(compare, s, [lo] + cur, lo, pos) && Counted(cnt, [lo] + cur) && Perm(s0, s, lo, hi)
    requires lo <= pos < end <= hi <= |s| && Perm(s, t, pos, end) && Sorted(compare, t, pos, end)
    ensures BlocksSorted(compare, t, [lo] + (cur + [end]), lo, end) && Perm(s0, t, lo, hi)
    ensures Counted(cnt + [end - pos], [lo] + (cur + [end]))
  {
    hide Perm, Sorted, Counted, BlockSorted;
    var bounds := [lo] + cur;
    assert [lo] + (cur + [end]) == bounds + [end];
    PermWider(s, t, pos, end, lo, hi);
    PermTrans(s0, s, t, lo, hi);
    BlocksMore(compare, s, t, bounds, lo, pos, end);
    CountsMore(cnt, bounds, end);
  }

  lemma CountsNone(lo: int)
    ensures Counted([], [lo] + [])
  {
  }

  lemma CountsMore(cnt: seq<int>, bounds: seq<int>, pos: int)
    requires Counted(cnt, bounds)
    ensures Counted(cnt + [pos - bounds[|bounds| - 1]], bounds + [pos])
  {
    var c, b := cnt + [pos - bounds[|bounds| - 1]], bounds + [pos];
    forall k | 0 <= k < |c| ensures SizeOk(c, b, k) {
      assert k < |cnt| ==> SizeOk(cnt, bounds, k);
    }
  }

  lemma Share(i: int, m: int)
    requires 0 < m <= i
    ensures 1 <= i / m <= i && i - i / m >= m - 1 && (m == 1 ==> i / m == i)
  {
    var q := i / m;
    QuotientPositive(i, m);
    Rectangle(q, m);
  }

  lemma QuotientPositive(i: int, m: int)
    requires 0 < m <= i
    ensures i / m >= 1 && i / m * m <= i
  {
  }

  lemma Rectangle(q: int, m: int)
    requires q >= 1 && m >= 1
    ensures q * m - q >= m - 1 && q * m >= q
  {
    assert (q - 1) * (m - 1) >= 0;
    assert q * m - q - m + 1 == (q - 1) * (m - 1);
  }

  lemma BlocksNone<T>(compare: (T, T) -> int, s: seq<T>, lo: int)
    requires 0 <= lo <= |s|
    ensures BlocksSorted(compare, s, [lo] + [], lo, lo)
  {
  }

  lemma BlocksMore<T>(compare: (T, T) -> int, s: seq<T>, t: seq<T>, bounds: seq<int>, lo: int, pos: int, end: int)
    requires BlocksSorted(compare, s, bounds, lo, pos) && pos < end <= |s| && Perm(s, t, pos, end)
    requires Sorted(compare, t, pos, end)
    ensures BlocksSorted(compare, t, bounds + [end], lo, end)
  {
    var more := bounds + [end];
    forall k | 0 <= k < |more| - 1 ensures BlockSorted(compare, t, more, k) {
      if k < |bounds| - 1 {
        assert BlockSorted(compare, s, bounds, k);
        assert bounds[k + 1] <= bounds[|bounds| - 1];
      }
    }
  }

  /** Everything is still to come. */
  lemma FlowStart<T>(compare: (T, T) -> int, rest: seq<seq<T>>)
    ensures Flow(compare, [], [], rest, Sum(rest)) && SpentFrom<T>([], rest, |rest|)
  {
  }

  /** The first record of source j enters the row in front. */
  lemma FlowEnter<T>(compare: (T, T) -> int, live: seq<Node<T>>, rest: seq<seq<T>>, all: multiset<T>, j: int)
    requires Flow(compare, [], live, rest, all) && SpentFrom(live, rest, j + 1) && 0 <= j < |rest| && rest[j] != []
    requires Ascending(compare, rest[j]) && forall k :: 0 <= k < |live| ==> live[k].rn > j
    ensures Flow(compare, [], [Node(rest[j][0], j)] + live, rest[j := rest[j][1..]], all)
    ensures SpentFrom([Node(rest[j][0], j)] + live, rest[j := rest[j][1..]], j)
  {
    hide Records, Sum;
    var run, x := rest[j], Node(rest[j][0], j);
    var live', rest' := [x] + live, rest[j := run[1..]];
    TailRun(compare, run);
    forall k | 0 <= k < |live'| ensures NodeOk(compare, live'[k], rest') {
      assert k > 0 ==> live'[k] == live[k - 1] && NodeOk(compare, live[k - 1], rest);
    }
    RecordsConcat([x], live);
    RecordsOne(x);
    SumSet(rest, j, run[1..]);
    assert run == [run[0]] + run[1..];
    Cancel(Sum(rest') + multiset{run[0]}, Sum(rest), multiset(run[1..]));
    EnterSpent(live, rest, j, x);
  }

  lemma EnterSpent<T>(live: seq<Node<T>>, rest: seq<seq<T>>, j: int, x: Node<T>)
    requires SpentFrom(live, rest, j + 1) && 0 <= j < |rest| && rest[j] != [] && x.rn == j
    ensures SpentFrom([x] + live, rest[j := rest[j][1..]], j)
  {
    var live', rest' := [x] + live, rest[j := rest[j][1..]];
    forall i | j <= i < |rest'| && 0 <= i && (forall k :: 0 <= k < |live'| ==> live'[k].rn != i)
      ensures rest'[i] == [] {
      assert live'[0].rn == j;
      forall k | 0 <= k < |live| ensures live[k].rn != i {
        assert live'[k + 1] == live[k];
      }
    }
  }

  /** What is left of each block. */
  ghost predicate Unread<T>(s: seq<T>, bounds: seq<int>, cur: seq<int>, rest: seq<seq<T>>) {
    |bounds| == |cur| + 1 == |rest| + 1 && forall k :: 0 <= k < |cur| ==> UnreadAt(s, bounds, cur, rest, k)
  }

  ghost predicate UnreadAt<T>(s: seq<T>, bounds: seq<int>, cur: seq<int>, rest: seq<seq<T>>, k: int)
    requires 0 <= k < |cur| && k < |bounds| && k < |rest|
  {
    0 <= bounds[k] <= cur[k] <= |s| && rest[k] == Back(s, bounds[k], cur[k])
  }

  lemma UnreadNext<T>(s: seq<T>, bounds: seq<int>, cur: seq<int>, rest: seq<seq<T>>, j: int)
    requires Unread(s, bounds, cur, rest) && 0 <= j < |cur| && rest[j] != []
    ensures 0 < cur[j] <= |s| && rest[j][0] == s[cur[j] - 1]
    ensures Unread(s, bounds, cur[j := cur[j] - 1], rest[j := rest[j][1..]])
  {
    assert UnreadAt(s, bounds, cur, rest, j);
    var c, r := cur[j := cur[j] - 1], rest[j := rest[j][1..]];
    forall k | 0 <= k < |c| ensures UnreadAt(s, bounds, c, r, k) {
      assert UnreadAt(s, bounds, cur, rest, k);
    }
  }

  lemma UnreadAll<T>(compare: (T, T) -> int, s: seq<T>, bounds: seq<int>, cur: seq<int>, lo: int, hi: int)
    requires BlocksSorted(compare, s, bounds, lo, hi) && bounds == [lo] + cur && cur != []
    ensures Rising(s, bounds) && Unread(s, bounds, cur, Backs(s, bounds, |cur|))
    ensures Sum(Backs(s, bounds, |cur|)) == multiset(s[lo..hi])
  {
    var rest := Backs(s, bounds, |cur|);
    forall k | 0 <= k < |cur| ensures UnreadAt(s, bounds, cur, rest, k) {
      BacksAt(s, bounds, |cur|, k);
      assert BlockSorted(compare, s, bounds, k);
    }
    BacksContents(s, bounds, |cur|);
  }

  lemma BlockRun<T(!new)>(compare: (T, T) -> int, s: seq<T>, bounds: seq<int>, lo: int, hi: int, k: int)
    requires Preorder(compare) && BlocksSorted(compare, s, bounds, lo, hi) && 0 <= k < |bounds| - 1
    ensures 0 <= bounds[k] < bounds[k + 1] <= |s| && Ascending(compare, Back(s, bounds[k], bounds[k + 1]))
    ensures Back(s, bounds[k], bounds[k + 1]) != []
  {
    assert BlockSorted(compare, s, bounds, k);
    BackAscending(compare, s, bounds[k], bounds[k + 1]);
    BackSize(s, bounds[k], bounds[k + 1]);
  }

  /** The counter of a source in the row is one more than what is left to read. */
  ghost predicate CountsLive<T>(cnt: seq<int>, live: seq<Node<T>>, rest: seq<seq<T>>) {
    |cnt| == |rest| && forall k :: 0 <= k < |live| ==> CountLive(cnt, live[k].rn, rest)
  }

  ghost predicate CountLive<T>(cnt: seq<int>, i: int, rest: seq<seq<T>>)
    requires |cnt| == |rest|
  {
    0 <= i < |cnt| && cnt[i] == |rest[i]| + 1
  }

  lemma CountsRearranged<T>(cnt: seq<int>, live: seq<Node<T>>, rest: seq<seq<T>>, m: int)
    requires CountsLive(cnt, live, rest) && 0 <= m < |live|
    ensures CountsLive(cnt, Rearranged(live, 0, m), rest)
  {
    var t := Rearranged(live, 0, m);
    RearrangedAt(live, 0, m, 0);
    forall k | 0 <= k < |t| ensures CountLive(cnt, t[k].rn, rest) {
      RearrangedAt(live, 0, m, k);
    }
  }

  lemma CountsNext<T>(compare: (T, T) -> int, out: seq<T>, all: multiset<T>, cnt: seq<int>, live: seq<Node<T>>,
                      rest: seq<seq<T>>, x: T)
    requires Flow(compare, out, live, rest, all) && CountsLive(cnt, live, rest) && |live| > 0
    requires 0 <= live[0].rn < |rest| && rest[live[0].rn] != []
    ensures var i := live[0].rn; CountsLive(cnt[i := cnt[i] - 1], live[0 := Node(x, i)], rest[i := rest[i][1..]])
  {
    var i := live[0].rn;
    var c, l, r := cnt[i := cnt[i] - 1], live[0 := Node(x, i)], rest[i := rest[i][1..]];
    assert CountLive(cnt, live[0].rn, rest);
    forall k | 0 <= k < |l| ensures CountLive(c, l[k].rn, r) {
      assert CountLive(cnt, live[k].rn, rest);
    }
  }

  lemma CountsDrop<T>(compare: (T, T) -> int, out: seq<T>, all: multiset<T>, cnt: seq<int>, live: seq<Node<T>>,
                      rest: seq<seq<T>>)
    requires Flow(compare, out, live, rest, all) && CountsLive(cnt, live, rest) && |live| > 0
    requires 0 <= live[0].rn < |rest|
    ensures CountsLive(cnt[live[0].rn := cnt[live[0].rn] - 1], live[1..], rest)
  {
    var i := live[0].rn;
    var c, l := cnt[i := cnt[i] - 1], live[1..];
    forall k | 0 <= k < |l| ensures CountLive(c, l[k].rn, rest) {
      assert CountLive(cnt, live[k + 1].rn, rest);
    }
  }

  lemma CountsEnter<T>(cnt: seq<int>, live: seq<Node<T>>, rest: seq<seq<T>>, j: int, x: T)
    requires CountsLive(cnt, live, rest) && 0 <= j < |rest| && rest[j] != [] && cnt[j] == |rest[j]|
    requires forall k :: 0 <= k < |live| ==> live[k].rn > j
    ensures CountsLive(cnt, [Node(x, j)] + live, rest[j := rest[j][1..]])
  {
    var l, r := [Node(x, j)] + live, rest[j := rest[j][1..]];
    forall k | 0 <= k < |l| ensures CountLive(cnt, l[k].rn, r) {
      assert k > 0 ==> l[k] == live[k - 1] && CountLive(cnt, live[k - 1].rn, rest);
    }
  }

  /** The row holds sources from j on; the blocks before are untouched. */
  ghost predicate Built<T>(compare: (T, T) -> int, s: seq<T>, bounds: seq<int>, cnt: seq<int>, cur: seq<int>,
                           live: seq<Node<T>>,
                           rest: seq<seq<T>>, j: int) {
    && 0 <= j <= |cur| && Rising(s, bounds) && Unread(s, bounds, cur, rest)
    && CountsLive(cnt, live, rest) && SpentFrom(live, rest, j)
    && (forall k :: 0 <= k < |live| ==> live[k].rn >= j)
    && forall k :: 0 <= k < j ==> cur[k] == bounds[k + 1] && cnt[k] == |rest[k]|
  }

  lemma BuiltStart<T(!new)>(compare: (T, T) -> int, s: seq<T>, cnt: seq<int>, cur: seq<int>, lo: int, hi: int)
    requires BlocksSorted(compare, s, [lo] + cur, lo, hi) && cur != [] && Counted(cnt, [lo] + cur)
    ensures Rising(s, [lo] + cur) && Built(compare, s, [lo] + cur, cnt, cur, [], Backs(s, [lo] + cur, |cur|), |cur|)
    ensures Sum(Backs(s, [lo] + cur, |cur|)) == multiset(s[lo..hi])
  {
    hide Sum, BlocksSorted, Unread, Counted, Rising, Preorder;
    var bounds := [lo] + cur;
    UnreadAll(compare, s, bounds, cur, lo, hi);
    BackSizes(s, bounds, cur, cnt, Backs(s, bounds, |cur|));
  }

  lemma BackSizes<T>(s: seq<T>, bounds: seq<int>, cur: seq<int>, cnt: seq<int>, rest: seq<seq<T>>)
    requires Unread(s, bounds, cur, rest) && Counted(cnt, bounds)
    requires forall k :: 0 <= k < |cur| ==> cur[k] == bounds[k + 1]
    ensures |cnt| == |cur| == |rest| && forall k :: 0 <= k < |cur| ==> cnt[k] == |rest[k]|
  {
    forall k | 0 <= k < |cur|
      ensures cnt[k] == |rest[k]|
    {
      assert UnreadAt(s, bounds, cur, rest, k) && SizeOk(cnt, bounds, k);
      BackSize(s, bounds[k], cur[k]);
    }
  }

  lemma BuiltNext<T(!new)>(compare: (T, T) -> int, s: seq<T>, bounds: seq<int>, cnt: seq<int>, cur: seq<int>,
                    live: seq<Node<T>>,
                           rest: seq<seq<T>>, j: int, lo: int, hi: int, all: multiset<T>)
    requires Preorder(compare) && BlocksSorted(compare, s, bounds, lo, hi) && j > 0
    requires Built(compare, s, bounds, cnt, cur, live, rest, j) && Flow(compare, [], live, rest, all)
    ensures |rest| == |cur| && 0 < cur[j - 1] <= |s| && rest[j - 1] != [] && rest[j - 1][0] == s[cur[j - 1] - 1]
    ensures var live', rest' := [Node(s[cur[j - 1] - 1], j - 1)] + live, rest[j - 1 := rest[j - 1][1..]];
      && Built(compare, s, bounds, cnt, cur[j - 1 := cur[j - 1] - 1], live', rest', j - 1)
      && Flow(compare, [], live', rest', all)
  {
    hide Preorder, BlocksSorted, Flow, SpentFrom, Back, Ascending, CountsLive;
    var i := j - 1;
    assert UnreadAt(s, bounds, cur, rest, i);
    BlockRun(compare, s, bounds, lo, hi, i);
    UnreadNext(s, bounds, cur, rest, i);
    FlowEnter(compare, live, rest, all, i);
    CountsEnter(cnt, live, rest, i, rest[i][0]);
  }

  lemma BuiltRearranged<T>(compare: (T, T) -> int, s: seq<T>, bounds: seq<int>, cnt: seq<int>, cur: seq<int>,
                           live: seq<Node<T>>,
                           rest: seq<seq<T>>, j: int, m: int)
    requires Built(compare, s, bounds, cnt, cur, live, rest, j) && 0 <= m < |live|
    ensures Built(compare, s, bounds, cnt, cur, Rearranged(live, 0, m), rest, j)
  {
    hide Unread, Rising, SpentFrom, CountsLive, Rearranged;
    CountsRearranged(cnt, live, rest, m);
    SpentRearranged(live, rest, 0, m, j);
    RearrangedAt(live, 0, m, 0);
    forall k | 0 <= k < |live| ensures Rearranged(live, 0, m)[k].rn >= j {
      RearrangedAt(live, 0, m, k);
    }
  }

  /** Takes the last record of each block, from the last block to the first, and puts them in order. */
  method BuildBlocks<T(==,!new)>(row: Row<T>, a: array<T>, lo: int, hi: int, blkcnt: seq<int>, blkend: seq<int>)
    returns (blkcur: seq<int>, ghost rest: seq<seq<T>>)
    requires row.Valid() && 0 <= lo <= hi <= a.Length && blkend != [] && |blkend| <= TREEZ
    requires Counted(blkcnt, [lo] + blkend)
    requires BlocksSorted(row.compare, a[..], [lo] + blkend, lo, hi)
    modifies row`treep, row`wasfirst, row`notfirst
    ensures row.Valid() && |blkcur| == |blkend|
    ensures Going(row, [], 0, |blkend|, rest, multiset(a[lo..hi])) && Ordered(row.compare, row.treep[0..|blkend|])
    ensures Built(row.compare, a[..], [lo] + blkend, blkcnt, blkcur, row.treep[0..|blkend|], rest, 0)
  {
    hide Flow, Preorder, Ordered, Moved, Rearranged, Built, BlocksSorted, Counted, Sum;
    var n := |blkend|;
    ghost var s, bounds, all := a[..], [lo] + blkend, multiset(a[lo..hi]);
    blkcur := blkend;
    BuiltStart(row.compare, s, blkcnt, blkcur, lo, hi);
    rest := Backs(s, bounds, n);
    FlowStart(row.compare, rest);
    assert s[lo..hi] == a[lo..hi];
    var j, i := n, 0;
    assert row.treep[n..n] == [];
    while i < n
      invariant 0 <= i <= n && j == n - i && row.Valid() && |blkcur| == n && a[..] == s
      invariant Built(row.compare, s, bounds, blkcnt, blkcur, row.treep[j..n], rest, j)
      invariant Flow(row.compare, [], row.treep[j..n], rest, all)
      invariant i > 0 ==> Ordered(row.compare, row.treep[j..n])
    {
      BuiltNext(row.compare, s, bounds, blkcnt, blkcur, row.treep[j..n], rest, j, lo, hi, all);
      ghost var live := row.treep[j..n];
      j := j - 1;
      blkcur := blkcur[j := blkcur[j] - 1];
      rest := rest[j := rest[j][1..]];
      row.treep := row.treep[j := Node(a[blkcur[j]], j)];
      ghost var t, more := row.treep, [Node(s[blkcur[j]], j)] + live;
      assert t[j..n] == more && t[j + 1..n] == live;
      NoOrder(row.compare, live);
      i := i + 1;
      var m := row.Insert(j, i);
      SliceMoved(t, row.treep, j, j, n, m);
      FlowRearranged(row.compare, [], more, rest, all, 0, m);
      BuiltRearranged(row.compare, s, bounds, blkcnt, blkcur, more, rest, j, m);
    }
    BuiltSpent(row.compare, s, bounds, blkcnt, blkcur, row.treep[0..n], rest);
  }

  lemma NoOrder<T>(compare: (T, T) -> int, live: seq<Node<T>>)
    ensures live == [] ==> Ordered(compare, live)
  {
  }

  lemma BuiltSpent<T>(compare: (T, T) -> int, s: seq<T>, bounds: seq<int>, cnt: seq<int>, cur: seq<int>,
                      live: seq<Node<T>>, rest: seq<seq<T>>)
    requires Built(compare, s, bounds, cnt, cur, live, rest, 0)
    ensures Spent(live, rest) && Unread(s, bounds, cur, rest) && CountsLive(cnt, live, rest)
  {
  }

  /** Sorts the records a[lo..hi] and writes them. */
  method Msort<T(==,!new)>(row: Row<T>, a: array<T>, lo: int, hi: int) returns (out: seq<T>)
    requires row.Valid() && 0 <= lo <= hi <= a.Length
    modifies row, a
    ensures row.Valid() && Ascending(row.compare, out) && multiset(out) == multiset(old(a[lo..hi]))
  {
    hide Flow, SpentFrom, Preorder, Ordered, BlocksSorted, Counted, Ascending, CountsLive, Unread, Built, Rearranged;
    hide NodeOk;
    out := [];
    if hi - lo < 1 {
      NothingWritten(row.compare);
      assert a[lo..hi] == [];
      return;
    }
    var n := if hi - lo >= TREEZ then TREEZ else hi - lo;
    ghost var s0 := a[..];
    assert s0[lo..hi] == a[lo..hi];
    var blkcnt, blkend := Blocks(row.compare, a, lo, hi, n);
    ghost var s, bounds, all := a[..], [lo] + blkend, multiset(a[lo..hi]);
    assert s[lo..hi] == a[lo..hi];
    var blkcur;
    ghost var rest;
    blkcur, rest := BuildBlocks(row, a, lo, hi, blkcnt, blkend);
    BuiltSpent(row.compare, s, bounds, blkcnt, blkcur, row.treep[0..n], rest);
    row.wasfirst, row.notfirst := 0, 0;
    row.bonus := Row<T>.CmpSave(n);
    var tp := 0;
    while n > 0
      invariant Going(row, out, tp, n, rest, all) && Ordered(row.compare, row.treep[tp..tp + n])
      invariant a[..] == s && Unread(s, bounds, blkcur, rest) && CountsLive(blkcnt, row.treep[tp..tp + n], rest)
      decreases Left(rest), n
    {
      ghost var live := row.treep[tp..tp + n];
      HeadOk(row.compare, out, live, rest, all);
      HeadCount(blkcnt, live, rest);
      UnreadSizes(s, bounds, blkcur, rest);
      var head := row.treep[tp];
      var i := head.rn;
      assert live[0] == head;
      ghost var counts := blkcnt;
      blkcnt := blkcnt[i := blkcnt[i] - 1];
      if blkcnt[i] > 0 {
        LeftLess(rest, i);
        UnreadNext(s, bounds, blkcur, rest, i);
        CountsNext(row.compare, out, all, counts, live, rest, a[blkcur[i] - 1]);
        blkcur := blkcur[i := blkcur[i] - 1];
        ghost var m;
        ghost var next := a[blkcur[i]];
        rest, m := Refill(row, out, tp, n, live, rest, all, a[blkcur[i]]);
        CountsRearranged(blkcnt, live[0 := Node(next, i)], rest, m);
      } else {
        Dropped(row, out, tp, n, rest, all);
        CountsDrop(row.compare, out, all, counts, live, rest);
        assert live[1..] == row.treep[tp + 1..tp + n];
        n := n - 1;
        row.bonus := Row<T>.CmpSave(n);
        tp := tp + 1;
      }
      out := out + [head.rp];
    }
    assert row.treep[tp..tp + n] == [];
    FlowDone(row.compare, out, rest, all);
  }

  lemma NothingWritten<T>(compare: (T, T) -> int)
    ensures Ascending<T>(compare, [])
  {
  }

  lemma HeadCount<T>(cnt: seq<int>, live: seq<Node<T>>, rest: seq<seq<T>>)
    requires CountsLive(cnt, live, rest) && live != []
    ensures |cnt| == |rest| && 0 <= live[0].rn < |cnt| && cnt[live[0].rn] == |rest[live[0].rn]| + 1
  {
    assert CountLive(cnt, live[0].rn, rest);
  }

  lemma UnreadSizes<T>(s: seq<T>, bounds: seq<int>, cur: seq<int>, rest: seq<seq<T>>)
    requires Unread(s, bounds, cur, rest)
    ensures |cur| == |rest|
  {
  }
}
