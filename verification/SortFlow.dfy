/** What a merge keeps from one record written to the next. */
module SortFlow {
  import opened SortOrder
  import opened SortTree

  ghost function Sum<T>(rest: seq<seq<T>>): multiset<T> {
    if rest == [] then multiset{} else Sum(rest[..|rest| - 1]) + multiset(rest[|rest| - 1])
  }

  lemma {:induction false} SumSet<T>(rest: seq<seq<T>>, i: int, r: seq<T>)
    requires 0 <= i < |rest|
    ensures Sum(rest[i := r]) + multiset(rest[i]) == Sum(rest) + multiset(r)
    decreases |rest|
  {
    var n := |rest| - 1;
    if i < n {
      SumSet(rest[..n], i, r);
      assert rest[i := r][..n] == rest[..n][i := r];
      var a, b, l := Sum(rest[..n][i := r]), Sum(rest[..n]), multiset(rest[n]);
      assert Sum(rest[i := r]) == a + l;
      assert a + l + multiset(rest[i]) == a + multiset(rest[i]) + l;
      assert b + l + multiset(r) == b + multiset(r) + l;
    } else {
      assert rest[i := r][..n] == rest[..n];
    }
  }

  lemma SumSnoc<T>(rest: seq<seq<T>>, r: seq<T>)
    ensures Sum(rest + [r]) == Sum(rest) + multiset(r)
  {
    assert (rest + [r])[..|rest|] == rest;
  }

  lemma {:induction false} SumNone<T>(rest: seq<seq<T>>)
    requires forall i :: 0 <= i < |rest| ==> rest[i] == []
    ensures Sum(rest) == multiset{}
  {
    if rest != [] {
      SumNone(rest[..|rest| - 1]);
    }
  }

  /** The records in the row. */
  ghost function Records<T>(live: seq<Node<T>>): (r: seq<T>)
    ensures |r| == |live|
  {
    if live == [] then [] else Records(live[..|live| - 1]) + [live[|live| - 1].rp]
  }

  lemma {:induction false} RecordsConcat<T>(a: seq<Node<T>>, b: seq<Node<T>>)
    ensures Records(a + b) == Records(a) + Records(b)
    decreases |b|
  {
    if b == [] {
      assert a + b == a;
    } else {
      var n := |b| - 1;
      assert (a + b)[..|a + b| - 1] == a + b[..n];
      RecordsConcat(a, b[..n]);
    }
  }

  lemma RecordsOne<T>(x: Node<T>)
    ensures Records([x]) == [x.rp]
  {
    assert [x][..0] == [];
  }

  /** One source: the record in the row and those to come, in the order they will be written. */
  ghost predicate Run<T>(compare: (T, T) -> int, head: T, tail: seq<T>) {
    Ascending(compare, tail) && forall k :: 0 <= k < |tail| ==> compare(head, tail[k]) >= 0
  }

  ghost predicate NodeOk<T>(compare: (T, T) -> int, x: Node<T>, rest: seq<seq<T>>) {
    0 <= x.rn < |rest| && Run(compare, x.rp, rest[x.rn])
  }

  /** No record written belongs after x. */
  ghost predicate AfterAll<T>(compare: (T, T) -> int, out: seq<T>, x: T) {
    forall p :: 0 <= p < |out| ==> compare(out[p], x) >= 0
  }

  ghost predicate Flow<T>(compare: (T, T) -> int, out: seq<T>, live: seq<Node<T>>, rest: seq<seq<T>>,
                          all: multiset<T>) {
    && Ascending(compare, out)
    && (forall k :: 0 <= k < |live| ==> NodeOk(compare, live[k], rest) && AfterAll(compare, out, live[k].rp))
    && (forall j, k :: 0 <= j < k < |live| ==> live[j].rn != live[k].rn)
    && multiset(out) + multiset(Records(live)) + Sum(rest) == all
  }

  /** Sources that are not in the row have no more records. */
  ghost predicate Spent<T>(live: seq<Node<T>>, rest: seq<seq<T>>) {
    SpentFrom(live, rest, 0)
  }

  ghost predicate SpentFrom<T>(live: seq<Node<T>>, rest: seq<seq<T>>, from: int) {
    forall i :: from <= i < |rest| && 0 <= i && (forall k :: 0 <= k < |live| ==> live[k].rn != i) ==> rest[i] == []
  }

  // ----- Rearranging the row -----

  function Rearranged<T>(live: seq<T>, tp: int, m: int): seq<T>
    requires 0 <= tp <= |live| && 0 <= m < |live| - tp
  {
    live[..tp] + Moved(live[tp..], m)
  }

  function RearrangedFrom(tp: int, m: int, k: int): int {
    if k < tp then k else tp + MovedFrom(m, k - tp)
  }

  lemma RearrangedAt<T>(live: seq<T>, tp: int, m: int, k: int)
    requires 0 <= tp <= |live| && 0 <= m < |live| - tp && 0 <= k < |live|
    ensures |Rearranged(live, tp, m)| == |live| && Rearranged(live, tp, m)[k] == live[RearrangedFrom(tp, m, k)]
    ensures 0 <= RearrangedFrom(tp, m, k) < |live|
  {
    if k >= tp {
      MovedAt(live[tp..], m, k - tp);
    }
    MovedSize(live[tp..], m);
  }

  lemma RecordsThree<T>(a: seq<Node<T>>, b: seq<Node<T>>, c: seq<Node<T>>)
    ensures multiset(Records(a + b + c)) == multiset(Records(a)) + multiset(Records(b)) + multiset(Records(c))
  {
    hide Records;
    RecordsConcat(a + b, c);
    RecordsConcat(a, b);
  }

  lemma RecordsMoved<T>(s: seq<Node<T>>, m: int)
    requires 0 <= m < |s|
    ensures multiset(Records(Moved(s, m))) == multiset(Records(s))
  {
    hide Records;
    var a, x, b := s[1..m + 1], [s[0]], s[m + 1..];
    RecordsThree(x, a, b);
    RecordsThree(a, x, b);
    ThreeParts(s, m);
  }

  lemma ThreeParts<T>(s: seq<T>, m: int)
    requires 0 <= m < |s|
    ensures s == [s[0]] + s[1..m + 1] + s[m + 1..]
  {
  }

  lemma FlowRearranged<T>(compare: (T, T) -> int, out: seq<T>, live: seq<Node<T>>, rest: seq<seq<T>>, all: multiset<T>,
                          tp: int, m: int)
    requires 0 <= tp <= |live| && 0 <= m < |live| - tp && Flow(compare, out, live, rest, all)
    ensures Flow(compare, out, Rearranged(live, tp, m), rest, all)
  {
    hide AfterAll, NodeOk, Ascending, Sum, Records, Rearranged;
    var t := Rearranged(live, tp, m);
    forall k | 0 <= k < |t| ensures NodeOk(compare, t[k], rest) && AfterAll(compare, out, t[k].rp) {
      RearrangedAt(live, tp, m, tp);
      RearrangedAt(live, tp, m, k);
    }
    forall j, k | 0 <= j < k < |t| ensures t[j].rn != t[k].rn {
      RearrangedAt(live, tp, m, tp);
      RearrangedAt(live, tp, m, j);
      RearrangedAt(live, tp, m, k);
    }
    RecordsRearranged(live, tp, m);
  }

  lemma RecordsRearranged<T>(live: seq<Node<T>>, tp: int, m: int)
    requires 0 <= tp <= |live| && 0 <= m < |live| - tp
    ensures multiset(Records(Rearranged(live, tp, m))) == multiset(Records(live))
  {
    hide Records, Moved;
    RecordsConcat(live[..tp], live[tp..]);
    RecordsConcat(live[..tp], Moved(live[tp..], m));
    RecordsMoved(live[tp..], m);
    assert live == live[..tp] + live[tp..];
  }

  lemma SpentRearranged<T>(live: seq<Node<T>>, rest: seq<seq<T>>, tp: int, m: int, from: int)
    requires 0 <= tp <= |live| && 0 <= m < |live| - tp && SpentFrom(live, rest, from)
    ensures SpentFrom(Rearranged(live, tp, m), rest, from)
  {
    hide Rearranged;
    var t := Rearranged(live, tp, m);
    forall i | from <= i < |rest| && 0 <= i && (forall k :: 0 <= k < |t| ==> t[k].rn != i) ensures rest[i] == [] {
      forall k | 0 <= k < |live| ensures live[k].rn != i {
        var k' := if k < tp then k else if k == tp then tp + m else if k <= tp + m then k - 1 else k;
        RearrangedAt(live, tp, m, k');
        assert t[k'] == live[k];
      }
    }
  }

  // ----- Writing a record -----

  lemma WriteOut<T>(compare: (T, T) -> int, out: seq<T>, x: T)
    requires Ascending(compare, out) && AfterAll(compare, out, x)
    ensures Ascending(compare, out + [x])
  {
  }

  lemma AfterMore<T>(compare: (T, T) -> int, out: seq<T>, h: T, x: T)
    requires AfterAll(compare, out, x) && compare(h, x) >= 0
    ensures AfterAll(compare, out + [h], x)
  {
  }

  lemma AfterTrans<T(!new)>(compare: (T, T) -> int, out: seq<T>, h: T, x: T)
    requires Preorder(compare) && AfterAll(compare, out, h) && compare(h, x) >= 0
    ensures AfterAll(compare, out + [h], x)
  {
    hide Preorder;
    forall p | 0 <= p < |out| ensures compare(out[p], x) >= 0 {
      TransDown(compare, out[p], h, x);
    }
  }

  lemma RecordsFirst<T>(live: seq<Node<T>>)
    requires |live| > 0
    ensures Records(live) == [live[0].rp] + Records(live[1..])
  {
    assert live == [live[0]] + live[1..];
    RecordsConcat([live[0]], live[1..]);
    RecordsOne(live[0]);
  }

  /** The first record is written, and the next one of its source takes its place. */
  lemma WriteNext<T(!new)>(compare: (T, T) -> int, out: seq<T>, live: seq<Node<T>>, rest: seq<seq<T>>, all: multiset<T>)
    requires Preorder(compare) && Flow(compare, out, live, rest, all) && Ordered(compare, live) && |live| > 0
    requires NodeOk(compare, live[0], rest) && rest[live[0].rn] != []
    ensures var h := live[0];
      Flow(compare, out + [h.rp], live[0 := Node(rest[h.rn][0], h.rn)], rest[h.rn := rest[h.rn][1..]], all)
  {
    hide Preorder, AfterAll, Ascending, Sum, Records;
    var h := live[0];
    var run := rest[h.rn];
    var next := Node(run[0], h.rn);
    var live', rest', out' := live[0 := next], rest[h.rn := run[1..]], out + [h.rp];
    WriteOut(compare, out, h.rp);
    TailRun(compare, run);
    forall k | 0 <= k < |live'| ensures NodeOk(compare, live'[k], rest') && AfterAll(compare, out', live'[k].rp) {
      if k == 0 {
        AfterTrans(compare, out, h.rp, run[0]);
      } else {
        assert NodeOk(compare, live[k], rest) && live[k].rn != h.rn;
        AfterMore(compare, out, h.rp, live[k].rp);
      }
    }
    SumSet(rest, h.rn, run[1..]);
    RecordsFirst(live);
    RecordsFirst(live');
    assert live'[1..] == live[1..];
    assert run == [run[0]] + run[1..];
    Tally(out, h.rp, Records(live[1..]), run, Sum(rest), Sum(rest'), all);
  }

  lemma SpentNext<T>(live: seq<Node<T>>, rest: seq<seq<T>>, x: T)
    requires |live| > 0 && 0 <= live[0].rn < |rest| && rest[live[0].rn] != [] && Spent(live, rest)
    ensures Spent(live[0 := Node(x, live[0].rn)], rest[live[0].rn := rest[live[0].rn][1..]])
  {
    var h := live[0].rn;
    var live', rest' := live[0 := Node(x, h)], rest[h := rest[h][1..]];
    forall i | 0 <= i < |rest'| && (forall k :: 0 <= k < |live'| ==> live'[k].rn != i) ensures rest'[i] == [] {
      assert live'[0].rn == h;
      assert forall k :: 0 <= k < |live| ==> live[k].rn == live'[k].rn;
    }
  }

  lemma Cancel<T>(a: multiset<T>, b: multiset<T>, c: multiset<T>)
    requires a + c == b + c
    ensures a == b
  {
    forall x ensures a[x] == b[x] {
      assert (a + c)[x] == (b + c)[x];
    }
  }

  lemma Tally<T>(out: seq<T>, h: T, more: seq<T>, run: seq<T>, before: multiset<T>, after: multiset<T>,
                 all: multiset<T>)
    requires run != [] && multiset(out) + multiset([h] + more) + before == all
    requires after + multiset(run) == before + multiset(run[1..])
    ensures multiset(out + [h]) + multiset([run[0]] + more) + after == all
  {
    assert run == [run[0]] + run[1..];
    Cancel(after + multiset{run[0]}, before, multiset(run[1..]));
  }

  lemma TailRun<T>(compare: (T, T) -> int, run: seq<T>)
    requires run != [] && Ascending(compare, run)
    ensures Run(compare, run[0], run[1..])
  {
  }

  /** The first record is written, and its source has no other. */
  lemma WriteLast<T(!new)>(compare: (T, T) -> int, out: seq<T>, live: seq<Node<T>>, rest: seq<seq<T>>, all: multiset<T>)
    requires Preorder(compare) && Flow(compare, out, live, rest, all) && Ordered(compare, live) && |live| > 0
    requires NodeOk(compare, live[0], rest) && rest[live[0].rn] == []
    ensures Flow(compare, out + [live[0].rp], live[1..], rest, all) && Ordered(compare, live[1..])
  {
    hide Preorder, AfterAll, Ascending, NodeOk, Sum, Records;
    var h := live[0];
    WriteOut(compare, out, h.rp);
    forall k | 0 <= k < |live[1..]|
      ensures NodeOk(compare, live[1..][k], rest) && AfterAll(compare, out + [h.rp], live[1..][k].rp) {
      AfterMore(compare, out, h.rp, live[k + 1].rp);
    }
    RecordsFirst(live);
  }

  lemma SpentLast<T>(live: seq<Node<T>>, rest: seq<seq<T>>)
    requires |live| > 0 && 0 <= live[0].rn < |rest| && rest[live[0].rn] == [] && Spent(live, rest)
    ensures Spent(live[1..], rest)
  {
    forall i | 0 <= i < |rest| && (forall k :: 0 <= k < |live[1..]| ==> live[1..][k].rn != i) ensures rest[i] == [] {
      if i != live[0].rn {
        forall k | 0 <= k < |live| ensures live[k].rn != i {
          if k > 0 {
            assert live[1..][k - 1] == live[k];
          }
        }
      }
    }
  }

  lemma OrderedTail<T>(compare: (T, T) -> int, live: seq<Node<T>>, x: Node<T>)
    requires Ordered(compare, live) && |live| > 0
    ensures Ordered(compare, live[0 := x][1..])
  {
    assert live[0 := x][1..] == live[1..];
  }

  lemma FlowDone<T>(compare: (T, T) -> int, out: seq<T>, rest: seq<seq<T>>, all: multiset<T>)
    requires Flow(compare, out, [], rest, all) && Spent([], rest)
    ensures Ascending(compare, out) && multiset(out) == all
  {
    SumNone(rest);
  }
}
