/** How much of the positions array is in use, to the cell: blocks of states from below, of follow sets from above. */
module EgrepRoom {
  import opened EgrepTree
  import opened EgrepPositions
  import opened EgrepMarks
  import opened EgrepTables
  import opened FiniteSets

  // ----- What the blocks take -----

  /** A block for each of these sets: its size and its members. */
  ghost function Size(up: Sets): int {
    if up == [] then 0 else Size(up[..|up| - 1]) + 1 + |up[|up| - 1]|
  }

  /** A block for the follow set of each position below n that is in done. */
  ghost function FollSize(t: Tree, done: set<int>, n: int): int
    requires t.Ok() && n <= t.line
    decreases n
  {
    if n <= 3 then 0 else FollSize(t, done, n - 1) + if n - 1 in done then 1 + |t.Follow(n - 1)| else 0
  }

  /** With these blocks in the array, one for a set of this size does not fit any more. */
  ghost predicate Full(t: Tree, up: Sets, done: set<int>, size: int)
    requires t.Ok()
  {
    Size(up) + FollSize(t, done, t.line - 1) + 1 + size >= MAXPOS
  }

  /** The two ends of the free part are just where these blocks leave them. */
  ghost predicate Account(t: Tree, nxtpos: int, nxtfoll: int, up: Sets, done: set<int>)
    requires t.Ok()
  {
    nxtpos == Size(up) && MAXPOS - 1 - nxtfoll == FollSize(t, done, t.line - 1)
  }

  // ----- Which blocks there are -----

  ghost predicate NoRepeats(up: Sets, a: int, b: int) {
    forall i, j :: 0 <= a <= i < j < b && j < |up| ==> up[i] != up[j]
  }

  /**
   The first block, if there is any, is for the beginning. After it come blocks of states that were dropped, none
   twice, as far as cut, and then blocks of states in use, none twice. All are for sets that were met.
   */
  ghost predicate Written(t: Tree, up: Sets, cut: int, seen: set<set<int>>)
    requires t.Ok()
  {
    && (up != [] ==> up[0] == Begin(t)) && 0 <= cut < NSTATES && |up| < cut + NSTATES
    && NoRepeats(up, 1, cut + 1) && NoRepeats(up, cut + 1, |up|)
    && forall i :: 0 <= i < |up| ==> up[i] in seen
  }

  ghost predicate InSome(seen: set<set<int>>, q: int) {
    exists s :: s in seen && q in s
  }

  lemma SetMet(seen: set<set<int>>, s: set<int>, q: int)
    requires s in seen && q in s
    ensures InSome(seen, q)
  {
  }

  /** Follow sets are there for positions in sets that were met. */
  ghost predicate FollsMet(t: Tree, done: set<int>, seen: set<set<int>>) {
    forall q :: q in done ==> 3 <= q <= t.line - 2 && InSome(seen, q)
  }

  /** A block that may be called for: for a set that was met, or the follow set of a position in one, not yet there. */
  ghost predicate Wanted(t: Tree, done: set<int>, seen: set<set<int>>, block: set<int>)
    requires t.Ok()
  {
    block in seen || exists q :: 3 <= q <= t.line - 2 && q !in done && InSome(seen, q) && block == t.Follow(q)
  }

  /** The blocks in the array, and one more that does not fit. */
  datatype Ledger = Ledger(up: Sets, cut: int, done: set<int>, block: set<int>)

  ghost predicate NoRoom(t: Tree, l: Ledger, seen: set<set<int>>)
    requires t.Ok()
  {
    && Written(t, l.up, l.cut, seen) && FollsMet(t, l.done, seen) && Wanted(t, l.done, seen, l.block)
    && Full(t, l.up, l.done, |l.block|)
  }

  /** The states in use are those of the last blocks; state 1 is that of the beginning, or of the set kept last. */
  ghost predicate Listed(t: Tree, up: Sets, cut: int, reinit: int, sets: Sets, n: int, seen: set<set<int>>)
    requires t.Ok()
  {
    && Written(t, up, cut, seen) && |up| == n + cut && 1 <= n < NSTATES == |sets|
    && (forall i :: 2 <= i <= n ==> sets[i] == up[cut + i - 1])
    && (reinit == 0 ==> sets[1] == Begin(t))
    && (reinit == 1 ==> cut == 1 && sets[1] == up[1] && NoRepeats(up, 1, |up|))
    && (reinit == 0 || reinit == 1)
    && forall s :: s in seen ==> ArePositions(t, s)
  }

  // ----- Adding blocks -----

  lemma SizeMore(up: Sets, s: set<int>)
    ensures Size(up + [s]) == Size(up) + 1 + |s|
  {
    assert (up + [s])[..|up|] == up;
  }

  lemma {:induction false} FollSizeMore(t: Tree, done: set<int>, q: int, n: int)
    requires t.Ok() && n <= t.line && 3 <= q && q !in done
    ensures FollSize(t, done + {q}, n) == FollSize(t, done, n) + if q < n then 1 + |t.Follow(q)| else 0
    decreases n
  {
    if n > 3 {
      FollSizeMore(t, done, q, n - 1);
    }
  }

  lemma {:induction false} FollSizeNone(t: Tree, n: int)
    requires t.Ok() && n <= t.line
    ensures FollSize(t, {}, n) == 0
    decreases n
  {
    if n > 3 {
      FollSizeNone(t, n - 1);
    }
  }

  lemma NothingWritten(t: Tree, foll: seq<int>)
    requires t.Ok() && |foll| == t.line + 1 && forall q :: 0 <= q < |foll| ==> foll[q] == 0
    ensures Computed(foll) == {} && Account(t, 0, MAXPOS - 1, [], Computed(foll))
    ensures forall seen :: FollsMet(t, Computed(foll), seen)
  {
    NoMember(Computed(foll));
    FollSizeNone(t, t.line - 1);
  }

  lemma StateWritten(t: Tree, nxtpos: int, nxtfoll: int, up: Sets, done: set<int>, s: set<int>)
    requires t.Ok() && Account(t, nxtpos, nxtfoll, up, done)
    ensures nxtpos + |s| < nxtfoll <==> !Full(t, up, done, |s|)
    ensures Account(t, nxtpos + 1 + |s|, nxtfoll, up + [s], done)
  {
    SizeMore(up, s);
  }

  lemma FollWritten(t: Tree, nxtpos: int, nxtfoll: int, up: Sets, foll: seq<int>, q: int)
    requires t.Ok() && Account(t, nxtpos, nxtfoll, up, Computed(foll)) && |foll| == t.line + 1
    requires 3 <= q <= t.line - 2 && foll[q] == 0 && nxtfoll != 0
    ensures nxtpos < nxtfoll - |t.Follow(q)| <==> !Full(t, up, Computed(foll), |t.Follow(q)|)
    ensures Account(t, nxtpos, nxtfoll - 1 - |t.Follow(q)|, up, Computed(foll[q := nxtfoll]))
  {
    assert Computed(foll[q := nxtfoll]) == Computed(foll) + {q};
    FollSizeMore(t, Computed(foll), q, t.line - 1);
  }

  lemma FollMet(t: Tree, foll: seq<int>, q: int, f: int, seen: set<set<int>>)
    requires t.Ok() && |foll| == t.line + 1 && FollsMet(t, Computed(foll), seen)
    requires 3 <= q <= t.line - 2 && foll[q] == 0 && f != 0 && InSome(seen, q)
    ensures FollsMet(t, Computed(foll[q := f]), seen)
    ensures Wanted(t, Computed(foll), seen, t.Follow(q))
  {
    assert Computed(foll[q := f]) == Computed(foll) + {q};
    assert q !in Computed(foll);
  }

  /** One more set was met. */
  lemma SeenMore(t: Tree, up: Sets, cut: int, reinit: int, sets: Sets, n: int, done: set<int>, seen: set<set<int>>,
                 s: set<int>)
    requires t.Ok() && Listed(t, up, cut, reinit, sets, n, seen) && FollsMet(t, done, seen) && ArePositions(t, s)
    ensures Listed(t, up, cut, reinit, sets, n, seen + {s}) && FollsMet(t, done, seen + {s})
  {
    hide NoRepeats, ArePositions, InSome;
    forall q | InSome(seen, q) ensures InSome(seen + {s}, q) {
      SomeMore(seen, s, q);
    }
  }

  lemma SomeMore(seen: set<set<int>>, s: set<int>, q: int)
    requires InSome(seen, q)
    ensures InSome(seen + {s}, q)
  {
    var x :| x in seen && q in x;
    assert x in seen + {s};
  }

  lemma ListedFirst(t: Tree, sets: Sets)
    requires t.Ok() && |sets| == NSTATES && ArePositions(t, Begin(t))
    ensures Listed(t, [Begin(t)], 0, 0, sets[1 := Begin(t)], 1, {Begin(t)})
    ensures Written(t, [], 0, {Begin(t)})
  {
  }

  lemma ListedMore(t: Tree, up: Sets, cut: int, reinit: int, sets: Sets, n: int, seen: set<set<int>>, s: set<int>)
    requires t.Ok() && Listed(t, up, cut, reinit, sets, n, seen) && n + 1 < NSTATES && s in seen
    requires forall i :: 1 <= i <= n ==> sets[i] != s
    ensures Listed(t, up + [s], cut, reinit, sets[n + 1 := s], n + 1, seen)
  {
    var more := up + [s];
    forall i | cut + 1 <= i < |up| ensures up[i] != s {
      assert sets[i - cut + 1] == up[i];
    }
    forall i | reinit == 1 && 1 <= i < |up| ensures up[i] != s {
      assert i >= 2 ==> sets[i] == up[i];
    }
  }

  /** The cache was full: all blocks but the first are given up. */
  lemma ListedOver(t: Tree, sets: Sets, seen: set<set<int>>, s: set<int>)
    requires t.Ok() && |sets| == NSTATES && s in seen && Begin(t) in seen
    requires forall x :: x in seen ==> ArePositions(t, x)
    ensures Listed(t, [Begin(t)] + [s], 1, 1, sets[1 := s], 1, seen)
    ensures Written(t, [Begin(t)], 1, seen)
  {
  }

  /** A fresh start: the blocks stay. */
  lemma ListedClear(t: Tree, up: Sets, cut: int, sets: Sets, n: int, seen: set<set<int>>)
    requires t.Ok() && Listed(t, up, cut, 1, sets, n, seen)
    ensures Listed(t, up, n + cut - 1, 0, sets[1 := Begin(t)], 1, seen)
  {
  }

  lemma ListedFacts(t: Tree, up: Sets, cut: int, reinit: int, sets: Sets, n: int, seen: set<set<int>>)
    requires t.Ok() && Listed(t, up, cut, reinit, sets, n, seen)
    ensures Written(t, up, cut, seen) && Begin(t) in seen && |sets| == NSTATES && 1 <= n < NSTATES
    ensures forall s :: s in seen ==> ArePositions(t, s)
    ensures forall i :: 1 <= i <= n ==> sets[i] in seen
  {
    hide NoRepeats, ArePositions;
  }

  /** The block of the beginning, and nothing else from below. */
  lemma OnlyFirst(t: Tree, nxtpos: int, nxtfoll: int, up: Sets, done: set<int>)
    requires t.Ok() && Account(t, nxtpos, nxtfoll, up, done)
    ensures Account(t, 1 + |Begin(t)|, nxtfoll, [Begin(t)], done)
  {
    SizeMore([], Begin(t));
    assert [] + [Begin(t)] == [Begin(t)];
  }

  // ----- Few nodes never fill the array -----

  /** So few nodes that no run can fill the array. */
  ghost predicate Small(t: Tree) {
    t.line * (t.line + 256) < MAXPOS
  }

  lemma {:induction false} SizeBound(t: Tree, up: Sets)
    requires t.Ok() && forall i :: 0 <= i < |up| ==> ArePositions(t, up[i])
    ensures Size(up) <= t.line * |up|
  {
    if up != [] {
      var n := |up| - 1;
      SizeBound(t, up[..n]);
      BlockFits(t, up[n]);
      assert t.line * |up| == t.line * n + t.line;
    }
  }

  lemma {:induction false} FollSizeBound(t: Tree, done: set<int>, n: int)
    requires t.Ok() && 3 <= n <= t.line - 1
    ensures FollSize(t, done, n) <= t.line * (n - 3)
    decreases n
  {
    if n > 3 {
      FollSizeBound(t, done, n - 1);
      FollowInside(t, n - 1);
      BlockFits(t, t.Follow(n - 1));
      assert t.line * (n - 3) == t.line * (n - 4) + t.line;
    }
  }

  lemma NotSmall(t: Tree, l: Ledger, seen: set<set<int>>)
    requires t.Ok() && NoRoom(t, l, seen) && forall s :: s in seen ==> ArePositions(t, s)
    ensures !Small(t)
  {
    hide NoRepeats, Tree.Ok, Tree.Follow, ArePositions, InSome;
    SizeBound(t, l.up);
    Lines(t);
    FollSizeBound(t, l.done, t.line - 1);
    WantedFits(t, l, seen);
    Product(t.line, |l.up|, 254);
    assert t.line * (t.line + 256) == t.line * 254 + t.line * (t.line - 4) + t.line * 6;
  }

  lemma Lines(t: Tree)
    requires t.Ok()
    ensures t.line >= 4
  {
  }

  lemma WantedFits(t: Tree, l: Ledger, seen: set<set<int>>)
    requires t.Ok() && Wanted(t, l.done, seen, l.block) && forall s :: s in seen ==> ArePositions(t, s)
    ensures |l.block| + 1 < t.line
  {
    hide ArePositions;
    if l.block in seen {
      BlockFits(t, l.block);
    } else {
      var q :| 3 <= q <= t.line - 2 && q !in l.done && InSome(seen, q) && l.block == t.Follow(q);
      FollowInside(t, q);
      BlockFits(t, l.block);
    }
  }
}
