/** The hunks that diff reports, and which lines they touch. */
module DiffHunks {
  import opened FiniteSets

  /** Lines a..b of the first file become lines c..d of the second; a == b + 1 or c == d + 1 is an empty range. */
  datatype Hunk = Hunk(a: int, b: int, c: int, d: int)

  /** change(): a hunk that is empty on both sides is not reported. */
  function Change(hs: seq<Hunk>, a: int, b: int, c: int, d: int): seq<Hunk> {
    if a > b && c > d then hs else hs + [Hunk(a, b, c, d)]
  }

  // ----- How the hunks lie to one another -----

  /** Hunk g comes before hunk h, and there is a line between them on both sides. */
  predicate Between(g: Hunk, h: Hunk) {
    g.b + 1 < h.a && g.d + 1 < h.c
  }

  predicate Something(h: Hunk) {
    h.a <= h.b || h.c <= h.d
  }

  /** From the top down: no hunk is empty, and no two of them could be one. */
  ghost predicate Descending(hs: seq<Hunk>) {
    && (forall k :: 0 <= k < |hs| ==> Something(hs[k]))
    && forall k :: 0 < k < |hs| ==> Between(hs[k - 1], hs[k])
  }

  /** The same from the bottom up. */
  ghost predicate Ascending(hs: seq<Hunk>) {
    && (forall k :: 0 <= k < |hs| ==> Something(hs[k]))
    && forall k :: 0 < k < |hs| ==> Between(hs[k], hs[k - 1])
  }

  /** The last hunk ends at or above line i of the first file and line j of the second. */
  ghost predicate EndsBy(hs: seq<Hunk>, i: int, j: int) {
    hs != [] ==> hs[|hs| - 1].b <= i && hs[|hs| - 1].d <= j
  }

  /** The last hunk begins below line i of the first file and line j of the second. */
  ghost predicate BeginsAfter(hs: seq<Hunk>, i: int, j: int) {
    hs != [] ==> i < hs[|hs| - 1].a && j < hs[|hs| - 1].c
  }

  lemma EndsLater(hs: seq<Hunk>, i: int, j: int, i': int, j': int)
    requires EndsBy(hs, i, j) && i <= i' && j <= j'
    ensures EndsBy(hs, i', j')
  {
  }

  lemma BeginsEarlier(hs: seq<Hunk>, i: int, j: int, i': int, j': int)
    requires BeginsAfter(hs, i, j) && i' <= i && j' <= j
    ensures BeginsAfter(hs, i', j')
  {
  }

  lemma DescendingMore(hs: seq<Hunk>, a: int, b: int, c: int, d: int)
    requires Descending(hs) && (hs == [] || EndsBy(hs, a - 2, c - 2))
    ensures Descending(Change(hs, a, b, c, d))
  {
  }

  lemma AscendingMore(hs: seq<Hunk>, a: int, b: int, c: int, d: int)
    requires Ascending(hs) && (hs == [] || BeginsAfter(hs, b + 1, d + 1))
    ensures Ascending(Change(hs, a, b, c, d))
  {
  }

  // ----- Which lines the hunks touch -----

  ghost predicate Removed(hs: seq<Hunk>, x: int) {
    exists k :: 0 <= k < |hs| && hs[k].a <= x <= hs[k].b
  }

  ghost predicate Inserted(hs: seq<Hunk>, y: int) {
    exists k :: 0 <= k < |hs| && hs[k].c <= y <= hs[k].d
  }

  /** One of lines lo + 1..hi of the first file has line y of the second as its mate. */
  ghost predicate MatedIn(J: seq<int>, lo: int, hi: int, y: int)
    requires 0 <= lo && hi < |J|
  {
    exists x :: lo < x <= hi && J[x] == y
  }

  /**
   * The hunks remove just the lines without a mate among lines lo + 1..hi of the first file, and insert just the
   * lines that are no mates among lines c + 1..d of the second.
   */
  ghost predicate Told(J: seq<int>, hs: seq<Hunk>, lo: int, hi: int, c: int, d: int) {
    && 0 <= lo <= hi < |J| && 0 <= c <= d
    && (forall x :: Removed(hs, x) <==> lo < x <= hi && J[x] == 0)
    && (forall y :: Inserted(hs, y) <==> c < y <= d && !MatedIn(J, lo, hi, y))
    && (forall x :: lo < x <= hi && J[x] != 0 ==> c < J[x] <= d)
  }

  /** All the lines without a mate, and no others. */
  ghost predicate Exact(J: seq<int>, n: int, m: int, hs: seq<Hunk>) {
    Told(J, hs, 0, n, 0, m)
  }

  lemma ToldNone(J: seq<int>, i: int, j: int)
    requires 0 <= i < |J| && 0 <= j
    ensures Told(J, [], i, i, j, j)
  {
  }

  /** One more hunk touches its own lines besides. */
  lemma ChangeTouches(hs: seq<Hunk>, a: int, b: int, c: int, d: int, z: int)
    ensures Removed(Change(hs, a, b, c, d), z) <==> Removed(hs, z) || a <= z <= b
    ensures Inserted(Change(hs, a, b, c, d), z) <==> Inserted(hs, z) || c <= z <= d
  {
    var all := Change(hs, a, b, c, d);
    if !(a > b && c > d) {
      assert all[|hs|] == Hunk(a, b, c, d);
      forall k | 0 <= k < |hs| ensures all[k] == hs[k] {
      }
    }
  }

  /** Lines lo..hi are widened to lo'..hi'; what is new has no mates. */
  lemma MatedWider(J: seq<int>, lo: int, hi: int, lo': int, hi': int, y: int)
    requires 0 <= lo' <= lo <= hi <= hi' < |J|
    requires forall x :: lo' < x <= hi' && !(lo < x <= hi) ==> J[x] != y
    ensures MatedIn(J, lo', hi', y) <==> MatedIn(J, lo, hi, y)
  {
    if MatedIn(J, lo, hi, y) {
      var x :| lo < x <= hi && J[x] == y;
      assert lo' < x <= hi';
    }
  }

  /** A pair of mates after the part told, which no hunk touches. */
  lemma ToldMate(J: seq<int>, hs: seq<Hunk>, lo: int, hi: int, c: int, d: int)
    requires Told(J, hs, lo, hi, c, d) && hi + 1 < |J| && J[hi + 1] == d + 1
    ensures Told(J, hs, lo, hi + 1, c, d + 1)
  {
    forall y ensures Inserted(hs, y) <==> c < y <= d + 1 && !MatedIn(J, lo, hi + 1, y) {
      if y == d + 1 {
        assert MatedIn(J, lo, hi + 1, J[hi + 1]);
      } else {
        MatedWider(J, lo, hi, lo, hi + 1, y);
      }
    }
  }

  /** A hunk after the part told, over lines without mates. */
  lemma ToldHunk(J: seq<int>, hs: seq<Hunk>, lo: int, hi: int, c: int, d: int, hi': int, d': int)
    requires Told(J, hs, lo, hi, c, d) && hi <= hi' < |J| && d <= d' && forall x :: hi < x <= hi' ==> J[x] == 0
    ensures Told(J, Change(hs, hi + 1, hi', d + 1, d'), lo, hi', c, d')
  {
    var all := Change(hs, hi + 1, hi', d + 1, d');
    forall z {:trigger Removed(all, z)} ensures Removed(all, z) <==> lo < z <= hi' && J[z] == 0 {
      ChangeTouches(hs, hi + 1, hi', d + 1, d', z);
    }
    forall z {:trigger Inserted(all, z)} ensures Inserted(all, z) <==> c < z <= d' && !MatedIn(J, lo, hi', z) {
      ChangeTouches(hs, hi + 1, hi', d + 1, d', z);
      if c < z { MatedWider(J, lo, hi, lo, hi', z); }
    }
  }

  /** A pair of mates before the part told. */
  lemma MateTold(J: seq<int>, hs: seq<Hunk>, lo: int, hi: int, c: int, d: int)
    requires Told(J, hs, lo, hi, c, d) && 1 <= lo && 1 <= c && J[lo] == c
    ensures Told(J, hs, lo - 1, hi, c - 1, d)
  {
    forall y ensures Inserted(hs, y) <==> c - 1 < y <= d && !MatedIn(J, lo - 1, hi, y) {
      if y == c {
        assert MatedIn(J, lo - 1, hi, J[lo]);
      } else {
        MatedWider(J, lo, hi, lo - 1, hi, y);
      }
    }
  }

  /** A hunk before the part told, over lines without mates. */
  lemma HunkTold(J: seq<int>, hs: seq<Hunk>, lo: int, hi: int, c: int, d: int, lo': int, c': int)
    requires Told(J, hs, lo, hi, c, d) && 0 <= lo' <= lo && 0 <= c' <= c
    requires forall x :: lo' < x <= lo ==> J[x] == 0
    ensures Told(J, Change(hs, lo' + 1, lo, c' + 1, c), lo', hi, c', d)
  {
    var all := Change(hs, lo' + 1, lo, c' + 1, c);
    forall z {:trigger Removed(all, z)} ensures Removed(all, z) <==> lo' < z <= hi && J[z] == 0 {
      ChangeTouches(hs, lo' + 1, lo, c' + 1, c, z);
    }
    forall z {:trigger Inserted(all, z)} ensures Inserted(all, z) <==> c' < z <= d && !MatedIn(J, lo', hi, z) {
      ChangeTouches(hs, lo' + 1, lo, c' + 1, c, z);
      if c' < z { MatedWider(J, lo, hi, lo', hi, z); }
    }
  }

  // ----- How many lines the hunks touch -----

  ghost function RemovedLines(hs: seq<Hunk>, n: nat): set<int> {
    set x | 1 <= x <= n && Removed(hs, x)
  }

  ghost function InsertedLines(hs: seq<Hunk>, m: nat): set<int> {
    set y | 1 <= y <= m && Inserted(hs, y)
  }

  /** A set of lines 1..n and the lines outside it are n lines. */
  lemma {:induction false} Outside(s: set<int>, t: set<int>, n: nat)
    requires forall x :: x in s || x in t <==> 1 <= x <= n
    requires forall x :: x in s ==> x !in t
    ensures |s| + |t| == n
  {
    if n == 0 {
      NoMember(s);
      NoMember(t);
    } else {
      assert n in s || n in t;
      forall x ensures x in s - {n} || x in t - {n} <==> 1 <= x <= n - 1 {
        assert x in s || x in t <==> 1 <= x <= n;
      }
      Outside(s - {n}, t - {n}, n - 1);
    }
  }

  lemma {:induction false} IncreasingSize(s: seq<int>)
    requires forall i, k :: 0 <= i < k < |s| ==> s[i] < s[k]
    ensures |set x | x in s| == |s|
  {
    var all := set x | x in s;
    if s == [] {
      NoMember(all);
    } else {
      var n := |s| - 1;
      IncreasingSize(s[..n]);
      assert s == s[..n] + [s[n]];
      assert all == (set x | x in s[..n]) + {s[n]};
    }
  }
}
