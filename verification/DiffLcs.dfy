/** Longest common subsequences of two sequences, numbered from 1 as diff numbers lines. */
module DiffLcs {
  function Max(a: nat, b: nat): nat { if a < b then b else a }

  /** Elements i of a and j of b are the same. */
  predicate Match(a: seq<int>, b: seq<int>, i: int, j: int) {
    1 <= i <= |a| && 1 <= j <= |b| && a[i - 1] == b[j - 1]
  }

  /** The length of a longest common subsequence of the first i elements of a and the first j of b. */
  ghost function L(a: seq<int>, b: seq<int>, i: nat, j: nat): nat
    requires i <= |a| && j <= |b|
    decreases i + j
  {
    if i == 0 || j == 0 then 0
    else if Match(a, b, i, j) then L(a, b, i - 1, j - 1) + 1
    else Max(L(a, b, i - 1, j), L(a, b, i, j - 1))
  }

  ghost function Lcs(a: seq<int>, b: seq<int>): nat { L(a, b, |a|, |b|) }

  datatype Pair = Pair(x: int, y: int)

  /** A common subsequence, as the pairs of positions it matches. */
  ghost predicate Common(a: seq<int>, b: seq<int>, ps: seq<Pair>) {
    && (forall k :: 0 <= k < |ps| ==> Match(a, b, ps[k].x, ps[k].y))
    && (forall k, l :: 0 <= k < l < |ps| ==> ps[k].x < ps[l].x && ps[k].y < ps[l].y)
  }

  /** Each step to the right or down adds at most one, and takes nothing away. */
  lemma {:induction false} LSteps(a: seq<int>, b: seq<int>, i: nat, j: nat)
    requires i <= |a| && j <= |b|
    ensures i > 0 ==> L(a, b, i - 1, j) <= L(a, b, i, j) <= L(a, b, i - 1, j) + 1
    ensures j > 0 ==> L(a, b, i, j - 1) <= L(a, b, i, j) <= L(a, b, i, j - 1) + 1
    decreases i + j
  {
    if i > 0 && j > 0 {
      LSteps(a, b, i - 1, j);
      LSteps(a, b, i, j - 1);
    }
  }

  lemma {:induction false} LMono(a: seq<int>, b: seq<int>, i: nat, j: nat, j': nat)
    requires i <= |a| && j <= j' <= |b|
    ensures L(a, b, i, j) <= L(a, b, i, j')
    decreases j' - j
  {
    if j < j' {
      LMono(a, b, i, j, j' - 1);
      LSteps(a, b, i, j');
    }
  }

  /** No common subsequence is longer. */
  lemma {:induction false} UpperBound(a: seq<int>, b: seq<int>, ps: seq<Pair>, i: nat, j: nat)
    requires Common(a, b, ps) && i <= |a| && j <= |b|
    requires forall k :: 0 <= k < |ps| ==> ps[k].x <= i && ps[k].y <= j
    ensures |ps| <= L(a, b, i, j)
    decreases i + j
  {
    if ps != [] {
      var last := ps[|ps| - 1];
      if last.x < i {
        UpperBound(a, b, ps, i - 1, j);
        LSteps(a, b, i, j);
      } else if last.y < j {
        UpperBound(a, b, ps, i, j - 1);
        LSteps(a, b, i, j);
      } else {
        UpperBound(a, b, ps[..|ps| - 1], i - 1, j - 1);
      }
    }
  }

  /** A common first element belongs to a longest common subsequence. */
  lemma {:induction false} CommonHead(x: int, a: seq<int>, b: seq<int>, i: nat, j: nat)
    requires i <= |a| && j <= |b|
    ensures L([x] + a, [x] + b, i + 1, j + 1) == 1 + L(a, b, i, j)
    decreases i + j
  {
    if i == 0 && j == 0 {
    } else if i == 0 {
      CommonHead(x, a, b, 0, j - 1);
    } else if j == 0 {
      CommonHead(x, a, b, i - 1, 0);
    } else {
      CommonHead(x, a, b, i - 1, j - 1);
      CommonHead(x, a, b, i - 1, j);
      CommonHead(x, a, b, i, j - 1);
      assert ([x] + a)[i] == a[i - 1] && ([x] + b)[j] == b[j - 1];
    }
  }

  lemma {:induction false} CommonPrefix(p: seq<int>, a: seq<int>, b: seq<int>)
    ensures Lcs(p + a, p + b) == |p| + Lcs(a, b)
  {
    if p == [] {
      assert p + a == a && p + b == b;
    } else {
      var x, q := p[0], p[1..];
      assert p + a == [x] + (q + a) && p + b == [x] + (q + b);
      CommonPrefix(q, a, b);
      CommonHead(x, q + a, q + b, |q + a|, |q + b|);
    }
  }

  /** L looks only at the elements it is told to. */
  lemma {:induction false} LPrefix(a: seq<int>, b: seq<int>, c: seq<int>, d: seq<int>, i: nat, j: nat)
    requires i <= |a| && j <= |b|
    ensures L(a + c, b + d, i, j) == L(a, b, i, j)
    decreases i + j
  {
    if i > 0 && j > 0 {
      LPrefix(a, b, c, d, i - 1, j - 1);
      LPrefix(a, b, c, d, i - 1, j);
      LPrefix(a, b, c, d, i, j - 1);
    }
  }

  lemma {:induction false} CommonSuffix(a: seq<int>, b: seq<int>, s: seq<int>)
    ensures Lcs(a + s, b + s) == Lcs(a, b) + |s|
  {
    if s == [] {
      assert a + s == a && b + s == b;
    } else {
      var x, t := s[|s| - 1], s[..|s| - 1];
      assert a + s == (a + t) + [x] && b + s == (b + t) + [x];
      CommonSuffix(a, b, t);
      LPrefix(a + t, b + t, [x], [x], |a + t|, |b + t|);
      assert Match(a + s, b + s, |a| + |s|, |b| + |s|);
    }
  }

  /** Pruning a common prefix and suffix loses nothing. */
  lemma Pruned(p: seq<int>, a: seq<int>, b: seq<int>, s: seq<int>)
    ensures Lcs(p + a + s, p + b + s) == |p| + Lcs(a, b) + |s|
  {
    CommonSuffix(p + a, p + b, s);
    CommonPrefix(p, a, b);
  }
}
