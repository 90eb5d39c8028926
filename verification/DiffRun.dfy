/** diffreg: the whole program on two files. */
module DiffRun {
  import opened DiffLcs
  import opened DiffMatch
  import opened DiffHunks
  import opened DiffOutput
  import opened DiffCheck

  /** readhash is any function that is never 0: 0 means end of file. */
  type Hash = Line -> int

  function Hashes(ls: seq<Line>, hash: Hash): (r: seq<int>)
    ensures |r| == |ls| && forall i :: 0 <= i < |ls| ==> r[i] == hash(ls[i])
  {
    seq(|ls|, i requires 0 <= i < |ls| => hash(ls[i]))
  }

  /** No two different lines of the two files hash alike. */
  ghost predicate NoConfounding(ls: seq<Line>, ms: seq<Line>, hash: Hash) {
    forall i, j :: 0 <= i < |ls| && 0 <= j < |ms| && hash(ls[i]) == hash(ms[j]) ==> ls[i] == ms[j]
  }

  lemma PairsUp(ps: seq<Pair>, t: nat, u: nat, a: seq<int>, b: seq<int>)
    requires Common(a, b, ps) && t < |ps| && u < |ps| && ps[t].x < ps[u].x
    ensures ps[t].y < ps[u].y
  {
  }

  lemma LongestIncreasing(a: seq<int>, b: seq<int>, J: seq<int>)
    requires Longest(a, b, J)
    ensures Increasing(J, |a|, |b|)
    ensures forall i :: 1 <= i <= |a| && J[i] != 0 ==> Match(a, b, i, J[i])
  {
    var ps: seq<Pair> :| Common(a, b, ps) && |ps| == Lcs(a, b) && Records(J, |a|, ps);
    forall i | 1 <= i <= |a| && J[i] != 0 ensures Match(a, b, i, J[i]) {
      assert Recorded(ps, i);
      var t :| 0 <= t < |ps| && ps[t].x == i;
      assert Match(a, b, ps[t].x, ps[t].y);
    }
    forall i, k | 1 <= i < k <= |a| && J[i] != 0 && J[k] != 0 ensures J[i] < J[k] {
      assert Recorded(ps, i) && Recorded(ps, k);
      var t :| 0 <= t < |ps| && ps[t].x == i;
      var u :| 0 <= u < |ps| && ps[u].x == k;
      PairsUp(ps, t, u, a, b);
    }
    forall i | 1 <= i <= |a| ensures 0 <= J[i] <= |b| {
      if J[i] != 0 { assert Match(a, b, i, J[i]); }
    }
  }

  /** J is a longest matching of the hashes, and equal hashes mean equal lines. */
  ghost predicate Unconfounded(file0: seq<Line>, file1: seq<Line>, hash: Hash, h0: seq<int>, h1: seq<int>, J: seq<int>)
  {
    && h0 == Hashes(file0, hash) && h1 == Hashes(file1, hash)
    && Longest(h0, h1, J) && NoConfounding(file0, file1, hash)
  }

  /** After check J matches equal lines only; if no hashes are confounded it is what it was. */
  lemma CheckedMatching(file0: seq<Line>, file1: seq<Line>, J0: seq<int>, J: seq<int>, h0: seq<int>, h1: seq<int>,
                        hash: Hash)
    requires Increasing(J0, |file0|, |file1|) && |J| == |J0| == |file0| + 2
    requires forall i :: 1 <= i <= |file0| ==> J[i] == Settled(J0[i], file0[i - 1], file1)
    ensures Matching(J, file0, file1)
    ensures Unconfounded(file0, file1, hash, h0, h1, J0) ==>
      forall i :: 1 <= i <= |file0| ==> J[i] == J0[i]
  {
    if Unconfounded(file0, file1, hash, h0, h1, J0) {
      LongestIncreasing(h0, h1, J0);
      forall i | 1 <= i <= |file0| ensures J[i] == J0[i] {
        if J0[i] != 0 { assert Match(h0, h1, i, J0[i]); }
      }
    }
  }

  lemma LongestAgrees(a: seq<int>, b: seq<int>, J0: seq<int>, J: seq<int>)
    requires Longest(a, b, J0) && |J| == |J0| && forall i :: 1 <= i <= |a| ==> J[i] == J0[i]
    ensures Longest(a, b, J)
  {
    var ps: seq<Pair> :| Common(a, b, ps) && |ps| == Lcs(a, b) && Records(J0, |a|, ps);
    assert Records(J, |a|, ps);
  }

  /** The match vector after check: equal lines only, and a longest matching unless hashes were confounded. */
  method Align(file0: seq<Line>, file1: seq<Line>, t0: string, t1: string, hash: Hash) returns (J: array<int>)
    requires forall l :: hash(l) != 0
    requires Lines(file0) && Lines(file1) && t0 == Text(file0) && t1 == Text(file1)
    ensures fresh(J) && Matching(J[..], file0, file1)
    ensures NoConfounding(file0, file1, hash) ==> Longest(Hashes(file0, hash), Hashes(file1, hash), J[..])
  {
    var h0, h1 := Hashes(file0, hash), Hashes(file1, hash);
    J := MatchVector(h0, h1);
    ghost var J0 := J[..];
    LongestIncreasing(h0, h1, J0);
    var ixold, ixnew := new int[|file0| + 2], new int[|file1| + 2];
    Check(t0, t1, file0, file1, J, ixold, ixnew);
    CheckedMatching(file0, file1, J0, J[..], h0, h1, hash);
    if NoConfounding(file0, file1, hash) { LongestAgrees(h0, h1, J0, J[..]); }
  }

  /** A longest matching leaves as few lines to remove and to insert as any matching can. */
  lemma Fewest(a: seq<int>, b: seq<int>, J: seq<int>, hs: seq<Hunk>)
    requires Longest(a, b, J) && Exact(J, |a|, |b|, hs)
    ensures |RemovedLines(hs, |a|)| == |a| - Lcs(a, b)
    ensures |InsertedLines(hs, |b|)| == |b| - Lcs(a, b)
  {
    var ps: seq<Pair> :| Common(a, b, ps) && |ps| == Lcs(a, b) && Records(J, |a|, ps);
    hide Exact, Records;
    FewestOld(a, b, J, hs, ps);
    FewestNew(a, b, J, hs, ps);
  }

  lemma FewestOld(a: seq<int>, b: seq<int>, J: seq<int>, hs: seq<Hunk>, ps: seq<Pair>)
    requires Common(a, b, ps) && Records(J, |a|, ps) && Exact(J, |a|, |b|, hs)
    ensures |RemovedLines(hs, |a|)| == |a| - |ps|
  {
    hide Exact, Records, Removed;
    var xs := seq(|ps|, t requires 0 <= t < |ps| => ps[t].x);
    IncreasingSize(xs);
    forall x ensures x in xs <==> 1 <= x <= |a| && !Removed(hs, x) {
      PairedOld(a, b, J, hs, ps, xs, x);
    }
    Outside(RemovedLines(hs, |a|), set x | x in xs, |a|);
  }

  lemma FewestNew(a: seq<int>, b: seq<int>, J: seq<int>, hs: seq<Hunk>, ps: seq<Pair>)
    requires Common(a, b, ps) && Records(J, |a|, ps) && Exact(J, |a|, |b|, hs)
    ensures |InsertedLines(hs, |b|)| == |b| - |ps|
  {
    hide Exact, Records, Inserted;
    var ys := seq(|ps|, t requires 0 <= t < |ps| => ps[t].y);
    IncreasingSize(ys);
    forall y ensures y in ys <==> 1 <= y <= |b| && !Inserted(hs, y) {
      PairedNew(a, b, J, hs, ps, ys, y);
    }
    Outside(InsertedLines(hs, |b|), set y | y in ys, |b|);
  }

  lemma PairedOld(a: seq<int>, b: seq<int>, J: seq<int>, hs: seq<Hunk>, ps: seq<Pair>, xs: seq<int>, x: int)
    requires Common(a, b, ps) && Records(J, |a|, ps) && Exact(J, |a|, |b|, hs)
    requires |xs| == |ps| && forall t :: 0 <= t < |ps| ==> xs[t] == ps[t].x
    ensures x in xs <==> 1 <= x <= |a| && !Removed(hs, x)
  {
    if 1 <= x <= |a| && J[x] != 0 {
      assert Recorded(ps, x);
      var t :| 0 <= t < |ps| && ps[t].x == x;
      assert xs[t] == x;
    }
  }

  lemma PairedNew(a: seq<int>, b: seq<int>, J: seq<int>, hs: seq<Hunk>, ps: seq<Pair>, ys: seq<int>, y: int)
    requires Common(a, b, ps) && Records(J, |a|, ps) && Exact(J, |a|, |b|, hs)
    requires |ys| == |ps| && forall t :: 0 <= t < |ps| ==> ys[t] == ps[t].y
    ensures y in ys <==> 1 <= y <= |b| && !Inserted(hs, y)
  {
    if y in ys {
      var t :| 0 <= t < |ys| && ys[t] == y;
      assert Match(a, b, ps[t].x, ps[t].y);
      assert 0 < ps[t].x <= |a| && J[ps[t].x] == y;
    }
    if 1 <= y <= |b| && MatedIn(J, 0, |a|, y) {
      var x :| 0 < x <= |a| && J[x] == y;
      assert Recorded(ps, x);
      var t :| 0 <= t < |ps| && ps[t].x == x;
      assert ys[t] == y;
    }
  }

  /**
   * diff and diff -e: applying what is reported to the first file gives the second; the lines without a mate in J are
   * touched and no others, as few as can be unless hashes were confounded.
   */
  method Diff(file0: seq<Line>, file1: seq<Line>, t0: string, t1: string, hash: Hash, edit: bool)
    returns (hs: seq<Hunk>, ghost J: seq<int>)
    requires forall l :: hash(l) != 0
    requires Lines(file0) && Lines(file1) && t0 == Text(file0) && t1 == Text(file1)
    ensures !edit ==> Patched(file0, file1, hs) == file1
    ensures edit ==> EdRun(file0, file1, hs) == file1
    ensures if edit then Ascending(hs) else Descending(hs)
    ensures Matching(J, file0, file1) && Exact(J, |file0|, |file1|, hs)
    ensures NoConfounding(file0, file1, hash) ==>
      |RemovedLines(hs, |file0|)| == |file0| - Lcs(Hashes(file0, hash), Hashes(file1, hash))
    ensures NoConfounding(file0, file1, hash) ==>
      |InsertedLines(hs, |file1|)| == |file1| - Lcs(Hashes(file0, hash), Hashes(file1, hash))
  {
    hide Ascending, Descending, Matching, Exact, Longest, RemovedLines, InsertedLines, NoConfounding;
    var vector := Align(file0, file1, t0, t1, hash);
    J := vector[..];
    if edit {
      hs := OutputEdit(vector, file0, file1);
    } else {
      hs := OutputNormal(vector, file0, file1);
    }
    if NoConfounding(file0, file1, hash) { Fewest(Hashes(file0, hash), Hashes(file1, hash), J, hs); }
  }
}
