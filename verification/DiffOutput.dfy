/** output: the hunks that diff reports, and what it means to apply them. */
module DiffOutput {
  import opened DiffHunks

  type Line = string

  predicate HunkOk(h: Hunk, n: int, m: int) {
    1 <= h.a <= h.b + 1 <= n + 1 && 1 <= h.c <= h.d + 1 <= m + 1
  }

  // ----- Two ways to apply hunks -----

  /** In line order: how far into the first file the hunks so far have come, and the text they have made. */
  datatype Acc = Acc(pos: int, text: seq<Line>)

  ghost function Apply(file0: seq<Line>, file1: seq<Line>, acc: Acc, h: Hunk): Acc {
    if HunkOk(h, |file0|, |file1|) && 0 <= acc.pos < h.a
    then Acc(h.b, acc.text + file0[acc.pos..h.a - 1] + file1[h.c - 1..h.d])
    else acc
  }

  ghost function ApplyAll(file0: seq<Line>, file1: seq<Line>, hs: seq<Hunk>): Acc {
    if hs == [] then Acc(0, [])
    else Apply(file0, file1, ApplyAll(file0, file1, hs[..|hs| - 1]), hs[|hs| - 1])
  }

  /** The first i lines, when the hunks so far are done with them. */
  ghost function UpTo(file0: seq<Line>, acc: Acc, i: int): seq<Line> {
    if 0 <= acc.pos <= i <= |file0| then acc.text + file0[acc.pos..i] else []
  }

  ghost function Patched(file0: seq<Line>, file1: seq<Line>, hs: seq<Hunk>): seq<Line> {
    UpTo(file0, ApplyAll(file0, file1, hs), |file0|)
  }

  /** As an editor would: one command after the other, each on the text the one before it left. */
  ghost function EdStep(cur: seq<Line>, file1: seq<Line>, h: Hunk): seq<Line> {
    if HunkOk(h, |cur|, |file1|) then cur[..h.a - 1] + file1[h.c - 1..h.d] + cur[h.b..] else []
  }

  ghost function EdRun(cur: seq<Line>, file1: seq<Line>, hs: seq<Hunk>): seq<Line> {
    if hs == [] then cur else EdStep(EdRun(cur, file1, hs[..|hs| - 1]), file1, hs[|hs| - 1])
  }

  /** tr lists the states that ApplyAll goes through. */
  ghost predicate Traced(file0: seq<Line>, file1: seq<Line>, hs: seq<Hunk>, tr: seq<Acc>) {
    && |tr| == |hs| + 1 && tr[0] == Acc(0, [])
    && forall k :: 0 <= k < |hs| ==> TraceStep(file0, file1, hs, tr, k)
  }

  ghost predicate TraceStep(file0: seq<Line>, file1: seq<Line>, hs: seq<Hunk>, tr: seq<Acc>, k: int)
    requires |tr| == |hs| + 1 && 0 <= k < |hs|
  {
    tr[k + 1] == Apply(file0, file1, tr[k], hs[k])
  }

  lemma TracedSnoc(file0: seq<Line>, file1: seq<Line>, hs: seq<Hunk>, tr: seq<Acc>, h: Hunk, acc: Acc)
    requires Traced(file0, file1, hs, tr) && acc == Apply(file0, file1, tr[|hs|], h)
    ensures Traced(file0, file1, hs + [h], tr + [acc])
  {
    forall k | 0 <= k < |hs| + 1 ensures TraceStep(file0, file1, hs + [h], tr + [acc], k) {
      if k < |hs| { assert TraceStep(file0, file1, hs, tr, k); }
    }
  }

  lemma {:induction false} TracedApplyAll(file0: seq<Line>, file1: seq<Line>, hs: seq<Hunk>, tr: seq<Acc>)
    requires Traced(file0, file1, hs, tr)
    ensures ApplyAll(file0, file1, hs) == tr[|hs|]
  {
    if hs != [] {
      var n := |hs| - 1;
      var hs', tr' := hs[..n], tr[..n + 1];
      forall k | 0 <= k < n ensures TraceStep(file0, file1, hs', tr', k) {
        assert TraceStep(file0, file1, hs, tr, k);
      }
      TracedApplyAll(file0, file1, hs', tr');
      assert TraceStep(file0, file1, hs, tr, n);
    }
  }

  lemma EdRunSnoc(cur: seq<Line>, file1: seq<Line>, hs: seq<Hunk>, h: Hunk)
    ensures EdRun(cur, file1, hs + [h]) == EdStep(EdRun(cur, file1, hs), file1, h)
  {
    assert (hs + [h])[..|hs|] == hs;
  }

  // ----- The match vector -----

  /** J matches lines of the first file with equal lines of the second, in order. */
  ghost predicate Matching(J: seq<int>, file0: seq<Line>, file1: seq<Line>) {
    && |J| == |file0| + 2
    && (forall i :: 1 <= i <= |file0| ==> 0 <= J[i] <= |file1|)
    && (forall i :: 1 <= i <= |file0| && J[i] != 0 ==> file0[i - 1] == file1[J[i] - 1])
    && (forall i, k :: 1 <= i < k <= |file0| && J[i] != 0 && J[k] != 0 ==> J[i] < J[k])
  }

  /** J from i on is as it was, and what it matches lies beyond line j of the second file. */
  ghost predicate Ahead(J: seq<int>, file0: seq<Line>, file1: seq<Line>, i: int, j: int) {
    && |J| == |file0| + 2 && 1 <= i <= |file0| + 1 && 0 <= j <= |file1|
    && J[|file0| + 1] == |file1| + 1
    && (forall k :: i <= k <= |file0| ==> Beyond(J, file0, file1, k, j))
    && (forall k, l :: i <= k < l <= |file0| && J[k] != 0 && J[l] != 0 ==> J[k] < J[l])
  }

  ghost predicate Beyond(J: seq<int>, file0: seq<Line>, file1: seq<Line>, k: int, j: int)
    requires 1 <= k <= |file0| && k < |J|
  {
    0 <= J[k] <= |file1| && (J[k] != 0 ==> j < J[k] && file0[k - 1] == file1[J[k] - 1])
  }

  /** Past the next match everything is beyond it. */
  lemma AheadNext(J: seq<int>, file0: seq<Line>, file1: seq<Line>, i: int, j: int)
    requires Ahead(J, file0, file1, i, j) && i <= |file0| && J[i] != 0
    ensures 0 <= j < J[i] <= |file1| && file0[i - 1] == file1[J[i] - 1]
    ensures Ahead(J, file0, file1, i + 1, J[i])
  {
    assert Beyond(J, file0, file1, i, j);
    forall k | i + 1 <= k <= |file0| ensures Beyond(J, file0, file1, k, J[i]) {
      assert Beyond(J, file0, file1, k, j);
    }
  }

  /** Up to the next match everything is beyond the line before its mate. */
  lemma AheadGap(J: seq<int>, file0: seq<Line>, file1: seq<Line>, i: int, j: int, i1: int, j1: int)
    requires Ahead(J, file0, file1, i, j) && i - 1 <= i1 <= |file0| && j1 == J[i1 + 1] - 1
    requires i1 < |file0| ==> J[i1 + 1] != 0
    ensures j <= j1 <= |file1| && Ahead(J[i1 := j1], file0, file1, i1 + 1, j1)
  {
    var K := J[i1 := j1];
    if i1 < |file0| { assert Beyond(J, file0, file1, i1 + 1, j); }
    forall k | i1 + 1 <= k <= |file0| ensures Beyond(K, file0, file1, k, j1) {
      assert Beyond(J, file0, file1, k, j);
    }
  }

  /** The hunks so far turn the first i lines of the first file into the first j of the second. */
  ghost predicate Progress(file0: seq<Line>, file1: seq<Line>, acc: Acc, i: int, j: int) {
    && 0 <= acc.pos <= i <= |file0| && 0 <= j <= |file1|
    && UpTo(file0, acc, i) == file1[..j]
  }

  lemma ProgressNext(file0: seq<Line>, file1: seq<Line>, acc: Acc, i: int, j: int)
    requires Progress(file0, file1, acc, i, j) && i < |file0| && j < |file1| && file0[i] == file1[j]
    ensures Progress(file0, file1, acc, i + 1, j + 1)
  {
    assert file1[..j + 1] == file1[..j] + [file1[j]];
    assert file0[acc.pos..i + 1] == file0[acc.pos..i] + [file0[i]];
  }

  lemma ProgressApply(file0: seq<Line>, file1: seq<Line>, acc: Acc, h: Hunk)
    requires Progress(file0, file1, acc, h.a - 1, h.c - 1) && HunkOk(h, |file0|, |file1|)
    ensures Progress(file0, file1, Apply(file0, file1, acc, h), h.b, h.d)
  {
    assert file1[..h.d] == file1[..h.c - 1] + file1[h.c - 1..h.d];
    assert file0[h.b..h.b] == [];
  }

  /** The state after change(a, b, c, d). */
  ghost function Changed(file0: seq<Line>, file1: seq<Line>, acc: Acc, a: int, b: int, c: int, d: int): Acc {
    if a > b && c > d then acc else Apply(file0, file1, acc, Hunk(a, b, c, d))
  }

  ghost function TraceChange(file0: seq<Line>, file1: seq<Line>, tr: seq<Acc>, a: int, b: int, c: int, d: int): seq<Acc>
    requires tr != []
  {
    if a > b && c > d then tr else tr + [Apply(file0, file1, tr[|tr| - 1], Hunk(a, b, c, d))]
  }

  lemma ProgressChange(file0: seq<Line>, file1: seq<Line>, acc: Acc, a: int, b: int, c: int, d: int)
    requires Progress(file0, file1, acc, a - 1, c - 1) && HunkOk(Hunk(a, b, c, d), |file0|, |file1|)
    ensures Progress(file0, file1, Changed(file0, file1, acc, a, b, c, d), b, d)
  {
    if !(a > b && c > d) { ProgressApply(file0, file1, acc, Hunk(a, b, c, d)); }
  }

  lemma TracedChange(file0: seq<Line>, file1: seq<Line>, hs: seq<Hunk>, tr: seq<Acc>, a: int, b: int, c: int, d: int)
    requires Traced(file0, file1, hs, tr)
    ensures var tr' := TraceChange(file0, file1, tr, a, b, c, d);
      && Traced(file0, file1, Change(hs, a, b, c, d), tr')
      && tr'[|tr'| - 1] == Changed(file0, file1, tr[|tr| - 1], a, b, c, d)
  {
    if !(a > b && c > d) {
      TracedSnoc(file0, file1, hs, tr, Hunk(a, b, c, d), Apply(file0, file1, tr[|hs|], Hunk(a, b, c, d)));
    }
  }

  /** Between hunks: the first i lines are dealt with, and J[i] says how far into the second file they go. */
  ghost predicate Before(J: seq<int>, file0: seq<Line>, file1: seq<Line>, acc: Acc, i: int) {
    && 0 <= i <= |file0| && |J| == |file0| + 2
    && Ahead(J, file0, file1, i + 1, J[i]) && Progress(file0, file1, acc, i, J[i])
  }

  lemma BeforeNext(J: seq<int>, file0: seq<Line>, file1: seq<Line>, acc: Acc, i: int)
    requires Before(J, file0, file1, acc, i) && i < |file0| && J[i + 1] == J[i] + 1
    ensures Before(J, file0, file1, acc, i + 1)
  {
    AheadNext(J, file0, file1, i + 1, J[i]);
    ProgressNext(file0, file1, acc, i, J[i]);
  }

  lemma BeforeHunk(J: seq<int>, file0: seq<Line>, file1: seq<Line>, acc: Acc, i: int, i1: int, j1: int)
    requires Before(J, file0, file1, acc, i) && i <= i1 <= |file0| && j1 == J[i1 + 1] - 1
    requires i1 < |file0| ==> J[i1 + 1] != 0
    ensures J[i] <= j1 <= |file1|
    ensures Before(J[i1 := j1], file0, file1, Changed(file0, file1, acc, i + 1, i1, J[i] + 1, j1), i1)
  {
    AheadGap(J, file0, file1, i + 1, J[i], i1, j1);
    ProgressChange(file0, file1, acc, i + 1, i1, J[i] + 1, j1);
  }

  lemma BeforeFirst(J: seq<int>, file0: seq<Line>, file1: seq<Line>)
    requires Matching(J, file0, file1)
    ensures Before(J[0 := 0][|file0| + 1 := |file1| + 1], file0, file1, Acc(0, []), 0)
  {
    var K := J[0 := 0][|file0| + 1 := |file1| + 1];
    forall k | 1 <= k <= |file0| ensures Beyond(K, file0, file1, k, 0) {
    }
  }

  /** What is told of the first i lines is just what J0 says, and the lines after them are untouched. */
  ghost predicate Rest(J0: seq<int>, J: seq<int>, n: int, hs: seq<Hunk>, i: int) {
    && |J0| == |J| == n + 2 && 0 <= i <= n
    && (forall k :: i < k <= n ==> J[k] == J0[k])
    && Told(J0, hs, 0, i, 0, J[i])
    && Descending(hs) && EndsBy(hs, i, J[i])
  }

  lemma RestNext(J0: seq<int>, J: seq<int>, n: int, hs: seq<Hunk>, i: int)
    requires Rest(J0, J, n, hs, i) && i < n && J[i + 1] == J[i] + 1
    ensures Rest(J0, J, n, hs, i + 1)
  {
    hide Told, Descending;
    ToldMate(J0, hs, 0, i, 0, J[i]);
  }

  lemma RestHunk(J0: seq<int>, J: seq<int>, n: int, hs: seq<Hunk>, i: int, i1: int, j1: int)
    requires Rest(J0, J, n, hs, i) && i <= i1 <= n && J[i] <= j1 && forall k :: i < k <= i1 ==> J[k] == 0
    requires hs == [] || EndsBy(hs, i - 1, J[i] - 1) || (i1 == i && j1 == J[i])
    ensures Rest(J0, J[i1 := j1], n, Change(hs, i + 1, i1, J[i] + 1, j1), i1)
  {
    hide Told, Descending;
    if hs == [] || EndsBy(hs, i - 1, J[i] - 1) { DescendingMore(hs, i + 1, i1, J[i] + 1, j1); }
    ToldHunk(J0, hs, 0, i, 0, J[i], i1, j1);
  }

  lemma RestEnds(J0: seq<int>, J: seq<int>, n: int, hs: seq<Hunk>, i: int)
    requires Rest(J0, J, n, hs, i)
    ensures |J| == n + 2 && 0 <= i <= n && EndsBy(hs, i, J[i]) && Descending(hs)
  {
  }

  /** Pass over lines that match the next line of the second file. */
  method SkipMatched(J: array<int>, file0: seq<Line>, file1: seq<Line>, start: int, ghost J0: seq<int>,
                     ghost hs: seq<Hunk>, ghost acc: Acc)
    returns (i0: int)
    requires 1 <= start <= |file0| + 1 && Before(J[..], file0, file1, acc, start - 1)
    requires Rest(J0, J[..], |file0|, hs, start - 1)
    ensures start <= i0 <= |file0| + 1 && Before(J[..], file0, file1, acc, i0 - 1)
    ensures Rest(J0, J[..], |file0|, hs, i0 - 1)
    ensures i0 <= |file0| ==> J[i0] != J[i0 - 1] + 1
    ensures i0 > start ==> EndsBy(hs, i0 - 2, J[i0 - 1] - 1)
  {
    hide EndsBy, Rest, Descending, Ahead, Progress;
    RestEnds(J0, J[..], |file0|, hs, start - 1);
    i0 := start;
    while i0 <= |file0| && J[i0] == J[i0 - 1] + 1
      invariant start <= i0 <= |file0| + 1 && Before(J[..], file0, file1, acc, i0 - 1)
      invariant Rest(J0, J[..], |file0|, hs, i0 - 1) && J[i0 - 1] == J[start - 1] + (i0 - start)
    {
      BeforeNext(J[..], file0, file1, acc, i0 - 1);
      RestNext(J0, J[..], |file0|, hs, i0 - 1);
      i0 := i0 + 1;
    }
    if i0 > start { EndsLater(hs, start - 1, J[start - 1], i0 - 2, J[i0 - 1] - 1); }
  }

  /** The last of the unmatched lines after line i. */
  method SkipUnmatched(J: array<int>, i: nat, m: nat) returns (i1: nat)
    requires i <= m < J.Length - 1
    ensures i <= i1 <= m && (i1 < m ==> J[i1 + 1] != 0) && forall k :: i < k <= i1 ==> J[k] == 0
  {
    i1 := i;
    while i1 < m && J[i1 + 1] == 0
      invariant i <= i1 <= m && forall k :: i < k <= i1 ==> J[k] == 0
    {
      i1 := i1 + 1;
    }
  }

  /** One hunk: the unmatched lines from i0 on, if any, and the gap in the second file. */
  method Report(J: array<int>, file0: seq<Line>, file1: seq<Line>, i0: int, ghost acc: Acc)
    returns (i1: int, j0: int, j1: int)
    requires 1 <= i0 <= |file0| + 1 && Before(J[..], file0, file1, acc, i0 - 1)
    modifies J
    ensures i0 - 1 <= i1 <= |file0|
    ensures Before(J[..], file0, file1, Changed(file0, file1, acc, i0, i1, j0, j1), i1)
    ensures i1 < |file0| ==> J[i1 + 1] == J[i1] + 1
    ensures i1 == |file0| ==> J[i1] == |file1|
    ensures j0 == old(J[i0 - 1]) + 1 <= j1 + 1 && J[..] == old(J[..])[i1 := j1]
    ensures forall k :: i0 <= k <= i1 ==> old(J[k]) == 0
  {
    hide Beyond, Progress, Changed;
    j0 := J[i0 - 1] + 1;
    i1 := SkipUnmatched(J, i0 - 1, |file0|);
    j1 := J[i1 + 1] - 1;
    BeforeHunk(J[..], file0, file1, acc, i0 - 1, i1, j1);
    ghost var K := J[..][i1 := j1];
    J[i1] := j1;
    assert J[..] == K;
  }

  /** The ordinary listing: hunks from the top down. */
  method OutputNormal(J: array<int>, file0: seq<Line>, file1: seq<Line>) returns (hs: seq<Hunk>)
    requires Matching(J[..], file0, file1)
    modifies J
    ensures Patched(file0, file1, hs) == file1
    ensures Exact(old(J[..]), |file0|, |file1|, hs) && Descending(hs)
  {
    ghost var tr;
    hs, tr := Hunks(J, file0, file1);
    TracedApplyAll(file0, file1, hs, tr);
  }

  /** Line 0 matches line 0, and the line after the last one its like. */
  method Sentinels(J: array<int>, file0: seq<Line>, file1: seq<Line>)
    requires Matching(J[..], file0, file1)
    modifies J
    ensures Before(J[..], file0, file1, Acc(0, []), 0)
    ensures |file0| == 0 ==> J[0] == 0
    ensures Rest(old(J[..]), J[..], |file0|, [], 0)
  {
    hide Matching, Before, Told;
    var m := |file0|;
    ghost var J0 := J[..];
    BeforeFirst(J0, file0, file1);
    MatchingSize(J0, file0, file1);
    J[0] := 0;
    J[m + 1] := |file1| + 1;
    assert J[..] == J0[0 := 0][m + 1 := |file1| + 1];
    ToldNone(J0, 0, 0);
  }

  lemma MatchingSize(J: seq<int>, file0: seq<Line>, file1: seq<Line>)
    requires Matching(J, file0, file1)
    ensures |J| == |file0| + 2
  {
  }

  lemma NoHunks(file0: seq<Line>, file1: seq<Line>)
    ensures Traced(file0, file1, [], [Acc(0, [])])
  {
  }

  method Hunks(J: array<int>, file0: seq<Line>, file1: seq<Line>) returns (hs: seq<Hunk>, ghost tr: seq<Acc>)
    requires Matching(J[..], file0, file1)
    modifies J
    ensures Traced(file0, file1, hs, tr) && UpTo(file0, tr[|hs|], |file0|) == file1
    ensures Exact(old(J[..]), |file0|, |file1|, hs) && Descending(hs)
  {
    hide Ahead, Progress, Traced, Changed, Matching, UpTo, Change, Told, Descending, EndsBy;
    NoHunks(file0, file1);
    var m := |file0|;
    ghost var J0 := J[..];
    hs, tr := [], [Acc(0, [])];
    Sentinels(J, file0, file1);
    ghost var acc := tr[0];
    var i0, i1 := 1, 0;
    while i0 <= m
      invariant 1 <= i0 <= m + 1 && Before(J[..], file0, file1, acc, i0 - 1)
      invariant Ends(file0, file1, hs, tr, acc) && Rest(J0, J[..], m, hs, i0 - 1)
      invariant i0 == m + 1 ==> J[m] == if m == 0 then 0 else |file1|
      invariant m == 0 ==> hs == []
      invariant i0 <= m && hs != [] ==> J[i0] == J[i0 - 1] + 1
      decreases m + 1 - i0, J[i0] != J[i0 - 1] + 1
    {
      i0 := SkipMatched(J, file0, file1, i0, J0, hs, acc);
      i1, hs, tr, acc := ReportHunk(J, file0, file1, i0, hs, J0, tr, acc);
      i0 := i1 + 1;
    }
    if m == 0 {
      ProgressChange(file0, file1, acc, 1, 0, 1, |file1|);
      ToldHunk(J0, hs, 0, 0, 0, 0, 0, |file1|);
      DescendingMore(hs, 1, 0, 1, |file1|);
      hs, tr, acc := Emit(hs, 1, 0, 1, |file1|, file0, file1, tr, acc);
    }
    WholeFile(file0, file1, acc);
  }

  lemma WholeFile(file0: seq<Line>, file1: seq<Line>, acc: Acc)
    requires Progress(file0, file1, acc, |file0|, |file1|)
    ensures UpTo(file0, acc, |file0|) == file1
  {
    assert file1[..|file1|] == file1;
  }

  method ReportHunk(J: array<int>, file0: seq<Line>, file1: seq<Line>, i0: int, hs: seq<Hunk>,
                    ghost J0: seq<int>, ghost tr: seq<Acc>, ghost acc: Acc)
    returns (i1: int, hs': seq<Hunk>, ghost tr': seq<Acc>, ghost acc': Acc)
    requires 1 <= i0 <= |file0| + 1 && Before(J[..], file0, file1, acc, i0 - 1) && Ends(file0, file1, hs, tr, acc)
    requires Rest(J0, J[..], |file0|, hs, i0 - 1)
    requires hs == [] || EndsBy(hs, i0 - 2, J[i0 - 1] - 1) || (i0 == |file0| + 1 && J[i0 - 1] == |file1|)
    modifies J
    ensures i0 - 1 <= i1 <= |file0| && Rest(J0, J[..], |file0|, hs', i1)
    ensures i0 - 1 <= i1 <= |file0| && Before(J[..], file0, file1, acc', i1) && Ends(file0, file1, hs', tr', acc')
    ensures i1 < |file0| ==> J[i1 + 1] == J[i1] + 1
    ensures i1 == |file0| ==> J[i1] == |file1|
  {
    hide Ahead, Progress, Rest, Changed, Ends, Change, EndsBy;
    var j0, j1;
    ghost var was := J[..];
    i1, j0, j1 := Report(J, file0, file1, i0, acc);
    RestHunk(J0, was, |file0|, hs, i0 - 1, i1, j1);
    hs', tr', acc' := Emit(hs, i0, i1, j0, j1, file0, file1, tr, acc);
  }

  /** The hunks lead to this state. */
  ghost predicate Ends(file0: seq<Line>, file1: seq<Line>, hs: seq<Hunk>, tr: seq<Acc>, acc: Acc) {
    Traced(file0, file1, hs, tr) && tr[|hs|] == acc
  }

  /** change(), with its trace. */
  method Emit(hs: seq<Hunk>, a: int, b: int, c: int, d: int,
              ghost file0: seq<Line>, ghost file1: seq<Line>, ghost tr: seq<Acc>, ghost acc: Acc)
    returns (hs': seq<Hunk>, ghost tr': seq<Acc>, ghost acc': Acc)
    requires Ends(file0, file1, hs, tr, acc)
    ensures hs' == Change(hs, a, b, c, d) && acc' == Changed(file0, file1, acc, a, b, c, d)
    ensures Ends(file0, file1, hs', tr', acc')
  {
    TracedChange(file0, file1, hs, tr, a, b, c, d);
    hs' := Change(hs, a, b, c, d);
    tr' := TraceChange(file0, file1, tr, a, b, c, d);
    acc' := Changed(file0, file1, acc, a, b, c, d);
  }

  // ----- The editor script: hunks from the bottom up -----

  /** J up to i is as it was, and what it matches lies before line j of the second file. */
  ghost predicate Behind(J: seq<int>, file0: seq<Line>, file1: seq<Line>, i: int, j: int) {
    && |J| == |file0| + 2 && 0 <= i <= |file0| && 1 <= j <= |file1| + 1
    && J[0] == 0
    && (forall k :: 1 <= k <= i ==> Short(J, file0, file1, k, j))
    && (forall k, l :: 1 <= k < l <= i && J[k] != 0 && J[l] != 0 ==> J[k] < J[l])
  }

  ghost predicate Short(J: seq<int>, file0: seq<Line>, file1: seq<Line>, k: int, j: int)
    requires 1 <= k <= |file0| && k < |J|
  {
    0 <= J[k] <= |file1| && (J[k] != 0 ==> J[k] < j && file0[k - 1] == file1[J[k] - 1])
  }

  /** After the commands so far: i lines are untouched, and the rest is the second file from line J[i + 1] on. */
  ghost predicate Above(J: seq<int>, file0: seq<Line>, file1: seq<Line>, hs: seq<Hunk>, i: int) {
    && 0 <= i <= |file0| && |J| == |file0| + 2
    && Behind(J, file0, file1, i, J[i + 1])
    && EdRun(file0, file1, hs) == file0[..i] + file1[J[i + 1] - 1..]
  }

  lemma AboveFirst(J: seq<int>, file0: seq<Line>, file1: seq<Line>)
    requires Matching(J, file0, file1)
    ensures Above(J[0 := 0][|file0| + 1 := |file1| + 1], file0, file1, [], |file0|)
  {
    var K := J[0 := 0][|file0| + 1 := |file1| + 1];
    var j := |file1| + 1;
    forall k | 1 <= k <= |file0| ensures Short(K, file0, file1, k, j) {
    }
  }

  lemma AboveNext(J: seq<int>, file0: seq<Line>, file1: seq<Line>, hs: seq<Hunk>, i: int)
    requires Above(J, file0, file1, hs, i) && i >= 1 && J[i] == J[i + 1] - 1 && J[i] != 0
    ensures Above(J, file0, file1, hs, i - 1)
  {
    assert Short(J, file0, file1, i, J[i + 1]);
    forall k | 1 <= k <= i - 1 ensures Short(J, file0, file1, k, J[i]) {
      assert Short(J, file0, file1, k, J[i + 1]);
    }
    assert file0[..i] == file0[..i - 1] + [file0[i - 1]];
    assert file1[J[i] - 1..] == [file1[J[i] - 1]] + file1[J[i]..];
  }

  lemma BehindGap(J: seq<int>, file0: seq<Line>, file1: seq<Line>, i: int, j: int, i1: int, j1: int)
    requires Behind(J, file0, file1, i, j) && 1 <= i1 <= i + 1 && j1 == J[i1 - 1] + 1
    requires i1 > 1 ==> J[i1 - 1] != 0
    ensures 1 <= j1 <= j <= |file1| + 1 && Behind(J[i1 := j1], file0, file1, i1 - 1, j1)
  {
    var K := J[i1 := j1];
    if i1 > 1 { assert Short(J, file0, file1, i1 - 1, j); }
    forall k | 1 <= k <= i1 - 1 ensures Short(K, file0, file1, k, j1) {
      assert Short(J, file0, file1, k, j);
    }
  }

  /** One editor command. */
  lemma EdHunk(file0: seq<Line>, file1: seq<Line>, i: int, j: int, i1: int, j1: int)
    requires 0 <= i <= |file0| && 1 <= i1 <= i + 1 && 1 <= j1 <= j <= |file1| + 1
    ensures EdStep(file0[..i] + file1[j - 1..], file1, Hunk(i1, i, j1, j - 1)) == file0[..i1 - 1] + file1[j1 - 1..]
    ensures i1 == i + 1 && j1 == j ==> file0[..i] + file1[j - 1..] == file0[..i1 - 1] + file1[j1 - 1..]
  {
    var cur := file0[..i] + file1[j - 1..];
    assert cur[..i1 - 1] == file0[..i1 - 1] && cur[i..] == file1[j - 1..];
    assert file1[j1 - 1..j - 1] + file1[j - 1..] == file1[j1 - 1..];
  }

  lemma EdRunHunk(file0: seq<Line>, file1: seq<Line>, hs: seq<Hunk>, i: int, j: int, i1: int, j1: int)
    requires 0 <= i <= |file0| && 1 <= i1 <= i + 1 && 1 <= j1 <= j <= |file1| + 1
    requires EdRun(file0, file1, hs) == file0[..i] + file1[j - 1..]
    ensures EdRun(file0, file1, Change(hs, i1, i, j1, j - 1)) == file0[..i1 - 1] + file1[j1 - 1..]
  {
    EdHunk(file0, file1, i, j, i1, j1);
    EdRunSnoc(file0, file1, hs, Hunk(i1, i, j1, j - 1));
  }

  lemma AboveHunk(J: seq<int>, file0: seq<Line>, file1: seq<Line>, hs: seq<Hunk>, i: int, i1: int, j1: int)
    requires Above(J, file0, file1, hs, i) && 1 <= i1 <= i + 1 && j1 == J[i1 - 1] + 1
    requires i1 > 1 ==> J[i1 - 1] != 0
    ensures 1 <= j1 <= J[i + 1]
    ensures Above(J[i1 := j1], file0, file1, Change(hs, i1, i, j1, J[i + 1] - 1), i1 - 1)
  {
    hide Behind, EdRun, Change;
    BehindGap(J, file0, file1, i, J[i + 1], i1, j1);
    EdRunHunk(file0, file1, hs, i, J[i + 1], i1, j1);
  }

  /** What is told of the lines after i is just what J0 says, and the first i lines are untouched. */
  ghost predicate RestUp(J0: seq<int>, J: seq<int>, n: int, m: int, hs: seq<Hunk>, i: int) {
    && |J0| == |J| == n + 2 && 0 <= i <= n
    && (forall k :: 1 <= k <= i ==> J[k] == J0[k])
    && Told(J0, hs, i, n, J[i + 1] - 1, m)
    && Ascending(hs) && BeginsAfter(hs, i, J[i + 1] - 1)
  }

  lemma RestUpNext(J0: seq<int>, J: seq<int>, n: int, m: int, hs: seq<Hunk>, i: int)
    requires RestUp(J0, J, n, m, hs, i) && 1 <= i && 1 <= J[i] == J[i + 1] - 1
    ensures RestUp(J0, J, n, m, hs, i - 1)
  {
    hide Told, Ascending;
    MateTold(J0, hs, i, n, J[i], m);
  }

  lemma RestUpHunk(J0: seq<int>, J: seq<int>, n: int, m: int, hs: seq<Hunk>, i: int, i1: int, j1: int)
    requires RestUp(J0, J, n, m, hs, i) && 1 <= i1 <= i + 1 && 1 <= j1 <= J[i + 1]
    requires forall k :: i1 <= k <= i ==> J[k] == 0
    requires hs == [] || BeginsAfter(hs, i + 1, J[i + 1]) || (i1 == i + 1 && j1 == J[i + 1])
    ensures RestUp(J0, J[i1 := j1], n, m, Change(hs, i1, i, j1, J[i + 1] - 1), i1 - 1)
  {
    hide Told, Ascending;
    if hs == [] || BeginsAfter(hs, i + 1, J[i + 1]) { AscendingMore(hs, i1, i, j1, J[i + 1] - 1); }
    HunkTold(J0, hs, i, n, J[i + 1] - 1, m, i1 - 1, j1 - 1);
  }

  lemma RestUpEnds(J0: seq<int>, J: seq<int>, n: int, m: int, hs: seq<Hunk>, i: int)
    requires RestUp(J0, J, n, m, hs, i)
    ensures |J| == n + 2 && 0 <= i <= n && BeginsAfter(hs, i, J[i + 1] - 1) && Ascending(hs)
  {
  }

  method SkipMatchedUp(J: array<int>, file0: seq<Line>, file1: seq<Line>, hs: seq<Hunk>, start: int, ghost J0: seq<int>)
    returns (i0: int)
    requires 0 <= start <= |file0| && Above(J[..], file0, file1, hs, start)
    requires RestUp(J0, J[..], |file0|, |file1|, hs, start)
    ensures 0 <= i0 <= start && Above(J[..], file0, file1, hs, i0)
    ensures RestUp(J0, J[..], |file0|, |file1|, hs, i0)
    ensures i0 >= 1 ==> J[i0] != J[i0 + 1] - 1 || J[i0] == 0
    ensures i0 < start ==> BeginsAfter(hs, i0 + 1, J[i0 + 1])
  {
    hide RestUp, EdRun, BeginsAfter, Ascending;
    RestUpEnds(J0, J[..], |file0|, |file1|, hs, start);
    i0 := start;
    while i0 >= 1 && J[i0] == J[i0 + 1] - 1 && J[i0] != 0
      invariant 0 <= i0 <= start && Above(J[..], file0, file1, hs, i0)
      invariant RestUp(J0, J[..], |file0|, |file1|, hs, i0) && J[i0 + 1] == J[start + 1] - (start - i0)
    {
      AboveNext(J[..], file0, file1, hs, i0);
      AboveStart(J[..], file0, file1, hs, i0 - 1);
      RestUpNext(J0, J[..], |file0|, |file1|, hs, i0);
      i0 := i0 - 1;
    }
    if i0 < start { BeginsEarlier(hs, start, J[start + 1] - 1, i0 + 1, J[i0 + 1]); }
  }

  lemma AboveStart(J: seq<int>, file0: seq<Line>, file1: seq<Line>, hs: seq<Hunk>, i: int)
    requires Above(J, file0, file1, hs, i)
    ensures 1 <= J[i + 1] <= |file1| + 1
  {
  }

  /** The first of the unmatched lines up to line i. */
  method SkipUnmatchedUp(J: array<int>, i: nat) returns (i1: nat)
    requires i < J.Length
    ensures 1 <= i1 <= i + 1 && (i1 > 1 ==> J[i1 - 1] != 0) && forall k :: i1 <= k <= i ==> J[k] == 0
  {
    i1 := i + 1;
    while i1 > 1 && J[i1 - 1] == 0
      invariant 1 <= i1 <= i + 1 && forall k :: i1 <= k <= i ==> J[k] == 0
    {
      i1 := i1 - 1;
    }
  }

  method ReportUp(J: array<int>, file0: seq<Line>, file1: seq<Line>, hs: seq<Hunk>, i0: int, ghost J0: seq<int>)
    returns (i0': int, hs': seq<Hunk>)
    requires 0 <= i0 <= |file0| && |file0| > 0 && Above(J[..], file0, file1, hs, i0)
    requires RestUp(J0, J[..], |file0|, |file1|, hs, i0)
    requires hs == [] || BeginsAfter(hs, i0 + 1, J[i0 + 1]) || (i0 == 0 && J[1] == 1)
    modifies J
    ensures 0 <= i0' <= i0 && Above(J[..], file0, file1, hs', i0')
    ensures RestUp(J0, J[..], |file0|, |file1|, hs', i0')
    ensures i0' >= 1 ==> J[i0'] == J[i0' + 1] - 1 && J[i0'] != 0
    ensures i0' == 0 ==> J[1] == 1
  {
    hide RestUp, EdRun, Change, BeginsAfter;
    var j0 := J[i0 + 1] - 1;
    var i1 := SkipUnmatchedUp(J, i0);
    var j1 := J[i1 - 1] + 1;
    ghost var was := J[..];
    AboveHunk(was, file0, file1, hs, i0, i1, j1);
    RestUpHunk(J0, was, |file0|, |file1|, hs, i0, i1, j1);
    J[i1] := j1;
    assert J[..] == was[i1 := j1];
    hs' := Change(hs, i1, i0, j1, j0);
    i0' := i1 - 1;
  }

  /** As Sentinels, seen from the other end. */
  method SentinelsUp(J: array<int>, file0: seq<Line>, file1: seq<Line>)
    requires Matching(J[..], file0, file1)
    modifies J
    ensures Above(J[..], file0, file1, [], |file0|)
    ensures |file0| == 0 ==> J[1] == |file1| + 1
    ensures RestUp(old(J[..]), J[..], |file0|, |file1|, [], |file0|)
  {
    hide Matching, Above, Told;
    var m := |file0|;
    ghost var J0 := J[..];
    AboveFirst(J0, file0, file1);
    MatchingSize(J0, file0, file1);
    J[0] := 0;
    J[m + 1] := |file1| + 1;
    assert J[..] == J0[0 := 0][m + 1 := |file1| + 1];
    ToldNone(J0, m, |file1|);
  }

  /** The editor script: hunks from the bottom up. */
  method OutputEdit(J: array<int>, file0: seq<Line>, file1: seq<Line>) returns (hs: seq<Hunk>)
    requires Matching(J[..], file0, file1)
    modifies J
    ensures EdRun(file0, file1, hs) == file1
    ensures Exact(old(J[..]), |file0|, |file1|, hs) && Ascending(hs)
  {
    hide Matching, Told, Change, EdRun, Behind, Ascending, BeginsAfter;
    var m := |file0|;
    hs := [];
    ghost var J0 := J[..];
    SentinelsUp(J, file0, file1);
    var i0 := m;
    while i0 >= 1
      invariant 0 <= i0 <= m && Above(J[..], file0, file1, hs, i0)
      invariant RestUp(J0, J[..], m, |file1|, hs, i0)
      invariant i0 == 0 ==> J[1] == if m == 0 then |file1| + 1 else 1
      invariant m == 0 ==> hs == []
      invariant i0 >= 1 && hs != [] ==> J[i0] == J[i0 + 1] - 1 && J[i0] != 0
      decreases i0, J[i0] != J[i0 + 1] - 1 || J[i0] == 0
    {
      i0 := SkipMatchedUp(J, file0, file1, hs, i0, J0);
      i0, hs := ReportUp(J, file0, file1, hs, i0, J0);
    }
    if m == 0 {
      EdRunHunk(file0, file1, hs, 0, |file1| + 1, 1, 1);
      HunkTold(J0, hs, 0, 0, |file1|, |file1|, 0, 0);
      AscendingMore(hs, 1, 0, 1, |file1|);
      hs := Change(hs, 1, 0, 1, |file1|);
    }
  }
}
