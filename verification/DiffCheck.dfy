/** check: compare the matched lines themselves, and note where each line of the two files ends. */
module DiffCheck {
  import opened DiffOutput

  /** Lines hold no newline; in the file each is followed by one. */
  ghost predicate Lines(ls: seq<Line>) {
    forall i :: 0 <= i < |ls| ==> '\n' !in ls[i]
  }

  ghost function Text(ls: seq<Line>): string {
    if ls == [] then "" else Text(ls[..|ls| - 1]) + ls[|ls| - 1] + "\n"
  }

  /** Where line i ends. */
  ghost function Off(ls: seq<Line>, i: nat): nat
    requires i <= |ls|
  {
    if i == 0 then 0 else Off(ls, i - 1) + |ls[i - 1]| + 1
  }

  /** Line l and its newline stand in t at p. */
  ghost predicate LineAt(t: string, p: nat, l: Line) {
    p + |l| < |t| && t[p..p + |l|] == l && t[p + |l|] == '\n' && '\n' !in l
  }

  lemma {:induction false} OffPrefix(ls: seq<Line>, k: nat, i: nat)
    requires i <= k <= |ls|
    ensures Off(ls[..k], i) == Off(ls, i)
  {
    if i > 0 { OffPrefix(ls, k, i - 1); }
  }

  lemma {:induction false} LinesInText(ls: seq<Line>, i: nat)
    requires Lines(ls) && i < |ls|
    ensures |Text(ls)| == Off(ls, |ls|)
    ensures LineAt(Text(ls), Off(ls, i), ls[i])
  {
    var n := |ls| - 1;
    var front := ls[..n];
    OffPrefix(ls, n, n);
    OffPrefix(ls, n, if i < n then i else n);
    if n > 0 {
      LinesInText(front, if i < n then i else 0);
    }
    assert |Text(front)| == Off(ls, n);
    var t := Text(front) + ls[n] + "\n";
    assert Text(ls) == t;
    if i < n {
      LineStays(Text(front), t, Off(ls, i), ls[i]);
    } else {
      assert t[|Text(front)|..|Text(front)| + |ls[n]|] == ls[n];
    }
  }

  lemma LineStays(s: string, t: string, p: nat, l: Line)
    requires LineAt(s, p, l) && |s| <= |t| && s == t[..|s|]
    ensures LineAt(t, p, l)
  {
    assert t[p..p + |l|] == s[p..p + |l|];
    assert t[p + |l|] == s[p + |l|];
  }

  /** Read the rest of a line, k characters of which have been read. */
  method SkipLine(t: string, p: nat, ghost start: nat, ghost l: Line) returns (n: nat)
    requires LineAt(t, start, l) && start <= p <= start + |l|
    ensures p + n == start + |l| + 1
  {
    n := 1;
    while t[p + n - 1] != '\n'
      invariant 1 <= n && p + n <= start + |l| + 1
      decreases start + |l| + 1 - p - n
    {
      CharAt(t, start, l, p + n - 1 - start);
      n := n + 1;
    }
    CharAt(t, start, l, p + n - 1 - start);
  }

  /** Compare the lines at p and q, character by character, and read both to their ends. */
  method CompareLines(t: string, p: nat, s: string, q: nat, ghost l: Line, ghost m: Line)
    returns (same: bool, p': nat, q': nat)
    requires LineAt(t, p, l) && LineAt(s, q, m)
    ensures same == (l == m) && p' == p + |l| + 1 && q' == q + |m| + 1
  {
    p', q', same := p, q, true;
    ghost var k := 0;
    while true
      invariant k <= |l| && k <= |m| && p' == p + k && q' == q + k && l[..k] == m[..k]
      decreases |l| - k
    {
      var c, d := t[p'], s[q'];
      p', q' := p' + 1, q' + 1;
      CharAt(t, p, l, k);
      CharAt(s, q, m, k);
      if c != d {
        same := false;
        if c != '\n' {
          var n := SkipLine(t, p', p, l);
          p' := p' + n;
        }
        if d != '\n' {
          var n := SkipLine(s, q', q, m);
          q' := q' + n;
        }
        return;
      }
      if c == '\n' {
        assert l == l[..k] && m == m[..k];
        return;
      }
      assert l[..k + 1] == l[..k] + [c] && m[..k + 1] == m[..k] + [d];
      k := k + 1;
    }
  }

  lemma CharAt(t: string, p: nat, l: Line, k: nat)
    requires LineAt(t, p, l) && k <= |l|
    ensures t[p + k] == '\n' <==> k == |l|
    ensures k < |l| ==> t[p + k] == l[k]
  {
    if k < |l| { assert t[p..p + |l|][k] == l[k]; }
  }

  /** The match that check leaves for line l: the one it found, if the two lines are equal. */
  function Settled(found: int, l: Line, ms: seq<Line>): int {
    if 1 <= found <= |ms| && l == ms[found - 1] then found else 0
  }

  ghost predicate Increasing(J: seq<int>, n: nat, m: nat) {
    && n < |J|
    && (forall i :: 1 <= i <= n ==> 0 <= J[i] <= m)
    && (forall i, k :: 1 <= i < k <= n && J[i] != 0 && J[k] != 0 ==> J[i] < J[k])
  }

  /** Offsets up to line i of a file. */
  ghost predicate Offsets(ix: seq<int>, ls: seq<Line>, i: int) {
    0 <= i <= |ls| < |ix| && forall h :: 0 <= h <= i ==> ix[h] == Off(ls, h)
  }

  /** Skip lines of the second file until line j. */
  method SkipTo(t: string, ms: seq<Line>, j0: nat, j: nat, ct: nat, ixnew: array<int>) returns (ct': nat)
    requires Lines(ms) && t == Text(ms) && 1 <= j0 <= j <= |ms| + 1 && ct == Off(ms, j0 - 1)
    requires Offsets(ixnew[..], ms, j0 - 1)
    modifies ixnew
    ensures ct' == Off(ms, j - 1) && Offsets(ixnew[..], ms, j - 1)
  {
    var h := j0;
    ct' := ct;
    while h < j
      invariant j0 <= h <= j && ct' == Off(ms, h - 1) && Offsets(ixnew[..], ms, h - 1)
    {
      LinesInText(ms, h - 1);
      var n := SkipLine(t, ct', ct', ms[h - 1]);
      ct' := ct' + n;
      ixnew[h] := ct';
      h := h + 1;
    }
  }

  /** Before line i of the first file and line j of the second: where both are, and what is settled. */
  ghost predicate CheckInv(J0: seq<int>, J: seq<int>, ls: seq<Line>, ms: seq<Line>, ixold: seq<int>, ixnew: seq<int>,
                           i: int, j: int, ctold: int, ctnew: int) {
    && Increasing(J0, |ls|, |ms|) && |J| == |J0| && |ixold| == |ls| + 2 && |ixnew| == |ms| + 2
    && 1 <= i <= |ls| + 1 && 1 <= j <= |ms| + 1
    && ctold == Off(ls, i - 1) && ctnew == Off(ms, j - 1)
    && Offsets(ixold, ls, i - 1) && Offsets(ixnew, ms, j - 1)
    && (forall h :: i <= h <= |ls| && J0[h] != 0 ==> j <= J0[h])
    && (forall h :: i <= h <= |ls| ==> J[h] == J0[h])
    && (forall h :: 1 <= h < i ==> J[h] == Settled(J0[h], ls[h - 1], ms))
  }

  lemma InvUnmatched(J0: seq<int>, J: seq<int>, ls: seq<Line>, ms: seq<Line>, ixold: seq<int>, ixnew: seq<int>,
                     i: int, j: int, ctold: int, ctnew: int)
    requires CheckInv(J0, J, ls, ms, ixold, ixnew, i, j, ctold, ctnew) && i <= |ls| && J[i] == 0
    ensures CheckInv(J0, J, ls, ms, ixold[i := Off(ls, i)], ixnew, i + 1, j, Off(ls, i), ctnew)
  {
  }

  lemma InvMatched(J0: seq<int>, J: seq<int>, ls: seq<Line>, ms: seq<Line>, ixold: seq<int>, ixnew: seq<int>,
                   i: int, j: int, ctold: int, ctnew: int, ixnew': seq<int>)
    requires CheckInv(J0, J, ls, ms, ixold, ixnew, i, j, ctold, ctnew) && i <= |ls| && J[i] != 0
    requires |ixnew'| == |ixnew| && Offsets(ixnew', ms, J[i] - 1)
    ensures j <= J[i] <= |ms|
    ensures CheckInv(J0, J[i := Settled(J[i], ls[i - 1], ms)], ls, ms,
                     ixold[i := Off(ls, i)], ixnew'[J[i] := Off(ms, J[i])],
                     i + 1, J[i] + 1, Off(ls, i), Off(ms, J[i]))
  {
    hide Off;
  }

  /** Line i of the first file, with its mate if it has one. */
  method CheckLine(t0: string, t1: string, ls: seq<Line>, ms: seq<Line>, J: array<int>, ixold: array<int>,
                   ixnew: array<int>, i: nat, j: nat, ctold: nat, ctnew: nat, ghost J0: seq<int>)
    returns (j': nat, ctold': nat, ctnew': nat)
    requires Lines(ls) && Lines(ms) && t0 == Text(ls) && t1 == Text(ms)
    requires J != ixold && J != ixnew && ixold != ixnew && i <= |ls|
    requires CheckInv(J0, J[..], ls, ms, ixold[..], ixnew[..], i, j, ctold, ctnew)
    modifies J, ixold, ixnew
    ensures CheckInv(J0, J[..], ls, ms, ixold[..], ixnew[..], i + 1, j', ctold', ctnew')
  {
    j', ctold', ctnew' := j, ctold, ctnew;
    LinesInText(ls, i - 1);
    ghost var K, xo, xn := J[..], ixold[..], ixnew[..];
    if J[i] == 0 {
      InvUnmatched(J0, K, ls, ms, xo, xn, i, j, ctold, ctnew);
      var n := SkipLine(t0, ctold, ctold, ls[i - 1]);
      ctold' := ctold + n;
      ixold[i] := ctold';
      assert ixold[..] == xo[i := ctold'];
    } else {
      assert j <= J[i] <= |ms|;
      ctnew' := SkipTo(t1, ms, j, J[i], ctnew, ixnew);
      InvMatched(J0, K, ls, ms, xo, xn, i, j, ctold, ctnew, ixnew[..]);
      xn := ixnew[..];
      j' := J[i];
      ctold', ctnew' := Mated(t0, t1, ls, ms, J, i, ctold, ctnew');
      ixold[i] := ctold';
      ixnew[j'] := ctnew';
      assert ixold[..] == xo[i := ctold'] && ixnew[..] == xn[j' := ctnew'];
      j' := j' + 1;
    }
  }

  /** Compare line i with its mate, and break the match if they differ. */
  method Mated(t0: string, t1: string, ls: seq<Line>, ms: seq<Line>, J: array<int>, i: nat, ctold: nat, ctnew: nat)
    returns (ctold': nat, ctnew': nat)
    requires Lines(ls) && Lines(ms) && t0 == Text(ls) && t1 == Text(ms)
    requires 1 <= i <= |ls| && i < J.Length && 1 <= J[i] <= |ms| && ctold == Off(ls, i - 1)
    requires ctnew == Off(ms, J[i] - 1)
    modifies J
    ensures J[..] == old(J[..])[i := Settled(old(J[i]), ls[i - 1], ms)]
    ensures ctold' == Off(ls, i) && ctnew' == Off(ms, old(J[i]))
  {
    var j := J[i];
    LinesInText(ls, i - 1);
    LinesInText(ms, j - 1);
    var same;
    same, ctold', ctnew' := CompareLines(t0, ctold, t1, ctnew, ls[i - 1], ms[j - 1]);
    if !same {
      J[i] := 0;
    }
  }

  method Check(t0: string, t1: string, ls: seq<Line>, ms: seq<Line>, J: array<int>, ixold: array<int>,
               ixnew: array<int>)
    requires Lines(ls) && Lines(ms) && t0 == Text(ls) && t1 == Text(ms)
    requires ixold.Length == |ls| + 2 && ixnew.Length == |ms| + 2 && J != ixold && J != ixnew && ixold != ixnew
    requires Increasing(J[..], |ls|, |ms|)
    modifies J, ixold, ixnew
    ensures forall i :: 1 <= i <= |ls| ==> J[i] == Settled(old(J[i]), ls[i - 1], ms)
    ensures Offsets(ixold[..], ls, |ls|) && Offsets(ixnew[..], ms, |ms|)
  {
    ghost var J0 := J[..];
    var j, ctold, ctnew := 1, 0, 0;
    ixold[0], ixnew[0] := 0, 0;
    var i := 1;
    while i <= |ls|
      invariant CheckInv(J0, J[..], ls, ms, ixold[..], ixnew[..], i, j, ctold, ctnew)
    {
      j, ctold, ctnew := CheckLine(t0, t1, ls, ms, J, ixold, ixnew, i, j, ctold, ctnew, J0);
      i := i + 1;
    }
    ctnew := SkipTo(t1, ms, j, |ms| + 1, ctnew, ixnew);
  }
}
