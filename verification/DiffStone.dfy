/** stone: Harold Stone's k-candidates, which give a longest common subsequence of two files. */
module DiffStone {
  import opened DiffLcs

  datatype Cand = Cand(x: int, y: int, pred: int)

  // ----- One row of the table of L, matched pair by matched pair -----

  /**
   The lengths in row i when only the matches of line i with lines up to Y are counted:
   row i itself when Y is the last line, and the row before it when Y is 0.
   */
  ghost function P(f: seq<int>, g: seq<int>, i: nat, Y: nat, y: nat): nat
    requires 0 < i <= |f| && Y <= |g| && y <= |g|
  {
    if y <= Y then L(f, g, i, y) else Max(L(f, g, i, Y), L(f, g, i - 1, y))
  }

  ghost predicate NoMatch(f: seq<int>, g: seq<int>, i: nat, lo: nat, hi: nat) {
    forall y :: lo < y <= hi ==> !Match(f, g, i, y)
  }

  /** Lines that do not match line i change nothing. */
  lemma {:induction false} Gap(f: seq<int>, g: seq<int>, i: nat, Y: nat, Y': nat, y: nat)
    requires 0 < i <= |f| && Y <= Y' <= |g| && y <= |g| && NoMatch(f, g, i, Y, Y')
    ensures P(f, g, i, Y, y) == P(f, g, i, Y', y)
    decreases Y' - Y, y
  {
    if y <= Y {
    } else if y <= Y' {
      LSteps(f, g, i, y);
      if y > Y + 1 {
        Gap(f, g, i, Y, Y', y - 1);
        LSteps(f, g, i - 1, y);
      }
    } else if Y < Y' {
      Gap(f, g, i, Y, Y', Y');
      LMono(f, g, i - 1, Y', y);
    }
  }

  /** How the lengths change at a line Y that matches line i. */
  lemma AtMatch(f: seq<int>, g: seq<int>, i: nat, Y: nat)
    requires 0 < i <= |f| && 0 < Y <= |g| && Match(f, g, i, Y)
    ensures var q := L(f, g, i - 1, Y - 1);
      && L(f, g, i, Y) == q + 1
      && q <= L(f, g, i, Y - 1) <= q + 1
      && q <= L(f, g, i - 1, Y) <= q + 1
  {
    LSteps(f, g, i, Y);
    LSteps(f, g, i, Y - 1);
    LSteps(f, g, i - 1, Y);
  }

  lemma {:induction false} LRowBound(f: seq<int>, g: seq<int>, i: nat, j: nat)
    requires i <= |f| && j <= |g|
    ensures L(f, g, i, j) <= i
    decreases i
  {
    if i > 0 {
      LRowBound(f, g, i - 1, j);
      LSteps(f, g, i, j);
    }
  }

  /** cy[l] is the least y at which the row reaches length l, for l up to the row's greatest length. */
  ghost predicate RowAt(f: seq<int>, g: seq<int>, i: nat, Y: nat, cy: seq<int>)
    requires 0 < i <= |f| && Y <= |g|
  {
    && |cy| > 0 && cy[0] == 0
    && (forall l :: 0 < l < |cy| ==> cy[l - 1] < cy[l] <= |g|)
    && (forall y: nat :: y <= |g| ==> Reaches(cy, y, P(f, g, i, Y, y)))
  }

  ghost predicate Reaches(cy: seq<int>, y: nat, v: nat) {
    && v < |cy|
    && (forall l :: 0 < l < |cy| ==> (cy[l] <= y <==> l <= v))
  }

  lemma RowGap(f: seq<int>, g: seq<int>, i: nat, Y: nat, Y': nat, cy: seq<int>)
    requires 0 < i <= |f| && Y <= Y' <= |g| && NoMatch(f, g, i, Y, Y') && RowAt(f, g, i, Y, cy)
    ensures RowAt(f, g, i, Y', cy)
  {
    forall y: nat | y <= |g| ensures Reaches(cy, y, P(f, g, i, Y', y)) {
      Gap(f, g, i, Y, Y', y);
      assert Reaches(cy, y, P(f, g, i, Y, y));
    }
  }

  /** A match that lengthens nothing leaves the row as it is. */
  lemma RowSame(f: seq<int>, g: seq<int>, i: nat, Y: nat, cy: seq<int>)
    requires 0 < i <= |f| && 0 < Y <= |g| && Match(f, g, i, Y) && RowAt(f, g, i, Y - 1, cy)
    requires var q := L(f, g, i - 1, Y - 1); L(f, g, i, Y - 1) == q + 1 || L(f, g, i - 1, Y) == q + 1
    ensures RowAt(f, g, i, Y, cy)
  {
    AtMatch(f, g, i, Y);
    forall y: nat | y <= |g| ensures Reaches(cy, y, P(f, g, i, Y, y)) {
      if y >= Y { LMono(f, g, i - 1, Y, y); }
      assert Reaches(cy, y, P(f, g, i, Y - 1, y));
    }
  }

  /** How a match that does lengthen changes the lengths of its row. */
  lemma LengthenedAt(f: seq<int>, g: seq<int>, i: nat, Y: nat, y: nat)
    requires 0 < i <= |f| && 0 < Y <= |g| && y <= |g| && Match(f, g, i, Y)
    requires var q := L(f, g, i - 1, Y - 1); L(f, g, i, Y - 1) == q && L(f, g, i - 1, Y) == q
    ensures var q, v := L(f, g, i - 1, Y - 1), P(f, g, i, Y - 1, y);
      P(f, g, i, Y, y) == (if y >= Y && v == q then q + 1 else v) && (y >= Y ==> v >= q)
  {
    AtMatch(f, g, i, Y);
    if y >= Y { LMono(f, g, i - 1, Y, y); }
  }

  /** klist, or its y values, after a new entry l. */
  function Put(c: seq<int>, l: nat, p: int): seq<int>
    requires l <= |c|
  {
    if l < |c| then c[l := p] else c + [p]
  }

  lemma ReachesPut(cy: seq<int>, q: nat, Y: nat, y: nat, v: nat)
    requires Reaches(cy, y, v) && q < |cy| && (y >= Y ==> v >= q)
    requires q + 1 < |cy| ==> cy[q + 1] > Y
    ensures Reaches(Put(cy, q + 1, Y), y, if y >= Y && v == q then q + 1 else v)
  {
  }

  lemma RowLowerAt(f: seq<int>, g: seq<int>, i: nat, Y: nat, cy: seq<int>, q: nat, y: nat)
    requires 0 < i <= |f| && 0 < Y <= |g| && Match(f, g, i, Y) && y <= |g| && Reaches(cy, y, P(f, g, i, Y - 1, y))
    requires q == L(f, g, i - 1, Y - 1) == L(f, g, i, Y - 1) == L(f, g, i - 1, Y)
    requires q < |cy| && (q + 1 < |cy| ==> cy[q + 1] > Y)
    ensures Reaches(Put(cy, q + 1, Y), y, P(f, g, i, Y, y))
  {
    LengthenedAt(f, g, i, Y, y);
    ReachesPut(cy, q, Y, y, P(f, g, i, Y - 1, y));
  }

  lemma RowLowerPlace(f: seq<int>, g: seq<int>, i: nat, Y: nat, cy: seq<int>, q: nat)
    requires 0 < i <= |f| && 0 < Y <= |g| && Match(f, g, i, Y) && RowAt(f, g, i, Y - 1, cy)
    requires q == L(f, g, i - 1, Y - 1) == L(f, g, i, Y - 1) == L(f, g, i - 1, Y)
    ensures q < |cy| && cy[q] < Y && (q + 1 < |cy| ==> cy[q + 1] > Y)
  {
    assert Reaches(cy, Y - 1, P(f, g, i, Y - 1, Y - 1));
    assert Reaches(cy, Y, P(f, g, i, Y - 1, Y));
  }

  /** A match that does lengthen moves one threshold down to it, or adds one at the end. */
  lemma RowLower(f: seq<int>, g: seq<int>, i: nat, Y: nat, cy: seq<int>, q: nat)
    requires 0 < i <= |f| && 0 < Y <= |g| && Match(f, g, i, Y) && RowAt(f, g, i, Y - 1, cy)
    requires q == L(f, g, i - 1, Y - 1) == L(f, g, i, Y - 1) == L(f, g, i - 1, Y)
    ensures q < |cy| && (q + 1 < |cy| ==> cy[q + 1] > Y)
    ensures RowAt(f, g, i, Y, Put(cy, q + 1, Y))
  {
    hide L, Reaches, P;
    RowLowerPlace(f, g, i, Y, cy, q);
    forall y: nat | y <= |g|
      ensures Reaches(Put(cy, q + 1, Y), y, P(f, g, i, Y, y))
    {
      RowLowerAt(f, g, i, Y, cy, q, y);
    }
  }

  /** A row that has reached its greatest possible length needs no more matches. */
  lemma RowFull(f: seq<int>, g: seq<int>, i: nat, Y: nat, cy: seq<int>)
    requires 0 < i <= |f| && 0 < Y <= |g| && RowAt(f, g, i, Y, cy)
    requires L(f, g, i, Y) + 1 == |cy|
    requires L(f, g, i - 1, |g|) + 2 <= |cy|
    ensures RowAt(f, g, i, |g|, cy)
  {
    hide L, Reaches;
    forall y: nat | y <= |g|
      ensures Reaches(cy, y, P(f, g, i, |g|, y))
    {
      assert Reaches(cy, y, P(f, g, i, Y, y));
      FullAt(f, g, i, Y, y, |cy|);
    }
  }

  lemma FullAt(f: seq<int>, g: seq<int>, i: nat, Y: nat, y: nat, n: nat)
    requires 0 < i <= |f| && 0 < Y <= |g| && y <= |g|
    requires L(f, g, i, Y) + 1 == n && L(f, g, i - 1, |g|) + 2 <= n
    ensures P(f, g, i, |g|, y) == P(f, g, i, Y, y)
  {
    hide L;
    if y > Y {
      LMono(f, g, i, Y, y);
      LSteps(f, g, i, y);
      LMono(f, g, i - 1, y, |g|);
    }
  }

  // ----- The candidates -----

  /** Every candidate is a match that extends a shorter one; lev gives the length it stands for. */
  ghost predicate CandsOk(f: seq<int>, g: seq<int>, cl: seq<Cand>, lev: seq<nat>) {
    |lev| == |cl| && forall p :: 0 <= p < |cl| ==> CandOk(f, g, cl, lev, p)
  }

  ghost predicate CandOk(f: seq<int>, g: seq<int>, cl: seq<Cand>, lev: seq<nat>, p: int)
    requires |lev| == |cl| && 0 <= p < |cl|
  {
    var q := cl[p];
    if lev[p] == 0 then q == Cand(0, 0, 0)
    else
      && Match(f, g, q.x, q.y)
      && 0 <= q.pred < p
      && lev[q.pred] == lev[p] - 1
      && cl[q.pred].x < q.x && cl[q.pred].y < q.y
  }

  /** klist: entry l is a candidate of length l on a line no later than i. */
  ghost predicate KlistOk(cl: seq<Cand>, lev: seq<nat>, c: seq<int>, i: int) {
    |lev| == |cl| && |c| > 0
    && forall l :: 0 <= l < |c| ==> 0 <= c[l] < |cl| && lev[c[l]] == l && cl[c[l]].x <= i
  }

  ghost function Ys(cl: seq<Cand>, c: seq<int>): (r: seq<int>)
    requires forall l :: 0 <= l < |c| ==> 0 <= c[l] < |cl|
    ensures |r| == |c|
  {
    seq(|c|, l requires 0 <= l < |c| => cl[c[l]].y)
  }

  /**
   In the middle of row i, when the matches up to Y are dealt with: c0 is klist as the row before
   left it; entries above oldl are still the same; oldc is what entry oldl was, or a candidate
   that no later match of this row can fall below.
   */
  ghost predicate RowInv(f: seq<int>, g: seq<int>, i: nat, Y: nat, cl: seq<Cand>, lev: seq<nat>,
                         c0: seq<int>, c: seq<int>, oldl: nat, oldc: int)
    requires 0 < i <= |f| && Y <= |g|
  {
    && CandsOk(f, g, cl, lev)
    && KlistOk(cl, lev, c0, i - 1) && KlistOk(cl, lev, c, i)
    && RowAt(f, g, i, 0, Ys(cl, c0)) && RowAt(f, g, i, Y, Ys(cl, c))
    && oldl < |c| == |c0| && c[0] == c0[0]
    && (forall l :: oldl < l < |c| ==> c[l] == c0[l])
    && (oldl > 0 ==> Ys(cl, c)[oldl] <= Y && Ys(cl, c)[oldl] < Ys(cl, c0)[oldl])
    && 0 <= oldc < |cl|
    && (oldc == c0[oldl] || (L(f, g, i, Y) > oldl && cl[oldc].y <= Y))
  }

  /** Entry oldl tells whether a match at y would lengthen: exactly when its old value lies below y. */
  lemma Levels(f: seq<int>, g: seq<int>, i: nat, y: nat, cy0: seq<int>, cy: seq<int>, oldl: nat)
    requires 0 < i <= |f| && 0 < y <= |g| && Match(f, g, i, y)
    requires RowAt(f, g, i, 0, cy0) && RowAt(f, g, i, y - 1, cy)
    requires oldl < |cy| == |cy0| && forall l :: oldl < l < |cy| ==> cy[l] == cy0[l]
    requires oldl > 0 ==> cy[oldl] < y && cy[oldl] < cy0[oldl]
    ensures var q, r := L(f, g, i - 1, y - 1), L(f, g, i, y - 1);
      && q < |cy0| && oldl <= r && q <= r <= q + 1
      && (r == q + 1 ==> oldl == r && cy0[oldl] >= y)
      && (r == q ==> cy0[oldl] < y)
  {
    AtMatch(f, g, i, y);
    assert Reaches(cy0, y - 1, P(f, g, i, 0, y - 1));
    assert Reaches(cy, y - 1, P(f, g, i, y - 1, y - 1));
    var q, r := L(f, g, i - 1, y - 1), L(f, g, i, y - 1);
    if r == q + 1 { assert cy[r] < y <= cy0[r]; }
  }

  /** What the invariant says about the next match y: whether it lengthens, and on what. */
  lemma NextMatch(f: seq<int>, g: seq<int>, i: nat, Y: nat, cl: seq<Cand>, lev: seq<nat>,
                  c0: seq<int>, c: seq<int>, oldl: nat, oldc: int, y: nat)
    requires 0 < i <= |f| && Y < y <= |g| && RowInv(f, g, i, Y, cl, lev, c0, c, oldl, oldc)
    requires NoMatch(f, g, i, Y, y - 1) && Match(f, g, i, y)
    ensures RowAt(f, g, i, y - 1, Ys(cl, c))
    ensures var q := L(f, g, i - 1, y - 1);
      && q <= L(f, g, i, y - 1) <= q + 1
      && (y <= cl[oldc].y <==> L(f, g, i, y - 1) == q + 1)
      && (L(f, g, i, y - 1) == q ==> oldl <= q < |c0| && (q == oldl ==> oldc == c0[q]) && (q > oldl ==> c[q] == c0[q]))
  {
    RowGap(f, g, i, Y, y - 1, Ys(cl, c));
    Levels(f, g, i, y, Ys(cl, c0), Ys(cl, c), oldl);
    LMono(f, g, i, Y, y - 1);
  }

  /** The invariant after a match that changed nothing; oldc may have moved on to entry q. */
  lemma InvSame(f: seq<int>, g: seq<int>, i: nat, Y: nat, cl: seq<Cand>, lev: seq<nat>,
                c0: seq<int>, c: seq<int>, oldl: nat, oldc: int, y: nat, oldc': int)
    requires 0 < i <= |f| && Y < y <= |g| && RowInv(f, g, i, Y, cl, lev, c0, c, oldl, oldc)
    requires NoMatch(f, g, i, Y, y - 1) && Match(f, g, i, y)
    requires var q := L(f, g, i - 1, y - 1);
      && (L(f, g, i, y - 1) == q + 1 || L(f, g, i - 1, y) == q + 1)
      && (oldc' == oldc || (oldl < q < |c| && oldc' == c[q] && cl[oldc'].y <= y))
    ensures RowInv(f, g, i, y, cl, lev, c0, c, oldl, oldc')
  {
    RowGap(f, g, i, Y, y - 1, Ys(cl, c));
    RowSame(f, g, i, y, Ys(cl, c));
    LMono(f, g, i, Y, y);
    AtMatch(f, g, i, y);
  }

  /** A new candidate for length q + 1, on top of one for length q. */
  lemma CandAdded(f: seq<int>, g: seq<int>, cl: seq<Cand>, lev: seq<nat>, i: int, y: int, pred: int, q: nat)
    requires CandsOk(f, g, cl, lev) && Match(f, g, i, y)
    requires 0 <= pred < |cl| && lev[pred] == q && cl[pred].x < i && cl[pred].y < y
    ensures CandsOk(f, g, cl + [Cand(i, y, pred)], lev + [q + 1])
  {
    var cl', lev' := cl + [Cand(i, y, pred)], lev + [q + 1];
    forall p | 0 <= p < |cl'| ensures CandOk(f, g, cl', lev', p) {
      if p < |cl| { assert CandOk(f, g, cl, lev, p); }
    }
  }

  lemma KlistKept(cl: seq<Cand>, lev: seq<nat>, c: seq<int>, i: int, i': int, q: Cand, v: nat)
    requires KlistOk(cl, lev, c, i) && i <= i'
    ensures KlistOk(cl + [q], lev + [v], c, i') && Ys(cl + [q], c) == Ys(cl, c)
  {
  }

  lemma KlistSet(cl: seq<Cand>, lev: seq<nat>, c: seq<int>, i: int, p: int, l: nat)
    requires KlistOk(cl, lev, c, i) && 0 < l <= |c| && 0 <= p < |cl| && lev[p] == l && cl[p].x <= i
    ensures var c' := if l < |c| then c[l := p] else c + [p];
      && KlistOk(cl, lev, c', i)
      && Ys(cl, c') == if l < |c| then Ys(cl, c)[l := cl[p].y] else Ys(cl, c) + [cl[p].y]
  {
  }

  /** A match that lengthens: y is the new threshold for length l. */
  lemma RowPut(f: seq<int>, g: seq<int>, i: nat, Y: nat, cy: seq<int>, y: nat, l: nat)
    requires 0 < i <= |f| && Y < y <= |g| && RowAt(f, g, i, Y, cy) && l <= |cy|
    requires NoMatch(f, g, i, Y, y - 1) && Match(f, g, i, y)
    requires l == L(f, g, i - 1, y - 1) + 1 && L(f, g, i, y - 1) == l - 1 && L(f, g, i - 1, y) == l - 1
    ensures RowAt(f, g, i, y, Put(cy, l, y))
    ensures l < |cy| ==> cy[l] > y
  {
    RowGap(f, g, i, Y, y - 1, cy);
    RowLower(f, g, i, y, cy, l - 1);
  }

  lemma KlistPut(f: seq<int>, g: seq<int>, cl: seq<Cand>, lev: seq<nat>, c: seq<int>, i: int, y: int, pred: int, l: nat)
    requires CandsOk(f, g, cl, lev) && KlistOk(cl, lev, c, i) && Match(f, g, i, y) && 0 < l <= |c|
    requires 0 <= pred < |cl| && lev[pred] == l - 1 && cl[pred].x < i && cl[pred].y < y
    ensures var cl', lev', c' := cl + [Cand(i, y, pred)], lev + [l], Put(c, l, |cl|);
      CandsOk(f, g, cl', lev') && KlistOk(cl', lev', c', i) && Ys(cl', c') == Put(Ys(cl, c), l, y)
  {
    CandAdded(f, g, cl, lev, i, y, pred, l - 1);
    KlistKept(cl, lev, c, i, i, Cand(i, y, pred), l);
    KlistSet(cl + [Cand(i, y, pred)], lev + [l], c, i, |cl|, l);
  }

  /** The invariant after a match that put a new candidate in an old entry l of klist. */
  lemma InvLower(f: seq<int>, g: seq<int>, i: nat, Y: nat, cl: seq<Cand>, lev: seq<nat>,
                 c0: seq<int>, c: seq<int>, oldl: nat, oldc: int, y: nat, pred: int, l: nat)
    requires 0 < i <= |f| && Y < y <= |g| && RowInv(f, g, i, Y, cl, lev, c0, c, oldl, oldc)
    requires NoMatch(f, g, i, Y, y - 1) && Match(f, g, i, y)
    requires l == L(f, g, i - 1, y - 1) + 1 && L(f, g, i, y - 1) == l - 1 && L(f, g, i - 1, y) == l - 1
    requires oldl < l < |c| && pred == c0[l - 1] && cl[pred].y < y
    ensures RowInv(f, g, i, y, cl + [Cand(i, y, pred)], lev + [l], c0, Put(c, l, |cl|), l, c[l])
  {
    RowPut(f, g, i, Y, Ys(cl, c), y, l);
    KlistPut(f, g, cl, lev, c, i, y, pred, l);
    KlistKept(cl, lev, c0, i - 1, i - 1, Cand(i, y, pred), l);
  }

  /** klist has as many entries as the row is long. */
  lemma RowLength(f: seq<int>, g: seq<int>, i: nat, Y: nat, cy: seq<int>)
    requires 0 < i <= |f| && Y <= |g| && RowAt(f, g, i, Y, cy)
    ensures |cy| == P(f, g, i, Y, |g|) + 1
  {
    assert Reaches(cy, |g|, P(f, g, i, Y, |g|));
    if |cy| > 1 { assert cy[|cy| - 1] <= |g|; }
  }

  /** Where Search comes out, in terms of L. */
  lemma Found(f: seq<int>, g: seq<int>, i: nat, cy: seq<int>, y: nat, l: nat)
    requires 0 < i <= |f| && 0 < y <= |g| && Match(f, g, i, y) && RowAt(f, g, i, y - 1, cy)
    requires 1 <= l <= |cy| && cy[l - 1] < y && (l < |cy| ==> y <= cy[l])
    ensures l == L(f, g, i, y - 1) + 1
    ensures L(f, g, i, y - 1) == L(f, g, i - 1, y - 1) ==>
      (L(f, g, i - 1, y) == l <==> l < |cy| && cy[l] <= y) && l - 1 <= L(f, g, i - 1, y) <= l
  {
    var r := L(f, g, i, y - 1);
    assert Reaches(cy, y - 1, P(f, g, i, y - 1, y - 1));
    assert Reaches(cy, y, P(f, g, i, y - 1, y));
    AtMatch(f, g, i, y);
    assert l - 1 > 0 ==> l - 1 <= r;
    assert l < |cy| ==> (cy[l] <= y - 1 <==> l <= r);
  }

  /** Between rows: klist as it stands after row i. */
  ghost predicate AfterRow(f: seq<int>, g: seq<int>, i: nat, cl: seq<Cand>, lev: seq<nat>, c: seq<int>)
    requires i <= |f|
  {
    && CandsOk(f, g, cl, lev) && KlistOk(cl, lev, c, i)
    && |c| == L(f, g, i, |g|) + 1
    && (i < |f| ==> RowAt(f, g, i + 1, 0, Ys(cl, c)))
  }

  lemma RowStart(f: seq<int>, g: seq<int>, i: nat, cl: seq<Cand>, lev: seq<nat>, c: seq<int>)
    requires i < |f| && AfterRow(f, g, i, cl, lev, c)
    ensures RowInv(f, g, i + 1, 0, cl, lev, c, c, 0, c[0])
  {
  }

  lemma RowEnd(f: seq<int>, g: seq<int>, i: nat, cl: seq<Cand>, lev: seq<nat>, c: seq<int>)
    requires 0 < i <= |f| && CandsOk(f, g, cl, lev) && KlistOk(cl, lev, c, i) && RowAt(f, g, i, |g|, Ys(cl, c))
    ensures AfterRow(f, g, i, cl, lev, c)
  {
    var cy := Ys(cl, c);
    RowLength(f, g, i, |g|, cy);
    if i < |f| {
      var next := i + 1;
      forall y: nat | y <= |g| ensures Reaches(cy, y, P(f, g, next, 0, y)) {
        assert Reaches(cy, y, P(f, g, i, |g|, y));
      }
    }
  }

  lemma RowDone(f: seq<int>, g: seq<int>, i: nat, Y: nat, cl: seq<Cand>, lev: seq<nat>,
                c0: seq<int>, c: seq<int>, oldl: nat, oldc: int)
    requires 0 < i <= |f| && Y <= |g| && NoMatch(f, g, i, Y, |g|)
    requires RowInv(f, g, i, Y, cl, lev, c0, c, oldl, oldc)
    ensures AfterRow(f, g, i, cl, lev, c)
  {
    RowGap(f, g, i, Y, |g|, Ys(cl, c));
    RowEnd(f, g, i, cl, lev, c);
  }

  class Stone {
    var clist: seq<Cand>
    ghost var lev: seq<nat>

    constructor ()
      ensures clist == [] && lev == []
    {
      clist, lev := [], [];
    }

    method NewCand(x: int, y: int, pred: int, ghost l: nat) returns (p: int)
      modifies this
      ensures clist == old(clist) + [Cand(x, y, pred)] && lev == old(lev) + [l] && p == old(|clist|)
    {
      clist := clist + [Cand(x, y, pred)];
      lev := lev + [l];
      p := |clist| - 1;
    }

    /** The entry of klist whose y is y, or the first one beyond it. */
    method Search(c: array<int>, k: nat, y: int) returns (l: nat)
      requires k < c.Length && forall h :: 0 <= h <= k ==> 0 <= c[h] < |clist|
      requires forall h :: 0 < h <= k ==> clist[c[h - 1]].y < clist[c[h]].y
      requires clist[c[0]].y < y
      ensures 1 <= l <= k + 1 && clist[c[l - 1]].y < y && (l <= k ==> y <= clist[c[l]].y)
    {
      if clist[c[k]].y < y {
        return k + 1;
      }
      var i, j := 0, k + 1;
      l := (i + j) / 2;
      while l > i
        invariant 0 <= i < j <= k + 1 && l == (i + j) / 2
        invariant clist[c[i]].y < y && (j <= k ==> clist[c[j]].y > y)
        decreases j - i
      {
        var t := clist[c[l]].y;
        if t > y {
          j := l;
        } else if t < y {
          i := l;
        } else {
          return l;
        }
        l := (i + j) / 2;
      }
      return l + 1;
    }

    /** One line y of the second file that matches line i of the first. */
    method Mate(c: array<int>, k: nat, i: nat, y: nat, oldl: nat, oldc: int,
                ghost f: seq<int>, ghost g: seq<int>, ghost Y: nat, ghost c0: seq<int>)
      returns (full: bool, k': nat, oldl': nat, oldc': int)
      requires 0 < i <= |f| && Y < y <= |g| && NoMatch(f, g, i, Y, y - 1) && Match(f, g, i, y)
      requires k < i < c.Length && RowInv(f, g, i, Y, clist, lev, c0, c[..k + 1], oldl, oldc)
      modifies this, c
      ensures k' < c.Length
      ensures !full ==> k' == k && RowInv(f, g, i, y, clist, lev, c0, c[..k + 1], oldl', oldc')
      ensures full ==> CandsOk(f, g, clist, lev) && KlistOk(clist, lev, c[..k' + 1], i)
      ensures full ==> RowAt(f, g, i, |g|, Ys(clist, c[..k' + 1]))
    {
      full, k', oldl', oldc' := false, k, oldl, oldc;
      NextMatch(f, g, i, Y, clist, lev, c0, c[..k + 1], oldl, oldc, y);
      AtMatch(f, g, i, y);
      if y <= clist[oldc].y {
        InvSame(f, g, i, Y, clist, lev, c0, c[..k + 1], oldl, oldc, y, oldc);
        return;
      }
      ghost var cy := Ys(clist, c[..k + 1]);
      assert forall h :: 0 <= h <= k ==> cy[h] == clist[c[h]].y;
      var l := Search(c, k, y);
      Found(f, g, i, cy, y, l);
      if l != oldl + 1 {
        oldc' := c[l - 1];
      }
      if l <= k && clist[c[l]].y <= y {
        InvSame(f, g, i, Y, clist, lev, c0, c[..k + 1], oldl, oldc, y, oldc');
        return;
      }
      full, k', oldl', oldc' := Enter(c, k, i, y, l, oldc', f, g, Y, c0, oldl, oldc);
    }

    /** Put a new candidate in entry l of klist, or in a new last one, which ends the row. */
    method Enter(c: array<int>, k: nat, i: nat, y: nat, l: nat, pred: int,
                 ghost f: seq<int>, ghost g: seq<int>, ghost Y: nat, ghost c0: seq<int>,
                 ghost oldl: nat, ghost oldc: int)
      returns (full: bool, k': nat, oldl': nat, oldc': int)
      requires 0 < i <= |f| && Y < y <= |g| && NoMatch(f, g, i, Y, y - 1) && Match(f, g, i, y)
      requires k < i < c.Length && RowInv(f, g, i, Y, clist, lev, c0, c[..k + 1], oldl, oldc)
      requires l == L(f, g, i - 1, y - 1) + 1 && L(f, g, i, y - 1) == l - 1 && L(f, g, i - 1, y) == l - 1
      requires oldl < l <= k + 1 && pred == c0[l - 1] && clist[pred].y < y
      modifies this, c
      ensures k' < c.Length
      ensures !full ==> k' == k && RowInv(f, g, i, y, clist, lev, c0, c[..k + 1], oldl', oldc')
      ensures full ==> CandsOk(f, g, clist, lev) && KlistOk(clist, lev, c[..k' + 1], i)
      ensures full ==> RowAt(f, g, i, |g|, Ys(clist, c[..k' + 1]))
    {
      ghost var was := c[..k + 1];
      full, k', oldl', oldc' := l > k, k, l, pred;
      if l <= k {
        InvLower(f, g, i, Y, clist, lev, c0, was, oldl, oldc, y, pred, l);
        oldc' := c[l];
        c[l] := NewCand(i, y, pred, l);
        assert c[..k + 1] == was[l := c[l]];
      } else {
        Extended(f, g, i, Y, clist, lev, c0, was, oldl, oldc, y, pred, l);
        c[l] := NewCand(i, y, pred, l);
        k' := k + 1;
        assert c[..k' + 1] == was + [c[l]];
      }
    }

    /** Mate t of line i, and what b lists next. */
    method RowStep(c: array<int>, k: nat, i: nat, b: seq<int>, j: nat, y: nat, oldl: nat, oldc: int, ghost cur: Cursor,
                   ghost c0: seq<int>)
      returns (done: bool, k': nat, y': int, oldl': nat, oldc': int)
      requires cur.At(b, i, j, y) && k < i < c.Length
      requires RowInv(cur.f, cur.g, i, cur.Y(), clist, lev, c0, c[..k + 1], oldl, oldc)
      modifies this, c
      ensures k' < c.Length
      ensures done ==> AfterRow(cur.f, cur.g, i, clist, lev, c[..k' + 1])
      ensures !done ==> k' == k && y' > 0 && cur.Next().At(b, i, j + 1, y')
      ensures !done ==> RowInv(cur.f, cur.g, i, cur.Next().Y(), clist, lev, c0, c[..k + 1], oldl', oldc')
    {
      cur.Here(b, i, j, y);
      done, k', oldl', oldc' := Mate(c, k, i, y, oldl, oldc, cur.f, cur.g, cur.Y(), c0);
      y' := 0;
      if done {
        RowEnd(cur.f, cur.g, i, clist, lev, c[..k' + 1]);
      } else {
        y' := b[j + 1];
        if y' <= 0 {
          done := true;
          RowDone(cur.f, cur.g, i, y, clist, lev, c0, c[..k + 1], oldl', oldc');
        }
      }
    }

    /** Line i of the first file: its mates, in order, are listed in b from j on. */
    method Row(c: array<int>, k: nat, i: nat, b: seq<int>, start: nat, ghost f: seq<int>, ghost g: seq<int>)
      returns (k': nat)
      requires 0 < i <= |f| && k < i < c.Length
      requires AfterRow(f, g, i - 1, clist, lev, c[..k + 1]) && start > 0 && MatesOf(f, g, i, start, b)
      modifies this, c
      ensures k' < c.Length && AfterRow(f, g, i, clist, lev, c[..k' + 1])
    {
      ghost var ys :| Listed(b, start, ys) && AllMates(f, g, i, ys);
      RowStart(f, g, i - 1, clist, lev, c[..k + 1]);
      ghost var cur, c0 := Cursor(f, g, start, ys, 0), c[..k + 1];
      assert MateAt(f, g, i, ys, 0);
      var j, y, oldl, oldc := start, -b[start], 0, c[0];
      var done;
      done, k', y, oldl, oldc := RowStep(c, k, i, b, j, y, oldl, oldc, cur, c0);
      while !done
        invariant done ==> k' < c.Length && AfterRow(f, g, i, clist, lev, c[..k' + 1])
        invariant cur.f == f && cur.g == g
        invariant !done ==> k' == k && y > 0 && cur.Next().At(b, i, j + 1, y)
        invariant !done ==> RowInv(f, g, i, cur.Next().Y(), clist, lev, c0, c[..k + 1], oldl, oldc)
        decreases !done, |cur.ys| - cur.t
      {
        cur := cur.Next();
        j := j + 1;
        done, k', y, oldl, oldc := RowStep(c, k, i, b, j, y, oldl, oldc, cur, c0);
      }
    }

    /**
     The whole of the first file. a gives for each of its lines where its mates are listed in b, or 0.
     On return klist[k] heads a longest common subsequence.
     */
    method Run(a: array<int>, n: nat, b: array<int>, c: array<int>, ghost f: seq<int>, ghost g: seq<int>)
      returns (k: nat)
      requires clist == [] && lev == []
      requires |f| == n < a.Length && n + 1 < c.Length && a != c && b != c
      requires AllListed(f, g, a[..], b[..])
      modifies this, c
      ensures k == Lcs(f, g) && k < c.Length
      ensures CandsOk(f, g, clist, lev) && 0 <= c[k] < |clist| && lev[c[k]] == k
    {
      hide AfterRow, L, CandsOk, KlistOk, AllListed;
      k := 0;
      c[0] := NewCand(0, 0, 0, 0);
      assert clist == [Cand(0, 0, 0)] && lev == [0];
      FirstRow(f, g, c[..k + 1]);
      var i := 1;
      while i <= n
        invariant 1 <= i <= n + 1 && k < c.Length && k < i
        invariant AfterRow(f, g, i - 1, clist, lev, c[..k + 1])
      {
        var j := a[i];
        ListedAt(f, g, a[..], b[..], i);
        if j == 0 {
          NoMates(f, g, i, clist, lev, c[..k + 1]);
        } else {
          k := Row(c, k, i, b[..], j, f, g);
          RowSize(f, g, i, clist, lev, c[..k + 1]);
          LRowBound(f, g, i, |g|);
        }
        i := i + 1;
      }
      assert c[..k + 1][k] == c[k];
      RowSize(f, g, n, clist, lev, c[..k + 1]);
    }
  }

  /** The mates of one line are listed from j on: the first one negated, and something not positive at the end. */
  ghost predicate Listed(b: seq<int>, j: int, ys: seq<int>) {
    && 0 < j && 0 < |ys| && j + |ys| < |b|
    && b[j] == -ys[0] && b[j + |ys|] <= 0
    && (forall t :: 0 < t < |ys| ==> EntryAt(b, j, ys, t))
  }

  ghost predicate EntryAt(b: seq<int>, j: int, ys: seq<int>, t: nat)
    requires 0 < j && t < |ys| && j + |ys| < |b|
  {
    b[j + t] == ys[t]
  }

  ghost predicate MatesOf(f: seq<int>, g: seq<int>, i: int, j: int, b: seq<int>) {
    if j == 0 then forall y :: !Match(f, g, i, y)
    else exists ys :: Listed(b, j, ys) && AllMates(f, g, i, ys)
  }

  /** For every line of the first file, a says where its mates are listed in b. */
  ghost predicate AllListed(f: seq<int>, g: seq<int>, a: seq<int>, b: seq<int>) {
    |f| < |a| && forall i :: 1 <= i <= |f| ==> a[i] >= 0 && MatesOf(f, g, i, a[i], b)
  }

  lemma ListedAt(f: seq<int>, g: seq<int>, a: seq<int>, b: seq<int>, i: int)
    requires AllListed(f, g, a, b) && 1 <= i <= |f|
    ensures a[i] >= 0 && MatesOf(f, g, i, a[i], b)
  {
  }

  /** The mate before mate t. */
  function Last(ys: seq<int>, t: nat): nat
    requires t <= |ys|
  {
    if t == 0 || ys[t - 1] < 0 then 0 else ys[t - 1]
  }

  /** y is the first match of line i beyond Y. */
  ghost predicate NextMate(f: seq<int>, g: seq<int>, i: int, Y: nat, y: int) {
    && 0 < i <= |f| && Y < y <= |g|
    && Match(f, g, i, y) && NoMatch(f, g, i, Y, y - 1)
  }

  ghost predicate MateAt(f: seq<int>, g: seq<int>, i: int, ys: seq<int>, t: nat)
    requires t < |ys|
  {
    NextMate(f, g, i, Last(ys, t), ys[t])
  }

  /** Exactly the mates of line i, in order: each is the first beyond the one before, and none is beyond the last. */
  ghost predicate AllMates(f: seq<int>, g: seq<int>, i: int, ys: seq<int>) {
    && 0 < i <= |f|
    && (forall t :: 0 <= t < |ys| ==> MateAt(f, g, i, ys, t))
    && NoMatch(f, g, i, Last(ys, |ys|), |g|)
  }

  /** Mate t in the list ys of the mates of some line, which starts at b[start]. */
  datatype Cursor = Cursor(f: seq<int>, g: seq<int>, start: nat, ys: seq<int>, t: nat) {
    ghost predicate At(b: seq<int>, i: nat, j: nat, y: int) {
      && Listed(b, start, ys) && AllMates(f, g, i, ys)
      && t < |ys| && j == start + t && y == ys[t] && Y() <= |g|
    }

    function Y(): nat { if t > |ys| then 0 else Last(ys, t) }

    function Next(): Cursor { this.(t := t + 1) }

    /** What the place says: y is the first match beyond Y, and what follows it in b. */
    lemma Here(b: seq<int>, i: nat, j: nat, y: int)
      requires At(b, i, j, y)
      ensures NextMate(f, g, i, Y(), y) && j + 1 < |b| && Next().Y() == y
      ensures b[j + 1] > 0 ==> Next().At(b, i, j + 1, b[j + 1])
      ensures b[j + 1] <= 0 ==> NoMatch(f, g, i, y, |g|)
    {
      assert MateAt(f, g, i, ys, t);
      if t + 1 < |ys| { assert MateAt(f, g, i, ys, t + 1) && EntryAt(b, start, ys, t + 1); }
    }
  }

  lemma RowSize(f: seq<int>, g: seq<int>, i: nat, cl: seq<Cand>, lev: seq<nat>, c: seq<int>)
    requires i <= |f| && AfterRow(f, g, i, cl, lev, c)
    ensures |c| == L(f, g, i, |g|) + 1 && CandsOk(f, g, cl, lev) && |lev| == |cl|
    ensures 0 <= c[|c| - 1] < |cl| && lev[c[|c| - 1]] == |c| - 1
  {
    hide L;
  }

  lemma FirstRow(f: seq<int>, g: seq<int>, c: seq<int>)
    requires c == [0]
    ensures AfterRow(f, g, 0, [Cand(0, 0, 0)], [0], c)
  {
    assert CandOk(f, g, [Cand(0, 0, 0)], [0], 0);
    assert L(f, g, 0, |g|) == 0;
    if 0 < |f| {
      forall y: nat | y <= |g| ensures Reaches([0], y, P(f, g, 1, 0, y)) { }
      assert Ys([Cand(0, 0, 0)], c) == [0];
    }
  }

  /** A line without mates leaves klist alone. */
  lemma NoMates(f: seq<int>, g: seq<int>, i: nat, cl: seq<Cand>, lev: seq<nat>, c: seq<int>)
    requires 0 < i <= |f| && AfterRow(f, g, i - 1, cl, lev, c) && forall y :: !Match(f, g, i, y)
    ensures AfterRow(f, g, i, cl, lev, c)
  {
    RowGap(f, g, i, 0, |g|, Ys(cl, c));
    RowEnd(f, g, i, cl, lev, c);
  }

  /** The row after a match that made klist longer: no later match of this line matters. */
  lemma Extended(f: seq<int>, g: seq<int>, i: nat, Y: nat, cl: seq<Cand>, lev: seq<nat>,
                 c0: seq<int>, c: seq<int>, oldl: nat, oldc: int, y: nat, pred: int, l: nat)
    requires 0 < i <= |f| && Y < y <= |g| && RowInv(f, g, i, Y, cl, lev, c0, c, oldl, oldc)
    requires NoMatch(f, g, i, Y, y - 1) && Match(f, g, i, y)
    requires l == L(f, g, i - 1, y - 1) + 1 && L(f, g, i, y - 1) == l - 1 && L(f, g, i - 1, y) == l - 1
    requires l == |c| && pred == c0[l - 1] && cl[pred].y < y
    ensures var cl', lev', c' := cl + [Cand(i, y, pred)], lev + [l], c + [|cl|];
      CandsOk(f, g, cl', lev') && KlistOk(cl', lev', c', i) && RowAt(f, g, i, |g|, Ys(cl', c'))
  {
    RowPut(f, g, i, Y, Ys(cl, c), y, l);
    KlistPut(f, g, cl, lev, c, i, y, pred, l);
    RowLength(f, g, i, 0, Ys(cl, c0));
    AtMatch(f, g, i, y);
    RowFull(f, g, i, y, Put(Ys(cl, c), l, y));
  }
}
