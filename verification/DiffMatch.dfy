/** From two hashed files to the match vector J: prune, sort, equiv, unsort, stone and unravel together. */
module DiffMatch {
  import opened DiffLcs
  import opened DiffSort
  import opened DiffStone
  import opened DiffClasses

  /** J holds exactly these pairs, and 0 for every other line of the first file. */
  ghost predicate Records(J: seq<int>, n: int, ps: seq<Pair>) {
    && n < |J|
    && (forall t :: 0 <= t < |ps| ==> 1 <= ps[t].x <= n && J[ps[t].x] == ps[t].y > 0)
    && (forall i :: 1 <= i <= n && J[i] != 0 ==> Recorded(ps, i))
  }

  ghost predicate Recorded(ps: seq<Pair>, i: int) {
    exists t :: 0 <= t < |ps| && ps[t].x == i
  }

  /** J is a longest matching of a with b. */
  ghost predicate Longest(a: seq<int>, b: seq<int>, J: seq<int>) {
    exists ps :: Common(a, b, ps) && |ps| == Lcs(a, b) && Records(J, |a|, ps)
  }

  /** No matching of a with b has more pairs. */
  lemma LongestIsLongest(a: seq<int>, b: seq<int>, ps: seq<Pair>)
    requires Common(a, b, ps)
    ensures |ps| <= Lcs(a, b)
  {
    UpperBound(a, b, ps, |a|, |b|);
  }

  // ----- prune -----

  method Prune(a: seq<int>, b: seq<int>) returns (pref: nat, suff: nat)
    ensures pref + suff <= |a| && pref + suff <= |b|
    ensures a[..pref] == b[..pref] && a[|a| - suff..] == b[|b| - suff..]
  {
    pref := 0;
    while pref < |a| && pref < |b| && a[pref] == b[pref]
      invariant pref <= |a| && pref <= |b| && a[..pref] == b[..pref]
    {
      pref := pref + 1;
    }
    suff := 0;
    while suff < |a| - pref && suff < |b| - pref && a[|a| - suff - 1] == b[|b| - suff - 1]
      invariant suff <= |a| - pref && suff <= |b| - pref
      invariant a[|a| - suff..] == b[|b| - suff..]
    {
      assert a[|a| - suff - 1..] == [a[|a| - suff - 1]] + a[|a| - suff..];
      assert b[|b| - suff - 1..] == [b[|b| - suff - 1]] + b[|b| - suff..];
      suff := suff + 1;
    }
  }

  // ----- unravel -----

  /** The matching of the middles, within the whole files. */
  function Whole(ps: seq<Pair>, n0: int, n1: int, pref: nat, suff: nat): (r: seq<Pair>)
    ensures |r| == pref + |ps| + suff
  {
    seq(pref + |ps| + suff, t requires 0 <= t < pref + |ps| + suff =>
      if t < pref then Pair(t + 1, t + 1)
      else if t < pref + |ps| then Pair(ps[t - pref].x + pref, ps[t - pref].y + pref)
      else Pair(n0 - suff + (t - pref - |ps|) + 1, n1 - suff + (t - pref - |ps|) + 1))
  }

  lemma WholeCommon(a: seq<int>, b: seq<int>, pref: nat, suff: nat, ps: seq<Pair>)
    requires pref + suff <= |a| && pref + suff <= |b|
    requires a[..pref] == b[..pref] && a[|a| - suff..] == b[|b| - suff..]
    requires Common(a[pref..|a| - suff], b[pref..|b| - suff], ps)
    ensures Common(a, b, Whole(ps, |a|, |b|, pref, suff))
  {
    var r := Whole(ps, |a|, |b|, pref, suff);
    var f, g := a[pref..|a| - suff], b[pref..|b| - suff];
    assert forall k :: 0 <= k < |ps| ==> Match(f, g, ps[k].x, ps[k].y);
    forall k | 0 <= k < |r| ensures Match(a, b, r[k].x, r[k].y) {
      if k < pref {
        assert a[k] == a[..pref][k] == b[..pref][k] == b[k];
      } else if k < pref + |ps| {
        var p := ps[k - pref];
        assert Match(f, g, p.x, p.y);
        assert f[p.x - 1] == a[p.x + pref - 1] && g[p.y - 1] == b[p.y + pref - 1];
      } else {
        var h := k - pref - |ps|;
        assert a[|a| - suff + h] == a[|a| - suff..][h] == b[|b| - suff..][h] == b[|b| - suff + h];
      }
    }
    forall k, l | 0 <= k < l < |r| ensures r[k].x < r[l].x && r[k].y < r[l].y {
      WholeUp(f, g, ps, |a|, |b|, pref, suff, k, l);
    }
  }

  lemma WholeUp(f: seq<int>, g: seq<int>, ps: seq<Pair>, n0: nat, n1: nat, pref: nat, suff: nat, k: nat, l: nat)
    requires pref + suff <= n0 && pref + suff <= n1 && |f| == n0 - pref - suff && |g| == n1 - pref - suff
    requires Common(f, g, ps) && k < l < pref + |ps| + suff
    ensures var r := Whole(ps, n0, n1, pref, suff); r[k].x < r[l].x && r[k].y < r[l].y
  {
    if pref <= k < pref + |ps| { assert Match(f, g, ps[k - pref].x, ps[k - pref].y); }
    if pref <= l < pref + |ps| { assert Match(f, g, ps[l - pref].x, ps[l - pref].y); }
  }

  lemma WholeLongest(a: seq<int>, b: seq<int>, pref: nat, suff: nat)
    requires pref + suff <= |a| && pref + suff <= |b|
    requires a[..pref] == b[..pref] && a[|a| - suff..] == b[|b| - suff..]
    ensures Lcs(a, b) == pref + Lcs(a[pref..|a| - suff], b[pref..|b| - suff]) + suff
  {
    var p, f, g, s := a[..pref], a[pref..|a| - suff], b[pref..|b| - suff], a[|a| - suff..];
    assert a == p + f + s && b == p + g + s;
    Pruned(p, f, g, s);
  }

  /** J with the pruned lines only. */
  method Blank(J: array<int>, len0: nat, len1: nat, pref: nat, suff: nat)
    requires pref + suff <= len0 < J.Length
    modifies J
    ensures PartDone(J[..], [], len0, len1, pref, suff)
  {
    var i := 0;
    while i <= len0
      invariant 0 <= i <= len0 + 1
      invariant forall h :: 0 <= h < i ==>
        J[h] == if h <= pref then h else if h > len0 - suff then h + len1 - len0 else 0
    {
      J[i] := if i <= pref then i else if i > len0 - suff then i + len1 - len0 else 0;
      i := i + 1;
    }
  }

  /** Lay the chain of candidate p out in J, with the pruned prefix and suffix. */
  method Unravel(clist: seq<Cand>, p: int, J: array<int>, len0: nat, len1: nat, pref: nat, suff: nat,
                 ghost lev: seq<nat>, ghost f: seq<int>, ghost g: seq<int>)
    returns (ghost ps: seq<Pair>)
    requires pref + suff <= len0 < J.Length && |f| == len0 - pref - suff && |g| == len1 - pref - suff
    requires CandsOk(f, g, clist, lev) && 0 <= p < |clist|
    modifies J
    ensures Common(f, g, ps) && |ps| == lev[p]
    ensures Records(J[..], len0, Whole(ps, len0, len1, pref, suff))
  {
    hide Whole, Records, PartDone, Recorded;
    Blank(J, len0, len1, pref, suff);
    ps := [];
    var q := p;
    assert CandOk(f, g, clist, lev, p);
    while clist[q].y != 0
      invariant 0 <= q < |clist| && CandOk(f, g, clist, lev, q) && lev[q] + |ps| == lev[p]
      invariant Common(f, g, ps) && (ps != [] ==> clist[q].x < ps[0].x && clist[q].y < ps[0].y)
      invariant PartDone(J[..], ps, len0, len1, pref, suff)
      decreases q
    {
      var c := clist[q];
      ghost var was, J0 := ps, J[..];
      J[c.x + pref] := c.y + pref;
      ps := [Pair(c.x, c.y)] + ps;
      OneMore(J0, was, f, g, c.x, c.y, len0, len1, pref, suff);
      assert J[..] == J0[c.x + pref := c.y + pref];
      q := c.pred;
      assert CandOk(f, g, clist, lev, q);
    }
    WholeRecorded(J[..], ps, f, g, len0, len1, pref, suff);
  }

  /** J with the prefix, the suffix, and those pairs of the middle that are in ps. */
  ghost predicate PartDone(J: seq<int>, ps: seq<Pair>, len0: nat, len1: nat, pref: nat, suff: nat) {
    && pref + suff <= len0 < |J|
    && (forall h :: 0 <= h <= pref ==> J[h] == h)
    && (forall h :: len0 - suff < h <= len0 ==> J[h] == h + len1 - len0)
    && (forall h :: pref < h <= len0 - suff && J[h] != 0 ==> Recorded(ps, h - pref))
    && (forall t :: 0 <= t < |ps| ==> 1 <= ps[t].x <= len0 - suff - pref && J[ps[t].x + pref] == ps[t].y + pref)
  }

  lemma CommonCons(f: seq<int>, g: seq<int>, ps: seq<Pair>, p: Pair)
    requires Common(f, g, ps) && Match(f, g, p.x, p.y) && (ps != [] ==> p.x < ps[0].x && p.y < ps[0].y)
    ensures Common(f, g, [p] + ps)
    ensures forall t :: 0 <= t < |ps| ==> p.x < ps[t].x
  {
    var qs := [p] + ps;
    forall k, l | 0 <= k < l < |qs| ensures qs[k].x < qs[l].x && qs[k].y < qs[l].y {
      if k == 0 && l > 1 { assert ps[0].x < ps[l - 1].x; }
    }
  }

  lemma RecordedCons(ps: seq<Pair>, p: Pair, i: int)
    requires Recorded(ps, i) || i == p.x
    ensures Recorded([p] + ps, i)
  {
    if i == p.x {
      assert ([p] + ps)[0].x == i;
    } else {
      var t :| 0 <= t < |ps| && ps[t].x == i;
      assert ([p] + ps)[t + 1].x == i;
    }
  }

  lemma OneMore(J: seq<int>, ps: seq<Pair>, f: seq<int>, g: seq<int>, x: int, y: int, len0: nat, len1: nat, pref: nat,
                suff: nat)
    requires PartDone(J, ps, len0, len1, pref, suff) && |f| == len0 - pref - suff
    requires Common(f, g, ps) && Match(f, g, x, y) && (ps != [] ==> x < ps[0].x && y < ps[0].y)
    ensures Common(f, g, [Pair(x, y)] + ps)
    ensures PartDone(J[x + pref := y + pref], [Pair(x, y)] + ps, len0, len1, pref, suff)
  {
    CommonCons(f, g, ps, Pair(x, y));
    var qs, K := [Pair(x, y)] + ps, J[x + pref := y + pref];
    forall h | pref < h <= len0 - suff && K[h] != 0 ensures Recorded(qs, h - pref) {
      RecordedCons(ps, Pair(x, y), h - pref);
    }
  }

  lemma WholeRecorded(J: seq<int>, ps: seq<Pair>, f: seq<int>, g: seq<int>, len0: nat, len1: nat, pref: nat, suff: nat)
    requires pref + suff <= len0 < |J| && |f| == len0 - pref - suff && |g| == len1 - pref - suff
    requires Common(f, g, ps) && PartDone(J, ps, len0, len1, pref, suff)
    ensures Records(J, len0, Whole(ps, len0, len1, pref, suff))
  {
    var r := Whole(ps, len0, len1, pref, suff);
    forall t | 0 <= t < |r| ensures 1 <= r[t].x <= len0 && J[r[t].x] == r[t].y > 0 {
      if pref <= t < pref + |ps| { assert Match(f, g, ps[t - pref].x, ps[t - pref].y); }
    }
    forall i | 1 <= i <= len0 && J[i] != 0 ensures Recorded(r, i) {
      PartRecorded(J, ps, len0, len1, pref, suff, i);
    }
  }

  lemma PartRecorded(J: seq<int>, ps: seq<Pair>, len0: nat, len1: nat, pref: nat, suff: nat, i: nat)
    requires PartDone(J, ps, len0, len1, pref, suff) && 1 <= i <= len0 && J[i] != 0
    ensures Recorded(Whole(ps, len0, len1, pref, suff), i)
  {
    var r := Whole(ps, len0, len1, pref, suff);
    if i <= pref {
      assert r[i - 1].x == i;
    } else if i > len0 - suff {
      assert r[pref + |ps| + (i - (len0 - suff) - 1)].x == i;
    } else {
      assert Recorded(ps, i - pref);
      var t :| 0 <= t < |ps| && ps[t].x == i - pref;
      assert r[pref + t].x == i;
    }
  }

  // ----- The whole of it -----

  /** The lines of a pruned file, sorted by hash. */
  method SortedRecs(f: seq<int>) returns (s: array<Rec>)
    ensures fresh(s) && s.Length == |f| + 2 && Filed(f, s[1..|f| + 1])
  {
    s := new Rec[|f| + 2](i => Rec(i, if 1 <= i <= |f| then f[i - 1] else 0));
    assert s[1..|f| + 1] == Recs(f);
    ghost var r := s[..];
    if |f| > 0 {
      Sort(s, |f|);
      MiddleKept(r, s[..], |f|);
      assert r[1..|f| + 1] == Recs(f);
    }
    SortedFile(f, s[1..|f| + 1]);
  }

  /** For each line of f, where its mates are listed; and the lists. */
  method Classes(f: seq<int>, g: seq<int>) returns (class_: array<int>, member: array<int>)
    requires forall i :: 0 <= i < |g| ==> g[i] != 0
    ensures fresh(class_) && fresh(member) && class_.Length == |f| + 2
    ensures AllListed(f, g, class_[..], member[..])
  {
    var s0 := SortedRecs(f);
    var s1 := SortedRecs(g);
    ghost var as0, bs := s0[1..|f| + 1], s1[1..|g| + 1];
    FiledOrdered(f, as0);
    FiledOrdered(g, bs);
    assert forall j :: 1 <= j <= |g| ==> s1[j] == bs[j - 1];
    assert forall i :: 1 <= i <= |f| ==> s0[i] == as0[i - 1];
    member := new int[|g| + 2];
    Equiv(s0, |f|, s1, |g|, member);
    class_ := new int[|f| + 2];
    SerialsDiffer(f, as0);
    Unsort(s0, |f|, class_);
    forall x | 1 <= x <= |f| ensures class_[x] >= 0 && MatesOf(f, g, x, class_[x], member[..]) {
      assert Has(f, as0, x);
      var h :| 0 <= h < |as0| && as0[h] == Rec(x, f[x - 1]);
      assert s0[h + 1].serial == x;
      ClassMates(f, g, x, bs, member[..], class_[x]);
    }
  }

  lemma FiledOrdered(f: seq<int>, s: seq<Rec>)
    requires Filed(f, s)
    ensures Ordered(s)
    ensures forall i :: 0 <= i < |s| ==> s[i].value in f
  {
    forall i, j | 0 <= i < j < |s| ensures !Less(s[j], s[i]) {
      assert Less(s[i], s[j]);
    }
  }

  lemma SerialsDiffer(f: seq<int>, s: seq<Rec>)
    requires Filed(f, s)
    ensures forall i, j :: 0 <= i < j < |s| ==> s[i].serial != s[j].serial
  {
    forall i, j | 0 <= i < j < |s| ensures s[i].serial != s[j].serial {
      assert Less(s[i], s[j]);
    }
  }

  /** diffreg up to check: J is a longest matching of the two files' hashes. */
  method MatchVector(a: seq<int>, b: seq<int>) returns (J: array<int>)
    requires forall i :: 0 <= i < |b| ==> b[i] != 0
    ensures fresh(J) && J.Length == |a| + 2 && Longest(a, b, J[..])
  {
    var pref, suff := Prune(a, b);
    var f, g := a[pref..|a| - suff], b[pref..|b| - suff];
    var class_, member := Classes(f, g);
    var klist := new int[|f| + 2];
    var stone := new Stone();
    var k := stone.Run(class_, |f|, member, klist, f, g);
    J := new int[|a| + 2];
    ghost var ps := Unravel(stone.clist, klist[k], J, |a|, |b|, pref, suff, stone.lev, f, g);
    WholeCommon(a, b, pref, suff, ps);
    WholeLongest(a, b, pref, suff);
  }
}
