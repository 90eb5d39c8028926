/** prune, equiv and unsort: from two files of hashed lines to the lists of mates that stone reads. */
module DiffClasses {
  import opened DiffLcs
  import opened DiffSort
  import opened DiffStone

  /** A file as sort finds it: line i has serial i. */
  function Recs(f: seq<int>): (r: seq<Rec>)
    ensures |r| == |f|
  {
    seq(|f|, i requires 0 <= i < |f| => Rec(i + 1, f[i]))
  }

  /** s holds exactly the lines of f, in strict order. */
  ghost predicate Filed(f: seq<int>, s: seq<Rec>) {
    && |s| == |f|
    && (forall i :: 0 <= i < |s| ==> 1 <= s[i].serial <= |f| && s[i].value == f[s[i].serial - 1])
    && (forall x :: 1 <= x <= |f| ==> Has(f, s, x))
    && (forall i, j :: 0 <= i < j < |s| ==> Less(s[i], s[j]))
  }

  predicate Has(f: seq<int>, s: seq<Rec>, x: int)
    requires 1 <= x <= |f|
  {
    Rec(x, f[x - 1]) in s
  }

  lemma {:induction false} NoDuplicates(s: seq<Rec>, x: Rec)
    requires forall i, j :: 0 <= i < j < |s| ==> s[i] != s[j]
    ensures multiset(s)[x] <= 1
  {
    if s != [] {
      assert s == [s[0]] + s[1..];
      NoDuplicates(s[1..], x);
      assert s[0] == x ==> x !in s[1..];
    }
  }

  lemma Twice(s: seq<Rec>, i: nat, j: nat)
    requires i < j < |s| && s[i] == s[j]
    ensures multiset(s)[s[i]] >= 2
  {
    assert s == s[..i] + [s[i]] + s[i + 1..j] + [s[j]] + s[j + 1..];
  }

  lemma SortedFile(f: seq<int>, s: seq<Rec>)
    requires Ordered(s) && multiset(s) == multiset(Recs(f))
    ensures Filed(f, s)
  {
    var r := Recs(f);
    assert |multiset(s)| == |s| && |multiset(r)| == |r|;
    forall i | 0 <= i < |s| ensures 1 <= s[i].serial <= |f| && s[i].value == f[s[i].serial - 1] {
      assert s[i] in multiset(s) && s[i] in multiset(r);
    }
    forall x | 1 <= x <= |f| ensures Has(f, s, x) {
      assert r[x - 1] in multiset(r) && r[x - 1] in multiset(s);
    }
    forall i, j | 0 <= i < j < |s| ensures Less(s[i], s[j]) {
      NoDuplicates(r, s[i]);
      if s[i] == s[j] { Twice(s, i, j); }
      assert !Less(s[j], s[i]);
    }
  }

  // ----- equiv -----

  /** The place of the first line of b with this hash, counted from 1; 0 if there is none. */
  ghost predicate ClassOf(b: seq<Rec>, v: int, j: int) {
    if j == 0 then forall h :: 0 <= h < |b| ==> b[h].value != v
    else 1 <= j <= |b| && b[j - 1].value == v && forall h :: 0 <= h < j - 1 ==> b[h].value != v
  }

  predicate FirstOfClass(b: seq<Rec>, j: int)
    requires 0 <= j < |b|
  {
    j == 0 || b[j - 1].value != b[j].value
  }

  /** The classes of b one after the other, the first member of each negated. */
  ghost predicate Members(b: seq<Rec>, c: seq<int>) {
    && |b| + 1 < |c|
    && (forall j :: 0 <= j < |b| ==> MemberOk(b, c, j))
    && c[|b| + 1] == -1
  }

  ghost predicate MemberOk(b: seq<Rec>, c: seq<int>, j: int)
    requires 0 <= j < |b| && j + 1 < |c|
  {
    c[j + 1] == if FirstOfClass(b, j) then -b[j].serial else b[j].serial
  }

  /** Replace each hash in a by the place of its class in b, and put b's classes in c. */
  method Equiv(a: array<Rec>, n: nat, b: array<Rec>, m: nat, c: array<int>)
    requires c as object != a && c as object != b
    requires n < a.Length && m + 1 < b.Length && m + 1 < c.Length && a != b
    requires Ordered(a[1..n + 1]) && Ordered(b[1..m + 1])
    requires forall j :: 1 <= j <= m ==> b[j].value != 0
    modifies a, b, c
    ensures forall i :: 1 <= i <= n ==>
      a[i].serial == old(a[i].serial) && ClassOf(old(b[1..m + 1]), old(a[i].value), a[i].value)
    ensures Members(old(b[1..m + 1]), c[..])
  {
    ghost var bs := b[1..m + 1];
    Mark(a, n, b, m);
    b[m + 1] := b[m + 1].(value := 0);
    assert b[1..m + 1] == bs;
    var j := 1;
    while j <= m
      modifies c
      invariant 1 <= j <= m + 1
      invariant j <= m ==> FirstOfClass(bs, j - 1)
      invariant forall h :: 1 <= h < j ==>
        c[h] == if FirstOfClass(bs, h - 1) then -bs[h - 1].serial else bs[h - 1].serial
      invariant b[1..m + 1] == bs && b[m + 1].value == 0
    {
      assert b[j] == bs[j - 1];
      c[j] := -b[j].serial;
      while b[j + 1].value == b[j].value
        modifies c
        invariant 1 <= j <= m && b[j] == bs[j - 1] && b[j].value != 0
        invariant forall h :: 1 <= h <= j ==>
          c[h] == if FirstOfClass(bs, h - 1) then -bs[h - 1].serial else bs[h - 1].serial
        decreases m - j
      {
        assert j < m && b[j + 1] == bs[j];
        j := j + 1;
        c[j] := b[j].serial;
      }
      if j < m { assert b[j + 1] == bs[j]; }
      j := j + 1;
    }
    c[j] := -1;
    forall h | 0 <= h < m ensures MemberOk(bs, c[..], h) {
      assert c[h + 1] == if FirstOfClass(bs, h) then -bs[h].serial else bs[h].serial;
    }
  }

  /** The merge of the two sorted files. */
  method Mark(a: array<Rec>, n: nat, b: array<Rec>, m: nat)
    requires n < a.Length && m + 1 < b.Length && a != b
    requires Ordered(a[1..n + 1]) && Ordered(b[1..m + 1])
    modifies a
    ensures forall i :: 1 <= i <= n ==>
      a[i].serial == old(a[i].serial) && ClassOf(b[1..m + 1], old(a[i].value), a[i].value)
  {
    var i, j := 1, 1;
    ghost var as0, bs := a[1..n + 1], b[1..m + 1];
    while i <= n && j <= m
      invariant 1 <= i <= n + 1 && 1 <= j <= m + 1
      invariant forall h :: i <= h <= n ==> a[h] == as0[h - 1]
      invariant forall h :: 1 <= h < i ==> a[h].serial == as0[h - 1].serial && ClassOf(bs, as0[h - 1].value, a[h].value)
      invariant i <= n ==> forall h :: 0 <= h < j - 1 ==> bs[h].value < as0[i - 1].value
      decreases n - i + m - j
    {
      assert a[i] == as0[i - 1] && b[j] == bs[j - 1];
      if i < n { assert !Less(as0[i], as0[i - 1]); }
      if a[i].value < b[j].value {
        Beyond(bs, j - 1, a[i].value);
        a[i] := a[i].(value := 0);
        i := i + 1;
      } else if a[i].value == b[j].value {
        a[i] := a[i].(value := j);
        i := i + 1;
      } else {
        j := j + 1;
      }
    }
    while i <= n
      invariant 1 <= i <= n + 1
      invariant forall h :: i <= h <= n ==> a[h] == as0[h - 1]
      invariant forall h :: 1 <= h < i ==> a[h].serial == as0[h - 1].serial && ClassOf(bs, as0[h - 1].value, a[h].value)
      invariant i <= n ==> forall h :: 0 <= h < m ==> bs[h].value < as0[i - 1].value
    {
      if i < n { assert !Less(as0[i], as0[i - 1]); }
      a[i] := a[i].(value := 0);
      i := i + 1;
    }
  }

  /** Past a greater hash there are only greater ones. */
  lemma Beyond(b: seq<Rec>, j: nat, v: int)
    requires Ordered(b) && j < |b| && v < b[j].value
    requires forall h :: 0 <= h < j ==> b[h].value < v
    ensures ClassOf(b, v, 0)
  {
    forall h | 0 <= h < |b| ensures b[h].value != v {
      if h > j { assert !Less(b[h], b[j]); }
    }
  }

  /** Put the class of each line where the line stands in its file. */
  method Unsort(f: array<Rec>, l: nat, b: array<int>)
    requires l < f.Length && l < b.Length
    requires forall i :: 1 <= i <= l ==> 1 <= f[i].serial <= l
    requires forall i, j :: 1 <= i < j <= l ==> f[i].serial != f[j].serial
    modifies b
    ensures forall i :: 1 <= i <= l ==> b[f[i].serial] == f[i].value
  {
    var a := new int[l + 1];
    var i := 1;
    while i <= l
      invariant 1 <= i <= l + 1
      invariant forall h :: 1 <= h < i ==> a[f[h].serial] == f[h].value
    {
      a[f[i].serial] := f[i].value;
      i := i + 1;
    }
    i := 1;
    while i <= l
      modifies b
      invariant 1 <= i <= l + 1
      invariant forall h :: 1 <= h < i ==> b[h] == a[h]
    {
      b[i] := a[i];
      i := i + 1;
    }
  }

  // ----- What equiv and unsort leave is what stone needs -----

  /** Places j..e-1 of the sorted file are one class, or the rest of one. */
  ghost predicate ClassRest(b: seq<Rec>, j: nat, e: nat) {
    && j < e <= |b|
    && (forall h :: j <= h < e ==> b[h].value == b[j].value)
    && (forall h :: j < h < e ==> !FirstOfClass(b, h))
    && (e < |b| ==> FirstOfClass(b, e))
  }

  lemma {:induction false} FindClass(b: seq<Rec>, j: nat) returns (e: nat)
    requires j < |b|
    ensures ClassRest(b, j, e)
    decreases |b| - j
  {
    e := j + 1;
    if j + 1 < |b| && b[j + 1].value == b[j].value {
      e := FindClass(b, j + 1);
    }
  }

  ghost function Serials(b: seq<Rec>, j: nat, e: nat): (ys: seq<int>)
    requires j <= e <= |b|
    ensures |ys| == e - j
  {
    seq(e - j, t requires 0 <= t < e - j => b[j + t].serial)
  }

  lemma MemberAt(b: seq<Rec>, c: seq<int>, h: nat)
    requires Members(b, c) && h < |b|
    ensures c[h + 1] == if FirstOfClass(b, h) then -b[h].serial else b[h].serial
  {
    assert MemberOk(b, c, h);
  }

  lemma SerialsListed(g: seq<int>, b: seq<Rec>, c: seq<int>, j: nat, e: nat, start: nat)
    requires Filed(g, b) && Members(b, c) && ClassRest(b, j, e) && FirstOfClass(b, j) && start == j + 1
    ensures Listed(c, start, Serials(b, j, e))
  {
    var ys := Serials(b, j, e);
    MemberAt(b, c, j);
    forall t | 0 < t < |ys| ensures EntryAt(c, start, ys, t) {
      MemberAt(b, c, j + t);
    }
    if e < |b| { MemberAt(b, c, e); }
  }

  /** The serials of a class go up. */
  lemma SerialsUp(g: seq<int>, b: seq<Rec>, j: nat, e: nat, ys: seq<int>)
    requires Filed(g, b) && ClassRest(b, j, e) && ys == Serials(b, j, e)
    ensures forall s, t :: 0 <= s < t < |ys| ==> 0 < ys[s] < ys[t]
    ensures forall t :: 0 <= t < |ys| ==> 0 < ys[t] <= |g| && g[ys[t] - 1] == b[j].value
  {
    forall s, t | 0 <= s < t < |ys| ensures 0 < ys[s] < ys[t] {
      assert Less(b[j + s], b[j + t]);
    }
  }

  /** Past the end of a class no line has its hash again. */
  lemma ClassEnds(g: seq<int>, b: seq<Rec>, j: nat, e: nat, h: nat)
    requires Filed(g, b) && ClassRest(b, j, e) && h < |b|
    ensures h >= e ==> b[h].value > b[j].value
  {
    if h >= e {
      assert Less(b[e - 1], b[e]);
      assert h > e ==> Less(b[e], b[h]);
    }
  }

  /** Lines of g with the hash of a class are found in it. */
  lemma InClass(g: seq<int>, b: seq<Rec>, j: nat, e: nat, ys: seq<int>, y: int)
    requires Filed(g, b) && ClassRest(b, j, e) && ys == Serials(b, j, e)
    requires 1 <= y <= |g| && g[y - 1] == b[j].value
    requires forall h :: 0 <= h < j ==> b[h].value != b[j].value
    ensures y in ys
  {
    assert Has(g, b, y);
    var h :| 0 <= h < |b| && b[h] == Rec(y, g[y - 1]);
    ClassEnds(g, b, j, e, h);
    assert ys[h - j] == y;
  }

  /** An increasing list of all the matches is the list of mates. */
  lemma MatesInOrder(f: seq<int>, g: seq<int>, i: nat, ys: seq<int>)
    requires 1 <= i <= |f|
    requires forall y :: Match(f, g, i, y) <==> y in ys
    requires forall t :: 0 <= t < |ys| ==> 0 < ys[t]
    requires forall s, t :: 0 <= s < t < |ys| ==> ys[s] < ys[t]
    ensures AllMates(f, g, i, ys)
  {
    forall t | 0 <= t < |ys| ensures MateAt(f, g, i, ys, t) {
      assert ys[t] in ys;
    }
  }

  lemma SerialsAre(f: seq<int>, g: seq<int>, i: nat, b: seq<Rec>, j: nat, e: nat)
    requires Filed(g, b) && 1 <= i <= |f| && ClassRest(b, j, e) && b[j].value == f[i - 1]
    requires forall h :: 0 <= h < j ==> b[h].value != b[j].value
    ensures AllMates(f, g, i, Serials(b, j, e))
  {
    var ys := Serials(b, j, e);
    SerialsUp(g, b, j, e, ys);
    forall y | Match(f, g, i, y) ensures y in ys {
      InClass(g, b, j, e, ys, y);
    }
    MatesInOrder(f, g, i, ys);
  }

  /** A line's class, as Equiv and Unsort leave it, lists exactly its mates. */
  lemma ClassMates(f: seq<int>, g: seq<int>, i: nat, b: seq<Rec>, c: seq<int>, j: int)
    requires Filed(g, b) && Members(b, c) && 1 <= i <= |f| && ClassOf(b, f[i - 1], j)
    ensures j >= 0 && MatesOf(f, g, i, j, c)
  {
    if j == 0 {
      forall y ensures !Match(f, g, i, y) {
        if 1 <= y <= |g| { assert Has(g, b, y); }
      }
    } else {
      var e := FindClass(b, j - 1);
      SerialsAre(f, g, i, b, j - 1, e);
      SerialsListed(g, b, c, j - 1, e, j);
    }
  }
}
