/** The lines of a file as diff sorts them, and the shellsort that does it. */
module DiffSort {
  /** A line: its place in the file, and the hash of its text (later, an index). */
  datatype Rec = Rec(serial: int, value: int)

  predicate Less(a: Rec, b: Rec) {
    a.value < b.value || (a.value == b.value && a.serial < b.serial)
  }

  ghost predicate Ordered(s: seq<Rec>) {
    forall i, j :: 0 <= i < j < |s| ==> !Less(s[j], s[i])
  }

  /** t is s with places 1..n rearranged. */
  ghost predicate Rearranged(s: seq<Rec>, t: seq<Rec>, n: nat) {
    n < |s| == |t| && multiset(s) == multiset(t) && s[0] == t[0] && s[n + 1..] == t[n + 1..]
  }

  function Swap(s: seq<Rec>, i: nat, j: nat): seq<Rec>
    requires i < j < |s|
  {
    s[i := s[j]][j := s[i]]
  }

  lemma SwapKeeps(r: seq<Rec>, s: seq<Rec>, i: nat, j: nat, n: nat)
    requires Rearranged(r, s, n) && 1 <= i < j <= n
    ensures Rearranged(r, Swap(s, i, j), n)
  {
    assert s == s[..i] + [s[i]] + s[i + 1..j] + [s[j]] + s[j + 1..];
    assert Swap(s, i, j) == s[..i] + [s[j]] + s[i + 1..j] + [s[i]] + s[j + 1..];
  }

  lemma MiddleKept(s: seq<Rec>, t: seq<Rec>, n: nat)
    requires Rearranged(s, t, n)
    ensures multiset(s[1..n + 1]) == multiset(t[1..n + 1])
  {
    assert s == [s[0]] + s[1..n + 1] + s[n + 1..];
    assert t == [t[0]] + t[1..n + 1] + t[n + 1..];
    assert multiset(s) == multiset([s[0]]) + multiset(s[1..n + 1]) + multiset(s[n + 1..]);
    assert multiset(t) == multiset([t[0]]) + multiset(t[1..n + 1]) + multiset(t[n + 1..]);
    MultisetCancel(multiset([s[0]]), multiset(s[1..n + 1]), multiset(t[1..n + 1]), multiset(s[n + 1..]));
  }

  lemma MultisetCancel(a: multiset<Rec>, x: multiset<Rec>, y: multiset<Rec>, b: multiset<Rec>)
    requires a + x + b == a + y + b
    ensures x == y
  {
    forall r | true ensures x[r] == y[r] {
      assert (a + x + b)[r] == (a + y + b)[r];
    }
  }

  /** a[1..n] in order but for the pairs that end in place h. */
  ghost predicate OrderedBut(a: seq<Rec>, n: int, h: int)
    requires n < |a|
  {
    forall i, j :: 1 <= i < j <= n && j != h ==> !Less(a[j], a[i])
  }

  lemma SwapSinks(s: seq<Rec>, n: nat, h: nat)
    requires 2 <= h <= n < |s| && OrderedBut(s, n, h) && !Less(s[h - 1], s[h])
    ensures OrderedBut(Swap(s, h - 1, h), n, h - 1)
  {
  }

  lemma InPlace(s: seq<Rec>, n: nat, h: nat)
    requires 1 <= h <= n < |s| && OrderedBut(s, n, h) && (h > 1 ==> Less(s[h - 1], s[h]))
    ensures OrderedBut(s, n, 0)
  {
    forall i, j | 1 <= i < j <= n ensures !Less(s[j], s[i]) {
      if j == h && i < h - 1 { assert !Less(s[h - 1], s[i]); }
    }
  }

  /** Sink a[j + m] through a[j], a[j - m], ... to its place. */
  method Sink(a: array<Rec>, n: nat, m: nat, j: nat, ghost r: seq<Rec>)
    requires 1 <= m && 1 <= j && j + m <= n < a.Length && Rearranged(r, a[..], n)
    modifies a
    ensures Rearranged(r, a[..], n)
    ensures m == 1 && old(OrderedBut(a[..], j, 0)) ==> OrderedBut(a[..], j + 1, 0)
  {
    ghost var first := m == 1 && OrderedBut(a[..], j, 0);
    var ai: int := j;
    while ai > 0
      invariant ai <= j && Rearranged(r, a[..], n)
      invariant first ==> ai >= 0 && OrderedBut(a[..], j + 1, ai + 1)
    {
      var aim := ai + m;
      if Less(a[ai], a[aim]) {
        if first { InPlace(a[..], j + 1, aim); }
        return;
      }
      SwapKeeps(r, a[..], ai, aim, n);
      if first { SwapSinks(a[..], j + 1, aim); }
      ghost var was := a[..];
      a[ai], a[aim] := a[aim], a[ai];
      assert a[..] == Swap(was, ai, aim);
      ai := ai - m;
    }
    if first { InPlace(a[..], j + 1, ai + 1); }
  }

  /** 2^k - 1 */
  ghost predicate AllOnes(m: nat) {
    m == 0 || (m % 2 == 1 && AllOnes(m / 2))
  }

  /** One pass with gap m; with gap 1 it is an insertion sort. */
  method Pass(a: array<Rec>, n: nat, m: nat, ghost r: seq<Rec>)
    requires 1 <= m && 1 <= n < a.Length && Rearranged(r, a[..], n)
    modifies a
    ensures Rearranged(r, a[..], n)
    ensures m == 1 ==> OrderedBut(a[..], n, 0)
  {
    var k := n - m;
    var j := 1;
    while j <= k
      invariant 1 <= j && (k >= 1 ==> j <= k + 1) && Rearranged(r, a[..], n)
      invariant m == 1 && j <= n ==> OrderedBut(a[..], j, 0)
    {
      Sink(a, n, m, j, r);
      j := j + 1;
    }
  }

  /** shellsort CACM #201, with gaps 2^i - 1 */
  method Sort(a: array<Rec>, n: nat)
    requires 0 < n < a.Length
    modifies a
    ensures Ordered(a[1..n + 1]) && Rearranged(old(a[..]), a[..], n)
  {
    ghost var r := a[..];
    var j, m: nat := 1, 0;
    while j <= n
      invariant 1 <= j && m == j - 1 && AllOnes(m)
      decreases n + 1 - j
    {
      m := 2 * j - 1;
      j := 2 * j;
    }
    m := m / 2;
    while m != 0
      invariant AllOnes(m) && Rearranged(r, a[..], n)
      invariant m == 0 ==> OrderedBut(a[..], n, 0)
      decreases m
    {
      Pass(a, n, m, r);
      m := m / 2;
    }
    InOrder(a[..], n);
  }

  lemma InOrder(s: seq<Rec>, n: nat)
    requires n < |s| && OrderedBut(s, n, 0)
    ensures Ordered(s[1..n + 1])
  {
    var t := s[1..n + 1];
    forall i, j | 0 <= i < j < |t| ensures !Less(t[j], t[i]) {
      assert !Less(s[j + 1], s[i + 1]);
    }
  }
}
