/** Comparison functions, sorted sequences and rearrangements. */
module SortOrder {
  /** compare as its sign is used: a total preorder, negative when x comes before y. */
  ghost predicate Preorder<T(!new)>(compare: (T, T) -> int) {
    && (forall x, y :: compare(x, y) > 0 <==> compare(y, x) < 0)
    && forall x, y, z :: compare(x, y) <= 0 && compare(y, z) <= 0 ==> compare(x, z) <= 0
  }

  lemma Flip<T(!new)>(compare: (T, T) -> int, x: T, y: T)
    requires Preorder(compare)
    ensures compare(x, y) > 0 <==> compare(y, x) < 0
    ensures compare(x, y) == 0 <==> compare(y, x) == 0
    ensures compare(x, y) < 0 <==> compare(y, x) > 0
  {
  }

  lemma Trans<T(!new)>(compare: (T, T) -> int, x: T, y: T, z: T)
    requires Preorder(compare) && compare(x, y) <= 0 && compare(y, z) <= 0
    ensures compare(x, z) <= 0
    ensures compare(x, y) < 0 || compare(y, z) < 0 ==> compare(x, z) < 0
  {
    Flip(compare, x, y);
    Flip(compare, y, z);
    Flip(compare, x, z);
  }

  /** Elements that compare equal compare alike with any other. */
  lemma Alike<T(!new)>(compare: (T, T) -> int, e: T, p: T, x: T)
    requires Preorder(compare) && compare(p, x) == 0
    ensures compare(e, p) < 0 <==> compare(e, x) < 0
    ensures compare(e, p) == 0 <==> compare(e, x) == 0
    ensures compare(p, e) > 0 <==> compare(e, x) < 0
    ensures compare(p, e) == 0 <==> compare(e, x) == 0
  {
    Flip(compare, p, x);
    Flip(compare, e, p);
    Flip(compare, e, x);
    if compare(e, p) <= 0 {
      Trans(compare, e, p, x);
    }
    if compare(e, x) <= 0 {
      Trans(compare, e, x, p);
    }
  }

  ghost predicate Sorted<T>(compare: (T, T) -> int, s: seq<T>, lo: int, hi: int)
    requires 0 <= lo <= hi <= |s|
  {
    forall p, q :: lo <= p < q < hi ==> compare(s[p], s[q]) <= 0
  }

  /** t is s with the part from lo to hi rearranged. */
  ghost predicate Perm<T>(s: seq<T>, t: seq<T>, lo: int, hi: int) {
    && |s| == |t| && 0 <= lo <= hi <= |s|
    && multiset(s[lo..hi]) == multiset(t[lo..hi])
    && (forall k :: 0 <= k < lo ==> t[k] == s[k])
    && forall k :: hi <= k < |s| ==> t[k] == s[k]
  }

  function Swapped<T>(s: seq<T>, i: int, j: int): seq<T>
    requires 0 <= i < |s| && 0 <= j < |s|
  {
    s[i := s[j]][j := s[i]]
  }

  lemma SwapPerm<T>(s: seq<T>, i: int, j: int, lo: int, hi: int)
    requires 0 <= lo <= i < hi <= |s| && lo <= j < hi
    ensures Perm(s, Swapped(s, i, j), lo, hi)
  {
    var u, t := s[lo..hi], Swapped(s, i, j);
    assert t[lo..hi] == u[i - lo := s[j]][j - lo := s[i]];
    assert multiset(u[i - lo := s[j]][j - lo := s[i]]) == multiset(u);
  }

  lemma PermTrans<T>(s: seq<T>, t: seq<T>, u: seq<T>, lo: int, hi: int)
    requires Perm(s, t, lo, hi) && Perm(t, u, lo, hi)
    ensures Perm(s, u, lo, hi)
  {
  }

  /** Rearranging a part is rearranging the whole. */
  lemma PermWider<T>(s: seq<T>, t: seq<T>, lo: int, hi: int, lo': int, hi': int)
    requires Perm(s, t, lo, hi) && 0 <= lo' <= lo && hi <= hi' <= |s|
    ensures Perm(s, t, lo', hi')
  {
    assert s[lo'..hi'] == s[lo'..lo] + s[lo..hi] + s[hi..hi'];
    assert t[lo'..hi'] == t[lo'..lo] + t[lo..hi] + t[hi..hi'];
    assert s[lo'..lo] == t[lo'..lo] && s[hi..hi'] == t[hi..hi'];
  }

  /** Where an element of a rearranged part was before. */
  lemma PermFrom<T>(s: seq<T>, t: seq<T>, lo: int, hi: int, k: int) returns (m: int)
    requires Perm(s, t, lo, hi) && lo <= k < hi
    ensures lo <= m < hi && s[m] == t[k]
  {
    assert t[lo..hi][k - lo] == t[k];
    assert t[k] in multiset(s[lo..hi]);
    var n :| 0 <= n < hi - lo && s[lo..hi][n] == t[k];
    m := lo + n;
  }
}
