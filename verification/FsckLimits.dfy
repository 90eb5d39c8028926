/** How much phase 1 can take in: the limits on bad blocks and duplicates, told by the claims alone. */
module FsckLimits {
  import opened FsckVolume
  import opened FsckDups

  const MAXDUP := 10
  const MAXBAD := 10

  /** How many of these blocks are out of range. */
  ghost function BadCount(vol: Volume, s: seq<int>): nat {
    if s == [] then 0 else BadCount(vol, s[..|s| - 1]) + if vol.InRange(s[|s| - 1]) then 0 else 1
  }

  /** How many of these blocks had a claim already, from base or earlier in s. */
  ghost function DupCount(vol: Volume, base: multiset<int>, s: seq<int>): nat {
    if s == [] then 0
    else DupCount(vol, base, s[..|s| - 1]) + if Again(vol, base, s[..|s| - 1], s[|s| - 1]) then 1 else 0
  }

  ghost predicate Again(vol: Volume, base: multiset<int>, seen: seq<int>, b: int) {
    vol.InRange(b) && b in base + Keep(vol, seen)
  }

  ghost function Support(c: multiset<int>): set<int> {
    set b | b in c
  }

  /** The claims beyond the first one of each block. */
  ghost function Extra(c: multiset<int>): int {
    |c| - |Support(c)|
  }

  /** Block b, after seen, is one too many: a tenth bad block, a tenth duplicate, or one more than the table holds. */
  ghost predicate Limited(vol: Volume, base: multiset<int>, seen: seq<int>, b: int) {
    if !vol.InRange(b) then BadCount(vol, seen) + 1 >= MAXBAD
    else
      && Again(vol, base, seen, b)
      && (DupCount(vol, base, seen) + 1 >= MAXDUP || Extra(base + Keep(vol, seen)) >= DUPTBLSIZE)
  }

  ghost predicate LimitedAt(vol: Volume, base: multiset<int>, visit: seq<int>, p: int)
    requires 0 <= p < |visit|
  {
    Limited(vol, base, visit[..p], visit[p])
  }

  /** The first n blocks of the visit are within the limits. */
  ghost predicate Within(vol: Volume, base: multiset<int>, visit: seq<int>, n: int) {
    n <= |visit| && forall p :: 0 <= p < n ==> !LimitedAt(vol, base, visit, p)
  }

  /** The visit of inode i goes beyond a limit. */
  ghost predicate Excess(vol: Volume, inodes: seq<Inode>, i: int)
    requires Table(inodes) && 1 <= i < |inodes|
  {
    Counted(inodes[i]) && !Within(vol, Total(vol, inodes, i - 1), Visit(vol, inodes[i]), |Visit(vol, inodes[i])|)
  }

  /** One of inodes 1..n is too much for phase 1. */
  ghost predicate TooMuch(vol: Volume, inodes: seq<Inode>, n: int)
    requires Table(inodes) && n < |inodes|
  {
    exists i :: 1 <= i <= n && Excess(vol, inodes, i)
  }

  /** The table holds just the claims beyond the first ones. */
  lemma ExtraEntries(vol: Volume, blkmap: seq<bool>, dup: seq<int>, end: int, c: multiset<int>)
    requires Accounts(vol, blkmap, dup, end, c)
    ensures Extra(c) == end
  {
    hide Marked;
    var m := Marked(vol, blkmap);
    forall b ensures b in Support(c) <==> b in m {
      Counts(vol, blkmap, dup, end, c, b);
    }
    assert Support(c) == m;
    assert |c| == |multiset(m)| + |multiset(dup[..end])|;
  }

  lemma CountsNone(vol: Volume, base: multiset<int>)
    ensures BadCount(vol, []) == 0 && DupCount(vol, base, []) == 0
  {
  }

  lemma CountsMore(vol: Volume, base: multiset<int>, s: seq<int>, b: int)
    ensures BadCount(vol, s + [b]) == BadCount(vol, s) + if vol.InRange(b) then 0 else 1
    ensures DupCount(vol, base, s + [b]) == DupCount(vol, base, s) + if Again(vol, base, s, b) then 1 else 0
  {
    assert (s + [b])[..|s|] == s;
  }

  /** One more block within the limits. */
  lemma WithinMore(vol: Volume, base: multiset<int>, visit: seq<int>, seen: seq<int>, b: int)
    requires seen + [b] <= visit && Within(vol, base, visit, |seen|)
    ensures if Limited(vol, base, seen, b) then !Within(vol, base, visit, |visit|)
            else Within(vol, base, visit, |seen| + 1)
  {
    var n := |seen|;
    assert visit[..n + 1] == seen + [b];
    assert visit[..n] == (seen + [b])[..n] == seen;
    assert visit[n] == (seen + [b])[n] == b;
    assert LimitedAt(vol, base, visit, n) <==> Limited(vol, base, seen, b);
  }

  // ----- Files -----

  /** How many of inodes 1..n are counted. */
  ghost function Files(inodes: seq<Inode>, n: nat): nat
    requires n < |inodes|
  {
    if n == 0 then 0 else Files(inodes, n - 1) + if Counted(inodes[n]) then 1 else 0
  }

  lemma {:induction false} FilesZap(inodes: seq<Inode>, n: nat, i: nat)
    requires n < |inodes| && 1 <= i < |inodes| && Counted(inodes[i])
    ensures Files(inodes[i := Zapped()], n) == Files(inodes, n) - if i <= n then 1 else 0
  {
    if n > 0 {
      FilesZap(inodes, n - 1, i);
    }
  }
}
