/** Inodes, the blocks they claim, and the order in which fsck visits them. */
module FsckVolume {
  const NADDR := 13
  const NDIRECT := 10

  datatype Inode = Inode(alloc: bool, known: bool, special: bool, dir: bool, addr: seq<int>)

  /** Blocks fmin..fmax are for files. A block that is not in indirect cannot be read. */
  datatype Volume = Volume(fmin: int, fmax: int, indirect: map<int, seq<int>>) {
    predicate InRange(b: int) {
      fmin <= b < fmax
    }
  }

  /** Phase 1 counts the blocks of this inode. */
  predicate Counted(ip: Inode) {
    ip.alloc && ip.known
  }

  predicate WellFormed(ip: Inode) {
    |ip.addr| == NADDR
  }

  // ----- The order of a visit -----

  /** What an entry of an address list leads to, level indirections away from data. */
  ghost function VisitEntry(vol: Volume, b: int, level: nat): seq<int>
    decreases level, 0, 1
  {
    if b == 0 then [] else if level == 0 then [b] else VisitIndirect(vol, b, level)
  }

  ghost function VisitIndirect(vol: Volume, b: int, level: nat): seq<int>
    requires level > 0
    decreases level, 0, 0
  {
    if vol.InRange(b) && b in vol.indirect
    then [b] + VisitList(vol, vol.indirect[b], |vol.indirect[b]|, level - 1)
    else [b]
  }

  /** The first k entries of a list. */
  ghost function VisitList(vol: Volume, s: seq<int>, k: nat, level: nat): seq<int>
    requires k <= |s|
    decreases level, k + 1, 0
  {
    if k == 0 then [] else VisitList(vol, s, k - 1, level) + VisitEntry(vol, s[k - 1], level)
  }

  function Level(k: nat): nat {
    if k < NDIRECT then 0 else k - NDIRECT + 1
  }

  /** The first k of an inode's addresses: ten direct ones and one for each level of indirection. */
  ghost function VisitAddr(vol: Volume, addr: seq<int>, k: nat): seq<int>
    requires k <= |addr|
  {
    if k == 0 then [] else VisitAddr(vol, addr, k - 1) + VisitEntry(vol, addr[k - 1], Level(k - 1))
  }

  ghost function Visit(vol: Volume, ip: Inode): seq<int>
    requires WellFormed(ip)
  {
    if ip.special then [] else VisitAddr(vol, ip.addr, NADDR)
  }

  // ----- Claims -----

  /** The blocks of a visit that are in range, as often as they occur. */
  ghost function Keep(vol: Volume, s: seq<int>): multiset<int> {
    if s == [] then multiset{}
    else Keep(vol, s[..|s| - 1]) + (if vol.InRange(s[|s| - 1]) then multiset{s[|s| - 1]} else multiset{})
  }

  lemma KeepSnoc(vol: Volume, s: seq<int>, b: int)
    ensures Keep(vol, s + [b]) == Keep(vol, s) + (if vol.InRange(b) then multiset{b} else multiset{})
  {
    assert (s + [b])[..|s|] == s;
  }

  ghost function One(vol: Volume, b: int): multiset<int> {
    if vol.InRange(b) then multiset{b} else multiset{}
  }

  lemma KeepMore(vol: Volume, base: multiset<int>, s: seq<int>, b: int)
    ensures base + Keep(vol, s + [b]) == base + Keep(vol, s) + One(vol, b)
  {
    KeepSnoc(vol, s, b);
  }

  lemma KeepLess(vol: Volume, base: multiset<int>, s: seq<int>, b: int)
    ensures base - Keep(vol, s + [b]) == base - Keep(vol, s) - One(vol, b)
  {
    KeepSnoc(vol, s, b);
  }

  lemma {:induction false} KeepIn(vol: Volume, s: seq<int>, b: int)
    ensures b in Keep(vol, s) <==> b in s && vol.InRange(b)
  {
    if s != [] {
      KeepIn(vol, s[..|s| - 1], b);
      assert s == s[..|s| - 1] + [s[|s| - 1]];
    }
  }

  lemma {:induction false} KeepPrefix(vol: Volume, s: seq<int>, t: seq<int>)
    requires s <= t
    ensures Keep(vol, s) <= Keep(vol, t)
    decreases |t|
  {
    if |s| < |t| {
      assert s <= t[..|t| - 1];
      KeepPrefix(vol, s, t[..|t| - 1]);
    } else {
      assert s == t;
    }
  }

  ghost function Claims(vol: Volume, ip: Inode): multiset<int>
    requires WellFormed(ip)
  {
    if Counted(ip) then Keep(vol, Visit(vol, ip)) else multiset{}
  }

  ghost predicate Table(inodes: seq<Inode>) {
    forall i :: 0 <= i < |inodes| ==> WellFormed(inodes[i])
  }

  /** All the claims of inodes 1..n. */
  ghost function Total(vol: Volume, inodes: seq<Inode>, n: nat): multiset<int>
    requires n < |inodes| && Table(inodes)
  {
    if n == 0 then multiset{} else Total(vol, inodes, n - 1) + Claims(vol, inodes[n])
  }

  function Zapped(): Inode {
    Inode(false, false, false, false, seq(NADDR, i => 0))
  }

  /** Clearing an inode takes away its claims and no others. */
  lemma {:induction false} TotalZap(vol: Volume, inodes: seq<Inode>, n: nat, i: nat)
    requires n < |inodes| && Table(inodes) && 1 <= i < |inodes|
    ensures Total(vol, inodes, n) ==
            Total(vol, inodes[i := Zapped()], n) + (if i <= n then Claims(vol, inodes[i]) else multiset{})
  {
    if n > 0 {
      TotalZap(vol, inodes, n - 1, i);
    }
  }

  lemma {:induction false} TotalWitness(vol: Volume, inodes: seq<Inode>, n: nat, b: int) returns (i: nat)
    requires n < |inodes| && Table(inodes) && b in Total(vol, inodes, n)
    ensures 1 <= i <= n && b in Claims(vol, inodes[i])
  {
    if b in Claims(vol, inodes[n]) {
      i := n;
    } else {
      i := TotalWitness(vol, inodes, n - 1, b);
    }
  }

  lemma {:induction false} ClaimCounts(vol: Volume, inodes: seq<Inode>, n: nat, i: nat, b: int)
    requires n < |inodes| && Table(inodes) && 1 <= i <= n
    ensures Claims(vol, inodes[i])[b] <= Total(vol, inodes, n)[b]
  {
    hide Claims;
    if i < n {
      ClaimCounts(vol, inodes, n - 1, i, b);
    }
  }

  /** Two inodes that claim the same block are two claims. */
  lemma {:induction false} TwoClaims(vol: Volume, inodes: seq<Inode>, n: nat, i: nat, j: nat, b: int)
    requires n < |inodes| && Table(inodes) && 1 <= i < j <= n && b in Claims(vol, inodes[i])
    requires b in Claims(vol, inodes[j])
    ensures Total(vol, inodes, n)[b] >= 2
  {
    hide Claims, WellFormed;
    if j < n {
      TwoClaims(vol, inodes, n - 1, i, j, b);
    } else {
      ClaimCounts(vol, inodes, n - 1, i, b);
    }
  }

  /** Later contents of the table: some inodes cleared, the rest as they were. */
  ghost predicate Cleared(before: seq<Inode>, after: seq<Inode>) {
    |after| == |before| && forall i :: 0 <= i < |after| ==> after[i] == before[i] || !Counted(after[i])
  }

  lemma {:induction false} TotalCleared(vol: Volume, before: seq<Inode>, after: seq<Inode>, n: nat)
    requires n < |before| && Table(before) && Table(after) && Cleared(before, after)
    ensures Total(vol, after, n) <= Total(vol, before, n)
  {
    if n > 0 {
      TotalCleared(vol, before, after, n - 1);
    }
  }
}
