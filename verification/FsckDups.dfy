/** The table of duplicate blocks and the allocation map, and how they account for claims. */
module FsckDups {
  import opened FsckVolume

  const DUPTBLSIZE := 100

  /** The blocks whose bit is set. */
  ghost function Marked(vol: Volume, blkmap: seq<bool>): set<int>
    requires 0 <= vol.fmin && vol.fmax <= |blkmap|
  {
    set b | vol.fmin <= b < vol.fmax && blkmap[b]
  }

  /** Every claim in c is either a bit of the map or an entry of the table. */
  ghost predicate Accounts(vol: Volume, blkmap: seq<bool>, dup: seq<int>, end: int, c: multiset<int>) {
    && 0 <= vol.fmin && vol.fmax <= |blkmap| && |dup| == DUPTBLSIZE && 0 <= end <= DUPTBLSIZE
    && c == multiset(Marked(vol, blkmap)) + multiset(dup[..end])
    && forall k :: 0 <= k < end ==> dup[k] in Marked(vol, blkmap)
  }

  /** The front of the table names every duplicate block once. */
  ghost predicate Front(dup: seq<int>, mul: int, end: int) {
    && 0 <= mul <= end <= |dup|
    && (forall i, j :: 0 <= i < j < mul ==> dup[i] != dup[j])
    && forall k :: mul <= k < end ==> dup[k] in dup[..mul]
  }

  lemma MarkSize(vol: Volume, blkmap: seq<bool>, b: int, on: bool)
    requires 0 <= vol.fmin && vol.fmax <= |blkmap| && vol.InRange(b)
    ensures Marked(vol, blkmap[b := on]) == if on then Marked(vol, blkmap) + {b} else Marked(vol, blkmap) - {b}
  {
  }

  lemma Counts(vol: Volume, blkmap: seq<bool>, dup: seq<int>, end: int, c: multiset<int>, b: int)
    requires Accounts(vol, blkmap, dup, end, c)
    ensures c[b] == (if b in Marked(vol, blkmap) then 1 else 0) + multiset(dup[..end])[b]
    ensures b in dup[..end] <==> c[b] >= 2
    ensures b in Marked(vol, blkmap) <==> c[b] >= 1
  {
    assert b in multiset(dup[..end]) <==> b in dup[..end];
    if b in dup[..end] {
      var k :| 0 <= k < end && dup[k] == b;
    }
  }

  // ----- Pass 1 -----

  lemma FirstClaim(vol: Volume, blkmap: seq<bool>, dup: seq<int>, end: int, c: multiset<int>, b: int)
    requires Accounts(vol, blkmap, dup, end, c) && vol.InRange(b) && !blkmap[b]
    ensures Accounts(vol, blkmap[b := true], dup, end, c + multiset{b})
  {
    MarkSize(vol, blkmap, b, true);
    assert b !in Marked(vol, blkmap);
  }

  lemma KnownDup(vol: Volume, blkmap: seq<bool>, dup: seq<int>, mul: int, end: int, c: multiset<int>, b: int)
    requires Accounts(vol, blkmap, dup, end, c) && Front(dup, mul, end) && end < DUPTBLSIZE
    requires b in dup[..mul] && b in Marked(vol, blkmap)
    ensures Accounts(vol, blkmap, dup[end := b], end + 1, c + multiset{b}) && Front(dup[end := b], mul, end + 1)
  {
    var d := dup[end := b];
    assert d[..end + 1] == dup[..end] + [b];
    assert d[..mul] == dup[..mul];
  }

  function Moved(dup: seq<int>, mul: int, end: int, b: int): seq<int>
    requires 0 <= mul <= end < |dup|
  {
    dup[end := dup[mul]][mul := b]
  }

  lemma MovedFront(dup: seq<int>, mul: int, end: int, b: int)
    requires Front(dup, mul, end) && end < |dup| && b !in dup[..mul]
    ensures Front(Moved(dup, mul, end, b), mul + 1, end + 1)
  {
    var d := Moved(dup, mul, end, b);
    assert d[..mul + 1] == dup[..mul] + [b];
    forall i, j | 0 <= i < j < mul + 1 ensures d[i] != d[j] {
      assert dup[..mul][i] == dup[i];
    }
    forall k | mul + 1 <= k < end + 1 ensures d[k] in d[..mul + 1] {
      assert k < end ==> dup[k] in dup[..mul];
      assert k == end ==> mul < end && dup[mul] in dup[..mul];
    }
  }

  lemma MakeRoom(e: seq<int>, k: nat, b: int)
    requires k < |e|
    ensures multiset(e[k := b] + [e[k]]) == multiset(e) + multiset{b}
  {
    assert e == e[..k] + [e[k]] + e[k + 1..];
    assert e[k := b] == e[..k] + [b] + e[k + 1..];
  }

  lemma MovedContents(dup: seq<int>, mul: int, end: int, b: int)
    requires 0 <= mul <= end < |dup|
    ensures multiset(Moved(dup, mul, end, b)[..end + 1]) == multiset(dup[..end]) + multiset{b}
  {
    var d := Moved(dup, mul, end, b);
    if mul == end {
      assert d[..end + 1] == dup[..end] + [b];
    } else {
      assert d[..end + 1] == dup[..end][mul := b] + [dup[..end][mul]];
      MakeRoom(dup[..end], mul, b);
    }
  }

  lemma NewDup(vol: Volume, blkmap: seq<bool>, dup: seq<int>, mul: int, end: int, c: multiset<int>, b: int)
    requires Accounts(vol, blkmap, dup, end, c) && Front(dup, mul, end) && end < DUPTBLSIZE
    requires b !in dup[..mul] && b in Marked(vol, blkmap)
    ensures Accounts(vol, blkmap, Moved(dup, mul, end, b), end + 1, c + multiset{b})
    ensures Front(Moved(dup, mul, end, b), mul + 1, end + 1)
  {
    MovedFront(dup, mul, end, b);
    MovedContents(dup, mul, end, b);
  }

  // ----- Pass 1b -----

  /** The blocks still looked for. */
  ghost function Pending(dup: seq<int>, mul: int): set<int>
    requires 0 <= mul <= |dup|
  {
    set k | 0 <= k < mul :: dup[k]
  }

  ghost predicate Distinct(dup: seq<int>, mul: int) {
    0 <= mul <= |dup| && forall i, j :: 0 <= i < j < mul ==> dup[i] != dup[j]
  }

  function Swapped(dup: seq<int>, k: int, m: int): seq<int>
    requires 0 <= k < |dup| && 0 <= m < |dup|
  {
    dup[k := dup[m]][m := dup[k]]
  }

  lemma Found(vol: Volume, blkmap: seq<bool>, dup: seq<int>, mul: int, end: int, c: multiset<int>, k: int)
    requires Accounts(vol, blkmap, dup, end, c) && Distinct(dup, mul) && 0 <= k < mul <= end
    ensures var d := Swapped(dup, k, mul - 1);
      && Accounts(vol, blkmap, d, end, c) && Distinct(d, mul - 1)
      && Pending(d, mul - 1) == Pending(dup, mul) - {dup[k]}
  {
    hide Accounts, Marked;
    SwappedAccounts(vol, blkmap, dup, mul, end, c, k);
    SwappedPending(dup, mul, k);
  }

  lemma SwappedAccounts(vol: Volume, blkmap: seq<bool>, dup: seq<int>, mul: int, end: int, c: multiset<int>, k: int)
    requires Accounts(vol, blkmap, dup, end, c) && 0 <= k < mul <= end
    ensures Accounts(vol, blkmap, Swapped(dup, k, mul - 1), end, c)
  {
    hide Marked;
    assert Swapped(dup, k, mul - 1)[..end] == Swapped(dup[..end], k, mul - 1);
    SwappedContents(dup[..end], k, mul - 1);
  }

  lemma SwappedContents(e: seq<int>, k: nat, m: nat)
    requires k <= m < |e|
    ensures multiset(Swapped(e, k, m)) == multiset(e)
  {
    if k < m {
      assert e == e[..k] + [e[k]] + e[k + 1..m] + [e[m]] + e[m + 1..];
      assert Swapped(e, k, m) == e[..k] + [e[m]] + e[k + 1..m] + [e[k]] + e[m + 1..];
    } else {
      assert Swapped(e, k, m) == e;
    }
  }

  lemma SwappedPending(dup: seq<int>, mul: int, k: int)
    requires Distinct(dup, mul) && 0 <= k < mul
    ensures Distinct(Swapped(dup, k, mul - 1), mul - 1)
    ensures Pending(Swapped(dup, k, mul - 1), mul - 1) == Pending(dup, mul) - {dup[k]}
  {
    var m := mul - 1;
    var d := Swapped(dup, k, m);
    forall x
      ensures x in Pending(d, m) <==> x in Pending(dup, mul) && x != dup[k]
    {
      if x in Pending(dup, mul) && x != dup[k] {
        var i :| 0 <= i < mul && dup[i] == x;
        assert d[if i == m then k else i] == x;
      }
      if x in Pending(d, m) {
        var i :| 0 <= i < m && d[i] == x;
        assert dup[if i == k then m else i] == x;
      }
    }
  }

  // ----- Pass 4 -----

  lemma DropDup(vol: Volume, blkmap: seq<bool>, dup: seq<int>, end: int, c: multiset<int>, k: int)
    requires Accounts(vol, blkmap, dup, end, c) && 0 <= k < end
    ensures Accounts(vol, blkmap, dup[k := dup[end - 1]], end - 1, c - multiset{dup[k]})
  {
    hide Marked;
    DroppedContents(dup, end, k);
    var d := dup[k := dup[end - 1]][..end - 1];
    TakenAway(multiset(Marked(vol, blkmap)), multiset(d), multiset{dup[k]});
  }

  lemma TakenAway(a: multiset<int>, d: multiset<int>, x: multiset<int>)
    ensures a + (d + x) - x == a + d
  {
  }

  lemma DroppedContents(dup: seq<int>, end: int, k: int)
    requires 0 <= k < end <= |dup|
    ensures multiset(dup[k := dup[end - 1]][..end - 1]) + multiset{dup[k]} == multiset(dup[..end])
  {
    var e := dup[..end - 1];
    assert dup[..end] == e + [dup[end - 1]];
    if k < end - 1 {
      assert dup[k := dup[end - 1]][..end - 1] == e[k := dup[end - 1]];
      assert e == e[..k] + [e[k]] + e[k + 1..];
      assert e[k := dup[end - 1]] == e[..k] + [dup[end - 1]] + e[k + 1..];
    } else {
      assert dup[k := dup[end - 1]][..end - 1] == e;
    }
  }

  lemma DropBit(vol: Volume, blkmap: seq<bool>, dup: seq<int>, end: int, c: multiset<int>, b: int)
    requires Accounts(vol, blkmap, dup, end, c) && vol.InRange(b) && blkmap[b] && b !in dup[..end]
    ensures Accounts(vol, blkmap[b := false], dup, end, c - multiset{b})
  {
    MarkSize(vol, blkmap, b, false);
    assert b in Marked(vol, blkmap);
    assert b !in multiset(dup[..end]);
    forall k | 0 <= k < end ensures dup[k] in Marked(vol, blkmap[b := false]) {
      assert dup[k] == dup[..end][k];
    }
  }
}
