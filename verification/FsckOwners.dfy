/** Who claimed a block first, and which inodes are marked for that. */
module FsckOwners {
  import opened FsckVolume

  const USTATE := 0
  const FSTATE := 1
  const DSTATE := 2
  const CLEAR := 3

  ghost function VisitOf(vol: Volume, ip: Inode): seq<int>
    requires WellFormed(ip)
  {
    if Counted(ip) then Visit(vol, ip) else []
  }

  lemma ClaimsOfVisit(vol: Volume, ip: Inode, b: int)
    requires WellFormed(ip)
    ensures Claims(vol, ip) == Keep(vol, VisitOf(vol, ip))
    ensures b in Claims(vol, ip) <==> b in VisitOf(vol, ip) && vol.InRange(b)
  {
    KeepIn(vol, VisitOf(vol, ip), b);
  }

  /** Inode j, in state st, owns b or is marked; a block that is out of range is owned by nobody. */
  ghost predicate ItemOwned(vol: Volume, owner: map<int, int>, st: int, j: int, b: int) {
    if vol.InRange(b) then b in owner && owner[b] <= j && (owner[b] == j || st == CLEAR) else st == CLEAR
  }

  ghost predicate SeenOwned(vol: Volume, owner: map<int, int>, st: int, j: int, seen: seq<int>) {
    forall b :: b in seen ==> ItemOwned(vol, owner, st, j, b)
  }

  /** So it is for everything inodes 1..n visit. */
  ghost predicate Owned(vol: Volume, inodes: seq<Inode>, owner: map<int, int>, state: seq<int>, n: int)
    requires Table(inodes)
  {
    && |state| == |inodes| && n < |inodes|
    && forall j :: 1 <= j <= n ==> SeenOwned(vol, owner, state[j], j, VisitOf(vol, inodes[j]))
  }

  /** An owner did visit the block: it is among 1..n, or it is cur and visited it so far. */
  ghost predicate OwnerSaw(vol: Volume, inodes: seq<Inode>, n: int, cur: int, seen: seq<int>, b: int, j: int)
    requires Table(inodes)
  {
    vol.InRange(b) && n < |inodes| && ((1 <= j <= n && b in VisitOf(vol, inodes[j])) || (j == cur && b in seen))
  }

  ghost predicate OwnersOk(vol: Volume, inodes: seq<Inode>, owner: map<int, int>, n: int, cur: int, seen: seq<int>)
    requires Table(inodes)
  {
    forall b :: b in owner ==> OwnerSaw(vol, inodes, n, cur, seen, b, owner[b])
  }

  // ----- One visit more in phase 1 -----

  lemma OwnNew(vol: Volume, inodes: seq<Inode>, owner: map<int, int>, state: seq<int>, cur: int, seen: seq<int>, b: int)
    requires Table(inodes) && 1 <= cur < |inodes| && vol.InRange(b) && b !in owner
    requires Owned(vol, inodes, owner, state, cur - 1) && OwnersOk(vol, inodes, owner, cur - 1, cur, seen)
    requires SeenOwned(vol, owner, state[cur], cur, seen)
    ensures Owned(vol, inodes, owner[b := cur], state, cur - 1)
    ensures OwnersOk(vol, inodes, owner[b := cur], cur - 1, cur, seen + [b])
    ensures SeenOwned(vol, owner[b := cur], state[cur], cur, seen + [b])
  {
    var o := owner[b := cur];
    forall j | 1 <= j <= cur - 1 ensures SeenOwned(vol, o, state[j], j, VisitOf(vol, inodes[j])) {
      assert SeenOwned(vol, owner, state[j], j, VisitOf(vol, inodes[j]));
      forall x | x in VisitOf(vol, inodes[j]) ensures ItemOwned(vol, o, state[j], j, x) {
        assert ItemOwned(vol, owner, state[j], j, x);
      }
    }
    forall x | x in seen + [b] ensures ItemOwned(vol, o, state[cur], cur, x) {
      assert x != b ==> ItemOwned(vol, owner, state[cur], cur, x);
    }
    forall x | x in o ensures OwnerSaw(vol, inodes, cur - 1, cur, seen + [b], x, o[x]) {
      assert x != b ==> OwnerSaw(vol, inodes, cur - 1, cur, seen, x, owner[x]);
    }
  }

  /** b is bad, or somebody has it already: cur is marked. */
  lemma OwnMark(vol: Volume, inodes: seq<Inode>, owner: map<int, int>, state: seq<int>, cur: int, seen: seq<int>,
                b: int)
    requires Table(inodes) && 1 <= cur < |inodes| && (vol.InRange(b) ==> b in owner)
    requires Owned(vol, inodes, owner, state, cur - 1) && OwnersOk(vol, inodes, owner, cur - 1, cur, seen)
    requires SeenOwned(vol, owner, state[cur], cur, seen)
    ensures var st := state[cur := CLEAR];
      && Owned(vol, inodes, owner, st, cur - 1) && OwnersOk(vol, inodes, owner, cur - 1, cur, seen + [b])
      && SeenOwned(vol, owner, st[cur], cur, seen + [b])
  {
    var st := state[cur := CLEAR];
    forall j | 1 <= j <= cur - 1 ensures SeenOwned(vol, owner, st[j], j, VisitOf(vol, inodes[j])) {
      assert SeenOwned(vol, owner, state[j], j, VisitOf(vol, inodes[j]));
    }
    forall x | x in owner ensures OwnerSaw(vol, inodes, cur - 1, cur, seen + [b], x, owner[x]) {
      assert OwnerSaw(vol, inodes, cur - 1, cur, seen, x, owner[x]);
    }
    forall x | x in seen + [b] ensures ItemOwned(vol, owner, st[cur], cur, x) {
      if x in seen {
        assert ItemOwned(vol, owner, state[cur], cur, x);
      }
      if vol.InRange(x) {
        assert x in owner;
        assert OwnerSaw(vol, inodes, cur - 1, cur, seen, x, owner[x]);
      }
    }
  }

  /** The whole inode was visited. */
  lemma OwnDone(vol: Volume, inodes: seq<Inode>, owner: map<int, int>, state: seq<int>, cur: int, seen: seq<int>)
    requires Table(inodes) && 1 <= cur < |inodes| && seen == VisitOf(vol, inodes[cur])
    requires Owned(vol, inodes, owner, state, cur - 1) && OwnersOk(vol, inodes, owner, cur - 1, cur, seen)
    requires SeenOwned(vol, owner, state[cur], cur, seen)
    ensures Owned(vol, inodes, owner, state, cur) && OwnersOk(vol, inodes, owner, cur, cur + 1, [])
  {
    forall b | b in owner ensures OwnerSaw(vol, inodes, cur, cur + 1, [], b, owner[b]) {
      assert OwnerSaw(vol, inodes, cur - 1, cur, seen, b, owner[b]);
    }
  }

  // ----- Marking in phase 1b -----

  lemma OwnedMarked(vol: Volume, inodes: seq<Inode>, owner: map<int, int>, state: seq<int>, n: int, i: int)
    requires Table(inodes) && Owned(vol, inodes, owner, state, n) && 0 <= i < |state|
    ensures Owned(vol, inodes, owner, state[i := CLEAR], n)
  {
    var st := state[i := CLEAR];
    forall j | 1 <= j <= n ensures SeenOwned(vol, owner, st[j], j, VisitOf(vol, inodes[j])) {
      assert SeenOwned(vol, owner, state[j], j, VisitOf(vol, inodes[j]));
      forall x | x in VisitOf(vol, inodes[j]) ensures ItemOwned(vol, owner, st[j], j, x) {
        assert ItemOwned(vol, owner, state[j], j, x);
      }
    }
  }

  /** Nothing pending was visited by inodes 1..n. */
  ghost predicate Past(vol: Volume, inodes: seq<Inode>, pending: set<int>, n: int)
    requires Table(inodes)
  {
    n < |inodes| && forall j, b :: 1 <= j <= n && b in VisitOf(vol, inodes[j]) ==> b !in pending
  }

  /** A block that cur visits while it is still pending is one that cur owns. */
  lemma PendingOwner(vol: Volume, inodes: seq<Inode>, owner: map<int, int>, state: seq<int>, n: int, cur: int,
                     pending: set<int>, b: int)
    requires Table(inodes) && 1 <= cur <= n && Owned(vol, inodes, owner, state, n)
    requires OwnersOk(vol, inodes, owner, n, n + 1, [])
    requires Past(vol, inodes, pending, cur - 1) && b in pending && b in VisitOf(vol, inodes[cur]) && vol.InRange(b)
    ensures b in owner && owner[b] == cur
  {
    assert SeenOwned(vol, owner, state[cur], cur, VisitOf(vol, inodes[cur]));
    assert ItemOwned(vol, owner, state[cur], cur, b);
    assert OwnerSaw(vol, inodes, n, n + 1, [], b, owner[b]);
  }

  /** Every block of dups is pending, or its owner is marked. */
  ghost predicate Sought(owner: map<int, int>, state: seq<int>, pending: set<int>, dups: set<int>) {
    && pending <= dups
    && forall b :: b in dups ==> b in owner && 0 <= owner[b] < |state| && (b in pending || state[owner[b]] == CLEAR)
  }

  /** Every inode that claims a block claimed more than once is marked. */
  ghost predicate AllMarked(vol: Volume, inodes: seq<Inode>, state: seq<int>, n: int)
    requires Table(inodes) && 0 <= n < |inodes|
  {
    |state| == |inodes| &&
    forall i, b :: 1 <= i <= n && Total(vol, inodes, n)[b] >= 2 && b in Claims(vol, inodes[i]) ==> state[i] == CLEAR
  }

  lemma Marked1b(vol: Volume, inodes: seq<Inode>, owner: map<int, int>, state: seq<int>, n: int,
                 pending: set<int>, dups: set<int>)
    requires Table(inodes) && 0 <= n < |inodes| && Owned(vol, inodes, owner, state, n)
    requires Sought(owner, state, pending, dups) && forall b :: b !in pending
    requires forall b :: Total(vol, inodes, n)[b] >= 2 ==> b in dups
    ensures AllMarked(vol, inodes, state, n)
  {
    forall i, b | 1 <= i <= n && Total(vol, inodes, n)[b] >= 2 && b in Claims(vol, inodes[i])
      ensures state[i] == CLEAR {
      ClaimsOfVisit(vol, inodes[i], b);
      assert SeenOwned(vol, owner, state[i], i, VisitOf(vol, inodes[i]));
      assert ItemOwned(vol, owner, state[i], i, b);
      assert b in dups;
    }
  }

  /** And every inode with a block out of range is. */
  ghost predicate BadMarked(vol: Volume, inodes: seq<Inode>, state: seq<int>, n: int)
    requires Table(inodes) && 0 <= n < |inodes|
  {
    |state| == |inodes| &&
    forall i, b :: 1 <= i <= n && b in VisitOf(vol, inodes[i]) && !vol.InRange(b) ==> state[i] == CLEAR
  }

  lemma BadMarkedOwned(vol: Volume, inodes: seq<Inode>, owner: map<int, int>, state: seq<int>, n: int)
    requires Table(inodes) && 0 <= n < |inodes| && Owned(vol, inodes, owner, state, n)
    ensures BadMarked(vol, inodes, state, n)
  {
    forall i, b | 1 <= i <= n && b in VisitOf(vol, inodes[i]) && !vol.InRange(b) ensures state[i] == CLEAR {
      assert SeenOwned(vol, owner, state[i], i, VisitOf(vol, inodes[i]));
      assert ItemOwned(vol, owner, state[i], i, b);
    }
  }
}
