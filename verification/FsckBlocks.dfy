/** Phases 1, 1b and 4: every claim on a block is a bit of the map or an entry of the table. */
module FsckBlocks {
  import opened FsckVolume
  import opened FsckDups
  import opened FsckOwners
  import opened FsckLimits

  const ROOTINO := 2

  const KEEPON := 4
  const SKIP := 2
  const STOP := 1

  datatype Pass = Pass1 | Pass1b | Pass4

  class Fsck {
    const vol: Volume
    var inodes: seq<Inode>
    var blkmap: seq<bool>
    var duplist: seq<int>
    var enddup: int
    var muldup: int
    var state: seq<int>
    var inum: int
    var lastino: int
    var nBlks: int
    var nFiles: int
    var badblk: int
    var dupblk: int
    var pfunc: Pass

    /** the inode that claimed a block first */
    ghost var owner: map<int, int>
    /** what the present inode visits, and how much of that it has */
    ghost var plan: seq<int>
    ghost var seen: seq<int>
    /** the claims of all inodes the accounts are about, but for those that seen adds or takes away */
    ghost var base: multiset<int>
    /** in phase 1b: the blocks with more than one claim */
    ghost var dups: set<int>

    ghost predicate Shape()
      reads this
    {
      && Table(inodes) && |state| == |inodes| && |inodes| >= 1
      && 0 <= vol.fmin && vol.fmax <= |blkmap| && |duplist| == DUPTBLSIZE && 0 <= enddup <= DUPTBLSIZE
      && nBlks == |Marked(vol, blkmap)|
    }

    /** What was seen of the present inode is within the limits, and counted. */
    ghost predicate Counting()
      reads this
    {
      && badblk == BadCount(vol, seen) && dupblk == DupCount(vol, base, seen)
      && Within(vol, base, plan, |seen|)
    }

    /** Phase 1 comes to a limit in the present inode. */
    ghost predicate OverLimit()
      reads this
    {
      pfunc == Pass1 && !Within(vol, base, plan, |plan|)
    }

    ghost predicate Walking()
      reads this
    {
      Shape() && 1 <= inum < |inodes| && Counted(inodes[inum]) && plan == Visit(vol, inodes[inum]) && seen <= plan
    }

    ghost predicate Inv1()
      reads this
    {
      && Walking() && Claiming(vol, inodes, blkmap, duplist, muldup, enddup, base, state, owner, inum, seen)
      && Counting()
    }

    ghost predicate Inv1b()
      reads this
    {
      Walking() && Hunting(vol, inodes, blkmap, duplist, muldup, enddup, base, state, owner, dups, inum, seen)
    }

    ghost predicate Inv4()
      reads this
    {
      && Walking() && Accounts(vol, blkmap, duplist, enddup, base - Keep(vol, seen))
      && Keep(vol, plan) <= base
    }

    ghost predicate Inv()
      reads this
    {
      match pfunc
      case Pass1 => Inv1()
      case Pass1b => Inv1b()
      case Pass4 => Inv4()
    }

    /** What a call on blk has to bring about, and what it returns. */
    ghost predicate Next(blk: int)
      reads this
    {
      seen + [blk] <= plan
    }

    /** What the next block would do to the counts. */
    lemma NextCounts(blk: int)
      requires Inv1() && Next(blk)
      ensures BadCount(vol, seen + [blk]) == badblk + if vol.InRange(blk) then 0 else 1
      ensures vol.InRange(blk) ==> 0 <= blk < |blkmap|
      ensures DupCount(vol, base, seen + [blk]) == dupblk + if vol.InRange(blk) && blkmap[blk] then 1 else 0
      ensures Limited(vol, base, seen, blk) <==>
        if !vol.InRange(blk) then badblk + 1 >= MAXBAD
        else blkmap[blk] && (dupblk + 1 >= MAXDUP || enddup >= DUPTBLSIZE)
      ensures if Limited(vol, base, seen, blk) then !Within(vol, base, plan, |plan|)
              else Within(vol, base, plan, |seen + [blk]|)
    {
      hide Accounts, Front, Owned, OwnersOk, SeenOwned, Marked, Keep, Reasons, Total, Visit, Table, Within, Extra;
      CountsMore(vol, base, seen, blk);
      WithinMore(vol, base, plan, seen, blk);
      ExtraEntries(vol, blkmap, duplist, enddup, base + Keep(vol, seen));
      Counts(vol, blkmap, duplist, enddup, base + Keep(vol, seen), blk);
      if vol.InRange(blk) { BitOfMap(vol, blkmap, blk); }
    }

    // ----- The functions applied to each block -----

    method BlkErr()
      requires 0 <= inum < |state|
      modifies `state
      ensures state == old(state)[inum := CLEAR]
    {
      state := state[inum := CLEAR];
    }

    /** Stops just when the block goes beyond a limit. */
    method DoPass1(blk: int) returns (ret: int)
      requires pfunc == Pass1 && Inv1() && Next(blk)
      modifies `blkmap, `duplist, `enddup, `muldup, `state, `nBlks, `badblk, `dupblk, `owner, `seen
      ensures ret == STOP || ret == (if vol.InRange(blk) then KEEPON else SKIP)
      ensures OnlyMarks(old(state), state, inum)
      ensures ret == STOP <==> Limited(vol, base, old(seen), blk)
      ensures ret == STOP ==> OverLimit()
      ensures ret != STOP ==> Inv1() && seen == old(seen) + [blk]
    {
      hide Visit, Accounts, Front, Owned, OwnersOk, SeenOwned, Marked, Keep, Reasons, Total, Within, Limited;
      NextCounts(blk);
      if !vol.InRange(blk) {
        KeepMore(vol, base, seen, blk);
        BadReason(vol, inodes, state, inum, seen, plan, blk);
        OwnMark(vol, inodes, owner, state, inum, seen, blk);
        BlkErr();
        badblk := badblk + 1;
        if badblk >= MAXBAD {
          return STOP;
        }
        NoneMore(base + Keep(vol, seen));
        seen := seen + [blk];
        return SKIP;
      }
      if blkmap[blk] {
        ret := Duplicate(blk);
      } else {
        Take(blk);
        ret := KEEPON;
      }
    }

    /** A block that somebody has already. */
    method Duplicate(blk: int) returns (ret: int)
      requires pfunc == Pass1 && Inv1() && Next(blk) && vol.InRange(blk) && blkmap[blk]
      modifies `duplist, `enddup, `muldup, `state, `dupblk, `seen
      ensures ret == STOP || ret == KEEPON
      ensures OnlyMarks(old(state), state, inum)
      ensures ret == STOP <==> Limited(vol, base, old(seen), blk)
      ensures ret == STOP ==> OverLimit()
      ensures ret != STOP ==> Inv1() && seen == old(seen) + [blk]
    {
      hide Visit, Accounts, Front, Owned, OwnersOk, SeenOwned, Marked, Keep, Reasons, Total, Within, Limited;
      NextCounts(blk);
      BitOfMap(vol, blkmap, blk);
      KeepMore(vol, base, seen, blk);
      DupReason(vol, inodes, state, blkmap, duplist, enddup, inum, seen, plan, blk);
      OwnMark(vol, inodes, owner, state, inum, seen, blk);
      BlkErr();
      dupblk := dupblk + 1;
      if dupblk >= MAXDUP {
        return STOP;
      }
      if enddup >= DUPTBLSIZE {
        return STOP;
      }
      AddDup(blk, base + Keep(vol, seen));
      seen := seen + [blk];
      return KEEPON;
    }

    /** A block nobody claimed so far. */
    method Take(blk: int)
      requires pfunc == Pass1 && Inv1() && Next(blk) && vol.InRange(blk) && !blkmap[blk]
      modifies `blkmap, `nBlks, `owner, `seen
      ensures Inv1() && seen == old(seen) + [blk]
    {
      hide Visit, Accounts, Front, Owned, OwnersOk, SeenOwned, Marked, Keep, Reasons, Total, Within, Limited;
      NextCounts(blk);
      BitOfMap(vol, blkmap, blk);
      KeepMore(vol, base, seen, blk);
      OwnNew(vol, inodes, owner, state, inum, seen, blk);
      FirstClaim(vol, blkmap, duplist, enddup, base + Keep(vol, seen), blk);
      MarkSize(vol, blkmap, blk, true);
      nBlks := nBlks + 1;
      blkmap := blkmap[blk := true];
      owner := owner[blk := inum];
      seen := seen + [blk];
    }

    /** Enters blk in the table. */
    method AddDup(blk: int, ghost c: multiset<int>)
      requires Accounts(vol, blkmap, duplist, enddup, c) && Front(duplist, muldup, enddup)
      requires enddup < DUPTBLSIZE && blk in Marked(vol, blkmap)
      modifies `duplist, `enddup, `muldup
      ensures Accounts(vol, blkmap, duplist, enddup, c + multiset{blk}) && Front(duplist, muldup, enddup)
      ensures |duplist| == DUPTBLSIZE && 0 <= enddup <= DUPTBLSIZE
    {
      var dlp := 0;
      while dlp < muldup
        invariant 0 <= dlp <= muldup && blk !in duplist[..dlp]
      {
        if duplist[dlp] == blk {
          EnterKnown(blk, dlp, c);
          return;
        }
        dlp := dlp + 1;
      }
      EnterNew(blk, c);
    }

    method EnterKnown(blk: int, ghost dlp: int, ghost c: multiset<int>)
      requires Accounts(vol, blkmap, duplist, enddup, c) && Front(duplist, muldup, enddup)
      requires enddup < DUPTBLSIZE && blk in Marked(vol, blkmap) && 0 <= dlp < muldup && duplist[dlp] == blk
      modifies `duplist, `enddup
      ensures Accounts(vol, blkmap, duplist, enddup, c + multiset{blk}) && Front(duplist, muldup, enddup)
      ensures |duplist| == DUPTBLSIZE && 0 <= enddup <= DUPTBLSIZE
    {
      hide Marked, Accounts, Front;
      DupBounds(duplist, muldup, enddup);
      TableSize(vol, blkmap, duplist, enddup, c);
      assert duplist[..muldup][dlp] == blk;
      KnownDup(vol, blkmap, duplist, muldup, enddup, c, blk);
      duplist := duplist[enddup := blk];
      enddup := enddup + 1;
    }

    method EnterNew(blk: int, ghost c: multiset<int>)
      requires Accounts(vol, blkmap, duplist, enddup, c) && Front(duplist, muldup, enddup)
      requires enddup < DUPTBLSIZE && blk in Marked(vol, blkmap) && blk !in duplist[..muldup]
      modifies `duplist, `enddup, `muldup
      ensures Accounts(vol, blkmap, duplist, enddup, c + multiset{blk}) && Front(duplist, muldup, enddup)
      ensures |duplist| == DUPTBLSIZE && 0 <= enddup <= DUPTBLSIZE
    {
      hide Marked, Accounts, Front;
      DupBounds(duplist, muldup, enddup);
      TableSize(vol, blkmap, duplist, enddup, c);
      NewDup(vol, blkmap, duplist, muldup, enddup, c, blk);
      duplist := duplist[enddup := duplist[muldup]];
      enddup := enddup + 1;
      duplist := duplist[muldup := blk];
      muldup := muldup + 1;
    }

    /** Stops when nothing is left to look for. */
    method DoPass1b(blk: int) returns (ret: int)
      requires pfunc == Pass1b && Inv1b() && Next(blk)
      modifies `duplist, `muldup, `state, `seen
      ensures ret == STOP || ret == (if vol.InRange(blk) then KEEPON else SKIP)
      ensures ret == STOP ==> muldup == 0
      ensures OnlyMarks(old(state), state, inum)
      ensures Inv1b() && seen == old(seen) + [blk]
    {
      hide Visit, Accounts, Owned, OwnersOk, Marked, Past, Sought, Pending, Unseen;
      var dlp := 0;
      if vol.InRange(blk) {
        while dlp < muldup
          invariant 0 <= dlp <= muldup && forall k :: 0 <= k < dlp ==> duplist[k] != blk
        {
          if duplist[dlp] == blk {
            Strike(dlp);
            return if muldup == 0 then STOP else KEEPON;
          }
          dlp := dlp + 1;
        }
      }
      Unstruck(vol, inodes, blkmap, duplist, muldup, enddup, base, state, owner, dups, inum, seen, blk);
      seen := seen + [blk];
      return if vol.InRange(blk) then KEEPON else SKIP;
    }

    /** The block at dlp is found: mark the inode and strike the block off. */
    method Strike(dlp: int)
      requires pfunc == Pass1b && Inv1b() && 0 <= dlp < muldup <= |duplist| && Next(duplist[dlp])
      requires vol.InRange(duplist[dlp])
      modifies `duplist, `muldup, `state, `seen
      ensures Inv1b() && seen == old(seen) + [old(duplist[dlp])] && muldup == old(muldup) - 1
      ensures OnlyMarks(old(state), state, inum)
    {
      hide Hunting, Visit, Marked, Table;
      var blk := duplist[dlp];
      NextInPlan(seen, blk, plan);
      Struck(vol, inodes, blkmap, duplist, muldup, enddup, base, state, owner, dups, inum, seen, dlp);
      BlkErr();
      muldup := muldup - 1;
      duplist := duplist[dlp := duplist[muldup]];
      duplist := duplist[muldup := blk];
      seen := seen + [blk];
    }

    method DoPass4(blk: int) returns (ret: int)
      requires pfunc == Pass4 && Inv4() && Next(blk)
      modifies `blkmap, `duplist, `enddup, `nBlks, `seen
      ensures ret == (if vol.InRange(blk) then KEEPON else SKIP)
      ensures Inv4() && seen == old(seen) + [blk]
    {
      hide Visit, Accounts, Marked, Keep;
      KeepLess(vol, base, seen, blk);
      ghost var c := base - Keep(vol, seen);
      seen := seen + [blk];
      if !vol.InRange(blk) {
        NoneLess(c);
        return SKIP;
      }
      StillClaimed(vol, base, old(seen), plan, blk);
      Counts(vol, blkmap, duplist, enddup, c, blk);
      BitOfMap(vol, blkmap, blk);
      if blkmap[blk] {
        var dlp := 0;
        while dlp < enddup
          invariant 0 <= dlp <= enddup && blk !in duplist[..dlp]
        {
          if duplist[dlp] == blk {
            DropDup(vol, blkmap, duplist, enddup, c, dlp);
            enddup := enddup - 1;
            duplist := duplist[dlp := duplist[enddup]];
            return KEEPON;
          }
          dlp := dlp + 1;
        }
        DropBit(vol, blkmap, duplist, enddup, c, blk);
        MarkSize(vol, blkmap, blk, false);
        blkmap := blkmap[blk := false];
        nBlks := nBlks - 1;
      }
      return KEEPON;
    }

    method Apply(blk: int) returns (ret: int)
      requires Inv() && Next(blk)
      modifies `blkmap, `duplist, `enddup, `muldup, `state, `nBlks, `badblk, `dupblk, `owner, `seen
      ensures ret == STOP || ret == (if vol.InRange(blk) then KEEPON else SKIP)
      ensures Went(ret) ==> Inv() && seen == old(seen) + [blk]
      ensures Halted(ret) ==> Inv()
      ensures ret == STOP ==> OverLimit() || Halted(ret)
      ensures OnlyMarks(old(state), state, inum)
    {
      hide Inv1, Inv1b, Inv4;
      match pfunc
      case Pass1 => ret := DoPass1(blk);
      case Pass1b => ret := DoPass1b(blk);
      case Pass4 => ret := DoPass4(blk);
    }

    // ----- Visiting an inode -----

    ghost predicate Went(ret: int) {
      ret != STOP
    }

    /** Phase 1b found the last block it looked for. */
    ghost predicate Halted(ret: int)
      reads this
    {
      ret == STOP && pfunc == Pass1b && muldup == 0
    }

    method Iblock(blk: int, ilevel: nat) returns (ret: int)
      requires Inv() && ilevel > 0 && seen + VisitIndirect(vol, blk, ilevel) <= plan
      modifies `blkmap, `duplist, `enddup, `muldup, `state, `nBlks, `badblk, `dupblk, `owner, `seen
      ensures ret == STOP || ret == KEEPON || ret == SKIP
      ensures Went(ret) ==> Inv() && seen == old(seen) + VisitIndirect(vol, blk, ilevel)
      ensures Halted(ret) ==> Inv()
      ensures ret == STOP ==> OverLimit() || Halted(ret)
      ensures OnlyMarks(old(state), state, inum)
      decreases ilevel
    {
      hide Inv;
      PlanHead(seen, blk, VisitIndirect(vol, blk, ilevel), plan);
      ret := Apply(blk);
      if ret != KEEPON {
        return;
      }
      if blk !in vol.indirect {
        return SKIP;
      }
      var ap := vol.indirect[blk];
      ghost var before := old(seen) + [blk];
      var k := 0;
      while k < |ap|
        invariant OnlyMarks(old(state), state, inum)
        invariant 0 <= k <= |ap| && Inv() && seen == before + VisitList(vol, ap, k, ilevel - 1)
        modifies `blkmap, `duplist, `enddup, `muldup, `state, `nBlks, `badblk, `dupblk, `owner, `seen
      {
        if ap[k] != 0 {
          PlanList(vol, before, ap, k, ilevel - 1, plan);
          if ilevel - 1 > 0 {
            ret := Iblock(ap[k], ilevel - 1);
          } else {
            ret := Apply(ap[k]);
          }
          if ret == STOP {
            return;
          }
        }
        k := k + 1;
      }
      return KEEPON;
    }

    /** Visits the present inode from the first address on. */
    method CkInode() returns (ret: int)
      requires Inv() && Walking() && seen == []
      modifies `blkmap, `duplist, `enddup, `muldup, `state, `nBlks, `badblk, `dupblk, `owner, `seen
      ensures Went(ret) ==> Inv() && seen == plan
      ensures Halted(ret) ==> Inv()
      ensures ret == STOP ==> OverLimit() || Halted(ret)
      ensures OnlyMarks(old(state), state, inum)
    {
      hide Inv;
      if inodes[inum].special {
        return KEEPON;
      }
      var addr := inodes[inum].addr;
      assert WellFormed(inodes[inum]);
      var k := 0;
      while k < NADDR
        invariant OnlyMarks(old(state), state, inum)
        invariant 0 <= k <= NADDR && Inv() && seen == VisitAddr(vol, addr, k)
        modifies `blkmap, `duplist, `enddup, `muldup, `state, `nBlks, `badblk, `dupblk, `owner, `seen
      {
        if addr[k] != 0 {
          PlanAddr(vol, addr, k);
          if k < NDIRECT {
            ret := Apply(addr[k]);
          } else {
            ret := Iblock(addr[k], Level(k));
          }
          if ret == STOP {
            return;
          }
        }
        k := k + 1;
      }
      return KEEPON;
    }

    // ----- Phase 1 -----

    /** Before anything is checked. */
    ghost predicate Fresh()
      reads this
    {
      && Table(inodes) && |state| == |inodes| && |inodes| >= 1
      && 0 <= vol.fmin && vol.fmax <= |blkmap| && |duplist| == DUPTBLSIZE
      && enddup == muldup == nBlks == nFiles == lastino == 0
      && (forall i :: 0 <= i < |state| ==> state[i] == USTATE) && forall b :: 0 <= b < |blkmap| ==> !blkmap[b]
    }

    /** After inodes 1..n. */
    ghost predicate After1(n: int)
      reads this
    {
      && Shape() && 0 <= n < |inodes| && Accounts(vol, blkmap, duplist, enddup, Total(vol, inodes, n))
      && Front(duplist, muldup, enddup) && owner.Keys == Marked(vol, blkmap)
      && Owned(vol, inodes, owner, state, n) && OwnersOk(vol, inodes, owner, n, n + 1, [])
      && StatesOk(inodes, state, n, lastino) && Reasons(vol, inodes, state) && nFiles == Files(inodes, n)
      && Kinds(inodes, state, n)
    }

    /** Counts the claims of every inode, in the order of their numbers; gives up at a limit. */
    method Phase1() returns (limited: bool)
      requires Fresh()
      modifies `blkmap, `duplist, `enddup, `muldup, `state, `nBlks, `nFiles, `badblk, `dupblk, `pfunc, `inum, `lastino
      modifies `owner, `seen, `plan, `base
      ensures Table(inodes) && limited == TooMuch(vol, inodes, |inodes| - 1)
      ensures !limited ==> After1(|inodes| - 1)
    {
      hide Accounts, Front, Owned, OwnersOk, Marked, StatesOk, Total, Table, Excess, Reasons;
      owner := map[];
      pfunc := Pass1;
      Nothing();
      inum := 1;
      while inum < |inodes|
        invariant 1 <= inum <= |inodes| && After1(inum - 1) && pfunc == Pass1
        invariant Table(inodes) && !TooMuch(vol, inodes, inum - 1)
      {
        limited := Inode1();
        MoreInodes(vol, inodes, inum);
        if limited {
          MuchStays(vol, inodes, inum, |inodes| - 1);
          return;
        }
        inum := inum + 1;
      }
      return false;
    }

    lemma Nothing()
      requires Fresh() && owner == map[]
      ensures After1(0)
    {
      assert Marked(vol, blkmap) == {};
      assert multiset(duplist[..enddup]) == multiset{};
    }

    method Inode1() returns (limited: bool)
      requires 1 <= inum < |inodes| && After1(inum - 1) && pfunc == Pass1
      modifies `blkmap, `duplist, `enddup, `muldup, `state, `nBlks, `nFiles, `badblk, `dupblk, `lastino
      modifies `owner, `seen, `plan, `base
      ensures Table(inodes) && limited == Excess(vol, inodes, inum)
      ensures !limited ==> After1(inum)
    {
      hide Inv1, Inv1b, Inv4, After1, OnlyMarks, StatesOk, Total, Visit, Table, Accounts, Front, Owned, OwnersOk;
      hide Reasons, Marked, Kinds;
      After1Table(inum - 1);
      if Counted(inodes[inum]) {
        Open1();
        ghost var st := state;
        var ret := CkInode();
        PlanExcess(base, plan);
        if ret == STOP {
          return true;
        }
        Close1(st);
      } else {
        NotCounted(vol, inodes, inum);
        Pass1By();
      }
      return false;
    }

    lemma After1Table(n: int)
      requires After1(n)
      ensures Table(inodes)
    {
    }

    lemma PlanExcess(before: multiset<int>, visit: seq<int>)
      requires Table(inodes) && 1 <= inum < |inodes| && Counted(inodes[inum])
      ensures before == Total(vol, inodes, inum - 1) && visit == Visit(vol, inodes[inum]) ==>
        (Excess(vol, inodes, inum) <==> !Within(vol, before, visit, |visit|))
    {
    }

    /** An inode that claims nothing. */
    method Pass1By()
      requires 1 <= inum < |inodes| && After1(inum - 1) && !Counted(inodes[inum])
      modifies `lastino
      ensures After1(inum)
    {
      hide Accounts, Front, Owned, OwnersOk, Marked, StatesOk, Total, Table;
      KindsMore(inodes, state, inum, USTATE);
      Uncounted(vol, inodes, owner, state, inum, lastino, if inodes[inum].alloc then inum else lastino);
      if inodes[inum].alloc {
        lastino := inum;
      }
    }

    method Open1()
      requires 1 <= inum < |inodes| && After1(inum - 1) && Counted(inodes[inum])
      modifies `state, `nFiles, `badblk, `dupblk, `lastino, `seen, `plan, `base
      ensures Inv1() && Walking() && seen == [] && base == Total(vol, inodes, inum - 1) && lastino == inum
      ensures plan == Visit(vol, inodes[inum]) && nFiles == Files(inodes, inum) && Kinds(inodes, state, inum)
      ensures StatesOk(inodes, state, inum, inum)
    {
      hide Accounts, Front, Owned, OwnersOk, Claiming, Marked, StatesOk, Visit, Total, Keep, Table, WellFormed;
      hide Reasons, Counted, Kinds;
      InTable(inodes, inum);
      var st := if inodes[inum].dir then DSTATE else FSTATE;
      KindsMore(inodes, state, inum, st);
      Opened(vol, inodes, blkmap, duplist, muldup, enddup, state, owner, inum, lastino, st);
      Begin(st, Total(vol, inodes, inum - 1), Visit(vol, inodes[inum]));
    }

    /** The present inode is counted, and nothing of it was visited. */
    method Begin(st: int, ghost claimed: multiset<int>, ghost visit: seq<int>)
      requires 0 <= inum < |state|
      modifies `state, `nFiles, `badblk, `dupblk, `lastino, `seen, `plan, `base
      ensures lastino == inum && nFiles == old(nFiles) + 1 && state == old(state)[inum := st] && badblk == dupblk == 0
      ensures base == claimed && plan == visit && seen == []
    {
      lastino := inum;
      nFiles := nFiles + 1;
      state := state[inum := st];
      badblk, dupblk := 0, 0;
      base, plan, seen := claimed, visit, [];
    }

    lemma Close1(st: seq<int>)
      requires Inv1() && seen == plan && base == Total(vol, inodes, inum - 1) && lastino == inum
      requires nFiles == Files(inodes, inum) && Kinds(inodes, st, inum)
      requires StatesOk(inodes, st, inum, inum) && OnlyMarks(st, state, inum)
      ensures After1(inum) && Within(vol, base, plan, |plan|)
    {
      hide Accounts, Front, SeenOwned, Marked, StatesOk, Visit, Total, OnlyMarks, Table, WellFormed, Within, Kinds;
      EndVisit(vol, inodes, owner, st, state, inum, seen);
      KindsMarked(inodes, st, state, inum, inum);
    }

    // ----- Phase 1b -----

    /** What later phases rely on. */
    ghost predicate Settled()
      reads this
    {
      && Shape() && Accounts(vol, blkmap, duplist, enddup, Total(vol, inodes, |inodes| - 1))
      && StatesOk(inodes, state, |inodes| - 1, lastino) && nFiles == Files(inodes, |inodes| - 1)
    }

    /** Visits the inodes again to find those that claimed a duplicate block first. */
    method Phase1b()
      requires After1(|inodes| - 1)
      modifies `duplist, `muldup, `state, `badblk, `dupblk, `pfunc, `inum, `blkmap, `enddup, `nBlks, `owner
      modifies `seen, `plan, `base, `dups
      ensures Settled() && MarkedExactly(vol, inodes, state) && Kinds(inodes, state, |inodes| - 1)
    {
      hide Kinds, Hunting, Owned, OwnersOk, MarkedExactly, StatesOk, Marked, Total, Table, Accounts, Front, Pending;
      hide Reasons;
      DupBounds(duplist, muldup, enddup);
      LastBound(inodes, state, |inodes| - 1, lastino);
      base := Total(vol, inodes, |inodes| - 1);
      dups := Pending(duplist, muldup);
      pfunc := Pass1b;
      inum := 1;
      ghost var n := |inodes| - 1;
      HuntStart(vol, inodes, blkmap, duplist, muldup, enddup, base, state, owner);
      if enddup != 0 {
        var halted := false;
        while inum <= lastino && !halted
          invariant 1 <= inum <= lastino + 1 <= |inodes| && pfunc == Pass1b && Settled()
          invariant base == Total(vol, inodes, n) && Kinds(inodes, state, n)
          invariant halted ==> muldup == 0
          invariant Hunting(vol, inodes, blkmap, duplist, muldup, enddup, base, state, owner, dups, inum, [])
          invariant forall b :: base[b] >= 2 ==> b in dups
          decreases lastino - inum + (if halted then 0 else 1)
        {
          halted := Inode1b();
          if !halted {
            inum := inum + 1;
          }
        }
      }
      HuntEnd(vol, inodes, blkmap, duplist, muldup, enddup, base, state, owner, dups, inum, lastino);
    }

    method Inode1b() returns (halted: bool)
      requires 1 <= inum <= lastino < |inodes| && Settled() && pfunc == Pass1b
      requires base == Total(vol, inodes, |inodes| - 1) && Kinds(inodes, state, |inodes| - 1)
      requires Hunting(vol, inodes, blkmap, duplist, muldup, enddup, base, state, owner, dups, inum, [])
      modifies `duplist, `muldup, `state, `badblk, `dupblk, `blkmap, `enddup, `nBlks, `owner, `seen, `plan
      ensures Settled() && (halted ==> muldup == 0) && Kinds(inodes, state, |inodes| - 1)
      ensures Hunting(vol, inodes, blkmap, duplist, muldup, enddup, base, state, owner, dups,
                      if halted then inum else inum + 1, [])
    {
      hide Kinds, Hunting, StatesOk, Visit, VisitOf, Marked, Total, OnlyMarks, Table, WellFormed, Accounts, Inv1, Inv4;
      StateSet(inodes, state, |inodes| - 1, lastino, inum);
      InTable(inodes, inum);
      if state[inum] == USTATE {
        VisitNone(vol, inodes[inum]);
        HuntNext(vol, inodes, blkmap, duplist, muldup, enddup, base, state, owner, dups, inum, []);
        return false;
      }
      VisitAll(vol, inodes[inum]);
      plan, seen := Visit(vol, inodes[inum]), [];
      ghost var st := state;
      var ret := CkInode();
      StatesMarked(inodes, st, state, inum, |inodes| - 1, lastino);
      KindsMarked(inodes, st, state, inum, |inodes| - 1);
      HuntBase(vol, inodes, blkmap, duplist, muldup, enddup, base, state, owner, dups, inum, seen);
      if ret == STOP {
        return true;
      }
      HuntNext(vol, inodes, blkmap, duplist, muldup, enddup, base, state, owner, dups, inum, seen);
      return false;
    }

    // ----- Phase 4 -----

    /** Gives back the blocks of the present inode and clears it, if the answer is yes. */
    method Clri(reply: bool)
      requires Shape() && Accounts(vol, blkmap, duplist, enddup, Total(vol, inodes, |inodes| - 1))
      requires 1 <= inum < |inodes| && Counted(inodes[inum]) && nFiles == Files(inodes, |inodes| - 1)
      modifies `blkmap, `duplist, `enddup, `muldup, `state, `nBlks, `nFiles, `badblk, `dupblk, `pfunc, `inodes
      modifies `owner, `seen, `plan, `base
      ensures Shape() && Accounts(vol, blkmap, duplist, enddup, Total(vol, inodes, |inodes| - 1))
      ensures nFiles == Files(inodes, |inodes| - 1)
      ensures inodes == if reply then old(inodes)[inum := Zapped()] else old(inodes)
      ensures OnlyMarks(old(state), state, inum)
    {
      hide StatesOk, Marked, Total, Table, WellFormed, Accounts, Visit, Keep, Counted, Inv1, Inv1b;
      InTable(inodes, inum);
      if reply {
        nFiles := nFiles - 1;
        pfunc := Pass4;
        base, plan, seen := Total(vol, inodes, |inodes| - 1), Visit(vol, inodes[inum]), [];
        NothingKept(vol, base);
        PlanClaimed(vol, inodes, |inodes| - 1, inum);
        var _ := CkInode();
        TableZap(inodes, inum);
        AfterZap(vol, inodes, |inodes| - 1, inum);
        FilesZap(inodes, |inodes| - 1, inum);
        inodes := inodes[inum := Zapped()];
      }
    }

    /** Which inodes phase 4 clears: those marked, orphaned directories, and files without a link. */
    predicate Doomed(st: int, unref: bool, reply: bool) {
      reply && (st == CLEAR || st == DSTATE || (st == FSTATE && unref))
    }

    /** Files that turn out to have no link, and the answers to the questions, are given from outside. */
    method Phase4(unref: seq<bool>, reply: seq<bool>)
      requires Settled() && |unref| == |reply| == |state|
      modifies `blkmap, `duplist, `enddup, `muldup, `state, `nBlks, `nFiles, `badblk, `dupblk, `pfunc, `inum, `inodes
      modifies `owner, `seen, `plan, `base
      ensures Shape() && Accounts(vol, blkmap, duplist, enddup, Total(vol, inodes, |inodes| - 1))
      ensures |inodes| == old(|inodes|) && nFiles == Files(inodes, |inodes| - 1)
      ensures forall i :: 0 <= i < |inodes| ==>
        inodes[i] ==
        if ROOTINO <= i <= lastino && Doomed(old(state)[i], unref[i], reply[i]) then Zapped() else old(inodes)[i]
    {
      hide Files, StatesOk, Marked, Total, Table, Accounts, Counted, OnlyMarks;
      LastBound(inodes, state, |inodes| - 1, lastino);
      ghost var was, st := inodes, state;
      inum := ROOTINO;
      while inum <= lastino
        invariant ROOTINO <= inum && |inodes| == |was| && lastino == old(lastino)
        invariant Shape() && Accounts(vol, blkmap, duplist, enddup, Total(vol, inodes, |inodes| - 1))
        invariant nFiles == Files(inodes, |inodes| - 1)
        invariant forall j :: inum <= j < |inodes| ==> inodes[j] == was[j] && state[j] == st[j]
        invariant forall i :: 0 <= i < inum && i < |inodes| ==>
          inodes[i] == if ROOTINO <= i <= lastino && Doomed(st[i], unref[i], reply[i]) then Zapped() else was[i]
      {
        var s := state[inum];
        if (s == FSTATE && unref[inum]) || s == DSTATE || s == CLEAR {
          StateSet(was, st, |was| - 1, lastino, inum);
          ghost var before := state;
          Clri(reply[inum]);
          MarksElsewhere(before, state, inum);
        }
        inum := inum + 1;
      }
    }

    // ----- The whole check -----

    constructor (volume: Volume, table: seq<Inode>)
      requires Table(table) && |table| >= 1 && 0 <= volume.fmin <= volume.fmax
      ensures vol == volume && inodes == table && Fresh()
    {
      vol := volume;
      inodes := table;
      blkmap := seq(volume.fmax, i => false);
      duplist := seq(DUPTBLSIZE, i => 0);
      enddup, muldup, nBlks, lastino, nFiles, badblk, dupblk, inum := 0, 0, 0, 0, 0, 0, 0, 1;
      state := seq(|table|, i => USTATE);
      pfunc := Pass1;
      owner, plan, seen, base, dups := map[], [], [], multiset{}, {};
    }

    /**
     Phases 1, 1b and 4. What phases 2 and 3 make of the states is given as between. The accounts hold at
     the end whatever the answers were; the survivors share no block if every marked inode was cleared.
     */
    method Check(between: seq<int>, unref: seq<bool>, reply: seq<bool>) returns (limited: bool, marked: seq<int>)
      requires Fresh() && |between| == |unref| == |reply| == |inodes|
      requires forall i :: 1 <= i < |inodes| ==> (between[i] != USTATE <==> Counted(inodes[i]))
      modifies this
      ensures Table(old(inodes)) && limited == TooMuch(vol, old(inodes), |old(inodes)| - 1)
      ensures !limited ==> MarkedExactly(vol, old(inodes), marked) && Kinds(old(inodes), marked, |old(inodes)| - 1)
      ensures !limited ==> Shape() && Cleared(old(inodes), inodes) && nFiles == Files(inodes, |inodes| - 1)
      ensures !limited ==> Accounts(vol, blkmap, duplist, enddup, Total(vol, inodes, |inodes| - 1))
      ensures !limited ==>
        (forall i :: 1 <= i < |marked| && marked[i] == CLEAR ==>
           i >= ROOTINO && Doomed(between[i], unref[i], reply[i])) ==>
        enddup == 0 && Total(vol, inodes, |inodes| - 1) == multiset(Marked(vol, blkmap))
    {
      hide MarkedExactly, Accounts, StatesOk, Total, Marked, Table, Front, Owned, OwnersOk, Reasons, Counted, Kinds;
      ghost var before := inodes;
      marked := state;
      limited := Phase1();
      if limited {
        return;
      }
      Phase1b();
      marked := state;
      StatesSame(inodes, state, between, |inodes| - 1, lastino);
      StatesLow(inodes, state, |inodes| - 1, lastino);
      state := between;
      Phase4(unref, reply);
      ZappedUncounted();
      if forall i :: 1 <= i < |marked| && marked[i] == CLEAR ==> !Counted(inodes[i]) {
        NoSharing(vol, before, inodes, marked, blkmap, duplist, enddup);
      }
    }
  }

  lemma NotCounted(vol: Volume, inodes: seq<Inode>, i: int)
    requires Table(inodes) && 1 <= i < |inodes| && !Counted(inodes[i])
    ensures !Excess(vol, inodes, i)
  {
  }

  lemma MoreInodes(vol: Volume, inodes: seq<Inode>, i: int)
    requires Table(inodes) && 1 <= i < |inodes|
    ensures TooMuch(vol, inodes, i) <==> TooMuch(vol, inodes, i - 1) || Excess(vol, inodes, i)
  {
    hide Excess;
  }

  lemma MuchStays(vol: Volume, inodes: seq<Inode>, i: int, n: int)
    requires Table(inodes) && 1 <= i <= n < |inodes| && TooMuch(vol, inodes, i)
    ensures TooMuch(vol, inodes, n)
  {
    hide Excess;
  }

  /** A block of the plan that is yet to come has a claim left. */
  lemma StillClaimed(vol: Volume, base: multiset<int>, seen: seq<int>, plan: seq<int>, b: int)
    requires seen + [b] <= plan && Keep(vol, plan) <= base && vol.InRange(b)
    ensures (base - Keep(vol, seen))[b] >= 1
  {
    KeepSnoc(vol, seen, b);
    KeepPrefix(vol, seen + [b], plan);
    assert Keep(vol, seen + [b])[b] >= 1;
  }

  /** Phase 1 before inode cur visits what comes after seen. */
  ghost predicate Claiming(vol: Volume, inodes: seq<Inode>, blkmap: seq<bool>, dup: seq<int>, mul: int, end: int,
                           base: multiset<int>, state: seq<int>, owner: map<int, int>, cur: int, seen: seq<int>)
    requires Table(inodes) && 1 <= cur < |inodes| && |state| == |inodes| && 0 <= vol.fmin && vol.fmax <= |blkmap|
  {
    && Accounts(vol, blkmap, dup, end, base + Keep(vol, seen))
    && Front(dup, mul, end) && owner.Keys == Marked(vol, blkmap)
    && Owned(vol, inodes, owner, state, cur - 1) && OwnersOk(vol, inodes, owner, cur - 1, cur, seen)
    && SeenOwned(vol, owner, state[cur], cur, seen)
    && base == Total(vol, inodes, cur - 1) && Reasons(vol, inodes, state)
  }

  lemma Opened(vol: Volume, inodes: seq<Inode>, blkmap: seq<bool>, dup: seq<int>, mul: int, end: int,
               state: seq<int>, owner: map<int, int>, cur: int, last: int, st: int)
    requires Table(inodes) && 1 <= cur < |inodes| && |state| == |inodes| && 0 <= vol.fmin && vol.fmax <= |blkmap|
    requires Accounts(vol, blkmap, dup, end, Total(vol, inodes, cur - 1)) && Front(dup, mul, end)
    requires owner.Keys == Marked(vol, blkmap)
    requires Owned(vol, inodes, owner, state, cur - 1) && OwnersOk(vol, inodes, owner, cur - 1, cur, [])
    requires StatesOk(inodes, state, cur - 1, last) && Reasons(vol, inodes, state) && Counted(inodes[cur])
    requires st != USTATE && st != CLEAR
    ensures Claiming(vol, inodes, blkmap, dup, mul, end, Total(vol, inodes, cur - 1), state[cur := st], owner, cur, [])
    ensures StatesOk(inodes, state[cur := st], cur, cur)
  {
    hide Accounts, Front, Owned, OwnersOk, SeenOwned, Marked, StatesOk, Total, Keep, Table, Reasons, Counted;
    StartVisit(vol, inodes, owner, state, cur, last, st);
    ReasonsSet(vol, inodes, state, cur, st);
  }

  /** Phase 1b before inode cur visits what comes after seen. */
  ghost predicate Hunting(vol: Volume, inodes: seq<Inode>, blkmap: seq<bool>, dup: seq<int>, mul: int, end: int,
                          base: multiset<int>, state: seq<int>, owner: map<int, int>, dups: set<int>,
                          cur: int, seen: seq<int>)
    requires Table(inodes)
  {
    && Accounts(vol, blkmap, dup, end, base) && Distinct(dup, mul) && 0 <= mul <= end
    && |inodes| >= 1 && base == Total(vol, inodes, |inodes| - 1) && Reasons(vol, inodes, state)
    && Owned(vol, inodes, owner, state, |inodes| - 1) && OwnersOk(vol, inodes, owner, |inodes| - 1, |inodes|, [])
    && Past(vol, inodes, Pending(dup, mul), cur - 1) && Unseen(Pending(dup, mul), seen)
    && Sought(owner, state, Pending(dup, mul), dups)
  }

  lemma Struck(vol: Volume, inodes: seq<Inode>, blkmap: seq<bool>, dup: seq<int>, mul: int, end: int,
               base: multiset<int>, state: seq<int>, owner: map<int, int>, dups: set<int>,
               cur: int, seen: seq<int>, k: int)
    requires Table(inodes) && Hunting(vol, inodes, blkmap, dup, mul, end, base, state, owner, dups, cur, seen)
    requires 0 <= k < mul <= |dup| && 1 <= cur < |inodes| && dup[k] in VisitOf(vol, inodes[cur]) && vol.InRange(dup[k])
    requires |state| == |inodes|
    ensures Hunting(vol, inodes, blkmap, Swapped(dup, k, mul - 1), mul - 1, end, base, state[cur := CLEAR], owner, dups,
                    cur, seen + [dup[k]])
  {
    hide Accounts, Distinct, Owned, OwnersOk, Past, Sought, Unseen, Pending, VisitOf, Table, Reasons, Total;
    var b, pending := dup[k], Pending(dup, mul);
    InPending(dup, mul, k);
    PendingOwner(vol, inodes, owner, state, |inodes| - 1, cur, pending, b);
    Found(vol, blkmap, dup, mul, end, base, k);
    FoundMark(vol, inodes, owner, state, pending, dups, cur, seen, b);
    OwnedMarked(vol, inodes, owner, state, |inodes| - 1, cur);
    Counts(vol, blkmap, dup, end, base, b);
    EntryInTable(vol, blkmap, dup, end, base, k);
    MarkReason(vol, inodes, state, cur, b);
  }

  lemma Unstruck(vol: Volume, inodes: seq<Inode>, blkmap: seq<bool>, dup: seq<int>, mul: int, end: int,
                 base: multiset<int>, state: seq<int>, owner: map<int, int>, dups: set<int>,
                 cur: int, seen: seq<int>, b: int)
    requires Table(inodes) && Hunting(vol, inodes, blkmap, dup, mul, end, base, state, owner, dups, cur, seen)
    requires 0 <= mul <= |dup|
    requires vol.InRange(b) ==> forall k :: 0 <= k < mul ==> dup[k] != b
    ensures Hunting(vol, inodes, blkmap, dup, mul, end, base, state, owner, dups, cur, seen + [b])
  {
    hide Distinct, Owned, OwnersOk, Past, Sought, Table, Reasons, Total;
    PendingInRange(vol, blkmap, dup, mul, end, base);
    NotPending(dup, mul, b);
    UnseenMore(Pending(dup, mul), seen, b);
  }

  /** Of all states only that of inode i may have changed, and only to CLEAR. */
  ghost predicate OnlyMarks(a: seq<int>, b: seq<int>, i: int) {
    |a| == |b| && forall j :: 0 <= j < |a| ==> b[j] == a[j] || (j == i && b[j] == CLEAR)
  }

  ghost predicate Unseen(pending: set<int>, seen: seq<int>) {
    forall b :: b in seen ==> b !in pending
  }

  // ----- Why an inode is marked -----

  /** Inode i visits a block that is out of range, or one that has another claim. */
  ghost predicate Guilty(vol: Volume, inodes: seq<Inode>, i: int)
    requires Table(inodes) && 1 <= i < |inodes|
  {
    exists b :: b in VisitOf(vol, inodes[i]) && (!vol.InRange(b) || Total(vol, inodes, |inodes| - 1)[b] >= 2)
  }

  ghost predicate Reasons(vol: Volume, inodes: seq<Inode>, state: seq<int>)
    requires Table(inodes)
  {
    |state| == |inodes| && forall i :: 1 <= i < |inodes| && state[i] == CLEAR ==> Guilty(vol, inodes, i)
  }

  /** The marked inodes are the guilty ones. */
  ghost predicate MarkedExactly(vol: Volume, inodes: seq<Inode>, state: seq<int>)
    requires Table(inodes)
  {
    |state| == |inodes| && forall i :: 1 <= i < |inodes| ==> (state[i] == CLEAR <==> Guilty(vol, inodes, i))
  }

  lemma MarkedBoth(vol: Volume, inodes: seq<Inode>, state: seq<int>)
    requires Table(inodes) && |inodes| >= 1 && Reasons(vol, inodes, state)
    requires AllMarked(vol, inodes, state, |inodes| - 1) && BadMarked(vol, inodes, state, |inodes| - 1)
    ensures MarkedExactly(vol, inodes, state)
  {
    hide Total;
    forall i | 1 <= i < |inodes| && Guilty(vol, inodes, i) ensures state[i] == CLEAR {
      var b :| b in VisitOf(vol, inodes[i]) && (!vol.InRange(b) || Total(vol, inodes, |inodes| - 1)[b] >= 2);
      ClaimsOfVisit(vol, inodes[i], b);
    }
  }

  lemma ReasonsSet(vol: Volume, inodes: seq<Inode>, state: seq<int>, i: int, st: int)
    requires Table(inodes) && Reasons(vol, inodes, state) && 1 <= i < |inodes|
    requires (st != CLEAR || Guilty(vol, inodes, i))
    ensures Reasons(vol, inodes, state[i := st])
  {
  }

  lemma MarkReason(vol: Volume, inodes: seq<Inode>, state: seq<int>, i: int, b: int)
    requires Table(inodes) && Reasons(vol, inodes, state) && 1 <= i < |inodes| && b in VisitOf(vol, inodes[i])
    requires !vol.InRange(b) || Total(vol, inodes, |inodes| - 1)[b] >= 2
    ensures Reasons(vol, inodes, state[i := CLEAR])
  {
    ReasonsSet(vol, inodes, state, i, CLEAR);
  }

  lemma BadReason(vol: Volume, inodes: seq<Inode>, state: seq<int>, i: int, seen: seq<int>, plan: seq<int>, b: int)
    requires Table(inodes) && Reasons(vol, inodes, state) && 1 <= i < |inodes| && Counted(inodes[i])
    requires plan == Visit(vol, inodes[i])
    requires seen + [b] <= plan && !vol.InRange(b)
    ensures Reasons(vol, inodes, state[i := CLEAR])
  {
    NextInPlan(seen, b, plan);
    MarkReason(vol, inodes, state, i, b);
  }

  lemma {:induction false} TotalMono(vol: Volume, inodes: seq<Inode>, n: nat, m: nat, b: int)
    requires Table(inodes) && n <= m < |inodes|
    ensures Total(vol, inodes, n)[b] <= Total(vol, inodes, m)[b]
  {
    hide Claims;
    if n < m {
      TotalMono(vol, inodes, n, m - 1, b);
    }
  }

  /** A block whose bit is set already has a claim besides this one. */
  lemma DupReason(vol: Volume, inodes: seq<Inode>, state: seq<int>, blkmap: seq<bool>, dup: seq<int>, end: int,
                  i: int, seen: seq<int>, plan: seq<int>, b: int)
    requires Table(inodes) && Reasons(vol, inodes, state) && 1 <= i < |inodes| && Counted(inodes[i])
    requires plan == Visit(vol, inodes[i])
    requires seen + [b] <= plan && vol.InRange(b)
    requires Accounts(vol, blkmap, dup, end, Total(vol, inodes, i - 1) + Keep(vol, seen)) && b in Marked(vol, blkmap)
    ensures Reasons(vol, inodes, state[i := CLEAR])
  {
    hide Accounts, Reasons, Total, Keep, Marked, Visit;
    NextInPlan(seen, b, plan);
    VisitAll(vol, inodes[i]);
    Counts(vol, blkmap, dup, end, Total(vol, inodes, i - 1) + Keep(vol, seen), b);
    OneMoreClaim(vol, seen, plan, b);
    LastTotal(vol, inodes, i);
    AtLeastTwo(Total(vol, inodes, i - 1), Keep(vol, seen), Keep(vol, plan), b);
    TotalMono(vol, inodes, i, |inodes| - 1, b);
    MarkReason(vol, inodes, state, i, b);
  }

  lemma OneMoreClaim(vol: Volume, seen: seq<int>, plan: seq<int>, b: int)
    requires seen + [b] <= plan && vol.InRange(b)
    ensures Keep(vol, seen)[b] + 1 <= Keep(vol, plan)[b]
  {
    KeepSnoc(vol, seen, b);
    KeepPrefix(vol, seen + [b], plan);
    assert Keep(vol, seen + [b])[b] == Keep(vol, seen)[b] + 1;
  }

  lemma LastTotal(vol: Volume, inodes: seq<Inode>, i: nat)
    requires Table(inodes) && 1 <= i < |inodes| && Counted(inodes[i])
    ensures Total(vol, inodes, i) == Total(vol, inodes, i - 1) + Keep(vol, Visit(vol, inodes[i]))
  {
  }

  lemma AtLeastTwo(a: multiset<int>, k: multiset<int>, p: multiset<int>, b: int)
    requires (a + k)[b] >= 1 && k[b] + 1 <= p[b]
    ensures (a + p)[b] >= 2
  {
  }

  lemma EntryInTable(vol: Volume, blkmap: seq<bool>, dup: seq<int>, end: int, base: multiset<int>, k: int)
    requires Accounts(vol, blkmap, dup, end, base) && 0 <= k < end
    ensures end <= |dup| && dup[k] in dup[..end]
  {
    assert dup[..end][k] == dup[k];
  }

  lemma BitOfMap(vol: Volume, blkmap: seq<bool>, b: int)
    requires 0 <= vol.fmin && vol.fmax <= |blkmap| && vol.InRange(b)
    ensures blkmap[b] <==> b in Marked(vol, blkmap)
  {
  }

  lemma PendingInRange(vol: Volume, blkmap: seq<bool>, dup: seq<int>, mul: int, end: int, c: multiset<int>)
    requires Accounts(vol, blkmap, dup, end, c) && 0 <= mul <= end
    ensures forall b :: b in Pending(dup, mul) ==> vol.InRange(b)
  {
  }

  /** Marking the owner of a block and striking it off the pending ones. */
  lemma FoundMark(vol: Volume, inodes: seq<Inode>, owner: map<int, int>, state: seq<int>, pending: set<int>,
                  dups: set<int>,
                  i: int, seen: seq<int>, b: int)
    requires Table(inodes) && Sought(owner, state, pending, dups) && Past(vol, inodes, pending, i - 1)
    requires Unseen(pending, seen)
    requires b in owner && owner[b] == i && 0 <= i < |state|
    ensures Sought(owner, state[i := CLEAR], pending - {b}, dups) && Past(vol, inodes, pending - {b}, i - 1)
    ensures Unseen(pending - {b}, seen + [b])
  {
  }

  lemma UnseenMore(pending: set<int>, seen: seq<int>, b: int)
    requires Unseen(pending, seen) && b !in pending
    ensures Unseen(pending, seen + [b])
  {
  }

  lemma NotPending(dup: seq<int>, mul: int, b: int)
    requires 0 <= mul <= |dup|
    requires forall k :: 0 <= k < mul ==> dup[k] != b
    ensures b !in Pending(dup, mul)
  {
  }

  lemma NoneMore(c: multiset<int>)
    ensures c + multiset{} == c
  {
  }

  lemma NoneLess(c: multiset<int>)
    ensures c - multiset{} == c
  {
  }

  lemma NextInPlan(seen: seq<int>, b: int, plan: seq<int>)
    requires seen + [b] <= plan
    ensures b in plan
  {
    assert plan[|seen|] == (seen + [b])[|seen|];
  }

  lemma InPending(dup: seq<int>, mul: int, k: int)
    requires 0 <= k < mul <= |dup|
    ensures dup[k] in Pending(dup, mul)
  {
  }

  // ----- The plan comes in the order of the visit -----

  lemma PlanHead(seen: seq<int>, b: int, visit: seq<int>, plan: seq<int>)
    requires visit != [] && visit[0] == b && seen + visit <= plan
    ensures seen + [b] <= plan
  {
    assert forall i :: 0 <= i < |seen| + 1 ==> (seen + [b])[i] == (seen + visit)[i] == plan[i];
  }

  lemma {:induction false} ListPrefix(vol: Volume, s: seq<int>, k: nat, n: nat, level: nat)
    requires k <= n <= |s|
    ensures VisitList(vol, s, k, level) <= VisitList(vol, s, n, level)
    decreases n
  {
    if k < n {
      ListPrefix(vol, s, k, n - 1, level);
    }
  }

  lemma PlanList(vol: Volume, before: seq<int>, s: seq<int>, k: nat, level: nat, plan: seq<int>)
    requires k < |s| && before + VisitList(vol, s, |s|, level) <= plan
    ensures before + VisitList(vol, s, k, level) + VisitEntry(vol, s[k], level) <= plan
  {
    ListPrefix(vol, s, k + 1, |s|, level);
    var a, b := VisitList(vol, s, k + 1, level), VisitList(vol, s, |s|, level);
    assert a == VisitList(vol, s, k, level) + VisitEntry(vol, s[k], level);
    assert before + a == before + VisitList(vol, s, k, level) + VisitEntry(vol, s[k], level);
    assert before + a <= before + b by {
      assert before + b == before + a + b[|a|..];
    }
  }

  lemma {:induction false} AddrPrefix(vol: Volume, s: seq<int>, k: nat, n: nat)
    requires k <= n <= |s|
    ensures VisitAddr(vol, s, k) <= VisitAddr(vol, s, n)
    decreases n
  {
    if k < n {
      AddrPrefix(vol, s, k, n - 1);
    }
  }

  lemma PlanAddr(vol: Volume, s: seq<int>, k: nat)
    requires k < NADDR == |s|
    ensures VisitAddr(vol, s, k) + VisitEntry(vol, s[k], Level(k)) <= VisitAddr(vol, s, NADDR)
  {
    AddrPrefix(vol, s, k + 1, NADDR);
  }

  // ----- From one inode to the next -----

  /** A state is recorded for just the counted inodes up to n, and lastino is not below any of them. */
  ghost predicate StatesOk(inodes: seq<Inode>, state: seq<int>, n: int, last: int) {
    && |state| == |inodes| && 0 <= last < |inodes|
    && forall j :: 1 <= j < |inodes| ==> StateOk(inodes[j], state[j], j, n, last)
  }

  ghost predicate StateOk(ip: Inode, st: int, j: int, n: int, last: int) {
    (st != USTATE <==> j <= n && Counted(ip)) && (j <= n && Counted(ip) ==> j <= last)
  }

  /** What is recorded for a counted inode is its kind, unless it is marked. */
  ghost predicate Kinds(inodes: seq<Inode>, state: seq<int>, n: int) {
    |state| == |inodes| && forall j :: 1 <= j <= n && j < |inodes| && Counted(inodes[j]) ==> KindOk(inodes[j], state[j])
  }

  predicate KindOk(ip: Inode, st: int) {
    st == CLEAR || st == if ip.dir then DSTATE else FSTATE
  }

  lemma KindsMore(inodes: seq<Inode>, state: seq<int>, i: int, st: int)
    requires Kinds(inodes, state, i - 1) && 1 <= i < |inodes|
    ensures Counted(inodes[i]) && KindOk(inodes[i], st) ==> Kinds(inodes, state[i := st], i)
    ensures !Counted(inodes[i]) ==> Kinds(inodes, state, i)
  {
    hide KindOk;
  }

  lemma KindsMarked(inodes: seq<Inode>, a: seq<int>, b: seq<int>, i: int, n: int)
    requires Kinds(inodes, a, n) && OnlyMarks(a, b, i)
    ensures Kinds(inodes, b, n)
  {
    forall j | 1 <= j <= n && j < |inodes| && Counted(inodes[j]) ensures KindOk(inodes[j], b[j]) {
      assert KindOk(inodes[j], a[j]);
    }
  }

  lemma Uncounted(vol: Volume, inodes: seq<Inode>, owner: map<int, int>, state: seq<int>, i: int, last: int, last': int)
    requires Table(inodes) && 1 <= i < |inodes| && !Counted(inodes[i]) && last' == (if inodes[i].alloc then i else last)
    requires Owned(vol, inodes, owner, state, i - 1) && OwnersOk(vol, inodes, owner, i - 1, i, [])
    requires StatesOk(inodes, state, i - 1, last)
    ensures Owned(vol, inodes, owner, state, i) && OwnersOk(vol, inodes, owner, i, i + 1, [])
    ensures StatesOk(inodes, state, i, last')
    ensures Total(vol, inodes, i) == Total(vol, inodes, i - 1)
  {
    forall b | b in owner ensures OwnerSaw(vol, inodes, i, i + 1, [], b, owner[b]) {
      assert OwnerSaw(vol, inodes, i - 1, i, [], b, owner[b]);
    }
    forall j | 1 <= j < |inodes| ensures StateOk(inodes[j], state[j], j, i, last') {
      assert StateOk(inodes[j], state[j], j, i - 1, last);
    }
  }

  lemma StartVisit(vol: Volume, inodes: seq<Inode>, owner: map<int, int>, state: seq<int>, i: int, last: int, st: int)
    requires Table(inodes) && 1 <= i < |inodes| && Counted(inodes[i]) && st != USTATE
    requires Owned(vol, inodes, owner, state, i - 1) && StatesOk(inodes, state, i - 1, last)
    ensures Owned(vol, inodes, owner, state[i := st], i - 1) && StatesOk(inodes, state[i := st], i, i)
    ensures SeenOwned(vol, owner, st, i, [])
    ensures Total(vol, inodes, i - 1) + Keep(vol, []) == Total(vol, inodes, i - 1)
  {
    forall j | 1 <= j <= i - 1 ensures SeenOwned(vol, owner, state[i := st][j], j, VisitOf(vol, inodes[j])) {
      assert SeenOwned(vol, owner, state[j], j, VisitOf(vol, inodes[j]));
    }
    forall j | 1 <= j < |inodes| ensures StateOk(inodes[j], state[i := st][j], j, i, i) {
      assert StateOk(inodes[j], state[j], j, i - 1, last);
    }
  }

  lemma StatesMarked(inodes: seq<Inode>, a: seq<int>, b: seq<int>, i: int, n: int, last: int)
    requires StatesOk(inodes, a, n, last) && OnlyMarks(a, b, i) && 0 <= i < |a| && a[i] != USTATE
    ensures StatesOk(inodes, b, n, last)
  {
    forall j | 1 <= j < |inodes| ensures StateOk(inodes[j], b[j], j, n, last) {
      assert StateOk(inodes[j], a[j], j, n, last);
    }
  }

  lemma EndVisit(vol: Volume, inodes: seq<Inode>, owner: map<int, int>, st: seq<int>, state: seq<int>, i: int,
                 seen: seq<int>)
    requires Table(inodes) && 1 <= i < |inodes| && Counted(inodes[i]) && seen == Visit(vol, inodes[i])
    requires StatesOk(inodes, st, i, i) && OnlyMarks(st, state, i)
    requires Owned(vol, inodes, owner, state, i - 1) && OwnersOk(vol, inodes, owner, i - 1, i, seen)
    requires SeenOwned(vol, owner, state[i], i, seen)
    ensures Owned(vol, inodes, owner, state, i) && OwnersOk(vol, inodes, owner, i, i + 1, [])
    ensures StatesOk(inodes, state, i, i)
    ensures Total(vol, inodes, i) == Total(vol, inodes, i - 1) + Keep(vol, seen)
  {
    assert StateOk(inodes[i], st[i], i, i, i);
    StatesMarked(inodes, st, state, i, i, i);
    OwnDone(vol, inodes, owner, state, i, seen);
  }

  lemma InTable(inodes: seq<Inode>, i: int)
    requires Table(inodes) && 0 <= i < |inodes|
    ensures WellFormed(inodes[i])
  {
  }

  // ----- Phase 1b from beginning to end -----

  lemma StateSet(inodes: seq<Inode>, state: seq<int>, n: int, last: int, i: int)
    requires StatesOk(inodes, state, n, last) && 1 <= i <= n < |inodes|
    ensures state[i] != USTATE <==> Counted(inodes[i])
    ensures Counted(inodes[i]) ==> i <= last
  {
    assert StateOk(inodes[i], state[i], i, n, last);
  }

  lemma VisitNone(vol: Volume, ip: Inode)
    requires WellFormed(ip) && !Counted(ip)
    ensures VisitOf(vol, ip) == []
  {
  }

  lemma VisitAll(vol: Volume, ip: Inode)
    requires WellFormed(ip) && Counted(ip)
    ensures VisitOf(vol, ip) == Visit(vol, ip)
  {
  }

  lemma HuntStart(vol: Volume, inodes: seq<Inode>, blkmap: seq<bool>, dup: seq<int>, mul: int, end: int,
                  base: multiset<int>, state: seq<int>, owner: map<int, int>)
    requires Table(inodes) && |inodes| >= 1 && base == Total(vol, inodes, |inodes| - 1) && Reasons(vol, inodes, state)
    requires Accounts(vol, blkmap, dup, end, base) && Front(dup, mul, end)
    requires owner.Keys == Marked(vol, blkmap) && Owned(vol, inodes, owner, state, |inodes| - 1)
    requires OwnersOk(vol, inodes, owner, |inodes| - 1, |inodes|, [])
    ensures Hunting(vol, inodes, blkmap, dup, mul, end, base, state, owner, Pending(dup, mul), 1, [])
    ensures forall b :: base[b] >= 2 ==> b in Pending(dup, mul)
    ensures end == 0 ==> mul == 0
  {
    forall b | base[b] >= 2 ensures b in Pending(dup, mul) {
      Counts(vol, blkmap, dup, end, base, b);
      var k :| 0 <= k < end && dup[k] == b;
      if k >= mul {
        assert dup[k] in dup[..mul];
      }
    }
    forall b | b in Pending(dup, mul) ensures b in owner && 0 <= owner[b] < |state| {
      assert b in Marked(vol, blkmap);
      assert OwnerSaw(vol, inodes, |inodes| - 1, |inodes|, [], b, owner[b]);
    }
  }

  lemma HuntBase(vol: Volume, inodes: seq<Inode>, blkmap: seq<bool>, dup: seq<int>, mul: int, end: int,
                 base: multiset<int>, state: seq<int>, owner: map<int, int>, dups: set<int>, cur: int, seen: seq<int>)
    requires Table(inodes) && Hunting(vol, inodes, blkmap, dup, mul, end, base, state, owner, dups, cur, seen)
    ensures Accounts(vol, blkmap, dup, end, base)
    ensures Hunting(vol, inodes, blkmap, dup, mul, end, base, state, owner, dups, cur, [])
  {
  }

  lemma HuntNext(vol: Volume, inodes: seq<Inode>, blkmap: seq<bool>, dup: seq<int>, mul: int, end: int,
                 base: multiset<int>, state: seq<int>, owner: map<int, int>, dups: set<int>, cur: int, seen: seq<int>)
    requires Table(inodes) && 1 <= cur < |inodes| && seen == VisitOf(vol, inodes[cur])
    requires Hunting(vol, inodes, blkmap, dup, mul, end, base, state, owner, dups, cur, seen)
    ensures Hunting(vol, inodes, blkmap, dup, mul, end, base, state, owner, dups, cur + 1, [])
  {
    hide Accounts, Owned, OwnersOk, Sought, Pending, VisitOf;
    var pending := Pending(dup, mul);
    forall j, b | 1 <= j <= cur && b in VisitOf(vol, inodes[j]) ensures b !in pending {
      assert j < cur || b in seen;
    }
  }

  lemma OwnerVisit(vol: Volume, inodes: seq<Inode>, owner: map<int, int>, state: seq<int>, last: int, b: int)
    requires Table(inodes) && OwnersOk(vol, inodes, owner, |inodes| - 1, |inodes|, []) && b in owner
    requires StatesOk(inodes, state, |inodes| - 1, last)
    ensures 1 <= owner[b] <= last && b in VisitOf(vol, inodes[owner[b]])
  {
    assert OwnerSaw(vol, inodes, |inodes| - 1, |inodes|, [], b, owner[b]);
    StateSet(inodes, state, |inodes| - 1, last, owner[b]);
  }

  /** Nothing is pending any more. */
  lemma HuntEnd(vol: Volume, inodes: seq<Inode>, blkmap: seq<bool>, dup: seq<int>, mul: int, end: int,
                base: multiset<int>, state: seq<int>, owner: map<int, int>, dups: set<int>, cur: int, last: int)
    requires Table(inodes) && |inodes| >= 1
    requires Hunting(vol, inodes, blkmap, dup, mul, end, base, state, owner, dups, cur, [])
    requires StatesOk(inodes, state, |inodes| - 1, last) && (mul == 0 || cur == last + 1)
    requires base == Total(vol, inodes, |inodes| - 1) && forall b :: base[b] >= 2 ==> b in dups
    ensures MarkedExactly(vol, inodes, state)
  {
    hide Accounts, Owned, Total, Visit, AllMarked, BadMarked, Reasons;
    var n, pending := |inodes| - 1, Pending(dup, mul);
    forall b ensures b !in pending {
      if b in owner {
        OwnerVisit(vol, inodes, owner, state, last, b);
      }
    }
    Marked1b(vol, inodes, owner, state, n, pending, dups);
    BadMarkedOwned(vol, inodes, owner, state, n);
    MarkedBoth(vol, inodes, state);
  }

  lemma TableSize(vol: Volume, blkmap: seq<bool>, dup: seq<int>, end: int, c: multiset<int>)
    requires Accounts(vol, blkmap, dup, end, c)
    ensures |dup| == DUPTBLSIZE && 0 <= end <= DUPTBLSIZE
  {
  }

  lemma DupBounds(dup: seq<int>, mul: int, end: int)
    requires Front(dup, mul, end)
    ensures 0 <= mul <= end <= |dup|
  {
  }

  lemma LastBound(inodes: seq<Inode>, state: seq<int>, n: int, last: int)
    requires StatesOk(inodes, state, n, last)
    ensures 0 <= last < |inodes|
  {
  }

  // ----- Clearing -----

  lemma NothingKept(vol: Volume, base: multiset<int>)
    ensures base - Keep(vol, []) == base
  {
  }

  lemma PlanClaimed(vol: Volume, inodes: seq<Inode>, n: nat, i: nat)
    requires Table(inodes) && 1 <= i <= n < |inodes| && Counted(inodes[i])
    ensures Keep(vol, Visit(vol, inodes[i])) <= Total(vol, inodes, n)
  {
    forall b ensures Keep(vol, Visit(vol, inodes[i]))[b] <= Total(vol, inodes, n)[b] {
      ClaimCounts(vol, inodes, n, i, b);
    }
  }

  lemma MarksElsewhere(a: seq<int>, b: seq<int>, i: int)
    requires OnlyMarks(a, b, i)
    ensures |a| == |b| && forall j :: i < j < |a| && 0 <= j ==> b[j] == a[j]
  {
  }

  lemma TableZap(inodes: seq<Inode>, i: int)
    requires Table(inodes) && 0 <= i < |inodes|
    ensures Table(inodes[i := Zapped()])
  {
  }

  lemma AfterZap(vol: Volume, inodes: seq<Inode>, n: nat, i: nat)
    requires Table(inodes) && 1 <= i <= n < |inodes| && Table(inodes[i := Zapped()]) && Counted(inodes[i])
    ensures Total(vol, inodes, n) - Keep(vol, Visit(vol, inodes[i])) == Total(vol, inodes[i := Zapped()], n)
  {
    TotalZap(vol, inodes, n, i);
  }

  // ----- What the phases together achieve -----

  lemma StatesSame(inodes: seq<Inode>, a: seq<int>, b: seq<int>, n: int, last: int)
    requires StatesOk(inodes, a, n, last) && |a| == |b| && n == |inodes| - 1
    requires forall i :: 1 <= i < |inodes| ==> (b[i] != USTATE <==> Counted(inodes[i]))
    ensures StatesOk(inodes, b, n, last)
  {
    forall j | 1 <= j < |inodes| ensures StateOk(inodes[j], b[j], j, n, last) {
      assert StateOk(inodes[j], a[j], j, n, last);
    }
  }

  lemma ZappedUncounted()
    ensures !Counted(Zapped())
  {
  }

  lemma ClaimantCounted(vol: Volume, ip: Inode, b: int)
    requires WellFormed(ip) && b in Claims(vol, ip)
    ensures Counted(ip)
  {
  }

  lemma StatesLow(inodes: seq<Inode>, state: seq<int>, n: int, last: int)
    requires StatesOk(inodes, state, n, last)
    ensures |state| == |inodes| && forall i :: 1 <= i < |state| && state[i] == CLEAR ==> i <= last
  {
    forall i | 1 <= i < |state| && state[i] == CLEAR ensures i <= last {
      assert StateOk(inodes[i], state[i], i, n, last);
    }
  }

  lemma Innocent(vol: Volume, inodes: seq<Inode>, i: int, b: int)
    requires Table(inodes) && 1 <= i < |inodes| && !Guilty(vol, inodes, i) && b in VisitOf(vol, inodes[i])
    ensures Total(vol, inodes, |inodes| - 1)[b] <= 1
  {
  }

  lemma ClearedLess(vol: Volume, before: seq<Inode>, after: seq<Inode>, n: nat, b: int)
    requires n < |before| && Table(before) && Table(after) && Cleared(before, after)
    ensures Total(vol, after, n)[b] <= Total(vol, before, n)[b]
  {
    TotalCleared(vol, before, after, n);
  }

  /** A survivor's blocks have one claim each. */
  lemma SingleClaim(vol: Volume, before: seq<Inode>, after: seq<Inode>, marked: seq<int>, b: int)
    requires Table(before) && Table(after) && |before| >= 1 && MarkedExactly(vol, before, marked)
    requires Cleared(before, after)
    requires forall i :: 1 <= i < |marked| && marked[i] == CLEAR ==> !Counted(after[i])
    ensures Total(vol, after, |after| - 1)[b] <= 1
  {
    hide Total, Claims, VisitOf, Guilty, Counted, WellFormed, Table, Cleared, MarkedExactly;
    var n := |before| - 1;
    SameTable(before, after);
    if b in Total(vol, after, n) {
      var i := TotalWitness(vol, after, n, b);
      InTable(after, i);
      InTable(before, i);
      ClaimantCounted(vol, after[i], b);
      Survivor(vol, before, after, marked, i);
      ClaimsOfVisit(vol, after[i], b);
      Innocent(vol, before, i, b);
      ClearedLess(vol, before, after, n, b);
    }
  }

  lemma SameTable(before: seq<Inode>, after: seq<Inode>)
    requires Cleared(before, after)
    ensures |after| == |before|
  {
  }

  /** An inode that is left is the one it was, and it is not guilty. */
  lemma Survivor(vol: Volume, before: seq<Inode>, after: seq<Inode>, marked: seq<int>, i: int)
    requires Table(before) && MarkedExactly(vol, before, marked) && Cleared(before, after) && 1 <= i < |before|
    requires forall k :: 1 <= k < |marked| && marked[k] == CLEAR ==> !Counted(after[k])
    requires i < |after| && Counted(after[i])
    ensures after[i] == before[i] && !Guilty(vol, before, i)
  {
    hide Guilty, Counted, WellFormed, Table;
  }

  lemma NoSharing(vol: Volume, before: seq<Inode>, after: seq<Inode>, marked: seq<int>, blkmap: seq<bool>,
                  dup: seq<int>, end: int)
    requires Table(before) && Table(after) && |before| >= 1 && MarkedExactly(vol, before, marked)
    requires Cleared(before, after)
    requires forall i :: 1 <= i < |marked| && marked[i] == CLEAR ==> !Counted(after[i])
    requires Accounts(vol, blkmap, dup, end, Total(vol, after, |after| - 1))
    ensures end == 0 && Total(vol, after, |after| - 1) == multiset(Marked(vol, blkmap))
  {
    var c := Total(vol, after, |after| - 1);
    forall b ensures c[b] <= 1 {
      SingleClaim(vol, before, after, marked, b);
    }
    EmptyTable(vol, blkmap, dup, end, c);
  }

  /** The table of duplicates is empty when, and only when, no block has two claims. */
  lemma EmptyTable(vol: Volume, blkmap: seq<bool>, dup: seq<int>, end: int, c: multiset<int>)
    requires Accounts(vol, blkmap, dup, end, c)
    ensures end == 0 <==> forall b :: c[b] <= 1
    ensures end == 0 ==> c == multiset(Marked(vol, blkmap))
  {
    if end == 0 {
      assert dup[..end] == [];
      assert c == multiset(Marked(vol, blkmap));
    } else {
      EntryInTable(vol, blkmap, dup, end, c, 0);
      Counts(vol, blkmap, dup, end, c, dup[0]);
    }
  }

  /** With an empty table two inodes have no block in common, and the map shows just the blocks in use. */
  lemma Unshared(vol: Volume, inodes: seq<Inode>, blkmap: seq<bool>, i: nat, j: nat, b: int)
    requires Table(inodes) && 1 <= i < j < |inodes| && 0 <= vol.fmin && vol.fmax <= |blkmap|
    requires Total(vol, inodes, |inodes| - 1) == multiset(Marked(vol, blkmap))
    ensures !(b in Claims(vol, inodes[i]) && b in Claims(vol, inodes[j]))
    ensures Claims(vol, inodes[i])[b] <= 1
    ensures b in Marked(vol, blkmap) <==> exists k :: 1 <= k < |inodes| && b in Claims(vol, inodes[k])
  {
    hide Claims, Marked, Total;
    var n := |inodes| - 1;
    if b in Claims(vol, inodes[i]) && b in Claims(vol, inodes[j]) {
      TwoClaims(vol, inodes, n, i, j, b);
    }
    ClaimCounts(vol, inodes, n, i, b);
    if b in Total(vol, inodes, n) {
      var k := TotalWitness(vol, inodes, n, b);
    }
    if k :| 1 <= k < |inodes| && b in Claims(vol, inodes[k]) {
      ClaimCounts(vol, inodes, n, k, b);
    }
  }
}
