/** The free list: salvaging it (makefree) and checking it (freechk). */
module FsckFree {
  import opened FiniteSets
  import opened Bits

  const NICFREE := 178
  const MAXCYL := 1000
  const STEPSIZE := 9
  const CYLSIZE := 400
  const DUPTBLSIZE := 100
  const MAXBAD := 10

  const KEEPON := 4
  const SKIP := 2
  const STOP := 1

  /** A list block: the first nfree entries of free count. */
  datatype Fblk = Fblk(nfree: int, free: seq<int>)

  predicate IsBlock(f: Fblk) {
    |f.free| == NICFREE
  }

  // ----- The list -----

  /**
   Starting from the first n entries of free the list holds the blocks bs, last one first. A block that is
   entry 0 of its list block holds the next list block, which is full; a zero there ends the list.
   */
  ghost predicate Chain(disk: map<int, Fblk>, free: seq<int>, n: int, bs: seq<int>)
    requires |free| == NICFREE
    decreases |bs|
  {
    if bs == [] then n == 1 && free[0] == 0
    else
      var b := bs[|bs| - 1];
      && 1 <= n <= NICFREE && free[n - 1] == b
      && if n > 1 then Chain(disk, free, n - 1, bs[..|bs| - 1])
         else
           && b in disk && IsBlock(disk[b]) && disk[b].nfree == NICFREE
           && Chain(disk, disk[b].free, NICFREE, bs[..|bs| - 1])
  }

  lemma {:induction false} ChainFrame(disk: map<int, Fblk>, free: seq<int>, n: int, bs: seq<int>, b: int, f: Fblk)
    requires |free| == NICFREE && Chain(disk, free, n, bs) && b !in bs
    ensures Chain(disk[b := f], free, n, bs)
    decreases |bs|
  {
    if bs != [] {
      var c := bs[|bs| - 1];
      assert c != b;
      if n > 1 {
        ChainFrame(disk, free, n - 1, bs[..|bs| - 1], b, f);
      } else {
        ChainFrame(disk, disk[c].free, NICFREE, bs[..|bs| - 1], b, f);
      }
    }
  }

  /** Only the first n entries count. */
  lemma {:induction false} ChainEntries(disk: map<int, Fblk>, free: seq<int>, free': seq<int>, n: int, bs: seq<int>)
    requires |free| == NICFREE == |free'| && Chain(disk, free, n, bs)
    requires forall k :: 0 <= k < n <= NICFREE ==> free'[k] == free[k]
    ensures Chain(disk, free', n, bs)
    decreases |bs|
  {
    if bs != [] && n > 1 {
      ChainEntries(disk, free, free', n - 1, bs[..|bs| - 1]);
    }
  }

  lemma ChainPush(disk: map<int, Fblk>, free: seq<int>, n: int, bs: seq<int>, b: int)
    requires |free| == NICFREE && Chain(disk, free, n, bs) && 1 <= n < NICFREE
    ensures Chain(disk, free[n := b], n + 1, bs + [b])
  {
    ChainEntries(disk, free, free[n := b], n, bs);
    assert (bs + [b])[..|bs|] == bs;
  }

  /** The full list goes into block b, which starts a new one. */
  lemma ChainSpill(disk: map<int, Fblk>, free: seq<int>, bs: seq<int>, b: int, blank: seq<int>)
    requires |free| == NICFREE == |blank| && Chain(disk, free, NICFREE, bs) && b !in bs && blank[0] == b
    ensures Chain(disk[b := Fblk(NICFREE, free)], blank, 1, bs + [b])
  {
    ChainFrame(disk, free, NICFREE, bs, b, Fblk(NICFREE, free));
    assert (bs + [b])[..|bs|] == bs;
  }

  // ----- The order in which a cylinder's blocks are taken -----

  ghost predicate Permutation(addr: seq<int>, n: int) {
    && |addr| == n
    && (forall i, j :: 0 <= i < j < n ==> addr[i] != addr[j])
    && (forall i :: 0 <= i < n ==> 1 <= addr[i] <= n)
    && forall k :: 1 <= k <= n ==> k in addr
  }

  ghost function Taken(flg: seq<bool>): set<int> {
    set k | 0 <= k < |flg| && flg[k]
  }

  /** Some place is left while fewer than all were taken. */
  lemma PlaceLeft(flg: seq<bool>) returns (z: int)
    requires |Taken(flg)| < |flg|
    ensures 0 <= z < |flg| && !flg[z]
  {
    IntervalSize(|flg|);
    z := SomethingLeft(Taken(flg), Interval(|flg|));
  }

  lemma AllTaken(flg: seq<bool>)
    requires |Taken(flg)| == |flg|
    ensures forall k :: 0 <= k < |flg| ==> flg[k]
  {
    IntervalSize(|flg|);
    assert forall k :: k in Taken(flg) ==> k in Interval(|flg|);
    SubsetSize(Taken(flg), Interval(|flg|));
    forall k | 0 <= k < |flg| ensures flg[k] {
      assert k in Interval(|flg|);
    }
  }

  /** The places in flg are those of addr, each once. */
  ghost predicate Placed(addr: seq<int>, flg: seq<bool>) {
    && |Taken(flg)| == |addr|
    && (forall k :: 0 <= k < |addr| ==> 1 <= addr[k] <= |flg| && flg[addr[k] - 1])
    && (forall k :: 0 <= k < |flg| && flg[k] ==> k + 1 in addr)
    && forall k, m :: 0 <= k < m < |addr| ==> addr[k] != addr[m]
  }

  lemma TakenMore(flg: seq<bool>, i: int)
    requires 0 <= i < |flg| && !flg[i]
    ensures |Taken(flg[i := true])| == |Taken(flg)| + 1
  {
    assert Taken(flg[i := true]) == Taken(flg) + {i};
  }

  lemma PlaceNext(addr: seq<int>, flg: seq<bool>, i: int)
    requires Placed(addr, flg) && 0 <= i < |flg| && !flg[i]
    ensures Placed(addr + [i + 1], flg[i := true])
  {
    hide Taken;
    TakenMore(flg, i);
    var a := addr + [i + 1];
    var f := flg[i := true];
    forall k | 0 <= k < |f| && f[k]
      ensures k + 1 in a
    {
      assert k == i ==> a[|addr|] == k + 1;
      assert k != i ==> k + 1 in addr;
    }
  }

  lemma PlaceAll(addr: seq<int>, flg: seq<bool>)
    requires Placed(addr, flg) && |addr| == |flg|
    ensures Permutation(addr, |flg|)
  {
    AllTaken(flg);
    forall k | 1 <= k <= |flg| ensures k in addr {
      assert flg[k - 1];
    }
  }

  /** i + d, going round at n. */
  function Round(i: int, d: int, n: int): int {
    if i + d < n then i + d else i + d - n
  }

  /** Place p is the first one at or after i, going round at n, that is not among those of addr. */
  ghost predicate FirstLeft(addr: seq<int>, i: int, p: int, n: int) {
    exists d :: 0 <= d < n && p == Round(i, d, n) && p + 1 !in addr && Passed(addr, i, d, n)
  }

  ghost predicate Passed(addr: seq<int>, i: int, d: int, n: int) {
    forall e :: 0 <= e < d ==> Round(i, e, n) + 1 in addr
  }

  /** Where the search for entry j begins: step places beyond the entry before it. */
  function Start(addr: seq<int>, j: int, step: int, n: int): int
    requires 0 <= j <= |addr|
  {
    if j == 0 then 0 else Round(addr[j - 1] - 1, step, n)
  }

  /** Each entry is the first place left at or after the one step beyond the entry before it. */
  ghost predicate Spread(addr: seq<int>, step: int, n: int) {
    forall j :: 0 <= j < |addr| ==> SpreadAt(addr, j, step, n)
  }

  ghost predicate SpreadAt(addr: seq<int>, j: int, step: int, n: int)
    requires 0 <= j < |addr|
  {
    FirstLeft(addr[..j], Start(addr, j, step, n), addr[j] - 1, n)
  }

  lemma SpreadMore(addr: seq<int>, step: int, n: int, p: int)
    requires Spread(addr, step, n) && FirstLeft(addr, Start(addr, |addr|, step, n), p, n)
    ensures Spread(addr + [p + 1], step, n)
  {
    hide FirstLeft;
    var a := addr + [p + 1];
    forall j | 0 <= j < |a| ensures SpreadAt(a, j, step, n) {
      assert a[..j] == addr[..j];
      if j < |addr| { assert SpreadAt(addr, j, step, n); } else { assert addr[..j] == addr; }
    }
  }

  lemma StepOn(addr: seq<int>, flg: seq<bool>, i: int, d: int, k: int)
    requires Placed(addr, flg) && 0 <= i < |flg| && 0 <= d < |flg| && Passed(addr, i, d, |flg|)
    requires k == Round(i, d, |flg|)
    ensures 0 <= k < |flg| && Round(i, d + 1, |flg|) == if d + 1 < |flg| then (k + 1) % |flg| else i
    ensures if flg[k] then Passed(addr, i, d + 1, |flg|) else FirstLeft(addr, i, k, |flg|)
  {
    hide Taken;
    if k + 1 == |flg| { assert (k + 1) % |flg| == 0; }
  }

  /** When all of the round is passed nothing is left. */
  lemma NotAllPassed(addr: seq<int>, flg: seq<bool>, i: int, z: int)
    requires Placed(addr, flg) && 0 <= i < |flg| && 0 <= z < |flg| && !flg[z]
    ensures !Passed(addr, i, |flg|, |flg|)
  {
    hide Taken;
    var e := if z >= i then z - i else z - i + |flg|;
    assert Round(i, e, |flg|) == z;
    assert z + 1 !in addr;
  }

  method Interleave(cyl: int, step: int) returns (addr: seq<int>)
    requires 0 < step <= cyl <= MAXCYL
    ensures Permutation(addr, cyl) && Spread(addr, step, cyl)
  {
    hide FirstLeft, Passed, Round;
    var flg := seq(cyl, k => false);
    addr := [];
    NoMember(Taken(flg));
    var i, j := 0, 0;
    while j < cyl
      invariant 0 <= j <= cyl && |addr| == j && |flg| == cyl && 0 <= i < cyl && Placed(addr, flg)
      invariant Spread(addr, step, cyl) && i == Start(addr, j, step, cyl)
    {
      i := NextPlace(addr, flg, i);
      PlaceNext(addr, flg, i);
      SpreadMore(addr, step, cyl, i);
      addr := addr + [i + 1];
      flg := flg[i := true];
      Stepped(i, step, cyl);
      i := (i + step) % cyl;
      j := j + 1;
    }
    PlaceAll(addr, flg);
  }

  /** The first place left, from start on. */
  method NextPlace(addr: seq<int>, flg: seq<bool>, start: int) returns (i: int)
    requires Placed(addr, flg) && |addr| < |flg| && 0 <= start < |flg|
    ensures 0 <= i < |flg| && !flg[i] && FirstLeft(addr, start, i, |flg|)
  {
    hide FirstLeft, Passed, Taken;
    i := start;
    ghost var z := PlaceLeft(flg);
    ghost var d := 0;
    NonePassed(addr, start, |flg|);
    while flg[i]
      invariant 0 <= d < |flg| && i == Round(start, d, |flg|) && 0 <= i < |flg| && Passed(addr, start, d, |flg|)
      decreases |flg| - d
    {
      StepOn(addr, flg, start, d, i);
      NotAllPassed(addr, flg, start, z);
      i := (i + 1) % |flg|;
      d := d + 1;
    }
    StepOn(addr, flg, start, d, i);
  }

  lemma NonePassed(addr: seq<int>, i: int, n: int)
    requires 0 <= i < n
    ensures Passed(addr, i, 0, n) && Round(i, 0, n) == i
  {
  }

  lemma Stepped(i: int, step: int, n: int)
    requires 0 <= i < n && 0 <= step <= n
    ensures (i + step) % n == Round(i, step, n) && 0 <= Round(i, step, n) < n
  {
    DivUnique(i + step, n, if i + step < n then 0 else 1, Round(i, step, n));
  }

  // ----- Salvage -----

  /** A data block that nobody uses. */
  predicate IsFree(fmin: int, fmax: int, blkmap: seq<bool>, b: int)
    requires 0 <= fmin && fmax <= |blkmap|
  {
    fmin <= b < fmax && !blkmap[b]
  }

  /** Entry x of addr comes before entry y. */
  ghost predicate Sooner(addr: seq<int>, x: int, y: int) {
    exists k, m :: 0 <= k < m < |addr| && addr[k] == x && addr[m] == y
  }

  /** Block b goes on the list before block c: it lies in a higher cylinder, or addr has it first in the same one. */
  ghost predicate Before(addr: seq<int>, b: int, c: int)
    requires addr != []
  {
    var n := |addr|;
    b / n > c / n || (b / n == c / n && Sooner(addr, n - b % n, n - c % n))
  }

  ghost predicate InOrder(bs: seq<int>, addr: seq<int>)
    requires addr != []
  {
    forall k, m :: 0 <= k < m < |bs| ==> Before(addr, bs[k], bs[m])
  }

  /** Where a block of the cylinder below base lies. */
  lemma CylinderOf(base: int, q: int, n: int, a: int)
    requires n > 0 && base == q * n && 1 <= a <= n
    ensures (base - a) / n == q - 1 && (base - a) % n == n - a
  {
    assert base - a == n * (q - 1) + (n - a);
    DivUnique(base - a, n, q - 1, n - a);
  }

  lemma CylindersAbove(base: int, q: int, n: int, b: int)
    requires n > 0 && base == q * n && b >= base
    ensures b / n >= q
  {
    var d := b / n;
    assert b == n * d + b % n;
    MulGap(n, q - d);
    assert n * (q - d) == q * n - n * d;
  }

  lemma OrderNext(fmin: int, fmax: int, blkmap: seq<bool>, bs: seq<int>, base: int, q: int, addr: seq<int>, i: int)
    requires 0 <= fmin && fmax <= |blkmap| && Permutation(addr, |addr|) && 0 <= i < |addr| && base == q * |addr|
    requires Got(fmin, fmax, blkmap, bs, base, addr, i) && InOrder(bs, addr)
    ensures InOrder(bs + [base - addr[i]], addr)
  {
    var b := base - addr[i];
    hide Before;
    forall k | 0 <= k < |bs| ensures Before(addr, bs[k], b) {
      assert bs[k] in bs;
      OrderOne(base, q, addr, i, bs[k]);
    }
  }

  lemma OrderOne(base: int, q: int, addr: seq<int>, i: int, x: int)
    requires Permutation(addr, |addr|) && 0 <= i < |addr| && base == q * |addr|
    requires x >= base || InPart(base, addr, i, x)
    ensures Before(addr, x, base - addr[i])
  {
    var n := |addr|;
    CylinderOf(base, q, n, addr[i]);
    if x >= base {
      CylindersAbove(base, q, n, x);
    } else {
      var k :| 0 <= k < i && k < |addr| && x == base - addr[k];
      CylinderOf(base, q, n, addr[k]);
    }
  }

  ghost predicate Distinct(bs: seq<int>) {
    forall i, j :: 0 <= i < j < |bs| ==> bs[i] != bs[j]
  }

  /** b is one of the first i blocks taken below base. */
  ghost predicate InPart(base: int, addr: seq<int>, i: int, b: int) {
    exists k :: 0 <= k < i && k < |addr| && b == base - addr[k]
  }

  /** bs holds the free blocks from base on, and of those below it the ones among the first i. */
  ghost predicate Got(fmin: int, fmax: int, blkmap: seq<bool>, bs: seq<int>, base: int, addr: seq<int>, i: int)
    requires 0 <= fmin && fmax <= |blkmap|
  {
    && Distinct(bs)
    && forall b :: b in bs <==> IsFree(fmin, fmax, blkmap, b) && (b >= base || InPart(base, addr, i, b))
  }

  lemma InPartNext(base: int, addr: seq<int>, i: int, b: int)
    requires 0 <= i < |addr|
    ensures InPart(base, addr, i + 1, b) <==> InPart(base, addr, i, b) || b == base - addr[i]
  {
    if InPart(base, addr, i + 1, b) {
      var k :| 0 <= k < i + 1 && b == base - addr[k];
      assert k < i || k == i;
    }
    if b == base - addr[i] {
      assert 0 <= i < i + 1;
    }
  }

  lemma GotNext(fmin: int, fmax: int, blkmap: seq<bool>, bs: seq<int>, base: int, addr: seq<int>, i: int)
    requires 0 <= fmin && fmax <= |blkmap| && Permutation(addr, |addr|) && 0 <= i < |addr|
    requires Got(fmin, fmax, blkmap, bs, base, addr, i)
    ensures var b := base - addr[i];
      && b !in bs
      && Got(fmin, fmax, blkmap, if IsFree(fmin, fmax, blkmap, b) then bs + [b] else bs, base, addr, i + 1)
  {
    var b := base - addr[i];
    assert !InPart(base, addr, i, b);
    assert b !in bs;
    var more := if IsFree(fmin, fmax, blkmap, b) then bs + [b] else bs;
    forall x ensures x in more <==> IsFree(fmin, fmax, blkmap, x) && (x >= base || InPart(base, addr, i + 1, x)) {
      InPartNext(base, addr, i, x);
    }
  }

  /** The whole cylinder was taken. */
  lemma GotAll(fmin: int, fmax: int, blkmap: seq<bool>, bs: seq<int>, base: int, addr: seq<int>)
    requires 0 <= fmin && fmax <= |blkmap| && Permutation(addr, |addr|)
    requires Got(fmin, fmax, blkmap, bs, base, addr, |addr|)
    ensures Got(fmin, fmax, blkmap, bs, base - |addr|, addr, 0)
  {
    forall b ensures b >= base || InPart(base, addr, |addr|, b) <==> b >= base - |addr| {
      if base - |addr| <= b < base {
        assert base - b in addr;
        var k :| 0 <= k < |addr| && addr[k] == base - b;
        assert b == base - addr[k];
      }
    }
  }

  class FreeList {
    const fmin: int
    const fmax: int
    const cylsize: int
    const stepsize: int
    var blkmap: seq<bool>
    var disk: map<int, Fblk>
    /** the buffer fileblk, seen as a list block, and the number of the block it holds */
    var freeblk: Fblk
    var bno: int
    /** the super block */
    var nfree: int
    var sfree: seq<int>
    var tfree: int
    var dinfo: (int, int)
    /** the state of a check */
    var freemap: seq<bool>
    var nFree: int
    var fixfree: bool
    var badblk: int
    var dupblk: int
    ghost var visited: seq<int>

    ghost predicate Shape()
      reads this
    {
      && 0 < fmin <= fmax <= |blkmap| && IsBlock(freeblk) && |sfree| == NICFREE
      && forall b :: b in disk ==> IsBlock(disk[b])
    }

    /** The spacing that makefree uses: step and cylinder size. */
    function Spacing(): (int, int)
      reads this
    {
      var wanted := if cylsize == 0 || stepsize == 0 then dinfo else (stepsize, cylsize);
      if wanted.0 > wanted.1 || wanted.0 <= 0 || wanted.1 <= 0 || wanted.1 > MAXCYL then (STEPSIZE, CYLSIZE) else wanted
    }

    /** Builds a new list of all blocks whose bit is clear, cylinder by cylinder from the top, and in each of them in
      * the order of addr. */
    method Makefree() returns (ghost bs: seq<int>, ghost order: seq<int>)
      requires Shape()
      modifies `disk, `freeblk, `bno, `nfree, `sfree, `tfree, `dinfo
      ensures Shape() && Distinct(bs) && forall b :: b in bs <==> IsFree(fmin, fmax, blkmap, b)
      ensures Chain(disk, sfree, nfree, bs) && 1 <= nfree <= NICFREE && tfree == |bs|
      ensures dinfo == old(Spacing()) && Permutation(order, dinfo.1) && Spread(order, dinfo.0, dinfo.1)
      ensures order != [] && InOrder(bs, order)
    {
      hide Spread, Permutation, InOrder, Chain, Distinct;
      var step, cyl := stepsize, cylsize;
      if cylsize == 0 || stepsize == 0 {
        step, cyl := dinfo.0, dinfo.1;
      }
      if step > cyl || step <= 0 || cyl <= 0 || cyl > MAXCYL {
        step, cyl := STEPSIZE, CYLSIZE;
      }
      dinfo := (step, cyl);
      tfree := 0;
      var addr := Interleave(cyl, step);
      AddrSize(addr, cyl);
      order := addr;
      bs := FillFree(addr);
      nfree := freeblk.nfree;
      sfree := freeblk.free;
    }

    method FillFree(addr: seq<int>) returns (ghost bs: seq<int>)
      requires Shape() && Permutation(addr, |addr|) && 0 < |addr| && tfree == 0
      modifies `disk, `freeblk, `bno, `tfree
      ensures Shape() && Distinct(bs) && forall b :: b in bs <==> IsFree(fmin, fmax, blkmap, b)
      ensures Chain(disk, freeblk.free, freeblk.nfree, bs) && 1 <= freeblk.nfree <= NICFREE && tfree == |bs|
      ensures InOrder(bs, addr)
    {
      hide Before;
      var cyl := |addr|;
      var base := (fmax + cyl - 1) / cyl * cyl;
      ghost var q := RoundUp(fmax, cyl);
      freeblk := Fblk(1, seq(NICFREE, k => 0));
      bs := [];
      while base > 0
        invariant Shape() && q >= 0 && base == q * cyl
        invariant Got(fmin, fmax, blkmap, bs, base, addr, 0) && InOrder(bs, addr)
        invariant Chain(disk, freeblk.free, freeblk.nfree, bs) && 1 <= freeblk.nfree <= NICFREE && tfree == |bs|
      {
        bs := FillCylinder(addr, base, bs, q);
        OneLess(q, cyl);
        base := base - cyl;
        q := q - 1;
      }
    }

    method FillCylinder(addr: seq<int>, base: int, ghost had: seq<int>, ghost q: int) returns (ghost bs: seq<int>)
      requires Shape() && Permutation(addr, |addr|) && Got(fmin, fmax, blkmap, had, base, addr, 0)
      requires addr != [] && base == q * |addr| && InOrder(had, addr)
      requires Chain(disk, freeblk.free, freeblk.nfree, had) && 1 <= freeblk.nfree <= NICFREE && tfree == |had|
      modifies `disk, `freeblk, `bno, `tfree
      ensures Shape() && Got(fmin, fmax, blkmap, bs, base - |addr|, addr, 0) && InOrder(bs, addr)
      ensures Chain(disk, freeblk.free, freeblk.nfree, bs) && 1 <= freeblk.nfree <= NICFREE && tfree == |bs|
    {
      hide Permutation, Got, Chain, InOrder;
      var i := 0;
      bs := had;
      while i < |addr|
        invariant Shape() && 0 <= i <= |addr| && Got(fmin, fmax, blkmap, bs, base, addr, i)
        invariant InOrder(bs, addr)
        invariant Chain(disk, freeblk.free, freeblk.nfree, bs) && 1 <= freeblk.nfree <= NICFREE && tfree == |bs|
      {
        GotNext(fmin, fmax, blkmap, bs, base, addr, i);
        OrderNext(fmin, fmax, blkmap, bs, base, q, addr, i);
        var blk := base - addr[i];
        if fmin <= blk < fmax && !blkmap[blk] {
          Push(blk, bs);
          bs := bs + [blk];
        }
        i := i + 1;
      }
      GotAll(fmin, fmax, blkmap, bs, base, addr);
    }

    /** Puts blk on the list; when the list block is full it is written to blk first. */
    method Push(blk: int, ghost bs: seq<int>)
      requires Shape() && Chain(disk, freeblk.free, freeblk.nfree, bs) && 1 <= freeblk.nfree <= NICFREE && blk !in bs
      modifies `disk, `freeblk, `bno, `tfree
      ensures Shape() && Chain(disk, freeblk.free, freeblk.nfree, bs + [blk]) && 1 <= freeblk.nfree <= NICFREE
      ensures tfree == old(tfree) + 1
    {
      hide Chain;
      tfree := tfree + 1;
      if freeblk.nfree >= NICFREE {
        ChainSpill(disk, freeblk.free, bs, blk, seq(NICFREE, k => 0)[0 := blk]);
        bno := blk;
        disk := disk[blk := freeblk];
        freeblk := Fblk(0, seq(NICFREE, k => 0));
      } else {
        ChainPush(disk, freeblk.free, freeblk.nfree, bs, blk);
      }
      freeblk := freeblk.(free := freeblk.free[freeblk.nfree := blk]);
      freeblk := freeblk.(nfree := freeblk.nfree + 1);
    }

    // ----- Check -----

    /** How many more calls of Pass5 can return KEEPON. */
    ghost function Left(): int
      requires 0 <= fmin && fmax <= |freemap|
      reads this
    {
      |Clear(fmin, fmax, freemap)| + DUPTBLSIZE - dupblk
    }

    method Pass5(blk: int) returns (ret: int)
      requires 0 <= fmin && fmax <= |freemap|
      modifies `freemap, `nFree, `fixfree, `badblk, `dupblk, `visited
      ensures visited == old(visited) + [blk] && fmax <= |freemap|
      ensures ret == KEEPON || ret == SKIP || ret == STOP
      ensures old(IsFree(fmin, fmax, freemap, blk)) ==>
        ret == KEEPON && freemap == old(freemap)[blk := true] && nFree == old(nFree) + 1 && fixfree == old(fixfree)
      ensures !old(IsFree(fmin, fmax, freemap, blk)) ==> fixfree && freemap == old(freemap) && nFree == old(nFree)
      ensures badblk == old(badblk) + if fmin <= blk < fmax then 0 else 1
      ensures dupblk == old(dupblk) + if fmin <= blk < fmax && old(freemap)[blk] then 1 else 0
      ensures ret == STOP <==>
        (badblk > old(badblk) && badblk >= MAXBAD) || (dupblk > old(dupblk) && dupblk >= DUPTBLSIZE)
      ensures Left() <= old(Left())
      ensures dupblk >= old(dupblk) && (ret != STOP ==> dupblk == old(dupblk) || dupblk < DUPTBLSIZE)
      ensures ret == KEEPON ==> Left() < old(Left())
    {
      visited := visited + [blk];
      if !(fmin <= blk < fmax) {
        fixfree := true;
        badblk := badblk + 1;
        if badblk >= MAXBAD {
          return STOP;
        }
        return SKIP;
      }
      if freemap[blk] {
        fixfree := true;
        dupblk := dupblk + 1;
        if dupblk >= DUPTBLSIZE {
          return STOP;
        }
      } else {
        nFree := nFree + 1;
        ClearLess(fmin, fmax, freemap, blk);
        freemap := freemap[blk := true];
      }
      return KEEPON;
    }

    /** Brings block b into the buffer, unless it is there. */
    method GetBlk(b: int) returns (ok: bool)
      requires Shape()
      modifies `freeblk, `bno
      ensures Shape()
      ensures ok ==> bno == b
      ensures old(bno) != b && b in disk ==> ok && freeblk == disk[b]
    {
      if bno == b {
        return true;
      }
      if b in disk {
        freeblk := disk[b];
        bno := b;
        return true;
      }
      bno := -1;
      return false;
    }

    /** As long as nothing was amiss, the check saw each block once, and it was free before the check. */
    ghost predicate Sound(map0: seq<bool>, n0: int)
      reads this
    {
      && 0 < fmin && fmax <= |map0| == |freemap|
      && (!fixfree ==> Seen(fmin, fmax, map0, freemap, visited) && nFree == n0 + |visited|)
      && Tallied(fmin, fmax, map0, freemap, visited) && (badblk > 0 || dupblk > 0 ==> fixfree)
      && badblk == OutOfRange(fmin, fmax, visited) && nFree - n0 + badblk + dupblk == |visited|
    }

    /** The check is at the blocks bs[..m] of a good list, with n entries of the list block to go. */
    ghost predicate OnCourse(bs: seq<int>, m: int, n: int)
      reads this
    {
      && 0 <= m <= |bs| && !fixfree && |freeblk.free| == NICFREE && bno !in bs[..m]
      && visited == Reversed(bs[m..]) && Chain(disk, freeblk.free, n, bs[..m])
    }

    lemma CourseOver(bs: seq<int>, m: int)
      requires OnCourse(bs, m, 1) && freeblk.free[0] == 0 && 0 !in bs
      ensures m == 0 && bs[m..] == bs
    {
      assert m == 0;
      assert bs[0..] == bs;
    }

    lemma StartCourse(bs: seq<int>)
      requires visited == [] && !fixfree && |freeblk.free| == NICFREE && Chain(disk, freeblk.free, freeblk.nfree, bs)
      requires bno !in bs
      ensures OnCourse(bs, |bs|, freeblk.nfree)
    {
      assert bs[..|bs|] == bs && bs[|bs|..] == [];
    }

    /** Visits the last of the n entries to go. */
    method VisitEntry(ghost bs: seq<int>, ghost m: int, ghost good: bool, n: int, ghost map0: seq<bool>, ghost n0: int)
      returns (ret: int)
      requires Shape() && Sound(map0, n0) && 1 <= n <= NICFREE && 0 <= dupblk < DUPTBLSIZE
      requires good ==> Listed(bs, map0) && OnCourse(bs, m, n) && (n == 1 ==> freeblk.free[0] != 0)
      modifies `freemap, `nFree, `fixfree, `badblk, `dupblk, `visited
      ensures Shape() && Sound(map0, n0) && 0 <= dupblk
      ensures Left() <= old(Left()) && (ret == KEEPON ==> Left() < old(Left()))
      ensures ret != STOP ==> dupblk < DUPTBLSIZE
      ensures ret == KEEPON || ret == SKIP || ret == STOP
      ensures good ==> ret == KEEPON && m > 0 && !fixfree && visited == Reversed(bs[m - 1..])
      ensures good && n > 1 ==> Chain(disk, freeblk.free, n - 1, bs[..m - 1])
      ensures good && n == 1 ==> Linked(disk, freeblk.free[0], bs[..m - 1]) && freeblk.free[0] == bs[m - 1]
    {
      hide Chain, Seen, Clear, Linked, Tallied, OutOfRange;
      var blk := freeblk.free[n - 1];
      if good {
        CourseStep(bs, m, n, map0);
      }
      TallyNext(fmin, fmax, map0, freemap, visited, blk);
      if !fixfree && IsFree(fmin, fmax, freemap, blk) {
        SeenNext(fmin, fmax, map0, freemap, visited, blk);
      }
      ret := Pass5(blk);
    }

    ghost predicate Listed(bs: seq<int>, map0: seq<bool>)
      reads this
    {
      0 < fmin && fmax <= |map0| && Distinct(bs) && forall b :: b in bs ==> IsFree(fmin, fmax, map0, b)
    }

    lemma CourseStep(bs: seq<int>, m: int, n: int, map0: seq<bool>)
      requires 1 <= n <= NICFREE && |map0| == |freemap| && Listed(bs, map0) && OnCourse(bs, m, n)
      requires (n == 1 ==> freeblk.free[0] != 0)
      requires Seen(fmin, fmax, map0, freemap, visited)
      ensures m > 0 && freeblk.free[n - 1] == bs[m - 1] && IsFree(fmin, fmax, freemap, bs[m - 1])
      ensures visited + [bs[m - 1]] == Reversed(bs[m - 1..])
      ensures n > 1 ==> Chain(disk, freeblk.free, n - 1, bs[..m - 1])
      ensures n == 1 ==> Linked(disk, freeblk.free[0], bs[..m - 1])
    {
      assert m > 0;
      assert bs[..m][..m - 1] == bs[..m - 1];
      var b := bs[m - 1];
      assert b in bs;
      TailCons(bs, m - 1);
      ReversedCons(b, bs[m..]);
      ReversedIn(bs[m..], b);
      NotAfter(bs, m);
    }

    /** The entries above the first, the last of them first. */
    method Entries(ghost bs: seq<int>, ghost at: int, ghost good: bool, ghost map0: seq<bool>, ghost n0: int)
      returns (ret: int, ghost m: int)
      requires Shape() && Sound(map0, n0) && 1 <= freeblk.nfree <= NICFREE && 0 <= dupblk < DUPTBLSIZE
      requires good ==> Listed(bs, map0) && OnCourse(bs, at, freeblk.nfree)
      modifies `freemap, `nFree, `fixfree, `badblk, `dupblk, `visited
      ensures Shape() && Sound(map0, n0) && 0 <= dupblk
      ensures Left() <= old(Left())
      ensures ret != STOP ==> dupblk < DUPTBLSIZE
      ensures good ==> ret != STOP && OnCourse(bs, m, 1)
    {
      hide Chain, Seen, Clear, Linked, Distinct, Tallied, OutOfRange;
      ret := KEEPON;
      m := at;
      var ap := freeblk.nfree - 1;
      while ap > 0
        invariant 0 <= ap < NICFREE && Shape() && Sound(map0, n0) && 0 <= dupblk < DUPTBLSIZE && Left() <= old(Left())
        invariant good ==> Listed(bs, map0) && OnCourse(bs, m, ap + 1)
      {
        ret := VisitEntry(bs, m, good, ap + 1, map0, n0);
        if ret == STOP {
          return;
        }
        if good {
          Earlier(bs, m, bno);
          m := m - 1;
        }
        ap := ap - 1;
      }
      ret := KEEPON;
    }

    /**
     Goes through the list. When bs is a good list of blocks that are free, all of it is visited once.
     Whatever the list is, if the check finds nothing amiss then all it saw was free and seen once; and every block
     seen was counted as free, out of range, or seen before.
     */
    method Freechk(ghost bs: seq<int>, ghost good: bool)
      requires Shape() && visited == [] && |freemap| >= fmax && badblk == dupblk == 0 && !fixfree
      requires good ==> Distinct(bs) && (forall b :: b in bs ==> IsFree(fmin, fmax, freemap, b))
      requires good ==> Chain(disk, freeblk.free, freeblk.nfree, bs) && bno !in bs && 1 <= freeblk.nfree <= NICFREE
      modifies `freemap, `nFree, `fixfree, `badblk, `dupblk, `visited, `freeblk, `bno
      ensures Shape() && Sound(old(freemap), old(nFree))
      ensures good ==> !fixfree && visited == Reversed(bs)
    {
      hide Chain, Seen, Clear, Distinct;
      ghost var map0, n0, m := freemap, nFree, |bs|;
      if freeblk.nfree == 0 {
        SeenNone(fmin, fmax, map0);
        return;
      }
      if good {
        StartCourse(bs);
      }
      SeenNone(fmin, fmax, map0);
      while true
        invariant Shape() && Sound(map0, n0) && 0 <= dupblk < DUPTBLSIZE
        invariant good ==> Listed(bs, map0) && OnCourse(bs, m, freeblk.nfree) && 1 <= freeblk.nfree <= NICFREE
        decreases Left()
      {
        if freeblk.nfree <= 0 || freeblk.nfree > NICFREE {
          fixfree := true;
          return;
        }
        var ret;
        ret, m := Entries(bs, m, good, map0, n0);
        if ret == STOP {
          return;
        }
        var link := freeblk.free[0];
        if link == 0 {
          if good {
            CourseOver(bs, m);
          }
          return;
        }
        ret := VisitEntry(bs, m, good, 1, map0, n0);
        if ret != KEEPON {
          return;
        }
        if good {
          Earlier(bs, m, bno);
          m := m - 1;
        }
        var ok := GetBlk(link);
        if !ok {
          return;
        }
      }
    }

    /** The list that Makefree built passes a fresh check, which sees every free block once and no other. */
    method SalvageThenCheck()
      requires Shape() && fmax <= |blkmap|
      modifies this
      ensures Shape() && blkmap == old(blkmap) && !fixfree && nFree == tfree && Distinct(visited)
      ensures forall b :: b in visited <==> IsFree(fmin, fmax, blkmap, b)
    {
      hide Chain, Seen, Distinct;
      ghost var bs, order := Makefree();
      freemap := blkmap;
      nFree, fixfree, badblk, dupblk := 0, false, 0, 0;
      visited := [];
      freeblk := Fblk(nfree, sfree);
      bno := -1;
      Freechk(bs, true);
      ReversedAll(bs);
    }
  }

  lemma AddrSize(addr: seq<int>, n: int)
    requires Permutation(addr, n)
    ensures |addr| == n && Permutation(addr, |addr|)
  {
  }

  lemma RoundUp(a: int, n: int) returns (q: int)
    requires a > 0 && n > 0
    ensures q >= 0 && a <= q * n && q * n == (a + n - 1) / n * n
  {
    q := (a + n - 1) / n;
    assert a + n - 1 == q * n + (a + n - 1) % n;
  }

  lemma OneLess(q: int, n: int)
    requires n > 0 && q >= 0 && q * n > 0
    ensures q >= 1 && (q - 1) * n == q * n - n && (q - 1) * n >= 0
  {
  }

  /** Block b is a full list block that holds the blocks bs. */
  ghost predicate Linked(disk: map<int, Fblk>, b: int, bs: seq<int>) {
    b in disk && IsBlock(disk[b]) && disk[b].nfree == NICFREE && Chain(disk, disk[b].free, NICFREE, bs)
  }

  lemma Earlier(bs: seq<int>, m: int, b: int)
    requires 0 < m <= |bs|
    ensures b !in bs[..m] ==> b !in bs[..m - 1] && b != bs[m - 1]
    ensures Distinct(bs) ==> bs[m - 1] !in bs[..m - 1]
  {
    assert bs[..m - 1] <= bs[..m];
    assert bs[..m][m - 1] == bs[m - 1];
    assert forall k :: 0 <= k < m - 1 ==> bs[..m - 1][k] == bs[..m][k] == bs[k];
  }

  lemma TailCons(s: seq<int>, k: int)
    requires 0 <= k < |s|
    ensures s[k..] == [s[k]] + s[k + 1..]
  {
  }

  lemma NotAfter(bs: seq<int>, m: int)
    requires Distinct(bs) && 0 < m <= |bs|
    ensures bs[m - 1] !in bs[m..]
  {
    assert forall k :: 0 <= k < |bs| - m ==> bs[m..][k] == bs[m + k];
  }

  lemma ReversedCons(x: int, s: seq<int>)
    ensures Reversed([x] + s) == Reversed(s) + [x]
  {
    if s != [] {
      var n := |s| - 1;
      assert ([x] + s)[..|s|] == [x] + s[..n];
      ReversedCons(x, s[..n]);
    } else {
      assert [x] + s == [x];
    }
  }

  lemma ReversedIn(s: seq<int>, x: int)
    ensures x in Reversed(s) <==> x in s
  {
    if s != [] {
      ReversedIn(s[..|s| - 1], x);
      assert s == s[..|s| - 1] + [s[|s| - 1]];
    }
  }

  ghost function Reversed(s: seq<int>): seq<int> {
    if s == [] then [] else [s[|s| - 1]] + Reversed(s[..|s| - 1])
  }

  ghost function Clear(fmin: int, fmax: int, freemap: seq<bool>): set<int>
    requires 0 <= fmin && fmax <= |freemap|
  {
    set b | fmin <= b < fmax && !freemap[b]
  }

  lemma ClearLess(fmin: int, fmax: int, freemap: seq<bool>, b: int)
    requires 0 <= fmin && fmax <= |freemap| && IsFree(fmin, fmax, freemap, b)
    ensures |Clear(fmin, fmax, freemap[b := true])| == |Clear(fmin, fmax, freemap)| - 1
  {
    assert Clear(fmin, fmax, freemap[b := true]) == Clear(fmin, fmax, freemap) - {b};
  }

  ghost predicate Seen(fmin: int, fmax: int, map0: seq<bool>, freemap: seq<bool>, visited: seq<int>)
    requires 0 <= fmin && fmax <= |map0| == |freemap|
  {
    && Distinct(visited)
    && (forall b :: b in visited ==> IsFree(fmin, fmax, map0, b))
    && forall b :: 0 <= b < |map0| ==> (freemap[b] <==> map0[b] || b in visited)
  }

  ghost function OutOfRange(fmin: int, fmax: int, bs: seq<int>): nat {
    if bs == [] then 0
    else OutOfRange(fmin, fmax, bs[..|bs| - 1]) + if fmin <= bs[|bs| - 1] < fmax then 0 else 1
  }

  /** The blocks in range that were visited are marked besides, and no others. */
  ghost predicate Tallied(fmin: int, fmax: int, map0: seq<bool>, freemap: seq<bool>, visited: seq<int>)
    requires 0 <= fmin && fmax <= |map0| == |freemap|
  {
    forall b :: 0 <= b < |map0| ==> (freemap[b] <==> map0[b] || (b in visited && fmin <= b < fmax))
  }

  lemma TallyNext(fmin: int, fmax: int, map0: seq<bool>, freemap: seq<bool>, visited: seq<int>, blk: int)
    requires 0 <= fmin && fmax <= |map0| == |freemap| && Tallied(fmin, fmax, map0, freemap, visited)
    ensures Tallied(fmin, fmax, map0, if fmin <= blk < fmax then freemap[blk := true] else freemap, visited + [blk])
    ensures fmin <= blk < fmax && freemap[blk] ==> freemap[blk := true] == freemap
    ensures OutOfRange(fmin, fmax, visited + [blk]) ==
            OutOfRange(fmin, fmax, visited) + if fmin <= blk < fmax then 0 else 1
  {
    assert (visited + [blk])[..|visited|] == visited;
  }

  lemma SeenNone(fmin: int, fmax: int, map0: seq<bool>)
    requires 0 <= fmin && fmax <= |map0|
    ensures Seen(fmin, fmax, map0, map0, [])
  {
  }

  lemma SeenNext(fmin: int, fmax: int, map0: seq<bool>, freemap: seq<bool>, visited: seq<int>, b: int)
    requires 0 <= fmin && fmax <= |map0| == |freemap| && Seen(fmin, fmax, map0, freemap, visited)
    requires IsFree(fmin, fmax, freemap, b)
    ensures Seen(fmin, fmax, map0, freemap[b := true], visited + [b])
  {
  }

  lemma {:induction false} ReversedAll(s: seq<int>)
    ensures |Reversed(s)| == |s| && forall x :: x in Reversed(s) <==> x in s
    ensures Distinct(s) ==> Distinct(Reversed(s))
  {
    forall x ensures x in Reversed(s) <==> x in s {
      ReversedIn(s, x);
    }
    if s != [] {
      var t, x := s[..|s| - 1], s[|s| - 1];
      ReversedAll(t);
      assert Distinct(s) ==> Distinct(t) && x !in t;
    }
  }

  /** A check that found nothing amiss and counted as many blocks as are free has seen them all. */
  lemma NothingMissing(fmin: int, fmax: int, map0: seq<bool>, freemap: seq<bool>, visited: seq<int>)
    requires 0 <= fmin && fmax <= |map0| == |freemap| && Seen(fmin, fmax, map0, freemap, visited)
    requires |visited| == |Clear(fmin, fmax, map0)|
    ensures forall b :: IsFree(fmin, fmax, map0, b) <==> b in visited
  {
    var s := set b | b in visited;
    SizeOf(visited);
    assert s <= Clear(fmin, fmax, map0);
    SubsetSize(s, Clear(fmin, fmax, map0));
    forall b ensures IsFree(fmin, fmax, map0, b) <==> b in visited {
      assert b in Clear(fmin, fmax, map0) <==> b in s;
    }
  }

  lemma {:induction false} SizeOf(s: seq<int>)
    requires Distinct(s)
    ensures |set b | b in s| == |s|
  {
    if s != [] {
      var t, x := s[..|s| - 1], s[|s| - 1];
      SizeOf(t);
      assert x !in t;
      assert s == t + [x];
      assert (set b | b in s) == (set b | b in t) + {x};
    } else {
      NoMember(set b | b in s);
    }
  }
}
