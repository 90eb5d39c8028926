/** fsck's pool of scratch file buffers, and the bit maps, states and link counts kept behind it. */
module FsckPool {
  import opened FsckCounts

  const BSIZE := 1024
  const SMASK: bv8 := 3

  type Block = seq<bv8>

  datatype Buffer = Buffer(bno: int, data: Block, dirty: bool)

  // ----- Bytes, bits and fields -----

  /** The mask for bit k of a byte. */
  function Mask(k: nat): bv8
    requires k < 8
  {
    if k == 0 then 1 else if k == 1 then 2 else if k == 2 then 4 else if k == 3 then 8
    else if k == 4 then 16 else if k == 5 then 32 else if k == 6 then 64 else 128
  }

  lemma MasksDiffer(j: nat, k: nat)
    requires j < 8 && k < 8
    ensures Mask(j) & Mask(k) == if j == k then Mask(j) else 0
    ensures Mask(j) != 0
  {
  }

  lemma SetOthers(p: bv8, n: bv8, m: bv8)
    ensures (p | n) & n == n
    ensures n & m == 0 ==> (p | n) & m == p & m
  {
  }

  lemma ClearOthers(p: bv8, n: bv8, m: bv8)
    ensures (p & !n) & n == 0
    ensures n & m == 0 ==> (p & !n) & m == p & m
  {
  }

  function BitPut(p: bv8, n: bv8, on: bool): bv8 {
    if on then p | n else p & !n
  }

  lemma ByteBit(p: bv8, j: nat, k: nat, on: bool)
    requires j < 8 && k < 8
    ensures (BitPut(p, Mask(j), on) & Mask(k) != 0) == if j == k then on else p & Mask(k) != 0
  {
    hide Mask;
    MasksDiffer(j, k);
    SetOthers(p, Mask(j), Mask(k));
    ClearOthers(p, Mask(j), Mask(k));
  }

  /** Field k, two bits wide, of a byte. */
  function Field(p: bv8, k: nat): bv8
    requires k < 4
  {
    if k == 0 then p & SMASK
    else if k == 1 then (p >> 2) & SMASK
    else if k == 2 then (p >> 4) & SMASK
    else (p >> 6) & SMASK
  }

  function WithField(p: bv8, k: nat, s: bv8): bv8
    requires k < 4
  {
    if k == 0 then (p & !SMASK) | s
    else if k == 1 then (p & !(SMASK << 2)) | (s << 2)
    else if k == 2 then (p & !(SMASK << 4)) | (s << 4)
    else (p & !(SMASK << 6)) | (s << 6)
  }

  lemma FieldKept(p: bv8, k: nat, s: bv8, j: nat)
    requires k < 4 && j < 4 && s <= 3
    ensures Field(WithField(p, k, s), j) == if j == k then s else Field(p, j)
  {
  }

  // ----- The pool -----

  ghost predicate BufferOk(b: Buffer, scratch: seq<Block>) {
    && |b.data| == BSIZE && -1 <= b.bno < |scratch|
    && (b.bno == -1 ==> !b.dirty)
    && (b.bno >= 0 && !b.dirty ==> b.data == scratch[b.bno])
  }

  ghost predicate PoolOk(pool: seq<Buffer>, scratch: seq<Block>) {
    && |pool| > 0
    && (forall i :: 0 <= i < |pool| ==> BufferOk(pool[i], scratch))
    && (forall i :: 0 <= i < |scratch| ==> |scratch[i]| == BSIZE)
    && forall i, j :: 0 <= i < j < |pool| && pool[i].bno >= 0 ==> pool[i].bno != pool[j].bno
  }

  /** flat is what the blocks hold when buffers that were changed are taken into account. */
  ghost predicate Shows(pool: seq<Buffer>, scratch: seq<Block>, flat: seq<Block>) {
    |flat| == |scratch| && forall b :: 0 <= b < |flat| ==> ShowsBlock(pool, scratch, flat[b], b)
  }

  ghost predicate ShowsBlock(pool: seq<Buffer>, scratch: seq<Block>, data: Block, b: int)
    requires 0 <= b < |scratch|
  {
    && (forall i :: 0 <= i < |pool| && pool[i].bno == b ==> data == pool[i].data)
    && ((forall i :: 0 <= i < |pool| ==> pool[i].bno != b) ==> data == scratch[b])
  }

  function ToFront<T>(s: seq<T>, k: int): seq<T>
    requires 0 <= k < |s|
  {
    [s[k]] + s[..k] + s[k + 1..]
  }

  /** Where an entry of the list was before it was reordered. */
  function Before(k: int, i: int): int {
    if i == 0 then k else if i <= k then i - 1 else i
  }

  lemma ToFrontAt<T>(s: seq<T>, k: int, i: int)
    requires 0 <= k < |s| && 0 <= i < |s|
    ensures |ToFront(s, k)| == |s| && ToFront(s, k)[i] == s[Before(k, i)]
  {
  }

  lemma ToFrontOk(pool: seq<Buffer>, scratch: seq<Block>, flat: seq<Block>, k: int)
    requires PoolOk(pool, scratch) && Shows(pool, scratch, flat) && 0 <= k < |pool|
    ensures PoolOk(ToFront(pool, k), scratch) && Shows(ToFront(pool, k), scratch, flat)
    ensures multiset(ToFront(pool, k)) == multiset(pool)
  {
    hide PoolOk, BufferOk, ShowsBlock, ToFront;
    ToFrontBuffers(pool, scratch, k);
    forall b | 0 <= b < |flat|
      ensures ShowsBlock(ToFront(pool, k), scratch, flat[b], b)
    {
      ToFrontShows(pool, scratch, flat[b], b, k);
    }
    ToFrontSame(pool, k);
  }

  lemma ToFrontSame<T>(s: seq<T>, k: int)
    requires 0 <= k < |s|
    ensures multiset(ToFront(s, k)) == multiset(s)
  {
    assert s == s[..k] + [s[k]] + s[k + 1..];
  }

  lemma ToFrontBuffers(pool: seq<Buffer>, scratch: seq<Block>, k: int)
    requires PoolOk(pool, scratch) && 0 <= k < |pool|
    ensures PoolOk(ToFront(pool, k), scratch)
  {
    hide ToFront, BufferOk;
    var q := ToFront(pool, k);
    ToFrontAt(pool, k, 0);
    forall i | 0 <= i < |q|
      ensures 0 <= Before(k, i) < |pool| && q[i] == pool[Before(k, i)]
    {
      ToFrontAt(pool, k, i);
    }
  }

  lemma ToFrontShows(pool: seq<Buffer>, scratch: seq<Block>, data: Block, b: int, k: int)
    requires 0 <= b < |scratch| && 0 <= k < |pool| && ShowsBlock(pool, scratch, data, b)
    ensures ShowsBlock(ToFront(pool, k), scratch, data, b)
  {
    hide ToFront;
    var q := ToFront(pool, k);
    ToFrontAt(pool, k, 0);
    forall i | 0 <= i < |q|
      ensures 0 <= Before(k, i) < |pool| && q[i] == pool[Before(k, i)]
    {
      ToFrontAt(pool, k, i);
    }
    forall i | 0 <= i < |pool|
      ensures 0 <= Afterwards(k, i) < |q| && q[Afterwards(k, i)] == pool[i]
    {
      ToFrontAt(pool, k, Afterwards(k, i));
    }
  }

  /** Where an entry of the list is after it was reordered. */
  function Afterwards(k: int, i: int): int {
    if i == k then 0 else if i < k then i + 1 else i
  }

  /** Writing the first buffer back and reading block b into it changes nothing that can be seen. */
  lemma Refill(pool: seq<Buffer>, scratch: seq<Block>, flat: seq<Block>, b: int)
    requires PoolOk(pool, scratch) && Shows(pool, scratch, flat) && 0 <= b < |scratch|
    requires forall i :: 0 <= i < |pool| ==> pool[i].bno != b
    ensures var s := if pool[0].dirty then scratch[pool[0].bno := pool[0].data] else scratch;
      PoolOk(pool[0 := Buffer(b, s[b], false)], s) && Shows(pool[0 := Buffer(b, s[b], false)], s, flat)
  {
    var p := pool[0];
    assert BufferOk(p, scratch);
    var s := if p.dirty then scratch[p.bno := p.data] else scratch;
    var q := pool[0 := Buffer(b, s[b], false)];
    forall i | 0 <= i < |q| ensures BufferOk(q[i], s) {
      assert BufferOk(pool[i], scratch);
    }
    forall c | 0 <= c < |flat| ensures ShowsBlock(q, s, flat[c], c) {
      assert ShowsBlock(pool, scratch, flat[c], c);
      if c == p.bno {
        assert pool[0].bno == c;
      }
      if c == b {
        assert flat[c] == scratch[b] == s[b];
      }
      if forall i :: 0 <= i < |q| ==> q[i].bno != c {
        if c != p.bno {
          assert forall i :: 1 <= i < |pool| ==> q[i] == pool[i];
        }
      }
    }
  }

  /** Changing the contents of the first buffer changes that block and no other. */
  lemma Restore(pool: seq<Buffer>, scratch: seq<Block>, flat: seq<Block>, data: Block)
    requires PoolOk(pool, scratch) && Shows(pool, scratch, flat) && pool[0].bno >= 0 && |data| == BSIZE
    ensures pool[0].bno < |flat|
    ensures var q := pool[0 := pool[0].(data := data, dirty := true)];
      PoolOk(q, scratch) && Shows(q, scratch, flat[pool[0].bno := data])
  {
    var b := pool[0].bno;
    assert BufferOk(pool[0], scratch);
    var q := pool[0 := pool[0].(data := data, dirty := true)];
    var f := flat[b := data];
    forall i | 0 <= i < |q| ensures BufferOk(q[i], scratch) {
      assert BufferOk(pool[i], scratch);
    }
    forall c | 0 <= c < |f| ensures ShowsBlock(q, scratch, f[c], c) {
      assert ShowsBlock(pool, scratch, flat[c], c);
      if c == b {
        assert q[0].bno == c;
      } else if forall i :: 0 <= i < |q| ==> q[i].bno != c {
        assert forall i :: 0 <= i < |pool| ==> pool[i].bno == q[i].bno;
      }
    }
  }

  // ----- The arrays behind the pool -----

  /** Where something is: a block and a byte of it. */
  ghost predicate Inside(flat: seq<Block>, blk: int, off: int) {
    0 <= blk < |flat| && 0 <= off < |flat[blk]|
  }

  predicate SameShape(a: seq<Block>, b: seq<Block>) {
    |a| == |b| && forall k :: 0 <= k < |a| ==> |a[k]| == |b[k]|
  }

  function Put(flat: seq<Block>, blk: int, off: int, v: bv8): seq<Block>
    requires Inside(flat, blk, off)
  {
    flat[blk := flat[blk][off := v]]
  }

  function MapBlock(base: int, b: int): int {
    base + b / 8 / BSIZE
  }

  ghost predicate InMap(flat: seq<Block>, base: int, b: int) {
    0 <= base && 0 <= b && MapBlock(base, b) < |flat| && forall k :: 0 <= k < |flat| ==> |flat[k]| == BSIZE
  }

  ghost predicate Bit(flat: seq<Block>, base: int, b: int)
    requires InMap(flat, base, b)
  {
    BitOn(flat, MapBlock(base, b), b / 8 % BSIZE, b % 8)
  }

  predicate BitOn(flat: seq<Block>, blk: int, off: int, k: nat)
    requires Inside(flat, blk, off) && k < 8
  {
    flat[blk][off] & Mask(k) != 0
  }

  ghost function WithBit(flat: seq<Block>, base: int, b: int, on: bool): (r: seq<Block>)
    requires InMap(flat, base, b)
    ensures SameShape(flat, r)
  {
    var p, n := flat[MapBlock(base, b)][b / 8 % BSIZE], Mask(b % 8);
    Put(flat, MapBlock(base, b), b / 8 % BSIZE, BitPut(p, n, on))
  }

  lemma PutBit(flat: seq<Block>, blk: int, off: int, j: nat, on: bool, blk': int, off': int, k: nat)
    requires Inside(flat, blk, off) && Inside(flat, blk', off') && j < 8 && k < 8
    ensures BitOn(Put(flat, blk, off, BitPut(flat[blk][off], Mask(j), on)), blk', off', k) ==
      if blk == blk' && off == off' && j == k then on else BitOn(flat, blk', off', k)
  {
    hide Mask, BitPut;
    ByteBit(flat[blk][off], j, k, on);
  }

  lemma BitAfter(flat: seq<Block>, base: int, b: int, on: bool, c: int)
    requires InMap(flat, base, b) && InMap(flat, base, c)
    ensures InMap(WithBit(flat, base, b, on), base, c)
    ensures Bit(WithBit(flat, base, b, on), base, c) == if c == b then on else Bit(flat, base, c)
  {
    hide Mask, BitPut, BitOn;
    PutBit(flat, MapBlock(base, b), b / 8 % BSIZE, b % 8, on, MapBlock(base, c), c / 8 % BSIZE, c % 8);
    if MapBlock(base, b) == MapBlock(base, c) && b / 8 % BSIZE == c / 8 % BSIZE {
      SamePlace(b / 8, c / 8);
    }
  }

  lemma SamePlace(x: int, y: int)
    requires x / BSIZE == y / BSIZE && x % BSIZE == y % BSIZE
    ensures x == y
  {
  }

  function StateBlock(base: int, i: int): int {
    base + i / 4 / BSIZE
  }

  ghost predicate InStates(flat: seq<Block>, base: int, i: int) {
    0 <= base && 0 <= i && StateBlock(base, i) < |flat| && forall k :: 0 <= k < |flat| ==> |flat[k]| == BSIZE
  }

  ghost function State(flat: seq<Block>, base: int, i: int): bv8
    requires InStates(flat, base, i)
  {
    Field(flat[StateBlock(base, i)][i / 4 % BSIZE], i % 4)
  }

  ghost function WithState(flat: seq<Block>, base: int, i: int, s: bv8): (r: seq<Block>)
    requires InStates(flat, base, i)
    ensures SameShape(flat, r)
  {
    Put(flat, StateBlock(base, i), i / 4 % BSIZE, WithField(flat[StateBlock(base, i)][i / 4 % BSIZE], i % 4, s))
  }

  lemma StateAfter(flat: seq<Block>, base: int, i: int, s: bv8, j: int)
    requires InStates(flat, base, i) && InStates(flat, base, j) && s <= 3
    ensures InStates(WithState(flat, base, i, s), base, j)
    ensures State(WithState(flat, base, i, s), base, j) == if j == i then s else State(flat, base, j)
  {
    FieldKept(flat[StateBlock(base, i)][i / 4 % BSIZE], i % 4, s, j % 4);
    if StateBlock(base, i) == StateBlock(base, j) && i / 4 % BSIZE == j / 4 % BSIZE {
      SamePlace(i / 4, j / 4);
    }
  }

  const SPERB := BSIZE / 2

  function LinkBlock(base: int, i: int): int {
    base + i / SPERB
  }

  ghost predicate InLinks(flat: seq<Block>, base: int, i: int) {
    0 <= base && 0 <= i && LinkBlock(base, i) < |flat| && forall k :: 0 <= k < |flat| ==> |flat[k]| == BSIZE
  }

  ghost function Link(flat: seq<Block>, base: int, i: int): int
    requires InLinks(flat, base, i)
  {
    var at := 2 * (i % SPERB);
    Short(flat[LinkBlock(base, i)][at], flat[LinkBlock(base, i)][at + 1])
  }

  ghost function WithLink(flat: seq<Block>, base: int, i: int, v: int): (r: seq<Block>)
    requires InLinks(flat, base, i)
    ensures SameShape(flat, r)
  {
    var at, blk := 2 * (i % SPERB), LinkBlock(base, i);
    flat[blk := flat[blk][at := Lo(v)][at + 1 := Hi(v)]]
  }

  lemma LinkAfter(flat: seq<Block>, base: int, i: int, v: int, j: int)
    requires InLinks(flat, base, i) && InLinks(flat, base, j)
    ensures InLinks(WithLink(flat, base, i, v), base, j)
    ensures Link(WithLink(flat, base, i, v), base, j) == if j == i then Wrap(v) else Link(flat, base, j)
  {
    hide Short, Lo, Hi, Wrap;
    ShortWrap(v);
    if LinkBlock(base, i) == LinkBlock(base, j) && i % SPERB == j % SPERB {
      SameLink(i, j);
    }
  }

  lemma SameLink(i: int, j: int)
    requires i / SPERB == j / SPERB && i % SPERB == j % SPERB
    ensures i == j
  {
  }

  // The block map, the states and the link counts lie in different blocks.

  lemma BitApart(flat: seq<Block>, smap: int, lncnt: int, b: int, on: bool, i: int, j: int)
    requires InMap(flat, 0, b) && InStates(flat, smap, i) && InLinks(flat, lncnt, j) && MapBlock(0, b) < smap <= lncnt
    ensures State(WithBit(flat, 0, b, on), smap, i) == State(flat, smap, i)
    ensures Link(WithBit(flat, 0, b, on), lncnt, j) == Link(flat, lncnt, j)
  {
    hide WithBit, State, Link;
    BlocksUp(smap, i, lncnt, j);
    OtherBlocks(flat, b, on, StateBlock(smap, i));
    OtherBlocks(flat, b, on, LinkBlock(lncnt, j));
    StateThere(flat, WithBit(flat, 0, b, on), smap, i);
    LinkThere(flat, WithBit(flat, 0, b, on), lncnt, j);
  }

  lemma BlocksUp(smap: int, i: int, lncnt: int, j: int)
    requires 0 <= i && 0 <= j
    ensures smap <= StateBlock(smap, i) && lncnt <= LinkBlock(lncnt, j)
  {
  }

  lemma StateThere(flat: seq<Block>, now: seq<Block>, smap: int, i: int)
    requires InStates(flat, smap, i) && InStates(now, smap, i) && now[StateBlock(smap, i)] == flat[StateBlock(smap, i)]
    ensures State(now, smap, i) == State(flat, smap, i)
  {
    hide StateBlock, Field;
  }

  lemma LinkThere(flat: seq<Block>, now: seq<Block>, lncnt: int, j: int)
    requires InLinks(flat, lncnt, j) && InLinks(now, lncnt, j) && now[LinkBlock(lncnt, j)] == flat[LinkBlock(lncnt, j)]
    ensures Link(now, lncnt, j) == Link(flat, lncnt, j)
  {
    hide LinkBlock, Short;
  }

  lemma OtherBlocks(flat: seq<Block>, b: int, on: bool, k: int)
    requires InMap(flat, 0, b) && 0 <= k < |flat| && k != MapBlock(0, b)
    ensures WithBit(flat, 0, b, on)[k] == flat[k]
  {
    hide Mask, BitPut;
  }

  lemma StateApart(flat: seq<Block>, smap: int, lncnt: int, b: int, i: int, s: bv8, j: int)
    requires InMap(flat, 0, b) && InStates(flat, smap, i) && InLinks(flat, lncnt, j)
    requires MapBlock(0, b) < smap && StateBlock(smap, i) < lncnt
    ensures Bit(WithState(flat, smap, i, s), 0, b) == Bit(flat, 0, b)
    ensures Link(WithState(flat, smap, i, s), lncnt, j) == Link(flat, lncnt, j)
  {
    hide Mask, Short, WithField;
  }

  lemma LinkApart(flat: seq<Block>, smap: int, lncnt: int, b: int, i: int, j: int, v: int)
    requires InMap(flat, 0, b) && InStates(flat, smap, i) && InLinks(flat, lncnt, j)
    requires MapBlock(0, b) < smap && StateBlock(smap, i) < lncnt && smap <= lncnt
    ensures Bit(WithLink(flat, lncnt, j, v), 0, b) == Bit(flat, 0, b)
    ensures State(WithLink(flat, lncnt, j, v), smap, i) == State(flat, smap, i)
  {
    hide Mask, Lo, Hi, Field;
  }

  lemma AndSwap(p: bv8, k: nat)
    requires k < 8
    ensures Mask(k) & p == p & Mask(k)
  {
  }

  // ----- The pool at work -----

  class Pool {
    const smapblk: int
    const fmapblk: int
    const lncntblk: int
    /** the list that starts at poolhead */
    var pool: seq<Buffer>
    var scratch: seq<Block>
    var inum: int

    /** the contents of the scratch file as the program means them */
    ghost var flat: seq<Block>
    /** when each buffer of the list was last asked for */
    ghost var used: seq<int>
    ghost var clock: int

    ghost predicate Valid()
      reads this
    {
      PoolOk(pool, scratch) && Shows(pool, scratch, flat) && Recency(used, clock) && |used| == |pool|
    }

    /** The scratch file is written with zeros through the first buffer. */
    constructor (buffers: nat, smap: int, lncnt: int, nscrblk: int)
      requires buffers > 0 && 0 <= smap <= lncnt <= nscrblk && nscrblk > 0
      ensures Valid() && |flat| == nscrblk && smapblk == smap && fmapblk == smap && lncntblk == lncnt
      ensures forall b :: 0 <= b < nscrblk ==> flat[b] == seq(BSIZE, i => 0)
    {
      smapblk, fmapblk, lncntblk := smap, smap, lncnt;
      var zeros := seq(BSIZE, i => 0);
      scratch := seq(nscrblk, i => zeros);
      pool := seq(buffers, i => Buffer(if i == 0 then nscrblk - 1 else -1, zeros, false));
      flat := seq(nscrblk, i => zeros);
      used := seq(buffers, i => -i);
      clock := 0;
      inum := 0;
    }

    /** Brings the buffer of blk, or else the least recently used one, to the front. */
    method Search(blk: int) returns (k: int)
      requires Valid()
      modifies `pool, `used, `clock
      ensures Valid() && 0 <= k < |old(pool)| && pool == ToFront(old(pool), k) && multiset(pool) == multiset(old(pool))
      ensures forall i :: 0 <= i < |old(pool)| && i != k && old(pool)[i].bno == blk ==> i > k && old(pool)[k].bno == blk
      ensures old(pool)[k].bno != blk ==> forall i :: 0 <= i < |old(used)| && i != k ==> old(used)[i] > old(used)[k]
    {
      hide PoolOk, Shows;
      SomeBuffer();
      k := Locate(blk);
      ToFrontOk(pool, scratch, flat, k);
      UsedNow(used, clock, k);
      pool := ToFront(pool, k);
      clock := clock + 1;
      used := ToFront(used, k)[0 := clock];
    }

    /** Walks down the list to the buffer of blk or the last one. */
    method Locate(blk: int) returns (k: int)
      requires |pool| > 0
      ensures 0 <= k < |pool| && (pool[k].bno == blk || k == |pool| - 1)
      ensures forall i :: 0 <= i < k ==> pool[i].bno != blk
    {
      k := 0;
      while k < |pool| - 1 && pool[k].bno != blk
        invariant 0 <= k < |pool| && forall i :: 0 <= i < k ==> pool[i].bno != blk
      {
        k := k + 1;
      }
    }

    method Flush()
      requires |pool| > 0 && (pool[0].dirty ==> 0 <= pool[0].bno < |scratch|)
      modifies `pool, `scratch
      ensures scratch ==
              if old(pool)[0].dirty then old(scratch)[old(pool)[0].bno := old(pool)[0].data] else old(scratch)
      ensures pool == old(pool)[0 := old(pool)[0].(dirty := false)]
    {
      if pool[0].dirty {
        scratch := scratch[pool[0].bno := pool[0].data];
      }
      pool := pool[0 := pool[0].(dirty := false)];
    }

    /** Afterwards the first buffer holds block blk as it should be. */
    method GetBlk(blk: int)
      requires Valid() && 0 <= blk < |scratch|
      modifies `pool, `scratch, `used, `clock
      ensures Valid() && |scratch| == old(|scratch|) && pool[0].bno == blk && pool[0].data == flat[blk]
    {
      hide Recency, PoolOk, Shows;
      SomeBuffer();
      FlatSize();
      var k := Search(blk);
      SomeBuffer();
      if pool[0].bno != blk {
        ToFrontNone(old(pool), k, blk);
        Refill(pool, scratch, flat, blk);
        FirstDirty();
        ghost var p := pool;
        Flush();
        pool := pool[0 := Buffer(blk, scratch[blk], false)];
        assert pool == p[0 := Buffer(blk, scratch[blk], false)];
      }
      FirstShows();
    }

    lemma SomeBuffer()
      requires Valid()
      ensures |pool| > 0 && |used| == |pool|
    {
    }

    lemma FirstDirty()
      requires Valid()
      ensures pool[0].dirty ==> 0 <= pool[0].bno < |scratch|
    {
      assert BufferOk(pool[0], scratch);
    }

    lemma FirstShows()
      requires Valid() && 0 <= pool[0].bno < |flat|
      ensures pool[0].data == flat[pool[0].bno]
    {
      assert ShowsBlock(pool, scratch, flat[pool[0].bno], pool[0].bno);
    }

    /** Changes the block in the first buffer. */
    method Change(data: Block)
      requires Valid() && pool[0].bno >= 0 && |data| == BSIZE
      modifies `pool, `flat
      ensures Valid() && 0 <= pool[0].bno < |old(flat)| && pool[0].bno == old(pool)[0].bno
      ensures flat == old(flat)[pool[0].bno := data]
    {
      Restore(pool, scratch, flat, data);
      flat := flat[pool[0].bno := data];
      pool := pool[0 := pool[0].(data := data, dirty := true)];
    }

    /** Sets (0), tests (1) or clears (2) the bit of a block in the block map or the free map. */
    method DoMap(blk: int, flg: int, free: bool) returns (n: bv8)
      requires Valid() && 0 <= flg <= 2 && InMap(flat, if free then fmapblk else 0, blk)
      modifies `pool, `scratch, `flat, `used, `clock
      ensures Valid()
      ensures flg == 0 ==> flat == WithBit(old(flat), if free then fmapblk else 0, blk, true)
      ensures flg == 1 ==> flat == old(flat) && (n != 0 <==> Bit(flat, if free then fmapblk else 0, blk))
      ensures flg == 2 ==> flat == WithBit(old(flat), if free then fmapblk else 0, blk, false)
    {
      hide PoolOk, Shows, Recency, Mask, BitPut;
      var byte := blk / 8;
      n := Mask(blk % 8);
      var base := if free then fmapblk else 0;
      var p := Fetch(base + byte / BSIZE, byte % BSIZE);
      if flg == 0 {
        Store(byte % BSIZE, BitPut(p, n, true));
      } else if flg == 1 {
        n := n & p;
        AndSwap(p, blk % 8);
      } else {
        Store(byte % BSIZE, BitPut(p, n, false));
      }
    }

    /** A byte of block blk, which is in the first buffer then. */
    method Fetch(blk: int, off: int) returns (p: bv8)
      requires Valid() && Inside(flat, blk, off)
      modifies `pool, `scratch, `used, `clock
      ensures Valid() && Front(blk) && p == flat[blk][off]
    {
      hide PoolOk, Shows, Recency;
      FlatSize();
      GetBlk(blk);
      FirstSize();
      p := pool[0].data[off];
    }

    ghost predicate Front(blk: int)
      reads this
    {
      |pool| > 0 && 0 <= blk < |flat| && pool[0].bno == blk && pool[0].data == flat[blk]
    }

    method Store(off: int, v: bv8)
      requires Valid() && |pool| > 0 && Front(pool[0].bno) && Inside(flat, pool[0].bno, off)
      modifies `pool, `flat
      ensures Valid() && flat == Put(old(flat), old(pool)[0].bno, off, v)
    {
      hide PoolOk, Shows, Recency;
      FirstSize();
      Change(pool[0].data[off := v]);
    }

    /** Sets (0) or gets (1) the state of inode inum. */
    method DoState(s: bv8, flg: int) returns (r: bv8)
      requires Valid() && 0 <= flg <= 1 && s <= 3 && InStates(flat, smapblk, inum)
      modifies `pool, `scratch, `flat, `used, `clock
      ensures Valid()
      ensures flg == 0 ==> r == s && flat == WithState(old(flat), smapblk, inum, s)
      ensures flg == 1 ==> flat == old(flat) && r == State(flat, smapblk, inum)
    {
      hide PoolOk, Shows, Recency;
      var byte := inum / 4;
      var p := Fetch(smapblk + byte / BSIZE, byte % BSIZE);
      if flg == 0 {
        Store(byte % BSIZE, WithField(p, inum % 4, s));
        return s;
      }
      return Field(p, inum % 4);
    }

    /** Sets (0), gets (1) or decrements (2) the link count of inode inum. */
    method DoLncnt(val: int, flg: int) returns (r: int)
      requires Valid() && 0 <= flg <= 2 && InLinks(flat, lncntblk, inum)
      modifies `pool, `scratch, `flat, `used, `clock
      ensures Valid()
      ensures flg == 0 ==> r == Wrap(val) && flat == WithLink(old(flat), lncntblk, inum, val)
      ensures flg == 1 ==> r == old(Link(flat, lncntblk, inum)) && flat == old(flat)
      ensures flg == 2 ==> r == Wrap(old(Link(flat, lncntblk, inum)) - 1)
      ensures flg == 2 ==> flat == WithLink(old(flat), lncntblk, inum, old(Link(flat, lncntblk, inum)) - 1)
    {
      hide PoolOk, Shows, Recency, Short, Lo, Hi, Wrap;
      FlatSize();
      GetBlk(lncntblk + inum / SPERB);
      FirstSize();
      var at, d := 2 * (inum % SPERB), pool[0].data;
      r := Short(d[at], d[at + 1]);
      match flg
      case 0 =>
        Change(d[at := Lo(val)][at + 1 := Hi(val)]);
        ShortWrap(val);
        r := Wrap(val);
      case 1 =>
      case _ =>
        Change(d[at := Lo(r - 1)][at + 1 := Hi(r - 1)]);
        ShortWrap(r - 1);
        r := Wrap(r - 1);
    }

    lemma FlatSize()
      requires Valid()
      ensures |flat| == |scratch|
    {
    }

    lemma FirstSize()
      requires Valid()
      ensures |pool| > 0 && |pool[0].data| == BSIZE
    {
      assert BufferOk(pool[0], scratch);
    }
  }

  /** The list is in order of last use. */
  ghost predicate Recency(used: seq<int>, clock: int) {
    && (forall i :: 0 <= i < |used| ==> used[i] <= clock)
    && forall i, j :: 0 <= i < j < |used| ==> used[i] > used[j]
  }

  lemma UsedNow(used: seq<int>, clock: int, k: int)
    requires Recency(used, clock) && 0 <= k < |used|
    ensures Recency(ToFront(used, k)[0 := clock + 1], clock + 1)
  {
    var u := ToFront(used, k)[0 := clock + 1];
    forall i | 0 < i < |u| ensures u[i] == used[Before(k, i)] {
      ToFrontAt(used, k, i);
    }
  }

  lemma ToFrontNone(pool: seq<Buffer>, k: int, blk: int)
    requires 0 <= k < |pool| && pool[k].bno != blk
    requires forall i :: 0 <= i < |pool| && i != k ==> pool[i].bno != blk
    ensures forall i :: 0 <= i < |pool| ==> ToFront(pool, k)[i].bno != blk
  {
    forall i | 0 <= i < |pool| ensures ToFront(pool, k)[i].bno != blk {
      ToFrontAt(pool, k, i);
    }
  }
}
