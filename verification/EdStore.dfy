/** The line store of ed: a file of blocks seen through two buffers. */
module EdStore {
  const BLKSIZE := 512
  const NBLK := 2047
  const LBSIZE := 512
  const NEWLINE := 10

  type Block = seq<int>

  /** The byte at address a, when what is in obuff counts for block oblock. */
  ghost predicate Present(disk: map<int, Block>, oblock: int, b: int) {
    b == oblock || (b in disk && |disk[b]| == BLKSIZE)
  }

  ghost function At(disk: map<int, Block>, oblock: int, obuff: Block, a: int): int
    requires a >= 0 && |obuff| == BLKSIZE && Present(disk, oblock, a / BLKSIZE)
  {
    if a / BLKSIZE == oblock then obuff[a % BLKSIZE] else disk[a / BLKSIZE][a % BLKSIZE]
  }

  /** What putline takes from the line buffer: all before the first newline or NUL. */
  ghost predicate Taken(buf: seq<int>, n: int) {
    && 0 <= n < |buf| && (buf[n] == 0 || buf[n] == NEWLINE)
    && forall k :: 0 <= k < n ==> buf[k] != 0 && buf[k] != NEWLINE
  }

  lemma TakenSize(buf: seq<int>, n: int)
    requires Taken(buf, n)
    ensures 0 <= n < |buf|
  {
  }

  /** The k-th byte of a stored line is where it belongs. */
  ghost predicate Holds(disk: map<int, Block>, oblock: int, obuff: Block, tl: int, line: seq<int>, k: int)
    requires 2 <= tl && |obuff| == BLKSIZE && 0 <= k <= |line|
  {
    && Present(disk, oblock, (2 * tl + k) / BLKSIZE)
    && At(disk, oblock, obuff, 2 * tl + k) == if k < |line| then line[k] else 0
  }

  /** The bytes from address 2 tl on are the line and a NUL. */
  ghost predicate Stored(disk: map<int, Block>, oblock: int, obuff: Block, tline: int, tl: int, line: seq<int>)
    requires |obuff| == BLKSIZE
  {
    && 2 <= tl && tl % 2 == 0 && 2 * tl + |line| + 1 <= 2 * tline && (2 * tl + |line|) / BLKSIZE < NBLK
    && |line| < LBSIZE && (forall k :: 0 <= k < |line| ==> line[k] != 0 && line[k] != NEWLINE)
    && forall k :: 0 <= k <= |line| ==> Holds(disk, oblock, obuff, tl, line, k)
  }

  /** Every line is stored, and no two of them overlap. */
  ghost predicate AllStored(disk: map<int, Block>, oblock: int, obuff: Block, tline: int, lines: map<int, seq<int>>)
    requires |obuff| == BLKSIZE
  {
    && (forall tl :: tl in lines ==> Stored(disk, oblock, obuff, tline, tl, lines[tl]))
    && forall t, u :: t in lines && u in lines && t < u ==> 2 * t + |lines[t]| + 1 <= 2 * u
  }

  /** All blocks up to the frontier are in the file or in obuff, and the block there is not in ibuff. */
  ghost predicate BuffersOk(disk: map<int, Block>, ibuff: Block, iblock: int, obuff: Block, oblock: int, ichanged: bool,
                            tline: int) {
    && |obuff| == BLKSIZE && |ibuff| == BLKSIZE && !ichanged
    && 2 <= tline && tline % 2 == 0
    && (oblock == tline / 256 || (tline % 256 == 0 && oblock == tline / 256 - 1) || (oblock == -1 && tline == 2))
    && -1 <= iblock < tline / 256 && (iblock >= 0 ==> iblock != oblock && iblock in disk && ibuff == disk[iblock])
    && forall b :: 0 <= b < tline / 256 ==> Present(disk, oblock, b)
  }

  class Store {
    var disk: map<int, Block>
    var linebuf: seq<int>
    /** where the rest of a line that was split begins in linebuf */
    var linebp: int
    var ibuff: Block
    var iblock: int
    var obuff: Block
    var oblock: int
    var ichanged: bool
    var nleft: int
    var tline: int
    /** the lines stored so far, by what putline returned for them */
    ghost var lines: map<int, seq<int>>

    // ----- Invariant -----

    ghost predicate Buffers()
      reads this
    {
      BuffersOk(disk, ibuff, iblock, obuff, oblock, ichanged, tline)
    }

    ghost predicate Valid()
      reads this
    {
      Buffers() && AllStored(disk, oblock, obuff, tline, lines)
    }

    constructor ()
      ensures Valid() && lines == map[] && tline == 2 && |linebuf| == LBSIZE
    {
      disk, lines := map[], map[];
      linebuf := seq(LBSIZE, i => 0);
      ibuff, obuff := seq(BLKSIZE, i => 0), seq(BLKSIZE, i => 0);
      iblock, oblock, ichanged, nleft, tline, linebp := -1, -1, false, 0, 2, 0;
    }

    // ----- Blocks -----

    method WriteBack()
      modifies `disk, `ichanged
      ensures !ichanged && disk == if old(ichanged) then old(disk)[iblock := ibuff] else old(disk)
    {
      if ichanged {
        disk := disk[iblock := ibuff];
      }
      ichanged := false;
    }

    /** Where a byte is to be found or put: in obuff or in ibuff, and at which offset. */
    method GetBlock(atl: int, write: bool) returns (ok: bool, out: bool, off: int)
      requires 0 <= atl && |obuff| == BLKSIZE && |ibuff| == BLKSIZE && !ichanged
      requires iblock >= 0 ==> iblock in disk && ibuff == disk[iblock] && iblock != oblock
      requires !write ==> Present(disk, oblock, atl / 256)
      requires write ==> atl / 256 != iblock
      modifies `disk, `ibuff, `iblock, `obuff, `oblock, `ichanged, `nleft
      ensures |obuff| == BLKSIZE && |ibuff| == BLKSIZE && !ichanged
      ensures off == 2 * (atl % 256) - (2 * (atl % 256)) % 4 && nleft == (if ok then BLKSIZE - off else old(nleft))
      ensures ok <==> atl / 256 < NBLK
      ensures !ok ==> unchanged(`disk, `ibuff, `iblock, `obuff, `oblock)
      ensures ok && write ==>
        out && oblock == atl / 256 && iblock == old(iblock) && ibuff == old(ibuff) && obuff == old(obuff)
      ensures ok && write ==>
        disk == if old(oblock) >= 0 && old(oblock) != atl / 256 then old(disk)[old(oblock) := old(obuff)] else old(disk)
      ensures ok && !write ==> disk == old(disk) && obuff == old(obuff) && oblock == old(oblock)
      ensures ok && !write ==>
        if out then atl / 256 == oblock
        else iblock == atl / 256 && iblock != oblock && iblock in disk && ibuff == disk[iblock]
      ensures (iblock == old(iblock) && ibuff == old(ibuff)) || (ok && !write && !out && iblock == atl / 256)
    {
      var bno := atl / 256;
      off := 2 * (atl % 256);
      off := off - off % 4;
      out := true;
      if bno >= NBLK {
        return false, true, off;
      }
      nleft := BLKSIZE - off;
      ok := true;
      if bno == iblock {
        ichanged := ichanged || write;
        out := false;
        return;
      }
      if bno == oblock {
        return;
      }
      if !write {
        WriteBack();
        iblock := bno;
        ibuff := disk[bno];
        out := false;
        return;
      }
      if oblock >= 0 {
        disk := disk[oblock := obuff];
      }
      oblock := bno;
    }

    // ----- Lines -----

    /** Where the next byte to be read is: address a. */
    ghost predicate Reading(a: int, out: bool, pos: int, nl: int)
      reads this
    {
      && a >= 4 && pos == a % BLKSIZE && nl == BLKSIZE - pos && Buffers()
      && if out then a / BLKSIZE == oblock else a / BLKSIZE == iblock
    }

    /** Brings in the block of address a, which is below the frontier. */
    method ReadBlock(atl: int, ghost a: int) returns (out: bool, off: int)
      requires Buffers() && 4 <= a < 2 * tline && atl / 256 == a / BLKSIZE < NBLK
      requires a % BLKSIZE == 2 * (atl % 256) - (2 * (atl % 256)) % 4
      modifies `disk, `ibuff, `iblock, `obuff, `oblock, `ichanged, `nleft
      ensures Reading(a, out, off, nleft) && disk == old(disk) && oblock == old(oblock) && obuff == old(obuff)
    {
      Frontier(a);
      var ok;
      ok, out, off := GetBlock(atl, false);
    }

    lemma Frontier(a: int)
      requires Buffers() && 4 <= a < 2 * tline
      ensures Present(disk, oblock, a / BLKSIZE)
      ensures a / BLKSIZE < tline / 256 || oblock == a / BLKSIZE
    {
    }

    lemma GoodLine(tl: int)
      requires Valid() && tl in lines
      ensures |obuff| == BLKSIZE && |ibuff| == BLKSIZE && Stored(disk, oblock, obuff, tline, tl, lines[tl])
    {
    }

    lemma ByteRead(a: int, out: bool, pos: int, nl: int)
      requires Reading(a, out, pos, nl) && Present(disk, oblock, a / BLKSIZE)
      ensures |obuff| == BLKSIZE && |ibuff| == BLKSIZE && 0 <= pos < BLKSIZE
      ensures (if out then obuff[pos] else ibuff[pos]) == At(disk, oblock, obuff, a)
    {
    }

    /** Goes on from the byte at address a to the next one. */
    method NextByte(ghost a: int, t: int, out: bool, pos: int, nl: int)
      returns (t': int, out': bool, pos': int, nl': int)
      requires Reading(a, out, pos, nl) && t / 256 == a / BLKSIZE && t % 256 == 0 && a + 1 < 2 * tline
      requires (a + 1) / BLKSIZE < NBLK
      modifies `disk, `ibuff, `iblock, `obuff, `oblock, `ichanged, `nleft
      ensures Reading(a + 1, out', pos', nl') && t' / 256 == (a + 1) / BLKSIZE && t' % 256 == 0
      ensures disk == old(disk) && oblock == old(oblock) && obuff == old(obuff)
    {
      hide BuffersOk;
      t', out', pos', nl' := t, out, pos + 1, nl - 1;
      if nl' == 0 {
        t' := t + 256;
        NextBlock(a + 1, t');
        out', pos' := ReadBlock(t', a + 1);
        nl' := nleft;
      } else {
        SameBlock(a + 1);
      }
    }

    /** Gives the line that was stored when putline returned tl; the mark bit of at does not matter. */
    method GetLine(at: int, ghost tl: int)
      requires Valid() && tl in lines && (at == tl || at == tl + 1) && |linebuf| == LBSIZE
      modifies `disk, `linebuf, `ibuff, `iblock, `obuff, `oblock, `ichanged, `nleft
      ensures Valid() && |linebuf| == LBSIZE && disk == old(disk) && oblock == old(oblock) && obuff == old(obuff)
      ensures linebuf[..|lines[tl]|] == lines[tl] && linebuf[|lines[tl]|] == 0
    {
      hide AllStored, BuffersOk, Present, At;
      GoodLine(tl);
      ghost var line := lines[tl];
      assert Stored(disk, oblock, obuff, tline, tl, line);
      var t := at;
      var k := 0;
      Marked(tl, at);
      var out, pos := ReadBlock(t, 2 * tl);
      var nl := nleft;
      t := t - t % 256;
      var c := 1;
      while c != 0
        invariant 0 <= k <= |line| + 1 && |linebuf| == LBSIZE && (c == 0 <==> k == |line| + 1)
        invariant disk == old(disk) && oblock == old(oblock) && obuff == old(obuff) && Buffers()
        invariant c != 0 ==> Reading(2 * tl + k, out, pos, nl) && t / 256 == (2 * tl + k) / BLKSIZE && t % 256 == 0
        invariant forall j :: 0 <= j < k ==> linebuf[j] == if j < |line| then line[j] else 0
        decreases |line| + 1 - k
      {
        assert Holds(disk, oblock, obuff, tl, line, k);
        ByteRead(2 * tl + k, out, pos, nl);
        c := if out then obuff[pos] else ibuff[pos];
        linebuf := linebuf[k := c];
        if c != 0 {
          t, out, pos, nl := NextByte(2 * tl + k, t, out, pos, nl);
        }
        k := k + 1;
      }
      assert linebuf[..|line|] == line;
    }

    /** At address a, with the present line from address 2 tline on. */
    ghost predicate Writing(a: int, pos: int, nl: int)
      reads this
    {
      && pos == a % BLKSIZE && nl == BLKSIZE - pos
      && WritingOk(disk, ibuff, iblock, obuff, oblock, ichanged, tline, a)
    }

    /** Makes the block of address a the one in obuff. */
    method WriteBlock(atl: int, ghost a: int) returns (ok: bool, off: int)
      requires atl / 256 == a / BLKSIZE && a % BLKSIZE == 2 * (atl % 256) - (2 * (atl % 256)) % 4
      requires || (a == 2 * tline && Buffers())
               || (a > 2 * tline && a % BLKSIZE == 0
                   && WritingOk(disk, ibuff, iblock, obuff, oblock, ichanged, tline, a - 1))
      modifies `disk, `ibuff, `iblock, `obuff, `oblock, `ichanged, `nleft
      ensures ok <==> a / BLKSIZE < NBLK
      ensures ok ==> Writing(a, off, nleft) && SameBelow(old(disk), old(oblock), old(obuff), disk, oblock, obuff, a)
      ensures !ok ==> unchanged(`disk, `ibuff, `iblock, `obuff, `oblock, `ichanged)
    {
      BlockBefore(a);
      var out;
      ghost var d, o, w := disk, oblock, a == 2 * tline;
      ok, out, off := GetBlock(atl, true);
      if ok {
        forall b | 0 <= b < oblock ensures b in disk && |disk[b]| == BLKSIZE {
          assert w ==> Present(d, o, b);
        }
      }
    }

    /** Goes on from the byte just written at address a; fails when the file is full. */
    method NextPlace(ghost a: int, t: int, pos: int, nl: int, ghost n: int, ghost k: int)
      returns (ok: bool, t': int, pos': int, nl': int)
      requires k >= 1 && Writing(a, pos, nl) && t / 256 == a / BLKSIZE && t % 256 == 0 && a + 1 == 2 * tline + k
      requires a < 2 * tline + LBSIZE
      requires AllStored(disk, oblock, obuff, tline, lines) && Wrote(disk, oblock, obuff, tline, linebuf, n, k)
      requires a / BLKSIZE < NBLK
      modifies `disk, `ibuff, `iblock, `obuff, `oblock, `ichanged, `nleft
      ensures ok <==> (a + 1) / BLKSIZE < NBLK
      ensures ok ==> Writing(a + 1, pos', nl') && t' / 256 == (a + 1) / BLKSIZE && t' % 256 == 0
      ensures if ok then |obuff| == BLKSIZE == |ibuff| else Buffers()
      ensures AllStored(disk, oblock, obuff, tline, lines) && (ok ==> Wrote(disk, oblock, obuff, tline, linebuf, n, k))
    {
      hide AllStored, BuffersOk, WritingOk, SameBelow, Wrote;
      ok, t', pos', nl' := true, t, pos + 1, nl - 1;
      if nl' == 0 {
        t' := t + 256;
        NextBlock(a + 1, t');
        ghost var d, o, b := disk, oblock, obuff;
        WritingSizes(a, pos, nl);
        ok, pos' := WriteBlock(t', a + 1);
        if !ok {
          GiveUp(disk, ibuff, iblock, obuff, oblock, ichanged, tline, a);
          return;
        }
        WritingSizes(a + 1, pos', nleft);
        StoredSame(d, o, b, disk, oblock, obuff, tline, lines, a + 1);
        WroteSame(d, o, b, disk, oblock, obuff, tline, linebuf, n, k, a + 1);
        nl' := nleft;
      } else {
        SameBlock(a + 1);
        WritingSizes(a, pos, nl);
        StillWriting(disk, ibuff, iblock, obuff, oblock, ichanged, tline, a);
      }
    }

    /** Stores the line in the line buffer; what is returned is the old value of tline. */
    method PutLine(ghost n: int) returns (ok: bool, tl: int)
      requires Valid() && |linebuf| == LBSIZE && Taken(linebuf, n)
      modifies `disk, `ibuff, `iblock, `obuff, `oblock, `ichanged, `nleft, `tline, `lines, `linebp
      ensures Valid() && (ok <==> (2 * old(tline) + n) / BLKSIZE < NBLK)
      ensures !ok ==> lines == old(lines) && tline == old(tline) && linebp == old(linebp)
      ensures ok ==> linebp == if linebuf[n] == NEWLINE then n + 1 else old(linebp)
      ensures ok ==> tl == old(tline) && tl !in old(lines) && lines == old(lines)[tl := linebuf[..n]]
      ensures ok ==> 2 * tline == 2 * old(tline) + Taking(n)
    {
      hide AllStored, BuffersOk, WritingOk, SameBelow, Wrote, Taken, Present;
      TakenSize(linebuf, n);
      ghost var was := tline;
      BufferSizes();
      AddressOf(tline);
      var t, k := tline, 0;
      var pos;
      ghost var d, o, b := disk, oblock, obuff;
      ok, pos := WriteBlock(t, 2 * tline);
      if !ok {
        TooFar(2 * tline, n);
        return false, 0;
      }
      WritingSizes(2 * tline, pos, nleft);
      StoredSame(d, o, b, disk, oblock, obuff, tline, lines, 2 * tline);
      WroteNone(disk, oblock, obuff, tline, linebuf);
      var nl := nleft;
      t := t - t % 256;
      var done := false;
      while !done
        invariant 0 <= k <= n + 1 && (done <==> k == n + 1) && tline == was && lines == old(lines)
        invariant |obuff| == BLKSIZE && |ibuff| == BLKSIZE
        invariant !done ==> Writing(2 * tline + k, pos, nl) && t / 256 == (2 * tline + k) / BLKSIZE && t % 256 == 0
        invariant done ==> WritingOk(disk, ibuff, iblock, obuff, oblock, ichanged, tline, 2 * tline + n)
        invariant AllStored(disk, oblock, obuff, tline, lines) && Wrote(disk, oblock, obuff, tline, linebuf, n, k)
        invariant linebp == if done && linebuf[n] == NEWLINE then n + 1 else old(linebp)
        invariant (2 * tline + (if k <= n then k else n)) / BLKSIZE < NBLK
        decreases n + 1 - k
      {
        var c := linebuf[k];
        ghost var a := 2 * tline + k;
        PutByte(disk, ibuff, iblock, obuff, oblock, ichanged, tline, lines, linebuf, n, k);
        obuff := obuff[pos := if c == NEWLINE then 0 else c];
        k := k + 1;
        if c == 0 || c == NEWLINE {
          linebp := if c == NEWLINE then k else linebp;
          done := true;
        } else {
          ok, t, pos, nl := NextPlace(a, t, pos, nl, n, k);
          if !ok {
            TooFar(a + 1, n - k);
            return false, 0;
          }
        }
      }
      tl := Enlist(n, k);
    }

    /** The line, k bytes with its NUL, is in place: the next one begins at the next multiple of four bytes. */
    method Enlist(ghost n: int, k: int) returns (tl: int)
      requires |linebuf| == LBSIZE && |obuff| == BLKSIZE && Taken(linebuf, n) && k == n + 1
      requires 2 <= tline && tline % 2 == 0 && (2 * tline + n) / BLKSIZE < NBLK
      requires AllStored(disk, oblock, obuff, tline, lines) && Wrote(disk, oblock, obuff, tline, linebuf, n, k)
      requires WritingOk(disk, ibuff, iblock, obuff, oblock, ichanged, tline, 2 * tline + n)
      modifies `tline, `lines
      ensures Valid() && tl == old(tline) && tl !in old(lines) && lines == old(lines)[tl := linebuf[..n]]
      ensures 2 * tline == 2 * old(tline) + Taking(n)
    {
      hide AllStored, BuffersOk, WritingOk, Wrote, Taken;
      TakenSize(linebuf, n);
      tl := tline;
      var size := (k + 3) / 2;
      tline := tline + (size - size % 2) % 0x8000;
      Enough(tl, k, tline);
      NewTop(disk, ibuff, iblock, obuff, oblock, ichanged, tl, tline, n);
      NewLine(disk, oblock, obuff, tl, tline, lines, linebuf, n);
      lines := lines[tl := linebuf[..n]];
    }

    lemma BufferSizes()
      requires Buffers()
      ensures |obuff| == BLKSIZE && |ibuff| == BLKSIZE && 2 <= tline && tline % 2 == 0
    {
    }

    lemma WritingSizes(a: int, pos: int, nl: int)
      requires Writing(a, pos, nl)
      ensures |obuff| == BLKSIZE && |ibuff| == BLKSIZE
    {
    }
  }

  /** Writing at address a: all blocks before the one in obuff are in the file. */
  ghost predicate WritingOk(disk: map<int, Block>, ibuff: Block, iblock: int, obuff: Block, oblock: int, ichanged: bool,
                            tline: int, a: int) {
    && |obuff| == BLKSIZE && |ibuff| == BLKSIZE && !ichanged && 2 <= tline && tline % 2 == 0 && a >= 2 * tline
    && oblock == a / BLKSIZE
    && -1 <= iblock < tline / 256 && (iblock >= 0 ==> iblock in disk && ibuff == disk[iblock])
    && forall b :: 0 <= b < oblock ==> b in disk && |disk[b]| == BLKSIZE
  }

  /** All that was there below lim is still there. */
  ghost predicate SameBelow(d: map<int, Block>, o: int, b: Block, d': map<int, Block>, o': int, b': Block, lim: int) {
    && |b| == BLKSIZE == |b'|
    && forall a :: 4 <= a < lim && Present(d, o, a / BLKSIZE) ==> SameByte(d, o, b, d', o', b', a)
  }

  ghost predicate SameByte(d: map<int, Block>, o: int, b: Block, d': map<int, Block>, o': int, b': Block, a: int)
    requires |b| == BLKSIZE == |b'| && a >= 0 && Present(d, o, a / BLKSIZE)
  {
    Present(d', o', a / BLKSIZE) && At(d', o', b', a) == At(d, o, b, a)
  }

  lemma StoredSame(d: map<int, Block>, o: int, b: Block, d': map<int, Block>, o': int, b': Block, tline: int,
                   lines: map<int, seq<int>>, lim: int)
    requires |b| == BLKSIZE == |b'| && AllStored(d, o, b, tline, lines) && SameBelow(d, o, b, d', o', b', lim)
    requires lim >= 2 * tline
    ensures AllStored(d', o', b', tline, lines)
  {
    forall tl | tl in lines ensures Stored(d', o', b', tline, tl, lines[tl]) {
      assert Stored(d, o, b, tline, tl, lines[tl]);
      forall k | 0 <= k <= |lines[tl]| ensures Holds(d', o', b', tl, lines[tl], k) {
        assert Holds(d, o, b, tl, lines[tl], k);
        assert SameByte(d, o, b, d', o', b', 2 * tl + k);
      }
    }
  }

  /** The first k bytes of the line and its NUL are in place. */
  ghost predicate Wrote(disk: map<int, Block>, oblock: int, obuff: Block, tline: int, buf: seq<int>, n: int, k: int)
    requires |obuff| == BLKSIZE
  {
    && 2 <= tline && 0 <= n < |buf| && 0 <= k <= n + 1
    && forall j :: 0 <= j < k ==> Holds(disk, oblock, obuff, tline, buf[..n], j)
  }

  lemma WroteNone(disk: map<int, Block>, oblock: int, obuff: Block, tline: int, buf: seq<int>)
    requires |obuff| == BLKSIZE && 2 <= tline
    ensures forall n :: 0 <= n < |buf| ==> Wrote(disk, oblock, obuff, tline, buf, n, 0)
  {
  }

  lemma WroteSame(d: map<int, Block>, o: int, b: Block, d': map<int, Block>, o': int, b': Block, tline: int,
                  buf: seq<int>, n: int, k: int, lim: int)
    requires |b| == BLKSIZE == |b'| && Wrote(d, o, b, tline, buf, n, k) && SameBelow(d, o, b, d', o', b', lim)
    requires lim >= 2 * tline + k
    ensures Wrote(d', o', b', tline, buf, n, k)
  {
    forall j | 0 <= j < k ensures Holds(d', o', b', tline, buf[..n], j) {
      assert Holds(d, o, b, tline, buf[..n], j);
      assert SameByte(d, o, b, d', o', b', 2 * tline + j);
    }
  }

  /** Writing one byte spoils nothing before it. */
  lemma PutByte(disk: map<int, Block>, ibuff: Block, iblock: int, obuff: Block, oblock: int, ichanged: bool, tline: int,
                lines: map<int, seq<int>>, buf: seq<int>, n: int, k: int)
    requires WritingOk(disk, ibuff, iblock, obuff, oblock, ichanged, tline, 2 * tline + k) && k <= n && Taken(buf, n)
    requires AllStored(disk, oblock, obuff, tline, lines) && Wrote(disk, oblock, obuff, tline, buf, n, k)
    ensures var b := obuff[(2 * tline + k) % BLKSIZE := if buf[k] == NEWLINE then 0 else buf[k]];
      && WritingOk(disk, ibuff, iblock, b, oblock, ichanged, tline, 2 * tline + k)
      && AllStored(disk, oblock, b, tline, lines) && Wrote(disk, oblock, b, tline, buf, n, k + 1)
    ensures (buf[k] == 0 || buf[k] == NEWLINE) <==> k == n
  {
    hide AllStored;
    var a := 2 * tline + k;
    var b := obuff[a % BLKSIZE := if buf[k] == NEWLINE then 0 else buf[k]];
    forall x | 4 <= x < a && Present(disk, oblock, x / BLKSIZE)
      ensures SameByte(disk, oblock, obuff, disk, oblock, b, x) {
      if x / BLKSIZE == oblock {
        assert x % BLKSIZE != a % BLKSIZE;
      }
    }
    StoredSame(disk, oblock, obuff, disk, oblock, b, tline, lines, a);
    WroteSame(disk, oblock, obuff, disk, oblock, b, tline, buf, n, k, a);
    assert Holds(disk, oblock, b, tline, buf[..n], k);
  }

  lemma BlockBefore(a: int)
    ensures a % BLKSIZE == 0 ==> (a - 1) / BLKSIZE == a / BLKSIZE - 1
  {
  }

  lemma StillWriting(disk: map<int, Block>, ibuff: Block, iblock: int, obuff: Block, oblock: int, ichanged: bool,
                     tline: int, a: int)
    requires WritingOk(disk, ibuff, iblock, obuff, oblock, ichanged, tline, a) && (a + 1) / BLKSIZE == a / BLKSIZE
    ensures WritingOk(disk, ibuff, iblock, obuff, oblock, ichanged, tline, a + 1)
  {
  }

  /** The file is full in the middle of a line: what was there before is there still. */
  lemma GiveUp(disk: map<int, Block>, ibuff: Block, iblock: int, obuff: Block, oblock: int, ichanged: bool, tline: int,
               a: int)
    requires WritingOk(disk, ibuff, iblock, obuff, oblock, ichanged, tline, a) && a < 2 * tline + LBSIZE
    requires (a + 1) % BLKSIZE == 0
    ensures BuffersOk(disk, ibuff, iblock, obuff, oblock, ichanged, tline)
  {
    NearEnd(tline, a);
  }

  lemma NearEnd(tline: int, a: int)
    requires tline % 2 == 0 && 2 * tline <= a < 2 * tline + LBSIZE && (a + 1) % BLKSIZE == 0
    ensures a / BLKSIZE == tline / 256
  {
    EndPlace(tline, a, (a + 1) / BLKSIZE, tline / 256, tline % 256);
  }

  lemma EndPlace(tline: int, a: int, c: int, q: int, r: int)
    requires a + 1 == BLKSIZE * c && tline == 256 * q + r && 0 <= r < 256 && 2 * tline <= a < 2 * tline + LBSIZE
    ensures a / BLKSIZE == q
  {
    assert c == q + 1;
    QuotientOf(a, q, BLKSIZE - 1);
  }

  lemma TooFar(a: int, n: int)
    requires n >= 0 && a / BLKSIZE >= NBLK
    ensures (a + n) / BLKSIZE >= NBLK
  {
  }

  /** The address of a pointer by its block and its place there. */
  lemma AddressOf(tl: int)
    requires tl % 2 == 0
    ensures tl / 256 == 2 * tl / BLKSIZE && 2 * tl % BLKSIZE == 2 * (tl % 256) - (2 * (tl % 256)) % 4
  {
    Halves(tl, tl / 256, tl % 256);
    EvenRest(tl, tl / 256, tl % 256);
    EvenPlace(tl % 256);
  }

  lemma EvenRest(tl: int, q: int, r: int)
    requires tl == 256 * q + r && tl % 2 == 0
    ensures r % 2 == 0
  {
  }

  lemma Halves(tl: int, q: int, r: int)
    requires tl == 256 * q + r && 0 <= r < 256
    ensures 2 * tl / BLKSIZE == q && 2 * tl % BLKSIZE == 2 * r
  {
    QuotientOf(2 * tl, q, 2 * r);
  }

  lemma EvenPlace(r: int)
    requires r % 2 == 0
    ensures 2 * r % 4 == 0
  {
  }

  /** The bytes that these lines take. */
  ghost function Space(lines: seq<seq<int>>): int {
    if lines == [] then 0 else Space(lines[..|lines| - 1]) + Taking(|lines[|lines| - 1]|)
  }

  lemma SpaceAdded(lines: seq<seq<int>>, line: seq<int>)
    ensures Space(lines + [line]) == Space(lines) + Taking(|line|)
  {
    assert (lines + [line])[..|lines|] == lines;
  }

  /** The bytes that a line of n characters takes: with its NUL, in whole fours. */
  ghost function Taking(n: int): int {
    4 * ((n + 1 + 3) / 4)
  }

  /** The next line starts at a multiple of four bytes, fewer than four bytes after the NUL. */
  lemma Enough(tl: int, k: int, next: int)
    requires tl % 2 == 0 && 1 <= k <= LBSIZE && next == tl + ((k + 3) / 2 - (k + 3) / 2 % 2) % 0x8000
    ensures next % 2 == 0 && 2 * tl + k <= 2 * next < 2 * tl + k + 4 && 2 * next == 2 * tl + Taking(k - 1)
  {
  }

  /** The block of the end of a line, seen from the beginning of the next one. */
  lemma TopBlock(e: int, next: int)
    requires next >= 0 && next % 2 == 0 && e >= 0 && e + 1 <= 2 * next < e + 5
    ensures e / BLKSIZE == next / 256 || (next % 256 == 0 && e / BLKSIZE == next / 256 - 1)
  {
    InBlock(e, next, next / 256, next % 256);
  }

  lemma InBlock(e: int, next: int, q: int, r: int)
    requires next == 256 * q + r && 0 <= r < 256 && r % 2 == 0 && e >= 0 && e + 1 <= 2 * next < e + 5
    ensures e / BLKSIZE == if r == 0 then q - 1 else q
  {
    if r == 0 {
      QuotientOf(e, q - 1, e - BLKSIZE * (q - 1));
    } else {
      assert r >= 2;
      QuotientOf(e, q, e - BLKSIZE * q);
    }
  }

  lemma QuotientOf(e: int, q: int, r: int)
    requires e == BLKSIZE * q + r && 0 <= r < BLKSIZE
    ensures e / BLKSIZE == q && e % BLKSIZE == r
  {
  }

  lemma Later(tl: int, next: int)
    requires tl <= next
    ensures tl / 256 <= next / 256
  {
  }

  lemma NewTop(disk: map<int, Block>, ibuff: Block, iblock: int, obuff: Block, oblock: int, ichanged: bool, tl: int,
               next: int, n: int)
    requires WritingOk(disk, ibuff, iblock, obuff, oblock, ichanged, tl, 2 * tl + n) && n >= 0
    requires next % 2 == 0 && 2 * tl + n + 1 <= 2 * next < 2 * tl + n + 5
    ensures BuffersOk(disk, ibuff, iblock, obuff, oblock, ichanged, next)
  {
    TopBlock(2 * tl + n, next);
    Later(tl, next);
  }

  lemma NewLine(disk: map<int, Block>, oblock: int, obuff: Block, tl: int, next: int, lines: map<int, seq<int>>,
                buf: seq<int>, n: int)
    requires |obuff| == BLKSIZE && AllStored(disk, oblock, obuff, tl, lines)
    requires Wrote(disk, oblock, obuff, tl, buf, n, n + 1)
    requires Taken(buf, n) && |buf| == LBSIZE && tl % 2 == 0 && 2 * tl + n + 1 <= 2 * next
    requires (2 * tl + n) / BLKSIZE < NBLK
    ensures tl !in lines && AllStored(disk, oblock, obuff, next, lines[tl := buf[..n]])
  {
    var more := lines[tl := buf[..n]];
    forall u | u in more ensures Stored(disk, oblock, obuff, next, u, more[u]) {
      assert u != tl ==> Stored(disk, oblock, obuff, tl, u, lines[u]);
    }
    forall t, u | t in more && u in more && t < u ensures 2 * t + |more[t]| + 1 <= 2 * u {
      assert t in lines && t != tl ==> Stored(disk, oblock, obuff, tl, t, lines[t]);
      assert u in lines && u != tl ==> Stored(disk, oblock, obuff, tl, u, lines[u]);
    }
    forall u | u in lines ensures u != tl {
      assert Stored(disk, oblock, obuff, tl, u, lines[u]);
    }
  }

  /** The mark bit is below what an address is made of. */
  lemma Marked(tl: int, at: int)
    requires tl >= 2 && tl % 2 == 0 && (at == tl || at == tl + 1)
    ensures at / 256 == 2 * tl / BLKSIZE && 2 * (at % 256) - (2 * (at % 256)) % 4 == 2 * tl % BLKSIZE
  {
    Halves(tl, tl / 256, tl % 256);
    EvenRest(tl, tl / 256, tl % 256);
    MarkedPlace(tl, at, tl / 256, tl % 256);
  }

  lemma MarkedPlace(tl: int, at: int, q: int, r: int)
    requires tl == 256 * q + r && 0 <= r < 256 && r % 2 == 0 && (at == tl || at == tl + 1)
    ensures at / 256 == q && 2 * (at % 256) - (2 * (at % 256)) % 4 == 2 * r
  {
    EvenPlace(r);
  }

  lemma NextBlock(a: int, t: int)
    requires a % BLKSIZE == 0 && t / 256 == (a - 1) / BLKSIZE + 1 && t % 256 == 0
    ensures t / 256 == a / BLKSIZE && a % BLKSIZE == 2 * (t % 256) - (2 * (t % 256)) % 4
  {
  }

  lemma SameBlock(a: int)
    requires a % BLKSIZE != 0
    ensures (a - 1) / BLKSIZE == a / BLKSIZE && (a - 1) % BLKSIZE + 1 == a % BLKSIZE
  {
  }
}
