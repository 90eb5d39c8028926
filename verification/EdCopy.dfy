/** The command t of ed: lines are copied through the line store to the end of the buffer, and moved from there. */
module EdCopy {
  import opened EdStore
  import opened EdLines

  /** The lines that these pointers stand for, marked or not. */
  ghost predicate Known(ps: seq<int>, lines: map<int, seq<int>>) {
    forall k :: 0 <= k < |ps| ==> Cleared(ps[k]) in lines
  }

  ghost function Text(ps: seq<int>, lines: map<int, seq<int>>): (r: seq<seq<int>>)
    requires Known(ps, lines)
    ensures |r| == |ps| && forall k :: 0 <= k < |ps| ==> r[k] == lines[Cleared(ps[k])]
  {
    seq(|ps|, k requires 0 <= k < |ps| => lines[Cleared(ps[k])])
  }

  /** All lines of was are still in lines, and the new pointers ps were none of theirs. */
  ghost predicate Extends(was: map<int, seq<int>>, lines: map<int, seq<int>>, ps: seq<int>) {
    && (forall tl :: tl in was ==> tl in lines && lines[tl] == was[tl])
    && forall k :: 0 <= k < |ps| ==> ps[k] !in was && ps[k] in lines && !EdLines.Marked(ps[k])
  }

  /** ps are new pointers to copies of the lines from place addr1 on, of which all stand in text. */
  ghost predicate Copied(text: seq<seq<int>>, was: map<int, seq<int>>, lines: map<int, seq<int>>, ps: seq<int>,
                         addr1: nat) {
    && Extends(was, lines, ps) && addr1 + |ps| <= |text|
    && forall k :: 0 <= k < |ps| ==> lines[ps[k]] == text[addr1 + k]
  }

  /** One more copy. */
  lemma CopiedMore(text: seq<seq<int>>, was: map<int, seq<int>>, lines: map<int, seq<int>>, ps: seq<int>, addr1: nat,
                   tl: int)
    requires Copied(text, was, lines, ps, addr1) && addr1 + |ps| < |text| && tl !in lines && !EdLines.Marked(tl)
    ensures Copied(text, was, lines[tl := text[addr1 + |ps|]], ps + [tl], addr1)
  {
  }

  /** The text of pointers, of which those in the middle are copies. */
  lemma CopiesIn(s: seq<int>, ps: seq<int>, was: map<int, seq<int>>, lines: map<int, seq<int>>, addr1: nat, adt: nat)
    requires Known(s, was) && Copied(Text(s, was), was, lines, ps, addr1) && adt <= |s|
    ensures Known(s[..adt] + ps + s[adt..], lines)
    ensures var text := Text(s, was);
      Text(s[..adt] + ps + s[adt..], lines) == text[..adt] + text[addr1..addr1 + |ps|] + text[adt..]
  {
    var t, text := s[..adt] + ps + s[adt..], Text(s, was);
    var made := text[..adt] + text[addr1..addr1 + |ps|] + text[adt..];
    forall k | 0 <= k < |t| ensures Cleared(t[k]) in lines && lines[Cleared(t[k])] == made[k] {
      if adt <= k < adt + |ps| {
        assert t[k] == ps[k - adt];
      } else {
        assert t[k] == s[if k < adt then k else k - |ps|];
      }
    }
  }

  /** The copies taken from the end of the buffer and put after line adt. */
  lemma MovedFromEnd(s: seq<int>, ps: seq<int>, cells: seq<int>, adt: nat)
    requires |s| + |ps| <= |cells| && cells[..|s| + |ps|] == s + ps && adt < |s|
    ensures Moved(cells, adt, |s|, |s| + |ps|)[..|s| + |ps|] == s[..adt + 1] + ps + s[adt + 1..]
  {
    Upwards(cells, adt, |s|, |s| + |ps|);
    var whole := cells[..|s| + |ps|];
    assert cells[..adt + 1] == whole[..adt + 1];
    assert cells[|s|..|s| + |ps|] == whole[|s|..];
    assert cells[adt + 1..|s|] == whole[adt + 1..|s|];
  }

  lemma LineTaken(store: Store, tl: int, buf: seq<int>)
    requires store.Valid() && tl in store.lines && |buf| == LBSIZE
    requires |store.lines[tl]| < LBSIZE ==> buf[..|store.lines[tl]|] == store.lines[tl] && buf[|store.lines[tl]|] == 0
    ensures |store.lines[tl]| < LBSIZE && Taken(buf, |store.lines[tl]|)
  {
    var line := store.lines[tl];
    store.GoodLine(tl);
    forall k | 0 <= k < |line| ensures buf[k] == line[k] {
      assert buf[..|line|][k] == buf[k];
    }
  }

  /** One line is read and stored again, and its new pointer goes behind the last one. */
  method CopyLine(b: Lines, store: Store, from: nat) returns (ok: bool, tl: int)
    requires b.Valid() && b.dot == b.dol && 1 <= from <= b.dol
    requires store.Valid() && |store.linebuf| == LBSIZE && Cleared(b.zero[from]) in store.lines
    modifies b, b.zero, store
    ensures b.Valid() && b.dot == b.dol && b.fchange && (b.zero == old(b.zero) || fresh(b.zero))
    ensures store.Valid() && |store.linebuf| == LBSIZE
    ensures var line := old(store.lines)[Cleared(old(b.zero[from]))];
      && ok == ((2 * old(store.tline) + |line|) / BLKSIZE < NBLK)
      && store.lines == (if ok then old(store.lines)[tl := line] else old(store.lines))
      && store.tline * 2 == old(store.tline) * 2 + (if ok then Taking(|line|) else 0)
    ensures b.Pointers() == old(b.Pointers()) + (if ok then [tl] else [])
    ensures ok ==> tl !in old(store.lines) && !EdLines.Marked(tl)
  {
    hide AllStored, BuffersOk, Taken, Taking;
    var at := b.zero[from];
    ghost var tl0 := Cleared(at);
    ghost var line := store.lines[tl0];
    store.GetLine(at, tl0);
    LineTaken(store, tl0, store.linebuf);
    b.fchange := true;
    store.BufferSizes();
    ok, tl := store.PutLine(|line|);
    if ok {
      assert store.linebuf[..|line|] == line;
      b.Insert(tl);
    }
  }

  /** The file has room for these lines, one after the other from byte start on. */
  ghost predicate Room(start: int, ls: seq<seq<int>>) {
    forall j :: 0 <= j < |ls| ==> RoomFor(start, ls, j)
  }

  ghost predicate RoomFor(start: int, ls: seq<seq<int>>, j: int)
    requires 0 <= j < |ls|
  {
    (start + Space(ls[..j]) + |ls[j]|) / BLKSIZE < NBLK
  }

  lemma RoomNext(start: int, ls: seq<seq<int>>, j: int)
    requires 0 <= j < |ls| && Room(start, ls[..j])
    ensures Space(ls[..j + 1]) == Space(ls[..j]) + Taking(|ls[j]|)
    ensures RoomFor(start, ls, j) ==> Room(start, ls[..j + 1])
    ensures Room(start, ls) ==> RoomFor(start, ls, j)
  {
    hide Space;
    assert ls[..j + 1] == ls[..j] + [ls[j]];
    SpaceAdded(ls[..j], ls[j]);
    var few, more := ls[..j], ls[..j + 1];
    if RoomFor(start, ls, j) {
      forall i | 0 <= i <= j ensures RoomFor(start, more, i) {
        assert more[..i] == ls[..i];
        if i < j { assert few[..i] == ls[..i] && RoomFor(start, few, i); }
      }
    }
  }

  /**
   * Of the lines from addr1 to addr2 of the buffer s those in ps have been copied: the pointers, the lines stored and
   * the end of the store are ptrs, lines and t, and were s, was and t0.
   */
  ghost predicate Copying(s: seq<int>, was: map<int, seq<int>>, t0: int, addr1: nat, addr2: nat,
                          ptrs: seq<int>, lines: map<int, seq<int>>, t: int, ps: seq<int>)
    requires 1 <= addr1 <= addr2 < |s| && Known(s[1..], was)
  {
    var text := Text(s[1..], was);
    var ls := text[addr1 - 1..addr2];
    && ptrs == s + ps && |ps| <= |ls| && Copied(text, was, lines, ps, addr1 - 1)
    && Room(2 * t0, ls[..|ps|]) && 2 * t == 2 * t0 + Space(ls[..|ps|])
  }

  lemma CopyingFirst(s: seq<int>, was: map<int, seq<int>>, t0: int, addr1: nat, addr2: nat)
    requires 1 <= addr1 <= addr2 < |s| && Known(s[1..], was)
    ensures Copying(s, was, t0, addr1, addr2, s, was, t0, [])
  {
    var ls := Text(s[1..], was)[addr1 - 1..addr2];
    assert ls[..0] == [] && s + [] == s;
  }

  lemma CopyingLine(s: seq<int>, was: map<int, seq<int>>, t0: int, addr1: nat, addr2: nat,
                    ptrs: seq<int>, lines: map<int, seq<int>>, t: int, ps: seq<int>)
    requires 1 <= addr1 <= addr2 < |s| && Known(s[1..], was)
    requires Copying(s, was, t0, addr1, addr2, ptrs, lines, t, ps) && addr1 + |ps| <= addr2
    ensures addr1 + |ps| < |ptrs| && Cleared(ptrs[addr1 + |ps|]) in lines
    ensures lines[Cleared(ptrs[addr1 + |ps|])] == Text(s[1..], was)[addr1 - 1..addr2][|ps|]
  {
    assert s[1..][addr1 - 1 + |ps|] == s[addr1 + |ps|];
  }

  lemma CopyingNext(s: seq<int>, was: map<int, seq<int>>, t0: int, addr1: nat, addr2: nat,
                    ptrs: seq<int>, lines: map<int, seq<int>>, t: int, ps: seq<int>, t': int, tl: int)
    requires 1 <= addr1 <= addr2 < |s| && Known(s[1..], was)
    requires Copying(s, was, t0, addr1, addr2, ptrs, lines, t, ps) && addr1 + |ps| <= addr2
    ensures var ls := Text(s[1..], was)[addr1 - 1..addr2];
      if (2 * t + |ls[|ps|]|) / BLKSIZE >= NBLK then !Room(2 * t0, ls)
      else tl !in lines && !EdLines.Marked(tl) && 2 * t' == 2 * t + Taking(|ls[|ps|]|) ==>
        Copying(s, was, t0, addr1, addr2, ptrs + [tl], lines[tl := ls[|ps|]], t', ps + [tl])
  {
    hide Space, Room, Copied, Taking;
    var text := Text(s[1..], was);
    var ls := text[addr1 - 1..addr2];
    RoomNext(2 * t0, ls, |ps|);
    assert text[addr1 - 1 + |ps|] == ls[|ps|];
    if tl !in lines && !EdLines.Marked(tl) { CopiedMore(text, was, lines, ps, addr1 - 1, tl); }
    assert s + ps + [tl] == s + (ps + [tl]);
  }

  /** append(getcopy, dol): copies of the lines from addr1 to addr2, as far as the file has room, come last. */
  method Append(b: Lines, store: Store, addr1: nat, addr2: nat) returns (ok: bool, ghost ps: seq<int>)
    requires b.Valid() && 1 <= addr1 <= addr2 <= b.dol && store.Valid() && |store.linebuf| == LBSIZE
    requires Known(b.Pointers()[1..], store.lines)
    modifies b, b.zero, store
    ensures b.Valid() && b.dot == b.dol && (b.zero == old(b.zero) || fresh(b.zero)) && b.fchange
    ensures store.Valid() && |store.linebuf| == LBSIZE
    ensures Copying(old(b.Pointers()), old(store.lines), old(store.tline), addr1, addr2,
                    b.Pointers(), store.lines, store.tline, ps)
    ensures ok == (|ps| == addr2 - addr1 + 1)
    ensures !ok ==> !Room(2 * old(store.tline), Text(old(b.Pointers())[1..], old(store.lines))[addr1 - 1..addr2])
  {
    hide Known, Text, Copying, Room, Space, Taking, AllStored, BuffersOk;
    b.dot := b.dol;
    ghost var s, was, t0 := b.Pointers(), store.lines, store.tline;
    ps := [];
    CopyingFirst(s, was, t0, addr1, addr2);
    var from := addr1;
    while from <= addr2
      invariant addr1 <= from <= addr2 + 1 && |ps| == from - addr1
      invariant b.Valid() && b.dot == b.dol && (b.zero == old(b.zero) || fresh(b.zero)) && (ps != [] ==> b.fchange)
      invariant store.Valid() && |store.linebuf| == LBSIZE
      invariant Copying(s, was, t0, addr1, addr2, b.Pointers(), store.lines, store.tline, ps)
    {
      ghost var ptrs, lines, t := b.Pointers(), store.lines, store.tline;
      CopyingLine(s, was, t0, addr1, addr2, ptrs, lines, t, ps);
      assert b.zero[from] == ptrs[from];
      var tl;
      ok, tl := CopyLine(b, store, from);
      CopyingNext(s, was, t0, addr1, addr2, ptrs, lines, t, ps, store.tline, tl);
      if !ok {
        assert b.Pointers() == ptrs;
        return;
      }
      ps := ps + [tl];
      from := from + 1;
    }
    ok := true;
  }

  lemma CopyingDone(s: seq<int>, was: map<int, seq<int>>, t0: int, addr1: nat, addr2: nat,
                    ptrs: seq<int>, lines: map<int, seq<int>>, t: int, ps: seq<int>)
    requires 1 <= addr1 <= addr2 < |s| && Known(s[1..], was)
    requires Copying(s, was, t0, addr1, addr2, ptrs, lines, t, ps)
    ensures ptrs == s + ps && Copied(Text(s[1..], was), was, lines, ps, addr1 - 1)
    ensures var ls := Text(s[1..], was)[addr1 - 1..addr2];
      && (|ps| == addr2 - addr1 + 1 ==> Room(2 * t0, ls))
      && 2 * t == 2 * t0 + Space(ls[..|ps|])
  {
    var ls := Text(s[1..], was)[addr1 - 1..addr2];
    assert |ps| == |ls| ==> ls[..|ps|] == ls;
  }

  /** The command t: copies of the lines from addr1 to addr2 come after line adt, if the file has room for them. */
  method Copy(b: Lines, store: Store, adt: nat, addr1: nat, addr2: nat) returns (ok: bool, ghost ps: seq<int>)
    requires b.Valid() && 1 <= addr1 <= addr2 <= b.dol && adt <= b.dol && store.Valid() && |store.linebuf| == LBSIZE
    requires Known(b.Pointers()[1..], store.lines)
    modifies b, b.zero, store
    ensures b.Valid() && store.Valid() && |store.linebuf| == LBSIZE && b.fchange
    ensures Known(b.Pointers()[1..], store.lines)
    ensures var s, text := old(b.Pointers()), Text(old(b.Pointers())[1..], old(store.lines));
      && ok == Room(2 * old(store.tline), text[addr1 - 1..addr2])
      && ok == (|ps| == addr2 - addr1 + 1) && Copied(text, old(store.lines), store.lines, ps, addr1 - 1)
      && b.Pointers() == (if ok then s[..adt + 1] + ps + s[adt + 1..] else s + ps)
      && b.dot == (if ok then adt + |ps| else b.dol)
      && Text(b.Pointers()[1..], store.lines) ==
         if ok then text[..adt] + text[addr1 - 1..addr2] + text[adt..]
         else text + text[addr1 - 1..addr1 - 1 + |ps|]
  {
    hide Known, Text, Copying, Copied, Room, Space, Moved, AllStored, BuffersOk;
    ghost var s, was, t0 := b.Pointers(), store.lines, store.tline;
    var ad1 := b.dol + 1;
    ok, ps := Append(b, store, addr1, addr2);
    CopyingDone(s, was, t0, addr1, addr2, b.Pointers(), store.lines, store.tline, ps);
    if !ok {
      Placed(s, ps, was, store.lines, addr1, |s| - 1);
      return;
    }
    ghost var cells := b.zero[..];
    var moved := b.Rearrange(adt, ad1, b.dol + 1);
    MovedFromEnd(s, ps, cells, adt);
    Placed(s, ps, was, store.lines, addr1, adt);
  }

  lemma Placed(s: seq<int>, ps: seq<int>, was: map<int, seq<int>>, lines: map<int, seq<int>>, addr1: nat, adt: nat)
    requires 1 <= addr1 && s != [] && Known(s[1..], was) && Copied(Text(s[1..], was), was, lines, ps, addr1 - 1)
    requires adt < |s|
    ensures s[..|s|] + ps + s[|s|..] == s + ps
    ensures |Text(s[1..], was)| == |s| - 1
    ensures var t, text := s[..adt + 1] + ps + s[adt + 1..], Text(s[1..], was);
      Known(t[1..], lines) && addr1 - 1 + |ps| <= |text|
      && Text(t[1..], lines) == text[..adt] + text[addr1 - 1..addr1 - 1 + |ps|] + text[adt..]
  {
    hide Known, Text, Extends;
    CopiesIn(s[1..], ps, was, lines, addr1 - 1, adt);
    var t := s[..adt + 1] + ps + s[adt + 1..];
    assert t[1..] == s[1..][..adt] + ps + s[1..][adt..];
  }
}
