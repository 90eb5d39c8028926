/** The array of line pointers of ed: moving lines by reversals, and deleting all marked lines in one pass. */
module EdLines {

  /** The lowest bit of a line pointer is a mark. */
  predicate Marked(tl: int) {
    tl % 2 != 0
  }

  function Cleared(tl: int): int {
    tl - tl % 2
  }

  /** The block s[from..to_] taken out and put after line adt. */
  function Moved(s: seq<int>, adt: nat, from: nat, to_: nat): (r: seq<int>)
    requires from <= to_ <= |s| && (adt < from || to_ <= adt < |s|)
    ensures |r| == |s|
  {
    var rest := s[..from] + s[to_..];
    var place := if adt < from then adt + 1 else adt + 1 - (to_ - from);
    rest[..place] + s[from..to_] + rest[place..]
  }

  /** s[from..to_] without its marks, in its place. */
  function Unmarked(s: seq<int>, from: nat, to_: nat): (t: seq<int>)
    ensures |t| == |s|
  {
    seq(|s|, k requires 0 <= k < |s| => if from <= k < to_ then Cleared(s[k]) else s[k])
  }

  /** t is s with s[i..j] turned around. */
  ghost predicate Turned(s: seq<int>, t: seq<int>, i: nat, j: nat)
    requires i <= j <= |s|
  {
    |t| == |s| && forall k :: 0 <= k < |s| ==> t[k] == Opposite(s, i, j, k)
  }

  function Opposite(s: seq<int>, i: nat, j: nat, k: nat): int
    requires i <= j <= |s| && k < |s|
  {
    if i <= k < j then s[i + j - 1 - k] else s[k]
  }

  /** Turning two neighbouring blocks around, and then both of them together, exchanges them. */
  lemma Exchange(s: seq<int>, t: seq<int>, u: seq<int>, v: seq<int>, i: nat, m: nat, j: nat)
    requires i <= m <= j <= |s|
    requires Turned(s, t, i, m) && Turned(t, u, m, j) && Turned(u, v, i, j)
    ensures v == s[..i] + s[m..j] + s[i..m] + s[j..]
  {
    var w := s[..i] + s[m..j] + s[i..m] + s[j..];
    assert |v| == |w|;
    forall k | 0 <= k < |s|
      ensures v[k] == w[k]
    {
      assert v[k] == Opposite(u, i, j, k);
      if i <= k < j {
        var q := i + j - 1 - k;
        assert u[q] == Opposite(t, m, j, q);
        var r := if q < m then q else m + j - 1 - q;
        assert t[r] == Opposite(s, i, m, r);
      } else {
        assert u[k] == Opposite(t, m, j, k) && t[k] == Opposite(s, i, m, k);
      }
    }
  }

  lemma Upwards(s: seq<int>, adt: nat, from: nat, to_: nat)
    requires adt < from <= to_ <= |s|
    ensures Moved(s, adt, from, to_) == s[..adt + 1] + s[from..to_] + s[adt + 1..from] + s[to_..]
  {
    var rest := s[..from] + s[to_..];
    assert rest[..adt + 1] == s[..adt + 1];
    assert rest[adt + 1..] == s[adt + 1..from] + s[to_..];
  }

  lemma Downwards(s: seq<int>, adt: nat, from: nat, to_: nat)
    requires from <= to_ <= adt < |s|
    ensures Moved(s, adt, from, to_) == s[..from] + s[to_..adt + 1] + s[from..to_] + s[adt + 1..]
  {
    var rest := s[..from] + s[to_..];
    var place := adt + 1 - (to_ - from);
    assert rest[..place] == s[..from] + s[to_..adt + 1];
    assert rest[place..] == s[adt + 1..];
  }

  /** Moving loses no line and doubles none. */
  lemma MovedKeeps(s: seq<int>, adt: nat, from: nat, to_: nat)
    requires from <= to_ <= |s| && (adt < from || to_ <= adt < |s|)
    ensures multiset(Moved(s, adt, from, to_)) == multiset(s)
  {
    var rest := s[..from] + s[to_..];
    var place := if adt < from then adt + 1 else adt + 1 - (to_ - from);
    Gathered(s[..from], s[from..to_], s[to_..]);
    Gathered(rest[..place], s[from..to_], rest[place..]);
    assert s == s[..from] + s[from..to_] + s[to_..];
    assert rest == rest[..place] + rest[place..];
    assert multiset(rest) == multiset(s[..from]) + multiset(s[to_..]);
    assert multiset(rest) == multiset(rest[..place]) + multiset(rest[place..]);
  }

  lemma Gathered(a: seq<int>, b: seq<int>, c: seq<int>)
    ensures multiset(a + b + c) == multiset(a) + multiset(c) + multiset(b)
  {
  }

  /** The pointers without a mark, in order. */
  function Kept(s: seq<int>): (r: seq<int>)
    ensures |r| <= |s|
  {
    if s == [] then [] else Kept(s[..|s| - 1]) + if Marked(s[|s| - 1]) then [] else [s[|s| - 1]]
  }

  lemma KeptNext(s: seq<int>, k: nat)
    requires k < |s|
    ensures Kept(s[..k + 1]) == Kept(s[..k]) + if Marked(s[k]) then [] else [s[k]]
  {
    assert s[..k + 1][..k] == s[..k];
  }

  lemma {:induction false} NoneMarked(s: seq<int>, k: nat)
    requires k <= |s| && forall i :: 0 <= i < k ==> !Marked(s[i])
    ensures Kept(s[..k]) == s[..k]
  {
    if k > 0 {
      NoneMarked(s, k - 1);
      KeptNext(s, k - 1);
      assert s[..k] == s[..k - 1] + [s[k - 1]];
    }
  }

  /** Nothing with a mark is kept. */
  lemma {:induction false} KeptUnmarked(s: seq<int>)
    ensures forall k :: 0 <= k < |Kept(s)| ==> !Marked(Kept(s)[k])
  {
    if s != [] {
      KeptUnmarked(s[..|s| - 1]);
    }
  }

  predicate SomeMarked(s: seq<int>) {
    exists k :: 0 <= k < |s| && Marked(s[k])
  }

  /** Where the current line gets to while the lines of s are looked at: every marked line but the first one
    * takes it behind the lines kept so far. */
  function Follow(s: seq<int>, dot: int): int {
    if s == [] then dot
    else if Marked(s[|s| - 1]) && SomeMarked(s[..|s| - 1]) then |Kept(s[..|s| - 1])|
    else Follow(s[..|s| - 1], dot)
  }

  /** A single deletion leaves the current line alone. */
  lemma {:induction false} OneDeleted(s: seq<int>, k: nat, dot: int)
    requires k < |s| && Marked(s[k]) && forall i :: 0 <= i < |s| && i != k ==> !Marked(s[i])
    ensures Follow(s, dot) == dot
  {
    if |s| - 1 > k {
      OneDeleted(s[..|s| - 1], k, dot);
    } else {
      NoneDeleted(s[..k], dot);
    }
  }

  lemma {:induction false} NoneDeleted(s: seq<int>, dot: int)
    requires forall i :: 0 <= i < |s| ==> !Marked(s[i])
    ensures Follow(s, dot) == dot
  {
    if s != [] {
      NoneDeleted(s[..|s| - 1], dot);
    }
  }

  /** Of several deletions the last one decides. */
  lemma {:induction false} SeveralDeleted(s: seq<int>, j: nat, k: nat, dot: int)
    requires j < k < |s| && Marked(s[j]) && Marked(s[k]) && forall i :: k < i < |s| ==> !Marked(s[i])
    ensures Follow(s, dot) == |Kept(s[..k])|
  {
    if |s| - 1 > k {
      SeveralDeleted(s[..|s| - 1], j, k, dot);
      assert s[..|s| - 1][..k] == s[..k];
    } else {
      assert s[..|s| - 1][j] == s[j];
    }
  }

  lemma FollowNext(s: seq<int>, k: nat, dot: int)
    requires k < |s|
    ensures Follow(s[..k + 1], dot) ==
            if Marked(s[k]) && SomeMarked(s[..k]) then |Kept(s[..k])| else Follow(s[..k], dot)
  {
    assert s[..k + 1][..k] == s[..k];
  }

  /** The pointers s with one place left free, at a1. */
  ghost predicate Gap(cells: seq<int>, s: seq<int>, a1: nat) {
    a1 <= |s| < |cells| && cells[..a1] == s[..a1] && cells[a1 + 1..|s| + 1] == s[a1..]
  }

  lemma GapFirst(cells: seq<int>, s: seq<int>)
    requires |s| < |cells| && cells[..|s|] == s
    ensures Gap(cells, s, |s|)
  {
  }

  lemma GapDown(cells: seq<int>, s: seq<int>, a1: nat)
    requires Gap(cells, s, a1) && a1 >= 1
    ensures a1 < |cells| && Gap(cells[a1 := cells[a1 - 1]], s, a1 - 1)
  {
    var down := cells[a1 := cells[a1 - 1]];
    assert cells[a1 - 1] == cells[..a1][a1 - 1] == s[a1 - 1];
    assert down[..a1 - 1] == cells[..a1][..a1 - 1];
    assert down[a1..|s| + 1] == [cells[a1 - 1]] + cells[a1 + 1..|s| + 1];
  }

  lemma GapFilled(cells: seq<int>, s: seq<int>, a1: nat, tl: int)
    requires Gap(cells, s, a1)
    ensures a1 < |cells| && cells[a1 := tl][..|s| + 1] == s[..a1] + [tl] + s[a1..]
  {
    var full := cells[a1 := tl];
    assert full[..|s| + 1] == full[..a1] + [tl] + full[a1 + 1..|s| + 1];
  }

  class Lines {
    var zero: array<int>
    var dol: int
    var dot: int
    var fchange: bool

    ghost predicate Valid()
      reads this
    {
      0 <= dol < zero.Length
    }

    /** The line pointers; place 0 stands before the first line. */
    ghost function Pointers(): seq<int>
      requires Valid()
      reads this, zero
    {
      zero[..dol + 1]
    }

    /** Make room for one more line. */
    method Grow()
      requires Valid()
      modifies this`zero
      ensures Valid() && dol + 1 < zero.Length && (zero == old(zero) || fresh(zero))
      ensures Pointers() == old(Pointers())
    {
      if dol + 1 >= zero.Length {
        var more := new int[zero.Length + 1024];
        forall k | 0 <= k < zero.Length {
          more[k] := zero[k];
        }
        assert more[..dol + 1] == zero[..dol + 1];
        zero := more;
      }
    }

    /** A new line behind the current one, which it becomes: the lines after it move up by one. */
    method Insert(tl: int)
      requires Valid() && 0 <= dot <= dol
      modifies this`zero, this`dol, this`dot, zero
      ensures Valid() && dol == old(dol) + 1 && dot == old(dot) + 1 && (zero == old(zero) || fresh(zero))
      ensures Pointers() == old(Pointers()[..dot + 1]) + [tl] + old(Pointers()[dot + 1..])
    {
      hide Gap;
      ghost var s := Pointers();
      Grow();
      dol := dol + 1;
      dot := dot + 1;
      var a1 := dol;
      GapFirst(zero[..], s);
      while a1 > dot
        modifies zero
        invariant dot <= a1 <= dol && Gap(zero[..], s, a1)
      {
        ghost var cells := zero[..];
        GapDown(cells, s, a1);
        a1 := a1 - 1;
        zero[a1 + 1] := zero[a1];
        assert zero[..] == cells[a1 + 1 := cells[a1]];
      }
      GapFilled(zero[..], s, a1, tl);
      ghost var cells := zero[..];
      zero[dot] := tl;
      assert zero[..] == cells[dot := tl];
    }

    /** Turn zero[a1..a2] around. */
    method Reverse(a1: nat, a2: nat)
      requires 1 <= a1 <= a2 <= zero.Length
      modifies zero
      ensures Turned(old(zero[..]), zero[..], a1, a2)
    {
      ghost var s := zero[..];
      var i, j := a1, a2;
      while true
        invariant a1 <= i <= j + 1 && j <= a2 && i - a1 == a2 - j
        invariant forall k :: 0 <= k < zero.Length ==>
                    zero[k] == if a1 <= k < i || j <= k < a2 then Opposite(s, a1, a2, k) else s[k]
        decreases j - i
      {
        j := j - 1;
        var t := zero[j];
        if j <= i {
          return;
        }
        zero[j] := zero[i];
        zero[i] := t;
        i := i + 1;
      }
    }

    /** Take the marks from the lines from addr1 to addr2. */
    method Unmark(addr1: nat, addr2: nat)
      requires addr1 <= addr2 < zero.Length
      modifies zero
      ensures zero[..] == Unmarked(old(zero[..]), addr1, addr2 + 1)
    {
      var ad1 := addr1;
      while ad1 <= addr2
        invariant addr1 <= ad1 <= addr2 + 1
        invariant zero[..] == Unmarked(old(zero[..]), addr1, ad1)
      {
        assert zero[ad1] == zero[..][ad1] == old(zero[ad1]);
        zero[ad1] := Cleared(zero[ad1]);
        ad1 := ad1 + 1;
      }
    }

    /** Move the lines from addr1 to addr2 after line adt, unless it is one of them. */
    method Move(adt: nat, addr1: nat, addr2: nat) returns (ok: bool)
      requires Valid() && 1 <= addr1 <= addr2 <= dol && adt <= dol
      modifies this`dot, this`fchange, zero
      ensures Valid() && ok == (adt < addr1 || adt > addr2)
      ensures ok ==> zero[..] == Moved(Unmarked(old(zero[..]), addr1, addr2 + 1), adt, addr1, addr2 + 1)
      ensures !ok ==> zero[..] == Unmarked(old(zero[..]), addr1, addr2 + 1)
      ensures dot == if !ok then old(dot) else if adt < addr1 then adt + (addr2 + 1 - addr1) else adt
      ensures fchange == (old(fchange) || (ok && adt + 1 != addr1))
    {
      hide Moved, Unmarked;
      Unmark(addr1, addr2);
      ok := Rearrange(adt, addr1, addr2 + 1);
    }

    /** Put the block zero[ad1..ad2] after line adt, unless that is one of its lines. */
    method Rearrange(adt: nat, ad1: nat, ad2: nat) returns (ok: bool)
      requires Valid() && 1 <= ad1 < ad2 <= dol + 1 && adt <= dol
      modifies this`dot, this`fchange, zero
      ensures ok == (adt < ad1 || adt >= ad2)
      ensures zero[..] == if ok then Moved(old(zero[..]), adt, ad1, ad2) else old(zero[..])
      ensures dot == if !ok then old(dot) else if adt < ad1 then adt + (ad2 - ad1) else adt
      ensures fchange == (old(fchange) || (ok && adt + 1 != ad1))
    {
      hide Moved, Turned;
      ghost var s := zero[..];
      if adt < ad1 {
        dot := adt + (ad2 - ad1);
        var after := adt + 1;
        if after == ad1 {
          MovedBack(s, adt, ad1, ad2);
          return true;
        }
        Reverse(after, ad1);
        ghost var t := zero[..];
        Reverse(ad1, ad2);
        ghost var u := zero[..];
        Reverse(after, ad2);
        MovedUp(s, t, u, zero[..], adt, ad1, ad2);
      } else if adt >= ad2 {
        dot := adt;
        Reverse(ad1, ad2);
        ghost var t := zero[..];
        Reverse(ad2, adt + 1);
        ghost var u := zero[..];
        Reverse(ad1, adt + 1);
        MovedDown(s, t, u, zero[..], adt, ad1, ad2);
      } else {
        return false;
      }
      fchange := true;
      return true;
    }

    /** Delete all marked lines at once. Place 0 stands before the lines and is looked at too. */
    method Gdelete()
      requires Valid()
      modifies this`dol, this`dot, this`fchange, zero
      ensures -1 <= dol <= old(dol) && zero[..dol + 1] == Kept(old(zero[..dol + 1]))
      ensures fchange == (old(fchange) || dol < old(dol))
      ensures dol < old(dol) ==> dot == Least(Follow(old(zero[..dol + 1]), old(dot)), dol)
      ensures dol == old(dol) ==> dot == old(dot)
    {
      hide Kept, Squeezed, Marked, SomeMarked, Follow;
      ghost var s := zero[..dol + 1];
      var a1, a3 := 0, dol;
      while !Marked(zero[a1])
        invariant a1 <= a3 && forall i :: 0 <= i < a1 ==> !Marked(s[i])
        decreases a3 - a1
      {
        if a1 >= a3 {
          NoneMarked(s, dol + 1);
          assert s[..dol + 1] == s;
          return;
        }
        a1 := a1 + 1;
      }
      SqueezeStart(s, zero[..], a1);
      FollowStart(s, a1, dot);
      var a2 := a1 + 1;
      while a2 <= a3
        invariant a1 < a2 <= a3 + 1 && Squeezed(s, zero[..], a1, a2)
        invariant SomeMarked(s[..a2]) && dot == Follow(s[..a2], old(dot))
        decreases a3 - a2
      {
        ghost var cells := zero[..];
        SqueezeStep(s, cells, a1, a2);
        FollowStep(s, cells, a1, a2, old(dot));
        if Marked(zero[a2]) {
          a2 := a2 + 1;
          dot := a1;
        } else {
          zero[a1] := zero[a2];
          assert zero[..] == cells[a1 := cells[a2]];
          a1 := a1 + 1;
          a2 := a2 + 1;
        }
      }
      SqueezeEnd(s, zero[..], a1);
      assert s[..a2] == s;
      dol := a1 - 1;
      assert zero[..][..dol + 1] == zero[..dol + 1];
      if dot > dol {
        dot := dol;
      }
      fchange := true;
    }
  }

  lemma MovedBack(s: seq<int>, adt: nat, from: nat, to_: nat)
    requires adt + 1 == from <= to_ <= |s|
    ensures Moved(s, adt, from, to_) == s
  {
    Upwards(s, adt, from, to_);
  }

  lemma MovedUp(s: seq<int>, t: seq<int>, u: seq<int>, v: seq<int>, adt: nat, from: nat, to_: nat)
    requires adt < from <= to_ <= |s| == |t| == |u|
    requires Turned(s, t, adt + 1, from) && Turned(t, u, from, to_) && Turned(u, v, adt + 1, to_)
    ensures v == Moved(s, adt, from, to_)
  {
    hide Turned, Moved;
    Upwards(s, adt, from, to_);
    Exchange(s, t, u, v, adt + 1, from, to_);
  }

  lemma MovedDown(s: seq<int>, t: seq<int>, u: seq<int>, v: seq<int>, adt: nat, from: nat, to_: nat)
    requires from <= to_ <= adt < |s| == |t| == |u|
    requires Turned(s, t, from, to_) && Turned(t, u, to_, adt + 1) && Turned(u, v, from, adt + 1)
    ensures v == Moved(s, adt, from, to_)
  {
    hide Turned, Moved;
    Downwards(s, adt, from, to_);
    Exchange(s, t, u, v, from, to_, adt + 1);
  }

  /** Of the first a2 pointers those without a mark have been pushed together in the first a1 places. */
  ghost predicate Squeezed(s: seq<int>, cells: seq<int>, a1: nat, a2: nat) {
    a1 < a2 <= |s| <= |cells| && cells[..a1] == Kept(s[..a2]) && cells[a2..|s|] == s[a2..]
  }

  lemma SqueezeStart(s: seq<int>, cells: seq<int>, a1: nat)
    requires a1 < |s| <= |cells| && cells[..|s|] == s && Marked(s[a1]) && forall i :: 0 <= i < a1 ==> !Marked(s[i])
    ensures Squeezed(s, cells, a1, a1 + 1)
  {
    hide Kept, Marked;
    NoneMarked(s, a1);
    KeptNext(s, a1);
    assert cells[..a1] == cells[..|s|][..a1];
    assert cells[a1 + 1..|s|] == cells[..|s|][a1 + 1..];
  }

  lemma SqueezeStep(s: seq<int>, cells: seq<int>, a1: nat, a2: nat)
    requires a2 < |s| && Squeezed(s, cells, a1, a2)
    ensures a2 < |cells|
    ensures Marked(cells[a2]) ==> Squeezed(s, cells, a1, a2 + 1)
    ensures !Marked(cells[a2]) ==> Squeezed(s, cells[a1 := cells[a2]], a1 + 1, a2 + 1)
  {
    hide Kept, Marked;
    KeptNext(s, a2);
    assert cells[a2] == cells[a2..|s|][0] == s[a2];
    assert cells[a2 + 1..|s|] == cells[a2..|s|][1..];
    var after := cells[a1 := cells[a2]];
    assert after[..a1 + 1] == cells[..a1] + [cells[a2]];
    assert after[a2 + 1..|s|] == cells[a2 + 1..|s|];
  }

  lemma FollowStart(s: seq<int>, k: nat, dot: int)
    requires k < |s| && Marked(s[k]) && forall i :: 0 <= i < k ==> !Marked(s[i])
    ensures SomeMarked(s[..k + 1]) && Follow(s[..k + 1], dot) == dot
  {
    assert s[..k + 1][k] == s[k];
    OneDeleted(s[..k + 1], k, dot);
  }

  lemma FollowStep(s: seq<int>, cells: seq<int>, a1: nat, a2: nat, dot: int)
    requires a2 < |s| && Squeezed(s, cells, a1, a2) && SomeMarked(s[..a2])
    ensures SomeMarked(s[..a2 + 1])
    ensures Follow(s[..a2 + 1], dot) == if Marked(cells[a2]) then a1 else Follow(s[..a2], dot)
  {
    hide Kept, Marked;
    var k :| 0 <= k < a2 && Marked(s[..a2][k]);
    assert s[..a2 + 1][k] == s[..a2][k];
    assert cells[a2] == cells[a2..|s|][0] == s[a2];
    FollowNext(s, a2, dot);
  }

  function Least(x: int, y: int): int {
    if x < y then x else y
  }

  lemma SqueezeEnd(s: seq<int>, cells: seq<int>, a1: nat)
    requires Squeezed(s, cells, a1, |s|)
    ensures cells[..a1] == Kept(s)
  {
    assert s[..|s|] == s;
  }

  /** No line is left, not even the place before them, just when that place had a mark and so had all lines: the
    * editor's last line is then one before the beginning. */
  lemma {:induction false} NothingKept(s: seq<int>)
    ensures |Kept(s)| == 0 <==> forall k :: 0 <= k < |s| ==> Marked(s[k])
  {
    if s != [] {
      NothingKept(s[..|s| - 1]);
      assert forall k :: 0 <= k < |s| - 1 ==> s[..|s| - 1][k] == s[k];
    }
  }
}
