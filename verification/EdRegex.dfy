/** The regular expressions of ed: compile, advance and execute over expbuf. */
module EdRegex {
  import opened EdPattern
  import opened EdCode
  import opened EdCompile
  import opened EdMatch

  class Regex {
    const expbuf: array<int>
    var circfl: bool
    var loc1: nat
    var loc2: nat
    ghost var pattern: Memory

    ghost predicate Valid()
      reads this, expbuf
    {
      Holds(expbuf[..], pattern) && (pattern.Remembered? ==> Proper(pattern.items))
    }

    constructor ()
      ensures Valid() && pattern.Forgotten? && fresh(expbuf)
    {
      expbuf := new int[ESIZE + 4](_ => 0);
      circfl := false;
      loc1 := 0;
      loc2 := 0;
      pattern := Forgotten;
    }

    /** The rest of the range that goes up to hi. */
    method Range(hi: int, ep: nat, from: nat, ghost got: seq<int>) returns (ok: bool, p: nat)
      requires expbuf.Length == ESIZE + 4 && 1 <= from < ESIZE
      requires Ranging(got, hi, ep, from, expbuf[..], got + Upto(expbuf[from - 1], hi))
      modifies expbuf
      ensures expbuf[..ep] == old(expbuf[..ep])
      ensures var goal := got + old(Upto(expbuf[from - 1], hi));
              ok == (ep + |goal| < ESIZE) && (ok ==> p == ep + |goal| && expbuf[ep..p] == goal)
      ensures var goal := got + old(Upto(expbuf[from - 1], hi)); ok ==> forall k :: 0 <= k < |goal| ==> goal[k] > 0
    {
      hide Upto;
      ghost var done, goal := got, got + Upto(expbuf[from - 1], hi);
      p := from;
      ok := true;
      while expbuf[p - 1] < hi
        invariant Ranging(done, hi, ep, p, expbuf[..], goal)
        invariant p < ESIZE
        invariant expbuf[..ep] == old(expbuf[..ep])
        decreases ESIZE - p
      {
        ghost var before := expbuf[..];
        RangeStep(done, hi, ep, p, before, goal);
        done := done + [expbuf[p - 1] + 1];
        expbuf[p] := expbuf[p - 1] + 1;
        assert expbuf[..] == before[p := before[p - 1] + 1];
        assert expbuf[..ep] == before[..ep];
        p := p + 1;
        if p >= ESIZE {
          return false, p;
        }
      }
      RangeDone(done, hi, ep, p, expbuf[..], goal);
    }
    /** One more member at p. */
    method Store(ep: nat, p: nat, c: int, ghost got: seq<int>)
      requires ep <= p < expbuf.Length && expbuf[ep..p] == got
      modifies expbuf
      ensures expbuf[..] == old(expbuf[..])[p := c]
      ensures expbuf[..ep] == old(expbuf[..ep]) && expbuf[ep..p + 1] == got + [c]
    {
      expbuf[p] := c;
    }

    /** The members of a set, the first character being at i; they are written from ep on. */
    method Fill(text: seq<int>, i: nat, ep: nat) returns (ok: bool, next: nat, end: nat)
      requires expbuf.Length == ESIZE + 4 && Typed(text) && 1 <= ep <= ESIZE + 1 && expbuf[ep - 1] == 0
      modifies expbuf
      ensures expbuf[..ep] == old(expbuf[..ep])
      ensures var whole := Bracketed(text, i, []);
              ok ==>
                && whole.Set? && next == whole.next
                && end == ep + |whole.members| <= ESIZE && expbuf[ep..end] == whole.members
      ensures var whole := Bracketed(text, i, []);
              !ok ==> whole.Set? ==> ep + |whole.members| >= ESIZE
    {
      hide Filling, Bracketed, Further, Upto, Typed, Ranging, Holds;
      ghost var whole := Bracketed(text, i, []);
      ghost var got: seq<int> := [];
      var j: nat, p: nat := i, ep;
      var c := Chr(text, j);
      FillStart(text, i, ep, expbuf[..]);
      while true
        invariant Filling(text, j, got, ep, p, expbuf[..], whole)
        invariant c == Chr(text, j) && p == ep + |got| && (got == [] || p < ESIZE)
        invariant expbuf[..ep] == old(expbuf[..ep])
        decreases if j < |text| then |text| - j else 0, ESIZE + 4 - p
      {
        FillFacts(text, j, got, ep, p, expbuf[..], whole);
        if c == NEWLINE {
          return false, j, p;
        }
        ghost var g := got;
        if c == HYPHEN && expbuf[p - 1] != 0 {
          j := j + 1;
          c := Chr(text, j);
          if c == CLOSE {
            LastHyphen(text, j - 1, got);
            Store(ep, p, HYPHEN, got);
            return true, j + 1, p + 1;
          }
          InRange(text, j - 1, got, c);
          RangeStart(got, c, ep, p, expbuf[..]);
          g := got + Upto(expbuf[p - 1], c);
          var fits;
          fits, p := Range(c, ep, p, got);
          if !fits {
            return false, j, p;
          }
        } else {
          Ordinary(text, j, got);
        }
        Pushed(text, j, g, c, ep, p, expbuf[..], whole);
        Store(ep, p, c, g);
        p := p + 1;
        if p >= ESIZE {
          return false, j, p;
        }
        j := j + 1;
        c := Chr(text, j);
        if c == CLOSE {
          return true, j + 1, p;
        }
        got := g + [Chr(text, j - 1)];
      }
    }
    /** The operation of a set whose bracket is at i, a cell for its count, and where its members begin. */
    method Open(text: seq<int>, i: nat, ep: nat) returns (start: nat)
      requires ep + 1 < expbuf.Length
      modifies expbuf
      ensures expbuf[..ep + 2] == old(expbuf[..ep]) + [if Chr(text, i + 1) == CARET then NCCL else CCL, 0]
      ensures start == if Chr(text, i + 1) == CARET then i + 2 else i + 1
    {
      expbuf[ep], expbuf[ep + 1] := CCL, 0;
      start := i + 1;
      if Chr(text, i + 1) == CARET {
        start := i + 2;
        expbuf[ep] := NCCL;
      }
      assert expbuf[..ep] == old(expbuf[..ep]);
    }

    /** A set whose bracket is at i: operation, count and members go to expbuf from ep on. The count is filled in
      * at the end. */
    method Set(text: seq<int>, i: nat, ep: nat) returns (ok: bool, next: nat, end: nat)
      requires expbuf.Length == ESIZE + 4 && Typed(text) && ep < ESIZE
      modifies expbuf
      ensures expbuf[..ep] == old(expbuf[..ep])
      ensures ok ==>
        SetAt(text, i + 1).Set? && next == SetAt(text, i + 1).next && end == ep + 2 + |SetAt(text, i + 1).members|
      ensures ok ==>
        end <= ESIZE && expbuf[ep] == Op(SetAtom(text, i + 1)) && expbuf[ep + 1..end] == Args(SetAtom(text, i + 1))
      ensures !ok ==> SetAt(text, i + 1).Set? ==> ep + 2 + |SetAt(text, i + 1).members| >= ESIZE
    {
      hide Bracketed, Typed, Upto, Op, Args, SetAtom;
      ghost var was := expbuf[..];
      var start := Open(text, i, ep);
      ok, next, end := Fill(text, start, ep + 2);
      ghost var mid := expbuf[..];
      if ok {
        SetPlaced(text, i + 1, was, mid, ep, end);
        expbuf[ep + 1] := Signed(end - (ep + 2) + 1);
        assert expbuf[..] == mid[ep + 1 := Signed(end - (ep + 2) + 1)];
      } else {
        assert expbuf[..ep] == mid[..ep + 2][..ep];
      }
    }

    /** Compile the pattern at the front of text, which ends at the character eof or with the line. An empty one
      * stands for the one remembered. */
    method Compile(text: seq<int>, eof: int) returns (ok: bool, next: nat)
      requires Valid() && Typed(text) && eof != EOF && !Wanted(text, eof).Grouped?
      modifies this`circfl, this`pattern, expbuf
      ensures Valid()
      ensures Ends(Chr(text, 0), eof) ==>
        ok == old(pattern.Remembered?) && pattern == old(pattern) && circfl == old(circfl)
      ensures !Ends(Chr(text, 0), eof) ==> ok == (Wanted(text, eof).Pattern? && Len(Wanted(text, eof).items) < ESIZE)
      ensures !Ends(Chr(text, 0), eof) ==> circfl == (Chr(text, 0) == CARET)
      ensures !Ends(Chr(text, 0), eof) ==> pattern == if ok then Remembered(Wanted(text, eof).items) else Forgotten
      ensures ok ==> next == Wanted(text, eof).next
    {
      hide Writing, Holds, Parse, ParseSet, Code, Typed, Bracketed, Args, Op, SetAt, SetAtom;
      var c := Chr(text, 0);
      if c == NEWLINE || c == eof {
        HoldsSize(expbuf[..], pattern);
        FirstCell(expbuf[..], pattern);
        return expbuf[0] != 0, if c == NEWLINE then 0 else 1;
      }
      ghost var whole := Wanted(text, eof);
      circfl := c == CARET;
      var i: nat, lastep: int, ep: nat := if c == CARET then 1 else 0, -1, 0;
      ghost var items: seq<Item> := [];
      HoldsSize(expbuf[..], pattern);
      Started(text, i, eof, expbuf[..]);
      while true
        invariant Writing(text, i, eof, items, lastep, ep, expbuf[..], whole)
        invariant -1 <= lastep && circfl == (Chr(text, 0) == CARET)
        decreases if i < |text| then |text| - i else 0, ESIZE + 4 - ep
      {
        WritingSize(text, i, eof, items, lastep, ep, expbuf[..], whole);
        ghost var before := expbuf[..];
        if ep >= ESIZE {
          TooLong(text, i, eof, items, lastep, ep, before, whole);
          Forget();
          return false, i;
        }
        c := Chr(text, i);
        if c == NEWLINE || c == eof {
          Finished(text, i, eof, items, lastep, ep, before, whole);
          TypedZeroless(text);
          ParseProper(text, if Chr(text, 0) == CARET then 1 else 0, eof, [], false);
          expbuf[ep] := CEOF;
          assert expbuf[..] == before[ep := CEOF];
          pattern := Remembered(items);
          return true, if c == NEWLINE then i else i + 1;
        }
        ghost var was := lastep;
        if c != STARCH {
          lastep := ep;
        }
        if c == STARCH && lastep >= 0 {
          Backpatched(text, i, eof, items, lastep, ep, before, whole);
          expbuf[lastep] := WithStar(expbuf[lastep]);
          assert expbuf[..] == before[lastep := WithStar(before[lastep])];
          i, items := i + 1, Starred(items);
        } else if c == OPEN {
          var next;
          var end;
          ok, next, end := Set(text, i, ep);
          AfterSet(text, i, eof, items, was, ep, before, expbuf[..], whole, ok);
          if !ok {
            Forget();
            return false, i;
          }
          items := Atomic(items, SetAtom(text, i + 1));
          i, ep := next, end;
        } else if c == PERIOD {
          AfterPeriod(text, i, eof, items, was, ep, before, whole);
          expbuf[ep] := CDOT;
          assert expbuf[..] == before[ep := CDOT];
          items := Atomic(items, Any);
          i, ep := i + 1, ep + 1;
        } else if c == DOLLAR && Ends(Chr(text, i + 1), eof) {
          AfterDollar(text, i, eof, items, was, ep, before, whole);
          expbuf[ep] := CDOL;
          assert expbuf[..] == before[ep := CDOL];
          items := Atomic(items, End);
          i, ep := i + 1, ep + 1;
        } else {
          ghost var from := i;
          if c == BACKSLASH {
            i := i + 1;
            c := Chr(text, i);
          }
          AfterLiteral(text, from, eof, items, c, was, ep, before, whole);
          expbuf[ep] := CCHR;
          if c == NEWLINE {
            Forget();
            return false, i;
          }
          expbuf[ep + 1] := c;
          assert expbuf[..] == before[ep := CCHR][ep + 1 := c];
          items := Atomic(items, Literal(c));
          i, ep := i + 1, ep + 2;
        }
      }
    }

    /** The pattern is in error. */
    method Forget()
      requires expbuf.Length == ESIZE + 4
      modifies this`pattern, expbuf
      ensures Valid() && pattern == Forgotten
    {
      expbuf[0] := 0;
      pattern := Forgotten;
    }

    // ----- Matching -----

    /** Whether the set at ep has the character c, or has it not if af is false. */
    method Cclass(ep: nat, c: int, af: bool, ghost m: seq<int>) returns (r: bool)
      requires |m| + 1 < 128 && ep + 1 + |m| <= expbuf.Length && expbuf[ep..ep + 1 + |m|] == [Signed(|m| + 1)] + m
      ensures r == (c != 0 && (c in m) == af)
    {
      if c == 0 {
        return false;
      }
      ghost var cells := expbuf[ep..ep + 1 + |m|];
      assert forall k :: 0 <= k <= |m| ==> cells[k] == expbuf[ep + k];
      var n, p := expbuf[ep], ep + 1;
      assert n == cells[0] == |m| + 1;
      n := n - 1;
      while n != 0
        invariant 0 <= n <= |m| && p + n == ep + 1 + |m|
        invariant c !in m[..|m| - n]
      {
        assert expbuf[p] == cells[p - ep] == m[|m| - n];
        if expbuf[p] == c {
          return af;
        }
        p := p + 1;
        n := n - 1;
      }
      assert m[..|m|] == m;
      return !af;
    }

    /** The end of the characters from lp on that a starred item at ep accepts, and the place of the next item. */
    method Span(s: seq<int>, lp: nat, ep: nat, ghost x: Item) returns (n: nat, next: nat)
      requires Zeroless(s) && lp <= |s| && Here(expbuf[..], ep, x) && Usual(x) && Countable(x.atom) && x.star
      ensures Widest(x.atom, s, lp, n) && next == ep + 1 + |Args(x.atom)|
    {
      n := 0;
      var op := expbuf[ep];
      ghost var args := expbuf[..][ep + 1..ep + 1 + |Args(x.atom)|];
      if op == CDOT + STAR {
        while Cell(s, lp + n) != 0
          invariant lp + n <= |s|
          decreases |s| - n
        {
          n := n + 1;
        }
        next := ep + 1;
      } else if op == CCHR + STAR {
        assert expbuf[ep + 1] == args[0];
        while Cell(s, lp + n) == expbuf[ep + 1]
          invariant Run(x.atom, s, lp, n)
          decreases |s| - n
        {
          n := n + 1;
        }
        next := ep + 2;
      } else {
        ghost var m := x.atom.members;
        assert expbuf[ep + 1..ep + 2 + |m|] == args;
        assert expbuf[ep + 1] == args[0];
        var more := Cclass(ep + 1, Cell(s, lp), op == CCL + STAR, m);
        while more
          invariant Run(x.atom, s, lp, n)
          invariant more == (lp + n < |s| && Accepts(x.atom, s[lp + n]))
          decreases |s| - n
        {
          n := n + 1;
          more := Cclass(ep + 1, Cell(s, lp + n), op == CCL + STAR, m);
        }
        next := ep + 1 + expbuf[ep + 1];
      }
    }

    /** One item without a star: whether it accepts what is at lp, and where that leads. */
    method Single(s: seq<int>, lp: nat, ep: nat, ghost x: Item) returns (ok: bool, to_: nat, next: nat)
      requires Zeroless(s) && lp <= |s| && Here(expbuf[..], ep, x) && Usual(x) && Countable(x.atom) && !x.star
      ensures next == ep + 1 + |Args(x.atom)|
      ensures x.atom.End? ==> to_ == lp && ok == (lp == |s|)
      ensures !x.atom.End? ==> to_ == lp + 1 && ok == (lp < |s| && Accepts(x.atom, s[lp]))
    {
      var op := expbuf[ep];
      ghost var args := expbuf[..][ep + 1..ep + 1 + |Args(x.atom)|];
      CellBefore(s, lp);
      to_ := lp + 1;
      if op == CCHR {
        assert expbuf[ep + 1] == args[0];
        ok := expbuf[ep + 1] == Cell(s, lp);
        next := ep + 2;
      } else if op == CDOT {
        ok := Cell(s, lp) != 0;
        next := ep + 1;
      } else if op == CDOL {
        ok := Cell(s, lp) == 0;
        to_ := lp;
        next := ep + 1;
      } else {
        ghost var m := x.atom.members;
        assert expbuf[ep + 1..ep + 2 + |m|] == args;
        assert expbuf[ep + 1] == args[0];
        ok := Cclass(ep + 1, Cell(s, lp), op == CCL, m);
        next := ep + 1 + expbuf[ep + 1];
      }
    }

    /** Whether the compiled items from at on match a beginning of the line from lp on; loc2 is where it ends. */
    method Advance(s: seq<int>, from: nat, at: nat, ghost items: seq<Item>) returns (ok: bool)
      requires Zeroless(s) && from <= |s| && At(expbuf[..], at, items) && Proper(items) && Fits(items)
      modifies this`loc2
      ensures ok == Matches(items, s, from)
      ensures ok ==> Greediest(items, s, from, loc2)
      decreases |items|, 1
    {
      hide At, Matches, Greediest, Match, Leads, Proper, Fits, Tried, Zeroless, Run, Accepts, Widest;
      hide Here, Usual, Countable, Args;
      var lp: nat, ep: nat := from, at;
      ghost var rest := items;
      LeadsStart(items, s, from);
      while true
        invariant |rest| <= |items| && lp <= |s| && At(expbuf[..], ep, rest) && Proper(rest) && Fits(rest)
        invariant Leads(items, s, from, rest, lp)
        decreases |rest|
      {
        AtFacts(expbuf[..], ep, rest);
        if expbuf[ep] == CEOF {
          loc2 := lp;
          Done(items, s, from, lp);
          return true;
        }
        if expbuf[ep] % 2 != 0 {
          ok := Star(s, lp, ep, rest);
          LeadsTo(items, s, from, rest, lp);
          return;
        }
        var good, to_, next := Single(s, lp, ep, rest[0]);
        SingleStep(rest, s, lp, good, to_);
        if !good {
          LeadsTo(items, s, from, rest, lp);
          return false;
        }
        LeadsOn(items, s, from, rest, lp, rest[1..], to_);
        lp, ep, rest := to_, next, rest[1..];
      }
    }

    /** A starred item at ep: take as many characters as possible, then one less each time the rest does not match. */
    method Star(s: seq<int>, cur: nat, ep: nat, ghost rest: seq<Item>) returns (ok: bool)
      requires Zeroless(s) && cur <= |s| && At(expbuf[..], ep, rest) && Proper(rest) && Fits(rest)
      requires rest != [] && rest[0].star
      modifies this`loc2
      ensures ok == Matches(rest, s, cur)
      ensures ok ==> Greediest(rest, s, cur, loc2)
      decreases |rest|, 0
    {
      hide At, Matches, Greediest, Match, Proper, Fits, Tried, Zeroless, Accepts, Widest, Here, Usual, Countable, Args;
      AtFacts(expbuf[..], ep, rest);
      var n, next := Span(s, cur, ep, rest[0]);
      WidestRun(rest[0].atom, s, cur, n);
      StarStart(rest, s, cur, n);
      var lp := cur + n;
      while true
        invariant cur <= lp <= cur + n && Tried(rest, s, cur, lp - cur)
        decreases lp
      {
        ok := Advance(s, lp, next, rest[1..]);
        if ok {
          StarHit(rest, s, cur, lp - cur, loc2);
          return true;
        }
        if lp <= cur {
          StarMiss(rest, s, cur);
          return false;
        }
        StarNext(rest, s, cur, lp - cur);
        lp := lp - 1;
      }
    }

    /** No ^, and a pattern that begins with the character c: advance is called only where c is. */
    method ScanFor(s: seq<int>, c: int, ghost items: seq<Item>) returns (ok: bool)
      requires Zeroless(s) && At(expbuf[..], 0, items) && Proper(items) && Fits(items)
      requires items != [] && !items[0].star && items[0].atom == Literal(c)
      modifies this`loc1, this`loc2
      ensures ok == Somewhere(items, false, s)
      ensures ok ==> Leftmost(items, false, s, loc1) && Greediest(items, s, loc1, loc2)
    {
      hide Matches, Greediest, Match, Proper, Fits, Zeroless, At, Leftmost, Somewhere;
      var p1: nat := 0;
      while true
        invariant p1 <= |s| && forall i: nat :: i < p1 ==> !Matches(items, s, i)
        decreases |s| - p1
      {
        FirstCharacter(items, s, p1);
        CellBefore(s, p1);
        if Cell(s, p1) == c {
          ok := Advance(s, p1, 0, items);
          if ok {
            loc1 := p1;
            FirstFound(items, s, p1);
            return;
          }
        }
        if Cell(s, p1) == 0 {
          Nowhere(items, s);
          return false;
        }
        p1 := p1 + 1;
      }
    }

    /** No ^: advance is called at every place of the line, and at its end. */
    method Scan(s: seq<int>, ghost items: seq<Item>) returns (ok: bool)
      requires Zeroless(s) && At(expbuf[..], 0, items) && Proper(items) && Fits(items)
      modifies this`loc1, this`loc2
      ensures ok == Somewhere(items, false, s)
      ensures ok ==> Leftmost(items, false, s, loc1) && Greediest(items, s, loc1, loc2)
    {
      hide Matches, Greediest, Match, Proper, Fits, Zeroless, At, Leftmost, Somewhere;
      var p1: nat := 0;
      while true
        invariant p1 <= |s| && forall i: nat :: i < p1 ==> !Matches(items, s, i)
        decreases |s| - p1
      {
        ok := Advance(s, p1, 0, items);
        if ok {
          loc1 := p1;
          FirstFound(items, s, p1);
          return;
        }
        CellBefore(s, p1);
        if Cell(s, p1) == 0 {
          Nowhere(items, s);
          return false;
        }
        p1 := p1 + 1;
      }
    }

    /** Search the line for the pattern; loc1 and loc2 delimit the first match. */
    method Execute(s: seq<int>) returns (ok: bool)
      requires Valid() && Zeroless(s) && pattern.Remembered? && Fits(pattern.items)
      modifies this`loc1, this`loc2
      ensures ok == Somewhere(pattern.items, circfl, s)
      ensures ok ==> Leftmost(pattern.items, circfl, s, loc1) && Greediest(pattern.items, s, loc1, loc2)
    {
      hide Matches, Greediest, Match, Proper, Fits, Zeroless, At, Leftmost, Somewhere;
      ghost var items := pattern.items;
      CodeAt(expbuf[..], items, 0);
      CodeStart(items);
      FirstCode(expbuf[..], items);
      if circfl {
        loc1 := 0;
        ok := Advance(s, 0, 0, items);
        Anchored(items, s);
      } else if expbuf[0] == CCHR {
        ok := ScanFor(s, expbuf[1], items);
      } else {
        ok := Scan(s, items);
      }
    }
  }

  datatype Outcome = Error | NoMatch | Matched(loc1: nat, loc2: nat)

  /** A pattern is typed and a line is searched for it: the line has a match just when some part of it, or a
    * beginning of it after a ^, is matched by the pattern; the first and greediest such part is found. */
  method Search(text: seq<int>, eof: int, s: seq<int>) returns (r: Outcome)
    requires Typed(text) && eof != EOF && !Wanted(text, eof).Grouped? && Zeroless(s)
    requires Wanted(text, eof).Pattern? ==> Fits(Wanted(text, eof).items)
    ensures r == Error <==> Ends(Chr(text, 0), eof) || Wanted(text, eof) == Bad || Len(Wanted(text, eof).items) >= ESIZE
    ensures !r.Error? ==> (r.Matched? <==> Somewhere(Wanted(text, eof).items, Chr(text, 0) == CARET, s))
    ensures r.Matched? ==> Leftmost(Wanted(text, eof).items, Chr(text, 0) == CARET, s, r.loc1)
    ensures r.Matched? ==> Greediest(Wanted(text, eof).items, s, r.loc1, r.loc2)
  {
    hide Parse, Holds, Proper, Fits, Typed, Zeroless, Leftmost, Somewhere, Greediest, Matches, Code;
    var regex := new Regex();
    var ok, next := regex.Compile(text, eof);
    if !ok {
      return Error;
    }
    var found := regex.Execute(s);
    r := if found then Matched(regex.loc1, regex.loc2) else NoMatch;
  }
}
