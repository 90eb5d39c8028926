/** What holds of expbuf while a pattern is compiled into it. */
module EdCompile {
  import opened EdPattern
  import opened EdCode
  import opened EdMatch

  /** The pattern that expbuf stands for, if it stands for one. */
  datatype Memory = Remembered(items: seq<Item>) | Forgotten

  ghost predicate Holds(code: seq<int>, pattern: Memory) {
    |code| == ESIZE + 4 &&
    match pattern
    case Forgotten => code[0] == 0
    case Remembered(items) => Len(items) < ESIZE && code[..Len(items) + 1] == Code(items) + [CEOF]
  }

  lemma HoldsSize(code: seq<int>, pattern: Memory)
    requires Holds(code, pattern)
    ensures |code| == ESIZE + 4
  {
  }

  lemma FirstCell(code: seq<int>, pattern: Memory)
    requires Holds(code, pattern)
    ensures code[0] != 0 <==> pattern.Remembered?
  {
    if pattern.Remembered? {
      var c := Code(pattern.items) + [CEOF];
      assert code[0] == code[..Len(pattern.items) + 1][0] == c[0];
      Nonzero(pattern.items);
    }
  }

  lemma {:induction false} Nonzero(items: seq<Item>)
    ensures (Code(items) + [CEOF])[0] > 0
  {
    if items != [] {
      Nonzero(items[..|items| - 1]);
    }
  }

  /** In the middle of compiling: the code of the items so far is in place, and what is left to read leads to
    * the whole pattern. lastep is the place of the last item, or -1 while there is none for a star. */
  ghost predicate Writing(text: seq<int>, i: nat, eof: int, items: seq<Item>, lastep: int, ep: nat, code: seq<int>,
                          whole: Parsed) {
    |code| == ESIZE + 4 && ep <= |code| && code[..ep] == Code(items) &&
    (lastep >= 0 ==> items != [] && lastep == Len(items[..|items| - 1])) &&
    Parse(text, i, eof, items, lastep >= 0) == whole &&
    (items != [] && items[|items| - 1].atom.End? ==> Ends(Chr(text, i), eof))
  }

  lemma Started(text: seq<int>, i: nat, eof: int, code: seq<int>)
    requires |code| == ESIZE + 4
    ensures Writing(text, i, eof, [], -1, 0, code, Parse(text, i, eof, [], false))
  {
    assert code[..0] == [];
  }

  lemma Finished(text: seq<int>, i: nat, eof: int, items: seq<Item>, lastep: int, ep: nat, code: seq<int>,
                 whole: Parsed)
    requires Writing(text, i, eof, items, lastep, ep, code, whole)
    requires ep < ESIZE && Ends(Chr(text, i), eof)
    ensures whole == Pattern(items, if Chr(text, i) == NEWLINE then i else i + 1)
    ensures Holds(code[ep := CEOF], Remembered(items))
  {
    assert code[ep := CEOF][..ep + 1] == code[..ep] + [CEOF];
  }

  lemma TooLong(text: seq<int>, i: nat, eof: int, items: seq<Item>, lastep: int, ep: nat, code: seq<int>, whole: Parsed)
    requires Writing(text, i, eof, items, lastep, ep, code, whole)
    requires ep >= ESIZE
    ensures whole.Pattern? ==> Len(whole.items) >= ESIZE
  {
    hide Parse, Code;
    ParseGrows(text, i, eof, items, lastep >= 0);
  }

  /** An item has been read up to j and written from ep on. */
  lemma Appended(text: seq<int>, i: nat, j: nat, eof: int, items: seq<Item>, a: Atom, lastep: int, now: int, ep: nat,
                 code: seq<int>, new_: seq<int>, whole: Parsed)
    requires Writing(text, i, eof, items, lastep, ep, code, whole)
    requires |new_| == |code| && ep + 1 + |Args(a)| <= |new_| && new_[..ep] == code[..ep]
    requires new_[ep] == Op(a) && new_[ep + 1..ep + 1 + |Args(a)|] == Args(a)
    requires now == ep || now < 0
    requires Parse(text, j, eof, Atomic(items, a), now >= 0) == Parse(text, i, eof, items, lastep >= 0)
    requires a.End? ==> Ends(Chr(text, j), eof)
    ensures Writing(text, j, eof, Atomic(items, a), now, ep + 1 + |Args(a)|, new_, whole)
  {
    hide Parse, Code;
    CodeAtomic(items, a);
    var end := ep + 1 + |Args(a)|;
    assert new_[..end] == new_[..ep] + [new_[ep]] + new_[ep + 1..end];
    assert Atomic(items, a)[..|items|] == items;
  }

  lemma StarBit(a: Atom)
    requires !a.End?
    ensures Op(a) % 2 == 0
  {
  }

  /** A star has been read; the operation at lastep gets the lowest bit. */
  lemma Backpatched(text: seq<int>, i: nat, eof: int, items: seq<Item>, lastep: int, ep: nat, code: seq<int>,
                    whole: Parsed)
    requires Writing(text, i, eof, items, lastep, ep, code, whole)
    requires lastep >= 0 && Chr(text, i) == STARCH && eof != STARCH
    ensures lastep < ep
    ensures Writing(text, i + 1, eof, Starred(items), lastep, ep, code[lastep := WithStar(code[lastep])], whole)
  {
    hide Parse, Code;
    var x := items[|items| - 1];
    ParseStar(text, i, eof, items);
    CodeStarred(items);
    StarBit(x.atom);
    assert code[lastep] == code[..ep][lastep] == OpCode(x);
    assert code[lastep := WithStar(code[lastep])][..ep] == code[..ep][lastep := WithStar(code[lastep])];
    assert Starred(items)[..|items| - 1] == items[..|items| - 1];
  }

  function WithStar(op: int): int {
    if op % 2 == 0 then op + STAR else op
  }

  /** Input as getchr gives it: seven bits and no NUL. */
  predicate Typed(text: seq<int>) {
    forall i :: 0 <= i < |text| ==> 1 <= text[i] < 128
  }

  lemma TypedZeroless(s: seq<int>)
    requires Typed(s)
    ensures Zeroless(s)
  {
  }

  // ----- One step of parsing, also beyond the end of the input -----

  lemma ParseBeyond(text: seq<int>, i: nat, eof: int, items: seq<Item>)
    requires eof != EOF && Chr(text, i) == EOF && items != []
    ensures Parse(text, i, eof, items, true) == Bad
  {
  }

  lemma ParseStar(text: seq<int>, i: nat, eof: int, items: seq<Item>)
    requires items != [] && Chr(text, i) == STARCH && eof != STARCH
    ensures Parse(text, i, eof, items, true) == Parse(text, i + 1, eof, Starred(items), true)
  {
  }

  lemma ParseLiteral(text: seq<int>, i: nat, eof: int, items: seq<Item>, armed: bool, c: int)
    requires armed ==> items != []
    requires Typed(text) && eof != EOF && c == Chr(text, i) && !Ends(c, eof)
    requires c != STARCH && c != BACKSLASH && c != PERIOD && c != OPEN && (c == DOLLAR ==> !Ends(Chr(text, i + 1), eof))
    ensures Parse(text, i, eof, items, armed) == Parse(text, i + 1, eof, Atomic(items, Literal(c)), true)
  {
    if c == EOF {
      ParseBeyond(text, i + 1, eof, Atomic(items, Literal(c)));
    }
  }

  lemma ParseStarch(text: seq<int>, i: nat, eof: int, items: seq<Item>)
    requires Chr(text, i) == STARCH && eof != STARCH
    ensures Parse(text, i, eof, items, false) == Parse(text, i + 1, eof, Atomic(items, Literal(STARCH)), false)
  {
  }

  lemma ParseEscape(text: seq<int>, i: nat, eof: int, items: seq<Item>, armed: bool, d: int)
    requires armed ==> items != []
    requires Typed(text) && eof != EOF && eof != BACKSLASH && Chr(text, i) == BACKSLASH && d == Chr(text, i + 1)
    requires !Parse(text, i, eof, items, armed).Grouped?
    ensures !Groups(d)
    ensures Parse(text, i, eof, items, armed) ==
            if d == NEWLINE then Bad else Parse(text, i + 2, eof, Atomic(items, Literal(d)), true)
  {
    if d == EOF {
      ParseBeyond(text, i + 2, eof, Atomic(items, Literal(d)));
    }
  }

  lemma ParsePeriod(text: seq<int>, i: nat, eof: int, items: seq<Item>, armed: bool)
    requires armed ==> items != []
    requires eof != PERIOD && Chr(text, i) == PERIOD
    ensures Parse(text, i, eof, items, armed) == Parse(text, i + 1, eof, Atomic(items, Any), true)
  {
  }

  lemma ParseDollar(text: seq<int>, i: nat, eof: int, items: seq<Item>, armed: bool)
    requires armed ==> items != []
    requires eof != DOLLAR && Chr(text, i) == DOLLAR && Ends(Chr(text, i + 1), eof)
    ensures Parse(text, i, eof, items, armed) == Parse(text, i + 1, eof, Atomic(items, End), true)
  {
  }

  lemma ParseOpen(text: seq<int>, i: nat, eof: int, items: seq<Item>, armed: bool)
    requires armed ==> items != []
    requires eof != OPEN && Chr(text, i) == OPEN
    ensures Parse(text, i, eof, items, armed) ==
            if SetAt(text, i + 1).Unclosed? then Bad
            else Parse(text, SetAt(text, i + 1).next, eof, Atomic(items, SetAtom(text, i + 1)), true)
  {
  }

  // ----- A bracketed set -----

  /** Members got are in the cells from ep up to p, and reading on from i leads to the whole set. The cell before
    * the first member is zero. */
  ghost predicate Filling(text: seq<int>, i: nat, got: seq<int>, ep: nat, p: nat, code: seq<int>, whole: Members) {
    1 <= ep && p == ep + |got| && p < |code| && code[ep - 1] == 0 && code[ep..p] == got &&
    Bracketed(text, i, got) == whole &&
    (forall k :: 0 <= k < |got| ==> got[k] != 0) &&
    (i < |text| ==> forall k :: 0 <= k < |got| ==> got[k] > 0)
  }

  lemma LastCell(text: seq<int>, i: nat, got: seq<int>, ep: nat, p: nat, code: seq<int>, whole: Members)
    requires Filling(text, i, got, ep, p, code, whole)
    ensures code[p - 1] == 0 <==> got == []
    ensures got != [] ==> code[p - 1] == got[|got| - 1]
  {
    if got != [] {
      assert code[p - 1] == code[ep..p][|got| - 1];
    }
  }

  /** c has been read at i and goes after g. */
  lemma Pushed(text: seq<int>, i: nat, g: seq<int>, c: int, ep: nat, p: nat, code: seq<int>, whole: Members)
    requires Typed(text) && c == Chr(text, i)
    requires 1 <= ep && p == ep + |g| && p + 1 < |code| && code[ep - 1] == 0 && code[ep..p] == g
    requires (forall k :: 0 <= k < |g| ==> g[k] != 0) && (i < |text| ==> forall k :: 0 <= k < |g| ==> g[k] > 0)
    requires whole == if c == EOF then Unclosed else Further(text, i + 1, g + [c])
    ensures code[p := c][..ep] == code[..ep] && code[p := c][ep..p + 1] == g + [c]
    ensures Chr(text, i + 1) == CLOSE ==> whole == Set(g + [c], i + 2)
    ensures Chr(text, i + 1) != CLOSE ==> Filling(text, i + 1, g + [c], ep, p + 1, code[p := c], whole)
    ensures whole.Set? ==> ep + |whole.members| > p
  {
    assert code[p := c][ep..p + 1] == code[ep..p] + [c];
    if c == EOF {
      assert Bracketed(text, i + 1, g + [c]) == Unclosed;
    }
  }

  lemma Ordinary(text: seq<int>, i: nat, got: seq<int>)
    requires Chr(text, i) != NEWLINE && (Chr(text, i) == HYPHEN ==> got == [])
    ensures Bracketed(text, i, got) ==
            if Chr(text, i) == EOF then Unclosed else Further(text, i + 1, got + [Chr(text, i)])
  {
  }

  lemma LastHyphen(text: seq<int>, i: nat, got: seq<int>)
    requires Chr(text, i) == HYPHEN && got != [] && Chr(text, i + 1) == CLOSE
    ensures Bracketed(text, i, got) == Set(got + [HYPHEN], i + 2)
  {
  }

  lemma InRange(text: seq<int>, i: nat, got: seq<int>, d: int)
    requires Chr(text, i) == HYPHEN && got != [] && d == Chr(text, i + 1) && d != CLOSE
    ensures Bracketed(text, i, got) ==
            if d == EOF then Unclosed else Further(text, i + 2, got + Upto(got[|got| - 1], d) + [d])
  {
  }

  /** The cells from ep up to p, where more of the range up to hi will follow. */
  ghost predicate Ranging(got: seq<int>, hi: int, ep: nat, p: nat, code: seq<int>, goal: seq<int>) {
    1 <= ep < p <= |code| && code[ep - 1] == 0 && code[ep..p] == got && (forall k :: 0 <= k < |got| ==> got[k] > 0) &&
    got + Upto(code[p - 1], hi) == goal
  }

  lemma RangeStep(got: seq<int>, hi: int, ep: nat, p: nat, code: seq<int>, goal: seq<int>)
    requires Ranging(got, hi, ep, p, code, goal) && code[p - 1] < hi && p < |code|
    ensures Ranging(got + [code[p - 1] + 1], hi, ep, p + 1, code[p := code[p - 1] + 1], goal)
    ensures p + 1 <= ep + |goal|
  {
    var x := code[p - 1];
    var after := code[p := x + 1];
    assert code[p - 1] == code[ep..p][|got| - 1];
    assert after[ep..p + 1] == code[ep..p] + [x + 1];
    assert got + [x + 1] + Upto(x + 1, hi) == got + Upto(x, hi);
  }

  /** What Compile is asked to compile, if not the empty pattern. */
  function Wanted(text: seq<int>, eof: int): Parsed {
    if Ends(Chr(text, 0), eof) then Pattern([], if Chr(text, 0) == NEWLINE then 0 else 1)
    else Parse(text, if Chr(text, 0) == CARET then 1 else 0, eof, [], false)
  }

  /** The set whose first character is at i. */
  function SetAt(text: seq<int>, i: nat): (r: Members)
    ensures r.Set? ==> i < r.next
  {
    Bracketed(text, if Chr(text, i) == CARET then i + 1 else i, [])
  }

  function SetAtom(text: seq<int>, i: nat): Atom
    requires SetAt(text, i).Set?
  {
    if Chr(text, i) == CARET then NoneOf(SetAt(text, i).members) else OneOf(SetAt(text, i).members)
  }

  /** The code of a set, when its operation, a free cell and its members are in place. */
  lemma SetPlaced(text: seq<int>, i: nat, was: seq<int>, mid: seq<int>, ep: nat, end: nat)
    requires SetAt(text, i).Set? && ep + 2 <= |was| && end == ep + 2 + |SetAt(text, i).members| <= |mid|
    requires mid[..ep + 2] == was[..ep] + [if Chr(text, i) == CARET then NCCL else CCL, 0]
    requires mid[ep + 2..end] == SetAt(text, i).members
    ensures var done := mid[ep + 1 := Signed(end - (ep + 2) + 1)];
      && done[..ep] == was[..ep] && done[ep] == Op(SetAtom(text, i)) && done[ep + 1..end] == Args(SetAtom(text, i))
  {
    var done := mid[ep + 1 := Signed(end - (ep + 2) + 1)];
    assert done[..ep] == mid[..ep + 2][..ep];
    assert done[ep] == mid[..ep + 2][ep];
    assert done[ep + 1..end] == [done[ep + 1]] + mid[ep + 2..end];
  }

  lemma WritingSize(text: seq<int>, i: nat, eof: int, items: seq<Item>, lastep: int, ep: nat, code: seq<int>,
                    whole: Parsed)
    requires Writing(text, i, eof, items, lastep, ep, code, whole)
    ensures |code| == ESIZE + 4 && ep <= |code| && (lastep >= 0 ==> items != [])
  {
  }

  lemma AfterPeriod(text: seq<int>, i: nat, eof: int, items: seq<Item>, lastep: int, ep: nat, code: seq<int>,
                    whole: Parsed)
    requires Writing(text, i, eof, items, lastep, ep, code, whole)
    requires ep < ESIZE && Chr(text, i) == PERIOD && eof != PERIOD
    ensures Writing(text, i + 1, eof, Atomic(items, Any), ep, ep + 1, code[ep := CDOT], whole)
  {
    hide Parse, Code;
    ParsePeriod(text, i, eof, items, lastep >= 0);
    Appended(text, i, i + 1, eof, items, Any, lastep, ep, ep, code, code[ep := CDOT], whole);
  }

  lemma AfterDollar(text: seq<int>, i: nat, eof: int, items: seq<Item>, lastep: int, ep: nat, code: seq<int>,
                    whole: Parsed)
    requires Writing(text, i, eof, items, lastep, ep, code, whole)
    requires ep < ESIZE && Chr(text, i) == DOLLAR && eof != DOLLAR && Ends(Chr(text, i + 1), eof)
    ensures Writing(text, i + 1, eof, Atomic(items, End), ep, ep + 1, code[ep := CDOL], whole)
  {
    hide Parse, Code;
    ParseDollar(text, i, eof, items, lastep >= 0);
    Appended(text, i, i + 1, eof, items, End, lastep, ep, ep, code, code[ep := CDOL], whole);
  }

  /** c is an ordinary character, or the one after a backslash. */
  lemma AfterLiteral(text: seq<int>, i: nat, eof: int, items: seq<Item>, c: int, lastep: int, ep: nat, code: seq<int>,
                     whole: Parsed)
    requires Writing(text, i, eof, items, lastep, ep, code, whole)
    requires Typed(text) && ep < ESIZE && eof != EOF && !Ends(Chr(text, i), eof) && !whole.Grouped?
    requires Chr(text, i) != PERIOD && Chr(text, i) != OPEN && (Chr(text, i) == DOLLAR ==> !Ends(Chr(text, i + 1), eof))
    requires Chr(text, i) == STARCH ==> lastep < 0
    requires c == if Chr(text, i) == BACKSLASH then Chr(text, i + 1) else Chr(text, i)
    ensures !(Chr(text, i) == BACKSLASH && Groups(c))
    ensures c == NEWLINE ==> whole == Bad
    ensures c != NEWLINE ==>
      Writing(text, if Chr(text, i) == BACKSLASH then i + 2 else i + 1, eof, Atomic(items, Literal(c)),
                                     if Chr(text, i) == STARCH then lastep else ep, ep + 2,
                                     code[ep := CCHR][ep + 1 := c], whole)
  {
    hide Parse, Code, Typed;
    var b := Chr(text, i);
    if b == BACKSLASH {
      ParseEscape(text, i, eof, items, lastep >= 0, c);
    } else if b == STARCH {
      ParseStarch(text, i, eof, items);
    } else {
      ParseLiteral(text, i, eof, items, lastep >= 0, c);
    }
    var after := code[ep := CCHR][ep + 1 := c];
    if c != NEWLINE {
      assert after[ep + 1..ep + 2] == [c];
      Appended(text, i, if b == BACKSLASH then i + 2 else i + 1, eof, items, Literal(c), lastep,
               if b == STARCH then lastep else ep, ep, code, after, whole);
    }
  }

  lemma AfterSet(text: seq<int>, i: nat, eof: int, items: seq<Item>, lastep: int, ep: nat, code: seq<int>,
                 after: seq<int>, whole: Parsed, ok: bool)
    requires Writing(text, i, eof, items, lastep, ep, code, whole)
    requires eof != OPEN && Chr(text, i) == OPEN && |after| == |code| && ep < ESIZE && after[..ep] == code[..ep]
    requires ok ==> SetAt(text, i + 1).Set? && ep + 2 + |SetAt(text, i + 1).members| <= ESIZE
    requires ok ==>
      && after[ep] == Op(SetAtom(text, i + 1))
      && after[ep + 1..ep + 2 + |SetAt(text, i + 1).members|] == Args(SetAtom(text, i + 1))
    requires !ok ==> SetAt(text, i + 1).Set? ==> ep + 2 + |SetAt(text, i + 1).members| >= ESIZE
    ensures ok ==> Writing(text, SetAt(text, i + 1).next, eof, Atomic(items, SetAtom(text, i + 1)), ep,
                           ep + 2 + |SetAt(text, i + 1).members|, after, whole)
    ensures !ok ==> whole.Pattern? ==> Len(whole.items) >= ESIZE
  {
    hide Parse, Code, SetAt, SetAtom, Args, Op;
    ParseOpen(text, i, eof, items, lastep >= 0);
    var set_ := SetAt(text, i + 1);
    if set_.Set? {
      var a := SetAtom(text, i + 1);
      SetSize(text, i + 1);
      if ok {
        Appended(text, i, set_.next, eof, items, a, lastep, ep, ep, code, after, whole);
      } else {
        GrowBy(text, set_.next, eof, items, a, true);
      }
    }
  }

  lemma SetSize(text: seq<int>, i: nat)
    requires SetAt(text, i).Set?
    ensures |Args(SetAtom(text, i))| == 1 + |SetAt(text, i).members| && !SetAtom(text, i).End?
  {
  }

  lemma FillStart(text: seq<int>, i: nat, ep: nat, code: seq<int>)
    requires 1 <= ep < |code| && code[ep - 1] == 0
    ensures Filling(text, i, [], ep, ep, code, Bracketed(text, i, []))
  {
  }

  lemma FillFacts(text: seq<int>, i: nat, got: seq<int>, ep: nat, p: nat, code: seq<int>, whole: Members)
    requires Filling(text, i, got, ep, p, code, whole)
    ensures 1 <= ep && p < |code| && code[ep - 1] == 0 && code[ep..p] == got && whole == Bracketed(text, i, got)
    ensures code[p - 1] == 0 <==> got == []
    ensures got != [] ==> code[p - 1] == got[|got| - 1]
    ensures Chr(text, i) == NEWLINE ==> whole.Unclosed?
    ensures (forall k :: 0 <= k < |got| ==> got[k] != 0)
    ensures i < |text| ==> forall k :: 0 <= k < |got| ==> got[k] > 0
    ensures Chr(text, i) == HYPHEN ==> forall k :: 0 <= k < |got| ==> got[k] > 0
    ensures whole.Set? ==> ep + |whole.members| > p
  {
    LastCell(text, i, got, ep, p, code, whole);
  }

  lemma RangeStart(got: seq<int>, hi: int, ep: nat, p: nat, code: seq<int>)
    requires 1 <= ep < p <= |code| && code[ep - 1] == 0 && code[ep..p] == got
    requires forall k :: 0 <= k < |got| ==> got[k] > 0
    ensures Ranging(got, hi, ep, p, code, got + Upto(code[p - 1], hi))
  {
  }

  lemma RangeDone(got: seq<int>, hi: int, ep: nat, p: nat, code: seq<int>, goal: seq<int>)
    requires Ranging(got, hi, ep, p, code, goal) && code[p - 1] >= hi
    ensures got == goal && p == ep + |goal| && forall k :: 0 <= k < |goal| ==> goal[k] > 0
  {
  }

  /** The count of a set survives in its cell just when the set has less than 127 members. */
  lemma CountKept(a: Atom)
    requires a.OneOf? || a.NoneOf?
    requires |a.members| < ESIZE
    ensures Args(a)[0] == |a.members| + 1 <==> Countable(a)
  {
  }

  /** All characters in a set: more than the cell can count. */
  lemma LongSet()
    ensures var text := [OPEN, 1, HYPHEN, 127, CLOSE];
            var p := Parse(text + [NEWLINE], 0, NEWLINE, [], false);
            p.Pattern? && Len(p.items) < ESIZE && !Fits(p.items) && Code(p.items)[1] == -127
  {
    hide Parse, Bracketed, Further, Code;
    var line := [OPEN, 1, HYPHEN, 127, CLOSE] + [NEWLINE];
    var m := [1] + Upto(1, 127) + [127];
    assert Chr(line, 0) == OPEN && Chr(line, 1) == 1 && Chr(line, 2) == HYPHEN && Chr(line, 3) == 127;
    assert Chr(line, 4) == CLOSE && Chr(line, 5) == NEWLINE;
    Ordinary(line, 1, []);
    assert [] + [1] == [1];
    NextMember(line, 2, [1]);
    InRange(line, 2, [1], 127);
    NextMember(line, 4, m);
    ParseOpen(line, 0, NEWLINE, [], false);
    ParseEnd(line, 5, NEWLINE, Atomic([], OneOf(m)), true);
    CodeAtomic([], OneOf(m));
    NoCode();
    assert Atomic([], OneOf(m))[0].atom == OneOf(m);
  }

  lemma NextMember(text: seq<int>, i: nat, got: seq<int>)
    ensures Further(text, i, got) == if Chr(text, i) == CLOSE then Set(got, i + 1) else Bracketed(text, i, got)
  {
  }

  lemma ParseEnd(text: seq<int>, i: nat, eof: int, items: seq<Item>, armed: bool)
    requires (armed ==> items != []) && Chr(text, i) == NEWLINE
    ensures Parse(text, i, eof, items, armed) == Pattern(items, i)
  {
  }

  lemma NoCode()
    ensures Code([]) == []
  {
  }
}
