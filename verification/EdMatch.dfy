/** How the compiled form leads through a line: one item after the other, a star taking as much as it can. */
module EdMatch {
  import opened EdPattern
  import opened EdCode

  /** The items are compiled from ep on. */
  ghost predicate At(code: seq<int>, ep: nat, items: seq<Item>)
    decreases |items|
  {
    if items == [] then ep < |code| && code[ep] == CEOF
    else Here(code, ep, items[0]) && At(code, ep + 1 + |Args(items[0].atom)|, items[1..])
  }

  ghost predicate Here(code: seq<int>, ep: nat, x: Item) {
    ep + 1 + |Args(x.atom)| <= |code| && code[ep] == OpCode(x) &&
    code[ep + 1..ep + 1 + |Args(x.atom)|] == Args(x.atom)
  }

  lemma {:induction false} CodePrefix(items: seq<Item>, k: nat)
    requires k <= |items|
    ensures Code(items[..k]) <= Code(items)
  {
    if k < |items| {
      CodePrefix(items[..|items| - 1], k);
      assert items[..|items| - 1][..k] == items[..k];
    } else {
      assert items[..k] == items;
    }
  }

  lemma CodeNext(items: seq<Item>, k: nat)
    requires k < |items|
    ensures Code(items[..k + 1]) == Code(items[..k]) + ItemCode(items[k])
  {
    assert items[..k + 1][..k] == items[..k];
  }

  lemma ItemHere(code: seq<int>, whole: seq<int>, head: seq<int>, x: Item)
    requires whole <= code && head + ItemCode(x) <= whole
    ensures Here(code, |head|, x)
  {
    var end := |head| + |ItemCode(x)|;
    assert code[..end] == head + ItemCode(x);
    assert code[|head|] == code[..end][|head|];
    assert code[|head| + 1..end] == code[..end][|head| + 1..] == ItemCode(x)[1..];
  }

  lemma NextHere(code: seq<int>, items: seq<Item>, k: nat)
    requires k < |items| && Code(items) + [CEOF] <= code
    ensures Here(code, Len(items[..k]), items[k])
    ensures Len(items[..k + 1]) == Len(items[..k]) + 1 + |Args(items[k].atom)|
  {
    hide Code, Here;
    CodeNext(items, k);
    CodePrefix(items, k + 1);
    PrefixOf(Code(items[..k + 1]), Code(items), [CEOF]);
    ItemHere(code, Code(items) + [CEOF], Code(items[..k]), items[k]);
  }

  lemma PrefixOf(a: seq<int>, b: seq<int>, c: seq<int>)
    requires a <= b
    ensures a <= b + c
  {
  }

  lemma EndHere(code: seq<int>, items: seq<Item>)
    requires Code(items) + [CEOF] <= code
    ensures At(code, Len(items), [])
  {
    hide Code;
    assert code[Len(items)] == (Code(items) + [CEOF])[Len(items)];
  }

  /** From the code of a pattern each item can be found where the code of those before it ends. */
  lemma {:induction false} CodeAt(code: seq<int>, items: seq<Item>, k: nat)
    requires k <= |items| && Code(items) + [CEOF] <= code
    ensures At(code, Len(items[..k]), items[k..])
    decreases |items| - k
  {
    hide Code, Here, Args, ItemCode;
    if k == |items| {
      assert items[..k] == items;
      EndHere(code, items);
    } else {
      NextHere(code, items, k);
      CodeAt(code, items, k + 1);
      assert items[k..][1..] == items[k + 1..];
    }
  }

  // ----- What compiled items are like -----

  /** A $ never has a star, and no item is the character NUL. */
  predicate Proper(items: seq<Item>) {
    forall k :: 0 <= k < |items| ==> Usual(items[k])
  }

  predicate Usual(x: Item) {
    (x.atom.End? ==> !x.star) && x.atom != Literal(0)
  }

  /** The count of each set can be kept in a signed character. */
  predicate Fits(items: seq<Item>) {
    forall k :: 0 <= k < |items| ==> Countable(items[k].atom)
  }

  predicate Countable(a: Atom) {
    match a
    case OneOf(m) => |m| + 1 < 128
    case NoneOf(m) => |m| + 1 < 128
    case _ => true
  }

  /** Parse makes only such items. */
  lemma {:induction false} ParseProper(text: seq<int>, i: nat, eof: int, items: seq<Item>, armed: bool)
    requires Zeroless(text) && Proper(items)
    requires armed ==> items != []
    requires items != [] && items[|items| - 1].atom.End? ==> Ends(Chr(text, i), eof)
    ensures var p := Parse(text, i, eof, items, armed); p.Pattern? ==> Proper(p.items)
    decreases |text| - i
  {
    var c := Chr(text, i);
    if c == NEWLINE || c == eof || c == EOF {
    } else if c == STARCH && armed {
      ParseProper(text, i + 1, eof, Starred(items), true);
    } else if c == OPEN {
      var neg := Chr(text, i + 1) == CARET;
      var set_ := Bracketed(text, if neg then i + 2 else i + 1, []);
      if set_.Set? {
        ParseProper(text, set_.next, eof, Atomic(items, if neg then NoneOf(set_.members) else OneOf(set_.members)),
                    true);
      }
    } else if c == BACKSLASH {
      if Chr(text, i + 1) != EOF {
        ParseProper(text, i + 2, eof, Atomic(items, Literal(Chr(text, i + 1))), true);
      }
    } else if c == STARCH {
      ParseProper(text, i + 1, eof, Atomic(items, Literal(STARCH)), false);
    } else if c == PERIOD {
      ParseProper(text, i + 1, eof, Atomic(items, Any), true);
    } else if c == DOLLAR && Ends(Chr(text, i + 1), eof) {
      ParseProper(text, i + 1, eof, Atomic(items, End), true);
    } else {
      ParseProper(text, i + 1, eof, Atomic(items, Literal(c)), true);
    }
  }

  predicate Zeroless(s: seq<int>) {
    forall k :: 0 <= k < |s| ==> s[k] != 0
  }

  // ----- Going through the line -----

  /** The character at i; after the line comes NUL. */
  function Cell(s: seq<int>, i: nat): int {
    if i < |s| then s[i] else 0
  }

  lemma CellBefore(s: seq<int>, i: nat)
    requires Zeroless(s) && i <= |s|
    ensures Cell(s, i) != 0 <==> i < |s|
  {
  }

  /** The operation at ep tells the item; the last one ends the pattern. */
  lemma AtFacts(code: seq<int>, ep: nat, rest: seq<Item>)
    requires At(code, ep, rest) && Proper(rest) && Fits(rest)
    ensures ep < |code| && (code[ep] == CEOF <==> rest == [])
    ensures rest != [] ==>
      Here(code, ep, rest[0]) && Usual(rest[0]) && Countable(rest[0].atom) && (code[ep] % 2 != 0 <==> rest[0].star)
    ensures rest != [] ==> At(code, ep + 1 + |Args(rest[0].atom)|, rest[1..]) && Proper(rest[1..]) && Fits(rest[1..])
  {
  }

  /** Whether and how the items match from i is decided by how the rest of them matches from lp. */
  ghost predicate Leads(items: seq<Item>, s: seq<int>, i: nat, rest: seq<Item>, lp: nat) {
    (Matches(items, s, i) <==> Matches(rest, s, lp)) &&
    forall j: nat :: Greediest(rest, s, lp, j) ==> Greediest(items, s, i, j)
  }

  lemma LeadsOn(items: seq<Item>, s: seq<int>, i: nat, rest: seq<Item>, lp: nat, last: seq<Item>, to_: nat)
    requires Leads(items, s, i, rest, lp) && Leads(rest, s, lp, last, to_)
    ensures Leads(items, s, i, last, to_)
  {
    hide Greediest, Matches;
  }

  lemma LeadsStart(items: seq<Item>, s: seq<int>, i: nat)
    ensures Leads(items, s, i, items, i)
  {
  }

  lemma Done(items: seq<Item>, s: seq<int>, i: nat, lp: nat)
    requires Leads(items, s, i, [], lp)
    ensures Matches(items, s, i) && Greediest(items, s, i, lp)
  {
    assert Match([], s, lp, lp);
  }

  /** One character goes to an item without a star, or none does. */
  lemma OneStep(rest: seq<Item>, s: seq<int>, lp: nat)
    requires rest != [] && !rest[0].star && !rest[0].atom.End? && lp <= |s|
    ensures lp < |s| && Accepts(rest[0].atom, s[lp]) ==> Leads(rest, s, lp, rest[1..], lp + 1)
    ensures !(lp < |s| && Accepts(rest[0].atom, s[lp])) ==> !Matches(rest, s, lp)
  {
    if lp < |s| && Accepts(rest[0].atom, s[lp]) {
      forall j: nat
        ensures Match(rest, s, lp, j) <==> Match(rest[1..], s, lp + 1, j)
        ensures Greediest(rest[1..], s, lp + 1, j) ==> Greediest(rest, s, lp, j)
      {
      }
      SameMatches(rest, s, lp, rest[1..], lp + 1);
    }
  }

  lemma SameMatches(items: seq<Item>, s: seq<int>, i: nat, rest: seq<Item>, lp: nat)
    requires forall j: nat :: Match(items, s, i, j) <==> Match(rest, s, lp, j)
    ensures Matches(items, s, i) <==> Matches(rest, s, lp)
  {
    hide Match;
    if Matches(items, s, i) {
      var j: nat :| Match(items, s, i, j);
      assert Match(rest, s, lp, j);
    }
    if Matches(rest, s, lp) {
      var j: nat :| Match(rest, s, lp, j);
      assert Match(items, s, i, j);
    }
  }

  /** An item without a star has been tried. */
  lemma SingleStep(rest: seq<Item>, s: seq<int>, lp: nat, good: bool, to_: nat)
    requires rest != [] && !rest[0].star && lp <= |s|
    requires rest[0].atom.End? ==> to_ == lp && good == (lp == |s|)
    requires !rest[0].atom.End? ==> to_ == lp + 1 && good == (lp < |s| && Accepts(rest[0].atom, s[lp]))
    ensures good ==> Leads(rest, s, lp, rest[1..], to_) && to_ <= |s|
    ensures !good ==> !Matches(rest, s, lp)
  {
    hide Matches, Leads;
    if rest[0].atom.End? {
      EndStep(rest, s, lp);
    } else {
      OneStep(rest, s, lp);
    }
  }

  lemma LeadsTo(items: seq<Item>, s: seq<int>, i: nat, rest: seq<Item>, lp: nat)
    requires Leads(items, s, i, rest, lp)
    ensures Matches(items, s, i) <==> Matches(rest, s, lp)
    ensures forall j: nat :: Greediest(rest, s, lp, j) ==> Greediest(items, s, i, j)
  {
  }

  lemma EndStep(rest: seq<Item>, s: seq<int>, lp: nat)
    requires rest != [] && !rest[0].star && rest[0].atom.End? && lp <= |s|
    ensures lp == |s| ==> Leads(rest, s, lp, rest[1..], lp)
    ensures lp < |s| ==> !Matches(rest, s, lp)
  {
    if lp == |s| {
      forall j: nat
        ensures Match(rest, s, lp, j) <==> Match(rest[1..], s, lp, j)
        ensures Greediest(rest[1..], s, lp, j) ==> Greediest(rest, s, lp, j)
      {
      }
      SameMatches(rest, s, lp, rest[1..], lp);
    }
  }

  /** No longer run than n begins at i. */
  predicate Widest(a: Atom, s: seq<int>, i: nat, n: nat) {
    Run(a, s, i, n) && (i + n < |s| ==> !Accepts(a, s[i + n]))
  }

  /** After a star n characters are left to be tried, and more of them did not do. */
  ghost predicate Tried(rest: seq<Item>, s: seq<int>, cur: nat, n: nat)
    requires rest != []
  {
    Run(rest[0].atom, s, cur, n) &&
    forall m: nat :: m > n && Run(rest[0].atom, s, cur, m) ==> !Matches(rest[1..], s, cur + m)
  }

  lemma WidestRun(a: Atom, s: seq<int>, i: nat, n: nat)
    requires Widest(a, s, i, n)
    ensures i + n <= |s|
  {
  }

  lemma StarStart(rest: seq<Item>, s: seq<int>, cur: nat, n: nat)
    requires rest != [] && Widest(rest[0].atom, s, cur, n)
    ensures Tried(rest, s, cur, n)
  {
    WidestBound(rest[0].atom, s, cur, n);
  }

  lemma WidestBound(a: Atom, s: seq<int>, i: nat, n: nat)
    requires Widest(a, s, i, n)
    ensures forall m: nat :: Run(a, s, i, m) ==> m <= n
  {
    forall m: nat
      ensures Run(a, s, i, m) ==> m <= n
    {
      RunAt(a, s, i, m, n);
    }
  }

  lemma RunAt(a: Atom, s: seq<int>, i: nat, m: nat, n: nat)
    ensures n < m && Run(a, s, i, m) ==> i + n < |s| && Accepts(a, s[i + n])
  {
  }

  lemma StarHit(rest: seq<Item>, s: seq<int>, cur: nat, n: nat, j: nat)
    requires rest != [] && rest[0].star && Tried(rest, s, cur, n)
    requires Matches(rest[1..], s, cur + n) && Greediest(rest[1..], s, cur + n, j)
    ensures Matches(rest, s, cur) && Greediest(rest, s, cur, j)
  {
    var k: nat :| Match(rest[1..], s, cur + n, k);
    assert Match(rest, s, cur, k);
    assert Longest(rest, s, cur, n);
  }

  lemma StarNext(rest: seq<Item>, s: seq<int>, cur: nat, n: nat)
    requires rest != [] && Tried(rest, s, cur, n) && n > 0 && !Matches(rest[1..], s, cur + n)
    ensures Tried(rest, s, cur, n - 1)
  {
    hide Matches;
  }

  lemma StarMiss(rest: seq<Item>, s: seq<int>, cur: nat)
    requires rest != [] && rest[0].star && Tried(rest, s, cur, 0) && !Matches(rest[1..], s, cur)
    ensures !Matches(rest, s, cur)
  {
    hide Matches, Match;
    StarMeans(rest, s, cur);
  }

  lemma StarMeans(rest: seq<Item>, s: seq<int>, cur: nat)
    requires rest != [] && rest[0].star
    ensures Matches(rest, s, cur) ==> exists n: nat :: Run(rest[0].atom, s, cur, n) && Matches(rest[1..], s, cur + n)
  {
    if Matches(rest, s, cur) {
      var j: nat :| Match(rest, s, cur, j);
      var n: nat :| Run(rest[0].atom, s, cur, n) && Match(rest[1..], s, cur + n, j);
      assert Matches(rest[1..], s, cur + n);
    }
  }

  // ----- Searching -----

  /** The pattern, anchored or not, matches from i. */
  ghost predicate Found(items: seq<Item>, anchored: bool, s: seq<int>, i: nat) {
    i <= |s| && (anchored ==> i == 0) && Matches(items, s, i)
  }

  /** i is the first place where it does. */
  ghost predicate Leftmost(items: seq<Item>, anchored: bool, s: seq<int>, i: nat) {
    Found(items, anchored, s, i) && forall k: nat :: k < i ==> !Found(items, anchored, s, k)
  }

  ghost predicate Somewhere(items: seq<Item>, anchored: bool, s: seq<int>) {
    exists i: nat :: Found(items, anchored, s, i)
  }

  /** A pattern that begins with a character matches only where that character is. */
  lemma FirstCharacter(items: seq<Item>, s: seq<int>, i: nat)
    requires items != [] && !items[0].star && items[0].atom.Literal?
    ensures Matches(items, s, i) ==> i < |s| && s[i] == items[0].atom.c
  {
  }

  lemma CodeStart(items: seq<Item>)
    ensures Len(items[..0]) == 0 && items[0..] == items
  {
  }

  lemma FirstCode(code: seq<int>, items: seq<Item>)
    requires At(code, 0, items) && Proper(items)
    ensures code[0] == CCHR ==>
      items != [] && !items[0].star && items[0].atom.Literal? && |code| > 1 && code[1] == items[0].atom.c
  {
    if items != [] && items[0].atom.Literal? {
      assert code[1] == code[1..2][0];
    }
  }

  lemma Anchored(items: seq<Item>, s: seq<int>)
    ensures Somewhere(items, true, s) <==> Matches(items, s, 0)
    ensures Matches(items, s, 0) ==> Leftmost(items, true, s, 0)
  {
    hide Matches;
    if Matches(items, s, 0) {
      assert Found(items, true, s, 0);
    }
  }

  lemma FirstFound(items: seq<Item>, s: seq<int>, i: nat)
    requires i <= |s| && Matches(items, s, i) && forall k: nat :: k < i ==> !Matches(items, s, k)
    ensures Leftmost(items, false, s, i) && Somewhere(items, false, s)
  {
    hide Matches;
  }

  lemma Nowhere(items: seq<Item>, s: seq<int>)
    requires forall k: nat :: k <= |s| ==> !Matches(items, s, k)
    ensures !Somewhere(items, false, s)
  {
    hide Matches;
  }
}
