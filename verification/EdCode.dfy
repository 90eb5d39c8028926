/** The compiled form of ed's patterns: one operation per item, the star being its lowest bit. */
module EdCode {
  import opened EdPattern

  const STAR := 1
  const CCHR := 2
  const CDOT := 4
  const CCL := 6
  const NCCL := 8
  const CDOL := 10
  const CEOF := 11
  const ESIZE := 256

  /** What is left of n in a signed character. */
  function Signed(n: int): int {
    (n + 128) % 256 - 128
  }

  function Op(a: Atom): int {
    match a
    case Literal(_) => CCHR
    case Any => CDOT
    case OneOf(_) => CCL
    case NoneOf(_) => NCCL
    case End => CDOL
  }

  function Args(a: Atom): seq<int> {
    match a
    case Literal(c) => [c]
    case Any => []
    case OneOf(m) => [Signed(|m| + 1)] + m
    case NoneOf(m) => [Signed(|m| + 1)] + m
    case End => []
  }

  function OpCode(x: Item): int {
    Op(x.atom) + if x.star then STAR else 0
  }

  function ItemCode(x: Item): seq<int> {
    [OpCode(x)] + Args(x.atom)
  }

  function Code(items: seq<Item>): (r: seq<int>)
    ensures items != [] ==> |r| > 0
  {
    if items == [] then [] else Code(items[..|items| - 1]) + ItemCode(items[|items| - 1])
  }

  function Len(items: seq<Item>): nat {
    |Code(items)|
  }

  lemma CodeAtomic(items: seq<Item>, a: Atom)
    ensures Code(Atomic(items, a)) == Code(items) + [Op(a)] + Args(a)
  {
    assert Atomic(items, a)[..|items|] == items;
    assert Code(items) + ([Op(a)] + Args(a)) == Code(items) + [Op(a)] + Args(a);
  }

  lemma CodeLast(items: seq<Item>)
    requires items != []
    ensures Code(items) == Code(items[..|items| - 1]) + ItemCode(items[|items| - 1])
  {
  }

  lemma Patched(head: seq<int>, x: int, y: int, tail: seq<int>)
    ensures (head + ([x] + tail))[|head|] == x
    ensures (head + ([x] + tail))[|head| := y] == head + ([y] + tail)
  {
  }

  /** A star only changes the operation of the last item. */
  lemma CodeStarred(items: seq<Item>)
    requires items != []
    ensures Len(items[..|items| - 1]) < Len(items)
    ensures Code(items)[Len(items[..|items| - 1])] == OpCode(items[|items| - 1])
    ensures Code(Starred(items)) == Code(items)[Len(items[..|items| - 1]) := Op(items[|items| - 1].atom) + STAR]
  {
    hide Code;
    var n := |items| - 1;
    assert Starred(items)[..n] == items[..n];
    CodeLast(items);
    CodeLast(Starred(items));
    Patched(Code(items[..n]), OpCode(items[n]), Op(items[n].atom) + STAR, Args(items[n].atom));
  }

  // ----- Parsing goes forward only -----

  /** What Parse adds to the items can only make their code longer. */
  lemma {:induction false} ParseGrows(text: seq<int>, i: nat, eof: int, items: seq<Item>, armed: bool)
    requires armed ==> items != []
    ensures var p := Parse(text, i, eof, items, armed); p.Pattern? ==> Len(items) <= Len(p.items)
    decreases |text| - i, 1
  {
    hide Code;
    var c := Chr(text, i);
    if c == NEWLINE || c == eof || c == EOF {
    } else if c == STARCH && armed {
      CodeStarred(items);
      ParseGrows(text, i + 1, eof, Starred(items), true);
    } else if c == OPEN {
      SetGrows(text, i + 1, eof, items);
    } else if c == BACKSLASH {
      GrowBy(text, i + 2, eof, items, Literal(Chr(text, i + 1)), true);
    } else if c == STARCH {
      GrowBy(text, i + 1, eof, items, Literal(STARCH), false);
    } else {
      GrowBy(text, i + 1, eof, items, Any, true);
      GrowBy(text, i + 1, eof, items, End, true);
      GrowBy(text, i + 1, eof, items, Literal(c), true);
    }
  }

  lemma {:induction false} GrowBy(text: seq<int>, i: nat, eof: int, items: seq<Item>, a: Atom, armed: bool)
    ensures var p := Parse(text, i, eof, Atomic(items, a), armed); p.Pattern? ==>
      Len(items) + 1 + |Args(a)| <= Len(p.items)
    decreases |text| - i, 2
  {
    hide Parse;
    CodeAtomic(items, a);
    ParseGrows(text, i, eof, Atomic(items, a), armed);
  }

  lemma {:induction false} SetGrows(text: seq<int>, i: nat, eof: int, items: seq<Item>)
    ensures var p := ParseSet(text, i, eof, items); p.Pattern? ==> Len(items) <= Len(p.items)
    decreases |text| - i, 3
  {
    hide Parse;
    var neg := Chr(text, i) == CARET;
    var members := Bracketed(text, if neg then i + 1 else i, []);
    if members.Set? {
      GrowBy(text, members.next, eof, items, if neg then NoneOf(members.members) else OneOf(members.members), true);
    }
  }
}
