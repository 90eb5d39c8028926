/** The patterns of ed without groups: how they are written and what they match. */
module EdPattern {
  const EOF := -1
  const NEWLINE := 10
  const DOLLAR := 36
  const STARCH := 42
  const HYPHEN := 45
  const PERIOD := 46
  const OPEN := 91
  const BACKSLASH := 92
  const CLOSE := 93
  const CARET := 94

  datatype Atom = Literal(c: int) | Any | OneOf(members: seq<int>) | NoneOf(members: seq<int>) | End

  datatype Item = Item(atom: Atom, star: bool)

  // ----- What a pattern matches -----

  predicate Accepts(a: Atom, c: int) {
    match a
    case Literal(d) => c == d
    case Any => true
    case OneOf(m) => c in m
    case NoneOf(m) => c !in m
    case End => false
  }

  /** From i on the line has n characters that a accepts. */
  predicate Run(a: Atom, s: seq<int>, i: nat, n: nat) {
    i + n <= |s| && forall k :: i <= k < i + n ==> Accepts(a, s[k])
  }

  /** The items match just s[i..j]. A $ matches nothing, and only at the end of the line. */
  ghost predicate Match(items: seq<Item>, s: seq<int>, i: nat, j: nat)
    decreases |items|
  {
    if items == [] then i == j
    else if items[0].star then exists n: nat :: Run(items[0].atom, s, i, n) && Match(items[1..], s, i + n, j)
    else if items[0].atom.End? then i == |s| && Match(items[1..], s, i, j)
    else i < |s| && Accepts(items[0].atom, s[i]) && Match(items[1..], s, i + 1, j)
  }

  /** The items match some beginning of s[i..]. */
  ghost predicate Matches(items: seq<Item>, s: seq<int>, i: nat) {
    exists j: nat :: Match(items, s, i, j)
  }

  /** Of all the ways to match from i, s[i..j] is the one where each star takes as much as the rest allows. */
  ghost predicate Greediest(items: seq<Item>, s: seq<int>, i: nat, j: nat)
    decreases |items|
  {
    if items == [] then i == j
    else if items[0].star then exists n: nat :: Longest(items, s, i, n) && Greediest(items[1..], s, i + n, j)
    else if items[0].atom.End? then i == |s| && Greediest(items[1..], s, i, j)
    else i < |s| && Accepts(items[0].atom, s[i]) && Greediest(items[1..], s, i + 1, j)
  }

  /** n is the longest run of the first item after which the other items match. */
  ghost predicate Longest(items: seq<Item>, s: seq<int>, i: nat, n: nat)
    requires items != []
  {
    Run(items[0].atom, s, i, n) && Matches(items[1..], s, i + n) &&
    forall m: nat :: m > n && Run(items[0].atom, s, i, m) ==> !Matches(items[1..], s, i + m)
  }

  lemma {:induction false} GreediestMatches(items: seq<Item>, s: seq<int>, i: nat, j: nat)
    requires Greediest(items, s, i, j)
    ensures Match(items, s, i, j)
    decreases |items|
  {
    if items == [] {
    } else if items[0].star {
      var n: nat :| Longest(items, s, i, n) && Greediest(items[1..], s, i + n, j);
      GreediestMatches(items[1..], s, i + n, j);
    } else if items[0].atom.End? {
      GreediestMatches(items[1..], s, i, j);
    } else {
      GreediestMatches(items[1..], s, i + 1, j);
    }
  }

  lemma {:induction false} GreediestUnique(items: seq<Item>, s: seq<int>, i: nat, j: nat, k: nat)
    requires Greediest(items, s, i, j) && Greediest(items, s, i, k)
    ensures j == k
    decreases |items|
  {
    if items == [] {
    } else if items[0].star {
      var n: nat :| Longest(items, s, i, n) && Greediest(items[1..], s, i + n, j);
      var m: nat :| Longest(items, s, i, m) && Greediest(items[1..], s, i + m, k);
      assert n == m;
      GreediestUnique(items[1..], s, i + n, j, k);
    } else if items[0].atom.End? {
      GreediestUnique(items[1..], s, i, j, k);
    } else {
      GreediestUnique(items[1..], s, i + 1, j, k);
    }
  }

  // ----- How a pattern is written -----

  /** The character at i; after the whole input it is EOF. */
  function Chr(text: seq<int>, i: nat): int {
    if i < |text| then text[i] else EOF
  }

  /** The characters after lo up to hi. */
  function Upto(lo: int, hi: int): (r: seq<int>)
    ensures |r| == if lo < hi then hi - lo else 0
    decreases hi - lo
  {
    if lo < hi then [lo + 1] + Upto(lo + 1, hi) else []
  }

  datatype Members = Set(members: seq<int>, next: nat) | Unclosed

  /** The rest of a bracketed set, from i on, got being the members so far. A set has at least one member, and
    * a hyphen between two characters stands for all after the first one up to the second, which comes twice. */
  function Bracketed(text: seq<int>, i: nat, got: seq<int>): (r: Members)
    ensures r.Set? ==> i < r.next && got < r.members
    decreases |text| - i, 0
  {
    var c := Chr(text, i);
    if c == NEWLINE || c == EOF then Unclosed
    else if c == HYPHEN && got != [] then
      var d := Chr(text, i + 1);
      if d == CLOSE then Set(got + [HYPHEN], i + 2)
      else if d == EOF then Unclosed
      else Further(text, i + 2, got + Upto(got[|got| - 1], d) + [d])
    else Further(text, i + 1, got + [c])
  }

  /** The set after a member has been added: it ends here or goes on. */
  function Further(text: seq<int>, i: nat, got: seq<int>): (r: Members)
    ensures r.Set? ==> i < r.next && got <= r.members
    decreases |text| - i, 1
  {
    if Chr(text, i) == CLOSE then Set(got, i + 1) else Bracketed(text, i, got)
  }

  datatype Parsed = Pattern(items: seq<Item>, next: nat) | Bad | Grouped

  predicate Groups(c: int) {
    c == 40 || c == 41 || 49 <= c < 54
  }

  predicate Ends(c: int, eof: int) {
    c == NEWLINE || c == eof
  }

  function Atomic(items: seq<Item>, a: Atom): seq<Item> {
    items + [Item(a, false)]
  }

  function Starred(items: seq<Item>): seq<Item>
    requires items != []
  {
    items[|items| - 1 := Item(items[|items| - 1].atom, true)]
  }

  /** What is left of the pattern from i on, items being those so far. A star applies to the item before it; it
    * is an ordinary character while the pattern has had nothing else (armed is false). */
  function Parse(text: seq<int>, i: nat, eof: int, items: seq<Item>, armed: bool): Parsed
    requires armed ==> items != []
    decreases |text| - i, 0
  {
    var c := Chr(text, i);
    if c == NEWLINE then Pattern(items, i)
    else if c == eof then Pattern(items, i + 1)
    else if c == EOF then Bad
    else if c == STARCH then
      if armed then Parse(text, i + 1, eof, Starred(items), true)
      else Parse(text, i + 1, eof, Atomic(items, Literal(STARCH)), false)
    else if c == BACKSLASH then
      var d := Chr(text, i + 1);
      if Groups(d) then Grouped
      else if d == NEWLINE || d == EOF then Bad
      else Parse(text, i + 2, eof, Atomic(items, Literal(d)), true)
    else if c == PERIOD then Parse(text, i + 1, eof, Atomic(items, Any), true)
    else if c == DOLLAR && Ends(Chr(text, i + 1), eof) then Parse(text, i + 1, eof, Atomic(items, End), true)
    else if c == OPEN then ParseSet(text, i + 1, eof, items)
    else Parse(text, i + 1, eof, Atomic(items, Literal(c)), true)
  }

  /** The same after an opening bracket. */
  function ParseSet(text: seq<int>, i: nat, eof: int, items: seq<Item>): Parsed
    decreases |text| - i, 1
  {
    var neg := Chr(text, i) == CARET;
    var set_ := Bracketed(text, if neg then i + 1 else i, []);
    if set_.Unclosed? then Bad
    else Parse(text, set_.next, eof, Atomic(items, if neg then NoneOf(set_.members) else OneOf(set_.members)), true)
  }
}
