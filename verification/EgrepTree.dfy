/** The syntax tree of an egrep expression, the language it stands for, and its position automaton. */
module EgrepTree {
  const DOT := 258
  const CCL := 259
  const NCCL := 260
  const OR := 261
  const CAT := 262
  const STAR := 263
  const PLUS := 264
  const QUEST := 265
  const FINAL := -1

  /** what is read before every line, and what ^ matches */
  const LEFT := 127
  /** the end of every line, and what $ matches */
  const RIGHT := 10

  type Str = seq<int>

  /**
   The nodes 1..line as the parser leaves them. Node 1 is a DOT and node 2 its STAR, line - 2 is the
   user's expression, line - 1 puts the two together and line is FINAL.
   */
  datatype Tree = Tree(name: seq<int>, left: seq<int>, right: seq<int>, parent: seq<int>, chars: seq<int>, line: int) {
    predicate LeafOk(v: int)
      requires 0 <= v < |name| && 0 <= v < |right|
    {
      || 0 <= name[v] < 128
      || name[v] == DOT
      || ((name[v] == CCL || name[v] == NCCL)
          && 0 <= right[v] < |chars| && 0 <= chars[right[v]] && right[v] + chars[right[v]] < |chars|)
    }

    predicate ChildOk(v: int, c: int)
      requires |parent| > line
    {
      1 <= c < v <= line && parent[c] == v
    }

    predicate NodeOk(v: int)
      requires line < |name| && line < |left| && line < |right| && line < |parent| && 1 <= v <= line
    {
      if left[v] == 0 then LeafOk(v)
      else if right[v] == 0 then
        && ChildOk(v, left[v])
        && (name[v] == STAR || name[v] == PLUS || name[v] == QUEST || (name[v] == FINAL && v == line))
      else
        ChildOk(v, left[v]) && ChildOk(v, right[v]) && left[v] != right[v] && (name[v] == CAT || name[v] == OR)
    }

    /** Every node but the last is a child of its parent. */
    predicate HasParent(v: int)
      requires line < |left| && line < |right| && line < |parent| && 1 <= v < line
    {
      v < parent[v] <= line && (left[parent[v]] == v || (left[parent[v]] != 0 && right[parent[v]] == v))
    }

    ghost predicate Ok() {
      && 5 <= line < |name| && line < |left| && line < |right| && line < |parent|
      && (forall v :: 1 <= v <= line ==> NodeOk(v))
      && (forall v :: 1 <= v < line ==> HasParent(v))
      && left[1] == 0 && name[2] == STAR && left[2] == 1 && right[2] == 0
      && name[line - 1] == CAT && left[line - 1] == 2 && right[line - 1] == line - 2
      && name[line] == FINAL && left[line] == line - 1 && right[line] == 0
    }

    /** The characters a class leaf lists. */
    function Class(v: int): Str
      requires 0 <= v < |right| && 0 <= right[v] < |chars| && 0 <= chars[right[v]]
      requires right[v] + chars[right[v]] < |chars|
    {
      chars[right[v] + 1..right[v] + 1 + chars[right[v]]]
    }

    /** Leaf v takes the character c. */
    predicate Takes(v: int, c: int)
      requires 0 <= v < |name| && v < |right| && LeafOk(v)
    {
      var k := name[v];
      || k == c
      || (k == DOT && c != LEFT && c != RIGHT)
      || (k == CCL && c in Class(v))
      || (k == NCCL && c !in Class(v) && c != LEFT && c != RIGHT)
    }

    // ----- The language of a node -----

    ghost predicate InLang(v: int, w: Str)
      requires Ok() && 1 <= v < line
      decreases v, 0
    {
      assert NodeOk(v);
      if left[v] == 0 then |w| == 1 && Takes(v, w[0])
      else if name[v] == STAR then exists n: nat :: Times(left[v], w, n)
      else if name[v] == PLUS then exists n: nat :: n > 0 && Times(left[v], w, n)
      else if name[v] == QUEST then w == [] || InLang(left[v], w)
      else if name[v] == CAT then exists k :: 0 <= k <= |w| && InLang(left[v], w[..k]) && InLang(right[v], w[k..])
      else InLang(left[v], w) || InLang(right[v], w)
    }

    /** w is n words of node v's language one after the other. */
    ghost predicate Times(v: int, w: Str, n: nat)
      requires Ok() && 1 <= v < line
      decreases v, n + 1
    {
      if n == 0 then w == []
      else exists k :: 0 <= k <= |w| && InLang(v, w[..k]) && Times(v, w[k..], n - 1)
    }

    // ----- Positions: which leaves a word may begin with, and which may come next -----

    ghost predicate Nullable(v: int)
      requires Ok() && 1 <= v < line
      decreases v
    {
      assert NodeOk(v);
      if left[v] == 0 then false
      else if right[v] == 0 then name[v] != PLUS || Nullable(left[v])
      else if name[v] == CAT then Nullable(left[v]) && Nullable(right[v])
      else Nullable(left[v]) || Nullable(right[v])
    }

    ghost function First(v: int): set<int>
      requires Ok() && 1 <= v < line
      decreases v
    {
      assert NodeOk(v);
      if left[v] == 0 then {v}
      else if right[v] == 0 then First(left[v])
      else if name[v] == CAT then First(left[v]) + (if Nullable(left[v]) then First(right[v]) else {})
      else First(left[v]) + First(right[v])
    }

    ghost function Follow(v: int): set<int>
      requires Ok() && 1 <= v <= line
      decreases line - v
    {
      if v == line then {}
      else
        assert HasParent(v) && NodeOk(parent[v]);
        var p := parent[v];
        if name[p] == STAR || name[p] == PLUS then First(v) + Follow(p)
        else if name[p] == OR || name[p] == QUEST then Follow(p)
        else if name[p] == CAT then
          if v == left[p] then First(right[p]) + (if Nullable(right[p]) then Follow(p) else {}) else Follow(p)
        else {line}
    }

    /** What is left to read can be read from position q on, to the end of the expression and of w. */
    ghost predicate Accepts(q: int, w: Str)
      requires Ok()
      decreases |w|, 0
    {
      if q == line then w == []
      else
        && 1 <= q < line && left[q] == 0 && w != []
        && (assert NodeOk(q); Takes(q, w[0]))
        && AcceptsFrom(Follow(q), w[1..])
    }

    ghost predicate AcceptsFrom(s: set<int>, w: Str)
      requires Ok()
      decreases |w|, 1
    {
      exists q :: q in s && Accepts(q, w)
    }
  }
}
