/** Sets of positions as the matcher keeps them: arrays of 0/1 marks, and counted blocks. */
module EgrepMarks {
  import opened FiniteSets

  /** The marked positions of a 0/1 array. */
  ghost function Ones(marks: seq<int>): set<int> {
    set i | 1 <= i < |marks| && marks[i] == 1
  }

  ghost function Elems(s: seq<int>): set<int> {
    set x | x in s
  }

  /** The members of s below i. */
  ghost function Below(s: set<int>, i: int): set<int> {
    set x | x in s && x < i
  }

  lemma BelowNext(s: set<int>, i: int)
    ensures Below(s, i + 1) == Below(s, i) + (if i in s then {i} else {})
    ensures |Below(s, i + 1)| == |Below(s, i)| + (if i in s then 1 else 0)
  {
    assert Below(s, i + 1) == Below(s, i) + (if i in s then {i} else {});
  }

  lemma BelowSize(s: set<int>, i: int)
    ensures |Below(s, i)| <= |s|
    ensures i in s ==> |Below(s, i)| < |s|
  {
    SubsetSize(Below(s, i), s);
    if i in s {
      SubsetSize(Below(s, i), s - {i});
    }
  }

  lemma OnesMark(marks: seq<int>, i: int)
    requires 1 <= i < |marks|
    ensures Ones(marks[i := 1]) == Ones(marks) + {i}
    ensures |Ones(marks[i := 1])| == |Ones(marks)| + (if marks[i] == 1 then 0 else 1)
  {
    assert Ones(marks[i := 1]) == Ones(marks) + {i};
    if marks[i] == 1 {
      assert Ones(marks) + {i} == Ones(marks);
    }
  }

  lemma ElemsSnoc(s: seq<int>, x: int)
    ensures Elems(s + [x]) == Elems(s) + {x}
  {
  }

  lemma ElemsCons(x: int, s: seq<int>)
    ensures Elems([x] + s) == Elems(s) + {x}
  {
  }

  /** A block that starts at p and grows upwards: the size and then the members. */
  ghost predicate Up(pos: seq<int>, p: int, s: set<int>) {
    0 <= p && p + |s| < |pos| && pos[p] == |s| && Elems(pos[p + 1..p + 1 + |s|]) == s
  }

  /** A block that starts at f and grows downwards. */
  ghost predicate Down(pos: seq<int>, f: int, s: set<int>) {
    |s| <= f < |pos| && pos[f] == |s| && Elems(pos[f - |s|..f]) == s
  }

  ghost predicate Same(a: seq<int>, b: seq<int>, lo: int, hi: int) {
    |a| == |b| && forall k :: lo <= k < hi && 0 <= k < |a| ==> a[k] == b[k]
  }

  lemma SameLess(a: seq<int>, b: seq<int>, hi: int, less: int)
    requires Same(a, b, 0, hi) && less <= hi
    ensures Same(a, b, 0, less)
  {
  }

  lemma UpFrame(a: seq<int>, b: seq<int>, p: int, s: set<int>)
    requires Up(a, p, s) && Same(a, b, p, p + 1 + |s|)
    ensures Up(b, p, s)
  {
    assert a[p + 1..p + 1 + |s|] == b[p + 1..p + 1 + |s|];
  }

  lemma DownFrame(a: seq<int>, b: seq<int>, f: int, s: set<int>)
    requires Down(a, f, s) && Same(a, b, f - |s|, f + 1)
    ensures Down(b, f, s)
  {
    assert a[f - |s|..f] == b[f - |s|..f];
  }

  /** A block for size members that holds those of s so far; the rest of the array is as it was. */
  ghost predicate PartUp(was: seq<int>, pos: seq<int>, p: int, size: int, s: set<int>) {
    && |s| <= size && 0 <= p && p + size < |pos| && pos[p] == size && Elems(pos[p + 1..p + 1 + |s|]) == s
    && Same(was, pos, 0, p) && Same(was, pos, p + 1 + |s|, |was|)
  }

  lemma PutUp(was: seq<int>, pos: seq<int>, p: int, size: int, s: set<int>, x: int)
    requires PartUp(was, pos, p, size, s) && x !in s && |s| < size
    ensures PartUp(was, pos[p + 1 + |s| := x], p, size, s + {x})
  {
    var at := p + 1 + |s|;
    assert |s + {x}| == |s| + 1;
    assert pos[at := x][p + 1..at + 1] == pos[p + 1..at] + [x];
    ElemsSnoc(pos[p + 1..at], x);
  }

  ghost predicate PartDown(was: seq<int>, pos: seq<int>, f: int, size: int, s: set<int>) {
    && |s| <= size <= f < |pos| && pos[f] == size && Elems(pos[f - |s|..f]) == s
    && Same(was, pos, 0, f - |s|) && Same(was, pos, f + 1, |was|)
  }

  lemma PutDown(was: seq<int>, pos: seq<int>, f: int, size: int, s: set<int>, x: int)
    requires PartDown(was, pos, f, size, s) && x !in s && |s| < size
    ensures PartDown(was, pos[f - 1 - |s| := x], f, size, s + {x})
  {
    var at := f - 1 - |s|;
    assert |s + {x}| == |s| + 1;
    assert pos[at := x][at..f] == [x] + pos[at + 1..f];
    ElemsCons(x, pos[at + 1..f]);
  }

  lemma ElemsTake(s: seq<int>, i: int)
    requires 0 <= i < |s|
    ensures Elems(s[..i + 1]) == Elems(s[..i]) + {s[i]}
  {
    assert s[..i + 1] == s[..i] + [s[i]];
    ElemsSnoc(s[..i], s[i]);
  }

  /** Marking one more member of a block, from the back. */
  lemma OnesMore(marks: seq<int>, before: set<int>, block: seq<int>, i: int)
    requires 0 <= i < |block| && 1 <= block[i] < |marks| && Ones(marks) == before + Elems(block[i + 1..])
    ensures Ones(marks[block[i] := 1]) == before + Elems(block[i..])
    ensures |Ones(marks[block[i] := 1])| == |Ones(marks)| + (if marks[block[i]] == 1 then 0 else 1)
  {
    assert block[i..] == [block[i]] + block[i + 1..];
    ElemsCons(block[i], block[i + 1..]);
    OnesMark(marks, block[i]);
  }
}
