/** What the state table, the follow table and the positions array hold between two calls. */
module EgrepTables {
  import opened EgrepTree
  import opened EgrepPositions
  import opened EgrepMarks
  import opened FiniteSets

  const MAXPOS := 20000
  const NCHARS := 256
  const NSTATES := 128

  type Sets = seq<set<int>>

  /** The block at p holds the positions s and ends below top. */
  ghost predicate Block(t: Tree, pos: seq<int>, top: int, p: int, s: set<int>)
    requires t.Ok()
  {
    Up(pos, p, s) && p + 1 + |s| <= top && ArePositions(t, s)
  }

  ghost predicate BlocksOk(t: Tree, pos: seq<int>, top: int, state: seq<int>, sets: Sets, n: int)
    requires t.Ok()
  {
    |state| == |sets| == NSTATES && n < NSTATES && forall i :: 1 <= i <= n ==> Block(t, pos, top, state[i], sets[i])
  }

  /** The follow block of q, if it was computed, lies above bottom. */
  ghost predicate FollAt(t: Tree, pos: seq<int>, bottom: int, f: int, q: int)
    requires t.Ok() && 3 <= q <= t.line - 2
  {
    f == 0 || (bottom < f - |t.Follow(q)| && Down(pos, f, t.Follow(q)))
  }

  ghost predicate FollsOk(t: Tree, pos: seq<int>, bottom: int, foll: seq<int>)
    requires t.Ok()
  {
    |foll| == t.line + 1 && forall q :: 3 <= q <= t.line - 2 ==> FollAt(t, pos, bottom, foll[q], q)
  }

  /** A cached transition is absent or leads to the set that the uncached one computes. */
  ghost predicate Arc(t: Tree, sets: Sets, n: int, i: int, c: int, g: int)
    requires t.Ok() && n < |sets| && 1 <= i < |sets|
  {
    g == 0 || (1 <= g <= n && sets[g] == Step(t, sets[i], c))
  }

  ghost predicate RowOk(t: Tree, row: seq<int>, out: int, sets: Sets, n: int, i: int)
    requires t.Ok() && n < |sets| && 1 <= i < |sets|
  {
    && |row| == NCHARS
    && out == (if t.line in sets[i] then 1 else 0)
    && forall c :: 0 <= c < NCHARS ==> Arc(t, sets, n, i, c, row[c])
  }

  ghost predicate ArcsOk(t: Tree, gotofn: seq<seq<int>>, out: seq<int>, sets: Sets, n: int)
    requires t.Ok()
  {
    |gotofn| == |out| == |sets| == NSTATES && n < NSTATES
    && forall i :: 1 <= i <= n ==> RowOk(t, gotofn[i], out[i], sets, n, i)
  }

  // ----- Adding a state -----

  lemma BlocksFrame(t: Tree, a: seq<int>, b: seq<int>, top: int, top': int, state: seq<int>, sets: Sets, n: int)
    requires t.Ok() && BlocksOk(t, a, top, state, sets, n) && Same(a, b, 0, top) && top <= top'
    ensures BlocksOk(t, b, top', state, sets, n)
  {
    forall i | 1 <= i <= n ensures Block(t, b, top', state[i], sets[i]) {
      assert Block(t, a, top, state[i], sets[i]);
      UpFrame(a, b, state[i], sets[i]);
    }
  }

  lemma BlocksPut(t: Tree, pos: seq<int>, top: int, state: seq<int>, sets: Sets, n: int, p: int, s: set<int>)
    requires t.Ok() && BlocksOk(t, pos, top, state, sets, n) && 0 <= n && n + 1 < NSTATES && Block(t, pos, top, p, s)
    ensures BlocksOk(t, pos, top, state[n + 1 := p], sets[n + 1 := s], n + 1)
  {
    var st, se := state[n + 1 := p], sets[n + 1 := s];
    forall i | 1 <= i <= n + 1 ensures Block(t, pos, top, st[i], se[i]) {
      assert i <= n ==> Block(t, pos, top, state[i], sets[i]);
    }
  }

  function NoRow(): seq<int> {
    seq(NCHARS, i => 0)
  }

  lemma ArcsPut(t: Tree, gotofn: seq<seq<int>>, out: seq<int>, sets: Sets, n: int, o: int, s: set<int>)
    requires t.Ok() && ArcsOk(t, gotofn, out, sets, n) && 0 <= n && n + 1 < NSTATES
    requires o == if t.line in s then 1 else 0
    ensures ArcsOk(t, gotofn[n + 1 := NoRow()], out[n + 1 := o], sets[n + 1 := s], n + 1)
  {
    var go, ou, se := gotofn[n + 1 := NoRow()], out[n + 1 := o], sets[n + 1 := s];
    forall i | 1 <= i <= n + 1 ensures RowOk(t, go[i], ou[i], se, n + 1, i) {
      if i <= n {
        assert RowOk(t, gotofn[i], out[i], sets, n, i);
        forall c | 0 <= c < NCHARS ensures Arc(t, se, n + 1, i, c, go[i][c]) {
          assert Arc(t, sets, n, i, c, gotofn[i][c]);
        }
      }
    }
  }

  lemma ArcPut(t: Tree, gotofn: seq<seq<int>>, out: seq<int>, sets: Sets, n: int, i: int, c: int, g: int)
    requires t.Ok() && ArcsOk(t, gotofn, out, sets, n) && 1 <= i <= n && 0 <= c < NCHARS && 1 <= g <= n
    requires |gotofn[i]| == NCHARS && sets[g] == Step(t, sets[i], c)
    ensures ArcsOk(t, gotofn[i := gotofn[i][c := g]], out, sets, n)
  {
    var row := gotofn[i][c := g];
    var go := gotofn[i := row];
    forall k | 1 <= k <= n ensures RowOk(t, go[k], out[k], sets, n, k) {
      assert RowOk(t, gotofn[k], out[k], sets, n, k);
      if k == i {
        forall d | 0 <= d < NCHARS ensures Arc(t, sets, n, i, d, row[d]) {
          assert Arc(t, sets, n, i, d, gotofn[i][d]);
        }
      }
    }
  }

  // ----- Adding a follow block -----

  lemma FollsFrame(t: Tree, a: seq<int>, b: seq<int>, bottom: int, foll: seq<int>)
    requires t.Ok() && FollsOk(t, a, bottom, foll) && Same(a, b, bottom + 1, |a|)
    ensures FollsOk(t, b, bottom, foll)
  {
    forall q | 3 <= q <= t.line - 2 ensures FollAt(t, b, bottom, foll[q], q) {
      assert FollAt(t, a, bottom, foll[q], q);
      if foll[q] != 0 {
        DownFrame(a, b, foll[q], t.Follow(q));
      }
    }
  }

  lemma FollPut(t: Tree, pos: seq<int>, bottom: int, bottom': int, foll: seq<int>, q: int, f: int)
    requires t.Ok() && FollsOk(t, pos, bottom, foll) && 3 <= q <= t.line - 2 && bottom' <= bottom
    requires FollAt(t, pos, bottom', f, q)
    ensures FollsOk(t, pos, bottom', foll[q := f])
  {
    var fo := foll[q := f];
    forall x | 3 <= x <= t.line - 2 ensures FollAt(t, pos, bottom', fo[x], x) {
      assert FollAt(t, pos, bottom, foll[x], x);
    }
  }

  // ----- How much of the positions array is in use -----

  /** The positions whose follow block was computed. */
  ghost function Computed(foll: seq<int>): set<int> {
    set q | 3 <= q < |foll| && foll[q] != 0
  }

  lemma BlockFits(t: Tree, s: set<int>)
    requires t.Ok() && ArePositions(t, s)
    ensures |s| + 1 < t.line
  {
    RangeSize(s, t.line);
  }

  lemma Product(a: int, b: int, c: int)
    requires 0 <= a && b <= c
    ensures a * b <= a * c
  {
  }

  lemma FollAdded(t: Tree, a: seq<int>, b: seq<int>, first: int, top: int, bottom: int, bottom': int,
                  state: seq<int>, sets: Sets, n: int, foll: seq<int>, q: int)
    requires t.Ok() && |a| == MAXPOS && first <= top <= bottom' <= bottom && 3 <= q <= t.line - 2
    requires bottom' == bottom - 1 - |t.Follow(q)|
    requires BlocksOk(t, a, top, state, sets, n) && Block(t, a, first, 0, Begin(t)) && FollsOk(t, a, bottom, foll)
    requires Same(a, b, 0, bottom' + 1) && Same(a, b, bottom + 1, MAXPOS) && Down(b, bottom, t.Follow(q))
    ensures BlocksOk(t, b, top, state, sets, n) && Block(t, b, first, 0, Begin(t))
    ensures FollsOk(t, b, bottom', foll[q := bottom])
  {
    BlocksFrame(t, a, b, top, top, state, sets, n);
    UpFrame(a, b, 0, Begin(t));
    FollsFrame(t, a, b, bottom, foll);
    FollPut(t, b, bottom, bottom', foll, q, bottom);
  }

  lemma GatherStart(t: Tree, block: seq<int>, c: int)
    requires t.Ok()
    ensures Step(t, Elems(block[..0]), c) == Begin(t)
  {
    assert block[..0] == [];
    NoMember(Elems(block[..0]));
    StepNone(t, c);
  }

  lemma GatherNext(t: Tree, block: seq<int>, i: int)
    requires t.Ok() && 0 <= i < |block| && ArePositions(t, Elems(block))
    ensures Elems(block[..i + 1]) == Elems(block[..i]) + {block[i]}
    ensures block[i] in Elems(block) && IsPosition(t, block[i])
  {
    assert block[i] in Elems(block);
    ElemsTake(block, i);
  }

  lemma StateAdded(t: Tree, a: seq<int>, b: seq<int>, first: int, top: int, top': int, bottom: int, foll: seq<int>,
                   state: seq<int>, gotofn: seq<seq<int>>, out: seq<int>, sets: Sets, n: int, s: set<int>)
    requires t.Ok() && |a| == MAXPOS && first <= top <= top' <= bottom && 0 <= n && n + 1 < NSTATES
    requires BlocksOk(t, a, top, state, sets, n) && Block(t, a, first, 0, Begin(t)) && FollsOk(t, a, bottom, foll)
    requires ArcsOk(t, gotofn, out, sets, n)
    requires Same(a, b, 0, top) && Same(a, b, top', MAXPOS) && Block(t, b, top', top, s)
    ensures BlocksOk(t, b, top', state[n + 1 := top], sets[n + 1 := s], n + 1)
    ensures Block(t, b, first, 0, Begin(t)) && FollsOk(t, b, bottom, foll)
    ensures ArcsOk(t, gotofn[n + 1 := NoRow()], out[n + 1 := if t.line in s then 1 else 0], sets[n + 1 := s], n + 1)
  {
    BlocksFrame(t, a, b, top, top', state, sets, n);
    BlocksPut(t, b, top', state, sets, n, top, s);
    UpFrame(a, b, 0, Begin(t));
    FollsFrame(t, a, b, bottom, foll);
    ArcsPut(t, gotofn, out, sets, n, if t.line in s then 1 else 0, s);
  }

  lemma NoStates(t: Tree, pos: seq<int>, top: int, state: seq<int>, gotofn: seq<seq<int>>, out: seq<int>, sets: Sets)
    requires t.Ok() && |state| == |gotofn| == |out| == |sets| == NSTATES
    ensures BlocksOk(t, pos, top, state, sets, 0) && ArcsOk(t, gotofn, out, sets, 0)
  {
  }

  /** The marks of a beginning: the DOT in front and, if nothing need be matched, the end. */
  lemma BeginMarked(t: Tree, marks: seq<int>, cnt: int)
    requires t.Ok() && |marks| == t.line + 1 && Ones(marks) == {1} + t.First(t.line - 2) && cnt == |Ones(marks)|
    ensures t.Nullable(t.line - 2) ==>
      Ones(marks[t.line := 1]) == {1} + Begin(t) && cnt + 1 == 1 + |Begin(t)| && t.line in Begin(t)
    ensures !t.Nullable(t.line - 2) ==> Ones(marks) == {1} + Begin(t) && cnt == 1 + |Begin(t)| && t.line !in Begin(t)
  {
    BeginCount(t);
    OnesMark(marks, t.line);
    assert marks[t.line] == 1 ==> t.line in Ones(marks);
  }

  lemma NoFolls(t: Tree, pos: seq<int>, bottom: int, foll: seq<int>)
    requires t.Ok() && |foll| == t.line + 1 && forall q :: 0 <= q < |foll| ==> foll[q] == 0
    ensures FollsOk(t, pos, bottom, foll)
  {
  }

  /** The tables after the block of the beginning was written. */
  lemma FirstTables(t: Tree, pos: seq<int>, top: int, state: seq<int>, gotofn: seq<seq<int>>, out: seq<int>,
                    sets: Sets, foll: seq<int>)
    requires t.Ok() && |state| == |gotofn| == |out| == |sets| == NSTATES && Block(t, pos, top, 0, Begin(t))
    requires |foll| == t.line + 1 && forall q :: 0 <= q < |foll| ==> foll[q] == 0
    ensures FollsOk(t, pos, MAXPOS - 1, foll)
    ensures BlocksOk(t, pos, top, state[1 := 0], sets[1 := Begin(t)], 1)
    ensures ArcsOk(t, gotofn[1 := NoRow()], out[1 := if t.line in Begin(t) then 1 else 0], sets[1 := Begin(t)], 1)
  {
    hide Block, ArePositions, Begin;
    NoFolls(t, pos, MAXPOS - 1, foll);
    NoStates(t, pos, top, state, gotofn, out, sets);
    BlocksPut(t, pos, top, state, sets, 0, 0, Begin(t));
    ArcsPut(t, gotofn, out, sets, 0, if t.line in Begin(t) then 1 else 0, Begin(t));
  }
}
