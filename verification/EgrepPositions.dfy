/** The position automaton reads exactly the language of the tree it was built from. */
module EgrepPositions {
  import opened EgrepTree

  /** Some nonempty word of node v's language comes first, and the rest can be read after v. */
  ghost predicate Via(t: Tree, v: int, w: Str)
    requires t.Ok() && 1 <= v < t.line
  {
    exists k :: 0 < k <= |w| && Cut(t, v, w, k)
  }

  ghost predicate Cut(t: Tree, v: int, w: Str, k: int)
    requires t.Ok() && 1 <= v < t.line && 0 <= k <= |w|
  {
    t.InLang(v, w[..k]) && t.AcceptsFrom(t.Follow(v), w[k..])
  }

  /** Either of two sets of positions will do to read from their union. */
  lemma FromUnion(t: Tree, a: set<int>, b: set<int>, w: Str)
    requires t.Ok()
    ensures t.AcceptsFrom(a + b, w) <==> t.AcceptsFrom(a, w) || t.AcceptsFrom(b, w)
  {
    if t.AcceptsFrom(a + b, w) {
      var q :| q in a + b && t.Accepts(q, w);
      assert q in a || q in b;
    }
    if t.AcceptsFrom(a, w) {
      var q :| q in a && t.Accepts(q, w);
      assert q in a + b;
    }
    if t.AcceptsFrom(b, w) {
      var q :| q in b && t.Accepts(q, w);
      assert q in a + b;
    }
  }

  lemma FromNone(t: Tree, w: Str)
    requires t.Ok()
    ensures !t.AcceptsFrom({}, w)
  {
  }

  // ----- Nullable -----

  lemma {:induction false} NullableMeans(t: Tree, v: int)
    requires t.Ok() && 1 <= v < t.line
    ensures t.Nullable(v) <==> t.InLang(v, [])
    decreases v
  {
    assert t.NodeOk(v);
    var l, r, e: Str := t.left[v], t.right[v], [];
    if l != 0 {
      NullableMeans(t, l);
      if r != 0 {
        NullableMeans(t, r);
        assert e[..0] == e && e[0..] == e;
      } else if t.name[v] == STAR {
        assert t.Times(l, [], 0);
      } else if t.name[v] == PLUS {
        NullableTimes(t, l);
      }
    }
  }

  lemma NullableTimes(t: Tree, v: int)
    requires t.Ok() && 1 <= v < t.line
    ensures t.InLang(v, []) <==> exists n: nat :: n > 0 && t.Times(v, [], n)
  {
    var e: Str := [];
    assert e[..0] == e && e[0..] == e;
    if t.InLang(v, []) {
      assert t.Times(v, [], 0);
      assert t.Times(v, [], 1);
    }
    if n: nat :| n > 0 && t.Times(v, [], n) {
      var k :| 0 <= k <= |e| && t.InLang(v, e[..k]) && t.Times(v, e[k..], n - 1);
      assert e[..k] == e;
    }
  }

  // ----- Repetition -----

  /** One more word in front. */
  lemma TimesMore(t: Tree, v: int, a: Str, b: Str, n: nat)
    requires t.Ok() && 1 <= v < t.line && t.InLang(v, a) && t.Times(v, b, n)
    ensures t.Times(v, a + b, n + 1)
  {
    var w := a + b;
    assert w[..|a|] == a && w[|a|..] == b;
  }

  /** A nonempty repetition starts with a nonempty word. */
  lemma {:induction false} TimesFirst(t: Tree, v: int, w: Str, n: nat) returns (i: int, m: nat)
    requires t.Ok() && 1 <= v < t.line && t.Times(v, w, n) && w != []
    ensures 0 < i <= |w| && t.InLang(v, w[..i]) && t.Times(v, w[i..], m)
    decreases n
  {
    var k :| 0 <= k <= |w| && t.InLang(v, w[..k]) && t.Times(v, w[k..], n - 1);
    if k == 0 {
      assert w[0..] == w;
      i, m := TimesFirst(t, v, w, n - 1);
    } else {
      i, m := k, n - 1;
    }
  }

  ghost predicate Repeats(t: Tree, v: int)
    requires t.Ok() && 1 <= v < t.line
  {
    t.left[v] != 0 && t.right[v] == 0 && (t.name[v] == STAR || t.name[v] == PLUS)
  }

  lemma OnceMore(t: Tree, v: int, a: Str, b: Str)
    requires t.Ok() && 1 <= v < t.line && Repeats(t, v) && t.NodeOk(v)
    requires t.InLang(t.left[v], a) && (b == [] || t.InLang(v, b))
    ensures t.InLang(v, a + b)
  {
    var l := t.left[v];
    var n: nat;
    if b == [] {
      n := 0;
      assert t.Times(l, b, 0);
    } else {
      n :| t.Times(l, b, n);
    }
    TimesMore(t, l, a, b, n);
  }

  lemma OnceLess(t: Tree, v: int, w: Str) returns (i: int)
    requires t.Ok() && 1 <= v < t.line && Repeats(t, v) && t.NodeOk(v) && t.InLang(v, w) && w != []
    ensures 0 < i <= |w| && t.InLang(t.left[v], w[..i]) && (w[i..] == [] || t.InLang(v, w[i..]))
  {
    var n: nat :| t.Times(t.left[v], w, n);
    var m: nat;
    i, m := TimesFirst(t, t.left[v], w, n);
    if w[i..] != [] {
      assert m > 0;
    }
  }

  // ----- First and Follow read the language -----

  lemma LeafVia(t: Tree, v: int, w: Str)
    requires t.Ok() && 1 <= v < t.line && t.left[v] == 0
    ensures t.AcceptsFrom(t.First(v), w) <==> Via(t, v, w)
  {
    assert t.NodeOk(v);
    if t.AcceptsFrom(t.First(v), w) {
      assert t.Accepts(v, w);
      assert w[..1] == [w[0]];
      assert Cut(t, v, w, 1);
    }
    if Via(t, v, w) {
      var k :| 0 < k <= |w| && Cut(t, v, w, k);
      assert |w[..k]| == k == 1;
      assert t.Accepts(v, w);
    }
  }

  /** Reading on after v, with v perhaps skipped. */
  ghost predicate Reads(t: Tree, v: int, w: Str)
    requires t.Ok() && 1 <= v < t.line
  {
    exists k :: 0 <= k <= |w| && Cut(t, v, w, k)
  }

  lemma ReadsMeans(t: Tree, v: int, w: Str)
    requires t.Ok() && 1 <= v < t.line && (t.AcceptsFrom(t.First(v), w) <==> Via(t, v, w))
    ensures t.AcceptsFrom(t.First(v) + (if t.Nullable(v) then t.Follow(v) else {}), w) <==> Reads(t, v, w)
  {
    NullableMeans(t, v);
    FromUnion(t, t.First(v), if t.Nullable(v) then t.Follow(v) else {}, w);
    FromNone(t, w);
    assert w[..0] == [] && w[0..] == w;
    assert t.Nullable(v) && t.AcceptsFrom(t.Follow(v), w) <==> Cut(t, v, w, 0);
    if Reads(t, v, w) {
      var k :| 0 <= k <= |w| && Cut(t, v, w, k);
      assert k > 0 ==> Via(t, v, w);
    }
    if Via(t, v, w) {
      var k :| 0 < k <= |w| && Cut(t, v, w, k);
      assert Reads(t, v, w);
    }
  }

  lemma {:induction false} FirstMeans(t: Tree, v: int, w: Str)
    requires t.Ok() && 1 <= v < t.line
    ensures t.AcceptsFrom(t.First(v), w) <==> Via(t, v, w)
    decreases |w|, v, 2
  {
    assert t.NodeOk(v);
    if t.left[v] == 0 {
      LeafVia(t, v, w);
    } else if t.right[v] == 0 {
      if t.name[v] == QUEST {
        QuestVia(t, v, w);
      } else {
        RepeatFrom(t, v, w);
        RepeatTo(t, v, w);
      }
    } else if t.name[v] == CAT {
      CatFrom(t, v, w);
      CatTo(t, v, w);
    } else {
      OrVia(t, v, w);
    }
  }

  lemma SameCut(t: Tree, u: int, v: int, w: Str)
    requires t.Ok() && 1 <= u < t.line && 1 <= v < t.line && t.Follow(u) == t.Follow(v)
    requires forall k :: 0 < k <= |w| && t.InLang(u, w[..k]) ==> t.InLang(v, w[..k])
    ensures Via(t, u, w) ==> Via(t, v, w)
  {
    if Via(t, u, w) {
      var k :| 0 < k <= |w| && Cut(t, u, w, k);
      assert Cut(t, v, w, k);
    }
  }

  lemma QuestVia(t: Tree, v: int, w: Str)
    requires t.Ok() && 1 <= v < t.line && t.NodeOk(v) && t.left[v] != 0 && t.right[v] == 0 && t.name[v] == QUEST
    ensures t.AcceptsFrom(t.First(v), w) <==> Via(t, v, w)
    decreases |w|, v, 0
  {
    var l := t.left[v];
    FirstMeans(t, l, w);
    SameCut(t, l, v, w);
    SameCut(t, v, l, w);
  }

  lemma OrVia(t: Tree, v: int, w: Str)
    requires t.Ok() && 1 <= v < t.line && t.NodeOk(v) && t.left[v] != 0 && t.right[v] != 0 && t.name[v] == OR
    ensures t.AcceptsFrom(t.First(v), w) <==> Via(t, v, w)
    decreases |w|, v, 0
  {
    var l, r := t.left[v], t.right[v];
    FirstMeans(t, l, w);
    FirstMeans(t, r, w);
    FromUnion(t, t.First(l), t.First(r), w);
    SameCut(t, l, v, w);
    SameCut(t, r, v, w);
    if Via(t, v, w) {
      var k :| 0 < k <= |w| && Cut(t, v, w, k);
      assert Cut(t, l, w, k) || Cut(t, r, w, k);
    }
  }

  ghost predicate Joins(t: Tree, v: int)
    requires t.Ok() && 1 <= v < t.line
  {
    t.NodeOk(v) && t.left[v] != 0 && t.right[v] != 0 && t.name[v] == CAT
  }

  /** What follows the left half of a concatenation. */
  lemma AfterLeft(t: Tree, v: int, z: Str)
    requires t.Ok() && 1 <= v < t.line && Joins(t, v)
    ensures t.AcceptsFrom(t.Follow(t.left[v]), z) <==> Reads(t, t.right[v], z)
    decreases |z|, t.right[v], 3
  {
    FirstMeans(t, t.right[v], z);
    ReadsMeans(t, t.right[v], z);
  }

  lemma CatFrom(t: Tree, v: int, w: Str)
    requires t.Ok() && 1 <= v < t.line && Joins(t, v)
    ensures t.AcceptsFrom(t.First(v), w) ==> Via(t, v, w)
    decreases |w|, v, 0
  {
    var l, r := t.left[v], t.right[v];
    NullableMeans(t, l);
    FromUnion(t, t.First(l), if t.Nullable(l) then t.First(r) else {}, w);
    FromNone(t, w);
    if t.AcceptsFrom(t.First(l), w) {
      FirstMeans(t, l, w);
      var i :| 0 < i <= |w| && Cut(t, l, w, i);
      AfterLeft(t, v, w[i..]);
      var j :| 0 <= j <= |w[i..]| && Cut(t, r, w[i..], j);
      JoinCut(t, v, w, i, j);
    } else if t.AcceptsFrom(t.First(v), w) {
      FirstMeans(t, r, w);
      var j :| 0 < j <= |w| && Cut(t, r, w, j);
      assert w[0..] == w && w[..0] == [];
      JoinCut(t, v, w, 0, j);
    }
  }

  lemma JoinCut(t: Tree, v: int, w: Str, i: int, j: int)
    requires t.Ok() && 1 <= v < t.line && Joins(t, v) && 0 <= i <= |w| && 0 <= j <= |w| - i && i + j > 0
    requires t.InLang(t.left[v], w[..i]) && Cut(t, t.right[v], w[i..], j)
    ensures Via(t, v, w)
  {
    assert w[..i + j][..i] == w[..i] && w[..i + j][i..] == w[i..][..j] && w[i..][j..] == w[i + j..];
    assert Cut(t, v, w, i + j);
  }

  lemma SplitCut(t: Tree, v: int, w: Str) returns (i: int, j: int)
    requires t.Ok() && 1 <= v < t.line && Joins(t, v) && Via(t, v, w)
    ensures 0 <= i <= |w| && 0 <= j <= |w| - i && i + j > 0
    ensures t.InLang(t.left[v], w[..i]) && Cut(t, t.right[v], w[i..], j)
  {
    var k :| 0 < k <= |w| && Cut(t, v, w, k);
    var x := w[..k];
    i :| 0 <= i <= |x| && t.InLang(t.left[v], x[..i]) && t.InLang(t.right[v], x[i..]);
    j := k - i;
    assert x[..i] == w[..i] && x[i..] == w[i..][..j] && w[i..][j..] == w[k..];
  }

  lemma CatTo(t: Tree, v: int, w: Str)
    requires t.Ok() && 1 <= v < t.line && Joins(t, v)
    ensures Via(t, v, w) ==> t.AcceptsFrom(t.First(v), w)
    decreases |w|, v, 0
  {
    if Via(t, v, w) {
      var l, r := t.left[v], t.right[v];
      var i, j := SplitCut(t, v, w);
      FromUnion(t, t.First(l), if t.Nullable(l) then t.First(r) else {}, w);
      if i == 0 {
        NullableMeans(t, l);
        assert w[0..] == w && w[..0] == [];
        FirstMeans(t, r, w);
      } else {
        AfterLeft(t, v, w[i..]);
        assert Cut(t, l, w, i);
        FirstMeans(t, l, w);
      }
    }
  }

  lemma RepeatFrom(t: Tree, v: int, w: Str)
    requires t.Ok() && 1 <= v < t.line && t.NodeOk(v) && Repeats(t, v)
    ensures t.AcceptsFrom(t.First(v), w) ==> Via(t, v, w)
    decreases |w|, v, 0
  {
    if t.AcceptsFrom(t.First(v), w) {
      var l := t.left[v];
      FirstMeans(t, l, w);
      var i :| 0 < i <= |w| && Cut(t, l, w, i);
      var z := w[i..];
      FromUnion(t, t.First(l), t.Follow(v), z);
      var j := 0;
      if t.AcceptsFrom(t.First(v), z) {
        FirstMeans(t, v, z);
        j :| 0 < j <= |z| && Cut(t, v, z, j);
      } else {
        assert z[0..] == z && z[..0] == [];
      }
      OnceMore(t, v, w[..i], z[..j]);
      assert w[..i + j] == w[..i] + z[..j] && w[i + j..] == z[j..];
      assert Cut(t, v, w, i + j);
    }
  }

  lemma RepeatTo(t: Tree, v: int, w: Str)
    requires t.Ok() && 1 <= v < t.line && t.NodeOk(v) && Repeats(t, v)
    ensures Via(t, v, w) ==> t.AcceptsFrom(t.First(v), w)
    decreases |w|, v, 0
  {
    if Via(t, v, w) {
      var l := t.left[v];
      var k :| 0 < k <= |w| && Cut(t, v, w, k);
      var i := OnceLess(t, v, w[..k]);
      var z := w[i..];
      assert w[..k][..i] == w[..i] && w[..k][i..] == z[..k - i] && z[k - i..] == w[k..];
      FromUnion(t, t.First(l), t.Follow(v), z);
      if i < k {
        assert Cut(t, v, z, k - i);
        FirstMeans(t, v, z);
      } else {
        assert z == w[k..];
      }
      assert Cut(t, l, w, i);
      FirstMeans(t, l, w);
    }
  }

  // ----- The whole expression -----

  ghost function Begin(t: Tree): set<int>
    requires t.Ok()
  {
    t.First(t.line - 2) + (if t.Nullable(t.line - 2) then {t.line} else {})
  }

  lemma FollowLast(t: Tree)
    requires t.Ok()
    ensures t.Follow(t.line - 2) == {t.line}
  {
    assert t.NodeOk(t.line - 1) && t.NodeOk(t.line);
    assert t.Follow(t.line - 1) == {t.line};
  }

  /** From the beginning the automaton reads the words of the user's expression and no others. */
  lemma BeginMeans(t: Tree, w: Str)
    requires t.Ok()
    ensures t.AcceptsFrom(Begin(t), w) <==> t.InLang(t.line - 2, w)
  {
    var r := t.line - 2;
    FollowLast(t);
    FirstMeans(t, r, w);
    ReadsMeans(t, r, w);
    if t.InLang(r, w) {
      assert w[..|w|] == w && w[|w|..] == [];
      assert t.Accepts(t.line, []);
      assert Cut(t, r, w, |w|);
    }
    if Reads(t, r, w) {
      var k :| 0 <= k <= |w| && Cut(t, r, w, k);
      var q :| q in t.Follow(r) && t.Accepts(q, w[k..]);
      assert w[..k] == w;
    }
  }

  // ----- Every starting point at once -----

  /** Reading c can take the automaton from a position of s to position p. */
  ghost predicate Moves(t: Tree, s: set<int>, c: int, p: int)
    requires t.Ok()
  {
    exists q :: q in s && 1 <= q < t.line && t.left[q] == 0 && (assert t.NodeOk(q); t.Takes(q, c)) && p in t.Follow(q)
  }

  /** The uncached transition: the positions after c, and those of a fresh start. */
  ghost function Step(t: Tree, s: set<int>, c: int): set<int>
    requires t.Ok()
  {
    Begin(t) + set p | 1 <= p <= t.line && Moves(t, s, c, p)
  }

  /** The positions the automaton may be in after u, having started at any point of it. */
  ghost function Reach(t: Tree, u: Str): set<int>
    requires t.Ok()
  {
    if u == [] then Begin(t) else Step(t, Reach(t, u[..|u| - 1]), u[|u| - 1])
  }

  /** Reading one character and then z from s, or starting afresh with z. */
  lemma StepMeans(t: Tree, s: set<int>, c: int, z: Str)
    requires t.Ok()
    ensures t.AcceptsFrom(Step(t, s, c), z) <==> t.AcceptsFrom(Begin(t), z) || t.AcceptsFrom(s, [c] + z)
  {
    var w, moved := [c] + z, set p | 1 <= p <= t.line && Moves(t, s, c, p);
    assert w[1..] == z;
    FromUnion(t, Begin(t), moved, z);
    if t.AcceptsFrom(moved, z) {
      var p :| p in moved && t.Accepts(p, z);
      var q :| q in s && 1 <= q < t.line && t.left[q] == 0 && (assert t.NodeOk(q); t.Takes(q, c)) && p in t.Follow(q);
      assert t.AcceptsFrom(t.Follow(q), z);
      assert t.Accepts(q, w);
    }
    if t.AcceptsFrom(s, w) {
      var q :| q in s && t.Accepts(q, w);
      assert w != [] && t.AcceptsFrom(t.Follow(q), w[1..]);
      var p :| p in t.Follow(q) && t.Accepts(p, z);
      assert 1 <= p <= t.line;
      assert Moves(t, s, c, p);
      assert p in moved;
    }
  }

  /** u[i..] and then z can be read from the beginning. */
  ghost predicate StartAt(t: Tree, u: Str, z: Str, i: int)
    requires t.Ok() && 0 <= i <= |u|
  {
    t.AcceptsFrom(Begin(t), u[i..] + z)
  }

  lemma {:induction false} ReachMeans(t: Tree, u: Str, z: Str)
    requires t.Ok()
    ensures t.AcceptsFrom(Reach(t, u), z) <==> exists i :: 0 <= i <= |u| && StartAt(t, u, z, i)
    decreases |u|
  {
    if u == [] {
      assert u[0..] + z == z;
      assert StartAt(t, u, z, 0) <==> t.AcceptsFrom(Begin(t), z);
    } else {
      var n := |u| - 1;
      var v, c := u[..n], u[n];
      StepMeans(t, Reach(t, v), c, z);
      ReachMeans(t, v, [c] + z);
      assert u[|u|..] + z == z;
      assert StartAt(t, u, z, |u|) <==> t.AcceptsFrom(Begin(t), z);
      forall i | 0 <= i <= n ensures StartAt(t, u, z, i) <==> StartAt(t, v, [c] + z, i) {
        assert u[i..] + z == v[i..] + ([c] + z);
      }
    }
  }

  /** Some substring of u that ends where u ends is a word of the user's expression. */
  ghost predicate SomeSuffix(t: Tree, u: Str)
    requires t.Ok()
  {
    exists i :: 0 <= i <= |u| && t.InLang(t.line - 2, u[i..])
  }

  /** The last position is reached exactly when a word of the user's expression ends here. */
  lemma {:induction false} ReachLast(t: Tree, u: Str)
    requires t.Ok()
    ensures t.line in Reach(t, u) <==> SomeSuffix(t, u)
  {
    ReachMeans(t, u, []);
    assert t.Accepts(t.line, []);
    if t.AcceptsFrom(Reach(t, u), []) {
      var q :| q in Reach(t, u) && t.Accepts(q, []);
      assert q == t.line;
    }
    forall i | 0 <= i <= |u| ensures StartAt(t, u, [], i) <==> t.InLang(t.line - 2, u[i..]) {
      assert u[i..] + [] == u[i..];
      BeginMeans(t, u[i..]);
    }
  }

  // ----- Which nodes are positions -----

  /** A leaf of the user's expression, or the last node. */
  ghost predicate IsPosition(t: Tree, p: int)
    requires t.Ok()
  {
    (3 <= p <= t.line - 2 && t.left[p] == 0) || p == t.line
  }

  ghost predicate ArePositions(t: Tree, s: set<int>)
    requires t.Ok()
  {
    forall p :: p in s ==> IsPosition(t, p)
  }

  lemma ChildInside(t: Tree, v: int, c: int)
    requires t.Ok() && 3 <= v <= t.line - 2 && c != 0 && (c == t.left[v] || (t.left[v] != 0 && c == t.right[v]))
    ensures 3 <= c <= t.line - 2 && c < v
  {
    assert t.NodeOk(v) && t.NodeOk(2) && t.NodeOk(t.line - 1);
  }

  lemma ParentInside(t: Tree, v: int)
    requires t.Ok() && 3 <= v <= t.line - 2
    ensures v < t.parent[v] <= t.line - 2 || (v == t.line - 2 && t.parent[v] == t.line - 1)
  {
    assert t.HasParent(v) && t.NodeOk(t.line) && t.NodeOk(t.line - 1);
  }

  lemma {:induction false} FirstInside(t: Tree, v: int)
    requires t.Ok() && 3 <= v <= t.line - 2
    ensures ArePositions(t, t.First(v)) && t.line !in t.First(v)
    decreases v
  {
    assert t.NodeOk(v);
    var l, r := t.left[v], t.right[v];
    if l != 0 {
      ChildInside(t, v, l);
      FirstInside(t, l);
      if r != 0 {
        ChildInside(t, v, r);
        FirstInside(t, r);
      }
    }
  }

  lemma {:induction false} FollowInside(t: Tree, v: int)
    requires t.Ok() && 3 <= v <= t.line - 2
    ensures ArePositions(t, t.Follow(v))
    decreases t.line - v
  {
    var p := t.parent[v];
    ParentInside(t, v);
    assert t.HasParent(v) && t.NodeOk(p);
    FirstInside(t, v);
    if p == t.line - 1 {
      FollowLast(t);
    } else {
      FollowInside(t, p);
      if t.name[p] == CAT {
        ChildInside(t, p, t.right[p]);
        FirstInside(t, t.right[p]);
      }
    }
  }

  lemma BeginInside(t: Tree)
    requires t.Ok()
    ensures ArePositions(t, Begin(t))
  {
    FirstInside(t, t.line - 2);
  }

  lemma StepInside(t: Tree, s: set<int>, c: int)
    requires t.Ok() && ArePositions(t, s)
    ensures ArePositions(t, Step(t, s, c))
  {
    BeginInside(t);
    forall p | Moves(t, s, c, p) ensures IsPosition(t, p) {
      var q :| q in s && 1 <= q < t.line && t.left[q] == 0 && (assert t.NodeOk(q); t.Takes(q, c)) && p in t.Follow(q);
      assert IsPosition(t, q);
      FollowInside(t, q);
    }
  }

  lemma StepNone(t: Tree, c: int)
    requires t.Ok()
    ensures Step(t, {}, c) == Begin(t)
  {
    var none: set<int> := {};
    forall p ensures !Moves(t, none, c, p) {
    }
    assert (set p | 1 <= p <= t.line && Moves(t, none, c, p)) == {};
  }

  /** Taking one more position into account. */
  lemma StepMore(t: Tree, s: set<int>, c: int, q: int)
    requires t.Ok() && IsPosition(t, q) && (q == t.line || t.NodeOk(q))
    ensures Step(t, s + {q}, c) == Step(t, s, c) + (if q != t.line && t.Takes(q, c) then t.Follow(q) else {})
  {
    var more := if q != t.line && t.Takes(q, c) then t.Follow(q) else {};
    if q != t.line {
      FollowInside(t, q);
    }
    forall p ensures Moves(t, s + {q}, c, p) <==> Moves(t, s, c, p) || p in more {
      MovesMore(t, s, c, q, p);
    }
    forall p | p in more ensures 1 <= p <= t.line {
      assert IsPosition(t, p);
    }
    forall p ensures p in Step(t, s + {q}, c) <==> p in Step(t, s, c) + more {
    }
  }

  lemma MovesMore(t: Tree, s: set<int>, c: int, q: int, p: int)
    requires t.Ok() && IsPosition(t, q) && (q == t.line || t.NodeOk(q))
    ensures Moves(t, s + {q}, c, p) <==> Moves(t, s, c, p) || (q != t.line && t.Takes(q, c) && p in t.Follow(q))
  {
    if Moves(t, s + {q}, c, p) {
      var x :|
        x in s + {q} && 1 <= x < t.line && t.left[x] == 0 && (assert t.NodeOk(x); t.Takes(x, c)) && p in t.Follow(x);
      assert x in s || x == q;
    }
    if Moves(t, s, c, p) {
      var x :| x in s && 1 <= x < t.line && t.left[x] == 0 && (assert t.NodeOk(x); t.Takes(x, c)) && p in t.Follow(x);
      assert x in s + {q};
    }
    if q != t.line && t.Takes(q, c) && p in t.Follow(q) {
      assert q in s + {q};
    }
  }

  /** Some substring of u is a word of the user's expression. */
  ghost predicate Contains(t: Tree, u: Str)
    requires t.Ok()
  {
    exists i, j :: 0 <= i <= j <= |u| && t.InLang(t.line - 2, u[i..j])
  }

  /** The last position is among those reached after the first k characters of u. */
  ghost predicate Hit(t: Tree, u: Str, k: int)
    requires t.Ok() && 0 <= k <= |u|
  {
    t.line in Reach(t, u[..k])
  }

  lemma {:induction false} HitMeans(t: Tree, u: Str)
    requires t.Ok() && u != []
    ensures Contains(t, u) <==> exists k :: 1 <= k <= |u| && Hit(t, u, k)
  {
    if Contains(t, u) {
      var i, j :| 0 <= i <= j <= |u| && t.InLang(t.line - 2, u[i..j]);
      var k, h := if j == 0 then 1 else j, if j == 0 then 1 else i;
      assert u[..k][h..] == u[i..j];
      assert SomeSuffix(t, u[..k]);
      ReachLast(t, u[..k]);
      assert Hit(t, u, k);
    }
    if k :| 1 <= k <= |u| && Hit(t, u, k) {
      ReachLast(t, u[..k]);
      var i :| 0 <= i <= |u[..k]| && t.InLang(t.line - 2, u[..k][i..]);
      assert u[..k][i..] == u[i..k];
    }
  }

  lemma ReachNext(t: Tree, u: Str, k: int)
    requires t.Ok() && 0 <= k < |u|
    ensures Reach(t, u[..k + 1]) == Step(t, Reach(t, u[..k]), u[k])
  {
    assert u[..k + 1][..k] == u[..k];
  }

  /** The beginning is where the DOT, the STAR over it and the user's expression begin, less the DOT itself. */
  lemma WholeFirst(t: Tree)
    requires t.Ok()
    ensures t.First(t.line - 1) == {1} + t.First(t.line - 2)
    ensures t.Nullable(t.line - 1) <==> t.Nullable(t.line - 2)
  {
    assert t.NodeOk(1) && t.NodeOk(2) && t.NodeOk(t.line - 1);
    assert t.First(2) == {1} && t.Nullable(2);
  }

  lemma BeginCount(t: Tree)
    requires t.Ok()
    ensures var f := {1} + t.First(t.line - 2);
            && t.line !in f
            && (if t.Nullable(t.line - 2) then f + {t.line} else f) == {1} + Begin(t)
            && (t.line in Begin(t) <==> t.Nullable(t.line - 2))
            && |{1} + Begin(t)| == 1 + |Begin(t)|
  {
    var f := t.First(t.line - 2);
    FirstInside(t, t.line - 2);
    BeginInside(t);
    assert forall p :: p in f ==> IsPosition(t, p) && p != t.line;
    assert 1 in Begin(t) ==> IsPosition(t, 1);
    assert 1 !in Begin(t);
  }
}
