/** The lazily built automaton: position sets found on demand and a bounded cache of states. */
module EgrepMatcher {
  import opened EgrepTree
  import opened EgrepPositions
  import opened EgrepMarks
  import opened FiniteSets
  import opened EgrepTables
  import opened EgrepRoom

  class Matcher {
    const t: Tree
    var colpos: seq<int>
    var cntpos: int
    var tmpstat: seq<int>
    var count: int
    var begstat: seq<int>
    var begcnt: int
    var begout: int
    var positions: seq<int>
    var nxtpos: int
    var nxtfoll: int
    var inxtpos: int
    var foll: seq<int>
    var state: seq<int>
    var gotofn: seq<seq<int>>
    var out: seq<int>
    var nstate: int
    var xstate: int
    var istat: int
    var reinit: int

    /** the position set each state stands for */
    ghost var sets: Sets
    /** blocks of dropped states still in the array */
    ghost var dropped: int
    /** the sets whose blocks are in the array from below, and the block that was to be written last */
    ghost var up: Sets
    ghost var block: set<int>
    /** the sets that the automaton came to */
    ghost var seen: set<set<int>>

    // ----- Invariants -----

    ghost predicate Shape()
      reads `colpos, `tmpstat, `begstat, `begcnt, `begout
    {
      && t.Ok()
      && |colpos| == |tmpstat| == |begstat| == t.line + 1
      && tmpstat[1] != 1 && tmpstat[2] != 1
      && Ones(begstat) == Begin(t) && begcnt == |Begin(t)| && begout == (if t.line in Begin(t) then 1 else 0)
    }

    /** The array holds the first block and those of n states, follow sets, and nothing else. */
    ghost predicate Tables(n: int)
      reads `colpos, `tmpstat, `begstat, `begcnt, `begout, `positions, `inxtpos, `nxtpos, `nxtfoll, `foll
      reads `state, `gotofn, `out, `sets, `up
    {
      && t.Ok() && Shape() && |positions| == MAXPOS
      && 0 <= inxtpos <= nxtpos <= nxtfoll < MAXPOS && |foll| == t.line + 1 && inxtpos == 1 + |Begin(t)|
      && Block(t, positions, inxtpos, 0, Begin(t))
      && BlocksOk(t, positions, nxtpos, state, sets, n)
      && FollsOk(t, positions, nxtfoll, foll)
      && ArcsOk(t, gotofn, out, sets, n)
      && Account(t, nxtpos, nxtfoll, up, Computed(foll))
    }

    /** There was no room for the last block. */
    ghost predicate Stuck()
      reads `up, `dropped, `foll, `block, `seen
    {
      t.Ok() && NoRoom(t, Books(), seen) && forall s :: s in seen ==> ArePositions(t, s)
    }

    ghost function Books(): Ledger
      reads `up, `dropped, `foll, `block
    {
      Ledger(up, dropped, Computed(foll), block)
    }

    /** The cache agrees with the uncached transition, whatever was dropped from it before. */
    ghost predicate Core()
      reads this
    {
      && t.Ok() && Tables(nstate) && 1 <= nstate < NSTATES
      && Listed(t, up, dropped, reinit, sets, nstate, seen) && FollsMet(t, Computed(foll), seen)
    }

    /** Until an overflow calls for a fresh start, istat is the state after LEFT. */
    ghost predicate Started()
      reads this
    {
      |sets| == NSTATES && t.Ok() && 1 <= istat <= nstate < NSTATES && sets[istat] == Step(t, Begin(t), LEFT)
    }

    ghost predicate Valid()
      reads this
    {
      Core() && (reinit == 0 || reinit == 1) && (reinit == 0 ==> Started() && sets[1] == Begin(t))
    }

    // ----- Position sets -----

    method Mark(v: int)
      requires 1 <= v < |colpos|
      modifies `colpos, `cntpos
      ensures |colpos| == old(|colpos|) && Ones(colpos) == old(Ones(colpos)) + {v}
      ensures cntpos - |Ones(colpos)| == old(cntpos - |Ones(colpos)|)
    {
      OnesMark(colpos, v);
      if colpos[v] != 1 {
        colpos := colpos[v := 1];
        cntpos := cntpos + 1;
      } else {
        assert colpos[v := 1] == colpos;
      }
    }

    /** Marks the positions a word of v may begin with; zero when v can be empty. */
    method First(v: int) returns (b: int)
      requires t.Ok() && 1 <= v < t.line && |colpos| == t.line + 1
      modifies `colpos, `cntpos
      ensures |colpos| == t.line + 1 && Ones(colpos) == old(Ones(colpos)) + t.First(v)
      ensures cntpos - |Ones(colpos)| == old(cntpos - |Ones(colpos)|)
      ensures b == 0 || b == 1
      ensures b == 0 <==> t.Nullable(v)
      decreases v
    {
      assert t.NodeOk(v);
      if t.left[v] == 0 {
        Mark(v);
        return 1;
      } else if t.right[v] == 0 {
        b := First(t.left[v]);
        if b == 0 {
          return 0;
        } else if t.name[v] == PLUS {
          return 1;
        } else {
          return 0;
        }
      } else if t.name[v] == CAT {
        b := First(t.left[v]);
        if b == 0 {
          b := First(t.right[v]);
        }
        return b;
      } else {
        b := First(t.right[v]);
        var a := First(t.left[v]);
        if a == 0 || b == 0 {
          return 0;
        } else {
          return 1;
        }
      }
    }

    /** Marks the positions that may come after v. */
    method Follow(v: int)
      requires t.Ok() && 1 <= v <= t.line && |colpos| == t.line + 1
      modifies `colpos, `cntpos
      ensures |colpos| == t.line + 1 && Ones(colpos) == old(Ones(colpos)) + t.Follow(v)
      ensures cntpos - |Ones(colpos)| == old(cntpos - |Ones(colpos)|)
      decreases t.line - v
    {
      if v == t.line {
        return;
      }
      assert t.HasParent(v) && t.NodeOk(t.parent[v]);
      var p := t.parent[v];
      if t.name[p] == STAR || t.name[p] == PLUS {
        var _ := First(v);
        Follow(p);
      } else if t.name[p] == OR || t.name[p] == QUEST {
        Follow(p);
      } else if t.name[p] == CAT {
        if v == t.left[p] {
          var b := First(t.right[p]);
          if b == 0 {
            Follow(p);
          }
        } else {
          Follow(p);
        }
      } else {
        Mark(t.line);
      }
    }

    method Unmark()
      requires |colpos| == t.line + 1 && t.Ok()
      modifies `colpos
      ensures |colpos| == t.line + 1 && Ones(colpos) == {}
    {
      var k := 1;
      while k <= t.line
        invariant 1 <= k <= t.line + 1 && |colpos| == t.line + 1
        invariant forall i :: 1 <= i < k ==> colpos[i] == 0
      {
        colpos := colpos[k := 0];
        k := k + 1;
      }
      NoMember(Ones(colpos));
    }

    /** Is symb in the class leaf q? */
    method Member(symb: int, q: int, torf: bool) returns (r: bool)
      requires t.Ok() && 3 <= q <= t.line && t.left[q] == 0 && t.LeafOk(q) && (t.name[q] == CCL || t.name[q] == NCCL)
      ensures r == (if symb in t.Class(q) then torf else !torf)
    {
      var set_ := t.right[q];
      var num, pos, i := t.chars[set_], set_ + 1, 0;
      while i < num
        invariant 0 <= i <= num && pos == set_ + 1 + i
        invariant symb !in t.Class(q)[..i]
      {
        assert t.Class(q)[i] == t.chars[pos];
        if symb == t.chars[pos] {
          return torf;
        }
        assert t.Class(q)[..i + 1] == t.Class(q)[..i] + [t.Class(q)[i]];
        pos := pos + 1;
        i := i + 1;
      }
      assert t.Class(q)[..num] == t.Class(q);
      return !torf;
    }

    // ----- Blocks of positions -----

    /** Fails, which ends the program, when the two ends of the array meet. */
    method AddState(n: int) returns (ok: bool)
      requires t.Ok() && |tmpstat| == t.line + 1 && |positions| == MAXPOS && count == |Ones(tmpstat)|
      requires ArePositions(t, Ones(tmpstat))
      requires 1 <= n < NSTATES && |state| == |gotofn| == |out| == |sets| == NSTATES
      requires 0 <= nxtpos <= nxtfoll < MAXPOS
      modifies `positions, `nxtpos, `state, `gotofn, `out, `sets
      ensures ok <==> old(nxtpos) + count < nxtfoll
      ensures ok ==>
        && nxtpos == old(nxtpos) + 1 + count
        && |positions| == MAXPOS
        && Same(old(positions), positions, 0, old(nxtpos)) && Same(old(positions), positions, nxtpos, MAXPOS)
        && Block(t, positions, nxtpos, old(nxtpos), Ones(tmpstat))
        && state == old(state)[n := old(nxtpos)]
        && sets == old(sets)[n := Ones(tmpstat)]
        && gotofn == old(gotofn)[n := NoRow()]
        && out == old(out)[n := if t.line in Ones(tmpstat) then 1 else 0]
    {
      if nxtpos + count >= nxtfoll {
        return false;
      }
      gotofn := gotofn[n := NoRow()];
      state := state[n := nxtpos];
      WriteUp();
      out := out[n := if tmpstat[t.line] == 1 then 1 else 0];
      sets := sets[n := Ones(tmpstat)];
      return true;
    }

    /** The size and then the marked positions in ascending order. */
    method WriteUp()
      requires t.Ok() && |tmpstat| == t.line + 1 && |positions| == MAXPOS && count == |Ones(tmpstat)|
      requires ArePositions(t, Ones(tmpstat)) && 0 <= nxtpos && nxtpos + count < nxtfoll < MAXPOS
      modifies `positions, `nxtpos
      ensures nxtpos == old(nxtpos) + 1 + count
      ensures |positions| == MAXPOS && Same(old(positions), positions, 0, old(nxtpos))
      ensures Same(old(positions), positions, nxtpos, MAXPOS)
      ensures Block(t, positions, nxtpos, old(nxtpos), Ones(tmpstat))
    {
      hide PartUp, Same, Up, Ones;
      ghost var s, p, was := Ones(tmpstat), nxtpos, positions;
      UpStart(t, positions, nxtpos, count, s);
      positions := positions[nxtpos := count];
      nxtpos := nxtpos + 1;
      var i := 3;
      while i <= t.line
        invariant 3 <= i <= t.line + 1
        invariant |positions| == MAXPOS && PartUp(was, positions, p, count, Below(s, i))
        invariant nxtpos == p + 1 + |Below(s, i)|
        modifies `positions, `nxtpos
      {
        BelowNext(s, i);
        BelowSize(s, i);
        OnesAt(tmpstat, i);
        if tmpstat[i] == 1 {
          PutUp(was, positions, p, count, Below(s, i), i);
          positions := positions[nxtpos := i];
          nxtpos := nxtpos + 1;
        }
        i := i + 1;
      }
      BelowAll(t, s);
      UpDone(was, positions, p, s);
    }

    /** Fails, which ends the program, when the two ends of the array meet. */
    method AddFoll(n: int) returns (ok: bool)
      requires t.Ok() && |colpos| == t.line + 1 && |positions| == MAXPOS && cntpos == |Ones(colpos)|
      requires ArePositions(t, Ones(colpos))
      requires |foll| == t.line + 1 && 0 <= n <= t.line && 0 <= nxtpos <= nxtfoll < MAXPOS
      modifies `positions, `nxtfoll, `foll
      ensures ok <==> nxtpos < old(nxtfoll) - cntpos
      ensures !ok ==> foll == old(foll)
      ensures ok ==>
        && foll == old(foll)[n := old(nxtfoll)]
        && nxtfoll == old(nxtfoll) - 1 - cntpos
        && |positions| == MAXPOS
        && Same(old(positions), positions, 0, nxtfoll + 1) && Same(old(positions), positions, old(nxtfoll) + 1, MAXPOS)
        && Down(positions, old(nxtfoll), Ones(colpos))
    {
      if nxtfoll - cntpos <= nxtpos {
        return false;
      }
      foll := foll[n := nxtfoll];
      WriteDown();
      return true;
    }

    /** The size and, below it, the marked positions in descending order of address. */
    method WriteDown()
      requires t.Ok() && |colpos| == t.line + 1 && |positions| == MAXPOS && cntpos == |Ones(colpos)|
      requires ArePositions(t, Ones(colpos)) && cntpos <= nxtfoll < MAXPOS
      modifies `positions, `nxtfoll
      ensures nxtfoll == old(nxtfoll) - 1 - cntpos
      ensures |positions| == MAXPOS && Same(old(positions), positions, 0, nxtfoll + 1)
      ensures Same(old(positions), positions, old(nxtfoll) + 1, MAXPOS)
      ensures Down(positions, old(nxtfoll), Ones(colpos))
    {
      hide PartDown, Same, Down, Ones;
      ghost var s, f, was := Ones(colpos), nxtfoll, positions;
      DownStart(t, positions, nxtfoll, cntpos, s);
      positions := positions[nxtfoll := cntpos];
      nxtfoll := nxtfoll - 1;
      var i := 3;
      while i <= t.line
        invariant 3 <= i <= t.line + 1
        invariant |positions| == MAXPOS && PartDown(was, positions, f, cntpos, Below(s, i))
        invariant nxtfoll == f - 1 - |Below(s, i)|
        modifies `positions, `nxtfoll
      {
        BelowNext(s, i);
        BelowSize(s, i);
        OnesAt(colpos, i);
        if colpos[i] == 1 {
          PutDown(was, positions, f, cntpos, Below(s, i), i);
          positions := positions[nxtfoll := i];
          nxtfoll := nxtfoll - 1;
        }
        i := i + 1;
      }
      BelowAll(t, s);
      DownDone(was, positions, f, s);
    }

    // ----- One transition -----

    /** Looks for a state that stands for the set in tmpstat. */
    method NotIn(n: int) returns (r: int)
      requires t.Ok() && |tmpstat| == t.line + 1 && |positions| == MAXPOS && count == |Ones(tmpstat)|
      requires 1 <= n < NSTATES && BlocksOk(t, positions, nxtpos, state, sets, n)
      modifies `xstate
      ensures r == 0 ==> 1 <= xstate <= n && sets[xstate] == Ones(tmpstat)
      ensures r != 0 ==> forall i :: 1 <= i <= n ==> sets[i] != Ones(tmpstat)
    {
      var i := 1;
      while i <= n
        invariant 1 <= i <= n + 1
        invariant forall k :: 1 <= k < i ==> sets[k] != Ones(tmpstat)
      {
        assert Block(t, positions, nxtpos, state[i], sets[i]);
        if positions[state[i]] == count {
          var same := SameSet(state[i], sets[i]);
          if same {
            xstate := i;
            return 0;
          }
        }
        i := i + 1;
      }
      return 1;
    }

    method SameSet(p: int, ghost s: set<int>) returns (same: bool)
      requires t.Ok() && |tmpstat| == t.line + 1 && |positions| == MAXPOS && count == |Ones(tmpstat)|
      requires Block(t, positions, nxtpos, p, s) && positions[p] == count
      ensures same <==> s == Ones(tmpstat)
    {
      var pos, j := p + 1, 0;
      ghost var block := positions[p + 1..p + 1 + count];
      while j < count
        invariant 0 <= j <= count && pos == p + 1 + j
        invariant forall k :: 0 <= k < j ==> block[k] in Ones(tmpstat)
      {
        assert positions[pos] == block[j] && block[j] in Elems(block);
        assert IsPosition(t, block[j]);
        if tmpstat[positions[pos]] != 1 {
          return false;
        }
        pos := pos + 1;
        j := j + 1;
      }
      forall x | x in s ensures x in Ones(tmpstat) {
        assert x in Elems(block);
      }
      SubsetSize(s, Ones(tmpstat));
      return true;
    }

    /** Computes the follow block of q unless it is there already. */
    method Fetch(q: int) returns (ok: bool)
      requires Core() && 3 <= q <= t.line - 2 && t.left[q] == 0 && InSome(seen, q)
      modifies `colpos, `cntpos, `positions, `nxtfoll, `foll, `block
      ensures ok ==> Core() && foll[q] != 0 && Same(old(positions), positions, 0, nxtpos)
      ensures !ok ==> Stuck()
    {
      ok := true;
      if foll[q] == 0 {
        FindFollow(q);
        ok := StoreFollow(q);
      }
    }

    method FindFollow(q: int)
      requires t.Ok() && |colpos| == t.line + 1 && 3 <= q <= t.line - 2
      modifies `colpos, `cntpos
      ensures |colpos| == t.line + 1 && Ones(colpos) == t.Follow(q) && cntpos == |Ones(colpos)|
    {
      cntpos := 0;
      Unmark();
      Follow(q);
    }

    method StoreFollow(q: int) returns (ok: bool)
      requires Core() && 3 <= q <= t.line - 2 && foll[q] == 0 && InSome(seen, q)
      requires Ones(colpos) == t.Follow(q) && cntpos == |Ones(colpos)|
      modifies `positions, `nxtfoll, `foll, `block
      ensures ok ==> Core() && foll[q] != 0 && Same(old(positions), positions, 0, nxtpos)
      ensures !ok ==> Stuck()
    {
      hide Matcher.Tables, Computed, Listed, FollsMet, ArePositions, Written, Wanted, Full, InSome, Same;
      ListedFacts(t, up, dropped, reinit, sets, nstate, seen);
      block := t.Follow(q);
      NoRoomYet();
      FollMet(t, foll, q, nxtfoll, seen);
      ok := PutFollow(q);
    }

    lemma NoRoomYet()
      requires Tables(nstate)
      ensures |foll| == t.line + 1 && nxtfoll != 0
    {
    }

    /** The block of what may follow q. */
    method PutFollow(q: int) returns (ok: bool)
      requires Tables(nstate) && 0 <= nstate && 3 <= q <= t.line - 2 && foll[q] == 0
      requires Ones(colpos) == t.Follow(q) && cntpos == |Ones(colpos)|
      modifies `positions, `nxtfoll, `foll
      ensures ok <==> !Full(t, up, Computed(old(foll)), |t.Follow(q)|)
      ensures ok ==> Tables(nstate) && foll == old(foll)[q := old(nxtfoll)] && foll[q] != 0
      ensures ok ==> Same(old(positions), positions, 0, nxtpos)
      ensures !ok ==> foll == old(foll)
    {
      hide BlocksOk, FollsOk, ArcsOk, Block, Computed, Account, Same, Down, ArePositions, Full;
      FollowInside(t, q);
      FollWritten(t, nxtpos, nxtfoll, up, foll, q);
      ghost var was, bottom, old_ := positions, nxtfoll, foll;
      ok := AddFoll(q);
      if ok {
        FollAdded(t, was, positions, inxtpos, nxtpos, bottom, nxtfoll, state, sets, nstate, old_, q);
        SameLess(was, positions, nxtfoll + 1, nxtpos);
      }
    }

    /** Marks in tmpstat what may follow q. */
    method Spread(q: int)
      requires Core() && 3 <= q <= t.line - 2 && t.left[q] == 0 && foll[q] != 0 && count == |Ones(tmpstat)|
      modifies `tmpstat, `count
      ensures Core() && Ones(tmpstat) == old(Ones(tmpstat)) + t.Follow(q) && count == |Ones(tmpstat)|
    {
      hide BlocksOk, ArcsOk, Computed, Account, Listed, FollsMet, ArePositions, Begin;
      assert FollAt(t, positions, nxtfoll, foll[q], q);
      FollowInside(t, q);
      SpreadBlock(foll[q], t.Follow(q));
    }

    method SpreadBlock(f: int, ghost s: set<int>)
      requires t.Ok() && |tmpstat| == t.line + 1 && tmpstat[1] != 1 && tmpstat[2] != 1 && count == |Ones(tmpstat)|
      requires Down(positions, f, s) && ArePositions(t, s)
      modifies `tmpstat, `count
      ensures |tmpstat| == t.line + 1 && tmpstat[1] != 1 && tmpstat[2] != 1 && count == |Ones(tmpstat)|
      ensures Ones(tmpstat) == old(Ones(tmpstat)) + s
    {
      hide Ones, Elems, ArePositions;
      var number, newpos, k := positions[f], f - 1, 0;
      ghost var block, before := positions[f - number..f], Ones(tmpstat);
      SpreadNone(block, before);
      while k < number
        invariant 0 <= k <= number && newpos == f - 1 - k
        invariant |tmpstat| == t.line + 1 && tmpstat[1] != 1 && tmpstat[2] != 1
        invariant Ones(tmpstat) == before + Elems(block[number - k..]) && count == |Ones(tmpstat)|
      {
        var x := positions[newpos];
        assert x == block[number - 1 - k];
        SpreadStep(t, tmpstat, before, block, number - 1 - k, x);
        if tmpstat[x] != 1 {
          tmpstat := tmpstat[x := 1];
          count := count + 1;
        }
        newpos := newpos - 1;
        k := k + 1;
      }
      assert block[0..] == block;
    }

    /** Does the node at position q take c? The end of the expression takes nothing. */
    method Takes(q: int, c: int) returns (r: bool)
      requires t.Ok() && IsPosition(t, q) && 0 <= c < 128
      ensures r <==> q != t.line && (assert t.NodeOk(q); t.Takes(q, c))
    {
      assert t.NodeOk(q);
      r := false;
      var k := t.name[q];
      if k >= 0 {
        var in_, notIn := false, false;
        if k == CCL {
          in_ := Member(c, q, true);
        }
        if k == NCCL {
          notIn := Member(c, q, false);
        }
        r := k == c || (k == DOT && c != LEFT && c != RIGHT) || in_ || (notIn && c != LEFT && c != RIGHT);
      }
    }

    /** Fills tmpstat with the set after c: the beginning again, and what may follow each position that takes c. */
    method Gather(s: int, c: int) returns (ok: bool)
      requires Core() && 1 <= s <= nstate && 0 <= c < 128
      modifies `colpos, `cntpos, `positions, `nxtfoll, `foll, `tmpstat, `count, `block
      ensures ok ==> Core() && Ones(tmpstat) == Step(t, sets[s], c) && count == |Ones(tmpstat)|
      ensures !ok ==> Stuck()
    {
      hide FollsOk, ArcsOk, BlocksOk, Block, Computed, Account, Listed, FollsMet, Begin, Step, Elems, ArePositions;
      hide InSome, Matcher.Stuck, Matcher.Tables;
      BlockAt(s);
      ListedFacts(t, up, dropped, reinit, sets, nstate, seen);
      var num := positions[state[s]];
      ghost var set_, was, at := positions[state[s] + 1..state[s] + 1 + num], positions, state[s] + 1;
      Restart();
      var pos, i := state[s] + 1, 0;
      GatherStart(t, set_, c);
      while i < num
        invariant Core() && 0 <= i <= num && pos == at + i
        invariant Same(was, positions, 0, nxtpos)
        invariant Ones(tmpstat) == Step(t, Elems(set_[..i]), c) && count == |Ones(tmpstat)|
        modifies `colpos, `cntpos, `positions, `nxtfoll, `foll, `tmpstat, `count, `block
      {
        var curpos := positions[pos];
        assert curpos == was[pos] == set_[i];
        GatherNext(t, set_, i);
        SetMet(seen, sets[s], curpos);
        ok := GatherOne(curpos, c, Elems(set_[..i]));
        if !ok {
          return false;
        }
        pos := pos + 1;
        i := i + 1;
      }
      assert set_[..num] == set_;
      return true;
    }

    method GatherOne(curpos: int, c: int, ghost done: set<int>) returns (ok: bool)
      requires Core() && IsPosition(t, curpos) && 0 <= c < 128 && InSome(seen, curpos)
      requires Ones(tmpstat) == Step(t, done, c) && count == |Ones(tmpstat)|
      modifies `colpos, `cntpos, `positions, `nxtfoll, `foll, `tmpstat, `count, `block
      ensures ok ==> Core() && Same(old(positions), positions, 0, nxtpos)
      ensures ok ==> Ones(tmpstat) == Step(t, done + {curpos}, c) && count == |Ones(tmpstat)|
      ensures !ok ==> Stuck()
    {
      hide Step, Begin, FollsOk, ArcsOk, BlocksOk, Block, Computed, Account, Listed, FollsMet;
      assert t.NodeOk(curpos);
      StepMore(t, done, c, curpos);
      var takes := Takes(curpos, c);
      if takes {
        ok := Fetch(curpos);
        if !ok {
          return false;
        }
        Spread(curpos);
      }
      return true;
    }

    /** tmpstat as it is before anything is read. */
    method Restart()
      requires Core()
      modifies `tmpstat, `count
      ensures Core() && Ones(tmpstat) == Begin(t) && count == |Ones(tmpstat)|
    {
      hide BlocksOk, FollsOk, ArcsOk, Block, Computed, Account, Listed, FollsMet, Begin;
      count := begcnt;
      var i := 3;
      while i <= t.line
        invariant 3 <= i <= t.line + 1 && |tmpstat| == t.line + 1 && tmpstat[1] != 1 && tmpstat[2] != 1
        invariant forall k :: 3 <= k < i ==> tmpstat[k] == begstat[k]
        modifies `tmpstat
      {
        tmpstat := tmpstat[i := begstat[i]];
        i := i + 1;
      }
      BeginInside(t);
      forall k | 1 <= k <= t.line ensures tmpstat[k] == 1 <==> begstat[k] == 1 {
        assert k in Ones(begstat) ==> IsPosition(t, k);
      }
      assert Ones(tmpstat) == Ones(begstat);
    }

    /** The next state, which the cache remembers for as long as it is not emptied. */
    method NxtSt(s: int, c: int) returns (ok: bool, r: int)
      requires Core() && 1 <= s <= nstate && 0 <= c < 128
      modifies `colpos, `cntpos, `positions, `nxtpos, `nxtfoll, `foll, `tmpstat, `count
      modifies `state, `gotofn, `out, `nstate, `xstate, `reinit, `sets, `dropped, `up, `block, `seen
      ensures ok ==> Core() && 1 <= r <= nstate && sets[r] == Step(t, old(sets[s]), c)
      ensures t.Ok() && seen == old(seen) + {Step(t, old(sets[s]), c)}
      ensures reinit == old(reinit) || reinit == 1
      ensures old(nstate) + 1 < NSTATES ==> reinit == old(reinit)
      ensures ok && reinit == 0 ==> old(nstate) <= nstate && forall i :: 1 <= i <= old(nstate) ==>
        sets[i] == old(sets[i])
      ensures !ok ==> Stuck()
    {
      hide Matcher.Tables, Computed, Listed, FollsMet, ArePositions, Begin, Step, Matcher.Stuck;
      CoreSizes();
      ghost var from := sets[s];
      Meet(s, c);
      r := 0;
      ok := Gather(s, c);
      if !ok {
        return;
      }
      var kept;
      ok, kept, r := NextState();
      if ok && kept {
        CoreSizes();
        assert sets[s] == from;
        Remember(s, c, r);
      }
    }

    /** The set after c is met. */
    ghost method Meet(s: int, c: int)
      requires Core() && 1 <= s <= nstate && 0 <= c < 128
      modifies `seen
      ensures Core() && seen == old(seen) + {Step(t, sets[s], c)}
    {
      hide BlocksOk, FollsOk, ArcsOk, Block, Computed, Account, Listed, FollsMet, ArePositions, Begin, Step;
      SetInside(s);
      StepInside(t, sets[s], c);
      SeenMore(t, up, dropped, reinit, sets, nstate, Computed(foll), seen, Step(t, sets[s], c));
      seen := seen + {Step(t, sets[s], c)};
    }

    /** The state of the set in tmpstat, old or new; when the cache was full it is state 1, and no other is kept. */
    method NextState() returns (ok: bool, kept: bool, r: int)
      requires Core() && count == |Ones(tmpstat)| && Ones(tmpstat) in seen
      modifies `positions, `nxtpos, `state, `gotofn, `out, `nstate, `xstate, `reinit, `sets, `dropped, `up, `block
      ensures ok ==> Core() && 1 <= r <= nstate && sets[r] == Ones(tmpstat)
      ensures ok && kept ==> old(nstate) <= nstate && forall i :: 1 <= i <= old(nstate) ==> sets[i] == old(sets[i])
      ensures kept ==> reinit == old(reinit)
      ensures !kept ==> reinit == 1 && old(nstate) + 1 >= NSTATES
      ensures !ok ==> Stuck()
    {
      hide Listed, FollsMet, Account, ArePositions, Begin, Computed, BlocksOk, FollsOk, ArcsOk, Block, Matcher.Stuck;
      CoreSizes();
      ok, kept := true, true;
      var b := NotIn(nstate);
      if b != 0 {
        if nstate + 1 >= NSTATES {
          ok := Overflow();
          return ok, false, 1;
        }
        ok := Grow();
        r := nstate;
      } else {
        r := xstate;
      }
    }

    lemma BlockAt(s: int)
      requires Core() && 1 <= s <= nstate
      ensures |state| == |sets| == NSTATES && 0 <= state[s] && state[s] + 1 + |sets[s]| <= nxtpos <= |positions|
      ensures positions[state[s]] == |sets[s]| && ArePositions(t, sets[s])
      ensures Elems(positions[state[s] + 1..state[s] + 1 + |sets[s]|]) == sets[s]
    {
      assert Block(t, positions, nxtpos, state[s], sets[s]);
    }

    lemma SetInside(i: int)
      requires Core() && 1 <= i <= nstate
      ensures |sets| == NSTATES && ArePositions(t, sets[i])
    {
      assert Block(t, positions, nxtpos, state[i], sets[i]);
    }

    lemma CoreSizes()
      requires Core()
      ensures |state| == |gotofn| == |out| == |sets| == NSTATES
    {
    }

    method Remember(s: int, c: int, r: int)
      requires Core() && 1 <= s <= nstate && 0 <= c < 128 && 1 <= r <= nstate && sets[r] == Step(t, sets[s], c)
      modifies `gotofn
      ensures Core()
    {
      hide BlocksOk, FollsOk, Block, Computed, Account, Listed, FollsMet, ArePositions, Begin, Step;
      assert RowOk(t, gotofn[s], out[s], sets, nstate, s);
      ArcPut(t, gotofn, out, sets, nstate, s, c, r);
      gotofn := gotofn[s := gotofn[s][c := r]];
    }

    /** One more state, for the set in tmpstat. */
    method Grow() returns (ok: bool)
      requires Core() && nstate + 1 < NSTATES && count == |Ones(tmpstat)| && Ones(tmpstat) in seen
      requires forall i :: 1 <= i <= nstate ==> sets[i] != Ones(tmpstat)
      modifies `positions, `nxtpos, `state, `gotofn, `out, `nstate, `sets, `up, `block
      ensures ok ==> Core() && nstate == old(nstate) + 1 && sets == old(sets)[nstate := Ones(tmpstat)]
      ensures !ok ==> Stuck()
    {
      hide Matcher.Tables, Listed, FollsMet, Written, Full, ArePositions, Computed;
      ListedFacts(t, up, dropped, reinit, sets, nstate, seen);
      ListedMore(t, up, dropped, reinit, sets, nstate, seen, Ones(tmpstat));
      nstate := nstate + 1;
      ok := Place(nstate);
    }

    /** The block and the row of state n, for the set in tmpstat. */
    method Place(n: int) returns (ok: bool)
      requires Tables(n - 1) && 1 <= n < NSTATES && count == |Ones(tmpstat)| && ArePositions(t, Ones(tmpstat))
      modifies `positions, `nxtpos, `state, `gotofn, `out, `sets, `up, `block
      ensures ok <==> !Full(t, old(up), Computed(foll), |Ones(tmpstat)|)
      ensures ok ==> Tables(n) && sets == old(sets)[n := Ones(tmpstat)] && up == old(up) + [Ones(tmpstat)]
      ensures !ok ==> up == old(up) && block == Ones(tmpstat)
    {
      hide BlocksOk, FollsOk, ArcsOk, Block, Computed, Account, Same, ArePositions, Begin, Full, Ones;
      TableSizes(n - 1);
      StateWritten(t, nxtpos, nxtfoll, up, Computed(foll), Ones(tmpstat));
      block := Ones(tmpstat);
      ghost var was, top, state0, gotofn0, out0, sets0 := positions, nxtpos, state, gotofn, out, sets;
      ok := AddState(n);
      if ok {
        StateAdded(t, was, positions, inxtpos, top, nxtpos, nxtfoll, foll, state0, gotofn0, out0, sets0, n - 1,
                   Ones(tmpstat));
        up := up + [Ones(tmpstat)];
      }
    }

    lemma TableSizes(n: int)
      requires Tables(n)
      ensures |state| == |gotofn| == |out| == |sets| == NSTATES
    {
    }

    /** The cache is full: drop every state and keep only the set in tmpstat, as state 1. */
    method Overflow() returns (ok: bool)
      requires Core() && count == |Ones(tmpstat)| && Ones(tmpstat) in seen
      modifies `positions, `nxtpos, `state, `gotofn, `out, `nstate, `reinit, `sets, `dropped, `up, `block
      ensures ok ==> Core() && nstate == 1 && sets[1] == Ones(tmpstat)
      ensures reinit == 1
      ensures !ok ==> Stuck()
    {
      hide Matcher.Tables, Listed, FollsMet, Written, Full, ArePositions, Computed, Begin;
      ListedFacts(t, up, dropped, reinit, sets, nstate, seen);
      ListedOver(t, sets, seen, Ones(tmpstat));
      CutBack();
      reinit := 1;
      nstate := 1;
      dropped := 1;
      ok := Place(1);
    }

    /** Only the block of the beginning is left, and no state. */
    method CutBack()
      requires Tables(nstate)
      modifies `nxtpos, `up
      ensures Tables(0) && up == [Begin(t)]
    {
      hide BlocksOk, FollsOk, ArcsOk, Block, Computed, Account, ArePositions, Begin, Ones;
      TableSizes(nstate);
      OnlyFirst(t, nxtpos, nxtfoll, up, Computed(foll));
      NoStates(t, positions, inxtpos, state, gotofn, out, sets);
      nxtpos := inxtpos;
      up := [Begin(t)];
    }

    // ----- Set up and fresh starts -----

    constructor (tree: Tree)
      requires tree.Ok()
      ensures t == tree && Loaded()
    {
      t := tree;
      colpos := seq(tree.line + 1, i => 0);
      cntpos := 0;
      tmpstat := seq(tree.line + 1, i => 0);
      count := 0;
      begstat := seq(tree.line + 1, i => 0);
      begcnt := 0;
      begout := 0;
      positions := seq(MAXPOS, i => 0);
      nxtpos := 0;
      nxtfoll := 0;
      inxtpos := 0;
      foll := seq(tree.line + 1, i => 0);
      state := seq(NSTATES, i => 0);
      gotofn := seq(NSTATES, i => NoRow());
      out := seq(NSTATES, i => 0);
      nstate := 1;
      xstate := 0;
      istat := 0;
      reinit := 0;
      sets := seq(NSTATES, i => {});
      dropped := 0;
      up, block, seen := [], {}, {};
    }

    /** The arrays are as large as they should be and nothing was computed. */
    ghost predicate Loaded()
      reads this
    {
      && t.Ok()
      && |colpos| == |tmpstat| == |begstat| == |foll| == t.line + 1 && |positions| == MAXPOS
      && |state| == |gotofn| == |out| == |sets| == NSTATES
      && nstate == 1 && reinit == 0 && dropped == 0
      && forall q :: 0 <= q < |foll| ==> foll[q] == 0
    }

    method Cgotofn() returns (ok: bool)
      requires Loaded()
      modifies this
      ensures ok ==> Valid() && reinit == 0
      ensures !ok ==> Stuck()
      ensures t.Ok() && seen <= {Begin(t), Step(t, Begin(t), LEFT)}
    {
      hide Matcher.Tables, Begin, Step, FollsMet, Written, Matcher.Stuck, Computed;
      FindBegin();
      ok := FirstState();
      if ok {
        CoreSizes();
        ok, istat := NxtSt(1, LEFT);
      }
    }

    /** Where a match may begin. */
    method FindBegin()
      requires Loaded()
      modifies `colpos, `cntpos, `tmpstat, `begstat, `count, `begcnt, `begout
      ensures Shape() && Loaded() && Ones(tmpstat) == Begin(t) && count == |Begin(t)|
    {
      hide Ones, Begin;
      count := 0;
      MarkBegin();
      CopyBegin();
    }

    method MarkBegin()
      requires t.Ok() && |colpos| == t.line + 1
      modifies `colpos, `cntpos, `begout
      ensures |colpos| == t.line + 1 && Ones(colpos) == {1} + Begin(t) && cntpos == 1 + |Begin(t)|
      ensures begout == if t.line in Begin(t) then 1 else 0
    {
      hide Ones, Begin, Tree.First, Tree.Nullable, Tree.NodeOk, Tree.HasParent;
      cntpos := 0;
      begout := 0;
      Unmark();
      var b := First(t.line - 1);
      WholeFirst(t);
      assert Ones(colpos) == {1} + t.First(t.line - 2);
      BeginMarked(t, colpos, cntpos);
      if b == 0 {
        colpos := colpos[t.line := 1];
        cntpos := cntpos + 1;
        begout := 1;
      }
    }

    method CopyBegin()
      requires t.Ok() && |colpos| == |tmpstat| == |begstat| == t.line + 1
      requires Ones(colpos) == {1} + Begin(t) && cntpos == 1 + |Begin(t)|
      modifies `tmpstat, `begstat, `count, `begcnt
      ensures |tmpstat| == |begstat| == t.line + 1 && tmpstat[1] == 0 && tmpstat[2] != 1
      ensures Ones(tmpstat) == Ones(begstat) == Begin(t) && count == begcnt == |Begin(t)|
    {
      var i := 1;
      while i <= t.line
        invariant 1 <= i <= t.line + 1 && |tmpstat| == |begstat| == t.line + 1
        invariant forall k :: 1 <= k < i ==> tmpstat[k] == begstat[k] == colpos[k]
        modifies `tmpstat, `begstat
      {
        begstat := begstat[i := colpos[i]];
        tmpstat := tmpstat[i := begstat[i]];
        i := i + 1;
      }
      begcnt := cntpos - 1;
      count := begcnt;
      tmpstat := tmpstat[1 := 0];
      begstat := begstat[1 := 0];
      BeginInside(t);
      forall k | 1 <= k <= t.line
        ensures (tmpstat[k] == 1 <==> k in Begin(t)) && (begstat[k] == 1 <==> k in Begin(t))
        ensures (tmpstat[k] == 1 ==> k >= 3)
      {
        assert k in Ones(colpos) <==> colpos[k] == 1;
        assert k in Begin(t) ==> IsPosition(t, k);
      }
      assert Ones(tmpstat) == Begin(t) && Ones(begstat) == Begin(t);
    }

    /** State 1 stands for the beginning. */
    method FirstState() returns (ok: bool)
      requires Shape() && Loaded() && Ones(tmpstat) == Begin(t) && count == |Begin(t)|
      modifies `positions, `nxtpos, `nxtfoll, `inxtpos, `state, `gotofn, `out, `sets, `up, `block, `seen
      ensures ok ==> Core() && nstate == 1 && reinit == 0 && sets[1] == Begin(t)
      ensures t.Ok() && seen == {Begin(t)}
      ensures !ok ==> Stuck()
    {
      hide Matcher.Tables, Begin, Listed, Ones, Written, Computed, Full;
      BeginInside(t);
      NothingWritten(t, foll);
      ListedFirst(t, sets);
      seen := {Begin(t)};
      ok := FirstBlock();
    }

    method FirstBlock() returns (ok: bool)
      requires Shape() && Loaded() && Ones(tmpstat) == Begin(t) && count == |Begin(t)|
      modifies `positions, `nxtpos, `nxtfoll, `inxtpos, `state, `gotofn, `out, `sets, `up, `block
      ensures ok ==> Tables(1) && sets == old(sets)[1 := Begin(t)] && up == [Begin(t)]
      ensures !ok ==> Full(t, [], Computed(foll), |Begin(t)|) && up == [] && block == Begin(t)
    {
      hide Matcher.Shape, BlocksOk, FollsOk, ArcsOk, Block, ArePositions, Begin, Account, Same, Ones, Computed, Full;
      nxtpos := 0;
      nxtfoll := MAXPOS - 1;
      BeginInside(t);
      up, block := [], Begin(t);
      NothingWritten(t, foll);
      StateWritten(t, 0, MAXPOS - 1, [], Computed(foll), Begin(t));
      ghost var state0, gotofn0, out0, sets0 := state, gotofn, out, sets;
      ok := AddState(1);
      if ok {
        inxtpos := nxtpos;
        FirstTables(t, positions, nxtpos, state0, gotofn0, out0, sets0, foll);
        up := [] + [Begin(t)];
      }
    }

    /** Drops every state and starts again from the beginning. */
    method Clearg() returns (ok: bool)
      requires Core() && reinit == 1
      modifies this
      ensures ok ==> Valid() && reinit == 0
      ensures !ok ==> Stuck()
      ensures t.Ok() && seen == old(seen) + {Step(t, Begin(t), LEFT)}
    {
      hide Matcher.Tables, Begin, Step, FollsMet, Written, Matcher.Stuck, Computed;
      FreshStart();
      CoreSizes();
      ok, istat := NxtSt(1, LEFT);
    }

    method FreshStart()
      requires Core() && reinit == 1
      modifies `reinit, `out, `gotofn, `nstate, `state, `sets, `dropped
      ensures Core() && nstate == 1 && reinit == 0 && sets[1] == Begin(t)
    {
      hide FollsOk, Computed, Same, Down, ArePositions, Begin;
      ListedClear(t, up, dropped, sets, nstate, seen);
      NoStates(t, positions, nxtpos, state, gotofn, out, sets);
      ArcsPut(t, gotofn, out, sets, 0, begout, Begin(t));
      BlocksPut(t, positions, nxtpos, state, sets, 0, 0, Begin(t));
      Empty(out[1 := begout], gotofn[1 := NoRow()], state[1 := 0], sets[1 := Begin(t)]);
    }

    method Empty(newout: seq<int>, rows: seq<seq<int>>, places: seq<int>, ghost meanings: Sets)
      modifies `reinit, `out, `gotofn, `nstate, `state, `sets, `dropped
      ensures reinit == 0 && nstate == 1 && dropped == old(nstate + dropped) - 1
      ensures out == newout && gotofn == rows && state == places && sets == meanings
    {
      reinit := 0;
      out := newout;
      gotofn := rows;
      dropped := nstate + dropped - 1;
      nstate := 1;
      state := places;
      sets := meanings;
    }

    // ----- Matching -----

    /** Runs the automaton over one line, from istat, until it reaches the end of an expression or of the line. */
    method Scan(buf: Str) returns (ok: bool, found: bool)
      requires Valid() && reinit == 0 && Line(buf)
      modifies this
      ensures ok ==> Valid() && (found <==> Contains(t, [LEFT] + buf))
      ensures !ok ==> Stuck()
      ensures t.Ok() && forall s :: s in seen ==> s in old(seen) || Along(t, [LEFT] + buf, s)
    {
      hide Matcher.Tables, Block, BlocksOk, FollsOk, Begin, Step, Contains, Reach;
      ghost var u := [LEFT] + buf;
      HitMeans(t, u);
      var cstat, p := istat, 0;
      ReachLeft(t, u);
      found := Out(cstat);
      if found {
        assert Hit(t, u, 1);
        return true, true;
      }
      while true
        invariant Valid() && 0 <= p < |buf| && 1 <= cstat <= nstate && sets[cstat] == Reach(t, u[..p + 1])
        invariant forall k :: 1 <= k <= p + 1 ==> !Hit(t, u, k)
        invariant forall s :: s in seen ==> s in old(seen) || Along(t, u, s)
        decreases |buf| - p
      {
        ReachNext(t, u, p + 1);
        assert Along(t, u, Reach(t, u[..p + 2]));
        ok, cstat := Advance(cstat, buf[p]);
        if !ok {
          return false, false;
        }
        found := Out(cstat);
        if found {
          assert Hit(t, u, p + 2);
          return true, true;
        }
        if buf[p] == RIGHT {
          return true, false;
        }
        p := p + 1;
      }
    }

    method Out(s: int) returns (r: bool)
      requires Core() && 1 <= s <= nstate
      ensures r <==> t.line in sets[s]
    {
      assert RowOk(t, gotofn[s], out[s], sets, nstate, s);
      return out[s] == 1;
    }

    /** The cached transition when there is one. */
    method Advance(s: int, c: int) returns (ok: bool, r: int)
      requires Valid() && 1 <= s <= nstate && 0 <= c < 128
      modifies this
      ensures ok ==> Valid() && 1 <= r <= nstate && sets[r] == Step(t, old(sets[s]), c)
      ensures !ok ==> Stuck()
      ensures t.Ok() && old(seen) <= seen <= old(seen) + {Step(t, old(sets[s]), c)}
    {
      hide Block, BlocksOk, FollsOk, Begin, Step, Account, Listed, FollsMet;
      assert RowOk(t, gotofn[s], out[s], sets, nstate, s);
      assert Arc(t, sets, nstate, s, c, gotofn[s][c]);
      r := gotofn[s][c];
      if r == 0 {
        ok, r := NxtSt(s, c);
      } else {
        ok := true;
      }
    }

    lemma CoreOf()
      requires Valid()
      ensures Core() && (reinit == 0 || reinit == 1)
    {
    }

    /** The lines that are selected: those that contain a match or, with vflag, those that do not. */
    method Execute(lines: seq<Str>, vflag: bool) returns (ok: bool, selected: seq<bool>)
      requires Valid() && reinit == 0
      requires TextFile(lines)
      modifies this
      ensures ok ==> Valid() && Chosen(t, lines, selected, vflag)
      ensures !ok ==> Stuck()
      ensures t.Ok() && forall s :: s in seen ==> s in old(seen) || Starts(t, s) || InLines(t, lines, s)
    {
      hide Along, Stuck, Begin, Step, Matcher.Tables, BlocksOk, FollsOk, ArcsOk, Started, Contains;
      selected := [];
      ok := true;
      var n := 0;
      while n < |lines|
        invariant 0 <= n <= |lines| && |selected| == n && Valid() && (n == 0 ==> reinit == 0)
        invariant forall k :: 0 <= k < n ==> (selected[k] <==> Contains(t, [LEFT] + lines[k] + [RIGHT]) != vflag)
        invariant forall s :: s in seen ==> s in old(seen) || Starts(t, s) || InLines(t, lines, s)
      {
        if n > 0 && reinit == 1 {
          ok := Clearg();
          if !ok {
            return;
          }
        }
        var found: bool;
        assert [LEFT] + (lines[n] + [RIGHT]) == [LEFT] + lines[n] + [RIGHT];
        ok, found := Scan(lines[n] + [RIGHT]);
        if !ok {
          return;
        }
        selected := selected + [found != vflag];
        n := n + 1;
      }
    }
  }

  /** The set that the automaton comes to after some of u. */
  ghost predicate Along(t: Tree, u: Str, s: set<int>)
    requires t.Ok()
  {
    exists k :: 1 <= k <= |u| && s == Reach(t, u[..k])
  }

  ghost predicate Starts(t: Tree, s: set<int>)
    requires t.Ok()
  {
    s == Begin(t) || s == Step(t, Begin(t), LEFT)
  }

  ghost predicate InLines(t: Tree, lines: seq<Str>, s: set<int>)
    requires t.Ok()
  {
    exists n :: 0 <= n < |lines| && Along(t, [LEFT] + lines[n] + [RIGHT], s)
  }

  /** The automaton comes to the set s before or in one of the lines of the files. */
  ghost predicate Occurs(t: Tree, files: seq<seq<Str>>, s: set<int>)
    requires t.Ok()
  {
    Starts(t, s) || exists f :: 0 <= f < |files| && InLines(t, files[f], s)
  }

  /** What one line may hold: 7-bit characters, neither the record separator nor the mark for ^. */
  ghost predicate Text(s: Str) {
    forall k :: 0 <= k < |s| ==> 0 <= s[k] < LEFT && s[k] != RIGHT
  }

  /** A line as it is read, with the record separator put back. */
  ghost predicate Line(buf: Str) {
    |buf| > 0 && Text(buf[..|buf| - 1]) && buf[|buf| - 1] == RIGHT
  }

  lemma OnesAt(marks: seq<int>, i: int)
    requires 1 <= i < |marks|
    ensures marks[i] == 1 <==> i in Ones(marks)
  {
  }

  lemma NoneBelow(t: Tree, s: set<int>)
    requires t.Ok() && ArePositions(t, s)
    ensures Below(s, 3) == {}
  {
    forall p
      ensures p !in Below(s, 3)
    {
      assert p in s ==> IsPosition(t, p);
    }
    NoMember(Below(s, 3));
  }

  lemma UpStart(t: Tree, pos: seq<int>, p: int, size: int, s: set<int>)
    requires t.Ok() && ArePositions(t, s) && 0 <= p && 0 <= size && p + size < |pos|
    ensures PartUp(pos, pos[p := size], p, size, Below(s, 3)) && |Below(s, 3)| == 0
  {
    NoneBelow(t, s);
    assert pos[p := size][p + 1..p + 1] == [];
    NoMember(Elems(pos[p := size][p + 1..p + 1]));
  }

  lemma UpDone(was: seq<int>, pos: seq<int>, p: int, s: set<int>)
    requires PartUp(was, pos, p, |s|, s)
    ensures Up(pos, p, s) && Same(was, pos, 0, p) && Same(was, pos, p + 1 + |s|, |was|)
  {
  }

  lemma DownStart(t: Tree, pos: seq<int>, f: int, size: int, s: set<int>)
    requires t.Ok() && ArePositions(t, s) && 0 <= size <= f < |pos|
    ensures PartDown(pos, pos[f := size], f, size, Below(s, 3)) && |Below(s, 3)| == 0
  {
    NoneBelow(t, s);
    assert pos[f := size][f..f] == [];
    NoMember(Elems(pos[f := size][f..f]));
  }

  lemma DownDone(was: seq<int>, pos: seq<int>, f: int, s: set<int>)
    requires PartDown(was, pos, f, |s|, s)
    ensures Down(pos, f, s) && Same(was, pos, 0, f - |s|) && Same(was, pos, f + 1, |was|)
  {
  }

  lemma BelowAll(t: Tree, s: set<int>)
    requires t.Ok() && ArePositions(t, s)
    ensures Below(s, t.line + 1) == s
  {
    forall p
      ensures p in Below(s, t.line + 1) <==> p in s
    {
      assert p in s ==> IsPosition(t, p);
    }
  }

  lemma SpreadNone(block: seq<int>, before: set<int>)
    ensures before + Elems(block[|block|..]) == before
  {
    assert block[|block|..] == [];
    NoMember(Elems(block[|block|..]));
  }

  /** Marking one more position of a block, from the back. */
  lemma SpreadStep(t: Tree, marks: seq<int>, before: set<int>, block: seq<int>, j: nat, x: int)
    requires t.Ok() && |marks| == t.line + 1 && marks[1] != 1 && marks[2] != 1 && ArePositions(t, Elems(block))
    requires j < |block| && x == block[j] && Ones(marks) == before + Elems(block[j + 1..])
    ensures 3 <= x < |marks| && Ones(marks[x := 1]) == before + Elems(block[j..])
    ensures |Ones(marks[x := 1])| == |Ones(marks)| + if marks[x] == 1 then 0 else 1
    ensures marks[x] == 1 ==> marks[x := 1] == marks
  {
    hide Ones;
    assert x in Elems(block);
    assert IsPosition(t, x);
    OnesMore(marks, before, block, j);
  }

  lemma ReachLeft(t: Tree, u: Str)
    requires t.Ok() && |u| > 0 && u[0] == LEFT
    ensures Reach(t, u[..1]) == Step(t, Begin(t), LEFT)
  {
    assert u[..1][..0] == [];
    assert Reach(t, u[..0]) == Begin(t);
    ReachNext(t, u, 0);
  }

  /** The lines of a file that are selected: those that contain a match or, with vflag, the others. */
  ghost predicate Chosen(t: Tree, lines: seq<Str>, selected: seq<bool>, vflag: bool)
    requires t.Ok()
  {
    |selected| == |lines| &&
    forall n :: 0 <= n < |lines| ==> (selected[n] <==> Contains(t, [LEFT] + lines[n] + [RIGHT]) != vflag)
  }

  ghost predicate TextFile(lines: seq<Str>) {
    forall n :: 0 <= n < |lines| ==> Text(lines[n])
  }

  /** From the tree to the selected lines of one file after the other, or of the standard input alone. */
  method Egrep(t: Tree, files: seq<seq<Str>>, vflag: bool)
    returns (ok: bool, selected: seq<seq<bool>>, ghost books: Ledger, ghost seen: set<set<int>>)
    requires t.Ok()
    requires forall f :: 0 <= f < |files| ==> TextFile(files[f])
    ensures ok ==> |selected| == |files|
    ensures ok ==> forall f :: 0 <= f < |files| ==> Chosen(t, files[f], selected[f], vflag)
    ensures !ok ==> NoRoom(t, books, seen) && forall s :: s in seen ==> Occurs(t, files, s)
    ensures Small(t) ==> ok
  {
    hide Chosen, TextFile, Starts, InLines, NoRoom, Small, Matcher.Valid, Matcher.Core;
    var m := new Matcher(t);
    selected := [];
    ok := m.Cgotofn();
    AtStart(t);
    books, seen := m.Books(), m.seen;
    if !ok {
      NotSmall(t, books, seen);
      return;
    }
    var f := 0;
    while f < |files|
      invariant 0 <= f <= |files| && |selected| == f && ok && fresh(m) && m.t == t && m.Valid()
      invariant forall k :: 0 <= k < f ==> Chosen(t, files[k], selected[k], vflag)
      invariant forall s :: s in m.seen ==> Occurs(t, files, s)
    {
      m.CoreOf();
      if m.reinit == 1 {
        ok := m.Clearg();
        books, seen := m.Books(), m.seen;
        if !ok {
          NotSmall(t, books, seen);
          return;
        }
      }
      var chosen: seq<bool>;
      ok, chosen := m.Execute(files[f], vflag);
      books, seen := m.Books(), m.seen;
      if !ok {
        NotSmall(t, books, seen);
        return;
      }
      selected := selected + [chosen];
      f := f + 1;
    }
  }

  lemma AtStart(t: Tree)
    requires t.Ok()
    ensures Starts(t, Begin(t)) && Starts(t, Step(t, Begin(t), LEFT))
  {
  }
}
