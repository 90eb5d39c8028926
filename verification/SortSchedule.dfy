/** The order in which sort merges its runs. */
module SortSchedule {
  import opened SortTree
  import opened SortFlow
  import opened SortMerge

  /** One merge: the files from .0 up to .1 were its input. */
  type Span = (int, int)

  /** The merges take the files from a0 up to a one after the other, at most nway at a time. */
  ghost predicate InTurn(log: seq<Span>, a0: int, a: int, nway: int) {
    if log == [] then a == a0
    else
      var last := log[|log| - 1];
      last.1 == a && last.0 < last.1 <= last.0 + nway && InTurn(log[..|log| - 1], a0, last.0, nway)
  }

  /** Every merge but the first takes nway inputs, and the first one takes two at least. */
  ghost predicate Filled(log: seq<Span>, nway: int) {
    forall k :: 0 <= k < |log| ==> FilledAt(log, k, nway)
  }

  ghost predicate FilledAt(log: seq<Span>, k: int, nway: int)
    requires 0 <= k < |log|
  {
    log[k].1 - log[k].0 == nway || (k == 0 && 2 <= log[k].1 - log[k].0 < nway)
  }

  lemma FilledMore(log: seq<Span>, nway: int, a: int, b: int)
    requires Filled(log, nway) && (b - a == nway || (log == [] && 2 <= b - a < nway))
    ensures Filled(log + [(a, b)], nway)
  {
    var more := log + [(a, b)];
    forall k | 0 <= k < |more| ensures FilledAt(more, k, nway) {
      assert k < |log| ==> FilledAt(log, k, nway);
    }
  }

  lemma InTurnMore(log: seq<Span>, a0: int, a: int, nway: int, b: int)
    requires InTurn(log, a0, a, nway) && a < b <= a + nway
    ensures InTurn(log + [(a, b)], a0, b, nway)
  {
    assert (log + [(a, b)])[..|log|] == log;
  }

  ghost predicate Runs<T>(compare: (T, T) -> int, files: seq<seq<T>>) {
    forall i :: 0 <= i < |files| ==> Ascending(compare, files[i])
  }

  lemma {:induction false} SumConcat<T>(a: seq<seq<T>>, b: seq<seq<T>>)
    ensures Sum(a + b) == Sum(a) + Sum(b)
    decreases |b|
  {
    if b == [] {
      assert a + b == a;
    } else {
      var n := |b| - 1;
      assert (a + b)[..|a + b| - 1] == a + b[..n];
      SumConcat(a, b[..n]);
    }
  }

  /** Replacing the first runs by what they merge into leaves the same records to be merged. */
  lemma SumMerged<T>(files: seq<seq<T>>, a: int, b: int, out: seq<T>)
    requires 0 <= a <= b <= |files| && multiset(out) == Sum(files[a..b])
    ensures Sum((files + [out])[b..]) == Sum(files[a..])
  {
    assert files[a..] == files[a..b] + files[b..];
    assert (files + [out])[b..] == files[b..] + [out];
    SumConcat(files[a..b], files[b..]);
    SumSnoc(files[b..], out);
  }

  /** Merges the files from a up to b into a new one. */
  method MergeInto<T(==,!new)>(row: Row<T>, files: seq<seq<T>>, a: int, b: int, ghost all: multiset<T>)
    returns (files': seq<seq<T>>)
    requires row.Valid() && Runs(row.compare, files) && 0 <= a < b <= |files| && b - a <= N && Sum(files[a..]) == all
    modifies row
    ensures row.Valid() && Runs(row.compare, files') && |files'| == |files| + 1 && files'[..|files|] == files
    ensures Sum(files'[b..]) == all
  {
    hide Sum, Ascending;
    var out := Merge(row, files[a..b]);
    SumMerged(files, a, b, out);
    files' := files + [out];
  }

  /** The number of runs left is one more than a multiple of nway - 1. */
  ghost predicate Even(n: int, nway: int, q: int) {
    n == 1 + q * (nway - 1)
  }

  lemma EvenStep(n: int, nway: int, q: int)
    requires Even(n, nway, q)
    ensures Even(n - nway + 1, nway, q - 1)
  {
    assert (q - 1) * (nway - 1) == q * (nway - 1) - (nway - 1);
  }

  lemma EvenLast(n: int, nway: int, q: int)
    requires Even(n, nway, q) && nway >= 2 && 2 <= n <= nway
    ensures n == nway
  {
    Multiples(q, nway - 1);
  }

  lemma Multiples(q: int, d: int)
    requires d >= 1
    ensures q >= 2 ==> q * d >= 2 * d
    ensures q <= 0 ==> q * d <= 0
  {
  }

  /** How many runs to merge first, so that all later merges take nway. */
  lemma Leftover(n: int, nway: int) returns (q: int)
    requires n > nway >= 2
    ensures var i := if n % (nway - 1) == 0 then nway - 1 else n % (nway - 1);
      1 <= i < nway && Even(n - i + 1, nway, q)
  {
    var d := nway - 1;
    var r := n % d;
    q := n / d;
    assert n == q * d + r;
    if r == 0 {
      assert (q - 1) * d == q * d - d;
      q := q - 1;
    }
  }

  /**
   Merges the files from a0 on, however many there are, nway or fewer at a time. Every file and every
   intermediate result is merged once; when there were more than nway, all merges but the first have nway inputs, so
   that none could be saved.
   */
  method MergeAll<T(==,!new)>(row: Row<T>, files0: seq<seq<T>>, a0: int, nway: int)
    returns (out: seq<T>, ghost log: seq<Span>, ghost nfiles: int)
    requires row.Valid() && Runs(row.compare, files0) && 0 <= a0 <= |files0| && 2 <= nway <= N
    modifies row
    ensures row.Valid() && Ascending(row.compare, out) && multiset(out) == Sum(files0[a0..])
    ensures InTurn(log, a0, nfiles, nway) && nfiles == |files0| + (if log == [] then 0 else |log| - 1)
    ensures |files0| - a0 > nway ==> log != [] && Filled(log, nway) && log[|log| - 1].1 - log[|log| - 1].0 == nway
    ensures |files0| - a0 <= nway ==> nfiles == |files0| && |log| <= 1
  {
    hide Sum, Ascending, Runs, InTurn, Even, Filled;
    var files, a := files0, a0;
    ghost var all, q := Sum(files0[a0..]), 0;
    log := [];
    InTurnNone(a0, nway);
    NoneFilled(nway);
    var i := |files| - a;
    ghost var many := i > nway;
    if i > nway {
      q := Leftover(i, nway);
      i := i % (nway - 1);
      if i == 0 {
        i := nway - 1;
      }
      if i != 1 {
        InTurnMore(log, a0, a, nway, a + i);
        FilledMore(log, nway, a, a + i);
        files := MergeInto(row, files, a, a + i, all);
        log := log + [(a, a + i)];
        a := a + i;
      }
    }
    while a + nway < |files|
      invariant 0 <= a <= |files| && row.Valid() && Runs(row.compare, files) && Sum(files[a..]) == all
      invariant InTurn(log, a0, a, nway) && |files| == |files0| + |log| && (many ==> Filled(log, nway))
      invariant many ==> Even(|files| - a, nway, q) && |files| - a >= 2
      invariant !many ==> files == files0 && a == a0 && log == []
      decreases |files| - a
    {
      i := a + nway;
      if i >= |files| {
        i := |files|;
      }
      EvenStep(|files| - a, nway, q);
      InTurnMore(log, a0, a, nway, i);
      FilledMore(log, nway, a, i);
      files := MergeInto(row, files, a, i, all);
      log := log + [(a, i)];
      a := i;
      q := q - 1;
    }
    nfiles := |files|;
    if many {
      EvenLast(|files| - a, nway, q);
    }
    if a != |files| {
      InTurnMore(log, a0, a, nway, |files|);
      if many { FilledMore(log, nway, a, |files|); }
      RunsPart(row.compare, files, a);
      assert files[a..|files|] == files[a..];
      out := Merge(row, files[a..|files|]);
      log := log + [(a, |files|)];
    } else {
      out := [];
      NoRuns(row.compare, files, a);
    }
  }

  lemma InTurnNone(a0: int, nway: int)
    ensures InTurn([], a0, a0, nway)
  {
  }

  lemma NoneFilled(nway: int)
    ensures Filled([], nway)
  {
  }

  lemma RunsPart<T>(compare: (T, T) -> int, files: seq<seq<T>>, a: int)
    requires Runs(compare, files) && 0 <= a <= |files|
    ensures forall i :: 0 <= i < |files[a..]| ==> Ascending(compare, files[a..][i])
  {
    forall i | 0 <= i < |files[a..]| ensures Ascending(compare, files[a..][i]) {
      assert files[a..][i] == files[a + i];
    }
  }

  lemma NoRuns<T>(compare: (T, T) -> int, files: seq<seq<T>>, a: int)
    requires a == |files|
    ensures Ascending<T>(compare, []) && Sum(files[a..]) == multiset{}
  {
    assert files[a..] == [];
  }
}
