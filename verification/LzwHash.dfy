/** The dictionary of compress: open addressing with a secondary step, in a table of prime size. */
module LzwHash {
  import opened Bits
  import opened FiniteSets
  import opened LzwCodes

  const HSIZE := 69001

  // ----- The table size is prime, so a probe sequence visits every slot -----

  predicate NoDivisor(d: nat)
    requires d > 0
  {
    HSIZE % d != 0
  }

  predicate TwentyClear(d: nat)
    requires d > 0
  {
    && NoDivisor(d + 0) && NoDivisor(d + 1) && NoDivisor(d + 2) && NoDivisor(d + 3) && NoDivisor(d + 4)
    && NoDivisor(d + 5) && NoDivisor(d + 6) && NoDivisor(d + 7) && NoDivisor(d + 8) && NoDivisor(d + 9)
    && NoDivisor(d + 10) && NoDivisor(d + 11) && NoDivisor(d + 12) && NoDivisor(d + 13) && NoDivisor(d + 14)
    && NoDivisor(d + 15) && NoDivisor(d + 16) && NoDivisor(d + 17) && NoDivisor(d + 18) && NoDivisor(d + 19)
  }

  lemma Within(a: nat, d: nat)
    requires a > 0 && TwentyClear(a) && a <= d < a + 20
    ensures NoDivisor(d)
  {
    hide NoDivisor;
    var i := d - a;
    assert d == a + i;
    if i < 10 { if i < 5 {} } else if i < 15 {}
  }

  lemma NoSmallDivisor(d: nat)
    requires 2 <= d <= 262
    ensures HSIZE % d != 0
  {
    if d < 22 { Within(2, d); } else if d < 42 { Within(22, d); }
    else if d < 62 { Within(42, d); } else if d < 82 { Within(62, d); }
    else if d < 102 { Within(82, d); } else if d < 122 { Within(102, d); }
    else if d < 142 { Within(122, d); } else if d < 162 { Within(142, d); }
    else if d < 182 { Within(162, d); } else if d < 202 { Within(182, d); }
    else if d < 222 { Within(202, d); } else if d < 242 { Within(222, d); }
    else if d < 262 { Within(242, d); }
    else { assert d == 262; }
  }

  lemma TableSizePrime(d: nat)
    requires 2 <= d < HSIZE
    ensures HSIZE % d != 0
  {
    if HSIZE % d == 0 {
      var q := HSIZE / d;
      assert d * q == HSIZE;
      SmallerFactor(d, q, 263);
      if d <= 262 {
        NoSmallDivisor(d);
      } else {
        assert q >= 2 by { if q <= 1 { MulMono(d, q, 1); } }
        DivUnique(HSIZE, q, d, 0);
        NoSmallDivisor(q);
      }
    }
  }

  lemma SmallerFactor(d: nat, q: nat, m: nat)
    requires d * q < m * m
    ensures d < m || q < m
  {
    if d >= m && q >= m { MulMono(d, m, q); MulMono(m, m, d); }
  }

  /** Euclid: what divides t * d and is prime to every d below it divides t. */
  lemma {:induction false} Euclid(t: int, d: nat, k: int)
    requires 1 <= d < HSIZE && t * d == HSIZE * k
    ensures t % HSIZE == 0
    decreases d
  {
    if d > 1 {
      var q, r := HSIZE / d, HSIZE % d;
      TableSizePrime(d);
      Descend(t, d, k, q, r);
      Euclid(t, r, t - q * k);
    }
  }

  lemma Descend(t: int, d: nat, k: int, q: nat, r: nat)
    requires t * d == HSIZE * k && HSIZE == d * q + r
    ensures t * r == HSIZE * (t - q * k)
  {
    assert t * r == t * HSIZE - (t * d) * q;
  }

  /** The slot after t steps of disp from slot i. */
  function Slot(i: nat, disp: nat, t: nat): (r: nat)
    ensures r < HSIZE
  {
    (i - t * disp) % HSIZE
  }

  lemma SlotNext(i: nat, disp: nat, t: nat)
    requires disp < HSIZE
    ensures var s := Slot(i, disp, t) as int - disp;
      Slot(i, disp, t + 1) == if s < 0 then s + HSIZE else s
  {
    var x := i - t * disp;
    assert i - (t + 1) * disp == x - disp;
    var s := x % HSIZE - disp;
    assert (x - disp) == HSIZE * (x / HSIZE) + s;
    if s < 0 {
      ModUnique(x - disp, x / HSIZE - 1, s + HSIZE);
    } else {
      ModUnique(x - disp, x / HSIZE, s);
    }
  }

  lemma ModUnique(x: int, q: int, r: int)
    requires x == HSIZE * q + r && 0 <= r < HSIZE
    ensures x % HSIZE == r
  {
  }

  /** Within a full turn no slot is met twice. */
  lemma SlotsDistinct(i: nat, disp: nat, s: nat, t: nat)
    requires 0 < disp < HSIZE && s < t < s + HSIZE
    ensures Slot(i, disp, s) != Slot(i, disp, t)
  {
    if Slot(i, disp, s) == Slot(i, disp, t) {
      var x, y := i - s * disp, i - t * disp;
      assert x - y == HSIZE * (x / HSIZE - y / HSIZE);
      assert (t - s) * disp == x - y;
      Euclid(t - s, disp, x / HSIZE - y / HSIZE);
    }
  }

  // ----- The table -----

  /** (c << hshift) ^ ent; hshift is 8 for this table size. */
  function FirstSlot(c: byte, ent: nat): (i: nat)
    requires ent < 65536
    ensures i < 65536 < HSIZE
  {
    Pow2Values();
    XorBound(c * 256, ent, 16);
    Xor(c * 256, ent)
  }

  /** The key of a string: a known code followed by one more byte. */
  function Fcode(maxbits: nat, c: byte, ent: nat): nat {
    c * Pow2(maxbits) + ent
  }

  lemma FcodeParts(maxbits: nat, c: byte, ent: nat)
    requires ent < Pow2(maxbits)
    ensures Fcode(maxbits, c, ent) % Pow2(maxbits) == ent && Fcode(maxbits, c, ent) / Pow2(maxbits) == c
  {
    DivUnique(Fcode(maxbits, c, ent), Pow2(maxbits), c, ent);
  }

  // ----- Where a key is found -----

  /** The first slot for a key. */
  ghost function Home(maxbits: nat, key: nat): (i: nat)
    ensures i < HSIZE
  {
    var ent, c := key % Pow2(maxbits), key / Pow2(maxbits);
    if c < 256 && ent < 65536 then FirstSlot(c, ent) else 0
  }

  lemma HomeOf(maxbits: nat, c: byte, ent: nat)
    requires ent < Pow2(maxbits) && ent < 65536
    ensures Home(maxbits, Fcode(maxbits, c, ent)) == FirstSlot(c, ent)
  {
    hide FirstSlot;
    FcodeParts(maxbits, c, ent);
  }

  /** The slot that a probe from start comes to after t steps. */
  ghost function Path(start: nat, t: nat): (i: nat)
    ensures i < HSIZE
  {
    Slot(start, if start == 0 then 1 else if start < HSIZE then HSIZE - start else 0, t)
  }

  /** A probe from start goes on for t steps: the first slot is not empty, and all after it hold a positive key. */
  ghost predicate Passes(h: seq<int>, start: nat, t: nat)
    requires |h| == HSIZE
  {
    (t > 0 ==> h[Path(start, 0)] >= 0) && forall s: nat :: 1 <= s < t ==> h[Path(start, s)] > 0
  }

  /** A probe for the key comes to slot i, unless it is found before. */
  ghost predicate Reaches(h: seq<int>, maxbits: nat, key: nat, i: nat)
    requires |h| == HSIZE
  {
    exists t: nat :: i == Path(Home(maxbits, key), t) && Passes(h, Home(maxbits, key), t)
  }

  /** Every positive key stands where a probe for it comes. */
  ghost predicate Findable(h: seq<int>, maxbits: nat)
    requires |h| == HSIZE
  {
    forall i :: 0 <= i < HSIZE && h[i] > 0 ==> Reaches(h, maxbits, h[i], i)
  }

  /** A slot that is filled, or filled again after key 0, bars no probe that could pass. */
  lemma FilledPasses(h: seq<int>, i: nat, key: nat, start: nat, t: nat)
    requires |h| == HSIZE && i < HSIZE && h[i] <= 0 && Passes(h, start, t)
    ensures Passes(h[i := key], start, t)
  {
    hide Path;
  }

  lemma FilledFindable(h: seq<int>, maxbits: nat, i: nat, key: nat)
    requires |h| == HSIZE && i < HSIZE && h[i] <= 0 && Findable(h, maxbits) && Reaches(h, maxbits, key, i)
    ensures Findable(h[i := key], maxbits)
  {
    hide Path, Home, Passes;
    var g := h[i := key];
    forall j | 0 <= j < HSIZE && g[j] > 0 ensures Reaches(g, maxbits, g[j], j) {
      assert Reaches(h, maxbits, g[j], j);
      var t: nat :| j == Path(Home(maxbits, g[j]), t) && Passes(h, Home(maxbits, g[j]), t);
      FilledPasses(h, i, key, Home(maxbits, g[j]), t);
    }
  }

  /** When the probe ends in a slot that may be taken the key is nowhere, unless it is 0. */
  lemma NotThere(h: seq<int>, maxbits: nat, key: nat, t: nat)
    requires |h| == HSIZE && Findable(h, maxbits) && key > 0
    requires forall s: nat :: s <= t ==> h[Path(Home(maxbits, key), s)] != key
    requires h[Path(Home(maxbits, key), t)] <= 0 && (t == 0 ==> h[Path(Home(maxbits, key), 0)] < 0)
    ensures forall j :: 0 <= j < HSIZE ==> h[j] != key
  {
    hide Path, Home;
    forall j | 0 <= j < HSIZE && Reaches(h, maxbits, key, j) ensures h[j] != key {
      var u: nat :| j == Path(Home(maxbits, key), u) && Passes(h, Home(maxbits, key), u);
      if u > t { assert h[Path(Home(maxbits, key), 0)] >= 0; }
    }
  }

  /** A probe has made t steps, without the key and without an end. */
  ghost predicate Probing(h: seq<int>, start: nat, key: nat, t: nat)
    requires |h| == HSIZE
  {
    Passes(h, start, t + 1) && forall s: nat :: s <= t ==> h[Path(start, s)] != key
  }

  lemma ProbeFirst(h: seq<int>, start: nat, key: nat)
    requires |h| == HSIZE && start < HSIZE && h[start] >= 0 && h[start] != key
    ensures Probing(h, start, key, 0)
  {
    PathStart(start);
    hide Path;
  }

  lemma ProbeNext(h: seq<int>, maxbits: nat, key: nat, t: nat)
    requires |h| == HSIZE && Probing(h, Home(maxbits, key), key, t)
    ensures var i := Path(Home(maxbits, key), t + 1);
      h[i] != key ==>
        if h[i] > 0 then Probing(h, Home(maxbits, key), key, t + 1)
        else Reaches(h, maxbits, key, i) &&
             (Findable(h, maxbits) && key > 0 ==> forall j :: 0 <= j < HSIZE ==> h[j] != key)
  {
    hide Path, Home, Findable;
    var i := Path(Home(maxbits, key), t + 1);
    if h[i] != key && h[i] <= 0 && Findable(h, maxbits) && key > 0 {
      NotThere(h, maxbits, key, t + 1);
    }
  }

  lemma NothingFindable(h: seq<int>, maxbits: nat)
    requires |h| == HSIZE && forall i :: 0 <= i < HSIZE ==> h[i] == -1
    ensures Findable(h, maxbits)
  {
  }

  lemma PathStart(start: nat)
    requires start < HSIZE
    ensures Path(start, 0) == start
  {
  }

  /** The entry says truly which string its code stands for. */
  ghost predicate EntryOk(maxbits: nat, etab: seq<Text>, key: nat, code: nat) {
    var ent, c := key % Pow2(maxbits), key / Pow2(maxbits);
    && 0 <= ent < |etab| && code < |etab| && 0 <= c < 256
    && etab[code] == etab[ent] + [c as byte]
  }

  class Dictionary {
    const maxbits: nat
    const htab: array<int>
    const codetab: array<nat>

    ghost predicate Sized() {
      htab.Length == HSIZE && codetab.Length == HSIZE && maxbits <= BITS
    }

    ghost predicate Sound(etab: seq<Text>)
      requires Sized()
      reads htab, codetab
    {
      forall i :: 0 <= i < HSIZE && htab[i] >= 0 ==> EntryOk(maxbits, etab, htab[i], codetab[i])
    }

    /** The slots a probe passes over. */
    ghost function Taken(): set<int>
      requires Sized()
      reads htab
    {
      set i | 0 <= i < HSIZE && htab[i] > 0
    }

    constructor (maxbits: nat)
      requires maxbits <= BITS
      ensures this.maxbits == maxbits && Sized() && fresh(htab) && fresh(codetab)
    {
      this.maxbits := maxbits;
      htab := new int[HSIZE];
      codetab := new nat[HSIZE];
    }

    /** Empty the table, sixteen slots at a time from the top. */
    method ClHash(hsize: nat)
      requires Sized() && hsize == HSIZE
      modifies htab
      ensures forall i :: 0 <= i < HSIZE ==> htab[i] == -1
      ensures Taken() == {} && Findable(htab[..], maxbits)
    {
      hide Findable, Reaches, Passes;
      var p: int := hsize;
      var i: int := hsize - 16;
      while true
        invariant p == i + 16 && 16 <= p <= HSIZE
        invariant forall j :: p <= j < HSIZE ==> htab[j] == -1
        decreases i
      {
        forall j | p - 16 <= j < p { htab[j] := -1; }
        p := p - 16;
        i := i - 16;
        if i < 0 { break; }
      }
      i := i + 16;
      while i > 0
        invariant 0 <= i == p <= HSIZE
        invariant forall j :: p <= j < HSIZE ==> htab[j] == -1
      {
        p := p - 1;
        htab[p] := -1;
        i := i - 1;
      }
      NothingFindable(htab[..], maxbits);
    }

    /**
     Search for the string of ent followed by c. On a miss, i is a slot that may be overwritten:
     it is empty, or it holds key 0, which the probe takes for empty. A miss means that the key is
     not in the table, unless it is 0.
     */
    method Lookup(c: byte, ent: nat) returns (hit: bool, i: nat)
      requires Sized() && ent < 65536 && ent < Pow2(maxbits) && |Taken()| < HSIZE - 1 && Findable(htab[..], maxbits)
      ensures i < HSIZE
      ensures hit ==> htab[i] == Fcode(maxbits, c, ent)
      ensures !hit ==> htab[i] <= 0 && Reaches(htab[..], maxbits, Fcode(maxbits, c, ent), i)
      ensures !hit ==> Fcode(maxbits, c, ent) == 0 || forall j :: 0 <= j < HSIZE ==> htab[j] != Fcode(maxbits, c, ent)
    {
      hide FirstSlot, Home, Fcode, Findable, Path;
      var fcode := Fcode(maxbits, c, ent);
      HomeOf(maxbits, c, ent);
      i := FirstSlot(c, ent);
      PathStart(i);
      if htab[i] == fcode {
        return true, i;
      } else if htab[i] < 0 {
        assert Passes(htab[..], i, 0);
        if fcode > 0 { NotThere(htab[..], maxbits, fcode, 0); }
        return false, i;
      }
      hit, i := Probe(fcode, i);
    }

    method Probe(fcode: nat, start: nat) returns (hit: bool, i: nat)
      requires Sized() && start == Home(maxbits, fcode) && |Taken()| < HSIZE - 1 && Findable(htab[..], maxbits)
      requires htab[start] >= 0 && htab[start] != fcode
      ensures i < HSIZE
      ensures hit ==> htab[i] == fcode
      ensures !hit ==> htab[i] <= 0 && Reaches(htab[..], maxbits, fcode, i)
      ensures !hit ==> fcode == 0 || forall j :: 0 <= j < HSIZE ==> htab[j] != fcode
    {
      hide Findable, Home, Slot, Path, Probing, Reaches, Turn;
      i := start;
      var disp := HSIZE - i;
      if i == 0 {
        disp := 1;
      }
      ghost var t, seen: set<int> := 0, {};
      ghost var h := htab[..];
      NoStep(start, disp);
      ProbeFirst(h, start, fcode);
      while true
        invariant i == Slot(start, disp, t) && Turn(start, disp, t, seen)
        invariant seen <= Taken() && h == htab[..] && Probing(h, start, fcode, t)
        decreases HSIZE - t
      {
        SubsetSize(seen, Taken());
        TurnSize(start, disp, t, seen);
        SlotNext(start, disp, t);
        PathIs(start, t + 1);
        ProbeNext(h, maxbits, fcode, t);
        NewSlot(start, disp, t, seen);
        i := if i - disp < 0 then i - disp + HSIZE else i - disp;
        t, seen := t + 1, seen + {i};
        if htab[i] == fcode {
          return true, i;
        }
        if htab[i] <= 0 {
          return false, i;
        }
      }
    }
  }

  lemma TurnSize(i: nat, disp: nat, t: nat, seen: set<int>)
    requires Turn(i, disp, t, seen)
    ensures |seen| == t
  {
  }

  lemma PathIs(start: nat, t: nat)
    requires start < HSIZE
    ensures Path(start, t) == Slot(start, if start == 0 then 1 else HSIZE - start, t)
  {
  }

  lemma NoStep(i: nat, disp: nat)
    requires i < HSIZE
    ensures Slot(i, disp, 0) == i && Turn(i, disp, 0, {})
  {
  }

  /** seen holds the slots of the first t steps, all different. */
  ghost predicate Turn(i: nat, disp: nat, t: nat, seen: set<int>) {
    |seen| == t && forall x :: x in seen ==> exists s: nat :: 1 <= s <= t && x == Slot(i, disp, s)
  }

  lemma NewSlot(i: nat, disp: nat, t: nat, seen: set<int>)
    requires 0 < disp < HSIZE && t < HSIZE && Turn(i, disp, t, seen)
    ensures Turn(i, disp, t + 1, seen + {Slot(i, disp, t + 1) as int})
  {
    var y := Slot(i, disp, t + 1);
    if y in seen {
      var s: nat :| 1 <= s <= t && y == Slot(i, disp, s);
      SlotsDistinct(i, disp, s, t + 1);
    }
  }
}
