/**
 The code stream of compress: what a sequence of codes means, and where each code lies in the file.
 Both programs are proved against these definitions; neither program uses them to compute.
 */
module LzwCodes {
  import opened Bits

  const INIT_BITS := 9
  const BITS := 16
  const FIRST := 257
  const CLEAR := 256

  /** The parameters in the third header byte. */
  datatype Params = Params(maxbits: nat, block: bool) {
    ghost predicate Valid() { INIT_BITS <= maxbits <= BITS }

    /** No code reaches this value. */
    function MaxMaxCode(): nat { Pow2(maxbits) }

    function FirstFree(): nat { if block then FIRST else 256 }
  }

  function MaxCode(bits: nat): int { Pow2(bits) - 1 }

  // ----- Meaning of a code sequence -----

  type Text = seq<byte>

  /** Before any code; within a run of codes; or just after CLEAR. */
  datatype Phase = Start | Running | Cleared

  /** tab[c] is the string of code c; prev is the previous code; out is what has been written. */
  datatype Dec = Dec(phase: Phase, tab: seq<Text>, prev: nat, out: Text)

  function Singles(): (t: seq<Text>)
    ensures |t| == 256 && forall c :: 0 <= c < 256 ==> t[c] == [c]
  {
    seq(256, c requires 0 <= c < 256 => [c])
  }

  /** Code 256 never names a string in block mode, and keeps an empty placeholder. */
  function InitTab(ps: Params): (t: seq<Text>)
    ensures |t| == ps.FirstFree()
    ensures forall c :: 0 <= c < 256 ==> t[c] == [c]
  {
    if ps.block then Singles() + [[]] else Singles()
  }

  function InitDec(ps: Params): Dec { Dec(Start, InitTab(ps), 0, []) }

  /** The table after the next code, when the string of that code begins with ch. */
  function NextTab(ps: Params, d: Dec, ch: byte): seq<Text>
    requires d.phase.Running? ==> d.prev < |d.tab|
  {
    match d.phase
    case Start => d.tab
    case Cleared => d.tab + [[]]
    case Running => if |d.tab| < ps.MaxMaxCode() then d.tab + [d.tab[d.prev] + [ch]] else d.tab
  }

  predicate IsClear(ps: Params, d: Dec, c: nat) { ps.block && d.phase.Running? && c == CLEAR }

  /** The codes a well-formed stream may have next. */
  predicate Legal(ps: Params, d: Dec, c: nat) {
    match d.phase
    case Start => c < 256
    case Cleared => c < 256
    case Running =>
      || (ps.block && c == CLEAR)
      || c < |d.tab|
      || (c == |d.tab| < ps.MaxMaxCode())
  }

  /** The string of code c, which may be the entry that is about to be made. */
  function StringOf(d: Dec, c: nat): Text {
    if c < |d.tab| then d.tab[c]
    else if d.prev < |d.tab| && |d.tab[d.prev]| > 0 then d.tab[d.prev] + [d.tab[d.prev][0]]
    else []
  }

  function Step(ps: Params, d: Dec, c: nat): Dec {
    if IsClear(ps, d, c) then
      Dec(Cleared, Singles(), d.prev, d.out)
    else
      var s := StringOf(d, c);
      if |s| > 0 && (d.phase.Running? ==> d.prev < |d.tab|) then
        Dec(Running, NextTab(ps, d, s[0]), c, d.out + s)
      else
        d
  }

  /** What holds of the decoder's state along a legal stream. */
  ghost predicate Sane(ps: Params, d: Dec) {
    && ps.Valid()
    && (d.phase.Cleared? ==> ps.block && d.tab == Singles())
    && (d.phase.Start? ==> d.tab == InitTab(ps))
    && (d.phase.Running? ==> |d.tab| >= ps.FirstFree() && d.prev < |d.tab| && d.tab[d.prev] != [])
    && |d.tab| >= 256
    && (ps.block && |d.tab| > CLEAR ==> d.tab[CLEAR] == [])
    && |d.tab| <= ps.MaxMaxCode()
    && (forall c :: 0 <= c < 256 ==> d.tab[c] == [c])
    && (forall c :: 256 <= c < |d.tab| ==> |d.tab[c]| <= c - 254)
    && (forall c :: 256 <= c < |d.tab| && !(ps.block && c == CLEAR) ==> |d.tab[c]| >= 1)
  }

  lemma MaxMaxBounds(ps: Params)
    requires ps.Valid()
    ensures 512 <= ps.MaxMaxCode() <= 65536
  {
    Pow2Mono(9, ps.maxbits);
    Pow2Mono(ps.maxbits, 16);
    Pow2Values();
  }

  lemma {:induction false} Pow2Mono(m: nat, n: nat)
    requires m <= n
    ensures Pow2(m) <= Pow2(n)
    decreases n - m
  {
    if m < n { Pow2Mono(m + 1, n); }
  }

  lemma StepSane(ps: Params, d: Dec, c: nat)
    requires Sane(ps, d) && Legal(ps, d, c)
    ensures Sane(ps, Step(ps, d, c))
    ensures !IsClear(ps, d, c) ==> StringOf(d, c) != [] && Step(ps, d, c).phase.Running? && Step(ps, d, c).prev == c
  {
    MaxMaxBounds(ps);
  }

  /**
   The heart of the code: when the encoder's table is the decoder's next one, the code of a pending
   string is legal, decodes to that string, and brings the decoder's table up to the encoder's.
   */
  lemma Pending(ps: Params, d: Dec, etab: seq<Text>, ent: nat)
    requires Sane(ps, d)
    requires ent < |etab| && etab[ent] != [] && !(ps.block && ent == CLEAR)
    requires etab == NextTab(ps, d, etab[ent][0])
    requires !d.phase.Running? ==> ent < 256
    ensures Legal(ps, d, ent)
    ensures StringOf(d, ent) == etab[ent]
    ensures Step(ps, d, ent) == Dec(Running, etab, ent, d.out + etab[ent])
  {
  }

  // ----- Where the codes lie -----

  /** The code width and the place of the next code: bit off of the group that starts at byte base. */
  datatype Wire = Wire(n: nat, maxcode: int, base: nat, off: nat) {
    function Pos(): nat { 8 * base + off }
  }

  const InitWire := Wire(INIT_BITS, MaxCode(INIT_BITS), 0, 0)

  /** Eight codes of the same width fill a group of n bytes. */
  function AfterCode(w: Wire): Wire {
    if w.off + w.n == 8 * w.n then w.(base := w.base + w.n, off := 0) else w.(off := w.off + w.n)
  }

  /** The first unused code has outgrown the width, or the table was cleared: start a new group. */
  function Resize(ps: Params, w: Wire, free_ent: nat, clear: bool): Wire {
    if free_ent > w.maxcode || clear then
      var base := if w.off > 0 then w.base + w.n else w.base;
      if clear then Wire(INIT_BITS, MaxCode(INIT_BITS), base, 0)
      else Wire(w.n + 1, if w.n + 1 == ps.maxbits then ps.MaxMaxCode() else MaxCode(w.n + 1), base, 0)
    else w
  }

  function ResizeFor(ps: Params, w: Wire, d: Dec): Wire {
    Resize(ps, w, |d.tab|, d.phase.Cleared?)
  }

  /** Codes fit the width; a group holds eight of them; the width never passes the 16-byte buffer. */
  ghost predicate WireSane(ps: Params, w: Wire, free_ent: nat) {
    && ps.Valid()
    && INIT_BITS <= w.n <= BITS
    && WholeCodes(w)
    && w.maxcode == (if w.n == ps.maxbits > INIT_BITS then ps.MaxMaxCode() else MaxCode(w.n))
    && (w.n > ps.maxbits ==> w.n == 10 && ps.maxbits == 9)
    && free_ent <= w.maxcode
  }

  /** A group in progress holds fewer than eight codes. */
  predicate WholeCodes(w: Wire) {
    || w.off == 0 || w.off == w.n || w.off == 2 * w.n || w.off == 3 * w.n
    || w.off == 4 * w.n || w.off == 5 * w.n || w.off == 6 * w.n || w.off == 7 * w.n
  }

  lemma AfterCodeSane(ps: Params, w: Wire, free_ent: nat)
    requires WireSane(ps, w, free_ent)
    ensures w.off + w.n <= 8 * w.n
    ensures WireSane(ps, AfterCode(w), free_ent)
    ensures AfterCode(w).Pos() == w.Pos() + w.n
  {
  }

  lemma ResizeSane(ps: Params, w: Wire, d: Dec, free_ent: nat)
    requires WireSane(ps, w, free_ent) && Sane(ps, d)
    requires d.phase.Cleared? || |d.tab| <= free_ent + 1
    ensures WireSane(ps, ResizeFor(ps, w, d), |d.tab|)
    ensures ResizeFor(ps, w, d).Pos() >= w.Pos()
  {
    MaxMaxBounds(ps);
    Pow2Values();
    var v := ResizeFor(ps, w, d);
    if v != w {
      assert Pow2(w.n + 1) == 2 * Pow2(w.n);
      Pow2Mono(9, w.n);
    }
  }

  /** A legal code fits the width of its place. */
  lemma CodeFits(ps: Params, w: Wire, d: Dec, c: nat)
    requires Sane(ps, d) && WireSane(ps, w, |d.tab|) && Legal(ps, d, c)
    ensures c < Pow2(w.n)
  {
    MaxMaxBounds(ps);
    Pow2Mono(9, w.n);
    Pow2Values();
  }

  // ----- A whole stream -----

  /** Codes, with the decoder's state (ds) and the place (ws) before each of them and at the end. */
  datatype Tape = Tape(codes: seq<nat>, ds: seq<Dec>, ws: seq<Wire>) {
    ghost predicate Shaped() { |ds| == |ws| == |codes| + 1 }

    ghost function LastDec(): Dec requires Shaped() { ds[|codes|] }

    ghost function LastWire(): Wire requires Shaped() { ws[|codes|] }

    ghost predicate SaneAt(ps: Params, k: nat)
      requires Shaped() && k <= |codes|
    {
      Sane(ps, ds[k]) && WireSane(ps, ws[k], |ds[k].tab|)
    }

    /** Code k is legal where it stands, and what follows it follows from it. */
    ghost predicate StepAt(ps: Params, k: nat)
      requires Shaped() && k < |codes|
    {
      && Legal(ps, ds[k], codes[k])
      && ds[k + 1] == Step(ps, ds[k], codes[k])
      && ws[k + 1] == ResizeFor(ps, AfterCode(ws[k]), ds[k + 1])
      && ws[k].Pos() + ws[k].n <= LastWire().Pos()
    }

    ghost predicate Ok(ps: Params) {
      && Shaped()
      && ds[0] == InitDec(ps) && ws[0] == InitWire
      && (forall k :: 0 <= k <= |codes| ==> SaneAt(ps, k))
      && (forall k :: 0 <= k < |codes| ==> StepAt(ps, k))
    }

    /** Code k lies in s at its place. */
    ghost predicate CodeAt(s: seq<byte>, k: nat)
      requires Shaped() && k < |codes|
    {
      Holds(s, ws[k].Pos(), ws[k].n, codes[k])
    }

    ghost predicate AllStored(s: seq<byte>)
      requires Shaped()
    {
      forall k :: 0 <= k < |codes| ==> CodeAt(s, k)
    }

    /** The bytes store exactly these codes: none is missing and no byte is left over. */
    ghost predicate Stores(s: seq<byte>)
      requires Shaped()
    {
      && |s| == LastWire().base + (LastWire().off + 7) / 8
      && AllStored(s)
    }

    /** The stream with one more code. */
    ghost function Snoc(ps: Params, c: nat): Tape
      requires Shaped()
    {
      var d := Step(ps, LastDec(), c);
      Tape(codes + [c], ds + [d], ws + [ResizeFor(ps, AfterCode(LastWire()), d)])
    }
  }

  function InitTape(ps: Params): Tape { Tape([], [InitDec(ps)], [InitWire]) }

  lemma InitTapeOk(ps: Params)
    requires ps.Valid()
    ensures InitTape(ps).Ok(ps)
  {
    MaxMaxBounds(ps);
    Pow2Values();
  }

  /** One more legal code keeps everything sane and moves the end beyond itself. */
  lemma StepTape(ps: Params, d: Dec, w: Wire, c: nat)
    requires Sane(ps, d) && WireSane(ps, w, |d.tab|) && Legal(ps, d, c)
    ensures var d' := Step(ps, d, c); var w' := ResizeFor(ps, AfterCode(w), d');
      Sane(ps, d') && WireSane(ps, w', |d'.tab|) && w'.Pos() >= w.Pos() + w.n
  {
    StepSane(ps, d, c);
    AfterCodeSane(ps, w, |d.tab|);
    ResizeSane(ps, AfterCode(w), Step(ps, d, c), |d.tab|);
  }

  lemma SnocOk(ps: Params, t: Tape, c: nat)
    requires t.Ok(ps) && Legal(ps, t.LastDec(), c)
    ensures t.Snoc(ps, c).Ok(ps)
    ensures t.Snoc(ps, c).LastWire().Pos() >= t.LastWire().Pos() + t.LastWire().n
  {
    var n, u := |t.codes|, t.Snoc(ps, c);
    assert t.SaneAt(ps, n);
    StepTape(ps, t.ds[n], t.ws[n], c);
    forall k | 0 <= k <= n + 1 ensures u.SaneAt(ps, k) {
      if k <= n { assert t.SaneAt(ps, k); }
    }
    forall k | 0 <= k < n + 1 ensures u.StepAt(ps, k) {
      if k < n { assert t.StepAt(ps, k); }
    }
  }
}
