/** output() of compress: codes of varying width, packed lowest bit first into groups of eight. */
module LzwWriter {
  import opened Bits
  import opened LzwCodes

  /** The byte after the low bits of code have been put in above its r lowest bits. */
  function PutLow(b: byte, code: nat, r: nat): int
    requires r < 8
  {
    Low(b, r) + (code * Pow2(r)) % 256
  }

  lemma ShiftedByte(code: nat, r: nat)
    requires r < 8
    ensures (code * Pow2(r)) % 256 == Pow2(r) * Low(code, 8 - r)
    ensures 0 <= Pow2(r) * Low(code, 8 - r) <= 256 - Pow2(r)
  {
    Pow2Sum(r, 8 - r);
    Pow2Values();
    ScaledByte(code, Pow2(r), Pow2(8 - r));
  }

  lemma ScaledByte(code: nat, p: nat, q: nat)
    requires p > 0 && q > 0 && p * q == 256
    ensures (code * p) % 256 == p * (code % q)
    ensures 0 <= p * (code % q) <= 256 - p
  {
    var l, h := DivMod(code, q);
    assert p * (q - 1) == 256 - p;
    MulMono(p, l, q - 1);
    assert code * p == l * p + (p * q) * h;
    DivUnique(code * p, 256, h, p * l);
  }

  lemma PutLowBits(b: byte, code: nat, r: nat)
    requires r < 8
    ensures 0 <= PutLow(b, code, r) < 256
    ensures forall i: nat :: i < 8 ==> Bit(PutLow(b, code, r), i) == if i < r then Bit(b, i) else Bit(code, i - r)
  {
    ShiftedByte(code, r);
    var lo, _ := DivMod(b, Pow2(r));
    forall i: nat | i < 8 ensures Bit(PutLow(b, code, r), i) == if i < r then Bit(b, i) else Bit(code, i - r) {
      JoinBit(lo, Low(code, 8 - r), r, i);
      if i < r { MaskBit(b, r, i); } else { MaskBit(code, 8 - r, i - r); }
    }
  }

  lemma ByteOf(code: nat, k: nat)
    ensures 0 <= Shr(code, k) % 256 < 256
    ensures forall i: nat :: i < 8 ==> Bit(Shr(code, k) % 256, i) == Bit(code, i + k)
  {
    Pow2Values();
    forall i: nat | i < 8 ensures Bit(Shr(code, k) % 256, i) == Bit(code, i + k) {
      MaskBit(Shr(code, k), 8, i);
      ShiftRightBit(code, k, i);
    }
  }

  lemma DivPow2Add(x: nat, j: nat)
    ensures Shr(x, j) / 256 == Shr(x, j + 8)
  {
    var q, q8 := Shr(x, j), Shr(x, j) / 256;
    Pow2Add(j);
    assert x == Pow2(j) * q + x % Pow2(j) && q == 256 * q8 + q % 256;
    var r := Pow2(j) * (q % 256) + x % Pow2(j);
    assert r < Pow2(j) * 256 by { MulMono(Pow2(j), q % 256, 255); }
    assert x == (Pow2(j) * 256) * q8 + r by { Distribute(Pow2(j), q8, q % 256); }
    DivUnique(x, Pow2(j + 8), q8, r);
  }

  lemma Distribute(p: nat, a: nat, b: nat)
    ensures p * (256 * a + b) == (p * 256) * a + p * b
  {
  }

  lemma {:induction false} Pow2Add(j: nat)
    ensures Pow2(j + 8) == Pow2(j) * 256
  {
    if j > 0 { Pow2Add(j - 1); } else { Pow2Values(); }
  }

  /** What packing one code does to buf[..]: at most three bytes from offset / 8 on. */
  ghost predicate Packed(was: seq<byte>, now: seq<byte>, offset: nat, n: nat, code: nat)
  {
    var i, r := offset / 8, offset % 8;
    && |was| == |now| == BITS && 9 <= n <= BITS && offset + n <= 8 * BITS && code < Pow2(n)
    && now[..i] == was[..i]
    && now[i] == PutLow(was[i], code, r)
    && now[i + 1] == Shr(code, 8 - r) % 256
    && (n > 16 - r ==> now[i + 2] == Shr(code, 16 - r) % 256)
  }

  lemma PackedKeeps(was: seq<byte>, now: seq<byte>, offset: nat, n: nat, code: nat, q: nat)
    requires Packed(was, now, offset, n, code) && q < offset
    ensures BitAt(now, q) == BitAt(was, q)
  {
    var i, r := offset / 8, offset % 8;
    if q / 8 < i {
      assert now[q / 8] == now[..i][q / 8] == was[..i][q / 8];
    } else {
      assert q / 8 == i && q % 8 < r;
      PutLowBits(was[i], code, r);
    }
  }

  lemma PackedHolds(was: seq<byte>, now: seq<byte>, offset: nat, n: nat, code: nat, k: nat)
    requires Packed(was, now, offset, n, code) && k < n
    ensures BitAt(now, offset + k) == Bit(code, k)
  {
    PlaceOf(offset, k);
    var i, r, b := offset / 8, offset % 8, (offset % 8 + k) / 8;
    if b == 0 {
      PutLowBits(was[i], code, r);
    } else {
      PackedByte(code, now[i + b], 8 * b - r, r + k - 8 * b);
    }
  }

  lemma PackedByte(code: nat, x: byte, shift: nat, i: nat)
    requires x == Shr(code, shift) % 256 && i < 8
    ensures Bit(x, i) == Bit(code, i + shift)
  {
    ByteOf(code, shift);
  }

  /** The bits of the code are in their place, and every bit below it is what it was. */
  lemma PackedBits(was: seq<byte>, now: seq<byte>, offset: nat, n: nat, code: nat)
    requires Packed(was, now, offset, n, code)
    ensures forall q: nat :: q < offset ==> BitAt(now, q) == BitAt(was, q)
    ensures Holds(now, offset, n, code)
  {
    forall q: nat | q < offset ensures BitAt(now, q) == BitAt(was, q) {
      PackedKeeps(was, now, offset, n, code, q);
    }
    forall k: nat | k < n ensures BitAt(now, offset + k) == Bit(code, k) {
      PackedHolds(was, now, offset, n, code, k);
    }
  }

  lemma PlaceOf(offset: nat, k: nat)
    ensures (offset + k) / 8 == offset / 8 + (offset % 8 + k) / 8
    ensures (offset + k) % 8 == (offset % 8 + k) % 8
  {
  }

  class Writer {
    const ps: Params
    var free_ent: nat
    var n_bits: nat
    var maxcode: int
    var offset: nat
    var clear_flg: bool
    const buf: array<byte>
    var stdout: seq<byte>
    ghost var tape: Tape

    /** The file as it would be if buf were written out now. */
    ghost function Image(): seq<byte>
      reads this, buf
    {
      stdout + buf[..]
    }

    ghost function Place(): Wire
      reads this
    {
      Wire(n_bits, maxcode, |stdout|, offset)
    }

    /** The codes so far lie in the file or in buf, and the next one goes where they end. */
    ghost predicate Valid()
      reads this, buf
    {
      && ps.Valid()
      && buf.Length == BITS
      && tape.Ok(ps)
      && Place() == tape.LastWire()
      && tape.AllStored(Image())
    }

    /** free_ent and clear_flg say what the decoder will know once it has read this code. */
    ghost predicate Announces(code: nat)
      reads this
      requires tape.Shaped()
    {
      var d := Step(ps, tape.LastDec(), code);
      && Legal(ps, tape.LastDec(), code)
      && clear_flg == d.phase.Cleared?
      && (!clear_flg ==> free_ent == |d.tab|)
    }

    constructor (ps: Params)
      requires ps.Valid()
      ensures this.ps == ps && Valid() && fresh(buf) && !clear_flg
      ensures tape == InitTape(ps) && free_ent == ps.FirstFree()
    {
      this.ps := ps;
      offset := 0;
      clear_flg := false;
      n_bits := INIT_BITS;
      maxcode := MaxCode(INIT_BITS);
      free_ent := ps.FirstFree();
      buf := new byte[BITS];
      stdout := [];
      tape := InitTape(ps);
      InitTapeOk(ps);
    }

    /** Put the bits of code into buf at bit offset. */
    method PutBits(code: nat)
      requires buf.Length == BITS && 9 <= n_bits <= BITS && offset + n_bits <= 8 * n_bits && code < Pow2(n_bits)
      modifies buf
      ensures forall q: nat :: q < offset ==> BitAt(buf[..], q) == old(BitAt(buf[..], q))
      ensures Holds(buf[..], offset, n_bits, code)
    {
      hide BitAt, Holds, Bit;
      var r_off, bits, bp, c := offset, n_bits, 0, code;
      bp := bp + r_off / 8;
      r_off := r_off % 8;
      PutLowBits(buf[bp], c, r_off);
      buf[bp] := PutLow(buf[bp], c, r_off);
      bp := bp + 1;
      bits := bits - (8 - r_off);
      c := Shr(c, 8 - r_off);
      assert c % 256 == Shr(code, 8 - r_off) % 256;
      if bits >= 8 {
        buf[bp] := c % 256;
        bp := bp + 1;
        c := c / 256;
        bits := bits - 8;
        DivPow2Add(code, 8 - r_off);
      }
      if bits > 0 {
        buf[bp] := c % 256;
      }
      PackedBits(old(buf[..]), buf[..], offset, n_bits, code);
    }

    /** Put the code in place and write the group out when it holds eight codes. */
    method PutCode(code: nat)
      requires buf.Length == BITS && 9 <= n_bits <= BITS && offset + n_bits <= 8 * n_bits && code < Pow2(n_bits)
      modifies this`offset, this`stdout, buf
      ensures Place() == AfterCode(old(Place()))
      ensures SameBits(old(Image()), Image(), old(Place().Pos()))
      ensures Holds(Image(), old(Place().Pos()), n_bits, code)
    {
      PutBits(code);
      Committed(stdout, old(buf[..]), buf[..], offset, n_bits, code);
      offset := offset + n_bits;
      if offset == n_bits * 8 {
        stdout := stdout + buf[..n_bits];
        offset := 0;
      }
    }

    /** Change the width if the next code may need it. The group is written whole, as it will be read. */
    method Widen()
      requires buf.Length == BITS && n_bits <= BITS
      modifies this`stdout, this`offset, this`n_bits, this`maxcode, this`clear_flg
      ensures Place() == Resize(ps, old(Place()), free_ent, old(clear_flg)) && !clear_flg
      ensures Image() ==
              if Place().base > old(Place().base) then old(stdout + buf[..n_bits]) + buf[..] else old(Image())
    {
      if free_ent > maxcode || clear_flg {
        if offset > 0 {
          stdout := stdout + buf[..n_bits];
        }
        offset := 0;
        if clear_flg {
          n_bits := INIT_BITS;
          maxcode := MaxCode(INIT_BITS);
          clear_flg := false;
        } else {
          n_bits := n_bits + 1;
          if n_bits == ps.maxbits {
            maxcode := ps.MaxMaxCode();
          } else {
            maxcode := MaxCode(n_bits);
          }
        }
      }
    }

    /** Write one code, and change the width if need be. */
    method Output(code: nat)
      requires Valid() && Announces(code)
      modifies this`offset, this`stdout, this`n_bits, this`maxcode, this`clear_flg, this`tape, buf
      ensures Valid() && tape == old(tape).Snoc(ps, code) && !clear_flg
    {
      ghost var was := Image();
      OutputFits(ps, tape, code);
      PutCode(code);
      ghost var head, n := stdout, n_bits;
      Widen();
      Written(ps, tape, code, was, head, buf[..], n, free_ent, old(clear_flg));
      tape := tape.Snoc(ps, code);
    }

    /** Write what is left in buf. */
    method OutputEof()
      requires Valid()
      modifies this`offset, this`stdout
      ensures tape.Stores(stdout)
    {
      assert tape.SaneAt(ps, |tape.codes|);
      FlushedTail(ps, tape, stdout, buf[..], (offset + 7) / 8);
      assert stdout + buf[..0] == stdout;
      if offset > 0 {
        stdout := stdout + buf[..(offset + 7) / 8];
      }
      offset := 0;
    }
  }

  lemma OutputFits(ps: Params, t: Tape, code: nat)
    requires t.Ok(ps) && Legal(ps, t.LastDec(), code)
    ensures var w := t.LastWire(); 9 <= w.n <= BITS && w.off + w.n <= 8 * w.n && code < Pow2(w.n)
  {
    assert t.SaneAt(ps, |t.codes|);
    CodeFits(ps, t.LastWire(), t.LastDec(), code);
    AfterCodeSane(ps, t.LastWire(), |t.LastDec().tab|);
  }

  /** What Output has done, once the width is settled. */
  lemma Written(ps: Params, t: Tape, code: nat, was: seq<byte>, head: seq<byte>, b: seq<byte>, n: nat, free_ent: nat,
                clear: bool)
    requires t.Ok(ps) && Legal(ps, t.LastDec(), code) && t.AllStored(was)
    requires var w := t.LastWire(); SameBits(was, head + b, w.Pos()) && Holds(head + b, w.Pos(), w.n, code)
    requires var d := Step(ps, t.LastDec(), code); clear == d.phase.Cleared? && (!clear ==> free_ent == |d.tab|)
    requires var w := AfterCode(t.LastWire()); w.base == |head| && w.n == n <= |b|
    ensures var u, w := t.Snoc(ps, code), AfterCode(t.LastWire());
      && u.Ok(ps)
      && u.LastWire() == Resize(ps, w, free_ent, clear)
      && u.AllStored(if u.LastWire().base > w.base then head + b[..n] + b else head + b)
  {
    var u := t.Snoc(ps, code);
    SnocOk(ps, t, code);
    KeepCodes(ps, t, was, head + b, t.LastWire().Pos());
    Stored(ps, t, head + b, code);
    if u.LastWire().base > |head| {
      Flushed(head, b, n);
      KeepCodes(ps, u, head + b, head + b[..n] + b, 8 * (|head| + n));
    }
  }

  lemma Stored(ps: Params, t: Tape, s: seq<byte>, code: nat)
    requires t.Ok(ps) && t.AllStored(s)
    requires var w := t.LastWire(); Holds(s, w.Pos(), w.n, code)
    ensures t.Snoc(ps, code).AllStored(s)
  {
    var u := t.Snoc(ps, code);
    forall k | 0 <= k <= |t.codes| ensures u.CodeAt(s, k) {
      if k < |t.codes| { assert t.CodeAt(s, k); }
    }
  }

  lemma FlushedTail(ps: Params, t: Tape, head: seq<byte>, b: seq<byte>, m: nat)
    requires t.Ok(ps) && t.AllStored(head + b)
    requires m <= |b| && t.LastWire().Pos() <= 8 * (|head| + m)
    ensures t.AllStored(head + b[..m])
  {
    var s, s' := head + b, head + b[..m];
    forall q: nat | q < 8 * (|head| + m) ensures BitAt(s', q) == BitAt(s, q) {
      assert s[q / 8] == s'[q / 8];
    }
    KeepCodes(ps, t, s, s', 8 * (|head| + m));
  }

  /** The first limit bits of s and t are the same. */
  ghost predicate SameBits(s: seq<byte>, t: seq<byte>, limit: nat) {
    && limit <= 8 * |s| && limit <= 8 * |t|
    && forall q: nat :: q < limit ==> BitAt(t, q) == BitAt(s, q)
  }

  /** Packing in buf, seen in the whole output, before and after the group is written out. */
  lemma Committed(head: seq<byte>, was: seq<byte>, now: seq<byte>, offset: nat, n: nat, code: nat)
    requires |was| == |now| == BITS && n <= BITS && offset + n <= 8 * n
    requires forall q: nat :: q < offset ==> BitAt(now, q) == BitAt(was, q)
    requires Holds(now, offset, n, code)
    ensures var p := 8 * |head| + offset;
      && SameBits(head + was, head + now, p) && Holds(head + now, p, n, code)
      && SameBits(head + was, head + now[..n] + now, p) && Holds(head + now[..n] + now, p, n, code)
  {
    var p, limit := 8 * |head| + offset, 8 * (|head| + n);
    Placed(head, was, now, offset, n, code);
    Flushed(head, now, n);
    SameTrans(head + was, head + now, head + now[..n] + now, p, limit);
    KeepNumber(p, n, code, head + now, head + now[..n] + now, limit);
  }

  /** Packing in buf, seen in the whole output. */
  lemma Placed(head: seq<byte>, was: seq<byte>, now: seq<byte>, offset: nat, n: nat, code: nat)
    requires |was| == |now| == BITS && offset <= 8 * BITS
    requires forall q: nat :: q < offset ==> BitAt(now, q) == BitAt(was, q)
    requires Holds(now, offset, n, code)
    ensures SameBits(head + was, head + now, 8 * |head| + offset)
    ensures Holds(head + now, 8 * |head| + offset, n, code)
  {
    forall q: nat | q < 8 * |head| + offset ensures BitAt(head + now, q) == BitAt(head + was, q) {
      if q >= 8 * |head| {
        InTail(head, now, q - 8 * |head|);
        InTail(head, was, q - 8 * |head|);
      }
    }
    forall i: nat | i < n ensures BitAt(head + now, 8 * |head| + offset + i) == Bit(code, i) {
      InTail(head, now, offset + i);
    }
  }

  lemma InTail(head: seq<byte>, tail: seq<byte>, q: nat)
    requires q < 8 * |tail|
    ensures BitAt(head + tail, 8 * |head| + q) == BitAt(tail, q)
  {
    assert (8 * |head| + q) / 8 == |head| + q / 8;
  }

  /** Writing n bytes of buf out keeps all that lies in them. */
  lemma Flushed(head: seq<byte>, b: seq<byte>, n: nat)
    requires n <= |b|
    ensures SameBits(head + b, head + b[..n] + b, 8 * (|head| + n))
  {
    var s, t := head + b, head + b[..n] + b;
    forall q: nat | q < 8 * (|head| + n) ensures BitAt(t, q) == BitAt(s, q) {
      assert s[q / 8] == t[q / 8];
    }
  }

  /** Codes stay where they are while no bit below their successor's place changes. */
  lemma KeepCodes(ps: Params, tape: Tape, s: seq<byte>, t: seq<byte>, limit: nat)
    requires tape.Ok(ps) && tape.LastWire().Pos() <= limit && SameBits(s, t, limit)
    requires tape.AllStored(s)
    ensures tape.AllStored(t)
  {
    forall k | 0 <= k < |tape.codes| ensures tape.CodeAt(t, k) {
      assert tape.CodeAt(s, k) && tape.StepAt(ps, k);
      KeepNumber(tape.ws[k].Pos(), tape.ws[k].n, tape.codes[k], s, t, limit);
    }
  }

  lemma KeepNumber(p: nat, n: nat, code: nat, s: seq<byte>, t: seq<byte>, limit: nat)
    requires Holds(s, p, n, code) && p + n <= limit && SameBits(s, t, limit)
    ensures Holds(t, p, n, code)
  {
    HoldsKept(s, t, p, n, code);
  }

  lemma SameTrans(s: seq<byte>, t: seq<byte>, u: seq<byte>, p: nat, limit: nat)
    requires SameBits(s, t, p) && SameBits(t, u, limit) && p <= limit
    ensures SameBits(s, u, p)
  {
  }
}
