/** getcode() of compress: the codes back from the bytes, a group at a time. */
module LzwReader {
  import opened Bits
  import opened LzwCodes

  /** The top bits of a byte, from bit offset on. */
  lemma CollectFirst(s: seq<byte>, offset: nat, c: nat)
    requires offset < 8 * |s| && c == Shr(s[offset / 8], offset % 8)
    ensures Holds(s, offset, 8 - offset % 8, c)
  {
    var r, b := offset % 8, s[offset / 8];
    Pow2Sum(r, 8 - r);
    Pow2Values();
    DivBound(b, Pow2(r), Pow2(8 - r));
    forall i: nat | i < 8 - r ensures BitAt(s, offset + i) == Bit(c, i) {
      ShiftRightBit(b, r, i);
      assert (offset + i) / 8 == offset / 8 && (offset + i) % 8 == r + i;
    }
  }

  /** m more bits, from the low end of the next byte. */
  lemma CollectMore(s: seq<byte>, offset: nat, k: nat, c: nat, m: nat, c': nat)
    requires Holds(s, offset, k, c) && (offset + k) % 8 == 0 && 0 < m <= 8 && offset + k + m <= 8 * |s|
    requires c' == c + Pow2(k) * Low(s[(offset + k) / 8], m)
    ensures Holds(s, offset, k + m, c')
  {
    var b := s[(offset + k) / 8];
    JoinBound(c, Low(b, m), k, m);
    forall j: nat | j < k + m ensures BitAt(s, offset + j) == Bit(c', j) {
      CollectedBit(s, offset, k, c, m, b, c', j);
    }
  }

  lemma CollectedBit(s: seq<byte>, offset: nat, k: nat, c: nat, m: nat, b: byte, c': nat, j: nat)
    requires Holds(s, offset, k, c) && (offset + k) % 8 == 0 && m <= 8 && offset + k + m <= 8 * |s|
    requires j < k + m && (offset + k) / 8 < |s| && b == s[(offset + k) / 8] && c' == c + Pow2(k) * Low(b, m)
    ensures BitAt(s, offset + j) == Bit(c', j)
  {
    JoinBit(c, Low(b, m), k, j);
    if j < k {
      assert BitAt(s, offset + j) == Bit(c, j);
    } else {
      MaskBit(b, m, j - k);
      assert (offset + j) / 8 == (offset + k) / 8 && (offset + j) % 8 == j - k;
    }
  }

  lemma HoldsUnique(s: seq<byte>, p: nat, n: nat, c: nat, c': nat)
    requires Holds(s, p, n, c) && Holds(s, p, n, c')
    ensures c == c'
  {
    forall i: nat | i < n ensures Bit(c, i) == Bit(c', i) {
      assert BitAt(s, p + i) == Bit(c, i);
    }
    BitsDetermine(c, c', n);
  }

  function Min(a: nat, b: nat): nat { if a < b then a else b }

  /** The place after k codes, before the width is settled for the next one. */
  ghost function Behind(t: Tape, k: nat): Wire
    requires t.Shaped() && k <= |t.codes|
  {
    if k == 0 then InitWire else AfterCode(t.ws[k - 1])
  }

  /** What reading code k of a stored stream needs to know. */
  lemma Geometry(ps: Params, s: seq<byte>, t: Tape, k: nat)
    requires t.Ok(ps) && t.Stores(s) && k <= |t.codes|
    ensures var b, d, w := Behind(t, k), t.ds[k], t.ws[k];
      && w == ResizeFor(ps, b, d)
      && 9 <= b.n <= BITS && WholeCodes(b) && 9 <= w.n <= BITS && WholeCodes(w)
      && w.base <= |s|
      && (k < |t.codes| ==> w.Pos() + w.n <= 8 * |s| && Holds(s, w.Pos(), w.n, t.codes[k]))
      && (k == |t.codes| ==> |s| == w.base + (w.off + 7) / 8)
  {
    assert t.SaneAt(ps, k);
    if k > 0 {
      assert t.SaneAt(ps, k - 1) && t.StepAt(ps, k - 1);
      AfterCodeSane(ps, t.ws[k - 1], |t.ds[k - 1].tab|);
    } else {
      NoResizeAtStart(ps);
    }
    if k < |t.codes| { assert t.CodeAt(s, k); }
  }

  lemma NoResizeAtStart(ps: Params)
    ensures ResizeFor(ps, InitWire, InitDec(ps)) == InitWire
  {
    Pow2Values();
  }

  /** A code read from the loaded group is the code stored in the file. */
  lemma FromFile(s: seq<byte>, base: nat, sz: nat, b: seq<byte>, off: nat, n: nat, c: nat, stored: nat)
    requires base + sz <= |s| && sz <= |b| && b[..sz] == s[base..base + sz] && off + n <= 8 * sz
    requires Holds(b, off, n, c) && Holds(s, 8 * base + off, n, stored)
    ensures c == stored
  {
    forall i: nat | i < n ensures BitAt(b, off + i) == Bit(stored, i) {
      var q := off + i;
      assert (8 * base + q) / 8 == base + q / 8;
      assert b[q / 8] == b[..sz][q / 8] == s[base..base + sz][q / 8] == s[base + q / 8];
      assert BitAt(s, 8 * base + off + i) == Bit(stored, i);
    }
    HoldsUnique(b, off, n, c, stored);
  }

  /** A code lies in what was loaded of its group, and a full group is loaded if it is the eighth. */
  lemma InGroup(ps: Params, s: seq<byte>, t: Tape, k: nat)
    requires t.Ok(ps) && t.Stores(s) && k < |t.codes|
    ensures var w := t.ws[k];
      && w.base <= |s| && 9 <= w.n <= BITS && WholeCodes(w)
      && w.off + w.n <= 8 * Min(w.n, |s| - w.base)
  {
    Geometry(ps, s, t, k);
  }

  lemma FromGroup(ps: Params, s: seq<byte>, t: Tape, k: nat, b: seq<byte>, code: nat)
    requires t.Ok(ps) && t.Stores(s) && k < |t.codes| && t.ws[k].base <= |s|
    requires var w := t.ws[k]; var sz := Min(w.n, |s| - w.base);
      sz <= |b| && b[..sz] == s[w.base..w.base + sz] && Holds(b, w.off, w.n, code)
    ensures code == t.codes[k]
  {
    hide Holds, Step, Legal, Sane, WireSane, ResizeFor;
    Geometry(ps, s, t, k);
    var w := t.ws[k];
    FromFile(s, w.base, Min(w.n, |s| - w.base), b, w.off, w.n, code, t.codes[k]);
  }

  class Reader {
    const ps: Params
    const stdin: seq<byte>
    ghost const tape: Tape
    var pos: nat
    var free_ent: nat
    var n_bits: nat
    var maxcode: int
    var clear_flg: bool
    var offset: nat
    var size: int
    const buf: array<byte>
    ghost var k: nat

    constructor (ps: Params, stdin: seq<byte>, ghost tape: Tape)
      requires tape.Ok(ps) && tape.Stores(stdin)
      ensures this.ps == ps && this.tape == tape && k == 0 && fresh(buf) && !clear_flg
      ensures Valid() && Knows()
    {
      this.ps, this.stdin, this.tape := ps, stdin, tape;
      pos, k := 0, 0;
      n_bits := INIT_BITS;
      maxcode := MaxCode(INIT_BITS);
      free_ent := ps.FirstFree();
      clear_flg := false;
      offset, size := 0, 0;
      buf := new byte[BITS];
    }

    /** buf holds the bytes from b.base on, and pos is just past them. */
    ghost predicate Loaded(b: Wire)
      reads this, buf
    {
      && b.base <= |stdin|
      && var sz := Min(b.n, |stdin| - b.base);
      && buf.Length == BITS && sz <= BITS
      && pos == b.base + sz
      && buf[..sz] == stdin[b.base..pos]
      && offset == b.off && size == 8 * sz - (b.n - 1)
    }

    ghost predicate Valid()
      reads this, buf
    {
      && tape.Ok(ps) && tape.Stores(stdin) && k <= |tape.codes| && buf.Length == BITS
      && var b := Behind(tape, k);
      && n_bits == b.n && maxcode == b.maxcode
      && if b.off == 0 then pos == b.base && offset >= size else Loaded(b)
    }

    /** What the decoder must say before it asks for the next code. */
    ghost predicate Knows()
      reads this
      requires tape.Shaped() && k <= |tape.codes|
    {
      var d := tape.ds[k];
      free_ent == |d.tab| && clear_flg == d.phase.Cleared?
    }

    /** Widen the codes, or narrow them again after CLEAR, as the writer did after its last code. */
    method Settle()
      modifies this`n_bits, this`maxcode, this`clear_flg
      ensures !clear_flg
      ensures var w := Resize(ps, Wire(old(n_bits), old(maxcode), 0, 0), free_ent, old(clear_flg));
        n_bits == w.n && maxcode == w.maxcode
    {
      if free_ent > maxcode {
        n_bits := n_bits + 1;
        if n_bits == ps.maxbits {
          maxcode := ps.MaxMaxCode();
        } else {
          maxcode := MaxCode(n_bits);
        }
      }
      if clear_flg {
        n_bits := INIT_BITS;
        maxcode := MaxCode(INIT_BITS);
        clear_flg := false;
      }
    }

    /** Read the next group, or what is left of it. */
    method Fread()
      requires buf.Length == BITS && n_bits <= BITS && pos <= |stdin|
      modifies this`pos, this`size, buf
      ensures size == Min(n_bits, |stdin| - old(pos)) && pos == old(pos) + size
      ensures buf[..size] == stdin[old(pos)..pos]
    {
      size := Min(n_bits, |stdin| - pos);
      forall i | 0 <= i < size { buf[i] := stdin[pos + i]; }
      assert buf[..size] == stdin[pos..pos + size];
      pos := pos + size;
    }

    /** Have the group of the next code in buf; false at end of file. */
    method Refill() returns (ok: bool)
      requires Valid() && Knows()
      modifies this`pos, this`n_bits, this`maxcode, this`clear_flg, this`offset, this`size, buf
      ensures !clear_flg && (ok <==> k < |tape.codes|)
      ensures ok ==> n_bits == tape.ws[k].n && maxcode == tape.ws[k].maxcode && Loaded(tape.ws[k])
    {
      hide Step, Legal, Sane, WireSane, Holds;
      Geometry(ps, stdin, tape, k);
      ghost var w := tape.ws[k];
      if clear_flg || offset >= size || free_ent > maxcode {
        Settle();
        assert if w.off == 0 then pos == w.base else k == |tape.codes| && pos == |stdin|;
        Fread();
        if size <= 0 {
          return false;
        }
        offset := 0;
        size := 8 * size - (n_bits - 1);
      }
      ok := true;
    }

    /** The next code, or -1 at end of file. */
    method GetCode() returns (code: int)
      requires Valid() && Knows()
      modifies this`pos, this`n_bits, this`maxcode, this`clear_flg, this`offset, this`size, this`k, buf
      ensures !clear_flg
      ensures code == if old(k) < |tape.codes| then tape.codes[old(k)] else -1
      ensures old(k) < |tape.codes| ==> Valid() && k == old(k) + 1
    {
      hide Step, Legal, Sane, WireSane, Holds;
      var ok := Refill();
      if !ok {
        return -1;
      }
      InGroup(ps, stdin, tape, k);
      code := Current();
      offset := offset + n_bits;
      k := k + 1;
    }

    /** The code at offset, once its group is in buf. */
    method Current() returns (code: nat)
      requires tape.Ok(ps) && tape.Stores(stdin) && k < |tape.codes| && Loaded(tape.ws[k]) && n_bits == tape.ws[k].n
      ensures code == tape.codes[k]
    {
      hide Holds, Step, Legal, Sane, WireSane;
      InGroup(ps, stdin, tape, k);
      code := GetBits();
      FromGroup(ps, stdin, tape, k, buf[..], code);
    }

    /** The n_bits bits of buf at bit offset. */
    method GetBits() returns (code: nat)
      requires buf.Length == BITS && 9 <= n_bits <= BITS && offset + n_bits <= 8 * BITS
      ensures Holds(buf[..], offset, n_bits, code)
    {
      var r_off, bits, bp := offset, n_bits, 0;
      bp := bp + r_off / 8;
      r_off := r_off % 8;
      code := Shr(buf[bp], r_off);
      CollectFirst(buf[..], offset, code);
      bp := bp + 1;
      bits := bits - (8 - r_off);
      r_off := 8 - r_off;
      if bits >= 8 {
        code := More(bp, r_off, code, 8);
        bp := bp + 1;
        r_off := r_off + 8;
        bits := bits - 8;
      }
      if bits > 0 {
        code := More(bp, r_off, code, bits);
      }
    }

    /** code | (buf[bp] & rmask[bits]) << r_off, where code has no bit from r_off up. */
    method More(bp: nat, r_off: nat, code: nat, bits: nat) returns (c: nat)
      requires bp < buf.Length && Holds(buf[..], offset, r_off, code)
      requires offset + r_off == 8 * bp && 0 < bits <= 8
      ensures Holds(buf[..], offset, r_off + bits, c)
    {
      c := code + Pow2(r_off) * Low(buf[bp], bits);
      CollectMore(buf[..], offset, r_off, code, bits, c);
    }
  }
}
