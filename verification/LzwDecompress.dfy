/** decompress: from the .Z file back to the bytes, and the round trip of the two programs. */
module LzwDecompress {
  import opened Bits
  import opened LzwCodes
  import opened LzwReader
  import opened LzwCompress

  /** The bytes of htab left over beyond tab_suffix: 4 * HSIZE - (1 << BITS). */
  const DE_STACK := 210468

  function Rev(s: Text): (r: Text)
    ensures |r| == |s|
  {
    if s == [] then [] else [s[|s| - 1]] + Rev(s[..|s| - 1])
  }

  lemma RevSnoc(s: Text, x: byte)
    ensures Rev(s + [x]) == [x] + Rev(s)
  {
    assert (s + [x])[..|s|] == s;
  }

  /** A table entry is the string of a smaller code and one more byte. */
  ghost predicate Linked(tab: seq<Text>, e: nat, prefix: nat, suffix: byte)
    requires 256 <= e < |tab|
  {
    && prefix < e && tab[prefix] != []
    && tab[e] == tab[prefix] + [suffix]
  }

  class Decompressor {
    const ps: Params
    const r: Reader
    const tab_prefix: array<nat>
    const tab_suffix: array<byte>
    const de_stack: array<byte>
    var stdout: seq<byte>

    constructor (r: Reader)
      requires r.Valid() && r.k == 0
      ensures this.r == r && stdout == [] && Sized()
      ensures fresh(tab_prefix) && fresh(tab_suffix) && fresh(de_stack)
      ensures Tables(InitTab(ps))
    {
      ps := r.ps;
      this.r := r;
      stdout := [];
      Pow2Values();
      tab_prefix := new nat[Pow2(BITS)];
      tab_suffix := new byte[Pow2(BITS)];
      de_stack := new byte[DE_STACK];
      new;
      var code := 255;
      while code >= 0
        invariant -1 <= code <= 255 && stdout == []
        invariant forall c :: code < c < 256 ==> tab_suffix[c] == c
      {
        tab_prefix[code] := 0;
        tab_suffix[code] := code;
        code := code - 1;
      }
    }

    ghost predicate Sized() {
      && tab_prefix.Length == Pow2(BITS) && tab_suffix.Length == Pow2(BITS) && de_stack.Length == DE_STACK
      && tab_suffix != de_stack && tab_suffix != r.buf && de_stack != r.buf
      && r.ps == ps
    }

    ghost predicate Tables(tab: seq<Text>)
      requires Sized()
      reads tab_prefix, tab_suffix
    {
      && 256 <= |tab| <= Pow2(BITS)
      && (forall c :: 0 <= c < 256 ==> tab_suffix[c] == c)
      && forall e :: 256 <= e < |tab| && !(ps.block && e == CLEAR) ==> Linked(tab, e, tab_prefix[e], tab_suffix[e])
    }

    /** Follow the links of a code from its last byte to its first. */
    method Unwind(c: nat, start: nat, ghost tab: seq<Text>, ghost s: Text) returns (sp: nat)
      requires Sized() && Tables(tab) && c < |tab| && tab[c] != [] && !(ps.block && c == CLEAR)
      requires forall i :: 0 <= i < 256 ==> tab[i] == [i as byte]
      requires ps.block && |tab| > CLEAR ==> tab[CLEAR] == []
      requires start + |tab[c]| <= DE_STACK && tab[c] + Rev(de_stack[..start]) == s
      modifies de_stack
      ensures 0 < sp <= DE_STACK && Rev(de_stack[..sp]) == s && de_stack[sp - 1] == s[0]
    {
      var code: nat := c;
      sp := start;
      while code >= 256
        invariant code < |tab| && tab[code] != [] && !(ps.block && code == CLEAR)
        invariant sp + |tab[code]| <= DE_STACK && tab[code] + Rev(de_stack[..sp]) == s
        decreases code
      {
        assert Linked(tab, code, tab_prefix[code], tab_suffix[code]);
        ghost var was := de_stack[..sp];
        de_stack[sp] := tab_suffix[code];
        Pushed(was, de_stack[..sp + 1], tab_suffix[code], tab[tab_prefix[code]]);
        sp := sp + 1;
        code := tab_prefix[code];
      }
      ghost var was := de_stack[..sp];
      de_stack[sp] := tab_suffix[code];
      Pushed(was, de_stack[..sp + 1], tab_suffix[code], []);
      sp := sp + 1;
    }

    /** Put the stacked bytes out in forward order. */
    method PopAll(top: nat, ghost s: Text)
      requires 0 < top <= de_stack.Length && Rev(de_stack[..top]) == s
      modifies this`stdout
      ensures stdout == old(stdout) + s
    {
      var sp := top;
      while true
        invariant 0 < sp <= top
        invariant stdout + Rev(de_stack[..sp]) == old(stdout) + s
        decreases sp
      {
        Popped(stdout, de_stack[..sp], de_stack[..sp - 1]);
        sp := sp - 1;
        stdout := stdout + [de_stack[sp]];
        if sp == 0 { break; }
      }
    }

    /** Write the string of a code, given the code before it and the first byte of that one's string. */
    method Expand(code: nat, oldcode: nat, finchar: byte, ghost d: Dec) returns (fin: byte)
      requires Sized() && Tables(d.tab) && Sane(ps, d) && Legal(ps, d, code) && !IsClear(ps, d, code)
      requires d.phase.Running? ==> oldcode == d.prev && d.tab[d.prev][0] == finchar
      requires r.free_ent == |d.tab|
      modifies this`stdout, de_stack
      ensures stdout == old(stdout) + StringOf(d, code) && fin == StringOf(d, code)[0]
    {
      ghost var s := StringOf(d, code);
      StringParts(ps, d, code);
      var sp, c := 0, code;
      assert de_stack[..0] == [];
      if code >= r.free_ent {
        de_stack[sp] := finchar;
        sp := sp + 1;
        c := oldcode;
        assert de_stack[..1] == [finchar];
        assert Rev([finchar]) == [finchar];
      } else {
        assert s + Rev([]) == s;
      }
      sp := Unwind(c, sp, d.tab, s);
      fin := de_stack[sp - 1];
      PopAll(sp, s);
    }

    /** Make the entry that the encoder made when it sent the code before this one. */
    method Enter(oldcode: nat, finchar: byte, ghost d: Dec, ghost code: nat)
      requires Sized() && Tables(d.tab) && Sane(ps, d) && Legal(ps, d, code) && !IsClear(ps, d, code)
      requires r.free_ent == |d.tab| && finchar == StringOf(d, code)[0]
      requires d.phase.Running? ==> oldcode == d.prev
      requires !d.phase.Start?
      modifies r`free_ent, tab_prefix, tab_suffix
      ensures r.free_ent == |Step(ps, d, code).tab| && Tables(Step(ps, d, code).tab)
    {
      MaxMaxBounds(ps);
      StepSane(ps, d, code);
      Pow2Values();
      var c := r.free_ent;
      if c < ps.MaxMaxCode() {
        tab_prefix[c] := oldcode;
        tab_suffix[c] := finchar;
        r.free_ent := c + 1;
      }
    }

    /** All that the decoder keeps between codes. */
    ghost predicate Valid(oldcode: nat, finchar: byte)
      reads this, r, r.buf, tab_prefix, tab_suffix
    {
      && Sized() && r.Valid() && r.Knows() && !r.clear_flg
      && var d := r.tape.ds[r.k];
      && d.phase.Running? && Sane(ps, d) && Tables(d.tab)
      && d.prev == oldcode && d.tab[d.prev][0] == finchar
      && stdout == d.out
    }

    /** The first code is a byte. False at end of file. */
    method First() returns (more: bool, oldcode: nat, finchar: byte)
      requires Sized() && r.Valid() && r.k == 0 && r.Knows() && !r.clear_flg && stdout == [] && Tables(InitTab(ps))
      modifies this`stdout, r, r.buf
      ensures more ==> Valid(oldcode, finchar) && r.k == 1
      ensures !more ==> r.tape.codes == [] && stdout == []
    {
      var code := r.GetCode();
      if code == -1 {
        return false, 0, 0;
      }
      TapeStep(ps, r.tape, 0);
      FirstStep(ps, code);
      stdout := stdout + [code];
      return true, code, code;
    }

    /** The code that has just been read: the one before the reader's place. */
    ghost predicate Got(code: nat)
      reads this, r, r.buf
    {
      && r.Valid() && 0 < r.k && !r.clear_flg
      && var d := r.tape.ds[r.k - 1];
      && Sane(ps, d) && Legal(ps, d, code) && r.tape.ds[r.k] == Step(ps, d, code)
    }

    method Ask() returns (code: int)
      requires r.ps == ps && r.Valid() && r.Knows()
      modifies r`pos, r`n_bits, r`maxcode, r`clear_flg, r`offset, r`size, r`k, r.buf
      ensures code < 0 ==> old(r.k) == |r.tape.codes| && code == -1
      ensures code >= 0 ==> old(r.k) < |r.tape.codes| && r.k == old(r.k) + 1 && Got(code)
    {
      code := r.GetCode();
      if code >= 0 {
        TapeStep(ps, r.tape, r.k - 1);
      }
    }

    /** The code just read names a string, and all that it takes to write it is at hand. */
    ghost predicate CanUse(code: nat, oldcode: nat, finchar: byte)
      reads this, r, r.buf, tab_prefix, tab_suffix
    {
      && Sized() && Got(code)
      && var d := r.tape.ds[r.k - 1];
      && !IsClear(ps, d, code) && !d.phase.Start?
      && (d.phase.Running? ==> oldcode == d.prev && d.tab[d.prev][0] == finchar)
      && Tables(d.tab) && r.free_ent == |d.tab| && stdout == d.out
    }

    /** One more code, or CLEAR and the code after it. False at end of file. */
    method Decode(oldcode: nat, finchar: byte) returns (more: bool, incode: nat, fin: byte)
      requires Valid(oldcode, finchar)
      modifies this`stdout, r, r.buf, tab_prefix, tab_suffix, de_stack
      ensures more ==> Valid(incode, fin) && old(r.k) < r.k <= |r.tape.codes|
      ensures !more ==> stdout == r.tape.LastDec().out
    {
      var code := Next(oldcode, finchar);
      if code == -1 {
        return false, oldcode, finchar;
      }
      more, incode := true, code;
      fin := Use(incode, oldcode, finchar);
    }

    /** The next code that names a string, CLEAR having been dealt with; -1 at end of file. */
    method Next(oldcode: nat, finchar: byte) returns (code: int)
      requires Valid(oldcode, finchar)
      modifies r, r.buf, tab_prefix
      ensures code < 0 ==> code == -1 && stdout == r.tape.LastDec().out
      ensures code >= 0 ==> CanUse(code, oldcode, finchar) && old(r.k) < r.k <= |r.tape.codes|
    {
      code := Ask();
      if code == CLEAR && ps.block {
        code := AfterClear(oldcode, finchar);
      }
    }

    /** Forget the table and read the code after CLEAR; -1 at end of file. */
    method AfterClear(oldcode: nat, finchar: byte) returns (code: int)
      requires Sized() && Got(CLEAR)
      requires var d := r.tape.ds[r.k]; d.phase.Cleared? && d.tab == Singles() && d.out == stdout
      requires forall c :: 0 <= c < 256 ==> tab_suffix[c] == c
      modifies r, r.buf, tab_prefix
      ensures code < 0 ==> code == -1 && stdout == r.tape.LastDec().out
      ensures code >= 0 ==> CanUse(code, oldcode, finchar) && old(r.k) < r.k <= |r.tape.codes|
    {
      Forget();
      assert r.Knows();
      code := Ask();
    }

    /** Write the string of the code just read, and make the entry that goes with it. */
    method Use(code: nat, oldcode: nat, finchar: byte) returns (fin: byte)
      requires CanUse(code, oldcode, finchar)
      modifies this`stdout, r`free_ent, tab_prefix, tab_suffix, de_stack
      ensures Valid(code, fin)
    {
      hide WireSane, Holds;
      ghost var d := r.tape.ds[r.k - 1];
      fin := Expand(code, oldcode, finchar, d);
      Enter(oldcode, fin, d, code);
      StepSane(ps, d, code);
      StepString(ps, d, code);
    }

    /** After CLEAR only the single bytes are known. */
    method Forget()
      requires Sized() && (forall c :: 0 <= c < 256 ==> tab_suffix[c] == c)
      modifies r`clear_flg, r`free_ent, tab_prefix
      ensures r.clear_flg && r.free_ent == 256 && Tables(Singles())
    {
      Pow2Values();
      var c := 255;
      while c >= 0
      {
        tab_prefix[c] := 0;
        c := c - 1;
      }
      r.clear_flg := true;
      r.free_ent := FIRST - 1;
    }

    /** The whole stream. */
    method DecodeAll()
      requires Sized() && r.Valid() && r.k == 0 && r.Knows() && !r.clear_flg && stdout == [] && Tables(InitTab(ps))
      modifies this`stdout, r, r.buf, tab_prefix, tab_suffix, de_stack
      ensures stdout == r.tape.LastDec().out
    {
      var more, oldcode, finchar := First();
      while more
        invariant more ==> Valid(oldcode, finchar) && r.k <= |r.tape.codes|
        invariant !more ==> stdout == r.tape.LastDec().out
        decreases more, |r.tape.codes| - r.k
      {
        more, oldcode, finchar := Decode(oldcode, finchar);
      }
    }
  }

  datatype Result = Ok(text: Text) | NotCompressed | TooManyBits

  predicate HasMagic(file: seq<byte>) { |file| >= 3 && file[0] == 0x1f && file[1] == 0x9d }

  /** The third header byte: maxbits in the low five bits, block mode in the top one. */
  function HeaderParams(b: byte): Params { Params(b % 32, b >= 128) }

  /** Check the header and decompress. The body must be a stored code stream; the program does not check that. */
  method Decompress(file: seq<byte>, ghost tape: Tape) returns (r: Result)
    requires HasMagic(file) && HeaderParams(file[2]).maxbits <= BITS ==>
      tape.Ok(HeaderParams(file[2])) && tape.Stores(file[3..])
    ensures r == if !HasMagic(file) then NotCompressed
                 else if HeaderParams(file[2]).maxbits > BITS then TooManyBits
                 else Ok(tape.LastDec().out)
  {
    if !HasMagic(file) {
      return NotCompressed;
    }
    var ps := HeaderParams(file[2]);
    if ps.maxbits > BITS {
      return TooManyBits;
    }
    var rd := new Reader(ps, file[3..], tape);
    var d := new Decompressor(rd);
    d.DecodeAll();
    return Ok(d.stdout);
  }

  /**
   Whatever compress writes, decompress turns back into the input: for every input, every width
   limit 9..16, with and without block mode, and however the ratio test comes out.
   */
  method RoundTrip(ps: Params, input: seq<byte>, ratioFell: nat -> bool) returns (r: Result)
    requires ps.Valid()
    ensures r == Ok(input)
  {
    var file, tape := Compress(ps, input, ratioFell);
    assert file[..3][2] == file[2] && file[..3][0] == file[0] && file[..3][1] == file[1];
    assert HeaderParams(file[2]) == ps;
    r := Decompress(file, tape);
  }

  lemma TapeStep(ps: Params, t: Tape, k: nat)
    requires t.Ok(ps) && k < |t.codes|
    ensures Sane(ps, t.ds[k]) && Legal(ps, t.ds[k], t.codes[k])
    ensures t.ds[k + 1] == Step(ps, t.ds[k], t.codes[k]) && Sane(ps, t.ds[k + 1])
    ensures k == 0 ==> t.ds[k] == InitDec(ps)
  {
    assert t.SaneAt(ps, k) && t.StepAt(ps, k) && t.SaneAt(ps, k + 1);
  }

  lemma FirstStep(ps: Params, c: nat)
    requires c < 256
    ensures Step(ps, InitDec(ps), c) == Dec(Running, InitTab(ps), c, [c])
  {
  }

  lemma StepString(ps: Params, d: Dec, c: nat)
    requires Sane(ps, d) && Legal(ps, d, c) && !IsClear(ps, d, c)
    ensures var e := Step(ps, d, c); e.phase.Running? && e.prev == c < |e.tab| && e.tab[c] == StringOf(d, c) != []
    ensures Step(ps, d, c).out == d.out + StringOf(d, c)
  {
    StepSane(ps, d, c);
  }

  /** What the string of a legal code is made of: a known string, or one and its own first byte. */
  lemma StringParts(ps: Params, d: Dec, c: nat)
    requires Sane(ps, d) && Legal(ps, d, c) && !IsClear(ps, d, c)
    ensures c < |d.tab| ==> StringOf(d, c) == d.tab[c] && !(ps.block && c == CLEAR)
    ensures c >= |d.tab| ==>
      && d.phase.Running? && d.prev < |d.tab| && d.tab[d.prev] != [] && !(ps.block && d.prev == CLEAR)
      && StringOf(d, c) == d.tab[d.prev] + [d.tab[d.prev][0]]
    ensures 1 <= |StringOf(d, c)| <= 65536
  {
    MaxMaxBounds(ps);
  }

  lemma Pushed(was: Text, now: Text, x: byte, head: Text)
    requires now == was + [x]
    ensures head + Rev(now) == (head + [x]) + Rev(was)
    ensures Rev(now) == [x] + Rev(was)
  {
    RevSnoc(was, x);
  }

  lemma Popped(o: Text, was: Text, now: Text)
    requires |was| > 0 && now == was[..|was| - 1]
    ensures o + Rev(was) == (o + [was[|was| - 1]]) + Rev(now)
  {
  }
}
