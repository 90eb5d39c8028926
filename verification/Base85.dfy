/** btoa: bytes to text. */
module Base85 {
  import opened Bits
  import opened Base85Code
  import opened Base85Sums

  const MAXPERLINE := 78

  /** The last line of the encoded file, as numbers; n is there twice. */
  datatype Trailer = Trailer(n1: int, n2: int, sums: Sums)

  class Btoa {
    var sums: Sums
    var ccount: int
    var bcount: int
    var word: int
    var text: seq<int>

    constructor ()
      ensures sums == Sums(0, 0, 0) && ccount == 0 && bcount == 0 && text == [] && word == 0
    {
      sums := Sums(0, 0, 0);
      ccount, bcount, word, text := 0, 0, 0, [];
    }

    /** After the bytes b: what is printed, and the word that is being put together. */
    ghost predicate Holds(b: seq<byte>)
      reads this
    {
      var n := |b| - |b| % 4;
      && bcount == |b| % 4
      && Strip(text) == Encoded(b[..n]) && LinesOk(text, ccount)
      && Checksums(b, sums)
      && Unsigned(word) % Power(bcount) == Partial(b[n..])
    }

    method CharOut(c: int)
      requires c != NEWLINE && c != LETTERX && LinesOk(text, ccount)
      modifies `text, `ccount
      ensures Strip(text) == old(Strip(text)) + [c] && LinesOk(text, ccount)
    {
      StripMore(text, c);
      MoreInLine(text, ccount, c);
      text := text + [c];
      ccount := ccount + 1;
      if ccount == MAXPERLINE {
        StripMore(text, NEWLINE);
        LineFull(text);
        text := text + [NEWLINE];
        ccount := 0;
      }
    }

    method WordOut(w: int)
      requires -TWO31 <= w < TWO31 && LinesOk(text, ccount)
      modifies `text, `ccount
      ensures LinesOk(text, ccount)
      ensures Strip(text) == old(Strip(text)) + Chars(Unsigned(w))
    {
      hide Strip, LinesOk, Digit;
      if w == 0 {
        CharOut(LETTERZ);
      } else {
        var d0, d1, d2, d3, d4 := Expand(w);
        FiveOut(d0, d1, d2, d3, d4);
      }
    }

    method FiveOut(d0: int, d1: int, d2: int, d3: int, d4: int)
      requires 0 <= d0 < 85 && 0 <= d1 < 85 && 0 <= d2 < 85 && 0 <= d3 < 85 && 0 <= d4 < 85
      requires LinesOk(text, ccount)
      modifies `text, `ccount
      ensures LinesOk(text, ccount)
      ensures Strip(text) == old(Strip(text)) + [BANG + d0, BANG + d1, BANG + d2, BANG + d3, BANG + d4]
    {
      hide Strip, LinesOk;
      CharOut(d0 + BANG);
      CharOut(d1 + BANG);
      CharOut(d2 + BANG);
      CharOut(d3 + BANG);
      CharOut(d4 + BANG);
    }

    method Encode(c: byte, ghost b: seq<byte>)
      requires Holds(b)
      modifies this
      ensures Holds(b + [c])
    {
      hide Strip, Encoded, Checksums, LinesOk, Chars, WordOf, Partial, Power, Unsigned, Wrap, Update;
      ChecksumsMore(b, sums, c);
      sums := Update(sums, c);
      ghost var n := |b| - |b| % 4;
      ghost var was := word;
      word := Wrap(Wrap(word * 256) + c);
      WordMore(was, c, b[n..], bcount);
      WrapSame(Wrap(was * 256) + c);
      assert (b + [c])[n..] == b[n..] + [c];
      if bcount == 3 {
        WordFull(word, b[n..] + [c]);
        WordOut(word);
        EncodedMore(b[..n], b[n..] + [c]);
        assert b[..n] + (b[n..] + [c]) == b + [c];
        bcount := 0;
        Whole(b + [c]);
        PartialNone(word);
      } else {
        bcount := bcount + 1;
        assert (b + [c])[..n] == b[..n];
      }
    }
  }

  /** The base 85 digits of a word, found with signed arithmetic only. */
  method Expand(w: int) returns (d0: int, d1: int, d2: int, d3: int, d4: int)
    requires -TWO31 <= w < TWO31
    ensures d0 == Digit(Unsigned(w), 0) && d1 == Digit(Unsigned(w), 1) && d2 == Digit(Unsigned(w), 2)
    ensures d3 == Digit(Unsigned(w), 3) && d4 == Digit(Unsigned(w), 4)
    ensures 0 <= d0 < 85 && 0 <= d1 < 85 && 0 <= d2 < 85 && 0 <= d3 < 85 && 0 <= d4 < 85
  {
    hide Digit;
    var tmp, rest := 0, w;
    TopDigit(w);
    if rest < 0 {
      tmp := 32;
      rest := Wrap(rest - 85 * 85 * 85 * 85 * 32);
    }
    if rest < 0 {
      tmp := 64;
      rest := Wrap(rest - 85 * 85 * 85 * 85 * 32);
    }
    ghost var u := Unsigned(w);
    Quotients(u, rest, tmp);
    d0 := rest / (85 * 85 * 85 * 85) + tmp;
    rest := rest % (85 * 85 * 85 * 85);
    d1 := rest / (85 * 85 * 85);
    rest := rest % (85 * 85 * 85);
    d2 := rest / (85 * 85);
    rest := rest % (85 * 85);
    d3 := rest / 85;
    d4 := rest % 85;
    LowDigits(u, d0);
    DigitRange(u, 0);
    DigitRange(u, 1);
    DigitRange(u, 2);
    DigitRange(u, 3);
    DigitRange(u, 4);
  }

  lemma Quotients(u: int, rest: int, tmp: int)
    requires u == rest + tmp * P4
    ensures u / P4 == rest / P4 + tmp && u % P4 == rest % P4
  {
  }

  /** Every line has 78 characters and a line break, but the last one, which has count characters, fewer than 78, and
    * no line break. No line contains the letter that ends the text. */
  ghost predicate LinesOk(text: seq<int>, count: int) {
    count < MAXPERLINE && Lines(text, count)
  }

  ghost predicate Lines(text: seq<int>, count: int) {
    && 0 <= count <= |text| && (|text| - count) % (MAXPERLINE + 1) == 0
    && (forall i :: 0 <= i < |text| ==> text[i] != LETTERX)
    && forall i :: 0 <= i < |text| ==> (text[i] == NEWLINE <==> i % (MAXPERLINE + 1) == MAXPERLINE)
  }

  lemma MoreInLine(text: seq<int>, count: int, c: int)
    requires LinesOk(text, count) && c != LETTERX && c != NEWLINE
    ensures Lines(text + [c], count + 1)
  {
    assert |text| % (MAXPERLINE + 1) == count;
  }

  lemma LineFull(text: seq<int>)
    requires Lines(text, MAXPERLINE)
    ensures LinesOk(text + [NEWLINE], 0)
  {
    assert |text| % (MAXPERLINE + 1) == MAXPERLINE;
  }

  function Power(k: int): int {
    if k == 0 then 1 else if k == 1 then 0x100 else if k == 2 then 0x1_0000 else if k == 3 then 0x100_0000 else TWO32
  }

  /** The bytes of an unfinished word. */
  function Partial(w: seq<byte>): int
    requires |w| <= 4
  {
    if |w| == 0 then 0
    else if |w| == 1 then w[0] as int
    else if |w| == 2 then 0x100 * (w[0] as int) + (w[1] as int)
    else if |w| == 3 then 0x1_0000 * (w[0] as int) + 0x100 * (w[1] as int) + (w[2] as int)
    else WordOf(w)
  }

  lemma PartialNone(w: int)
    ensures Unsigned(w) % Power(0) == Partial([])
  {
  }

  lemma WordMore(was: int, c: byte, w: seq<byte>, k: int)
    requires 0 <= k == |w| <= 3 && Unsigned(was) % Power(k) == Partial(w)
    ensures Unsigned(Wrap(Wrap(was * 256) + c)) % Power(k + 1) == Partial(w + [c])
  {
    var x := was * 256 + c;
    WrapSum(was * 256, c);
    WrapSame(x);
    ModMod(x, k + 1);
    ModMod(was, k);
    ShiftMod(was, c, k);
  }

  lemma ModMod(x: int, k: int)
    requires 0 <= k <= 4
    ensures Unsigned(x) % Power(k) == x % Power(k)
  {
    var q := x / TWO32;
    assert x == TWO32 * q + Unsigned(x);
  }

  lemma ShiftMod(x: int, c: byte, k: int)
    requires 0 <= k <= 3
    ensures (x * 256 + c) % Power(k + 1) == 256 * (x % Power(k)) + c
  {
  }

  lemma WordFull(word: int, w: seq<byte>)
    requires |w| == 4 && Unsigned(word) % Power(4) == Partial(w) && -TWO31 <= word < TWO31
    ensures Unsigned(word) == WordOf(w)
  {
  }

  lemma Whole(b: seq<byte>)
    requires |b| % 4 == 0
    ensures b[..|b|] == b && b[|b|..] == []
  {
  }

  /** Two conditional subtractions take 32 or 64 from the top digit of a word that is negative as a signed one. */
  lemma TopDigit(w: int)
    requires -TWO31 <= w < TWO31
    ensures var m := 32 * P4;
      && (w >= 0 ==> Unsigned(w) == w)
      && (w < 0 ==> Wrap(w - m) == (if Unsigned(w) - m < TWO31 then Unsigned(w) - m else Unsigned(w) - m - TWO32))
      && (w < 0 && Wrap(w - m) < 0 ==> Wrap(Wrap(w - m) - m) == Unsigned(w) - 2 * m >= 0)
  {
  }

  lemma LowDigits(u: int, d0: int)
    requires 0 <= u < TWO32 && d0 == u / P4
    ensures d0 == Digit(u, 0) < 85
    ensures u % P4 / P3 == Digit(u, 1) && u % P4 % P3 / P2 == Digit(u, 2)
    ensures u % P4 % P3 % P2 / 85 == Digit(u, 3) && u % P4 % P3 % P2 % 85 == Digit(u, 4)
  {
    LowStep(u, P3);
    LowStep(u, P2);
    LowStep(u, 85);
    DigitRange(u, 0);
  }

  /** A digit found after the higher ones were taken away. */
  lemma LowStep(u: int, q: int)
    requires u >= 0 && q > 0
    ensures u % (85 * q) / q == u / q % 85 && u % (85 * q) % q == u % q
  {
    DivMod(u, q);
    DivMod(u / q, 85);
    LowParts(u, q, u / q, u % q, u / q / 85, u / q % 85);
  }

  lemma DivMod(x: int, p: int)
    requires p > 0
    ensures x == p * (x / p) + x % p && 0 <= x % p < p
  {
  }

  lemma LowParts(u: int, q: int, x: int, r: int, y: int, s: int)
    requires q > 0 && u == q * x + r && 0 <= r < q && x == 85 * y + s && 0 <= s < 85
    ensures u % (85 * q) / q == s && u % (85 * q) % q == r
  {
    LowSum(q, x, y, s, r);
    DivUnique(u, 85 * q, y, q * s + r);
    DivUnique(q * s + r, q, s, r);
  }

  lemma LowSum(q: int, x: int, y: int, s: int, r: int)
    requires q > 0 && x == 85 * y + s && 0 <= r < q && 0 <= s < 85
    ensures q * x + r == 85 * q * y + (q * s + r) && 0 <= q * s + r < 85 * q
  {
    assert q * x == q * (85 * y) + q * s;
    assert q * s <= q * 84;
  }

  /** The bytes are padded with zeros to whole words. */
  ghost function Padded(s: seq<byte>): seq<byte> {
    if |s| % 4 == 0 then s else s + seq(4 - |s| % 4, i => 0)
  }

  /** The text between the first and the last line, and the numbers of the last line. */
  method Main85(s: seq<byte>) returns (text: seq<int>, t: Trailer)
    ensures LinesOk(text, |text| % (MAXPERLINE + 1)) && Strip(text) == Encoded(Padded(s))
    ensures t.n1 == t.n2 == Wrap(|s|) && Checksums(Padded(s), t.sums)
  {
    hide Strip, Encoded, Checksums, LinesOk, Padded, Partial;
    var e := new Btoa();
    BtoaStart(e);
    var n := EncodeAll(e, s);
    Pad(e, s);
    ghost var b := Padded(s);
    PaddedWhole(s);
    Whole(b);
    LastLine(e.text, e.ccount);
    return e.text, Trailer(n, n, e.sums);
  }

  lemma LastLine(text: seq<int>, count: int)
    requires LinesOk(text, count)
    ensures count == |text| % (MAXPERLINE + 1)
  {
  }

  lemma BtoaStart(e: Btoa)
    requires e.sums == Sums(0, 0, 0) && e.ccount == 0 && e.bcount == 0 && e.text == [] && e.word == 0
    ensures e.Holds([])
  {
    ChecksumsNone();
  }

  method EncodeAll(e: Btoa, s: seq<byte>) returns (n: int)
    requires e.Holds([])
    modifies e
    ensures e.Holds(s) && n == Wrap(|s|)
  {
    hide Strip, Encoded, Checksums, LinesOk, Partial, Power, Unsigned;
    n := 0;
    var i := 0;
    assert s[..0] == [];
    while i < |s|
      invariant 0 <= i <= |s| && e.Holds(s[..i]) && n == Wrap(i)
    {
      assert s[..i + 1] == s[..i] + [s[i]];
      e.Encode(s[i], s[..i]);
      WrapSum(i, 1);
      n := Wrap(n + 1);
      i := i + 1;
    }
    assert s[..|s|] == s;
  }

  method Pad(e: Btoa, s: seq<byte>)
    requires e.Holds(s)
    modifies e
    ensures e.Holds(Padded(s)) && e.bcount == 0
  {
    hide Strip, Encoded, Checksums, LinesOk, Partial;
    ghost var b, k := s, 0;
    while e.bcount != 0
      invariant e.Holds(b) && b == s + seq(k, i => 0) && 0 <= k <= |Padded(s)| - |s|
      decreases |Padded(s)| - |s| - k
    {
      e.Encode(0, b);
      b := b + [0];
      k := k + 1;
    }
    assert |b| % 4 == 0;
    assert b == Padded(s);
  }

  lemma PaddedWhole(s: seq<byte>)
    ensures |Padded(s)| % 4 == 0 && |s| <= |Padded(s)| && Padded(s)[..|s|] == s
  {
  }
}
