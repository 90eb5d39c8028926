/** atob: what it makes of a text, and of the text that btoa wrote. */
module Base85Atob {
  import opened Bits
  import opened Base85Code
  import opened Base85Sums
  import opened Base85

  datatype Result = Ok(bytes: seq<byte>) | Fatal

  class Atob {
    var sums: Sums
    var word: int
    var bcount: int
    var file: seq<byte>

    constructor ()
      ensures sums == Sums(0, 0, 0) && word == 0 && bcount == 0 && file == []
    {
      sums := Sums(0, 0, 0);
      word, bcount, file := 0, 0, [];
    }

    method ByteOut(c: byte)
      modifies `sums, `file
      ensures file == old(file) + [c]
      ensures old(Checksums(file, sums)) ==> Checksums(file, sums)
    {
      hide Checksums, Update;
      if Checksums(file, sums) { ChecksumsMore(file, sums, c); }
      sums := Update(sums, c);
      file := file + [c];
    }

    /** Fails on characters that do not belong there. */
    method Decode(c: int) returns (ok: bool)
      requires 0 <= bcount <= 4
      modifies this
      ensures 0 <= bcount <= 4 && (old(Checksums(file, sums)) ==> Checksums(file, sums))
      ensures ok <==> (c == LETTERZ && old(bcount) == 0) || BANG <= c < BANG + 85
      ensures c == LETTERZ && ok ==> file == old(file) + [0, 0, 0, 0] && bcount == 0
      ensures c != LETTERZ && ok && old(bcount) < 4 ==> file == old(file) && bcount == old(bcount) + 1
      ensures c != LETTERZ && ok && old(bcount) == 0 ==> word == c - BANG
      ensures c != LETTERZ && ok && 0 < old(bcount) < 4 ==> word == Wrap(Times85(old(word)) + (c - BANG))
      ensures c != LETTERZ && ok && old(bcount) == 4 ==>
        bcount == 0 && file == old(file) + Split(Wrap(Times85(old(word)) + (c - BANG)))
    {
      hide Checksums;
      if c == LETTERZ {
        if bcount != 0 {
          return false;
        }
        ByteOut(0);
        ByteOut(0);
        ByteOut(0);
        ByteOut(0);
      } else if c >= BANG && c < BANG + 85 {
        if bcount == 0 {
          word := c - BANG;
          bcount := bcount + 1;
        } else if bcount < 4 {
          word := Times85(word);
          word := Wrap(word + (c - BANG));
          bcount := bcount + 1;
        } else {
          word := Wrap(Times85(word) + (c - BANG));
          ByteOut(word / 0x100_0000 % 256);
          ByteOut(word / 0x1_0000 % 256);
          ByteOut(word / 0x100 % 256);
          ByteOut(word % 256);
          word := 0;
          bcount := 0;
        }
      } else {
        return false;
      }
      return true;
    }
  }

  /** The four bytes of a signed word; shifts to the right keep the sign. */
  function Split(w: int): seq<byte> {
    [w / 0x100_0000 % 256, w / 0x1_0000 % 256, w / 0x100 % 256, w % 256]
  }

  // ----- What a text stands for -----

  datatype Decoding = Bytes(bytes: seq<byte>) | Bad

  datatype Body = Text(chars: seq<int>) | Open

  predicate IsDigit(c: int) {
    BANG <= c < BANG + 85
  }

  predicate Digits(p: seq<int>) {
    forall k :: 0 <= k < |p| ==> IsDigit(p[k])
  }

  /** The number that base 85 digits spell. */
  function Value(p: seq<int>): int {
    if p == [] then 0 else Value(p[..|p| - 1]) * 85 + (p[|p| - 1] - BANG)
  }

  function After(b: seq<byte>, d: Decoding): Decoding {
    if d.Bad? then Bad else Bytes(b + d.bytes)
  }

  /** Text without line breaks: a z for four zeros, five digits for the word they spell in 32 bits; digits that are
    * left at the end are for nothing. */
  function Words(t: seq<int>): Decoding
    decreases |t|
  {
    if t == [] then Bytes([])
    else if t[0] == LETTERZ then After([0, 0, 0, 0], Words(t[1..]))
    else if |t| < 5 then if Digits(t) then Bytes([]) else Bad
    else if Digits(t[..5]) then After(Split(Wrap(Value(t[..5]))), Words(t[5..]))
    else Bad
  }

  /** The characters up to the letter x, without the line breaks. */
  function BodyOf(stream: seq<int>): Body
    decreases |stream|
  {
    if stream == [] then Open
    else if stream[0] == LETTERX then Text([])
    else
      var rest := BodyOf(stream[1..]);
      if rest.Open? || stream[0] == NEWLINE then rest else Text([stream[0]] + rest.chars)
  }

  /** The digits p have been read, and the body is to come. */
  function Left(p: seq<int>, body: Body): Decoding {
    if body.Open? then Bad else Words(p + body.chars)
  }

  /** How many bytes `for (i = n; --i >= 0;)` copies: the least number wraps to the greatest one. */
  function Copies(n: int): nat {
    if n == -TWO31 then TWO31 else if n > 0 then n else 0
  }

  /** n bytes of the file; where it has no more, getc gives EOF, which is written as 255. */
  function Copied(file: seq<byte>, n: int): seq<byte> {
    seq(Copies(n), k => if 0 <= k < |file| then file[k] else 255)
  }

  /** What atob gives back: the text must be one, and its last line must have been read, with the count twice and
    * the checksums of the bytes. */
  ghost function Restored(stream: seq<int>, scanned: bool, t: Trailer): Result {
    match Left([], BodyOf(stream))
    case Bad => Fatal
    case Bytes(file) => if scanned && t.n1 == t.n2 && Checksums(file, t.sums) then Ok(Copied(file, t.n1)) else Fatal
  }

  // ----- Reading a text -----

  lemma AfterTwice(a: seq<byte>, b: seq<byte>, d: Decoding)
    ensures After(a, After(b, d)) == After(a + b, d)
  {
    if d.Bytes? {
      assert a + (b + d.bytes) == a + b + d.bytes;
    }
  }

  lemma AfterNothing(d: Decoding)
    ensures After([], d) == d
  {
  }

  /** One more character that is neither a line break nor the end. */
  lemma Shifted(p: seq<int>, stream: seq<int>)
    requires stream != [] && stream[0] != LETTERX && stream[0] != NEWLINE
    ensures Left(p, BodyOf(stream)) == Left(p + [stream[0]], BodyOf(stream[1..]))
  {
    hide Words;
    var rest := BodyOf(stream[1..]);
    if rest.Text? {
      assert p + ([stream[0]] + rest.chars) == p + [stream[0]] + rest.chars;
    }
  }

  lemma ZeroWord(body: Body)
    ensures Left([LETTERZ], body) == After([0, 0, 0, 0], Left([], body))
  {
    if body.Text? {
      var t := [LETTERZ] + body.chars;
      assert t[1..] == body.chars == [] + body.chars;
    }
  }

  lemma FullWord(p: seq<int>, body: Body)
    requires |p| == 5 && Digits(p)
    ensures Left(p, body) == After(Split(Wrap(Value(p))), Left([], body))
  {
    hide Value, Split, Wrap;
    if body.Text? {
      var t := p + body.chars;
      assert IsDigit(t[0]);
      assert t[..5] == p && t[5..] == body.chars == [] + body.chars;
    }
  }

  lemma Leftover(p: seq<int>)
    requires |p| < 5 && Digits(p)
    ensures Left(p, Text([])) == Bytes([])
  {
    assert p + [] == p;
    assert p != [] ==> IsDigit(p[0]);
  }

  lemma BadCharacter(p: seq<int>, c: int, body: Body)
    requires |p| < 5 && Digits(p) && !IsDigit(c) && (c == LETTERZ ==> p != [])
    ensures Left(p + [c], body) == Bad
  {
    hide Value, Split, Wrap;
    if body.Text? {
      var t := p + [c] + body.chars;
      assert t[|p|] == c;
      assert p != [] ==> t[0] == p[0] && IsDigit(p[0]);
      assert |t| >= 5 ==> t[..5][|p|] == c;
    }
  }

  lemma ValueMore(p: seq<int>, c: int)
    ensures Value(p + [c]) == Value(p) * 85 + (c - BANG)
  {
    assert (p + [c])[..|p|] == p;
  }

  /** Multiplying by 85 in wrapping arithmetic spells the same word as the digits do. */
  lemma WordSoFar(p: seq<int>, c: int)
    requires Digits(p) && IsDigit(c)
    ensures Wrap(Times85(Wrap(Value(p))) + (c - BANG)) == Wrap(Value(p + [c]))
    ensures p == [] ==> c - BANG == Wrap(Value(p + [c]))
  {
    hide Times85, Value;
    var x := Value(p);
    ValueMore(p, c);
    Times85Is(Wrap(x));
    WrapTimes(x);
    WrapSum(85 * x, c - BANG);
    NoDigits();
    WrapSame(c - BANG);
  }

  lemma NoDigits()
    ensures Value([]) == 0
  {
  }

  lemma WrapTimes(x: int)
    ensures Wrap(85 * Wrap(x)) == Wrap(85 * x)
  {
    var q := (x + TWO31) / TWO32;
    assert Wrap(x) == x - TWO32 * q;
    WrapTurns(85 * x, -85 * q);
  }

  /** Digits p have been taken in, and the bytes of all words before them. */
  ghost predicate Reading(a: Atob, p: seq<int>)
    reads a
  {
    a.bcount == |p| <= 4 && Digits(p) && Checksums(a.file, a.sums) && (p != [] ==> a.word == Wrap(Value(p)))
  }

  /** One character; body is what comes after it. */
  method Take(a: Atob, c: int, ghost p: seq<int>, ghost body: Body) returns (ok: bool, ghost p': seq<int>)
    requires Reading(a, p)
    modifies a
    ensures ok ==> Reading(a, p')
    ensures ok ==> After(old(a.file), Left(p + [c], body)) == After(a.file, Left(p', body))
    ensures !ok ==> Left(p + [c], body) == Bad
  {
    hide Left, Words, Checksums, Times85, Wrap, Split, Value;
    ghost var was := a.file;
    if IsDigit(c) {
      WordSoFar(p, c);
      if |p| == 4 {
        FullWord(p + [c], body);
        AfterTwice(was, Split(Wrap(Value(p + [c]))), Left([], body));
      }
    } else if c == LETTERZ && p == [] {
      assert p + [c] == [LETTERZ];
      ZeroWord(body);
      AfterTwice(was, [0, 0, 0, 0], Left([], body));
    } else {
      BadCharacter(p, c, body);
    }
    p' := if c == LETTERZ || |p| == 4 then [] else p + [c];
    ok := a.Decode(c);
  }

  /** Decodes up to the letter that marks the end; what follows it was scanned if scanned is true. */
  method MainAtob(stream: seq<int>, scanned: bool, t: Trailer) returns (r: Result)
    requires -TWO31 <= t.n1 < TWO31
    ensures r == Restored(stream, scanned, t)
  {
    hide Left, Words, Checksums, Copied, BodyOf;
    var a := new Atob();
    ChecksumsNone();
    var i, ended := 0, false;
    ghost var p: seq<int> := [];
    ghost var whole := Left([], BodyOf(stream));
    assert stream[0..] == stream;
    AfterNothing(whole);
    while i < |stream| && !ended
      invariant 0 <= i <= |stream| && fresh(a) && Reading(a, p)
      invariant !ended ==> whole == After(a.file, Left(p, BodyOf(stream[i..])))
      invariant ended ==> whole == Bytes(a.file)
      decreases |stream| - i, if ended then 0 else 1
    {
      var c := stream[i];
      ghost var s := stream[i..];
      assert s[1..] == stream[i + 1..];
      FirstOfBody(s);
      i := i + 1;
      if c == NEWLINE {
      } else if c == LETTERX {
        Leftover(p);
        ended := true;
      } else {
        Shifted(p, s);
        var ok;
        ok, p := Take(a, c, p, BodyOf(stream[i..]));
        if !ok {
          return Fatal;
        }
      }
    }
    if !ended {
      NoEnd(p);
      assert stream[i..] == [];
      return Fatal;
    }
    if Checksums(a.file, t.sums) { ChecksumsOnce(a.file, t.sums, a.sums); }
    if !scanned || t.n1 != t.n2 || t.sums != a.sums {
      return Fatal;
    }
    var out := CopyOut(a.file, t.n1);
    return Ok(out);
  }

  lemma FirstOfBody(s: seq<int>)
    requires s != []
    ensures s[0] == LETTERX ==> BodyOf(s) == Text([])
    ensures s[0] == NEWLINE ==> BodyOf(s) == BodyOf(s[1..])
  {
  }

  lemma NoEnd(p: seq<int>)
    ensures Left(p, BodyOf([])) == Bad
  {
  }

  method CopyOut(file: seq<byte>, n: int) returns (out: seq<byte>)
    requires -TWO31 <= n < TWO31
    ensures out == Copied(file, n)
  {
    out := [];
    FirstCount(n);
    var i := Wrap(n - 1);
    while i >= 0
      invariant if Copies(n) > 0 then -1 <= i < TWO31 && |out| == Copies(n) - 1 - i else i < 0 && out == []
      invariant forall k :: 0 <= k < |out| ==> out[k] == if k < |file| then file[k] else 255
    {
      out := out + [if |out| < |file| then file[|out|] else 255];
      i := Wrap(i - 1);
    }
  }

  lemma FirstCount(n: int)
    requires -TWO31 <= n < TWO31
    ensures if Copies(n) > 0 then Wrap(n - 1) == Copies(n) - 1 else Wrap(n - 1) < 0
  {
  }

  // ----- There and back -----

  lemma {:induction false} EncodedFront(w: seq<byte>, b: seq<byte>)
    requires |w| == 4 && |b| % 4 == 0
    ensures Encoded(w + b) == Chars(WordOf(w)) + Encoded(b)
    decreases |b|
  {
    hide Chars, WordOf;
    if b == [] {
      assert w + b == [] + w;
      EncodedMore([], w);
    } else {
      var m := |b| - 4;
      assert w + b == w + b[..m] + b[m..] && b == b[..m] + b[m..];
      EncodedMore(w + b[..m], b[m..]);
      EncodedMore(b[..m], b[m..]);
      EncodedFront(w, b[..m]);
    }
  }

  lemma SpelledWord(u: int)
    requires 0 < u < TWO32
    ensures Digits(Chars(u)) && Value(Chars(u)) == u
  {
    hide Digit;
    var c := Chars(u);
    forall k | 0 <= k < 5
      ensures IsDigit(c[k])
    {
      DigitRange(u, k);
    }
    SpelledPart(u, 5);
    assert c[..5] == c;
    LeadingAll(u);
  }

  lemma {:induction false} SpelledPart(u: int, k: nat)
    requires u != 0 && k <= 5
    ensures Value(Chars(u)[..k]) == Leading(u, k)
  {
    hide Digit;
    if k > 0 {
      SpelledPart(u, k - 1);
      assert Chars(u)[..k][..k - 1] == Chars(u)[..k - 1];
      assert Chars(u)[k - 1] == BANG + Digit(u, k - 1);
    }
  }

  lemma SplitWord(b: seq<byte>)
    requires |b| == 4
    ensures Split(Wrap(WordOf(b))) == b
  {
    hide WordOf;
    var u := WordOf(b);
    WordRange(b);
    BytesOfWord(b);
    assert Wrap(u) == u || Wrap(u) == u - TWO32;
    if Wrap(u) != u {
      HighBytes(u);
    }
  }

  lemma HighByte(u: int, p: int, k: int)
    requires p > 0 && k * p == TWO32 && k % 256 == 0
    ensures (u - TWO32) / p % 256 == u / p % 256
  {
    var q := u / p;
    assert u - TWO32 == p * (q - k) + u % p;
    DivUnique(u - TWO32, p, q - k, u % p);
    assert (q - k) % 256 == q % 256 by {
      assert k == 256 * (k / 256);
    }
  }

  lemma HighBytes(u: int)
    ensures (u - TWO32) / 0x100_0000 % 256 == u / 0x100_0000 % 256
    ensures (u - TWO32) / 0x1_0000 % 256 == u / 0x1_0000 % 256
    ensures (u - TWO32) / 0x100 % 256 == u / 0x100 % 256 && (u - TWO32) % 256 == u % 256
  {
    HighByte(u, 0x100_0000, 0x100);
    HighByte(u, 0x1_0000, 0x1_0000);
    HighByte(u, 0x100, 0x100_0000);
    HighByte(u, 1, TWO32);
  }

  /** The code of one word stands for it, whatever follows. */
  lemma OneWord(w: seq<byte>, t: seq<int>)
    requires |w| == 4
    ensures Words(Chars(WordOf(w)) + t) == After(w, Words(t))
  {
    hide Words, Chars, WordOf, Value, Split, Wrap;
    var u := WordOf(w);
    WordRange(w);
    assert Chars(u) + t == Chars(u) + Text(t).chars && [] + t == t;
    if u == 0 {
      NothingWord(w);
      ZeroWord(Text(t));
    } else {
      CharsSize(u);
      SpelledWord(u);
      FullWord(Chars(u), Text(t));
      SplitWord(w);
    }
  }

  lemma NothingWord(w: seq<byte>)
    requires |w| == 4 && WordOf(w) == 0
    ensures w == [0, 0, 0, 0] && Chars(WordOf(w)) == [LETTERZ]
  {
  }

  lemma CharsSize(u: int)
    ensures |Chars(u)| == if u == 0 then 1 else 5
  {
  }

  /** The code of whole words stands for them. */
  lemma {:induction false} WordsEncoded(b: seq<byte>)
    requires |b| % 4 == 0
    ensures Words(Encoded(b)) == Bytes(b)
    decreases |b|
  {
    hide Chars, WordOf;
    if b != [] {
      var w, rest := b[..4], b[4..];
      assert b == w + rest;
      EncodedFront(w, rest);
      OneWord(w, Encoded(rest));
      WordsEncoded(rest);
    }
  }

  lemma {:induction false} StripFront(c: int, t: seq<int>)
    ensures Strip([c] + t) == (if c == NEWLINE then [] else [c]) + Strip(t)
    decreases |t|
  {
    if t == [] {
      assert [c] + t == [] + [c];
      StripMore([], c);
    } else {
      var m := |t| - 1;
      assert [c] + t == [c] + t[..m] + [t[m]] && t == t[..m] + [t[m]];
      StripMore([c] + t[..m], t[m]);
      StripMore(t[..m], t[m]);
      StripFront(c, t[..m]);
    }
  }

  /** The body of what btoa wrote is what it encoded. */
  lemma {:induction false} BodyStripped(text: seq<int>)
    requires forall i :: 0 <= i < |text| ==> text[i] != LETTERX
    ensures BodyOf(text + [NEWLINE, LETTERX]) == Text(Strip(text))
    decreases |text|
  {
    var stream := text + [NEWLINE, LETTERX];
    if text == [] {
      assert stream[1..] == [LETTERX];
    } else {
      assert stream[1..] == text[1..] + [NEWLINE, LETTERX];
      assert [text[0]] + text[1..] == text;
      StripFront(text[0], text[1..]);
      BodyStripped(text[1..]);
    }
  }

  lemma NoLetterX(text: seq<int>, count: int)
    requires LinesOk(text, count)
    ensures forall i :: 0 <= i < |text| ==> text[i] != LETTERX
  {
  }

  lemma CopiedBack(s: seq<byte>)
    ensures Copied(Padded(s), Wrap(|s|)) == s <==> |s| <= TWO31
    ensures |s| > TWO31 ==> |Copied(Padded(s), Wrap(|s|))| < |s|
  {
    var b, n := Padded(s), Wrap(|s|);
    CountCopied(|s|);
    PaddedWhole(s);
    if |s| <= TWO31 {
      forall k | 0 <= k < |s|
        ensures Copied(b, n)[k] == s[k]
      {
        assert b[..|s|][k] == b[k];
      }
    }
  }

  lemma CountCopied(n: nat)
    ensures n <= TWO31 ==> Copies(Wrap(n)) == n
    ensures n > TWO31 ==> Copies(Wrap(n)) < n
  {
  }

  /** atob gives back what btoa was given exactly when that is at most 2^31 bytes long. */
  method RoundTrip(s: seq<byte>) returns (r: Result)
    ensures r.Ok? && (r.bytes == s <==> |s| <= TWO31)
    ensures |s| > TWO31 ==> |r.bytes| < |s|
  {
    hide Strip, Encoded, Checksums, Padded, LinesOk, Words, BodyOf, Copied;
    var text, t := Main85(s);
    PaddedWhole(s);
    NoLetterX(text, |text| % (MAXPERLINE + 1));
    BodyStripped(text);
    WordsEncoded(Padded(s));
    assert [] + Encoded(Padded(s)) == Encoded(Padded(s));
    WrapSame(|s|);
    CopiedBack(s);
    r := MainAtob(text + [NEWLINE, LETTERX], true, t);
  }
}
