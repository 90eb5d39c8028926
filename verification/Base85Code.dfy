/** The base 85 code of btoa and atob: words and digits in 32-bit arithmetic. */
module Base85Code {
  import opened Bits

  const TWO31 := 0x8000_0000
  const TWO32 := 0x1_0000_0000
  const P4 := 85 * 85 * 85 * 85
  const P3 := 85 * 85 * 85
  const P2 := 85 * 85
  const NEWLINE := 10
  const BANG := 33
  const LETTERX := 120
  const LETTERZ := 122

  /** What a signed 32-bit variable holds. */
  function Wrap(x: int): int {
    (x + TWO31) % TWO32 - TWO31
  }

  function Unsigned(x: int): int {
    x % TWO32
  }

  lemma WrapSame(x: int)
    ensures Unsigned(Wrap(x)) == Unsigned(x) && -TWO31 <= Wrap(x) < TWO31
    ensures -TWO31 <= x < TWO31 ==> Wrap(x) == x
  {
  }

  lemma WrapSum(x: int, y: int)
    ensures Wrap(Wrap(x) + y) == Wrap(x + y)
  {
  }

  lemma WrapTurns(x: int, k: int)
    ensures Wrap(x + TWO32 * k) == Wrap(x)
  {
    assert (x + TWO31 + TWO32 * k) % TWO32 == (x + TWO31) % TWO32;
  }

  lemma WrapFour(x: int)
    ensures Wrap(4 * Wrap(x)) == Wrap(4 * x)
  {
    var q := (x + TWO31) / TWO32;
    assert Wrap(x) == x - TWO32 * q;
    WrapTurns(4 * x, -4 * q);
  }

  /** By shifts and additions, each of them wrapping. */
  function Times85(x: int): int {
    Wrap(Wrap(4 * Wrap(Wrap(4 * Wrap(Wrap(4 * x) + x)) + x)) + x)
  }

  lemma Times85Is(x: int)
    ensures Times85(x) == Wrap(85 * x)
  {
    WrapSum(4 * x, x);
    WrapFour(5 * x);
    WrapSum(20 * x, x);
    WrapFour(21 * x);
    WrapSum(84 * x, x);
  }

  // ----- Words and digits -----

  /** Four bytes as an unsigned word, the first one highest. */
  function WordOf(b: seq<byte>): int
    requires |b| == 4
  {
    0x100_0000 * (b[0] as int) + 0x1_0000 * (b[1] as int) + 0x100 * (b[2] as int) + (b[3] as int)
  }

  lemma WordRange(b: seq<byte>)
    requires |b| == 4
    ensures 0 <= WordOf(b) < TWO32
  {
  }

  lemma BytesOfWord(b: seq<byte>)
    requires |b| == 4
    ensures WordOf(b) / 0x100_0000 % 256 == b[0] && WordOf(b) / 0x1_0000 % 256 == b[1]
    ensures WordOf(b) / 0x100 % 256 == b[2] && WordOf(b) % 256 == b[3]
  {
    var u, b0: int, b1: int, b2: int, b3: int := WordOf(b), b[0], b[1], b[2], b[3];
    assert u == 0x1_0000 * (256 * b0 + b1) + (256 * b2 + b3);
    assert u / 0x1_0000 == 256 * b0 + b1;
    assert u == 0x100 * (0x1_0000 * b0 + 0x100 * b1 + b2) + b3;
    assert u / 0x100 == 0x1_0000 * b0 + 0x100 * b1 + b2;
  }

  /** Digit k from the top of an unsigned word: its base 85 expansion. */
  function Digit(u: int, k: nat): int
    requires k < 5
  {
    if k == 0 then u / P4
    else if k == 1 then u / P3 % 85
    else if k == 2 then u / P2 % 85
    else if k == 3 then u / 85 % 85
    else u % 85
  }

  /** The value of the first k digits. */
  function Leading(u: int, k: nat): int
    requires k <= 5
  {
    if k == 0 then 0 else Leading(u, k - 1) * 85 + Digit(u, k - 1)
  }

  lemma DigitRange(u: int, k: nat)
    requires 0 <= u < TWO32 && k < 5
    ensures 0 <= Digit(u, k) < 85
  {
  }

  /** The digits of a word determine it. */
  lemma LeadingAll(u: int)
    requires 0 <= u < TWO32
    ensures Leading(u, 5) == u && 0 <= Leading(u, 4) < P4
  {
    assert Leading(u, 1) == u / P4;
    LeadingSteps(u);
    assert Leading(u, 2) == u / P3;
    assert Leading(u, 3) == u / P2;
    assert Leading(u, 4) == u / 85;
  }

  lemma LeadingSteps(u: int)
    requires u >= 0
    ensures u / P4 * 85 + u / P3 % 85 == u / P3
    ensures u / P3 * 85 + u / P2 % 85 == u / P2
    ensures u / P2 * 85 + u / 85 % 85 == u / 85
    ensures u / 85 * 85 + u % 85 == u
  {
    assert u / P4 == u / P3 / 85;
    assert u / P3 == u / P2 / 85;
    assert u / P2 == u / 85 / 85;
  }

  /** The characters for a word. */
  function Chars(u: int): seq<int> {
    if u == 0 then [LETTERZ]
    else [BANG + Digit(u, 0), BANG + Digit(u, 1), BANG + Digit(u, 2), BANG + Digit(u, 3), BANG + Digit(u, 4)]
  }

  /** The text for whole words, without line breaks. */
  ghost function Encoded(b: seq<byte>): seq<int>
    requires |b| % 4 == 0
    decreases |b|
  {
    if b == [] then [] else Encoded(b[..|b| - 4]) + Chars(WordOf(b[|b| - 4..]))
  }

  lemma EncodedMore(b: seq<byte>, w: seq<byte>)
    requires |b| % 4 == 0 && |w| == 4
    ensures Encoded(b + w) == Encoded(b) + Chars(WordOf(w))
  {
    assert (b + w)[..|b|] == b && (b + w)[|b|..] == w;
  }

  /** Text without its line breaks. */
  ghost function Strip(t: seq<int>): seq<int> {
    if t == [] then [] else Strip(t[..|t| - 1]) + (if t[|t| - 1] == NEWLINE then [] else [t[|t| - 1]])
  }

  lemma StripMore(t: seq<int>, c: int)
    ensures Strip(t + [c]) == Strip(t) + (if c == NEWLINE then [] else [c])
  {
    assert (t + [c])[..|t|] == t;
  }
}
