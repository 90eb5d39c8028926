/** The digit buffers of dc and the arithmetic on them. */
module DcBlock {
  import opened DcNumber

  const EOF := -1

  /** data runs from beg to wt; rd is how far rd is from beg. */
  class Blk {
    var data: seq<int>
    var rd: nat

    constructor (digits: seq<int>)
      ensures data == digits && rd == 0
    {
      data := digits;
      rd := 0;
    }

    method Rewind()
      modifies `rd
      ensures rd == 0
    {
      rd := 0;
    }

    method Fsfile()
      modifies `rd
      ensures rd == |data|
    {
      rd := |data|;
    }

    predicate Sfeof()
      reads this
    {
      rd == |data|
    }

    predicate Sfbeg()
      reads this
    {
      rd == 0
    }

    method Sgetc() returns (c: int)
      requires rd <= |data|
      modifies `rd
      ensures rd == (if old(rd) < |data| then old(rd) + 1 else old(rd))
      ensures c == if old(rd) < |data| then data[old(rd)] else EOF
    {
      if Sfeof() {
        return EOF;
      }
      c := data[rd];
      rd := rd + 1;
    }

    function Slookc(): int
      requires rd <= |data|
      reads this
    {
      if Sfeof() then EOF else data[rd]
    }

    /** As mult reads its result: zero at the end. */
    function SlookOrZero(): int
      requires rd <= |data|
      reads this
    {
      if Sfeof() then 0 else data[rd]
    }

    method Sbackc() returns (c: int)
      requires rd <= |data|
      modifies `rd
      ensures rd == (if old(rd) > 0 then old(rd) - 1 else 0)
      ensures c == if old(rd) > 0 then data[old(rd) - 1] else EOF
    {
      if Sfbeg() {
        return EOF;
      }
      rd := rd - 1;
      c := data[rd];
    }

    method Sputc(c: int)
      modifies `data
      ensures data == old(data) + [c]
    {
      data := data + [c];
    }

    /** Overwrites at rd, or extends the buffer there. */
    method Salterc(c: int)
      requires rd <= |data|
      modifies this
      ensures rd == old(rd) + 1 && data == if old(rd) < |old(data)| then old(data)[old(rd) := c] else old(data) + [c]
    {
      data := if rd < |data| then data[rd := c] else data + [c];
      rd := rd + 1;
    }

    method Truncate()
      requires rd <= |data|
      modifies `data
      ensures data == old(data[..rd])
    {
      data := data[..rd];
    }

    /** Takes the last one off. */
    method Sunputc() returns (c: int)
      requires data != []
      modifies this
      ensures c == old(data[|data| - 1]) && data == old(data[..|data| - 1]) && rd == |data|
    {
      c := data[|data| - 1];
      data := data[..|data| - 1];
      rd := |data|;
    }
  }

  // ----- Addition -----

  /** One column: the digits and the carry in are the digit and the carry out. */
  lemma Column(x: int, y: int, sum: int, carry: int, n1: int, n2: int, n: int, carry': int, p: int)
    requires sum + carry * p == x + y && n1 + n2 + carry == n + 100 * carry'
    ensures sum + n * p + carry' * (100 * p) == (x + n1 * p) + (y + n2 * p)
  {
    assert (n1 + n2 + carry) * p == (n + 100 * carry') * p;
  }

  method Add(a1: Blk, a2: Blk) returns (p: Blk)
    requires a1 != a2 && Number(a1.data) && Number(a2.data)
    modifies a1`rd, a2`rd
    ensures fresh(p) && Number(p.data) && Value(p.data) == Value(a1.data) + Value(a2.data)
    ensures Normal(p.data)
  {
    var size := if |a1.data| > |a2.data| then |a1.data| else |a2.data|;
    p := new Blk([]);
    a1.Rewind();
    a2.Rewind();
    var carry := AddColumns(a1, a2, p, size);
    ValBeyond(a1.data, size);
    ValBeyond(a2.data, size);
    if carry != 0 {
      ValueSnoc(p.data, carry);
      p.Sputc(carry);
    }
    StripZeros(p);
    FoldNines(p);
  }

  method AddColumns(a1: Blk, a2: Blk, p: Blk, size: nat) returns (carry: int)
    requires a1 != a2 && p != a1 && p != a2 && Number(a1.data) && Number(a2.data)
    requires p.data == [] && a1.rd == a2.rd == 0 && |a1.data| <= size && |a2.data| <= size
    modifies a1`rd, a2`rd, p`data
    ensures |p.data| == size && Plain(p.data) && (carry == 0 || carry == 1 || carry == -1) && (size == 0 ==> carry == 0)
    ensures Value(p.data) + carry * Pow(100, size) == Val(a1.data, size) + Val(a2.data, size)
  {
    carry := 0;
    var i := 0;
    while i < size
      invariant 0 <= i <= size && |p.data| == i && Plain(p.data)
      invariant a1.rd == (if i < |a1.data| then i else |a1.data|) && a2.rd == (if i < |a2.data| then i else |a2.data|)
      invariant (carry == 0 || carry == 1 || carry == -1) && (i == 0 ==> carry == 0)
      invariant Value(p.data) + carry * Pow(100, i) == Val(a1.data, i) + Val(a2.data, i)
    {
      var n1, n2 := 0, 0;
      DigitBounds(a1.data, i);
      DigitBounds(a2.data, i);
      if !a1.Sfeof() {
        n1 := a1.Sgetc();
      }
      if !a2.Sfeof() {
        n2 := a2.Sgetc();
      }
      var n := n1 + n2 + carry;
      ghost var was := carry;
      if n >= 100 {
        carry := 1;
        n := n - 100;
      } else if n < 0 {
        carry := -1;
        n := n + 100;
      } else {
        carry := 0;
      }
      Column(Val(a1.data, i), Val(a2.data, i), Value(p.data), was, n1, n2, n, carry, Pow(100, i));
      ValueSnoc(p.data, n);
      p.Sputc(n);
      i := i + 1;
    }
  }

  lemma DigitBounds(s: seq<int>, i: nat)
    requires Number(s)
    ensures -1 <= Digit(s, i) <= 99
  {
    if i < |s| {
      assert DigitOk(s, i);
    }
  }

  /** Removes zeros at the top. */
  method StripZeros(p: Blk)
    requires Number(p.data)
    modifies p
    ensures Number(p.data) && Value(p.data) == old(Value(p.data))
    ensures |p.data| <= old(|p.data|) && (p.data != [] ==> p.data[|p.data| - 1] != 0)
    ensures old(p.data != [] && p.data[|p.data| - 1] != 0) ==> p.data == old(p.data)
    ensures Plain(old(p.data)) ==> Plain(p.data)
  {
    p.Fsfile();
    if p.Sfbeg() {
      return;
    }
    var c := 0;
    while !p.Sfbeg() && c == 0
      invariant p.data == old(p.data) && p.rd <= |p.data|
      invariant c == 0 ==> forall k :: p.rd <= k < |p.data| ==> p.data[k] == 0
      invariant c != 0 ==> p.rd < |p.data| && c == p.data[p.rd] && forall k :: p.rd < k < |p.data| ==> p.data[k] == 0
      decreases p.rd
    {
      c := p.Sbackc();
    }
    if c != 0 {
      assert p.data[p.rd := c] == p.data;
      p.Salterc(c);
    }
    DropZeros(p.data, p.rd);
    NumberPrefix(p.data, p.rd);
    p.Truncate();
  }

  lemma NumberPrefix(s: seq<int>, m: nat)
    requires Number(s) && m <= |s|
    ensures Number(s[..m])
    ensures m < |s| ==> Plain(s[..m])
  {
    forall i | 0 <= i < m ensures DigitOk(s[..m], i) && (m < |s| ==> 0 <= s[i] <= 99) {
      assert DigitOk(s, i);
    }
  }

  /** Below a top -1, a run of 99s is taken out. */
  method FoldNines(p: Blk)
    requires Number(p.data) && p.data != [-1]
    modifies p
    ensures Number(p.data) && Value(p.data) == old(Value(p.data))
    ensures old(p.data != [] ==> p.data[|p.data| - 1] != 0) ==> Normal(p.data)
  {
    p.Fsfile();
    if p.Sfbeg() {
      return;
    }
    var c := p.Sbackc();
    if c != -1 {
      return;
    }
    ghost var s, n := p.data, |p.data| - 1;
    c := p.Sbackc();
    while c == 99
      invariant p.data == s && p.rd < n && n == |s| - 1
      invariant c == s[p.rd] || (c == EOF && p.rd == 0)
      invariant forall k :: p.rd < k < n ==> s[k] == 99
      decreases p.rd + (if c == 99 then 1 else 0)
    {
      c := p.Sbackc();
    }
    var _ := p.Sgetc();
    ghost var m := p.rd;
    p.Salterc(-1);
    DropNines(s, m);
    NumberPrefix(s, m);
    assert p.data[..m + 1] == s[..m] + [-1];
    Topped(s[..m]);
    p.Truncate();
  }

  lemma Topped(s: seq<int>)
    requires Plain(s)
    ensures Number(s + [-1])
  {
    var t := s + [-1];
    forall i | 0 <= i < |t| ensures DigitOk(t, i) {
    }
  }

  // ----- Change of sign -----

  lemma NegColumn(x: int, sum: int, carry: int, d: int, ct: int, carry': int, p: int)
    requires sum == -x + carry * p && ct == -d - carry + 100 * carry'
    ensures sum + ct * p == -(x + d * p) + carry' * (100 * p)
  {
    assert ct * p == -d * p - carry * p + 100 * carry' * p;
  }

  method Chsign(p: Blk)
    requires Number(p.data)
    modifies p
    ensures Number(p.data) && Value(p.data) == -old(Value(p.data))
    ensures old(Trimmed(p.data)) ==> Trimmed(p.data) && p.data != [99, -1]
  {
    hide Trimmed, Val;
    ghost var was := p.data;
    var carry := Complement(p);
    if Trimmed(was) {
      ComplementUp(was, p.data, carry);
      ComplementDown(was, p.data, carry);
      MadeTrimmed(p.data, carry);
    }
    if carry != 0 {
      ValueSnoc(p.data, -1);
      ghost var s := p.data;
      p.Sputc(-1);
      Topped(s);
      p.Fsfile();
      var _ := p.Sbackc();
      var ct := p.Sbackc();
      if ct == 99 {
        DropNines(p.data, p.rd);
        NumberPrefix(s, p.rd);
        assert p.data[..p.rd] == s[..p.rd];
        Topped(s[..p.rd]);
        p.Truncate();
        p.Sputc(-1);
      }
    } else {
      p.Fsfile();
      var ct := p.Sbackc();
      if ct == 0 {
        DropZeros(p.data, p.rd);
        NumberPrefix(p.data, p.rd);
        p.Truncate();
      }
    }
  }

  /** The complement with its -1, or without a zero at the top. */
  function Settled(d: seq<int>, carry: int): seq<int>
    requires carry == 1 ==> d != []
  {
    var n := |d| - 1;
    if carry == 1 then (if d[n] == 99 then d[..n] else d) + [-1]
    else if d != [] && d[n] == 0 then d[..n] else d
  }

  lemma MadeTrimmed(d: seq<int>, carry: int)
    requires Plain(d) && 0 <= carry <= 1 && (d == [] ==> carry == 0)
    requires carry == 1 && |d| >= 2 && d[|d| - 1] == 99 ==> d[|d| - 2] == 0
    requires carry == 0 && |d| >= 2 && d[|d| - 1] == 0 ==> d[|d| - 2] != 0
    ensures Trimmed(Settled(d, carry)) && Settled(d, carry) != [99, -1]
  {
  }

  /** Below a 99 at the top of the complement of a trimmed number there is a zero: one 99 is all that can go. */
  lemma ComplementUp(s: seq<int>, d: seq<int>, carry: int)
    requires Number(s) && Trimmed(s) && |d| == |s| && Plain(d) && Value(d) == -Value(s) + carry * Pow(100, |d|)
    ensures carry == 1 && |d| >= 2 && d[|d| - 1] == 99 ==> d[|d| - 2] == 0
  {
    hide Val;
    if carry == 1 && |d| >= 2 && d[|d| - 1] == 99 {
      var n := |d| - 1;
      PlainNumber(d);
      PlainNumber(d[..n]);
      PlainRange(d, |d|);
      Size(s);
      Below(d);
      assert Pow(100, |d|) == 100 * Pow(100, n);
      ValFrame(d, d[..n], n);
      Below(d[..n]);
      PowPositive(100, n - 1);
      PositivePart(d[n - 1], Pow(100, n - 1));
    }
  }

  lemma PositivePart(d: int, p: int)
    requires d >= 0 && p >= 1
    ensures d > 0 ==> d * p > 0
  {
  }

  /** Below a zero at the top of the complement of a trimmed number there is none: one zero is all that can go. */
  lemma ComplementDown(s: seq<int>, d: seq<int>, carry: int)
    requires Number(s) && Trimmed(s) && |d| == |s| && Plain(d) && Value(d) == -Value(s) + carry * Pow(100, |d|)
    ensures carry == 0 && |d| >= 2 && d[|d| - 1] == 0 ==> d[|d| - 2] != 0
  {
    hide Val;
    if carry == 0 && |d| >= 2 && d[|d| - 1] == 0 && d[|d| - 2] == 0 {
      var n := |d| - 1;
      PlainNumber(d);
      PlainNumber(d[..n]);
      PlainRange(d, |d|);
      Size(s);
      Below(d);
      ValFrame(d, d[..n], n);
      Below(d[..n]);
      PowOne();
    }
  }

  lemma PowOne()
    ensures Pow(100, 0) == 1
  {
  }

  /** The hundred's complement, digit by digit. */
  method Complement(p: Blk) returns (carry: int)
    requires Number(p.data)
    modifies p
    ensures |p.data| == old(|p.data|) && Plain(p.data) && 0 <= carry <= 1 && (p.data == [] ==> carry == 0)
    ensures Value(p.data) == -old(Value(p.data)) + carry * Pow(100, |p.data|)
  {
    carry := 0;
    p.Rewind();
    ghost var s := p.data;
    while !p.Sfeof()
      invariant |p.data| == |s| && p.rd <= |s| && 0 <= carry <= 1 && (p.rd == 0 ==> carry == 0)
      invariant forall k :: 0 <= k < p.rd ==> 0 <= p.data[k] <= 99
      invariant forall k :: p.rd <= k < |s| ==> p.data[k] == s[k]
      invariant Val(p.data, p.rd) == -Val(s, p.rd) + carry * Pow(100, p.rd)
      decreases |s| - p.rd
    {
      ghost var i, was, before := p.rd, carry, p.data;
      assert DigitOk(s, i);
      var ct := 100 - p.Slookc() - carry;
      carry := 1;
      if ct >= 100 {
        ct := ct - 100;
        carry := 0;
      }
      NegColumn(Val(s, i), Val(p.data, i), was, s[i], ct, carry, Pow(100, i));
      p.Salterc(ct);
      ValFrame(before, p.data, i);
    }
  }

  // ----- Multiplication -----

  lemma ProductBound(cp: int, cq: int)
    requires 0 <= cp <= 99 && 0 <= cq <= 99
    ensures 0 <= cp * cq <= 9801
  {
    assert cp * cq <= 99 * cq;
  }

  lemma SplitTerm(mt: int)
    requires 0 <= mt <= 9999
    ensures 0 <= mt / 100 <= 99 && 0 <= mt % 100 <= 99 && mt == mt % 100 + 100 * (mt / 100)
  {
  }

  /** The running term of one column, its digit and the carry. */
  lemma Term(cp: int, cq: int, carry: int, mcr: int)
    requires 0 <= cp <= 99 && 0 <= cq <= 99 && 0 <= carry <= 99 && 0 <= mcr <= 99
    ensures var mt := cp * cq + carry + mcr;
      0 <= mt <= 9999 && 0 <= mt / 100 <= 99 && 0 <= mt % 100 <= 99 && mt == mt % 100 + 100 * (mt / 100)
  {
    ProductBound(cp, cq);
    SplitTerm(cp * cq + carry + mcr);
  }

  lemma MulColumn(new_: int, was: int, carry: int, p: int, cq: int, pk: int, pj: int, part: int, cp: int, mcr: int,
                  digit: int, carry': int)
    requires new_ + carry * p == was + cq * pk * part && p == pk * pj
    requires cp * cq + carry + mcr == digit + 100 * carry'
    ensures new_ + digit * p + carry' * (100 * p) == (was + mcr * p) + cq * pk * (part + cp * pj)
  {
    assert (cp * cq + carry + mcr) * p == (digit + 100 * carry') * p;
    assert cq * pk * (cp * pj) == cp * cq * p;
    assert cq * pk * (part + cp * pj) == cq * pk * part + cq * pk * (cp * pj);
  }

  /** After j digits of s: what is written, the carry, and the rest of what was there before. */
  ghost predicate RowInv(was: seq<int>, data: seq<int>, s: seq<int>, cq: int, k: nat, j: nat, carry: int) {
    && j <= |s| && 0 <= carry <= 99 && 0 <= cq <= 99 && Plain(was) && Plain(data) && Plain(s)
    && k <= |was| <= k + |s| && |data| == (if |was| > k + j then |was| else k + j)
    && (forall x :: k + j <= x < |was| ==> data[x] == was[x])
    && Val(data, k + j) + carry * Pow(100, k + j) == Val(was, k + j) + cq * Pow(100, k) * Val(s, j)
  }

  function Altered(s: seq<int>, i: nat, c: int): seq<int>
    requires i <= |s|
  {
    if i < |s| then s[i := c] else s + [c]
  }

  lemma RowStep(was: seq<int>, data: seq<int>, s: seq<int>, cq: int, k: nat, j: nat, carry: int)
    requires RowInv(was, data, s, cq, k, j, carry) && j < |s|
    ensures Digit(data, k + j) == Digit(was, k + j)
    ensures var mt := s[j] * cq + carry + Digit(was, k + j);
      RowInv(was, Altered(data, k + j, mt % 100), s, cq, k, j + 1, mt / 100)
  {
    var mcr := Digit(was, k + j);
    Term(s[j], cq, carry, mcr);
    var mt := s[j] * cq + carry + mcr;
    var data' := Altered(data, k + j, mt % 100);
    PowAdd(100, k, j);
    MulColumn(Val(data, k + j), Val(was, k + j), carry, Pow(100, k + j), cq, Pow(100, k), Pow(100, j), Val(s, j), s[j],
              mcr, mt % 100, mt / 100);
    ValFrame(data, data', k + j);
    assert Val(data', k + j + 1) == Val(data, k + j) + (mt % 100) * Pow(100, k + j);
    assert Val(was, k + j + 1) == Val(was, k + j) + mcr * Pow(100, k + j);
    assert Val(s, j + 1) == Val(s, j) + s[j] * Pow(100, j);
  }

  lemma RowStart(was: seq<int>, s: seq<int>, cq: int, k: nat)
    requires Plain(was) && Plain(s) && 0 <= cq <= 99 && k <= |was| <= k + |s|
    ensures RowInv(was, was, s, cq, k, 0, 0)
  {
  }

  lemma RowEnd(was: seq<int>, data: seq<int>, s: seq<int>, cq: int, k: nat, carry: int)
    requires RowInv(was, data, s, cq, k, |s|, carry)
    ensures |data| == k + |s| && Plain(data)
    ensures Value(data) + carry * Pow(100, k + |s|) == Value(was) + cq * Pow(100, k) * Value(s)
  {
    ValBeyond(was, k + |s|);
  }

  /** Adds cq times mp to mr, k places up. */
  method MultRow(mp: Blk, mr: Blk, cq: int, k: nat)
    requires mp != mr && Plain(mp.data) && Plain(mr.data) && 0 <= cq <= 99
    requires mp.data != [] ==> k <= |mr.data| <= k + |mp.data|
    requires mp.data == [] ==> mr.data == []
    modifies mp`rd, mr
    ensures Plain(mr.data) && Value(mr.data) == old(Value(mr.data)) + cq * Pow(100, k) * Value(mp.data)
    ensures mp.data != [] ==> k + 1 <= |mr.data| <= k + 1 + |mp.data|
    ensures mp.data == [] ==> mr.data == []
    ensures mp.data != [] && |mr.data| == k + 1 + |mp.data| ==> mr.data[|mr.data| - 1] != 0
  {
    hide RowInv, Val;
    ghost var n, s, was := |mp.data|, mp.data, mr.data;
    mp.Rewind();
    mr.rd := k;
    var carry := 0;
    if n > 0 {
      RowStart(was, s, cq, k);
    }
    while !mp.Sfeof()
      invariant mp.data == s && mp.rd <= n && mr.rd == k + mp.rd
      invariant if n > 0 then RowInv(was, mr.data, s, cq, k, mp.rd, carry) else mr.data == was && carry == 0
      decreases n - mp.rd
    {
      ghost var j := mp.rd;
      RowStep(was, mr.data, s, cq, k, j, carry);
      RowBounds(was, mr.data, s, cq, k, j, carry);
      var cp := mp.Sgetc();
      var mcr := mr.SlookOrZero();
      var mt := cp * cq + carry + mcr;
      carry := mt / 100;
      mr.Salterc(mt % 100);
    }
    if n > 0 {
      RowBounds(was, mr.data, s, cq, k, n, carry);
      RowEnd(was, mr.data, s, cq, k, carry);
    } else {
      NoRow(cq, k);
    }
    if carry != 0 {
      var mcr := mr.SlookOrZero();
      ValueSnoc(mr.data, carry);
      mr.Salterc(mcr + carry);
    }
  }

  lemma RowBounds(was: seq<int>, data: seq<int>, s: seq<int>, cq: int, k: nat, j: nat, carry: int)
    requires RowInv(was, data, s, cq, k, j, carry)
    ensures k + j <= |data| <= k + |s| && 0 <= carry <= 99
  {
  }

  lemma NoRow(cq: int, k: nat)
    ensures cq * Pow(100, k) * Value([]) == 0
  {
  }

  /** A factor without its sign: the block itself or a copy. */
  method Magnitude(p: Blk) returns (mp: Blk, negative: bool)
    requires Number(p.data)
    modifies p`rd
    ensures Plain(mp.data) && Value(mp.data) == (if negative then -Value(p.data) else Value(p.data))
    ensures mp == p || fresh(mp)
    ensures Trimmed(p.data) ==> Trimmed(mp.data)
  {
    p.Fsfile();
    mp, negative := p, false;
    Sign(p.data);
    if !p.Sfbeg() {
      var c := p.Sbackc();
      if c < 0 {
        mp := new Blk(p.data);
        Chsign(mp);
        negative := true;
        Sign(mp.data);
      }
    }
  }

  method Mult(p: Blk, q: Blk) returns (mr: Blk)
    requires p != q && Number(p.data) && Number(q.data)
    modifies p`rd, q`rd
    ensures fresh(mr) && Number(mr.data) && Value(mr.data) == Value(p.data) * Value(q.data)
    ensures Trimmed(p.data) && Trimmed(q.data) ==> Trimmed(mr.data)
  {
    hide Val, Number, Plain, Trimmed;
    var mp, pneg := Magnitude(p);
    var mq, qneg := Magnitude(q);
    mr := new Blk([]);
    MultRows(mp, mq, mr);
    PlainNumber(mr.data);
    Signs(Value(p.data), Value(q.data), Value(mp.data), Value(mq.data), pneg, qneg);
    if pneg != qneg {
      Chsign(mr);
    }
  }

  /** The product of two numbers without sign, one row for each digit of mq. */
  method MultRows(mp: Blk, mq: Blk, mr: Blk)
    requires mp != mq && mr != mp && mr != mq && Plain(mp.data) && Plain(mq.data) && mr.data == []
    modifies mp`rd, mq`rd, mr
    ensures Plain(mr.data) && Value(mr.data) == Value(mp.data) * Value(mq.data)
    ensures Trimmed(mp.data) && Trimmed(mq.data) ==> Trimmed(mr.data)
  {
    hide Val, Plain, Trimmed;
    mq.Rewind();
    var offset := 0;
    ghost var s, t := mp.data, mq.data;
    NoRows(s, t);
    while !mq.Sfeof()
      invariant mp.data == s && mq.data == t && mq.rd == offset <= |t|
      invariant Plain(mr.data) && Value(mr.data) == Value(s) * Val(t, offset)
      invariant s != [] ==> offset <= |mr.data| <= offset + |s|
      invariant s == [] || offset == 0 ==> mr.data == []
      invariant s != [] && offset > 0 && |mr.data| == offset + |s| ==> mr.data[|mr.data| - 1] != 0
      decreases |t| - offset
    {
      DigitThere(t, offset);
      var cq := mq.Sgetc();
      MultRow(mp, mr, cq, offset);
      MoreRows(s, t, offset);
      offset := offset + 1;
    }
    if Trimmed(s) && Trimmed(t) {
      ProductTop(s, t, mr.data);
    }
  }

  /** The product of two numbers without zeros at the top has none either. */
  lemma ProductTop(s: seq<int>, t: seq<int>, r: seq<int>)
    requires Plain(s) && Plain(t) && Plain(r) && Trimmed(s) && Trimmed(t) && Value(r) == Value(s) * Value(t)
    requires if s == [] || t == [] then r == [] else |t| <= |r| <= |t| + |s|
    requires r != [] && |r| == |t| + |s| ==> r[|r| - 1] != 0
    ensures Trimmed(r)
  {
    hide Val;
    if r != [] && |r| < |t| + |s| {
      PlainNumber(s);
      PlainNumber(t);
      Size(s);
      Size(t);
      PlainSign(s);
      PlainSign(t);
      PowAdd(100, |s| - 1, |t| - 1);
      PowGrows(100, |r| - 1, |s| - 1 + (|t| - 1));
      ProductAtLeast(Value(s), Value(t), Pow(100, |s| - 1), Pow(100, |t| - 1));
      PlainNumber(r);
      Below(r);
    }
  }

  lemma PlainSign(s: seq<int>)
    requires Plain(s)
    ensures Value(s) >= 0
  {
    PlainRange(s, |s|);
  }

  lemma ProductAtLeast(x: int, y: int, a: int, b: int)
    requires x >= a >= 0 && y >= b >= 0
    ensures x * y >= a * b
  {
    assert x * y >= a * y >= a * b;
  }

  lemma NoRows(s: seq<int>, t: seq<int>)
    ensures Value([]) == 0 && Value(s) * Val(t, 0) == 0 && Plain([])
  {
  }

  lemma DigitThere(t: seq<int>, k: nat)
    requires Plain(t) && k < |t|
    ensures 0 <= t[k] <= 99
  {
  }

  lemma MoreRows(s: seq<int>, t: seq<int>, k: nat)
    requires k < |t|
    ensures Value(s) * Val(t, k) + t[k] * Pow(100, k) * Value(s) == Value(s) * Val(t, k + 1)
  {
    Distributed(Value(s), Val(t, k), t[k], Pow(100, k));
  }

  lemma Distributed(s: int, t: int, cq: int, p: int)
    ensures s * t + cq * p * s == s * (t + cq * p)
  {
  }

  lemma PlainNumber(s: seq<int>)
    requires Plain(s)
    ensures Number(s)
  {
  }

  lemma Signs(p: int, q: int, s: int, t: int, pneg: bool, qneg: bool)
    requires s == (if pneg then -p else p) && t == (if qneg then -q else q)
    ensures p * q == if pneg != qneg then -(s * t) else s * t
  {
  }

  // ----- Scale -----

  /** Puts ct zeros below p: times ten to that power. */
  method Add0(p: Blk, ct: nat) returns (q: Blk)
    requires Number(p.data)
    modifies p`rd
    ensures fresh(q) && Number(q.data) && Value(q.data) == Pow(10, ct) * Value(p.data)
  {
    q := new Blk([]);
    var c, n := ct, 0;
    while c > 1
      invariant ct == 2 * n + c && q.data == seq(n, i => 0) && fresh(q) && q != p
    {
      q.Sputc(0);
      n := n + 1;
      c := c - 2;
    }
    ghost var zeros := q.data;
    p.Rewind();
    while !p.Sfeof()
      invariant p.rd <= |p.data| && q.data == zeros + p.data[..p.rd] && fresh(q) && q != p
      decreases |p.data| - p.rd
    {
      var d := p.Sgetc();
      q.Sputc(d);
    }
    assert q.data == zeros + p.data;
    ValueZeros(n, p.data);
    Hundreds(n);
    NumberZeros(n, p.data);
    if c == 1 {
      var tenptr := new Blk([10]);
      Ten();
      q := Mult(tenptr, q);
      Times10(n, Value(p.data));
    }
  }

  lemma NumberZeros(n: nat, s: seq<int>)
    requires Number(s)
    ensures Number(seq(n, i => 0) + s)
  {
    var t := seq(n, i => 0) + s;
    forall i | 0 <= i < |t| ensures DigitOk(t, i) {
      if i >= n {
        assert DigitOk(s, i - n);
      }
    }
  }

  lemma Ten()
    ensures Number([10]) && Value([10]) == 10
  {
    assert Val([10], 1) == 10 * Pow(100, 0);
  }

  lemma Times10(n: nat, v: int)
    ensures 10 * (Pow(10, 2 * n) * v) == Pow(10, 2 * n + 1) * v
  {
  }
}
