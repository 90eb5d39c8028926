/** The 16-bit counts of fsck in two bytes. */
module FsckCounts {
  import opened FsckBytes

  /** The 16-bit link count in two bytes, low byte first. */
  function Short(lo: bv8, hi: bv8): int {
    var u := lo as int + 256 * (hi as int);
    if u >= 0x8000 then u - 0x1_0000 else u
  }

  function Wrap(v: int): int {
    (v + 0x8000) % 0x1_0000 - 0x8000
  }

  function Lo(v: int): bv8 {
    (v % 256) as bv8
  }

  function Hi(v: int): bv8 {
    (v / 256 % 256) as bv8
  }

  lemma BytesOf(v: int)
    ensures Lo(v) as int == v % 256 && Hi(v) as int == v / 256 % 256
  {
    ByteValue(v % 256);
    ByteValue(v / 256 % 256);
  }

  lemma TwoBytes(v: int)
    ensures v % 0x1_0000 == v % 256 + 256 * (v / 256 % 256)
  {
    var q := v / 256;
    assert v == 256 * q + v % 256;
    assert q == 256 * (q / 256) + q % 256;
    assert v == 0x1_0000 * (q / 256) + (v % 256 + 256 * (q % 256));
  }

  lemma WrapLow(v: int)
    ensures Wrap(v) == if v % 0x1_0000 >= 0x8000 then v % 0x1_0000 - 0x1_0000 else v % 0x1_0000
  {
  }

  lemma ShortValue(lo: bv8, hi: bv8, u: int)
    requires u == lo as int + 256 * (hi as int)
    ensures Short(lo, hi) == if u >= 0x8000 then u - 0x1_0000 else u
  {
  }

  /** Storing a count and reading it again wraps it. */
  lemma ShortWrap(v: int)
    ensures Short(Lo(v), Hi(v)) == Wrap(v)
  {
    hide Short, Lo, Hi, Wrap;
    BytesOf(v);
    TwoBytes(v);
    WrapLow(v);
    ShortValue(Lo(v), Hi(v), v % 0x1_0000);
  }
}
