/** Bytes as numbers. */
module FsckBytes {
  lemma ByteValue(y: int)
    requires 0 <= y < 256
    ensures (y as bv8) as int == y
  {
  }
}
