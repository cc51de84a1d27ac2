/** Bytes and the little-endian unsigned integers of Bitcoin's consensus
    serialization. */
module Bytes {

  type byte = x: int | 0 <= x < 0x100

  /** 256 to the power `n`: one more than the largest `n`-byte value. */
  function Pow256(n: nat): (r: nat)
    ensures r >= 1
  {
    if n == 0 then 1 else 256 * Pow256(n - 1)
  }

  /** The unsigned value of `s` read least significant byte first. */
  function LittleEndian(s: seq<byte>): (r: nat)
    ensures r < Pow256(|s|)
  {
    if s == [] then 0 else s[0] + 256 * LittleEndian(s[1..])
  }

  /** The `width`-byte little-endian encoding of `n`. */
  function ToLittleEndian(n: nat, width: nat): (s: seq<byte>)
    requires n < Pow256(width)
    ensures |s| == width
    ensures LittleEndian(s) == n
  {
    if width == 0 then [] else [(n % 256) as byte] + ToLittleEndian(n / 256, width - 1)
  }

  /** Encoding what was decoded gives back the same bytes: together with the
      contract of `ToLittleEndian`, the two are inverse bijections between
      `width`-byte strings and the numbers below `Pow256(width)`. */
  lemma {:induction false} LittleEndianReencodes(s: seq<byte>)
    ensures ToLittleEndian(LittleEndian(s), |s|) == s
  {
    if s != [] {
      LittleEndianReencodes(s[1..]);
      assert LittleEndian(s) / 256 == LittleEndian(s[1..]);
    }
  }
}
