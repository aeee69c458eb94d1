/** Octets written out: words most significant octet first, and nulls. */
module Octets {
  import opened Bytes

  /** The four octets of a word. */
  function W(x: u32): (s: seq<byte>)
    ensures |s| == 4
  {
    [x / 0x100_0000, x / 0x1_0000 % 256, x / 256 % 256, x % 256]
  }

  function Nulls(n: nat): (s: seq<byte>)
    ensures |s| == n
  {
    seq(n, i => 0)
  }
}
