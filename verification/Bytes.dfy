/** Octets and big-endian fields. */
module Bytes {
  import opened Bits

  type byte = x: int | 0 <= x < 256
  type u16 = x: int | 0 <= x < 0x1_0000
  type u32 = x: int | 0 <= x < 0x1_0000_0000
  type u64 = x: int | 0 <= x < 0x1_0000_0000_0000_0000
  type i32 = x: int | -0x8000_0000 <= x < 0x8000_0000

  function Be16(x: u16): (s: seq<byte>)
    ensures |s| == 2
  {
    [x / 256, x % 256]
  }

  function Be32(x: u32): (s: seq<byte>)
    ensures |s| == 4
  {
    [x / 0x100_0000, x / 0x1_0000 % 256, x / 256 % 256, x % 256]
  }

  function Read16(hi: byte, lo: byte): u16 {
    256 * hi + lo
  }

  function Read32(a: byte, b: byte, c: byte, d: byte): u32 {
    0x100_0000 * a + 0x1_0000 * b + 256 * c + d
  }

  lemma Read16OfBe16(x: u16)
    ensures Read16(Be16(x)[0], Be16(x)[1]) == x
  {
  }

  lemma Read32OfBe32(x: u32)
    ensures var s := Be32(x); Read32(s[0], s[1], s[2], s[3]) == x
  {
    var top := x / 0x1_0000;
    assert top / 256 == x / 0x100_0000;
    assert x / 256 / 256 == top;
    assert x / 256 % 256 + 256 * top == x / 256;
  }

  /** The 32-bit word at an offset. */
  function Word(s: seq<byte>, at: nat): u32
    requires at + 4 <= |s|
  {
    Read32(s[at], s[at + 1], s[at + 2], s[at + 3])
  }

  lemma WordWritten(pre: seq<byte>, x: u32, post: seq<byte>)
    ensures Word(pre + (Be32(x) + post), |pre|) == x
  {
    var s, b := pre + (Be32(x) + post), Be32(x);
    assert s[|pre|] == b[0] && s[|pre| + 1] == b[1] && s[|pre| + 2] == b[2] && s[|pre| + 3] == b[3];
    Read32OfBe32(x);
  }

  lemma QuarterOf(n: nat, words: nat)
    requires n == 4 * words
    ensures n % 4 == 0 && n / 4 == words
  {
  }

  /** Words laid end to end. */
  function BeWords(xs: seq<u32>): (s: seq<byte>)
    ensures |s| == 4 * |xs|
  {
    if xs == [] then [] else BeWords(xs[..|xs| - 1]) + Be32(xs[|xs| - 1])
  }

  lemma {:induction false} WordsRead(xs: seq<u32>, i: nat, post: seq<byte>)
    requires i < |xs|
    ensures Word(BeWords(xs) + post, 4 * i) == xs[i]
    decreases |xs|
  {
    var front, last := BeWords(xs[..|xs| - 1]), xs[|xs| - 1];
    assert BeWords(xs) + post == front + (Be32(last) + post);
    if i == |xs| - 1 { WordWritten(front, last, post); } else { WordsRead(xs[..|xs| - 1], i, Be32(last) + post); }
  }

  /** Bitwise exclusive or of two `w`-bit words. */
  function XorBits(a: nat, b: nat, w: nat): nat {
    if w == 0 then 0 else 2 * XorBits(a / 2, b / 2, w - 1) + (if a % 2 == b % 2 then 0 else 1)
  }

  lemma {:induction false} XorBitsInRange(a: nat, b: nat, w: nat)
    ensures XorBits(a, b, w) < Pow2(w)
  {
    if w > 0 { XorBitsInRange(a / 2, b / 2, w - 1); }
  }

  lemma {:induction false} XorBitsCancels(k: nat, a: nat, w: nat)
    requires a < Pow2(w)
    ensures XorBits(XorBits(k, a, w), k, w) == a
  {
    if w > 0 {
      XorBitsCancels(k / 2, a / 2, w - 1);
      var m := XorBits(k / 2, a / 2, w - 1);
      assert XorBits(k, a, w) / 2 == m;
    }
  }

  function XorByte(a: byte, b: byte): byte {
    XorBitsInRange(a, b, 8);
    assert Pow2(8) == 256;
    XorBits(a, b, 8)
  }

  lemma {:induction false} XorBitsDiffer(a: nat, b: nat, w: nat, i: nat)
    ensures Bit(XorBits(a, b, w), i) <==> i < w && Bit(a, i) != Bit(b, i)
    decreases w
  {
    if w == 0 {
      ZeroHasNoBits(i);
    } else if i > 0 {
      assert XorBits(a, b, w) / 2 == XorBits(a / 2, b / 2, w - 1);
      XorBitsDiffer(a / 2, b / 2, w - 1, i - 1);
    }
  }

  /** A bit of the exclusive or is set exactly where the octets differ. */
  lemma XorByteDiffers(a: byte, b: byte, i: nat)
    requires i < 8
    ensures Bit(XorByte(a, b), i) <==> Bit(a, i) != Bit(b, i)
  {
    XorBitsDiffer(a, b, 8, i);
  }

  lemma XorByteCancels(k: byte, a: byte)
    ensures XorByte(XorByte(k, a), k) == a
  {
    assert Pow2(8) == 256;
    XorBitsCancels(k, a, 8);
  }

  lemma {:induction false} XorBitsCommutes(a: nat, b: nat, w: nat)
    ensures XorBits(a, b, w) == XorBits(b, a, w)
  {
    if w > 0 { XorBitsCommutes(a / 2, b / 2, w - 1); }
  }

  lemma XorByteCommutes(a: byte, b: byte)
    ensures XorByte(a, b) == XorByte(b, a)
  {
    XorBitsCommutes(a, b, 8);
  }

  /** Octet-wise exclusive or of two equally long strings. */
  function Xor(a: seq<byte>, b: seq<byte>): (r: seq<byte>)
    requires |a| == |b|
    ensures |r| == |a|
  {
    seq(|a|, i requires 0 <= i < |a| => XorByte(a[i], b[i]))
  }

  lemma XorCancels(k: seq<byte>, a: seq<byte>, b: seq<byte>)
    requires |k| == |a| == |b|
    ensures Xor(Xor(k, a), k) == a
    ensures Xor(k, a) == Xor(k, b) ==> a == b
  {
    forall i | 0 <= i < |a|
      ensures Xor(Xor(k, a), k)[i] == a[i]
    {
      XorByteCancels(k[i], a[i]);
    }
    if Xor(k, a) == Xor(k, b) {
      forall i | 0 <= i < |a|
        ensures a[i] == b[i]
      {
        XorByteCancels(k[i], a[i]);
        XorByteCancels(k[i], b[i]);
        assert Xor(k, a)[i] == Xor(k, b)[i];
      }
    }
  }
}
