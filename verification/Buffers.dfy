/** Writing octet strings into caller-owned buffers. */
module Buffers {
  import opened Bytes

  /** `buf` with `s` written over it from `at` on. */
  function Splice(buf: seq<byte>, at: nat, s: seq<byte>): (r: seq<byte>)
    requires at + |s| <= |buf|
    ensures |r| == |buf|
  {
    buf[..at] + s + buf[at + |s|..]
  }

  lemma SpliceMore(buf: seq<byte>, at: nat, s: seq<byte>, i: nat)
    requires at + |s| <= |buf| && i < |s|
    ensures Splice(buf, at, s[..i])[at + i := s[i]] == Splice(buf, at, s[..i + 1])
  {
  }

  /** Overwrites the buffer from `at` on with `s`. */
  method Write(buf: array<byte>, at: nat, s: seq<byte>)
    requires at + |s| <= buf.Length
    modifies buf
    ensures buf[..] == Splice(old(buf[..]), at, s)
  {
    for i := 0 to |s|
      invariant buf[..] == Splice(old(buf[..]), at, s[..i])
    {
      SpliceMore(old(buf[..]), at, s, i);
      buf[at + i] := s[i];
    }
    assert s[..|s|] == s;
  }

  /** Writes `s` at the cursor `w` and returns the cursor behind it. */
  method Append(buf: array<byte>, w: nat, s: seq<byte>) returns (w': nat)
    requires w + |s| <= buf.Length
    modifies buf
    ensures w' == w + |s|
    ensures buf[..w'] == old(buf[..w]) + s
    ensures forall i :: w' <= i < buf.Length ==> buf[i] == old(buf[i])
  {
    for i := 0 to |s|
      invariant buf[..w + i] == old(buf[..w]) + s[..i]
      invariant forall k :: w + i <= k < buf.Length ==> buf[k] == old(buf[k])
    {
      buf[w + i] := s[i];
      assert s[..i + 1] == s[..i] + [s[i]];
    }
    assert s[..|s|] == s;
    w' := w + |s|;
  }

  /** `n` zero octets. */
  function Zeros(n: nat): (s: seq<byte>)
    ensures |s| == n
  {
    seq(n, i => 0)
  }

  /** The least multiple of 4 that is at least `n`. */
  function Padded(n: nat): (m: nat)
    ensures n <= m < n + 4 && m % 4 == 0
  {
    (n + 3) / 4 * 4
  }
}
