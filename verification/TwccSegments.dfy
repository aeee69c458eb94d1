/**
 * The packet-status chunks of transport-wide feedback as the format draws
 * them, run and vector, and that the bit operations of the decoder read every
 * 16-bit word as exactly one of them.
 */
module TwccSegments {
  import opened Bits
  import opened Bytes
  import opened TwccChunks

  /** A chunk: a run of one symbol, or a vector of 14 one-bit or 7 two-bit symbols. */
  datatype Segment = Run(symbol: nat, length: nat) | Narrow(symbols: seq<nat>) | Wide(symbols: seq<nat>)

  predicate AllBelow(ds: seq<nat>, base: nat) {
    forall i :: 0 <= i < |ds| ==> ds[i] < base
  }

  predicate WellFormed(s: Segment) {
    match s
    case Run(symbol, length) => symbol <= 3 && length < 0x2000
    case Narrow(symbols) => |symbols| == 14 && AllBelow(symbols, 2)
    case Wide(symbols) => |symbols| == 7 && AllBelow(symbols, 4)
  }

  /** The number with these digits, most significant first. */
  function Digits(ds: seq<nat>, base: nat): nat {
    if ds == [] then 0 else base * Digits(ds[..|ds| - 1], base) + ds[|ds| - 1]
  }

  /** A segment's word: flags and fields from the top. */
  function WordOf(s: Segment): nat {
    match s
    case Run(symbol, length) => 0x2000 * symbol + length
    case Narrow(symbols) => Digits([1, 0] + symbols, 2)
    case Wide(symbols) => Digits([3] + symbols, 4)
  }

  /** The symbols a segment stands for. */
  function Meant(s: Segment): seq<nat> {
    match s
    case Run(symbol, length) => seq(length, i => symbol)
    case Narrow(symbols) => symbols
    case Wide(symbols) => symbols
  }

  // ── Reading a word digit by digit ─────────────────────────────────────

  lemma {:induction false} ShrOfSum(hi: nat, lo: nat, w: nat)
    requires lo < Pow2(w)
    ensures Shr(Pow2(w) * hi + lo, w) == hi
  {
    if w > 0 {
      Halves(Pow2(w - 1), hi, lo);
      ShrOfSum(hi, lo / 2, w - 1);
    }
  }

  lemma Halves(p: nat, hi: nat, lo: nat)
    ensures 2 * p * hi + lo >= 0 && (2 * p * hi + lo) / 2 == p * hi + lo / 2 && (2 * p * hi + lo) % 2 == lo % 2
  {
    var y := p * hi;
    assert 2 * p * hi == 2 * y;
  }

  lemma {:induction false} LowOfSum(hi: nat, lo: nat, w: nat)
    requires lo < Pow2(w)
    ensures Low(Pow2(w) * hi + lo, w) == lo
  {
    if w > 0 {
      Halves(Pow2(w - 1), hi, lo);
      LowOfSum(hi, lo / 2, w - 1);
    }
  }

  lemma {:induction false} ShrTwice(x: nat, a: nat, c: nat)
    ensures Shr(x, a + c) == Shr(Shr(x, a), c)
    decreases a
  {
    if a > 0 { ShrTwice(x / 2, a - 1, c); }
  }

  /** Shifting digits out from below leaves the upper ones. */
  lemma {:induction false} DigitsShifted(ds: seq<nat>, b: nat, j: nat)
    requires j <= |ds| && AllBelow(ds, Pow2(b))
    ensures Shr(Digits(ds, Pow2(b)), b * j) == Digits(ds[..|ds| - j], Pow2(b))
    decreases j
  {
    if j == 0 {
      assert ds[..|ds|] == ds && b * 0 == 0;
    } else {
      var n := |ds| - 1;
      var x := Digits(ds, Pow2(b));
      assert b * j == b + b * (j - 1);
      ShrTwice(x, b, b * (j - 1));
      ShrOfSum(Digits(ds[..n], Pow2(b)), ds[n], b);
      DigitsShifted(ds[..n], b, j - 1);
      assert ds[..n][..n - (j - 1)] == ds[..|ds| - j];
    }
  }

  /** Each digit is found at its place. */
  lemma DigitRead(ds: seq<nat>, b: nat, k: nat, at: nat)
    requires k < |ds| && AllBelow(ds, Pow2(b)) && at == b * (|ds| - 1 - k)
    ensures Low(Shr(Digits(ds, Pow2(b)), at), b) == ds[k]
  {
    DigitsShifted(ds, b, |ds| - 1 - k);
    var upper := ds[..k + 1];
    assert upper[..k] == ds[..k] && upper[k] == ds[k];
    LowOfSum(Digits(ds[..k], Pow2(b)), ds[k], b);
  }

  lemma {:induction false} DigitsBelow(ds: seq<nat>, b: nat)
    requires AllBelow(ds, Pow2(b))
    ensures Digits(ds, Pow2(b)) < Pow2(b * |ds|)
    decreases |ds|
  {
    if ds != [] {
      var n := |ds| - 1;
      DigitsBelow(ds[..n], b);
      assert b * |ds| == b + b * n;
      Pow2Sum(b, b * n);
      OneMoreDigit(Pow2(b), Digits(ds[..n], Pow2(b)), ds[n], Pow2(b * n));
    }
  }

  lemma OneMoreDigit(base: nat, hi: nat, lo: nat, bound: nat)
    requires lo < base && hi < bound
    ensures base * hi + lo < base * bound
  {
    assert base * (hi + 1) <= base * bound;
  }

  lemma {:induction false} Pow2Sum(a: nat, b: nat)
    ensures Pow2(a + b) == Pow2(a) * Pow2(b)
  {
    if a > 0 { Pow2Sum(a - 1, b); }
  }

  // ── The symbols of a segment's word ───────────────────────────────────

  lemma Below16(s: Segment)
    requires WellFormed(s)
    ensures WordOf(s) < 0x1_0000
  {
    Pow2Of16();
    assert Pow2(1) == 2 && Pow2(2) == 4;
    match s {
      case Run(symbol, length) =>
      case Narrow(symbols) => DigitsBelow([1, 0] + symbols, 1);
      case Wide(symbols) => DigitsBelow([3] + symbols, 2);
    }
  }

  lemma Pow2Of13()
    ensures Pow2(13) == 0x2000
  {
    assert Pow2(5) == 32 by { assert Pow2(3) == 8; }
    assert Pow2(9) == 512 by { assert Pow2(7) == 128; }
    assert Pow2(11) == 2048;
  }

  lemma SmallWord(x: nat)
    requires x <= 3
    ensures !Bit(x, 2) && Low(x, 2) == x
  {
    assert Bit(x, 2) == Bit(x / 2, 1) == Bit(x / 2 / 2, 0);
    LowTwo(x);
    assert Bit(x, 1) == Bit(x / 2, 0);
  }

  lemma RunReads(symbol: nat, length: nat)
    requires symbol <= 3 && length < 0x2000
    ensures 0x2000 * symbol + length < 0x8000
    ensures var w := 0x2000 * symbol + length; !IsVector(w) && RunLength(w) == length && RunSymbol(w) == symbol
  {
    var w := 0x2000 * symbol + length;
    Pow2Of13();
    LowOfSum(symbol, length, 13);
    ShrOfSum(symbol, length, 13);
    BitOfShr(w, 13, 2);
    SmallWord(symbol);
  }

  lemma RunSymbols(symbol: nat, length: nat)
    requires symbol <= 3 && length < 0x2000
    ensures Symbols(0x2000 * symbol + length) == seq(length, i => symbol)
  {
    RunReads(symbol, length);
  }

  lemma NarrowReads(symbols: seq<nat>, w: u16)
    requires WellFormed(Narrow(symbols)) && w == WordOf(Narrow(symbols))
    ensures IsVector(w) && !IsWide(w)
    ensures forall i :: 0 <= i < 14 ==> NarrowSymbol(w, i) == symbols[i]
  {
    var ds := [1, 0] + symbols;
    assert Pow2(1) == 2;
    DigitRead(ds, 1, 0, 15);
    DigitRead(ds, 1, 1, 14);
    LowOne(Shr(w, 15));
    LowOne(Shr(w, 14));
    BitOfShr(w, 15, 0);
    BitOfShr(w, 14, 0);
    forall i | 0 <= i < 14 ensures NarrowSymbol(w, i) == symbols[i] {
      DigitRead(ds, 1, i + 2, 13 - i);
    }
  }

  lemma WideReads(symbols: seq<nat>, w: u16)
    requires WellFormed(Wide(symbols)) && w == WordOf(Wide(symbols))
    ensures IsVector(w) && IsWide(w)
    ensures forall i :: 0 <= i < 7 ==> WideSymbol(w, i) == symbols[i]
  {
    var ds := [3] + symbols;
    assert Pow2(2) == 4;
    DigitRead(ds, 2, 0, 14);
    LowTwo(Shr(w, 14));
    BitOfShr(w, 14, 0);
    BitOfShr(w, 14, 1);
    forall i | 0 <= i < 7 ensures WideSymbol(w, i) == symbols[i] {
      DigitRead(ds, 2, i + 1, 12 - 2 * i);
    }
  }

  /** The decoder reads every segment's word as the symbols it stands for. */
  lemma SegmentReads(s: Segment)
    requires WellFormed(s)
    ensures WordOf(s) < 0x1_0000 && Symbols(WordOf(s)) == Meant(s)
  {
    Below16(s);
    match s {
      case Run(symbol, length) => RunSymbols(symbol, length);
      case Narrow(symbols) => NarrowReads(symbols, WordOf(s));
      case Wide(symbols) => WideReads(symbols, WordOf(s));
    }
  }

  // ── Every word is a segment's ─────────────────────────────────────────

  /** The n lowest binary or base-4 digits of x. */
  function Expand(x: nat, n: nat, base: nat): (ds: seq<nat>)
    requires base == 2 || base == 4
    ensures |ds| == n && AllBelow(ds, base)
  {
    if n == 0 then [] else Expand(x / base, n - 1, base) + [x % base]
  }

  lemma {:induction false} DigitsOfExpand(pre: seq<nat>, x: nat, n: nat, b: nat)
    requires 1 <= b <= 2 && x < Pow2(b * n)
    ensures Pow2(b) == 2 * b
    ensures Digits(pre + Expand(x, n, 2 * b), 2 * b) == Pow2(b * n) * Digits(pre, 2 * b) + x
    decreases n
  {
    assert Pow2(1) == 2 && Pow2(2) == 4;
    var base := 2 * b;
    if n == 0 {
      assert b * 0 == 0 && pre + [] == pre;
    } else {
      assert b * n == b + b * (n - 1);
      Pow2Sum(b, b * (n - 1));
      DigitsOfExpand(pre, x / base, n - 1, b);
      var ds, front := pre + Expand(x, n, base), pre + Expand(x / base, n - 1, base);
      assert ds == front + [x % base] && ds[..|ds| - 1] == front;
      Regrouped(base, Pow2(b * (n - 1)), Digits(pre, base), x);
    }
  }

  lemma Regrouped(base: nat, p: nat, hi: nat, x: nat)
    requires base > 0
    ensures base * (p * hi + x / base) + x % base == base * p * hi + x
  {
    assert base * (p * hi) == base * p * hi;
  }

  function SegmentOf(w: u16): (s: Segment)
    ensures WellFormed(s)
  {
    if w < 0x8000 then Run(w / 0x2000, w % 0x2000)
    else if w < 0xC000 then Narrow(Expand(w - 0x8000, 14, 2))
    else Wide(Expand(w - 0xC000, 7, 4))
  }

  lemma Pow2Of14()
    ensures Pow2(14) == 0x4000
  {
    Pow2Of13();
  }

  lemma WordIsSegment(w: u16)
    ensures WordOf(SegmentOf(w)) == w
  {
    Pow2Of14();
    assert Pow2(1) == 2 && Pow2(2) == 4;
    if 0x8000 <= w < 0xC000 {
      DigitsOfExpand([1, 0], w - 0x8000, 14, 1);
      assert Digits([1, 0], 2) == 2 by { assert [1, 0][..1] == [1] && [1][..0] == []; }
    } else if w >= 0xC000 {
      DigitsOfExpand([3], w - 0xC000, 7, 2);
      assert Digits([3], 4) == 3 by { assert [3][..0] == []; }
    }
  }
}
