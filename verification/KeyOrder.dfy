/**
 * Byte-wise order of strings, and the listing of a set of keys in that order:
 * how a `BTreeMap` with string keys is walked.
 */
module KeyOrder {
  predicate Before(a: string, b: string) {
    if b == [] then false
    else if a == [] then true
    else a[0] < b[0] || (a[0] == b[0] && Before(a[1..], b[1..]))
  }

  predicate AtMost(a: string, b: string) {
    a == b || Before(a, b)
  }

  lemma {:induction false} Total(a: string, b: string)
    ensures AtMost(a, b) || AtMost(b, a)
    ensures !(Before(a, b) && Before(b, a)) && !(Before(a, b) && a == b)
  {
    if a != [] && b != [] && a[0] == b[0] {
      Total(a[1..], b[1..]);
      assert a == [a[0]] + a[1..] && b == [b[0]] + b[1..];
    }
  }

  lemma {:induction false} Transitive(a: string, b: string, c: string)
    requires AtMost(a, b) && AtMost(b, c)
    ensures AtMost(a, c)
  {
    if Before(a, b) && Before(b, c) && a != [] {
      if a[0] == b[0] && b[0] == c[0] {
        Transitive(a[1..], b[1..], c[1..]);
        Total(a[1..], b[1..]);
        Total(b[1..], c[1..]);
        if a[1..] == c[1..] { Total(a[1..], b[1..]); }
      }
    }
  }

  predicate IsFirst(x: string, keys: set<string>) {
    x in keys && forall y :: y in keys ==> AtMost(x, y)
  }

  lemma {:induction false} FirstExists(keys: set<string>)
    requires keys != {}
    ensures exists x :: IsFirst(x, keys)
    decreases |keys|
  {
    var k :| k in keys;
    var rest := keys - {k};
    if rest == {} {
      assert keys == {k};
      assert IsFirst(k, keys);
    } else {
      FirstExists(rest);
      var x :| IsFirst(x, rest);
      Total(x, k);
      var best := if AtMost(x, k) then x else k;
      forall y | y in keys ensures AtMost(best, y) {
        if y != k && best == k { Transitive(k, x, y); }
      }
      assert IsFirst(best, keys);
    }
  }

  lemma FirstUnique(x: string, y: string, keys: set<string>)
    requires IsFirst(x, keys) && IsFirst(y, keys)
    ensures x == y
  {
    Total(x, y);
  }

  /** The least key of a non-empty set. */
  function First(keys: set<string>): (x: string)
    requires keys != {}
    ensures IsFirst(x, keys)
  {
    FirstExists(keys);
    assert forall x, y :: IsFirst(x, keys) && IsFirst(y, keys) ==> x == y by {
      forall x, y | IsFirst(x, keys) && IsFirst(y, keys) ensures x == y { FirstUnique(x, y, keys); }
    }
    var x :| IsFirst(x, keys);
    x
  }

  /** The keys in ascending order, each once. */
  function Listed(keys: set<string>): (s: seq<string>)
    ensures forall k :: k in keys <==> k in s
    ensures forall i, j :: 0 <= i < j < |s| ==> s[i] != s[j] && AtMost(s[i], s[j])
    ensures |s| == |keys|
    decreases |keys|
  {
    if keys == {} then []
    else
      var x := First(keys);
      [x] + Listed(keys - {x})
  }

  // ── Decimal numerals ──────────────────────────────────────────────────

  function Digit(d: nat): char
    requires d < 10
  {
    '0' + d as char
  }

  function Decimal(n: nat): (s: string)
    ensures s != [] && (|s| == 1 <==> n < 10)
    ensures forall i :: 0 <= i < |s| ==> '0' <= s[i] <= '9'
  {
    if n < 10 then [Digit(n)] else Decimal(n / 10) + [Digit(n % 10)]
  }

  /** Different numbers have different numerals. */
  lemma {:induction false} DecimalInjective(a: nat, b: nat)
    requires Decimal(a) == Decimal(b)
    ensures a == b
  {
    var s, t := Decimal(a), Decimal(b);
    assert s[|s| - 1] == Digit(a % 10) && t[|t| - 1] == Digit(b % 10);
    if a >= 10 {
      assert s[..|s| - 1] == Decimal(a / 10) && t[..|t| - 1] == Decimal(b / 10);
      DecimalInjective(a / 10, b / 10);
    }
  }
}
