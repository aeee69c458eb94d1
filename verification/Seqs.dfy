/** Concatenations: of lists of sequences, of equal pieces, and regrouped. */
module Seqs {
  /** The sequences laid end to end. */
  function Concat<T>(parts: seq<seq<T>>): seq<T> {
    if parts == [] then [] else parts[0] + Concat(parts[1..])
  }

  /** The consecutive pieces of length `n`, a shorter rest left out. */
  function Pieces<T>(s: seq<T>, n: nat): (ps: seq<seq<T>>)
    requires n > 0
    ensures forall i :: 0 <= i < |ps| ==> |ps[i]| == n
    decreases |s|
  {
    if |s| < n then [] else [s[..n]] + Pieces(s[n..], n)
  }

  lemma {:induction false} ConcatSize<T>(parts: seq<seq<T>>, n: nat)
    requires forall i :: 0 <= i < |parts| ==> |parts[i]| == n
    ensures |Concat(parts)| == n * |parts|
  {
    if parts != [] { ConcatSize(parts[1..], n); }
  }

  lemma {:induction false} ConcatOneMore<T>(parts: seq<seq<T>>, last: seq<T>)
    ensures Concat(parts + [last]) == Concat(parts) + last
  {
    if parts == [] {
      assert ([] + [last])[1..] == [];
    } else {
      ConcatOneMore(parts[1..], last);
      assert (parts + [last])[1..] == parts[1..] + [last];
      Assoc(parts[0], Concat(parts[1..]), last);
    }
  }

  /** Pieces laid end to end are found again, whatever shorter rest follows. */
  lemma {:induction false} PiecesOfConcat<T>(parts: seq<seq<T>>, n: nat, rest: seq<T>)
    requires n > 0 && |rest| < n
    requires forall i :: 0 <= i < |parts| ==> |parts[i]| == n
    ensures Pieces(Concat(parts) + rest, n) == parts
    decreases |parts|
  {
    if parts != [] {
      var more := Concat(parts[1..]) + rest;
      PiecesOfConcat(parts[1..], n, rest);
      Assoc(parts[0], Concat(parts[1..]), rest);
      assert (parts[0] + more)[..n] == parts[0] && (parts[0] + more)[n..] == more;
    }
  }

  lemma LastIntoTail<T>(s: seq<T>, t: seq<T>)
    requires s != []
    ensures s[..|s| - 1] + ([s[|s| - 1]] + t) == s + t
  {
  }

  lemma Assoc<T>(a: seq<T>, b: seq<T>, c: seq<T>)
    ensures a + b + c == a + (b + c)
  {
  }

  lemma SameTails<T>(front: seq<T>, a: T, b: T, s: seq<T>, t: seq<T>)
    requires front + ([a] + s) == front + ([b] + t)
    ensures s == t
  {
    assert s == (front + ([a] + s))[|front| + 1..];
    assert t == (front + ([b] + t))[|front| + 1..];
  }

  lemma SplitMiddle<T>(a: seq<T>, h: seq<T>, o: seq<T>, z: seq<T>, k: nat)
    requires k <= |o|
    ensures a + h + o + z == a + ((h + o[..k]) + (o[k..] + z))
  {
  }

  lemma Between<T>(a: seq<T>, b: seq<T>, c: seq<T>)
    ensures (a + (b + c))[|a|..|a| + |b|] == b
  {
  }

  lemma Unnest<T>(a: seq<T>, b: seq<T>, c: seq<T>, d: seq<T>)
    ensures a + ((b + c) + d) == (a + b) + (c + d)
    ensures a + ((b + c) + d) == a + (b + (c + d))
  {
  }

  lemma UnnestMore<T>(a: seq<T>, b: seq<T>, c: seq<T>, d: seq<T>, e: seq<T>)
    ensures a + ((b + (c + d)) + e) == a + (b + (c + (d + e)))
    ensures a + ((b + (c + d)) + e) == (a + b) + (c + (d + e))
  {
  }

  lemma MiddleSlices<T>(a: seq<T>, b: seq<T>, c: seq<T>, d: seq<T>)
    ensures var f := a + (b + (c + d));
            && f[|a|..|a| + |b|] == b && f[|a| + |b|..|a| + |b| + |c|] == c && f[|a| + |b| + |c|..] == d
  {
  }
}
