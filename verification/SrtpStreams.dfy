/**
 * The bounded per-SSRC table of one direction: slots searched linearly behind
 * a last-hit hint. Its meaning is a finite map that never loses an entry.
 */
module SrtpStreams {
  import opened Wrappers
  import opened Bytes
  import opened IndexWindows

  const MAX_STREAMS := 2048

  /** One stream: RTP window, SRTCP replay window, next outbound SRTCP index. */
  datatype Stream = Stream(ssrc: u32, rtp: Window, rtcp: Window, rtcpNext: nat)

  function Fresh(ssrc: u32): Stream {
    Stream(ssrc, EMPTY, EMPTY, 0)
  }

  /** The streams of one direction by SSRC. */
  type Table = map<u32, Stream>

  function Lookup(t: Table, ssrc: u32): Stream {
    if ssrc in t then t[ssrc] else Fresh(ssrc)
  }

  /** May `ssrc` have an entry after the next packet? */
  predicate HasRoom(t: Table, ssrc: u32) {
    ssrc in t || |t| < MAX_STREAMS
  }

  type Slots = seq<Option<Stream>>

  predicate Holds(slots: Slots, i: int, ssrc: u32) {
    0 <= i < |slots| && slots[i].Some? && slots[i].value.ssrc == ssrc
  }

  ghost predicate Distinct(slots: Slots) {
    forall i, j, ssrc :: Holds(slots, i, ssrc) && Holds(slots, j, ssrc) ==> i == j
  }

  /** The map that the slots stand for. */
  function Contents(slots: Slots): (t: Table) {
    if slots == [] then map[]
    else
      var last := slots[|slots| - 1];
      var t := Contents(slots[..|slots| - 1]);
      if last.Some? then t[last.value.ssrc := last.value] else t
  }

  lemma {:induction false} ContentsHas(slots: Slots, ssrc: u32)
    requires Distinct(slots)
    ensures ssrc in Contents(slots) <==> exists i :: Holds(slots, i, ssrc)
    ensures forall i :: Holds(slots, i, ssrc) ==> Contents(slots)[ssrc] == slots[i].value
  {
    if slots != [] {
      var n := |slots| - 1;
      var front := slots[..n];
      DistinctFront(slots);
      ContentsHas(front, ssrc);
      assert forall i :: Holds(front, i, ssrc) ==> Holds(slots, i, ssrc);
      assert forall i :: Holds(slots, i, ssrc) && i != n ==> Holds(front, i, ssrc);
      if Holds(slots, n, ssrc) {
        assert ssrc in Contents(slots);
      }
    }
  }

  lemma DistinctFront(slots: Slots)
    requires Distinct(slots) && slots != []
    ensures Distinct(slots[..|slots| - 1])
  {
    var front := slots[..|slots| - 1];
    forall i, j, ssrc | Holds(front, i, ssrc) && Holds(front, j, ssrc)
      ensures i == j
    {
      assert Holds(slots, i, ssrc) && Holds(slots, j, ssrc);
    }
  }

  function CountSome(slots: Slots): nat {
    if slots == [] then 0
    else CountSome(slots[..|slots| - 1]) + (if slots[|slots| - 1].Some? then 1 else 0)
  }

  /** Every occupied slot is one entry of the map. */
  lemma {:induction false} CountIsSize(slots: Slots)
    requires Distinct(slots)
    ensures CountSome(slots) == |Contents(slots)|
  {
    if slots != [] {
      var n := |slots| - 1;
      var front := slots[..n];
      DistinctFront(slots);
      CountIsSize(front);
      if slots[n].Some? {
        var ssrc := slots[n].value.ssrc;
        ContentsHas(front, ssrc);
        if ssrc in Contents(front) {
          var i :| Holds(front, i, ssrc);
          assert Holds(slots, i, ssrc) && Holds(slots, n, ssrc);
        }
        assert Contents(slots).Keys == Contents(front).Keys + {ssrc};
      }
    }
  }

  lemma SameContents(slots: Slots, t: Table)
    requires Distinct(slots)
    requires forall i :: 0 <= i < |slots| && slots[i].Some? ==>
               slots[i].value.ssrc in t && t[slots[i].value.ssrc] == slots[i].value
    requires forall k :: k in t ==> exists i :: Holds(slots, i, k)
    ensures Contents(slots) == t
  {
    var c := Contents(slots);
    forall k: u32
      ensures k in c <==> k in t
      ensures k in t ==> c[k] == t[k]
    {
      ContentsHas(slots, k);
      if exists i :: Holds(slots, i, k) {
        var i :| Holds(slots, i, k);
      }
    }
  }

  /** Writing an SSRC's entry to its slot, or to a slot holding nothing, updates the map there alone. */
  lemma StoreUpdates(slots: Slots, i: nat, s: Stream)
    requires Distinct(slots) && i < |slots|
    requires Holds(slots, i, s.ssrc) || (slots[i].None? && s.ssrc !in Contents(slots))
    ensures Distinct(slots[i := Some(s)])
    ensures Contents(slots[i := Some(s)]) == Contents(slots)[s.ssrc := s]
  {
    var slots' := slots[i := Some(s)];
    var t := Contents(slots)[s.ssrc := s];
    ContentsHas(slots, s.ssrc);
    forall j, k | Holds(slots', j, k) && j != i
      ensures Holds(slots, j, k) && k != s.ssrc
    {
      assert Holds(slots, j, k);
    }
    assert Holds(slots', i, s.ssrc);
    forall j | 0 <= j < |slots'| && slots'[j].Some?
      ensures slots'[j].value.ssrc in t && t[slots'[j].value.ssrc] == slots'[j].value
    {
      var k := slots'[j].value.ssrc;
      assert Holds(slots', j, k);
      ContentsHas(slots, k);
    }
    forall k | k in t
      ensures exists j :: Holds(slots', j, k)
    {
      if k != s.ssrc {
        ContentsHas(slots, k);
        var j :| Holds(slots, j, k);
        assert j != i;
        assert Holds(slots', j, k);
      }
    }
    SameContents(slots', t);
  }

  lemma AppendEmpty(slots: Slots)
    requires Distinct(slots)
    ensures Distinct(slots + [None]) && Contents(slots + [None]) == Contents(slots)
  {
    assert (slots + [None])[..|slots|] == slots;
    forall i, j, k | Holds(slots + [None], i, k) && Holds(slots + [None], j, k)
      ensures i == j
    {
      assert Holds(slots, i, k) && Holds(slots, j, k);
    }
  }

  class Streams {
    var slots: Slots
    var last: Option<nat>

    constructor ()
      ensures Valid() && Table() == map[]
    {
      slots, last := [], None;
    }

    /** No SSRC occupies two slots. */
    ghost predicate Valid()
      reads this
    {
      Distinct(slots)
    }

    function Table(): Table
      reads this
    {
      Contents(slots)
    }

    /** Slot holding `ssrc`, the last-hit hint first. */
    method Find(ssrc: u32) returns (r: Option<nat>)
      requires Valid()
      ensures r.Some? ==> Holds(slots, r.value, ssrc)
      ensures r.Some? <==> ssrc in Table()
    {
      ContentsHas(slots, ssrc);
      if last.Some? && last.value < |slots| && slots[last.value].Some? && slots[last.value].value.ssrc == ssrc {
        assert Holds(slots, last.value, ssrc);
        return last;
      }
      for i := 0 to |slots|
        invariant forall k :: 0 <= k < i ==> !Holds(slots, k, ssrc)
      {
        if slots[i].Some? && slots[i].value.ssrc == ssrc {
          assert Holds(slots, i, ssrc);
          return Some(i);
        }
      }
      r := None;
    }

    /** The entry of `ssrc`, if there is one. */
    method Get(ssrc: u32) returns (r: Option<Stream>)
      requires Valid()
      ensures r == if ssrc in Table() then Some(Table()[ssrc]) else None
    {
      var i := Find(ssrc);
      ContentsHas(slots, ssrc);
      r := if i.Some? then slots[i.value] else None;
    }

    method CountOccupied() returns (n: nat)
      requires Valid()
      ensures n == |Table()|
    {
      n := 0;
      for i := 0 to |slots|
        invariant n == CountSome(slots[..i])
      {
        assert slots[..i + 1][..i] == slots[..i];
        if slots[i].Some? { n := n + 1; }
      }
      assert slots[..|slots|] == slots;
      CountIsSize(slots);
    }

    /** Slot of the existing entry or of a fresh one; refused when the table is full. */
    method GetMutOrInsert(ssrc: u32) returns (r: Option<nat>)
      requires Valid()
      modifies this
      ensures Valid()
      ensures r.Some? <==> HasRoom(old(Table()), ssrc)
      ensures r.Some? ==> Holds(slots, r.value, ssrc) && slots[r.value].value == Lookup(old(Table()), ssrc)
      ensures r.Some? ==> Table() == old(Table())[ssrc := Lookup(old(Table()), ssrc)]
      ensures r.None? ==> Table() == old(Table())
    {
      ContentsHas(slots, ssrc);
      var found := Find(ssrc);
      if found.Some? {
        last := found;
        assert Holds(slots, found.value, ssrc);
        assert Table() == old(Table())[ssrc := Lookup(old(Table()), ssrc)];
        return found;
      }
      var n := CountOccupied();
      if n >= MAX_STREAMS {
        return None;
      }
      var i := 0;
      while i < |slots| && slots[i].Some?
        invariant i <= |slots|
      {
        i := i + 1;
      }
      if i == |slots| {
        AppendEmpty(slots);
        slots := slots + [None];
      }
      StoreUpdates(slots, i, Fresh(ssrc));
      slots := slots[i := Some(Fresh(ssrc))];
      last := Some(i);
      r := Some(i);
    }

    /** Writing through the reference that `GetMutOrInsert` returned. */
    method Store(i: nat, s: Stream)
      requires Valid() && Holds(slots, i, s.ssrc)
      modifies this
      ensures Valid() && Table() == old(Table())[s.ssrc := s]
    {
      StoreUpdates(slots, i, s);
      slots := slots[i := Some(s)];
    }
  }
}
