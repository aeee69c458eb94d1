/**
 * The ICE-lite agent's bounded table of validated remote addresses: refreshing,
 * inserting, evicting the least recently seen, and expiring.
 */
module IceTable {
  import opened Bytes
  import opened Wrappers

  const MAX_PAIRS := 64

  /** How long a pair that is not selected is kept without traffic: 30 s, in nanoseconds. */
  const PAIR_TTL := 30_000_000_000

  /** A transport address. */
  datatype Addr = V4(ip: seq<byte>, port: u16) | V6(ip: seq<byte>, port: u16)

  datatype Pair = Pair(remote: Addr, lastSeen: nat)

  type Slots = seq<Option<Pair>>

  predicate Holds(slots: Slots, i: int, remote: Addr) {
    0 <= i < |slots| && slots[i].Some? && slots[i].value.remote == remote
  }

  ghost predicate Tracked(slots: Slots, remote: Addr) {
    exists i :: Holds(slots, i, remote)
  }

  ghost predicate Distinct(slots: Slots) {
    forall i, j, a :: Holds(slots, i, a) && Holds(slots, j, a) ==> i == j
  }

  predicate Full(slots: Slots) {
    forall i :: 0 <= i < |slots| ==> slots[i].Some?
  }

  /** No entry is from after `now`. */
  predicate SeenBy(slots: Slots, now: nat) {
    forall i :: 0 <= i < |slots| && slots[i].Some? ==> slots[i].value.lastSeen <= now
  }

  /** The first slot from `i` on that holds the address, or the table's length. */
  function IndexOf(slots: Slots, remote: Addr, i: nat): (r: nat)
    requires i <= |slots|
    ensures i <= r <= |slots|
    ensures r < |slots| ==> Holds(slots, r, remote)
    ensures forall j :: i <= j < r ==> !Holds(slots, j, remote)
    decreases |slots| - i
  {
    if i == |slots| || Holds(slots, i, remote) then i else IndexOf(slots, remote, i + 1)
  }

  function FirstFree(slots: Slots, i: nat): (r: nat)
    requires i <= |slots|
    ensures i <= r <= |slots|
    ensures r < |slots| ==> slots[r].None?
    ensures forall j :: i <= j < r ==> slots[j].Some?
    decreases |slots| - i
  {
    if i == |slots| || slots[i].None? then i else FirstFree(slots, i + 1)
  }

  /** The last of the first `n` slots seen longest ago, and no later than `now`; the table's length if there is none. */
  function Oldest(slots: Slots, n: nat, now: nat): (r: nat)
    requires n <= |slots|
    ensures r < n || r == |slots|
    ensures r < n ==> slots[r].Some? && slots[r].value.lastSeen <= now
    ensures forall j :: 0 <= j < n && slots[j].Some? && slots[j].value.lastSeen <= now ==>
              r < n && slots[r].value.lastSeen <= slots[j].value.lastSeen
  {
    if n == 0 then |slots|
    else
      var before := Oldest(slots, n - 1, now);
      var bound := if before < n - 1 then slots[before].value.lastSeen else now;
      if slots[n - 1].Some? && slots[n - 1].value.lastSeen <= bound then n - 1 else before
  }

  /** Where a touch of this address lands; the table's length if nowhere. */
  function Place(slots: Slots, remote: Addr, now: nat): (r: nat)
    ensures r <= |slots|
  {
    if IndexOf(slots, remote, 0) < |slots| then IndexOf(slots, remote, 0)
    else if FirstFree(slots, 0) < |slots| then FirstFree(slots, 0)
    else Oldest(slots, |slots|, now)
  }

  function Touch(slots: Slots, remote: Addr, now: nat): (r: Slots)
    ensures |r| == |slots|
  {
    var i := Place(slots, remote, now);
    if i < |slots| then slots[i := Some(Pair(remote, now))] else slots
  }

  /**
   * With a clock that has not gone back, a touch always leaves the address in
   * the table as seen now. Only a full table without it loses an entry, and that
   * entry was seen no later than any other.
   */
  lemma TouchKeeps(slots: Slots, remote: Addr, now: nat)
    requires Distinct(slots) && SeenBy(slots, now) && slots != []
    ensures var i := Place(slots, remote, now);
            var after := Touch(slots, remote, now);
            && i < |slots| && after == slots[i := Some(Pair(remote, now))]
            && Distinct(after) && SeenBy(after, now)
            && (slots[i].Some? && slots[i].value.remote != remote ==>
                  Full(slots) && !Tracked(slots, remote)
                  && forall j :: 0 <= j < |slots| ==> slots[i].value.lastSeen <= slots[j].value.lastSeen)
    ensures forall a :: Tracked(Touch(slots, remote, now), a) ==> Tracked(slots, a) || a == remote
  {
    var i := Place(slots, remote, now);
    var after := Touch(slots, remote, now);
    if IndexOf(slots, remote, 0) == |slots| && FirstFree(slots, 0) == |slots| {
      assert slots[0].Some?;
    }
    forall j, k, a | Holds(after, j, a) && Holds(after, k, a) ensures j == k {
      if j != i { assert Holds(slots, j, a); }
      if k != i { assert Holds(slots, k, a); }
    }
    forall a | Tracked(after, a) ensures Tracked(slots, a) || a == remote {
      var j :| Holds(after, j, a);
      if j != i { assert Holds(slots, j, a); }
    }
  }

  // ── Timers ────────────────────────────────────────────────────────────

  predicate IsSelected(selected: Option<Addr>, remote: Addr) {
    selected == Some(remote)
  }

  /** Time since `then`, zero if it is still to come. */
  function Elapsed(now: nat, since: nat): nat {
    if now >= since then now - since else 0
  }

  predicate Stale(p: Option<Pair>, selected: Option<Addr>, now: nat) {
    p.Some? && !IsSelected(selected, p.value.remote) && Elapsed(now, p.value.lastSeen) > PAIR_TTL
  }

  function Expire(slots: Slots, selected: Option<Addr>, now: nat): (r: Slots)
    ensures |r| == |slots|
  {
    seq(|slots|, i requires 0 <= i < |slots| => if Stale(slots[i], selected, now) then None else slots[i])
  }

  predicate Timed(p: Option<Pair>, selected: Option<Addr>) {
    p.Some? && !IsSelected(selected, p.value.remote)
  }

  function Earlier(a: Option<nat>, b: nat): Option<nat> {
    if a.Some? && a.value <= b then a else Some(b)
  }

  /** The earliest instant at which one of the first n pairs has been silent for the time to live. */
  function Deadline(slots: Slots, selected: Option<Addr>, n: nat): (r: Option<nat>)
    requires n <= |slots|
    ensures r.None? <==> forall i :: 0 <= i < n ==> !Timed(slots[i], selected)
    ensures r.Some? ==> forall i :: 0 <= i < n && Timed(slots[i], selected) ==> r.value <= slots[i].value.lastSeen + PAIR_TTL
    ensures r.Some? ==> exists i :: 0 <= i < n && Timed(slots[i], selected) && r.value == slots[i].value.lastSeen + PAIR_TTL
  {
    if n == 0 then None
    else
      var before := Deadline(slots, selected, n - 1);
      if Timed(slots[n - 1], selected) then Earlier(before, slots[n - 1].value.lastSeen + PAIR_TTL) else before
  }

  function PollTimeout(slots: Slots, selected: Option<Addr>): Option<nat> {
    Deadline(slots, selected, |slots|)
  }

  /** After the timer ran, nothing unselected is older than the time to live, and the next deadline is not in the past. */
  lemma ExpiredIsFresh(slots: Slots, selected: Option<Addr>, now: nat)
    requires Distinct(slots)
    ensures var after := Expire(slots, selected, now);
            && Distinct(after)
            && (forall i :: 0 <= i < |after| && Timed(after[i], selected) ==> Elapsed(now, after[i].value.lastSeen) <= PAIR_TTL)
            && (PollTimeout(after, selected).Some? ==> PollTimeout(after, selected).value >= now)
            && (forall a :: Tracked(after, a) ==> Tracked(slots, a))
            && (forall a :: Tracked(slots, a) && IsSelected(selected, a) ==> Tracked(after, a))
  {
    var after := Expire(slots, selected, now);
    forall j, k, a | Holds(after, j, a) && Holds(after, k, a) ensures j == k {
      assert Holds(slots, j, a) && Holds(slots, k, a);
    }
    forall a | Tracked(after, a) ensures Tracked(slots, a) {
      var j :| Holds(after, j, a);
      assert Holds(slots, j, a);
    }
    forall a | Tracked(slots, a) && IsSelected(selected, a) ensures Tracked(after, a) {
      var j :| Holds(slots, j, a);
      assert Holds(after, j, a);
    }
  }

  /**
   * The timer purges only strictly after the time to live, but the deadline is
   * the instant it is reached: running the timer exactly then changes nothing,
   * and the same deadline is reported again. One nanosecond later the pair goes.
   */
  lemma AtTheDeadlineNothingExpires(slots: Slots, selected: Option<Addr>)
    requires PollTimeout(slots, selected).Some?
    ensures var t := PollTimeout(slots, selected).value;
            && Expire(slots, selected, t) == slots
            && Expire(slots, selected, t + 1) != slots
  {
    var t := PollTimeout(slots, selected).value;
    assert forall i :: 0 <= i < |slots| ==> !Stale(slots[i], selected, t);
    assert Expire(slots, selected, t) == slots;
    var i :| 0 <= i < |slots| && Timed(slots[i], selected) && t == slots[i].value.lastSeen + PAIR_TTL;
    assert Stale(slots[i], selected, t + 1);
    assert Expire(slots, selected, t + 1)[i] == None;
  }
}
