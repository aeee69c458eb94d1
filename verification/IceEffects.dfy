/**
 * What a caller of the ICE agent finds afterwards: who was refreshed, who was
 * dropped, which answer a request gets, and what stayed as it was.
 */
module IceEffects {
  import opened Bytes
  import opened IceAgents
  import opened IceTable
  import opened Wrappers

  /** The table has this address, seen at that instant. */
  ghost predicate SeenAt(slots: Slots, remote: Addr, t: nat) {
    exists i :: Holds(slots, i, remote) && slots[i].value.lastSeen == t
  }

  lemma PutSeen(slots: Slots, i: int, remote: Addr, now: nat, a: Addr, t: nat)
    requires 0 <= i < |slots| && a != remote && (slots[i].Some? ==> slots[i].value.remote != a)
    ensures SeenAt(slots[i := Some(Pair(remote, now))], a, t) <==> SeenAt(slots, a, t)
  {
    var after := slots[i := Some(Pair(remote, now))];
    if SeenAt(slots, a, t) {
      var j :| Holds(slots, j, a) && slots[j].value.lastSeen == t;
      assert Holds(after, j, a);
    }
    if SeenAt(after, a, t) {
      var j :| Holds(after, j, a) && after[j].value.lastSeen == t;
      assert Holds(slots, j, a);
    }
  }

  /** A touched address is seen now; if it was in the table, or the table had room, everybody else is as before. */
  lemma TouchedIsSeen(slots: Slots, remote: Addr, now: nat)
    requires Distinct(slots) && SeenBy(slots, now) && slots != []
    ensures SeenAt(Touch(slots, remote, now), remote, now)
    ensures Tracked(slots, remote) || !Full(slots) ==>
              forall a, t :: a != remote ==> (SeenAt(Touch(slots, remote, now), a, t) <==> SeenAt(slots, a, t))
  {
    TouchKeeps(slots, remote, now);
    var i := Place(slots, remote, now);
    assert Holds(Touch(slots, remote, now), i, remote);
    if Tracked(slots, remote) || !Full(slots) {
      forall a, t | a != remote
        ensures SeenAt(Touch(slots, remote, now), a, t) <==> SeenAt(slots, a, t)
      {
        PutSeen(slots, i, remote, now, a, t);
      }
    }
  }

  /**
   * A keepalive from a tracked or selected address leaves it seen now and, if it
   * was tracked, everybody else as before; from any other address it changes
   * nothing.
   */
  lemma IndicationRefreshes(a: Agent, remote: Addr, now: nat)
    requires Distinct(a.slots) && SeenBy(a.slots, now) && a.slots != []
    ensures var after := OnIndication(a, remote, now);
            if Tracked(a.slots, remote) || a.selected == Some(remote) then
              && SeenAt(after.slots, remote, now) && after == a.(slots := after.slots)
              && (Tracked(a.slots, remote) ==>
                    forall b, t :: b != remote ==> (SeenAt(after.slots, b, t) <==> SeenAt(a.slots, b, t)))
            else after == a
  {
    TouchedIsSeen(a.slots, remote, now);
    FoundIffTracked(a.slots, remote);
  }

  lemma FoundIffTracked(slots: Slots, remote: Addr)
    ensures IndexOf(slots, remote, 0) < |slots| <==> Tracked(slots, remote)
  {
  }

  /** The timer drops exactly the pairs that are not selected and have been silent for more than 30 s. */
  lemma ExpiryIff(a: Agent, now: nat, i: nat)
    requires i < |a.slots|
    ensures var after := OnTimeout(a, now);
            && after == a.(slots := after.slots) && |after.slots| == |a.slots|
            && (a.slots[i].None? ==> after.slots[i].None?)
            && (a.slots[i].Some? ==>
                  after.slots[i] ==
                  if a.selected != Some(a.slots[i].value.remote) && now - a.slots[i].value.lastSeen > 30 * 1_000_000_000
                  then None else a.slots[i])
  {
  }

  // ── Requests ──────────────────────────────────────────────────────────

  /** The username names this session: our ufrag, a colon, and the peer's, if that is known. */
  ghost predicate Names(a: Agent, username: Text) {
    exists peer: Text ::
      && username == a.localUfrag + [0x3A] + peer
      && (if a.remoteUfrag.Some? then a.remoteUfrag.value == peer else peer != [])
  }

  lemma ValidIffNames(a: Agent, username: Text)
    ensures UsernameValid(a, username) <==> Names(a, username)
  {
    if UsernameValid(a, username) {
      var peer := username[|a.localUfrag| + 1..];
      assert username == a.localUfrag + [0x3A] + peer;
    }
    if Names(a, username) {
      var peer: Text :| username == a.localUfrag + [0x3A] + peer
                        && (if a.remoteUfrag.Some? then a.remoteUfrag.value == peer else peer != []);
      assert username[|a.localUfrag| + 1..] == peer;
    }
  }

  /** The answer to a request: success with the sender's own address, or the first reason to refuse. */
  lemma AnswerSays(a: Agent, q: Request, remote: Addr, now: nat)
    ensures OnRequest(a, q, remote, now).reply ==
            if q.username.None? || !q.hasIntegrity then Error(400, false)
            else if !Names(a, q.username.value) || !q.verifies then Error(401, false)
            else if q.unknownRequired then Error(420, true)
            else if q.role.None? then Error(400, true)
            else if q.role.value == Controlled then Error(487, true)
            else Success(remote)
  {
    if q.username.Some? { ValidIffNames(a, q.username.value); }
  }

  /** What an accepted request leaves: its sender seen now, selected if it nominated, one more check counted. */
  lemma AcceptedLeaves(a: Agent, q: Request, remote: Addr, now: nat)
    requires Distinct(a.slots) && SeenBy(a.slots, now) && a.slots != [] && OnRequest(a, q, remote, now).reply.Success?
    ensures var after := OnRequest(a, q, remote, now).agent;
            && SeenAt(after.slots, remote, now) && after.checks == a.checks + 1
            && after.selected == (if q.useCandidate then Some(remote) else a.selected)
            && after.nominations == a.nominations + (if q.useCandidate && a.selected != Some(remote) then 1 else 0)
            && after == a.(slots := after.slots, checks := after.checks, selected := after.selected, nominations := after.nominations)
            && (OnRequest(a, q, remote, now).nominated ==
                if q.useCandidate && a.selected != Some(remote) then Some(remote) else None)
  {
    TouchedIsSeen(a.slots, remote, now);
  }

  /** A new remote ufrag forgets every pair and the selection and nothing else; the known one changes nothing. */
  lemma RestartForgets(a: Agent, ufrag: Text)
    ensures var after := Restarted(a, ufrag);
            if a.remoteUfrag == Some(ufrag) then after == a
            else
              && after == a.(remoteUfrag := Some(ufrag), selected := None, slots := after.slots)
              && |after.slots| == |a.slots| && forall remote :: !Tracked(after.slots, remote)
  {
    if a.remoteUfrag != Some(ufrag) { EmptyTracksNothing(Restarted(a, ufrag).slots); }
  }

  // ── Runs ──────────────────────────────────────────────────────────────

  /** A run takes every event that is no earlier than the last. */
  lemma RunTakes(localUfrag: Text, remoteUfrag: Option<Text>, events: seq<Event>, e: Event)
    ensures var s := Run(localUfrag, remoteUfrag, events);
            Run(localUfrag, remoteUfrag, events + [e]) == if e.RemoteUfrag? || e.at >= s.clock then Step(s, e) else s
  {
    assert (events + [e])[..|events|] == events;
  }

  /** The table has 64 slots throughout. */
  lemma SixtyFour(localUfrag: Text, remoteUfrag: Option<Text>, events: seq<Event>)
    ensures |Run(localUfrag, remoteUfrag, events).agent.slots| == 64
  {
    RunKeeps(localUfrag, remoteUfrag, events);
  }

  /** The k-th event was an authenticated request from this address. */
  ghost predicate Proved(localUfrag: Text, remoteUfrag: Option<Text>, events: seq<Event>, k: int, a: Addr) {
    0 <= k < |events| && events[k].Requested? && events[k].remote == a
    && var s := Run(localUfrag, remoteUfrag, events[..k]);
       events[k].at >= s.clock && Authenticated(s.agent, events[k].q)
  }

  /** The j-th event changed the remote ufrag. */
  ghost predicate Changes(localUfrag: Text, remoteUfrag: Option<Text>, events: seq<Event>, j: int) {
    0 <= j < |events| && events[j].RemoteUfrag?
    && Run(localUfrag, remoteUfrag, events[..j]).agent.remoteUfrag != Some(events[j].ufrag)
  }

  /** Some authenticated request came from this address, and the remote ufrag has not changed since. */
  ghost predicate ProvedSince(localUfrag: Text, remoteUfrag: Option<Text>, events: seq<Event>, a: Addr) {
    exists k :: Proved(localUfrag, remoteUfrag, events, k, a)
                && forall j :: k < j < |events| ==> !Changes(localUfrag, remoteUfrag, events, j)
  }

  lemma EarlierEvents(l: Text, r: Option<Text>, events: seq<Event>, n: nat, k: int, a: Addr)
    requires n <= |events| && k < n
    ensures Proved(l, r, events[..n], k, a) <==> Proved(l, r, events, k, a)
    ensures Changes(l, r, events[..n], k) <==> Changes(l, r, events, k)
  {
    if 0 <= k { assert events[..n][..k] == events[..k]; }
  }

  lemma StillProved(l: Text, r: Option<Text>, events: seq<Event>, n: nat, a: Addr)
    requires n + 1 == |events| && ProvedSince(l, r, events[..n], a) && !Changes(l, r, events, n)
    ensures ProvedSince(l, r, events, a)
  {
    var front := events[..n];
    var k :| Proved(l, r, front, k, a) && forall j :: k < j < n ==> !Changes(l, r, front, j);
    EarlierEvents(l, r, events, n, k, a);
    forall j | k < j < |events| ensures !Changes(l, r, events, j) {
      if j < n { EarlierEvents(l, r, events, n, j, a); }
    }
  }

  lemma ProvedEarlier(l: Text, r: Option<Text>, events: seq<Event>, n: nat, a: Addr)
    requires n + 1 == |events| && ProvedSince(l, r, events, a) && !Proved(l, r, events, n, a)
    ensures ProvedSince(l, r, events[..n], a) && !Changes(l, r, events, n)
  {
    var k :| Proved(l, r, events, k, a) && forall j :: k < j < |events| ==> !Changes(l, r, events, j);
    EarlierEvents(l, r, events, n, k, a);
    forall j | k < j < n ensures !Changes(l, r, events[..n], j) {
      EarlierEvents(l, r, events, n, j, a);
    }
  }

  lemma ProvedNow(l: Text, r: Option<Text>, events: seq<Event>, n: nat, a: Addr)
    requires n + 1 == |events| && Proved(l, r, events, n, a)
    ensures ProvedSince(l, r, events, a)
  {
  }

  /** The proven addresses of a run are those, so that `RunKeeps` speaks of nobody else. */
  lemma {:induction false} ProvenIff(l: Text, r: Option<Text>, events: seq<Event>, a: Addr)
    ensures a in Run(l, r, events).proven <==> ProvedSince(l, r, events, a)
  {
    if events != [] {
      var n := |events| - 1;
      ProvenIff(l, r, events[..n], a);
      if Proved(l, r, events, n, a) {
        ProvedNow(l, r, events, n, a);
      } else if ProvedSince(l, r, events, a) {
        ProvedEarlier(l, r, events, n, a);
      } else if ProvedSince(l, r, events[..n], a) && !Changes(l, r, events, n) {
        StillProved(l, r, events, n, a);
      }
    }
  }
}
