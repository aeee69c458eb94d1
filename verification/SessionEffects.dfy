/** What handling a subscription update or a chat message comes to, for the registry and for everybody who hears of it. */
module SessionEffects {
  import opened Convergence
  import opened HubMirroring
  import opened Hubs
  import opened Messages
  import opened RoomEffects
  import opened Rooms
  import opened Sessions
  import opened Worlds
  import opened Wrappers
  import KeyOrder

  // ── Subscriptions ─────────────────────────────────────────────────────

  /** The i-th request is the last one that names this track. */
  ghost predicate LastRequest(wire: seq<WireSubscription>, i: int, t: TrackRef) {
    0 <= i < |wire| && wire[i].track == Some(t) && forall j :: i < j < |wire| ==> wire[j].track != Some(t)
  }

  /** A request as the registry keeps it: without a layer, every layer is wanted. */
  function AsKept(s: WireSubscription, t: TrackRef): Subscription {
    Subscription(t, if s.maxLayer.Some? then s.maxLayer.value else Layer(0xFFFF_FFFF, 0xFFFF_FFFF), s.priority)
  }

  /** Requests are kept as last made; of the other tracks, those held before and not removed are as they were. */
  ghost predicate AskedAs(before: Subscriptions, wire: seq<WireSubscription>, remove: seq<TrackRef>, after: Subscriptions) {
    && (forall i, t :: LastRequest(wire, i, t) ==> t in after && after[t] == AsKept(wire[i], t))
    && (forall t :: Unnamed(wire, t) ==>
          (t in after <==> t in before && t !in remove) && (t in after ==> after[t] == before[t]))
  }

  ghost predicate Unnamed(wire: seq<WireSubscription>, t: TrackRef) {
    forall i :: 0 <= i < |wire| ==> wire[i].track != Some(t)
  }

  lemma {:induction false} CoreUnnamed(wire: seq<WireSubscription>, t: TrackRef)
    requires Unnamed(wire, t)
    ensures forall j :: 0 <= j < |CoreSubscriptions(wire)| ==> CoreSubscriptions(wire)[j].track != t
  {
    if wire != [] { CoreUnnamed(wire[..|wire| - 1], t); }
  }

  lemma {:induction false} CoreLast(wire: seq<WireSubscription>, i: int, t: TrackRef) returns (j: nat)
    requires LastRequest(wire, i, t)
    ensures LastFor(CoreSubscriptions(wire), j, t) && CoreSubscriptions(wire)[j] == AsKept(wire[i], t)
  {
    var n := |wire| - 1;
    if i == n {
      j := |CoreSubscriptions(wire)| - 1;
    } else {
      assert wire[n].track != Some(t);
      j := CoreLast(wire[..n], i, t);
    }
  }

  lemma CoreAsked(before: Subscriptions, wire: seq<WireSubscription>, remove: seq<TrackRef>, after: Subscriptions)
    requires BatchedAs(before, CoreSubscriptions(wire), remove, after)
    ensures AskedAs(before, wire, remove, after)
  {
    forall i, t | LastRequest(wire, i, t) ensures t in after && after[t] == AsKept(wire[i], t) {
      var j := CoreLast(wire, i, t);
    }
    forall t | Unnamed(wire, t)
      ensures (t in after <==> t in before && t !in remove) && (t in after ==> after[t] == before[t])
    {
      CoreUnnamed(wire, t);
    }
  }

  /** The revision that an entry was last brought to, zero if none. */
  function Revision(m: Member): nat {
    if m.applied.Some? then m.applied.value else 0
  }

  /**
   * A subscription update from a member either brings its entry to what was asked
   * at that revision, touching nobody else, or changes nothing: because the
   * revision is stale, or because it comes to more than 2048. Either way the
   * sender, and only the sender, is told the revision its entry is now at.
   */
  lemma UpdateIsAnswered(s: SessionValue, d: Directory, wire: seq<WireSubscription>, remove: seq<TrackRef>, revision: nat,
                         room: string, pid: string, m: Member, h: Handled)
    returns (after: Subscriptions)
    requires WellFormed(s) && s.state == State.Joined && s.roomId == Some(room) && s.participantId == Some(pid)
    requires Present(d, room, pid) && m == d.rooms[room][pid] && h == OnSubscriptions(s, d, wire, remove, revision)
    ensures AskedAs(m.subscriptions, wire, remove, after)
    ensures Present(h.directory, room, pid) && h.session == s
    ensures h.outputs == [ToSelf(SubscriptionUpdate(Revision(h.directory.rooms[room][pid])))]
    ensures if (m.applied.Some? && revision <= m.applied.value) || |after| > 2048 then h.directory == d
            else
              && h.directory.rooms[room][pid] == m.(subscriptions := after, applied := Some(revision))
              && OnlyTouches(d, h.directory, room, pid)
  {
    after := Batched(m.subscriptions, CoreSubscriptions(wire), remove);
    BatchedIs(m.subscriptions, CoreSubscriptions(wire), remove);
    CoreAsked(m.subscriptions, wire, remove, after);
    UpdateApplies(d, room, pid, CoreSubscriptions(wire), remove, revision, after);
  }

  // ── Ending a session ──────────────────────────────────────────────────

  /** Is this message a violation in this state, or a join request that is not admitted? */
  predicate Violates(s: SessionValue, d: Directory, msg: ClientMessage) {
    match s.state
    case Closed => false
    case Joined => msg.JoinRequest?
    case AwaitingJoin =>
      || !msg.JoinRequest? || msg.claims.None?
      || Join(d, msg.claims.value.roomId, msg.claims.value.displayName).1.Err?
  }

  /** A violation closes the session with no reason given and leaves the registry as it is. */
  lemma ViolationEnds(s: SessionValue, d: Directory, msg: ClientMessage)
    requires WellFormed(s) && Violates(s, d, msg)
    ensures Handle(s, d, msg) ==
            Handled(s.(state := State.Closed), d, [ToSelf(Disconnect(UnspecifiedReason)), Output.Close])
  {
    if s.state == State.AwaitingJoin && msg.JoinRequest? && msg.claims.Some? {
      JoinErrKeeps(d, msg.claims.value.roomId, msg.claims.value.displayName);
    }
  }

  /** A leaver is told so, its peers hear of it exactly if it was there, and its socket closes. */
  lemma LeavingEnds(s: SessionValue, d: Directory, room: string, pid: string, h: Handled)
    requires WellFormed(s) && s.state == State.Joined && s.roomId == Some(room) && s.participantId == Some(pid)
    requires h == Handle(s, d, LeaveRequest)
    ensures h.session == s.(state := State.Closed) && !Present(h.directory, room, pid) && OnlyTouches(d, h.directory, room, pid)
    ensures h.outputs ==
            [ToSelf(Disconnect(ClientLeft))]
            + (if Present(d, room, pid) then [ToPeers(Delta(RoomDelta([], [pid], [], [], [])))] else [])
            + [Output.Close]
  {
    LeaveTakesAway(d, room, pid);
  }

  /** Closed sessions and messages for the media plane change nothing and say nothing. */
  lemma NothingHappens(s: SessionValue, d: Directory, msg: ClientMessage)
    requires WellFormed(s)
    requires s.state == State.Closed || (s.state == State.Joined && (msg.Transport? || msg.Empty?))
    ensures Handle(s, d, msg) == Handled(s, d, [])
  {
  }

  // ── Chat ──────────────────────────────────────────────────────────────

  /** Is x the sender's socket, or joined to the sender's room? */
  predicate InTheRoom(w: World, c: Socket, x: Socket)
    requires c in w.sessions
  {
    x == c || (x in w.sessions && IsJoined(w, x) && w.sessions[x].roomId == w.sessions[c].roomId)
  }

  lemma HeardChat(m: ServerMessage, own: bool, peer: bool)
    requires !(own && peer)
    ensures Heard([ToPeers(m), ToSelf(m)], own, peer) == if own || peer then [m] else []
  {
    var outs := [ToPeers(m), ToSelf(m)];
    assert outs[..1] == [ToPeers(m)] && [ToPeers(m)][..0] == [];
    assert Heard([ToPeers(m)], own, peer) == if peer then [m] else [];
  }

  lemma StaysDelivering(w: World, c: Socket, text: string, inBudget: bool)
    requires Fits(w) && c in w.sessions && IsJoined(w, c)
    ensures var h := Delivering(w, c, SendChat(text, inBudget));
            h.directory == w.hub.directory && h.outbounds == w.hub.outbounds
  {
    assert SessionFits(w, c);
  }

  function Line(s: SessionValue, name: string, text: string): ServerMessage
    requires s.participantId.Some?
  {
    Chat(s.participantId.value + "-" + KeyOrder.Decimal(s.chatSeq + 1), s.participantId.value, name, text)
  }

  predicate Speakable(text: string, inBudget: bool) {
    1 <= |text| <= 2000 && inBudget
  }

  lemma ChatHandled(s: SessionValue, d: Directory, name: string, text: string, inBudget: bool)
    requires WellFormed(s) && s.state == State.Joined && s.displayName == Some(name)
    ensures Handle(s, d, SendChat(text, inBudget)) ==
            if Speakable(text, inBudget)
            then Handled(s.(chatSeq := s.chatSeq + 1), d, [ToPeers(Line(s, name, text)), ToSelf(Line(s, name, text))])
            else Handled(s, d, [])
  {
  }

  lemma SamePeers(h: HubValue, s: SessionValue, t: SessionValue, x: Socket)
    requires s.participantId == t.participantId && s.roomId == t.roomId
    ensures IsPeer(h, s, x) <==> IsPeer(h, t, x)
  {
    assert Peers(h.directory, s) == Peers(h.directory, t);
  }

  lemma PeerIsJoined(w: World, h: HubValue, s: SessionValue, x: Socket)
    requires Fits(w) && h.outbounds == w.hub.outbounds && IsPeer(h, s, x)
    ensures x in w.sessions && IsJoined(w, x)
  {
    var p :| p in Peers(h.directory, s) && p in h.outbounds && h.outbounds[p] == x;
    assert OutboundFits(w, p);
  }

  lemma PeerIsInTheRoom(w: World, h: HubValue, c: Socket, s: SessionValue, x: Socket)
    requires Fits(w) && Sound(w.hub.directory) && IsJoined(w, c) && x in w.sessions
    requires h.directory == w.hub.directory && h.outbounds == w.hub.outbounds
    requires s.participantId == w.sessions[c].participantId && s.roomId == w.sessions[c].roomId
    ensures IsPeer(h, s, x) <==> x != c && InTheRoom(w, c, x)
  {
    SamePeers(h, s, w.sessions[c], x);
    if IsJoined(w, x) {
      PeersAre(w, h, c, x);
    } else if IsPeer(h, s, x) {
      PeerIsJoined(w, h, s, x);
    }
  }

  lemma ChatQueues(w: World, c: Socket, name: string, text: string, inBudget: bool, x: Socket)
    requires Fits(w) && Sound(w.hub.directory) && IsJoined(w, c) && w.sessions[c].displayName == Some(name)
    requires x in w.sessions
    ensures var s, msg := w.sessions[c], SendChat(text, inBudget);
            Heard(Handle(s, w.hub.directory, msg).outputs, x == c,
                  IsPeer(Delivering(w, c, msg), Handle(s, w.hub.directory, msg).session, x)) ==
            if Speakable(text, inBudget) && InTheRoom(w, c, x) then [Line(s, name, text)] else []
  {
    var s, msg := w.sessions[c], SendChat(text, inBudget);
    var r := Handle(s, w.hub.directory, msg);
    ChatHandled(s, w.hub.directory, name, text, inBudget);
    StaysDelivering(w, c, text, inBudget);
    PeerIsInTheRoom(w, Delivering(w, c, msg), c, r.session, x);
    if Speakable(text, inBudget) {
      HeardChat(Line(s, name, text), x == c, IsPeer(Delivering(w, c, msg), r.session, x));
    }
  }

  /**
   * A chat line of 1 to 2000 within the budget reaches everybody in the room,
   * sender included, once and nobody else, under the sender's own id and name and
   * a number one above its last; any other line is dropped without a trace.
   */
  lemma ChatIsHeard(w: World, c: Socket, name: string, text: string, inBudget: bool, x: Socket, s: SessionValue, w': World)
    requires Fits(w) && Sound(w.hub.directory) && IsJoined(w, c) && s == w.sessions[c] && s.displayName == Some(name)
    requires x in w.sessions && w' == Step(w, Receive(c, SendChat(text, inBudget)))
    ensures x in w.hub.queues && x in w'.hub.queues
    ensures w'.hub.queues[x] ==
            w.hub.queues[x] + if Speakable(text, inBudget) && InTheRoom(w, c, x) then [Line(s, name, text)] else []
    ensures w'.hub.directory == w.hub.directory
    ensures w'.sessions == w.sessions[c := s.(chatSeq := s.chatSeq + if Speakable(text, inBudget) then 1 else 0)]
  {
    ReceiveHeard(w, c, SendChat(text, inBudget), x);
    DispatchKeeps(w.hub, s, c, SendChat(text, inBudget));
    ChatHandled(s, w.hub.directory, name, text, inBudget);
    ChatQueues(w, c, name, text, inBudget, x);
  }
}
