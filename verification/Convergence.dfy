/**
 * Replication: in every reachable state, a joined client that has drained its
 * queue holds the registry's room.
 */
module Convergence {
  import opened Hubs
  import opened Maps
  import opened Messages
  import opened Rooms
  import opened RoomViews
  import opened Sessions
  import opened TrackLists
  import opened Worlds
  import opened Wrappers

  // ── What a client notices of a batch of outputs ───────────────────────

  /** The fold of the outputs that reach a client: replies if they are its own, broadcasts if it is a peer. */
  function Noticed(v: View, outs: seq<Output>, own: bool, peer: bool, name: string, local: seq<Track>): View {
    if outs == [] then v
    else
      var before, last := Noticed(v, outs[..|outs| - 1], own, peer, name, local), outs[|outs| - 1];
      if (last.ToSelf? && own) || (last.ToPeers? && peer) then See(before, last.message, name, local) else before
  }

  lemma NoticedFew(v: View, a: Output, b: Output, c: Output, own: bool, peer: bool, name: string, local: seq<Track>)
    ensures Noticed(v, [a], own, peer, name, local) == Notice(v, a, own, peer, name, local)
    ensures Noticed(v, [a, b], own, peer, name, local) ==
            Notice(Notice(v, a, own, peer, name, local), b, own, peer, name, local)
    ensures Noticed(v, [a, b, c], own, peer, name, local) ==
            Notice(Notice(Notice(v, a, own, peer, name, local), b, own, peer, name, local), c, own, peer, name, local)
  {
    assert [a][..0] == [] && [a, b][..1] == [a] && [a, b, c][..2] == [a, b];
  }

  function Notice(v: View, out: Output, own: bool, peer: bool, name: string, local: seq<Track>): View {
    if (out.ToSelf? && own) || (out.ToPeers? && peer) then See(v, out.message, name, local) else v
  }

  predicate IsPeer(h: HubValue, s: SessionValue, x: Socket) {
    Reached(h.outbounds, Peers(h.directory, s), x)
  }

  lemma {:induction false} SeenDelivered(h: HubValue, s: SessionValue, own: Option<Socket>, outs: seq<Output>, x: Socket,
                                         name: string, local: seq<Track>)
    requires x in h.queues
    ensures x in DeliverAll(h, s, own, outs).queues
    ensures Seen(DeliverAll(h, s, own, outs).queues[x], name, local) ==
            Noticed(Seen(h.queues[x], name, local), outs, own == Some(x), IsPeer(h, s, x), name, local)
  {
    if outs != [] {
      var front, last := outs[..|outs| - 1], outs[|outs| - 1];
      SeenDelivered(h, s, own, front, x, name, local);
      DeliverAllKeeps(h, s, own, front);
      if !last.Close? {
        SeenMore(DeliverAll(h, s, own, front).queues[x], last.message, name, local);
      }
    }
  }

  predicate RegisteredTo(outbounds: Outbounds, p: string, x: Socket) {
    p in outbounds && outbounds[p] == x
  }

  /** A registered member of another room, or the sender itself, is no peer; one of the same room is. */
  lemma PeerIff(h: HubValue, s: SessionValue, x: Socket, room: string, pid: string)
    requires OneRoomEach(h.directory) && Present(h.directory, room, pid)
    requires RegisteredTo(h.outbounds, pid, x)
    requires forall p :: RegisteredTo(h.outbounds, p, x) ==> p == pid
    requires s.roomId.Some? && s.participantId.Some?
    ensures IsPeer(h, s, x) <==> s.roomId.value == room && s.participantId.value != pid
  {
    if IsPeer(h, s, x) {
      var p :| p in Peers(h.directory, s) && p in h.outbounds && h.outbounds[p] == x;
      assert RegisteredTo(h.outbounds, p, x) && Present(h.directory, s.roomId.value, pid);
    }
    if s.roomId.value == room && s.participantId.value != pid {
      assert pid in Peers(h.directory, s);
    }
  }

  // ── How one room changes ──────────────────────────────────────────────

  lemma JoinRoom(d: Directory, room: string, name: string, r: string)
    requires Join(d, room, name).1.Ok? && r in d.rooms
    ensures r in Join(d, room, name).0.rooms
    ensures Join(d, room, name).0.rooms[r] ==
            if r == room then d.rooms[r][ParticipantId(d.nextSeq) := Newcomer(name)] else d.rooms[r]
  {
  }

  lemma LeaveRoom(d: Directory, room: string, pid: string, r: string)
    requires r in Leave(d, room, pid).0.rooms
    ensures r in d.rooms
    ensures Leave(d, room, pid).0.rooms[r] == if r == room then d.rooms[r] - {pid} else d.rooms[r]
  {
  }

  // ── One client across one event ───────────────────────────────────────

  /** What a drained client holds agrees with its room. */
  ghost predicate Drained(w: World, x: Socket, name: string, local: seq<Track>)
    requires IsJoined(w, x)
  {
    && x in w.hub.queues && RoomOf(w, x) in w.hub.directory.rooms
    && Agrees(Seen(w.hub.queues[x], name, local), w.hub.directory.rooms[RoomOf(w, x)], PidOf(w, x))
  }

  ghost predicate Converged(w: World, name: string, local: seq<Track>) {
    forall x :: IsJoined(w, x) ==> Drained(w, x, name, local)
  }

  /** The hub as deliveries see it. */
  function Delivering(w: World, c: Socket, msg: ClientMessage): HubValue
    requires Enabled(w, Receive(c, msg))
  {
    var r := Handle(w.sessions[c], w.hub.directory, msg);
    Register(w.hub.(directory := r.directory), r.session, c)
  }

  ghost predicate SeenAfter(w: World, c: Socket, r: Handled, h: HubValue, w': World, x: Socket, name: string, local: seq<Track>) {
    && x in w.hub.queues && x in w'.hub.queues
    && Seen(w'.hub.queues[x], name, local) ==
       Noticed(Seen(w.hub.queues[x], name, local), r.outputs, x == c, IsPeer(h, r.session, x), name, local)
  }

  /** Socket c's session handled something with result r, and hub h delivered it. */
  ghost predicate Moved(w: World, c: Socket, r: Handled, h: HubValue, w': World, name: string, local: seq<Track>) {
    && c in w.sessions && w'.sessions == w.sessions[c := r.session]
    && w'.hub.directory == r.directory && h.directory == r.directory
    && (forall x :: x in w.sessions ==> SeenAfter(w, c, r, h, w', x, name, local))
  }

  lemma ReceiveMoved(w: World, c: Socket, msg: ClientMessage, name: string, local: seq<Track>)
    requires Fits(w) && Enabled(w, Receive(c, msg))
    ensures Moved(w, c, Handle(w.sessions[c], w.hub.directory, msg), Delivering(w, c, msg), Step(w, Receive(c, msg)), name, local)
  {
    var r, h := Handle(w.sessions[c], w.hub.directory, msg), Delivering(w, c, msg);
    DispatchKeeps(w.hub, w.sessions[c], c, msg);
    forall x | x in w.sessions ensures SeenAfter(w, c, r, h, Step(w, Receive(c, msg)), x, name, local) {
      SeenDelivered(h, r.session, Some(c), r.outputs, x, name, local);
    }
  }

  /** In a joined client's eyes, its id is registered with its socket and nobody else's is. */
  lemma JoinedRegistered(w: World, x: Socket)
    requires Fits(w) && IsJoined(w, x)
    ensures Present(w.hub.directory, RoomOf(w, x), PidOf(w, x))
    ensures RegisteredTo(w.hub.outbounds, PidOf(w, x), x)
    ensures forall p :: RegisteredTo(w.hub.outbounds, p, x) ==> p == PidOf(w, x)
  {
    assert SessionFits(w, x);
    forall p | RegisteredTo(w.hub.outbounds, p, x) ensures p == PidOf(w, x) {
      assert OutboundFits(w, p);
    }
  }

  /** Two sockets have different participants. */
  lemma DifferentPids(w: World, x: Socket, c: Socket)
    requires Fits(w) && x in w.sessions && c in w.sessions && x != c
    requires w.sessions[x].participantId.Some? && w.sessions[c].participantId.Some?
    ensures PidOf(w, x) != PidOf(w, c)
  {
    assert SessionFits(w, x) && SessionFits(w, c);
  }

  // ── A participant enters ──────────────────────────────────────────────

  /** Seen from a hub whose table is the world's, the peers of a session are the others joined to its room. */
  lemma PeersAre(w: World, h: HubValue, c: Socket, x: Socket)
    requires Fits(w) && OneRoomEach(w.hub.directory)
    requires h.directory == w.hub.directory && h.outbounds == w.hub.outbounds
    requires IsJoined(w, x) && c in w.sessions && w.sessions[c].participantId.Some? && w.sessions[c].roomId.Some?
    ensures IsPeer(h, w.sessions[c], x) <==> x != c && RoomOf(w, c) == RoomOf(w, x)
  {
    JoinedRegistered(w, x);
    PeerIff(h, w.sessions[c], x, RoomOf(w, x), PidOf(w, x));
    if x != c { DifferentPids(w, x, c); }
  }

  lemma ReceiveSound(w: World, c: Socket, msg: ClientMessage)
    requires Sound(w.hub.directory) && Enabled(w, Receive(c, msg))
    ensures Sound(Step(w, Receive(c, msg)).hub.directory)
  {
    DispatchKeeps(w.hub, w.sessions[c], c, msg);
    HandleKeepsSound(w.sessions[c], w.hub.directory, msg);
  }

  lemma NoClose(s: SessionValue, d: Directory, msg: ClientMessage)
    requires WellFormed(s) && (KindOf(s, d, msg) == Admits || KindOf(s, d, msg) == Stays)
    ensures Output.Close !in Handle(s, d, msg).outputs
  {
    if KindOf(s, d, msg) == Stays { StayHandled(s, d, msg); }
  }

  lemma AdmitOutputs(s: SessionValue, d: Directory, msg: ClientMessage)
    requires WellFormed(s) && KindOf(s, d, msg) == Admits
    ensures var room, name := msg.claims.value.roomId, msg.claims.value.displayName;
            var (d', pid) := (Join(d, room, name).0, ParticipantId(d.nextSeq));
            && room in d'.rooms && pid in d'.rooms[room]
            && Handle(s, d, msg).outputs ==
               [ToSelf(JoinResponse(pid, Snapshot(d'.rooms[room]))), ToPeers(Delta(JoinedDelta(pid, name)))]
  {
  }

  lemma AdmitAgrees(d: Directory, room: string, who: string, pid: string, v: View, r: string, self: string,
                    peer: bool, name: string, local: seq<Track>)
    requires Join(d, room, who).1.Ok? && pid == ParticipantId(d.nextSeq)
    requires r in d.rooms && Agrees(v, d.rooms[r], self)
    requires peer <==> r == room
    ensures var d' := Join(d, room, who).0;
            && r in d'.rooms
            && Agrees(Noticed(v, [ToSelf(JoinResponse(pid, Snapshot(d'.rooms[room]))), ToPeers(Delta(JoinedDelta(pid, who)))],
                              false, peer, name, local),
                      d'.rooms[r], self)
  {
    var d' := Join(d, room, who).0;
    JoinRoom(d, room, who, r);
    NoticedFew(v, ToSelf(JoinResponse(pid, Snapshot(d'.rooms[room]))), ToPeers(Delta(JoinedDelta(pid, who))),
               Output.Close, false, peer, name, local);
    JoinedAgrees(v, d.rooms[r], self, pid, who);
  }

  lemma AdmitDrained(w: World, c: Socket, r: Handled, h: HubValue, w': World, room: string, who: string, x: Socket,
                     name: string, local: seq<Track>)
    requires Moved(w, c, r, h, w', name, local) && Converged(w, name, local)
    requires Fits(w') && OneRoomEach(w'.hub.directory) && h.outbounds == w'.hub.outbounds
    requires Join(w.hub.directory, room, who).1.Ok? && r.directory == Join(w.hub.directory, room, who).0
    requires r.session.participantId == Some(ParticipantId(w.hub.directory.nextSeq)) && r.session.roomId == Some(room)
    requires r.outputs == [ToSelf(JoinResponse(ParticipantId(w.hub.directory.nextSeq), Snapshot(r.directory.rooms[room]))),
                           ToPeers(Delta(JoinedDelta(ParticipantId(w.hub.directory.nextSeq), who)))]
    requires IsJoined(w', x)
    ensures Drained(w', x, name, local)
  {
    var d := w.hub.directory;
    var v := Seen(w.hub.queues[x], name, local);
    PeersAre(w', h, c, x);
    assert SeenAfter(w, c, r, h, w', x, name, local);
    if x == c {
      NoticedFew(v, r.outputs[0], r.outputs[1], Output.Close, true, false, name, local);
      RosterAgrees(r.directory.rooms[room], ParticipantId(d.nextSeq), name, local);
    } else {
      assert IsJoined(w, x) && Drained(w, x, name, local);
      AdmitAgrees(d, room, who, ParticipantId(d.nextSeq), v, RoomOf(w, x), PidOf(w, x), RoomOf(w, x) == room, name, local);
    }
  }

  // ── Messages that no picture of the room shows ────────────────────────

  predicate Unseen(out: Output) {
    out.Close? || !(out.message.JoinResponse? || out.message.Delta?)
  }

  lemma {:induction false} UnseenOutputs(v: View, outs: seq<Output>, own: bool, peer: bool, name: string, local: seq<Track>)
    requires forall i :: 0 <= i < |outs| ==> Unseen(outs[i])
    ensures Noticed(v, outs, own, peer, name, local) == v
  {
    if outs != [] {
      UnseenOutputs(v, outs[..|outs| - 1], own, peer, name, local);
    }
  }

  /** Nothing changes in a directory but what a member does not show: its subscriptions. */
  ghost predicate QuietChange(d: Directory, d': Directory, room: string, pid: string) {
    || d' == d
    || (Present(d, room, pid) && exists m :: d' == SetMember(d, room, pid, m)
                                             && m.name == d.rooms[room][pid].name
                                             && m.tracks == d.rooms[room][pid].tracks)
  }

  lemma QuietAgrees(d: Directory, d': Directory, room: string, pid: string, v: View, r: string, self: string)
    requires QuietChange(d, d', room, pid) && r in d.rooms && Agrees(v, d.rooms[r], self)
    ensures r in d'.rooms && Agrees(v, d'.rooms[r], self)
  {
    if d' != d && r == room {
      var m :| d' == SetMember(d, room, pid, m) && m.name == d.rooms[room][pid].name
               && m.tracks == d.rooms[room][pid].tracks;
      QuietUpdateAgrees(v, d.rooms[r], self, pid, m);
    }
  }

  lemma UnseenDrained(w: World, c: Socket, r: Handled, h: HubValue, w': World, room: string, pid: string, x: Socket,
                      name: string, local: seq<Track>)
    requires Moved(w, c, r, h, w', name, local) && Converged(w, name, local)
    requires forall i :: 0 <= i < |r.outputs| ==> Unseen(r.outputs[i])
    requires QuietChange(w.hub.directory, r.directory, room, pid)
    requires IsJoined(w', x) && (x == c ==> SameIds(w.sessions[c], r.session))
    ensures Drained(w', x, name, local)
  {
    var v := Seen(w.hub.queues[x], name, local);
    assert SeenAfter(w, c, r, h, w', x, name, local);
    assert IsJoined(w, x) && Drained(w, x, name, local);
    UnseenOutputs(v, r.outputs, x == c, IsPeer(h, r.session, x), name, local);
    QuietAgrees(w.hub.directory, r.directory, room, pid, v, RoomOf(w, x), PidOf(w, x));
  }

  // ── A participant leaves ──────────────────────────────────────────────

  /** What is sent when a session departs: its own farewell, and the leaving if there was one. */
  predicate Departure(outs: seq<Output>, pid: string, gone: bool) {
    || outs == [ToSelf(Disconnect(ClientLeft))] + (if gone then [ToPeers(Delta(LeftDelta(pid)))] else []) + [Output.Close]
    || outs == if gone then [ToPeers(Delta(LeftDelta(pid)))] else []
  }

  lemma DepartureNoticed(v: View, outs: seq<Output>, pid: string, gone: bool, peer: bool, name: string, local: seq<Track>)
    requires Departure(outs, pid, gone)
    ensures Noticed(v, outs, false, peer, name, local) == if gone && peer then ApplyDelta(v, LeftDelta(pid)) else v
  {
    var farewell, left := ToSelf(Disconnect(ClientLeft)), ToPeers(Delta(LeftDelta(pid)));
    NoticedFew(v, farewell, left, Output.Close, false, peer, name, local);
    NoticedFew(v, farewell, Output.Close, Output.Close, false, peer, name, local);
    NoticedFew(v, left, Output.Close, Output.Close, false, peer, name, local);
    assert [farewell] + [left] + [Output.Close] == [farewell, left, Output.Close];
    assert [farewell] + [] + [Output.Close] == [farewell, Output.Close];
  }

  lemma DepartAgrees(d: Directory, room: string, pid: string, v: View, r: string, self: string,
                     outs: seq<Output>, peer: bool, name: string, local: seq<Track>)
    requires Departure(outs, pid, Present(d, room, pid))
    requires r in d.rooms && r in Leave(d, room, pid).0.rooms && Agrees(v, d.rooms[r], self)
    requires peer <==> r == room
    ensures Agrees(Noticed(v, outs, false, peer, name, local), Leave(d, room, pid).0.rooms[r], self)
  {
    DepartureNoticed(v, outs, pid, Present(d, room, pid), peer, name, local);
    LeaveRoom(d, room, pid, r);
    if r == room {
      if Present(d, room, pid) {
        LeftAgrees(v, d.rooms[r], self, pid);
      } else {
        DropAbsent(d.rooms[r], pid);
      }
    }
  }

  lemma DepartDrained(w: World, c: Socket, r: Handled, h: HubValue, w': World, room: string, pid: string, x: Socket,
                      name: string, local: seq<Track>)
    requires Moved(w, c, r, h, w', name, local) && Converged(w, name, local)
    requires Fits(w') && r.directory == Leave(w.hub.directory, room, pid).0
    requires Departure(r.outputs, pid, Present(w.hub.directory, room, pid))
    requires IsJoined(w', x) && x != c
    requires IsPeer(h, r.session, x) <==> RoomOf(w', x) == room
    ensures Drained(w', x, name, local)
  {
    assert SeenAfter(w, c, r, h, w', x, name, local);
    assert IsJoined(w, x) && Drained(w, x, name, local);
    JoinedRegistered(w', x);
    DepartAgrees(w.hub.directory, room, pid, Seen(w.hub.queues[x], name, local), RoomOf(w, x), PidOf(w, x),
                 r.outputs, RoomOf(w, x) == room, name, local);
  }

  // ── Local tracks change ───────────────────────────────────────────────

  lemma TracksAgree(d: Directory, room: string, pid: string, publish: seq<Track>, unpublish: seq<string>,
                    v: View, r: string, self: string, outs: seq<Output>, own: bool, peer: bool, name: string, local: seq<Track>)
    requires Present(d, room, pid) && r in d.rooms && Agrees(v, d.rooms[r], self)
    requires peer <==> r == room && pid != self
    requires var delta := ChangeTracks(d.rooms[room][pid].tracks, pid, publish, unpublish).1;
             outs == if delta == NO_CHANGE then [] else [ToPeers(Delta(delta))]
    ensures var m := d.rooms[room][pid];
            var after := ChangeTracks(m.tracks, pid, publish, unpublish).0;
            Agrees(Noticed(v, outs, own, peer, name, local), SetMember(d, room, pid, m.(tracks := after)).rooms[r], self)
  {
    var m := d.rooms[room][pid];
    var (after, delta) := ChangeTracks(m.tracks, pid, publish, unpublish);
    NoticedFew(v, ToPeers(Delta(delta)), Output.Close, Output.Close, own, peer, name, local);
    if r == room {
      if pid == self {
        QuietUpdateAgrees(v, d.rooms[r], self, pid, m.(tracks := after));
      } else if delta == NO_CHANGE {
        SilentChangeAgrees(v, d.rooms[r], self, pid, publish, unpublish);
      } else {
        ChangeAgrees(v, d.rooms[r], self, pid, publish, unpublish);
      }
    }
  }

  lemma TracksDrained(w: World, c: Socket, r: Handled, h: HubValue, w': World, room: string, pid: string,
                      publish: seq<Track>, unpublish: seq<string>, x: Socket, name: string, local: seq<Track>)
    requires Moved(w, c, r, h, w', name, local) && Converged(w, name, local)
    requires Fits(w') && OneRoomEach(w'.hub.directory) && h.outbounds == w'.hub.outbounds
    requires Present(w.hub.directory, room, pid)
    requires var m := w.hub.directory.rooms[room][pid];
             var (after, delta) := ChangeTracks(m.tracks, pid, publish, unpublish);
             && r.directory == SetMember(w.hub.directory, room, pid, m.(tracks := after))
             && r.outputs == if delta == NO_CHANGE then [] else [ToPeers(Delta(delta))]
    requires r.session == w.sessions[c] && r.session.participantId == Some(pid) && r.session.roomId == Some(room)
    requires IsJoined(w', x)
    ensures Drained(w', x, name, local)
  {
    assert SeenAfter(w, c, r, h, w', x, name, local);
    assert IsJoined(w, x) && Drained(w, x, name, local);
    PeersAre(w', h, c, x);
    if x != c { DifferentPids(w', x, c); }
    TracksAgree(w.hub.directory, room, pid, publish, unpublish, Seen(w.hub.queues[x], name, local),
                RoomOf(w, x), PidOf(w, x), r.outputs, x == c, IsPeer(h, r.session, x), name, local);
  }

  // ── Every event keeps every joined client converged ───────────────────

  lemma OpenConverged(w: World, c: Socket, name: string, local: seq<Track>)
    requires Converged(w, name, local) && Enabled(w, Open(c))
    ensures Converged(Step(w, Open(c)), name, local)
  {
    var w' := Step(w, Open(c));
    forall x | IsJoined(w', x) ensures Drained(w', x, name, local) {
      assert IsJoined(w, x) && Drained(w, x, name, local);
    }
  }

  /** After an admission or a message that keeps the session open, the table deliveries used is the world's. */
  lemma OpenTable(w: World, c: Socket, msg: ClientMessage)
    requires Enabled(w, Receive(c, msg))
    requires KindOf(w.sessions[c], w.hub.directory, msg) == Admits || KindOf(w.sessions[c], w.hub.directory, msg) == Stays
    ensures Delivering(w, c, msg).outbounds == Step(w, Receive(c, msg)).hub.outbounds
  {
    NoClose(w.sessions[c], w.hub.directory, msg);
    DispatchKeeps(w.hub, w.sessions[c], c, msg);
  }

  lemma AdmitConverged(w: World, c: Socket, msg: ClientMessage, name: string, local: seq<Track>)
    requires Fits(w) && Sound(w.hub.directory) && Converged(w, name, local) && Enabled(w, Receive(c, msg))
    requires KindOf(w.sessions[c], w.hub.directory, msg) == Admits
    ensures Converged(Step(w, Receive(c, msg)), name, local)
  {
    var w' := Step(w, Receive(c, msg));
    ReceiveMoved(w, c, msg, name, local);
    ReceiveFits(w, c, msg);
    ReceiveSound(w, c, msg);
    OpenTable(w, c, msg);
    AdmitHandled(w.sessions[c], w.hub.directory, msg);
    AdmitOutputs(w.sessions[c], w.hub.directory, msg);
    forall x | IsJoined(w', x) ensures Drained(w', x, name, local) {
      AdmitDrained(w, c, Handle(w.sessions[c], w.hub.directory, msg), Delivering(w, c, msg), w',
                   msg.claims.value.roomId, msg.claims.value.displayName, x, name, local);
    }
  }

  lemma RejectHandled(s: SessionValue, d: Directory, msg: ClientMessage)
    requires WellFormed(s) && KindOf(s, d, msg) == Rejects
    ensures Handle(s, d, msg) == Reject(s, d)
  {
  }

  lemma RejectConverged(w: World, c: Socket, msg: ClientMessage, name: string, local: seq<Track>)
    requires Fits(w) && Converged(w, name, local) && Enabled(w, Receive(c, msg))
    requires KindOf(w.sessions[c], w.hub.directory, msg) == Rejects
    ensures Converged(Step(w, Receive(c, msg)), name, local)
  {
    var w' := Step(w, Receive(c, msg));
    ReceiveMoved(w, c, msg, name, local);
    var r := Handle(w.sessions[c], w.hub.directory, msg);
    RejectHandled(w.sessions[c], w.hub.directory, msg);
    assert forall i :: 0 <= i < |r.outputs| ==> Unseen(r.outputs[i]);
    assert QuietChange(w.hub.directory, r.directory, "", "");
    forall x | IsJoined(w', x) ensures Drained(w', x, name, local) {
      UnseenDrained(w, c, r, Delivering(w, c, msg), w', "", "", x, name, local);
    }
  }

  /** The table deliveries used says the same of every socket but c. */
  ghost predicate SameOthers(w: World, h: HubValue, c: Socket) {
    forall x, p :: x != c ==> (RegisteredTo(h.outbounds, p, x) <==> RegisteredTo(w.hub.outbounds, p, x))
  }

  /** A departing participant's former room mates, and no others, are told. */
  lemma LeavingPeers(w: World, w': World, h: HubValue, c: Socket, s: SessionValue, x: Socket)
    requires Fits(w) && Fits(w') && OneRoomEach(w'.hub.directory)
    requires IsJoined(w, x) && IsJoined(w', x) && w'.sessions[x] == w.sessions[x] && c in w.sessions && x != c
    requires h.directory == w'.hub.directory
    requires SameOthers(w, h, c)
    requires s.participantId == w.sessions[c].participantId && s.roomId == w.sessions[c].roomId
    requires s.participantId.Some? && s.roomId.Some?
    ensures IsPeer(h, s, x) <==> RoomOf(w', x) == s.roomId.value
  {
    JoinedRegistered(w, x);
    JoinedRegistered(w', x);
    DifferentPids(w, x, c);
    PeerIff(h, s, x, RoomOf(w', x), PidOf(w', x));
  }

  lemma DepartHandled(s: SessionValue, d: Directory, msg: ClientMessage)
    requires WellFormed(s) && KindOf(s, d, msg) == Departs
    ensures var r := Handle(s, d, msg);
            && r.session == s.(state := State.Closed)
            && r.directory == Leave(d, s.roomId.value, s.participantId.value).0
            && Departure(r.outputs, s.participantId.value, Present(d, s.roomId.value, s.participantId.value))
  {
    LeavePresence(d, s.roomId.value, s.participantId.value);
  }

  lemma DepartTable(w: World, c: Socket, msg: ClientMessage)
    requires Enabled(w, Receive(c, msg)) && KindOf(w.sessions[c], w.hub.directory, msg) == Departs
    ensures Delivering(w, c, msg).outbounds == w.hub.outbounds
  {
    DepartHandled(w.sessions[c], w.hub.directory, msg);
  }

  lemma DepartConverged(w: World, c: Socket, msg: ClientMessage, name: string, local: seq<Track>)
    requires Fits(w) && Sound(w.hub.directory) && Converged(w, name, local) && Enabled(w, Receive(c, msg))
    requires KindOf(w.sessions[c], w.hub.directory, msg) == Departs
    ensures Converged(Step(w, Receive(c, msg)), name, local)
  {
    ReceiveMoved(w, c, msg, name, local);
    ReceiveFits(w, c, msg);
    ReceiveSound(w, c, msg);
    DepartHandled(w.sessions[c], w.hub.directory, msg);
    DepartTable(w, c, msg);
    DepartingConverged(w, c, Handle(w.sessions[c], w.hub.directory, msg), Delivering(w, c, msg),
                       Step(w, Receive(c, msg)), name, local);
  }

  lemma DepartingConverged(w: World, c: Socket, r: Handled, h: HubValue, w': World, name: string, local: seq<Track>)
    requires Moved(w, c, r, h, w', name, local) && Converged(w, name, local)
    requires Fits(w) && Fits(w') && OneRoomEach(w'.hub.directory) && SameOthers(w, h, c)
    requires r.session == w.sessions[c].(state := State.Closed)
    requires r.session.participantId.Some? && r.session.roomId.Some?
    requires var (room, pid) := (r.session.roomId.value, r.session.participantId.value);
             && r.directory == Leave(w.hub.directory, room, pid).0
             && Departure(r.outputs, pid, Present(w.hub.directory, room, pid))
    ensures Converged(w', name, local)
  {
    forall x | IsJoined(w', x) ensures Drained(w', x, name, local) {
      assert x != c && IsJoined(w, x);
      LeavingPeers(w, w', h, c, r.session, x);
      DepartDrained(w, c, r, h, w', r.session.roomId.value, r.session.participantId.value, x, name, local);
    }
  }

  // ── Messages that keep the session open ───────────────────────────────

  lemma TracksConverged(w: World, c: Socket, msg: ClientMessage, name: string, local: seq<Track>)
    requires Fits(w) && Sound(w.hub.directory) && Converged(w, name, local) && Enabled(w, Receive(c, msg))
    requires w.sessions[c].state == State.Joined && msg.UpdateLocalTracks?
    ensures Converged(Step(w, Receive(c, msg)), name, local)
  {
    var w' := Step(w, Receive(c, msg));
    var s := w.sessions[c];
    var r, h := Handle(s, w.hub.directory, msg), Delivering(w, c, msg);
    assert r == OnLocalTracks(s, w.hub.directory, msg.publish, msg.unpublish);
    ReceiveMoved(w, c, msg, name, local);
    ReceiveFits(w, c, msg);
    ReceiveSound(w, c, msg);
    OpenTable(w, c, msg);
    assert SessionFits(w, c);
    forall x | IsJoined(w', x) ensures Drained(w', x, name, local) {
      TracksDrained(w, c, r, h, w', s.roomId.value, s.participantId.value, msg.publish, msg.unpublish, x, name, local);
    }
  }

  lemma SubscriptionsQuiet(s: SessionValue, d: Directory, msg: ClientMessage)
    requires WellFormed(s) && s.state == State.Joined && msg.UpdateSubscriptions?
    ensures QuietChange(d, Handle(s, d, msg).directory, s.roomId.value, s.participantId.value)
  {
    var room, pid := s.roomId.value, s.participantId.value;
    if Present(d, room, pid) {
      var m := d.rooms[room][pid];
      var m' := UpdateMember(m, CoreSubscriptions(msg.upsert), msg.remove, msg.revision).0;
      assert Handle(s, d, msg).directory == SetMember(d, room, pid, m');
    }
  }

  lemma OtherHandled(s: SessionValue, d: Directory, msg: ClientMessage)
    requires WellFormed(s) && KindOf(s, d, msg) == Stays && !(s.state == State.Joined && msg.UpdateLocalTracks?)
    ensures var r := Handle(s, d, msg);
            && (forall i :: 0 <= i < |r.outputs| ==> Unseen(r.outputs[i]))
            && SameIds(s, r.session)
            && ((s.state == State.Joined && msg.UpdateSubscriptions?) || r.directory == d)
  {
  }

  lemma OtherConverged(w: World, c: Socket, msg: ClientMessage, name: string, local: seq<Track>)
    requires Fits(w) && Converged(w, name, local) && Enabled(w, Receive(c, msg))
    requires KindOf(w.sessions[c], w.hub.directory, msg) == Stays
    requires !(w.sessions[c].state == State.Joined && msg.UpdateLocalTracks?)
    ensures Converged(Step(w, Receive(c, msg)), name, local)
  {
    var w' := Step(w, Receive(c, msg));
    var s := w.sessions[c];
    var r, h := Handle(s, w.hub.directory, msg), Delivering(w, c, msg);
    ReceiveMoved(w, c, msg, name, local);
    OtherHandled(s, w.hub.directory, msg);
    var room, pid := "", "";
    if s.state == State.Joined && msg.UpdateSubscriptions? {
      room, pid := s.roomId.value, s.participantId.value;
      SubscriptionsQuiet(s, w.hub.directory, msg);
    }
    forall x | IsJoined(w', x) ensures Drained(w', x, name, local) {
      UnseenDrained(w, c, r, h, w', room, pid, x, name, local);
    }
  }

  lemma ReceiveConverged(w: World, c: Socket, msg: ClientMessage, name: string, local: seq<Track>)
    requires Fits(w) && Sound(w.hub.directory) && Converged(w, name, local) && Enabled(w, Receive(c, msg))
    ensures Converged(Step(w, Receive(c, msg)), name, local)
  {
    match KindOf(w.sessions[c], w.hub.directory, msg) {
      case Admits => AdmitConverged(w, c, msg, name, local);
      case Rejects => RejectConverged(w, c, msg, name, local);
      case Departs => DepartConverged(w, c, msg, name, local);
      case Stays =>
        if w.sessions[c].state == State.Joined && msg.UpdateLocalTracks? {
          TracksConverged(w, c, msg, name, local);
        } else {
          OtherConverged(w, c, msg, name, local);
        }
    }
  }

  // ── A socket closes ───────────────────────────────────────────────────

  /** The world with the session closed but its socket not yet gone. */
  function Closing(w: World, c: Socket): World
    requires c in w.sessions
  {
    w.(hub := TransportClosed(w.hub, w.sessions[c]).0, sessions := w.sessions[c := w.sessions[c].(state := State.Closed)])
  }

  function ClosingHub(w: World, c: Socket): HubValue
    requires c in w.sessions
  {
    Deregister(w.hub.(directory := RemoveFromRoom(w.sessions[c], w.hub.directory).directory), w.sessions[c])
  }

  lemma ClosingMoved(w: World, c: Socket, name: string, local: seq<Track>)
    requires Fits(w) && c in w.sessions
    ensures Moved(w, c, RemoveFromRoom(w.sessions[c], w.hub.directory), ClosingHub(w, c), Closing(w, c), name, local)
  {
    var r, h := RemoveFromRoom(w.sessions[c], w.hub.directory), ClosingHub(w, c);
    ShutKeeps(w.hub, w.sessions[c]);
    forall x | x in w.sessions ensures SeenAfter(w, c, r, h, Closing(w, c), x, name, local) {
      SeenDelivered(h, r.session, None, r.outputs, x, name, local);
      NoOwnReply(Seen(w.hub.queues[x], name, local), r.outputs, x == c, IsPeer(h, r.session, x), name, local);
    }
  }

  /** A closing session replies to nobody, so it does not matter whose replies count as one's own. */
  lemma {:induction false} NoOwnReply(v: View, outs: seq<Output>, own: bool, peer: bool, name: string, local: seq<Track>)
    requires forall i :: 0 <= i < |outs| ==> !outs[i].ToSelf?
    ensures Noticed(v, outs, own, peer, name, local) == Noticed(v, outs, false, peer, name, local)
  {
    if outs != [] {
      NoOwnReply(v, outs[..|outs| - 1], own, peer, name, local);
    }
  }

  lemma ClosingFits(w: World, c: Socket)
    requires Fits(w) && c in w.sessions
    ensures Fits(Closing(w, c))
    ensures SameOthers(w, ClosingHub(w, c), c)
  {
    var s, d := w.sessions[c], w.hub.directory;
    var d' := RemoveFromRoom(s, d).directory;
    assert SessionFits(w, c);
    ShutKeeps(w.hub, s);
    if s.participantId.Some? {
      LeavePresence(d, s.roomId.value, s.participantId.value);
      if s.participantId.value in w.hub.outbounds { RegisteredIsOwned(w, s.participantId.value); }
    }
    ClosedFits(w, c, d');
    QueuesDoNotMatter(After(w, c, s.(state := State.Closed), d', Deregister(w.hub, s).outbounds, w.owner), Closing(w, c));
  }

  lemma ClosingSound(w: World, c: Socket)
    requires Fits(w) && Sound(w.hub.directory) && c in w.sessions
    ensures Sound(Closing(w, c).hub.directory)
  {
    ShutKeeps(w.hub, w.sessions[c]);
    var s := w.sessions[c];
    if s.participantId.Some? && s.roomId.Some? { LeaveKeepsSound(w.hub.directory, s.roomId.value, s.participantId.value); }
  }

  lemma ClosingConverged(w: World, c: Socket, name: string, local: seq<Track>)
    requires Fits(w) && Sound(w.hub.directory) && Converged(w, name, local) && c in w.sessions
    ensures Converged(Closing(w, c), name, local)
  {
    var s, w' := w.sessions[c], Closing(w, c);
    var r := RemoveFromRoom(s, w.hub.directory);
    assert SessionFits(w, c);
    ClosingMoved(w, c, name, local);
    ClosingFits(w, c);
    ClosingSound(w, c);
    if s.participantId.Some? {
      LeavePresence(w.hub.directory, s.roomId.value, s.participantId.value);
      DepartingConverged(w, c, r, ClosingHub(w, c), w', name, local);
    } else {
      forall x | IsJoined(w', x) ensures Drained(w', x, name, local) {
        UnseenDrained(w, c, r, ClosingHub(w, c), w', "", "", x, name, local);
      }
    }
  }

  lemma ShutConverged(w: World, c: Socket, name: string, local: seq<Track>)
    requires Fits(w) && Sound(w.hub.directory) && Converged(w, name, local) && c in w.sessions
    ensures Converged(Step(w, Shut(c)), name, local)
  {
    var w' := Step(w, Shut(c));
    ClosingConverged(w, c, name, local);
    forall x | IsJoined(w', x) ensures Drained(w', x, name, local) {
      assert IsJoined(Closing(w, c), x) && Drained(Closing(w, c), x, name, local);
    }
  }

  // ── Whole runs ────────────────────────────────────────────────────────

  ghost predicate Invariant(w: World, name: string, local: seq<Track>) {
    Fits(w) && Sound(w.hub.directory) && LeftOnce(w) && Converged(w, name, local)
  }

  lemma StepKeeps(w: World, e: Event, name: string, local: seq<Track>)
    requires Invariant(w, name, local) && Enabled(w, e)
    ensures Invariant(Step(w, e), name, local)
  {
    match e {
      case Open(c) =>
        OpenFits(w, c);
        OpenConverged(w, c, name, local);
        OpenLeftOnce(w, c);
      case Receive(c, msg) =>
        ReceiveFits(w, c, msg);
        ReceiveSound(w, c, msg);
        ReceiveLeftOnce(w, c, msg);
        ReceiveConverged(w, c, msg, name, local);
      case Shut(c) =>
        ShutFits(w, c);
        ShutSound(w, c);
        ShutLeftOnce(w, c);
        ShutConverged(w, c, name, local);
    }
  }

  lemma OpenLeftOnce(w: World, c: Socket)
    requires LeftOnce(w) && Enabled(w, Open(c))
    ensures LeftOnce(Step(w, Open(c)))
  {
    var w' := Step(w, Open(c));
    forall p ensures multiset(w'.left)[p] == Due(w'.hub.directory, p) {
      assert multiset(w.left)[p] == Due(w.hub.directory, p);
    }
  }

  lemma ShutSound(w: World, c: Socket)
    requires Fits(w) && Sound(w.hub.directory) && c in w.sessions
    ensures Sound(Step(w, Shut(c)).hub.directory)
  {
    ClosingSound(w, c);
    assert Step(w, Shut(c)).hub.directory == Closing(w, c).hub.directory;
  }

  lemma {:induction false} RunKeeps(events: seq<Event>, name: string, local: seq<Track>)
    ensures Invariant(Run(events), name, local)
  {
    if events == [] {
      assert Run(events) == START;
    } else {
      var w, e := Run(events[..|events| - 1]), events[|events| - 1];
      RunKeeps(events[..|events| - 1], name, local);
      if Enabled(w, e) { StepKeeps(w, e, name, local); }
    }
  }
}
