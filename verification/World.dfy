/**
 * Whole runs of the hub: any number of sockets opening, sending any messages
 * and closing, in any interleaving. What every reachable state keeps.
 */
module Worlds {
  import opened Hubs
  import opened Maps
  import opened Messages
  import opened Rooms
  import opened RoomViews
  import opened Sessions
  import opened TrackLists
  import opened Wrappers

  /**
   * The hub with the session of each open socket. A queue is everything ever
   * sent to its socket. `owner` says which socket each id was given to, and
   * `left` lists the participants whose leaving was announced.
   */
  datatype World = World(
    hub: HubValue,
    sessions: map<Socket, SessionValue>,
    owner: map<string, Socket>,
    left: seq<string>)

  const START := World(HubValue(NOBODY, map[], map[]), map[], map[], [])

  datatype Event = Open(c: Socket) | Receive(c: Socket, msg: ClientMessage) | Shut(c: Socket)

  predicate Enabled(w: World, e: Event) {
    match e
    case Open(c) => c !in w.sessions
    case Receive(c, _) => c in w.sessions && WellFormed(w.sessions[c])
    case Shut(c) => c in w.sessions
  }

  /** The participants whose leaving these outputs announce. */
  function Announced(outs: seq<Output>): seq<string> {
    if outs == [] then []
    else
      var front, last := Announced(outs[..|outs| - 1]), outs[|outs| - 1];
      if last.ToPeers? && last.message.Delta? then front + last.message.delta.left else front
  }

  function Owners(owner: map<string, Socket>, s: SessionValue, c: Socket): map<string, Socket> {
    if s.participantId.Some? then owner[s.participantId.value := c] else owner
  }

  function Step(w: World, e: Event): World
    requires Enabled(w, e)
  {
    match e
    case Open(c) =>
      w.(hub := w.hub.(queues := w.hub.queues[c := []]), sessions := w.sessions[c := FRESH])
    case Receive(c, msg) =>
      var s := w.sessions[c];
      var (hub, s', _) := Dispatch(w.hub, s, c, msg);
      World(hub, w.sessions[c := s'], Owners(w.owner, s', c),
            w.left + Announced(Handle(s, w.hub.directory, msg).outputs))
    case Shut(c) =>
      var s := w.sessions[c];
      var hub := TransportClosed(w.hub, s).0;
      World(hub.(queues := hub.queues - {c}), w.sessions - {c}, w.owner,
            w.left + Announced(RemoveFromRoom(s, w.hub.directory).outputs))
  }

  /** The world after these events, those that cannot happen being skipped. */
  function Run(events: seq<Event>): World {
    if events == [] then START
    else
      var w, e := Run(events[..|events| - 1]), events[|events| - 1];
      if Enabled(w, e) then Step(w, e) else w
  }

  // ── The registry side of the invariant ────────────────────────────────

  predicate IsJoined(w: World, c: Socket) {
    c in w.sessions && w.sessions[c].state == State.Joined && WellFormed(w.sessions[c])
  }

  function PidOf(w: World, c: Socket): string
    requires c in w.sessions && w.sessions[c].participantId.Some?
  {
    w.sessions[c].participantId.value
  }

  function RoomOf(w: World, c: Socket): string
    requires c in w.sessions && w.sessions[c].roomId.Some?
  {
    w.sessions[c].roomId.value
  }

  /** What a session claims: well-formed, its id given to it, and while joined a member and registered. */
  ghost predicate SessionFits(w: World, c: Socket)
    requires c in w.sessions
  {
    var s := w.sessions[c];
    && WellFormed(s)
    && (s.participantId.Some? ==> s.participantId.value in w.owner && w.owner[s.participantId.value] == c)
    && (s.state == State.Joined ==>
          && Present(w.hub.directory, s.roomId.value, s.participantId.value)
          && s.participantId.value in w.hub.outbounds && w.hub.outbounds[s.participantId.value] == c)
  }

  /** A member of a room is the participant of an open socket. */
  ghost predicate MemberFits(w: World, r: string, p: string) {
    && p in w.owner && w.owner[p] in w.sessions
    && w.sessions[w.owner[p]].participantId == Some(p) && w.sessions[w.owner[p]].roomId == Some(r)
  }

  ghost predicate OutboundFits(w: World, p: string)
    requires p in w.hub.outbounds
  {
    var c := w.hub.outbounds[p];
    IsJoined(w, c) && w.sessions[c].participantId == Some(p)
  }

  ghost predicate OwnerIssued(w: World, p: string) {
    Issued(p, w.hub.directory.nextSeq)
  }

  ghost predicate Fits(w: World) {
    && w.hub.queues.Keys == w.sessions.Keys
    && (forall c :: c in w.sessions ==> SessionFits(w, c))
    && (forall r, p :: Present(w.hub.directory, r, p) ==> MemberFits(w, r, p))
    && (forall p :: p in w.hub.outbounds ==> OutboundFits(w, p))
    && (forall p :: p in w.owner ==> OwnerIssued(w, p))
  }

  lemma OpenFits(w: World, c: Socket)
    requires Fits(w) && Enabled(w, Open(c))
    ensures Fits(Step(w, Open(c)))
  {
    var w' := Step(w, Open(c));
    forall x | x in w'.sessions ensures SessionFits(w', x) {
      if x != c { assert SessionFits(w, x); }
    }
    forall r, p | Present(w'.hub.directory, r, p) ensures MemberFits(w', r, p) {
      assert MemberFits(w, r, p);
    }
    forall p | p in w'.hub.outbounds ensures OutboundFits(w', p) {
      assert OutboundFits(w, p);
    }
    forall p | p in w'.owner ensures OwnerIssued(w', p) {
      assert OwnerIssued(w, p);
    }
  }

  /** A world like `w` but for socket c's session and what that made of the registry, table and owners. */
  function After(w: World, c: Socket, s: SessionValue, d: Directory, outbounds: Outbounds, owner: map<string, Socket>): World
    requires c in w.sessions
  {
    w.(hub := w.hub.(directory := d, outbounds := outbounds), sessions := w.sessions[c := s], owner := owner)
  }

  /** The session and registry change, with nobody entering or leaving. */
  lemma SamePresenceFits(w: World, c: Socket, s: SessionValue, d: Directory)
    requires Fits(w) && c in w.sessions
    requires forall r, p :: Present(d, r, p) <==> Present(w.hub.directory, r, p)
    requires d.nextSeq == w.hub.directory.nextSeq
    requires s.state == w.sessions[c].state && s.participantId == w.sessions[c].participantId
             && s.roomId == w.sessions[c].roomId
    ensures Fits(After(w, c, s, d, w.hub.outbounds, w.owner))
  {
    var w' := After(w, c, s, d, w.hub.outbounds, w.owner);
    forall x | x in w'.sessions ensures SessionFits(w', x) {
      assert SessionFits(w, x);
    }
    forall r, p | Present(d, r, p) ensures MemberFits(w', r, p) {
      assert MemberFits(w, r, p);
    }
    forall p | p in w'.hub.outbounds ensures OutboundFits(w', p) {
      assert OutboundFits(w, p);
    }
    forall p | p in w'.owner ensures OwnerIssued(w', p) {
      assert OwnerIssued(w, p);
    }
  }

  lemma ClosedSessionFits(w: World, w': World, c: Socket, x: Socket)
    requires c in w.sessions && x in w.sessions && SessionFits(w, c) && SessionFits(w, x)
    requires w'.sessions == w.sessions[c := w.sessions[c].(state := State.Closed)] && w'.owner == w.owner
    requires w'.hub.outbounds == Deregister(w.hub, w.sessions[c]).outbounds
    requires forall r, p :: Present(w.hub.directory, r, p) && w.sessions[c].participantId != Some(p) ==>
               Present(w'.hub.directory, r, p)
    ensures SessionFits(w', x)
  {
  }

  /** A session closes: it is deregistered, and its participant may have left the registry. */
  lemma ClosedFits(w: World, c: Socket, d: Directory)
    requires Fits(w) && c in w.sessions
    requires forall r, p :: Present(d, r, p) ==> Present(w.hub.directory, r, p)
    requires forall r, p :: Present(w.hub.directory, r, p) && w.sessions[c].participantId != Some(p) ==> Present(d, r, p)
    requires d.nextSeq == w.hub.directory.nextSeq
    ensures Fits(After(w, c, w.sessions[c].(state := State.Closed), d,
                       Deregister(w.hub, w.sessions[c]).outbounds, w.owner))
  {
    var s := w.sessions[c];
    var w' := After(w, c, s.(state := State.Closed), d, Deregister(w.hub, s).outbounds, w.owner);
    assert SessionFits(w, c);
    forall x | x in w'.sessions ensures SessionFits(w', x) {
      ClosedSessionFits(w, w', c, x);
    }
    forall r, p | Present(d, r, p) ensures MemberFits(w', r, p) {
      assert MemberFits(w, r, p);
    }
    forall p | p in w'.hub.outbounds ensures OutboundFits(w', p) {
      assert OutboundFits(w, p);
    }
    forall p | p in w'.owner ensures OwnerIssued(w', p) {
      assert OwnerIssued(w, p);
    }
  }

  lemma RegisteredIsOwned(w: World, p: string)
    requires Fits(w) && p in w.hub.outbounds
    ensures p in w.owner && w.owner[p] == w.hub.outbounds[p]
  {
    assert OutboundFits(w, p);
    assert SessionFits(w, w.hub.outbounds[p]);
  }

  /** The next id has no owner yet and is not registered. */
  lemma NextIdUnowned(w: World)
    requires Fits(w)
    ensures ParticipantId(w.hub.directory.nextSeq) !in w.owner
    ensures ParticipantId(w.hub.directory.nextSeq) !in w.hub.outbounds
  {
    var n := w.hub.directory.nextSeq;
    NotYetIssued(n, n);
    assert ParticipantId(n) in w.owner ==> OwnerIssued(w, ParticipantId(n));
    if ParticipantId(n) in w.hub.outbounds { RegisteredIsOwned(w, ParticipantId(n)); }
  }

  /** Socket c's session has become `s`, registered and a member of its room under an id nobody had. */
  ghost predicate Enters(w: World, w': World, c: Socket, s: SessionValue, pid: string) {
    && c in w.sessions && w.sessions[c].state == State.AwaitingJoin && WellFormed(w.sessions[c])
    && s.state == State.Joined && s.participantId == Some(pid) && s.roomId.Some?
    && w'.sessions == w.sessions[c := s]
    && w'.hub.outbounds == w.hub.outbounds[pid := c] && w'.owner == w.owner[pid := c]
    && pid !in w.owner && pid !in w.hub.outbounds
    && (forall r, p :: Present(w'.hub.directory, r, p) <==>
          Present(w.hub.directory, r, p) || (r == s.roomId.value && p == pid))
  }

  lemma EntrySession(w: World, w': World, c: Socket, s: SessionValue, pid: string, x: Socket)
    requires Enters(w, w', c, s, pid) && x in w'.sessions && (x != c ==> SessionFits(w, x))
    ensures SessionFits(w', x)
  {
  }

  lemma EntryMember(w: World, w': World, c: Socket, s: SessionValue, pid: string, r: string, p: string)
    requires Enters(w, w', c, s, pid) && Present(w'.hub.directory, r, p)
    requires Present(w.hub.directory, r, p) ==> MemberFits(w, r, p)
    ensures MemberFits(w', r, p)
  {
  }

  lemma EntryOutbound(w: World, w': World, c: Socket, s: SessionValue, pid: string, p: string)
    requires Enters(w, w', c, s, pid) && p in w'.hub.outbounds && (p != pid ==> OutboundFits(w, p))
    ensures OutboundFits(w', p)
  {
  }

  /** A participant enters: its session, registered, owns a new id. */
  lemma AdmittedFits(w: World, c: Socket, s: SessionValue, d: Directory)
    requires Fits(w) && c in w.sessions && w.sessions[c].state == State.AwaitingJoin
    requires s.state == State.Joined && s.participantId == Some(ParticipantId(w.hub.directory.nextSeq)) && s.roomId.Some?
    requires d.nextSeq == w.hub.directory.nextSeq + 1
    requires forall r, p :: Present(d, r, p) <==>
               Present(w.hub.directory, r, p) || (r == s.roomId.value && p == s.participantId.value)
    ensures Fits(After(w, c, s, d, w.hub.outbounds[s.participantId.value := c], w.owner[s.participantId.value := c]))
  {
    var pid := s.participantId.value;
    var w' := After(w, c, s, d, w.hub.outbounds[pid := c], w.owner[pid := c]);
    NextIdUnowned(w);
    assert SessionFits(w, c);
    assert Enters(w, w', c, s, pid);
    forall x | x in w'.sessions ensures SessionFits(w', x) {
      EntrySession(w, w', c, s, pid, x);
    }
    forall r, p | Present(d, r, p) ensures MemberFits(w', r, p) {
      EntryMember(w, w', c, s, pid, r, p);
    }
    forall p | p in w'.hub.outbounds ensures OutboundFits(w', p) {
      EntryOutbound(w, w', c, s, pid, p);
    }
    forall p | p in w'.owner ensures OwnerIssued(w', p) {
      if p != pid { assert OwnerIssued(w, p); }
    }
  }

  // ── What one message does to the registry side ────────────────────────

  /** The hub after one message, queues aside. */
  lemma DispatchKeeps(h: HubValue, s: SessionValue, c: Socket, msg: ClientMessage)
    requires WellFormed(s)
    ensures var r := Handle(s, h.directory, msg);
            var (h', s', _) := Dispatch(h, s, c, msg);
            var h1 := Register(h.(directory := r.directory), r.session, c);
            && s' == r.session && h'.directory == r.directory && h'.queues.Keys == h.queues.Keys
            && h'.outbounds == if Output.Close in r.outputs then Deregister(h1, r.session).outbounds else h1.outbounds
  {
    var r := Handle(s, h.directory, msg);
    DeliverAllKeeps(Register(h.(directory := r.directory), r.session, c), r.session, Some(c), r.outputs);
  }

  lemma ShutKeeps(h: HubValue, s: SessionValue)
    ensures var r := RemoveFromRoom(s, h.directory);
            var h' := TransportClosed(h, s).0;
            && h'.directory == r.directory && h'.queues.Keys == h.queues.Keys
            && h'.outbounds == Deregister(h, s).outbounds
  {
    var r := RemoveFromRoom(s, h.directory);
    DeliverAllKeeps(Deregister(h.(directory := r.directory), r.session), r.session, None, r.outputs);
  }

  /** The ways a message can change a session, its registry entry and its registration. */
  datatype Kind = Admits | Rejects | Departs | Stays

  function KindOf(s: SessionValue, d: Directory, msg: ClientMessage): Kind {
    match s.state
    case Closed => Stays
    case AwaitingJoin =>
      if msg.JoinRequest? && msg.claims.Some? && Join(d, msg.claims.value.roomId, msg.claims.value.displayName).1.Ok?
      then Admits else Rejects
    case Joined => if msg.JoinRequest? then Rejects else if msg.LeaveRequest? then Departs else Stays
  }

  /** Queues are no part of what fits. */
  lemma QueuesDoNotMatter(w: World, w': World)
    requires Fits(w)
    requires w' == w.(hub := w.hub.(queues := w'.hub.queues), left := w'.left)
    requires w'.hub.queues.Keys == w.hub.queues.Keys
    ensures Fits(w')
  {
    forall x | x in w'.sessions ensures SessionFits(w', x) {
      assert SessionFits(w, x);
    }
    forall r, p | Present(w'.hub.directory, r, p) ensures MemberFits(w', r, p) {
      assert MemberFits(w, r, p);
    }
    forall p | p in w'.hub.outbounds ensures OutboundFits(w', p) {
      assert OutboundFits(w, p);
    }
    forall p | p in w'.owner ensures OwnerIssued(w', p) {
      assert OwnerIssued(w, p);
    }
  }

  /** After a message, all but the queues and the log. */
  function Settled(w: World, c: Socket, msg: ClientMessage): World
    requires c in w.sessions && WellFormed(w.sessions[c])
  {
    var (h', s', _) := Dispatch(w.hub, w.sessions[c], c, msg);
    After(w, c, s', h'.directory, h'.outbounds, Owners(w.owner, s', c))
  }

  lemma OwnersSame(w: World, c: Socket, s: SessionValue)
    requires Fits(w) && c in w.sessions && s.participantId == w.sessions[c].participantId
    ensures Owners(w.owner, s, c) == w.owner
  {
    assert SessionFits(w, c);
    if s.participantId.Some? { PutBack(w.owner, s.participantId.value); }
  }

  lemma AdmitHandled(s: SessionValue, d: Directory, msg: ClientMessage)
    requires WellFormed(s) && KindOf(s, d, msg) == Admits
    ensures var r := Handle(s, d, msg);
            var room, name := msg.claims.value.roomId, msg.claims.value.displayName;
            && r.session == SessionValue(Joined, Some(ParticipantId(d.nextSeq)), Some(room), Some(name), s.chatSeq)
            && r.directory == Join(d, room, name).0
            && r.directory.nextSeq == d.nextSeq + 1
            && Output.Close !in r.outputs
  {
  }

  lemma AdmitFits(w: World, c: Socket, msg: ClientMessage)
    requires Fits(w) && c in w.sessions && WellFormed(w.sessions[c])
    requires KindOf(w.sessions[c], w.hub.directory, msg) == Admits
    ensures Fits(Settled(w, c, msg))
  {
    var s, d := w.sessions[c], w.hub.directory;
    var r := Handle(s, d, msg);
    DispatchKeeps(w.hub, s, c, msg);
    AdmitHandled(s, d, msg);
    JoinPresence(d, msg.claims.value.roomId, msg.claims.value.displayName);
    NextIdUnowned(w);
    AdmittedFits(w, c, r.session, r.directory);
  }

  lemma RejectFits(w: World, c: Socket, msg: ClientMessage)
    requires Fits(w) && c in w.sessions && WellFormed(w.sessions[c])
    requires KindOf(w.sessions[c], w.hub.directory, msg) == Rejects
    ensures Fits(Settled(w, c, msg))
  {
    var s, d := w.sessions[c], w.hub.directory;
    DispatchKeeps(w.hub, s, c, msg);
    OwnersSame(w, c, s.(state := State.Closed));
    assert Settled(w, c, msg) == After(w, c, s.(state := State.Closed), d, Deregister(w.hub, s).outbounds, w.owner);
    ClosedFits(w, c, d);
  }

  lemma DepartFits(w: World, c: Socket, msg: ClientMessage)
    requires Fits(w) && c in w.sessions && WellFormed(w.sessions[c])
    requires KindOf(w.sessions[c], w.hub.directory, msg) == Departs
    ensures Fits(Settled(w, c, msg))
  {
    var s, d := w.sessions[c], w.hub.directory;
    DispatchKeeps(w.hub, s, c, msg);
    OwnersSame(w, c, s.(state := State.Closed));
    var d' := Leave(d, s.roomId.value, s.participantId.value).0;
    LeavePresence(d, s.roomId.value, s.participantId.value);
    assert Settled(w, c, msg) == After(w, c, s.(state := State.Closed), d', Deregister(w.hub, s).outbounds, w.owner);
    ClosedFits(w, c, d');
  }

  predicate SameIds(s: SessionValue, s': SessionValue) {
    s'.state == s.state && s'.participantId == s.participantId && s'.roomId == s.roomId
  }

  lemma StayHandled(s: SessionValue, d: Directory, msg: ClientMessage)
    requires WellFormed(s) && KindOf(s, d, msg) == Stays
    ensures var r := Handle(s, d, msg);
            && SameIds(s, r.session) && Output.Close !in r.outputs
            && r.directory.nextSeq == d.nextSeq
            && (forall room, p :: Present(r.directory, room, p) <==> Present(d, room, p))
  {
  }

  lemma StayFits(w: World, c: Socket, msg: ClientMessage)
    requires Fits(w) && c in w.sessions && WellFormed(w.sessions[c])
    requires KindOf(w.sessions[c], w.hub.directory, msg) == Stays
    ensures Fits(Settled(w, c, msg))
  {
    var s, d := w.sessions[c], w.hub.directory;
    var r := Handle(s, d, msg);
    DispatchKeeps(w.hub, s, c, msg);
    StayHandled(s, d, msg);
    assert SessionFits(w, c);
    OwnersSame(w, c, r.session);
    SamePresenceFits(w, c, r.session, r.directory);
  }

  /** The registry side of the invariant survives any message. */
  lemma ReceiveFits(w: World, c: Socket, msg: ClientMessage)
    requires Fits(w) && Enabled(w, Receive(c, msg))
    ensures Fits(Step(w, Receive(c, msg)))
  {
    match KindOf(w.sessions[c], w.hub.directory, msg) {
      case Admits => AdmitFits(w, c, msg);
      case Rejects => RejectFits(w, c, msg);
      case Departs => DepartFits(w, c, msg);
      case Stays => StayFits(w, c, msg);
    }
    DispatchKeeps(w.hub, w.sessions[c], c, msg);
    QueuesDoNotMatter(Settled(w, c, msg), Step(w, Receive(c, msg)));
  }

  /** The socket's own session goes with it: its participant, if any, has left the registry. */
  lemma ShutFits(w: World, c: Socket)
    requires Fits(w) && c in w.sessions
    ensures Fits(Step(w, Shut(c)))
  {
    var s, d := w.sessions[c], w.hub.directory;
    var w' := Step(w, Shut(c));
    assert SessionFits(w, c);
    ShutKeeps(w.hub, s);
    if s.participantId.Some? { LeavePresence(d, s.roomId.value, s.participantId.value); }
    var d' := w'.hub.directory;
    forall x | x in w'.sessions ensures SessionFits(w', x) {
      assert SessionFits(w, x);
    }
    forall r, p | Present(d', r, p) ensures MemberFits(w', r, p) {
      assert MemberFits(w, r, p);
    }
    forall p | p in w'.hub.outbounds ensures OutboundFits(w', p) {
      assert OutboundFits(w, p);
    }
    forall p | p in w'.owner ensures OwnerIssued(w', p) {
      assert OwnerIssued(w, p);
    }
  }

  // ── Leaving is announced once ─────────────────────────────────────────

  ghost predicate InSomeRoom(d: Directory, p: string) {
    exists r :: Present(d, r, p)
  }

  /** How often the leaving of p should have been announced by now. */
  ghost function Due(d: Directory, p: string): nat {
    if Issued(p, d.nextSeq) && !InSomeRoom(d, p) then 1 else 0
  }

  ghost predicate LeftOnce(w: World) {
    forall p :: multiset(w.left)[p] == Due(w.hub.directory, p)
  }

  /** Who a closing session says has left. */
  function Leaver(s: SessionValue, d: Directory): seq<string> {
    if s.participantId.Some? && s.roomId.Some? && Present(d, s.roomId.value, s.participantId.value)
    then [s.participantId.value] else []
  }

  function LeftIn(out: Output): seq<string> {
    if out.ToPeers? && out.message.Delta? then out.message.delta.left else []
  }

  lemma AnnouncedFew(a: Output, b: Output, c: Output)
    ensures Announced([a]) == LeftIn(a)
    ensures Announced([a, b]) == LeftIn(a) + LeftIn(b)
    ensures Announced([a, b, c]) == LeftIn(a) + LeftIn(b) + LeftIn(c)
  {
    assert [a][..0] == [] && [a, b][..1] == [a] && [a, b, c][..2] == [a, b];
  }

  lemma QuietRepliesAnnounceNobody(s: SessionValue, d: Directory, msg: ClientMessage)
    requires WellFormed(s) && KindOf(s, d, msg) == Stays
    requires s.state == State.Joined ==> !msg.UpdateLocalTracks?
    ensures Announced(Handle(s, d, msg).outputs) == []
  {
    var outs := Handle(s, d, msg).outputs;
    if outs != [] { AnnouncedFew(outs[0], outs[|outs| - 1], Output.Close); }
  }

  lemma EntryAnnouncesNobody(s: SessionValue, d: Directory, msg: ClientMessage)
    requires WellFormed(s) && (KindOf(s, d, msg) == Admits || KindOf(s, d, msg) == Rejects)
    ensures Announced(Handle(s, d, msg).outputs) == []
  {
    var outs := Handle(s, d, msg).outputs;
    AnnouncedFew(outs[0], outs[1], Output.Close);
  }

  /** Only a departing session announces that anyone left, and it names its own participant. */
  lemma AnnouncedBy(s: SessionValue, d: Directory, msg: ClientMessage)
    requires WellFormed(s)
    ensures Announced(Handle(s, d, msg).outputs) ==
            if KindOf(s, d, msg) == Departs then Leaver(s, d) else []
  {
    var kind := KindOf(s, d, msg);
    if kind == Departs {
      var outs := OnLeave(s, d).outputs;
      AnnouncedFew(outs[0], outs[1], outs[|outs| - 1]);
    } else if kind != Stays {
      EntryAnnouncesNobody(s, d, msg);
    } else if s.state == State.Joined && msg.UpdateLocalTracks? {
      TracksAnnounceNobody(s, d, msg.publish, msg.unpublish);
    } else {
      QuietRepliesAnnounceNobody(s, d, msg);
    }
  }

  lemma TracksAnnounceNobody(s: SessionValue, d: Directory, publish: seq<Track>, unpublish: seq<string>)
    requires WellFormed(s) && s.state == State.Joined
    ensures Announced(OnLocalTracks(s, d, publish, unpublish).outputs) == []
  {
    if Present(d, s.roomId.value, s.participantId.value) {
      PublishTellsOf(d.rooms[s.roomId.value][s.participantId.value].tracks, s.participantId.value, publish);
    }
  }

  lemma AnnouncedByRemoval(s: SessionValue, d: Directory)
    requires WellFormed(s)
    ensures Announced(RemoveFromRoom(s, d).outputs) == Leaver(s, d)
  {
  }

  lemma SameRooms(d: Directory, d': Directory, p: string)
    requires forall r :: Present(d', r, p) <==> Present(d, r, p)
    ensures InSomeRoom(d', p) <==> InSomeRoom(d, p)
  {
    if InSomeRoom(d, p) {
      var r :| Present(d, r, p);
      assert Present(d', r, p);
    }
    if InSomeRoom(d', p) {
      var r :| Present(d', r, p);
      assert Present(d, r, p);
    }
  }

  /** Who leaves becomes due for announcing, and nobody else. */
  lemma LeaverDue(s: SessionValue, d: Directory, p: string)
    requires WellFormed(s) && OneRoomEach(d) && s.participantId.Some? && Issued(s.participantId.value, d.nextSeq)
    ensures Due(Leave(d, s.roomId.value, s.participantId.value).0, p) ==
            Due(d, p) + multiset(Leaver(s, d))[p]
  {
    var room, pid := s.roomId.value, s.participantId.value;
    var d' := Leave(d, room, pid).0;
    LeavePresence(d, room, pid);
    if p != pid || !Present(d, room, pid) {
      SameRooms(d, d', p);
    } else {
      assert Present(d, room, p);
      assert !InSomeRoom(d', p);
    }
  }

  /** Entering a room makes nobody due. */
  lemma EntryDue(d: Directory, room: string, name: string, p: string)
    requires Sound(d) && Join(d, room, name).1.Ok?
    ensures Due(Join(d, room, name).0, p) == Due(d, p)
  {
    var d' := Join(d, room, name).0;
    JoinPresence(d, room, name);
    if p == ParticipantId(d.nextSeq) {
      NotYetIssued(d.nextSeq, d.nextSeq);
      assert Present(d', room, p);
    } else {
      SameRooms(d, d', p);
    }
  }

  lemma StayDue(s: SessionValue, d: Directory, msg: ClientMessage, p: string)
    requires WellFormed(s) && KindOf(s, d, msg) == Stays
    ensures Due(DirectoryAfter(s, d, msg), p) == Due(d, p)
  {
    StayHandled(s, d, msg);
    HandleDirectory(s, d, msg);
    SameRooms(d, DirectoryAfter(s, d, msg), p);
  }

  lemma RejectKeeps(s: SessionValue, d: Directory, msg: ClientMessage)
    requires WellFormed(s) && KindOf(s, d, msg) == Rejects
    ensures DirectoryAfter(s, d, msg) == d
  {
    if s.state == State.AwaitingJoin && msg.JoinRequest? && msg.claims.Some? {
      JoinErrKeeps(d, msg.claims.value.roomId, msg.claims.value.displayName);
    }
  }

  lemma AdmitDue(s: SessionValue, d: Directory, msg: ClientMessage, p: string)
    requires WellFormed(s) && Sound(d) && KindOf(s, d, msg) == Admits
    ensures Due(DirectoryAfter(s, d, msg), p) == Due(d, p)
  {
    EntryDue(d, msg.claims.value.roomId, msg.claims.value.displayName, p);
  }

  lemma DepartDue(s: SessionValue, d: Directory, msg: ClientMessage, p: string)
    requires WellFormed(s) && Sound(d) && KindOf(s, d, msg) == Departs
    requires Issued(s.participantId.value, d.nextSeq)
    ensures Due(DirectoryAfter(s, d, msg), p) == Due(d, p) + multiset(Leaver(s, d))[p]
  {
    LeaverDue(s, d, p);
  }

  lemma KindDue(s: SessionValue, d: Directory, msg: ClientMessage, p: string)
    requires WellFormed(s) && Sound(d)
    requires s.participantId.Some? ==> Issued(s.participantId.value, d.nextSeq)
    ensures Due(DirectoryAfter(s, d, msg), p) ==
            Due(d, p) + (if KindOf(s, d, msg) == Departs then multiset(Leaver(s, d))[p] else 0)
  {
    match KindOf(s, d, msg) {
      case Admits => AdmitDue(s, d, msg, p);
      case Rejects => RejectKeeps(s, d, msg);
      case Departs => DepartDue(s, d, msg, p);
      case Stays => StayDue(s, d, msg, p);
    }
  }

  lemma ReceiveLogs(w: World, c: Socket, msg: ClientMessage)
    requires Enabled(w, Receive(c, msg))
    ensures var s, d := w.sessions[c], w.hub.directory;
            var w' := Step(w, Receive(c, msg));
            && w'.hub.directory == DirectoryAfter(s, d, msg)
            && w'.left == w.left + (if KindOf(s, d, msg) == Departs then Leaver(s, d) else [])
  {
    DispatchKeeps(w.hub, w.sessions[c], c, msg);
    AnnouncedBy(w.sessions[c], w.hub.directory, msg);
    HandleDirectory(w.sessions[c], w.hub.directory, msg);
  }

  lemma LogGrows(w: World, w': World, s: SessionValue, d: Directory, leaves: bool)
    requires d == w.hub.directory && LeftOnce(w)
    requires w'.left == w.left + (if leaves then Leaver(s, d) else [])
    requires forall p :: Due(w'.hub.directory, p) == Due(d, p) + (if leaves then multiset(Leaver(s, d))[p] else 0)
    ensures LeftOnce(w')
  {
    forall p ensures multiset(w'.left)[p] == Due(w'.hub.directory, p) {
      assert multiset(w.left)[p] == Due(d, p);
    }
  }

  lemma LogFollows(w: World, w': World, s: SessionValue, msg: ClientMessage)
    requires LeftOnce(w) && Sound(w.hub.directory) && WellFormed(s)
    requires s.participantId.Some? ==> Issued(s.participantId.value, w.hub.directory.nextSeq)
    requires w'.hub.directory == DirectoryAfter(s, w.hub.directory, msg)
    requires w'.left == w.left + (if KindOf(s, w.hub.directory, msg) == Departs then Leaver(s, w.hub.directory) else [])
    ensures LeftOnce(w')
  {
    var d := w.hub.directory;
    forall p ensures Due(w'.hub.directory, p) ==
                     Due(d, p) + (if KindOf(s, d, msg) == Departs then multiset(Leaver(s, d))[p] else 0) {
      KindDue(s, d, msg, p);
    }
    LogGrows(w, w', s, d, KindOf(s, d, msg) == Departs);
  }

  lemma ReceiveLeftOnce(w: World, c: Socket, msg: ClientMessage)
    requires Fits(w) && Sound(w.hub.directory) && LeftOnce(w) && Enabled(w, Receive(c, msg))
    ensures LeftOnce(Step(w, Receive(c, msg)))
  {
    ReceiveLogs(w, c, msg);
    SessionIssued(w, c);
    LogFollows(w, Step(w, Receive(c, msg)), w.sessions[c], msg);
  }

  lemma SessionIssued(w: World, c: Socket)
    requires Fits(w) && c in w.sessions
    ensures w.sessions[c].participantId.Some? ==>
              Issued(w.sessions[c].participantId.value, w.hub.directory.nextSeq)
  {
    assert SessionFits(w, c);
    assert w.sessions[c].participantId.Some? ==> OwnerIssued(w, w.sessions[c].participantId.value);
  }

  lemma ShutDue(s: SessionValue, d: Directory, p: string)
    requires WellFormed(s) && OneRoomEach(d) && (s.participantId.Some? ==> Issued(s.participantId.value, d.nextSeq))
    ensures Due(RemoveFromRoom(s, d).directory, p) == Due(d, p) + multiset(Leaver(s, d))[p]
  {
    if s.participantId.Some? { LeaverDue(s, d, p); }
  }

  lemma ShutLeftOnce(w: World, c: Socket)
    requires Fits(w) && Sound(w.hub.directory) && LeftOnce(w) && Enabled(w, Shut(c))
    ensures LeftOnce(Step(w, Shut(c)))
  {
    var s, d := w.sessions[c], w.hub.directory;
    var w' := Step(w, Shut(c));
    assert SessionFits(w, c);
    ShutKeeps(w.hub, s);
    AnnouncedByRemoval(s, d);
    SessionIssued(w, c);
    forall p ensures Due(w'.hub.directory, p) == Due(d, p) + multiset(Leaver(s, d))[p] {
      ShutDue(s, d, p);
    }
    LogGrows(w, w', s, d, true);
  }
}
