/**
 * Client and hub together: a client that answers everything in its queue, and a
 * hub that has handled everything it sent, agree on its subscriptions.
 */
module HubMirroring {
  import opened ClientSubscriptions
  import opened Convergence
  import opened HubRuns
  import opened Hubs
  import opened KeyOrder
  import opened Messages
  import opened Mirroring
  import opened Rejoin
  import opened Rooms
  import opened RoomViews
  import opened Sessions
  import opened SubscriptionKeys
  import opened TrackLists
  import opened Worlds
  import opened Wrappers

  // ── What a joined socket's queue looks like ───────────────────────────

  /** Neither a join response nor a disconnect. */
  ghost predicate Plain(m: ServerMessage) {
    !m.JoinResponse? && !m.Disconnect? && Proper(m)
  }

  ghost predicate AllPlain(msgs: seq<ServerMessage>) {
    forall i :: 0 <= i < |msgs| ==> Plain(msgs[i])
  }

  /** A join response as p, then plain messages only. */
  ghost predicate JoinedQueue(msgs: seq<ServerMessage>, p: string) {
    && msgs != [] && msgs[0].JoinResponse? && msgs[0].participantId == p && Proper(msgs[0])
    && AllPlain(msgs[1..])
  }

  /** The messages of these outputs that reach a socket. */
  function Heard(outs: seq<Output>, own: bool, peer: bool): seq<ServerMessage> {
    if outs == [] then []
    else
      var before, last := Heard(outs[..|outs| - 1], own, peer), outs[|outs| - 1];
      if (last.ToSelf? && own) || (last.ToPeers? && peer) then before + [last.message] else before
  }

  lemma {:induction false} DeliverHeard(h: HubValue, s: SessionValue, own: Option<Socket>, outs: seq<Output>, x: Socket)
    requires x in h.queues
    ensures x in DeliverAll(h, s, own, outs).queues
    ensures DeliverAll(h, s, own, outs).queues[x] == h.queues[x] + Heard(outs, own == Some(x), IsPeer(h, s, x))
  {
    if outs != [] {
      var front := outs[..|outs| - 1];
      DeliverHeard(h, s, own, front, x);
      DeliverAllKeeps(h, s, own, front);
    }
  }

  ghost predicate PlainTo(out: Output, own: bool) {
    !out.Close? && (out.ToPeers? || own) ==> Plain(out.message)
  }

  lemma {:induction false} HeardPlain(outs: seq<Output>, own: bool, peer: bool)
    requires forall i :: 0 <= i < |outs| ==> PlainTo(outs[i], own)
    ensures AllPlain(Heard(outs, own, peer))
  {
    if outs != [] { HeardPlain(outs[..|outs| - 1], own, peer); }
  }

  lemma JoinedQueueGrows(q: seq<ServerMessage>, p: string, more: seq<ServerMessage>)
    requires JoinedQueue(q, p) && AllPlain(more)
    ensures JoinedQueue(q + more, p)
  {
    assert (q + more)[1..] == q[1..] + more;
  }

  // ── What each kind of message sends ───────────────────────────────────

  lemma IssuedIsSlashFree(p: string, n: nat)
    requires Issued(p, n)
    ensures SlashFree(p)
  {
    IssuedSlashFree(n - 1);
    if p != ParticipantId(n - 1) { IssuedIsSlashFree(p, n - 1); }
  }

  lemma SnapshotProper(d: Directory, room: string)
    requires Capped(d) && room in d.rooms
    ensures ProperEntries(Snapshot(d.rooms[room]))
  {
    var ids, es := Listed(d.rooms[room].Keys), Snapshot(d.rooms[room]);
    forall i | 0 <= i < |es| ensures SlashFree(es[i].id) {
      assert es[i].id == ids[i] && ids[i] in ids;
      PresentBounded(d, room, ids[i]);
      IssuedIsSlashFree(ids[i], d.nextSeq);
    }
  }

  /** Nobody but the sender is ever sent anything but deltas and chat. */
  lemma PeersHearPlain(s: SessionValue, d: Directory, msg: ClientMessage)
    requires WellFormed(s)
    ensures forall i :: 0 <= i < |Handle(s, d, msg).outputs| ==> PlainTo(Handle(s, d, msg).outputs[i], false)
  {
    IssuedSlashFree(d.nextSeq);
    if s.state == State.Joined && msg.UpdateLocalTracks? && Present(d, s.roomId.value, s.participantId.value) {
      PublishTellsOf(d.rooms[s.roomId.value][s.participantId.value].tracks, s.participantId.value, msg.publish);
    }
  }

  /** A session that stays open is sent nothing that would end or restart it. */
  lemma StayingHearsPlain(s: SessionValue, d: Directory, msg: ClientMessage)
    requires WellFormed(s) && KindOf(s, d, msg) == Stays
    ensures forall i :: 0 <= i < |Handle(s, d, msg).outputs| ==> PlainTo(Handle(s, d, msg).outputs[i], true)
  {
    if s.state == State.Joined && msg.UpdateLocalTracks? && Present(d, s.roomId.value, s.participantId.value) {
      PublishTellsOf(d.rooms[s.roomId.value][s.participantId.value].tracks, s.participantId.value, msg.publish);
    }
  }

  ghost predicate QueueFits(w: World, x: Socket)
    requires x in w.sessions
  {
    && x in w.hub.queues
    && (w.sessions[x].state == State.AwaitingJoin ==> w.hub.queues[x] == [])
    && (w.sessions[x].state == State.Joined && w.sessions[x].participantId.Some? ==>
          JoinedQueue(w.hub.queues[x], w.sessions[x].participantId.value))
  }

  ghost predicate QueuesFit(w: World) {
    forall x :: x in w.sessions ==> QueueFits(w, x)
  }

  lemma RegisteredIsOpen(w: World, p: string, x: Socket)
    requires Fits(w) && RegisteredTo(w.hub.outbounds, p, x)
    ensures x in w.sessions && w.sessions[x].state == State.Joined
  {
    assert OutboundFits(w, p);
  }

  /** Nobody is a peer before joining. */
  lemma AwaitingHearsNothing(w: World, h: HubValue, s: SessionValue, x: Socket)
    requires Fits(w) && x in w.sessions && w.sessions[x].state == State.AwaitingJoin
    requires forall p :: RegisteredTo(h.outbounds, p, x) ==> RegisteredTo(w.hub.outbounds, p, x)
    ensures !IsPeer(h, s, x)
  {
    forall p ensures !RegisteredTo(h.outbounds, p, x) {
      if RegisteredTo(w.hub.outbounds, p, x) { RegisteredIsOpen(w, p, x); }
    }
    forall p | p in Peers(h.directory, s) && p in h.outbounds ensures h.outbounds[p] != x {
      assert !RegisteredTo(h.outbounds, p, x);
    }
  }

  lemma {:induction false} HeardNothing(outs: seq<Output>)
    ensures Heard(outs, false, false) == []
  {
    if outs != [] { HeardNothing(outs[..|outs| - 1]); }
  }

  /** How socket x's queue grows when socket c's message is handled. */
  lemma ReceiveHeard(w: World, c: Socket, msg: ClientMessage, x: Socket)
    requires Enabled(w, Receive(c, msg)) && x in w.hub.queues
    ensures var r := Handle(w.sessions[c], w.hub.directory, msg);
            var w' := Step(w, Receive(c, msg));
            && x in w'.hub.queues && w'.sessions == w.sessions[c := r.session]
            && w'.hub.queues[x] == w.hub.queues[x] + Heard(r.outputs, x == c, IsPeer(Delivering(w, c, msg), r.session, x))
  {
    var r := Handle(w.sessions[c], w.hub.directory, msg);
    DispatchKeeps(w.hub, w.sessions[c], c, msg);
    DeliverHeard(Delivering(w, c, msg), r.session, Some(c), r.outputs, x);
  }

  lemma OtherQueueFits(w: World, c: Socket, msg: ClientMessage, x: Socket)
    requires Fits(w) && Enabled(w, Receive(c, msg)) && x in w.sessions && x != c && QueueFits(w, x)
    ensures QueueFits(Step(w, Receive(c, msg)), x)
  {
    var s := w.sessions[c];
    var r := Handle(s, w.hub.directory, msg);
    var peer := IsPeer(Delivering(w, c, msg), r.session, x);
    ReceiveHeard(w, c, msg, x);
    if w.sessions[x].state == State.AwaitingJoin {
      AwaitingHearsNothing(w, Delivering(w, c, msg), r.session, x);
      HeardNothing(r.outputs);
    } else {
      PeersHearPlain(s, w.hub.directory, msg);
      HeardPlain(r.outputs, false, peer);
      if w.sessions[x].state == State.Joined && w.sessions[x].participantId.Some? {
        JoinedQueueGrows(w.hub.queues[x], w.sessions[x].participantId.value, Heard(r.outputs, false, peer));
      }
    }
  }

  lemma HeardPair(a: Output, b: Output)
    requires a.ToSelf? && b.ToPeers?
    ensures Heard([a, b], true, false) == [a.message]
  {
    assert [a, b][..1] == [a] && [a][..0] == [];
    assert Heard([a], true, false) == [a.message];
  }

  /** A session is no peer of its own. */
  lemma OwnIsNoPeer(h: HubValue, s: SessionValue, c: Socket)
    requires forall p :: RegisteredTo(h.outbounds, p, c) ==> s.participantId == Some(p)
    ensures !IsPeer(h, s, c)
  {
    forall p | p in Peers(h.directory, s) && p in h.outbounds ensures h.outbounds[p] != c {
      assert RegisteredTo(h.outbounds, p, c) ==> s.participantId == Some(p);
    }
  }

  lemma RegisterAdmitted(w: World, c: Socket, d: Directory, s: SessionValue)
    requires Fits(w) && c in w.sessions && w.sessions[c].state == State.AwaitingJoin && s.participantId.Some?
    ensures !IsPeer(Register(w.hub.(directory := d), s, c), s, c)
  {
    var h := Register(w.hub.(directory := d), s, c);
    forall p | RegisteredTo(h.outbounds, p, c) ensures s.participantId == Some(p) {
      if RegisteredTo(w.hub.outbounds, p, c) { RegisteredIsOpen(w, p, c); }
    }
    OwnIsNoPeer(h, s, c);
  }

  lemma ResponseQueue(d: Directory, room: string, n: nat)
    requires Capped(d) && room in d.rooms
    ensures JoinedQueue([JoinResponse(ParticipantId(n), Snapshot(d.rooms[room]))], ParticipantId(n))
  {
    SnapshotProper(d, room);
    IssuedSlashFree(n);
  }

  lemma AdmittedHears(s: SessionValue, d: Directory, msg: ClientMessage)
    requires WellFormed(s) && KindOf(s, d, msg) == Admits
    ensures var room, name := msg.claims.value.roomId, msg.claims.value.displayName;
            var d' := Join(d, room, name).0;
            && room in d'.rooms
            && Heard(Handle(s, d, msg).outputs, true, false) ==
               [JoinResponse(ParticipantId(d.nextSeq), Snapshot(d'.rooms[room]))]
  {
    AdmitOutputs(s, d, msg);
    HeardPair(Handle(s, d, msg).outputs[0], Handle(s, d, msg).outputs[1]);
  }

  lemma AdmittedIsNoPeer(w: World, c: Socket, msg: ClientMessage)
    requires Fits(w) && Enabled(w, Receive(c, msg)) && KindOf(w.sessions[c], w.hub.directory, msg) == Admits
    ensures !IsPeer(Delivering(w, c, msg), Handle(w.sessions[c], w.hub.directory, msg).session, c)
  {
    AdmitHandled(w.sessions[c], w.hub.directory, msg);
    RegisterAdmitted(w, c, Handle(w.sessions[c], w.hub.directory, msg).directory,
                     Handle(w.sessions[c], w.hub.directory, msg).session);
  }

  lemma AdmittedQueueIs(w: World, c: Socket, msg: ClientMessage)
    requires Fits(w) && Enabled(w, Receive(c, msg)) && c in w.hub.queues && w.hub.queues[c] == []
    requires KindOf(w.sessions[c], w.hub.directory, msg) == Admits
    ensures var r := Handle(w.sessions[c], w.hub.directory, msg);
            var w' := Step(w, Receive(c, msg));
            && c in w'.hub.queues && w'.sessions == w.sessions[c := r.session]
            && w'.hub.queues[c] == Heard(r.outputs, true, false)
  {
    AdmittedIsNoPeer(w, c, msg);
    ReceiveHeard(w, c, msg, c);
  }

  lemma AdmittedQueueFits(w: World, c: Socket, msg: ClientMessage)
    requires Fits(w) && Capped(w.hub.directory) && Enabled(w, Receive(c, msg)) && QueueFits(w, c)
    requires KindOf(w.sessions[c], w.hub.directory, msg) == Admits
    ensures QueueFits(Step(w, Receive(c, msg)), c)
  {
    var s, d := w.sessions[c], w.hub.directory;
    AdmittedQueueIs(w, c, msg);
    AdmittedResponse(s, d, msg);
  }

  lemma AdmittedResponse(s: SessionValue, d: Directory, msg: ClientMessage)
    requires WellFormed(s) && Capped(d) && KindOf(s, d, msg) == Admits
    ensures var r := Handle(s, d, msg);
            && r.session.state == State.Joined && r.session.participantId.Some?
            && JoinedQueue(Heard(r.outputs, true, false), r.session.participantId.value)
  {
    var room, name := msg.claims.value.roomId, msg.claims.value.displayName;
    AdmitHandled(s, d, msg);
    AdmittedHears(s, d, msg);
    JoinCapped(d, room, name);
    ResponseQueue(Join(d, room, name).0, room, d.nextSeq);
  }

  lemma StayingQueueFits(w: World, c: Socket, msg: ClientMessage)
    requires Fits(w) && Enabled(w, Receive(c, msg)) && QueueFits(w, c)
    requires KindOf(w.sessions[c], w.hub.directory, msg) == Stays
    ensures QueueFits(Step(w, Receive(c, msg)), c)
  {
    var s, d := w.sessions[c], w.hub.directory;
    var r := Handle(s, d, msg);
    var peer := IsPeer(Delivering(w, c, msg), r.session, c);
    ReceiveHeard(w, c, msg, c);
    StayHandled(s, d, msg);
    StayingHearsPlain(s, d, msg);
    HeardPlain(r.outputs, true, peer);
    if s.state == State.Joined {
      JoinedQueueGrows(w.hub.queues[c], s.participantId.value, Heard(r.outputs, true, peer));
    }
  }

  lemma ReceiveQueuesFit(w: World, c: Socket, msg: ClientMessage)
    requires Fits(w) && Sound(w.hub.directory) && Enabled(w, Receive(c, msg)) && QueuesFit(w)
    ensures QueuesFit(Step(w, Receive(c, msg)))
  {
    var w' := Step(w, Receive(c, msg));
    forall x | x in w'.sessions ensures QueueFits(w', x) {
      assert x in w.sessions && QueueFits(w, x);
      if x != c {
        OtherQueueFits(w, c, msg, x);
      } else {
        OwnQueueFits(w, c, msg);
      }
    }
  }

  lemma OwnQueueFits(w: World, c: Socket, msg: ClientMessage)
    requires Fits(w) && Sound(w.hub.directory) && Enabled(w, Receive(c, msg)) && QueueFits(w, c)
    ensures QueueFits(Step(w, Receive(c, msg)), c)
  {
    match KindOf(w.sessions[c], w.hub.directory, msg) {
      case Admits => AdmittedQueueFits(w, c, msg);
      case Stays => StayingQueueFits(w, c, msg);
      case Rejects =>
        ReceiveHeard(w, c, msg, c);
        RejectHandled(w.sessions[c], w.hub.directory, msg);
      case Departs =>
        ReceiveHeard(w, c, msg, c);
        DepartHandled(w.sessions[c], w.hub.directory, msg);
    }
  }

  /** How socket x's queue grows when socket c closes. */
  lemma ShutHeard(w: World, c: Socket, x: Socket)
    requires c in w.sessions && x in w.sessions && x != c && x in w.hub.queues
    ensures var r, h, w' := RemoveFromRoom(w.sessions[c], w.hub.directory), ClosingHub(w, c), Step(w, Shut(c));
            && x in w'.hub.queues && x in w'.sessions && w'.sessions[x] == w.sessions[x]
            && w'.hub.queues[x] == w.hub.queues[x] + Heard(r.outputs, false, IsPeer(h, r.session, x))
  {
    var r := RemoveFromRoom(w.sessions[c], w.hub.directory);
    DeliverHeard(ClosingHub(w, c), r.session, None, r.outputs, x);
  }

  lemma ShutQueueFits(w: World, c: Socket, x: Socket)
    requires Fits(w) && c in w.sessions && x in w.sessions && x != c && QueueFits(w, x)
    ensures QueueFits(Step(w, Shut(c)), x)
  {
    var s := w.sessions[c];
    var r, h := RemoveFromRoom(s, w.hub.directory), ClosingHub(w, c);
    var peer := IsPeer(h, r.session, x);
    ShutHeard(w, c, x);
    if w.sessions[x].state == State.AwaitingJoin {
      AwaitingHearsNothing(w, h, r.session, x);
      HeardNothing(r.outputs);
    } else if w.sessions[x].state == State.Joined && w.sessions[x].participantId.Some? {
      HeardPlain(r.outputs, false, peer);
      JoinedQueueGrows(w.hub.queues[x], w.sessions[x].participantId.value, Heard(r.outputs, false, peer));
    }
  }

  lemma StepQueuesFit(w: World, e: Event)
    requires Fits(w) && Sound(w.hub.directory) && QueuesFit(w) && Enabled(w, e)
    ensures QueuesFit(Step(w, e))
  {
    match e {
      case Open(c) =>
        var w' := Step(w, e);
        forall x | x in w'.sessions ensures QueueFits(w', x) {
          if x != c { assert QueueFits(w, x); }
        }
      case Receive(c, msg) => ReceiveQueuesFit(w, c, msg);
      case Shut(c) =>
        var w' := Step(w, e);
        forall x | x in w'.sessions ensures QueueFits(w', x) {
          assert QueueFits(w, x);
          ShutQueueFits(w, c, x);
        }
    }
  }

  /** A joined socket's queue is its own join response and then deltas, chat and subscription updates. */
  lemma {:induction false} RunQueuesFit(events: seq<Event>)
    ensures QueuesFit(Run(events))
  {
    if events != [] {
      var w, e := Run(events[..|events| - 1]), events[|events| - 1];
      RunQueuesFit(events[..|events| - 1]);
      RunKeeps(events[..|events| - 1], "", []);
      if Enabled(w, e) { StepQueuesFit(w, e); }
    }
  }

  // ── What the server has handled from one socket ───────────────────────

  /** The messages the hub has handled from socket c since it opened. */
  function Inbox(events: seq<Event>, c: Socket): seq<ClientMessage> {
    if events == [] then []
    else
      var front, e := events[..|events| - 1], events[|events| - 1];
      if Enabled(Run(front), e) then InboxAfter(Inbox(front, c), e, c) else Inbox(front, c)
  }

  function InboxAfter(inbox: seq<ClientMessage>, e: Event, c: Socket): seq<ClientMessage> {
    if e == Open(c) then [] else if e.Receive? && e.c == c then inbox + [e.msg] else inbox
  }

  /** The same subscriptions, up to the same revision. */
  ghost predicate SameSubscriptions(m: Member, n: Member) {
    m.subscriptions == n.subscriptions && m.applied == n.applied
  }

  ghost predicate Attended(w: World, x: Socket, inbox: seq<ClientMessage>)
    requires x in w.sessions
  {
    var s := w.sessions[x];
    && (s.state == State.AwaitingJoin ==> inbox == [])
    && (s.state == State.Joined && s.participantId.Some? && s.roomId.Some? ==>
          && Present(w.hub.directory, s.roomId.value, s.participantId.value)
          && SameSubscriptions(w.hub.directory.rooms[s.roomId.value][s.participantId.value], ServedAll(Newcomer(""), inbox)))
  }

  lemma ServedSame(m: Member, n: Member, msg: ClientMessage)
    requires SameSubscriptions(m, n)
    ensures SameSubscriptions(Served(m, msg), Served(n, msg))
  {
  }

  /** What handling a message does to the subscriptions of the sender's own entry. */
  lemma OwnEntryServed(s: SessionValue, d: Directory, msg: ClientMessage)
    requires WellFormed(s) && s.state == State.Joined && KindOf(s, d, msg) == Stays
    requires Present(d, s.roomId.value, s.participantId.value)
    ensures var d' := DirectoryAfter(s, d, msg);
            && Present(d', s.roomId.value, s.participantId.value)
            && SameSubscriptions(d'.rooms[s.roomId.value][s.participantId.value],
                                 Served(d.rooms[s.roomId.value][s.participantId.value], msg))
  {
  }

  /** Handling one session's message leaves every other member alone. */
  lemma OtherEntryKept(s: SessionValue, d: Directory, msg: ClientMessage, room: string, pid: string)
    requires WellFormed(s) && Present(d, room, pid)
    requires s.participantId != Some(pid) && pid != ParticipantId(d.nextSeq)
    ensures Present(DirectoryAfter(s, d, msg), room, pid)
    ensures DirectoryAfter(s, d, msg).rooms[room][pid] == d.rooms[room][pid]
  {
    if s.state == State.AwaitingJoin && msg.JoinRequest? && msg.claims.Some? {
      OthersKeptByJoin(d, msg.claims.value.roomId, msg.claims.value.displayName, room, pid);
    } else if s.state == State.Joined && msg.LeaveRequest? {
      LeavePresence(d, s.roomId.value, s.participantId.value);
    }
  }

  lemma OthersKeptByJoin(d: Directory, r: string, name: string, room: string, pid: string)
    requires Present(d, room, pid) && pid != ParticipantId(d.nextSeq)
    ensures Present(Join(d, r, name).0, room, pid) && Join(d, r, name).0.rooms[room][pid] == d.rooms[room][pid]
  {
    if Join(d, r, name).1.Ok? {
      JoinPresence(d, r, name);
    } else {
      JoinErrKeeps(d, r, name);
    }
  }

  lemma OtherAttended(w: World, w': World, c: Socket, msg: ClientMessage, x: Socket, inbox: seq<ClientMessage>)
    requires Fits(w) && c in w.sessions && WellFormed(w.sessions[c]) && x in w.sessions && x != c
    requires x in w'.sessions && w'.sessions[x] == w.sessions[x]
    requires w'.hub.directory == DirectoryAfter(w.sessions[c], w.hub.directory, msg)
    requires Attended(w, x, inbox)
    ensures Attended(w', x, inbox)
  {
    var s := w.sessions[x];
    if s.state == State.Joined && s.participantId.Some? && s.roomId.Some? {
      assert SessionFits(w, x) && SessionFits(w, c);
      NextIdUnowned(w);
      OtherEntryKept(w.sessions[c], w.hub.directory, msg, s.roomId.value, s.participantId.value);
    }
  }

  lemma ServedOne(m: Member, inbox: seq<ClientMessage>, msg: ClientMessage)
    ensures ServedAll(m, inbox + [msg]) == Served(ServedAll(m, inbox), msg)
  {
    assert (inbox + [msg])[..|inbox|] == inbox;
  }

  lemma AdmittedEntry(s: SessionValue, d: Directory, msg: ClientMessage)
    requires WellFormed(s) && KindOf(s, d, msg) == Admits
    ensures var r := Handle(s, d, msg);
            && r.session.roomId.Some? && r.session.participantId.Some? && r.session.state == State.Joined
            && Present(r.directory, r.session.roomId.value, r.session.participantId.value)
            && SameSubscriptions(r.directory.rooms[r.session.roomId.value][r.session.participantId.value], Newcomer(""))
  {
    AdmitHandled(s, d, msg);
  }

  lemma OwnAttended(w: World, w': World, c: Socket, msg: ClientMessage, inbox: seq<ClientMessage>)
    requires Fits(w) && c in w.sessions && WellFormed(w.sessions[c]) && Attended(w, c, inbox)
    requires var r := Handle(w.sessions[c], w.hub.directory, msg);
             c in w'.sessions && w'.sessions[c] == r.session && w'.hub.directory == r.directory
    ensures Attended(w', c, inbox + [msg])
  {
    var s, d := w.sessions[c], w.hub.directory;
    ServedOne(Newcomer(""), inbox, msg);
    match KindOf(s, d, msg) {
      case Admits => AdmittedEntry(s, d, msg);
      case Rejects => RejectHandled(s, d, msg);
      case Departs => DepartHandled(s, d, msg);
      case Stays => StayAttended(w, w', c, msg, inbox);
    }
  }

  lemma StayAttended(w: World, w': World, c: Socket, msg: ClientMessage, inbox: seq<ClientMessage>)
    requires Fits(w) && c in w.sessions && WellFormed(w.sessions[c]) && Attended(w, c, inbox)
    requires KindOf(w.sessions[c], w.hub.directory, msg) == Stays
    requires var r := Handle(w.sessions[c], w.hub.directory, msg);
             c in w'.sessions && w'.sessions[c] == r.session && w'.hub.directory == r.directory
    ensures Attended(w', c, inbox + [msg])
  {
    var s, d := w.sessions[c], w.hub.directory;
    StayHandled(s, d, msg);
    HandleDirectory(s, d, msg);
    ServedOne(Newcomer(""), inbox, msg);
    if s.state == State.Joined {
      OwnEntryServed(s, d, msg);
      ServedSame(d.rooms[s.roomId.value][s.participantId.value], ServedAll(Newcomer(""), inbox), msg);
    }
  }

  /** Closing a socket leaves every other member alone. */
  lemma ShutAttended(w: World, c: Socket, x: Socket, inbox: seq<ClientMessage>)
    requires Fits(w) && c in w.sessions && x in w.sessions && x != c && Attended(w, x, inbox)
    ensures Attended(Step(w, Shut(c)), x, inbox)
  {
    var s, d := w.sessions[c], w.hub.directory;
    ShutKeeps(w.hub, s);
    if s.participantId.Some? && s.roomId.Some? {
      LeavePresence(d, s.roomId.value, s.participantId.value);
      if w.sessions[x].participantId.Some? { DifferentPids(w, x, c); }
    }
  }

  lemma ReceiveAttended(w: World, c: Socket, msg: ClientMessage, x: Socket, inbox: seq<ClientMessage>)
    requires Fits(w) && Enabled(w, Receive(c, msg)) && x in w.sessions && Attended(w, x, inbox)
    ensures x in Step(w, Receive(c, msg)).sessions
    ensures Attended(Step(w, Receive(c, msg)), x, if x == c then inbox + [msg] else inbox)
  {
    DispatchKeeps(w.hub, w.sessions[c], c, msg);
    HandleDirectory(w.sessions[c], w.hub.directory, msg);
    if x == c {
      OwnAttended(w, Step(w, Receive(c, msg)), c, msg, inbox);
    } else {
      OtherAttended(w, Step(w, Receive(c, msg)), c, msg, x, inbox);
    }
  }

  lemma StepAttended(w: World, e: Event, x: Socket, inbox: seq<ClientMessage>)
    requires Fits(w) && Enabled(w, e) && (x in w.sessions ==> Attended(w, x, inbox))
    ensures x in Step(w, e).sessions ==> Attended(Step(w, e), x, InboxAfter(inbox, e, x))
  {
    match e {
      case Open(c) =>
      case Receive(c, msg) => if x in w.sessions { ReceiveAttended(w, c, msg, x, inbox); }
      case Shut(c) => if x in w.sessions && x != c { ShutAttended(w, c, x, inbox); }
    }
  }

  /** The subscriptions the hub keeps for a joined socket are those its messages so far amount to. */
  lemma {:induction false} RunAttended(events: seq<Event>, x: Socket)
    ensures x in Run(events).sessions ==> Attended(Run(events), x, Inbox(events, x))
  {
    if events != [] {
      var front, e := events[..|events| - 1], events[|events| - 1];
      RunAttended(front, x);
      RunFits(front);
      if Enabled(Run(front), e) { StepAttended(Run(front), e, x, Inbox(front, x)); }
    }
  }

  // ── Client and hub together ───────────────────────────────────────────

  /** The subscription updates among these messages, in order. */
  function Updates(msgs: seq<ClientMessage>): seq<ClientMessage> {
    if msgs == [] then []
    else
      var front, last := Updates(msgs[..|msgs| - 1]), msgs[|msgs| - 1];
      if last.UpdateSubscriptions? then front + [last] else front
  }

  lemma {:induction false} OnlyUpdatesServe(m: Member, msgs: seq<ClientMessage>)
    ensures ServedAll(m, Updates(msgs)) == ServedAll(m, msgs)
  {
    if msgs != [] {
      var front, last := msgs[..|msgs| - 1], msgs[|msgs| - 1];
      OnlyUpdatesServe(m, front);
      if last.UpdateSubscriptions? { ServedOne(m, Updates(front), last); }
    }
  }

  /** The tracks the others in a room have published. */
  ghost predicate PublishedByOthers(room: Room, p: string, r: TrackRef) {
    r.participantId in room && r.participantId != p && r.trackId in room[r.participantId].tracks
  }

  lemma AgreeingViewShows(v: View, room: Room, p: string, r: TrackRef)
    requires Agrees(v, room, p)
    ensures Shown(v, p, r) <==> PublishedByOthers(room, p, r)
  {
    if r.participantId in room && r.participantId != p {
      assert Mirrors(v[r.participantId], r.participantId, room[r.participantId], p);
      FlagsHold(v[r.participantId].tracks, r.trackId);
    }
  }

  lemma QueueIsProper(msgs: seq<ServerMessage>, p: string)
    requires JoinedQueue(msgs, p)
    ensures Ordinary(msgs)
    ensures forall i :: 0 < i < |msgs| ==> !msgs[i].JoinResponse? && !msgs[i].Disconnect?
  {
    forall i | 0 < i < |msgs| ensures Plain(msgs[i]) { assert msgs[i] == msgs[1..][i - 1]; }
  }

  /** What a client that answers its whole queue ends up with, against the server having handled its answers. */
  lemma QueueMirrors(cl0: Client, q: seq<ServerMessage>, p: string, name: string, local: seq<Track>)
    requires Clean(cl0) && JoinedQueue(q, p) && FittingAfter(cl0, q, name, local)
    ensures var (cl, sent) := ClientFrom(cl0, q, name, local);
            && Filed(cl.view) && cl.view == Seen(q, name, local) && cl.selfId == p
            && ServedAll(Newcomer(""), sent).subscriptions.Keys == RemoteTracks(cl.view, p)
            && cl.requested == Keys(RemoteTracks(cl.view, p))
  {
    QueueIsProper(q, p);
    RejoinedSessionMirrors(cl0, q, name, local, "");
    ClientSees(cl0, q, name, local);
    ClientJoined(cl0, q, name, local);
  }

  /** The updates the hub has handled from socket c are those a client starting as `cl0` sent in answer to its queue. */
  ghost predicate Answered(events: seq<Event>, c: Socket, cl0: Client, name: string, local: seq<Track>) {
    && c in Run(events).hub.queues
    && Updates(Inbox(events, c)) == Updates(ClientFrom(cl0, Run(events).hub.queues[c], name, local).1)
  }

  /**
   * End to end: when a joined client, new or come back from an earlier socket,
   * has answered everything in its queue, and the subscription updates the hub
   * has handled from its socket are those it sent, then the hub's subscriptions
   * for it are exactly the tracks that the others in its room have published,
   * and that is what the client recorded.
   */
  lemma SubscriptionsMirrorTheRoom(events: seq<Event>, c: Socket, p: string, cl0: Client, name: string, local: seq<Track>)
    requires JoinedAs(Run(events), c, p) && Clean(cl0) && Answered(events, c, cl0, name, local)
    requires FittingAfter(cl0, Run(events).hub.queues[c], name, local)
    ensures var w := Run(events);
            && w.sessions[c].roomId.Some? && Present(w.hub.directory, w.sessions[c].roomId.value, p)
            && var room := w.hub.directory.rooms[w.sessions[c].roomId.value];
            && (forall r :: r in room[p].subscriptions <==> PublishedByOthers(room, p, r))
            && ClientFrom(cl0, w.hub.queues[c], name, local).0.requested == Keys(room[p].subscriptions.Keys)
  {
    var w := Run(events);
    var q := w.hub.queues[c];
    RunQueuesFit(events);
    assert QueueFits(w, c);
    QueueMirrors(cl0, q, p, name, local);
    DrainedClientHoldsTheRoom(events, c, p, name, local);
    RunAttended(events, c);
    var room := w.hub.directory.rooms[w.sessions[c].roomId.value];
    OnlyUpdatesServe(Newcomer(""), Inbox(events, c));
    OnlyUpdatesServe(Newcomer(""), ClientFrom(cl0, q, name, local).1);
    SubscribedAre(room, p, Seen(q, name, local));
  }

  /**
   * In particular for a client with any history of sockets lost and rejoined
   * whose loop has not been answered since it last lost one.
   */
  lemma RejoinedClientMirrorsTheRoom(events: seq<Event>, c: Socket, p: string, history: seq<LinkEvent>,
                                     name: string, local: seq<Track>)
    requires LinkRun(history, name, local).client.joined && !AnsweredSinceLost(history, name, local)
    requires var cl0 := LinkRun(history, name, local).client;
             && JoinedAs(Run(events), c, p) && Answered(events, c, cl0, name, local)
             && FittingAfter(cl0, Run(events).hub.queues[c], name, local)
    ensures var w := Run(events);
            && w.sessions[c].roomId.Some? && Present(w.hub.directory, w.sessions[c].roomId.value, p)
            && var room := w.hub.directory.rooms[w.sessions[c].roomId.value];
               forall r :: r in room[p].subscriptions <==> PublishedByOthers(room, p, r)
  {
    PendingIff(history, name, local);
    SubscriptionsMirrorTheRoom(events, c, p, LinkRun(history, name, local).client, name, local);
  }

  lemma SubscribedAre(room: Room, p: string, v: View)
    requires p in room && Agrees(v, room, p) && Filed(v) && room[p].subscriptions.Keys == RemoteTracks(v, p)
    ensures forall r :: r in room[p].subscriptions <==> PublishedByOthers(room, p, r)
  {
    forall r ensures r in room[p].subscriptions <==> PublishedByOthers(room, p, r) {
      RemoteTracksAreShown(v, p, r);
      AgreeingViewShows(v, room, p, r);
    }
  }
}
