/**
 * The hub: one lock around the registry and the outbound queues. Handling a
 * message and fanning out what it produced is one step.
 */
module Hubs {
  import opened Messages
  import opened Rooms
  import opened Sessions
  import opened Wrappers

  /** A socket, standing for the sender half of its queue. */
  type Socket = nat

  type Queues = map<Socket, seq<ServerMessage>>

  type Outbounds = map<string, Socket>

  datatype HubValue = HubValue(directory: Directory, outbounds: Outbounds, queues: Queues)

  predicate Reached(outbounds: Outbounds, peers: set<string>, c: Socket) {
    exists p :: p in peers && p in outbounds && outbounds[p] == c
  }

  /** The message goes once to each open queue that one of the peers is registered with. */
  function Broadcast(queues: Queues, outbounds: Outbounds, peers: set<string>, m: ServerMessage): Queues {
    map c | c in queues :: if Reached(outbounds, peers, c) then queues[c] + [m] else queues[c]
  }

  function Push(queues: Queues, c: Socket, m: ServerMessage): Queues {
    if c in queues then queues[c := queues[c] + [m]] else queues
  }

  /** Everyone in the session's room but its own participant. */
  function Peers(d: Directory, s: SessionValue): set<string> {
    if s.roomId.None? || s.roomId.value !in d.rooms then {}
    else d.rooms[s.roomId.value].Keys - (if s.participantId.Some? then {s.participantId.value} else {})
  }

  function DeliverOne(h: HubValue, s: SessionValue, own: Option<Socket>, out: Output): HubValue {
    match out
    case ToSelf(m) => if own.Some? then h.(queues := Push(h.queues, own.value, m)) else h
    case ToPeers(m) => h.(queues := Broadcast(h.queues, h.outbounds, Peers(h.directory, s), m))
    case Close => h
  }

  function DeliverAll(h: HubValue, s: SessionValue, own: Option<Socket>, outs: seq<Output>): HubValue {
    if outs == [] then h
    else DeliverOne(DeliverAll(h, s, own, outs[..|outs| - 1]), s, own, outs[|outs| - 1])
  }

  function Deregister(h: HubValue, s: SessionValue): HubValue {
    if s.participantId.Some? then h.(outbounds := h.outbounds - {s.participantId.value}) else h
  }

  function Deliver(h: HubValue, s: SessionValue, own: Option<Socket>, outs: seq<Output>): (HubValue, bool) {
    var h' := DeliverAll(h, s, own, outs);
    if Output.Close in outs then (Deregister(h', s), true) else (h', false)
  }

  function Register(h: HubValue, s: SessionValue, own: Socket): HubValue {
    if s.state == State.Joined && s.participantId.Some? && s.participantId.value !in h.outbounds then
      h.(outbounds := h.outbounds[s.participantId.value := own])
    else h
  }

  /** The hub and the session after one message, and whether the socket is to close. */
  function Dispatch(h: HubValue, s: SessionValue, own: Socket, msg: ClientMessage): (HubValue, SessionValue, bool)
    requires WellFormed(s)
  {
    var r := Handle(s, h.directory, msg);
    var (h', close) := Deliver(Register(h.(directory := r.directory), r.session, own), r.session, Some(own), r.outputs);
    (h', r.session, close)
  }

  function TransportClosed(h: HubValue, s: SessionValue): (HubValue, SessionValue) {
    var r := RemoveFromRoom(s, h.directory);
    (Deliver(Deregister(h.(directory := r.directory), r.session), r.session, None, r.outputs).0, r.session)
  }

  predicate Injective(outbounds: Outbounds) {
    forall p, q :: p in outbounds && q in outbounds && outbounds[p] == outbounds[q] ==> p == q
  }

  lemma BroadcastNobody(queues: Queues, outbounds: Outbounds, m: ServerMessage)
    ensures Broadcast(queues, outbounds, {}, m) == queues
  {
  }

  /** One more peer takes the message. */
  lemma BroadcastOneMore(queues: Queues, outbounds: Outbounds, peers: set<string>, p: string, m: ServerMessage)
    requires Injective(outbounds) && p !in peers
    ensures Broadcast(queues, outbounds, peers + {p}, m) ==
            if p in outbounds then Push(Broadcast(queues, outbounds, peers, m), outbounds[p], m)
            else Broadcast(queues, outbounds, peers, m)
  {
    var before, after := Broadcast(queues, outbounds, peers, m), Broadcast(queues, outbounds, peers + {p}, m);
    forall c | c in queues
      ensures Reached(outbounds, peers + {p}, c) <==>
              Reached(outbounds, peers, c) || (p in outbounds && outbounds[p] == c)
      ensures p in outbounds && outbounds[p] == c ==> !Reached(outbounds, peers, c)
    {
      if Reached(outbounds, peers, c) {
        var q :| q in peers && q in outbounds && outbounds[q] == c;
        assert q in peers + {p};
      }
      if p in outbounds && outbounds[p] == c { assert p in peers + {p}; }
    }
  }

  lemma {:induction false} DeliverAllKeeps(h: HubValue, s: SessionValue, own: Option<Socket>, outs: seq<Output>)
    ensures var h' := DeliverAll(h, s, own, outs);
            h'.outbounds == h.outbounds && h'.directory == h.directory && h'.queues.Keys == h.queues.Keys
  {
    if outs != [] {
      DeliverAllKeeps(h, s, own, outs[..|outs| - 1]);
    }
  }
}
