/** The hub as the object behind the lock: registry, outbound table and queues updated in place. */
module HubObjects {
  import opened Hubs
  import opened Messages
  import opened Registries
  import opened Rooms
  import opened Sessions
  import opened SessionObjects
  import opened Wrappers

  class Hub {
    const registry: Registry
    var outbounds: Outbounds
    var queues: Queues

    ghost function Value(): HubValue
      reads this, registry
    {
      HubValue(registry.Value(), outbounds, queues)
    }

    constructor ()
      ensures Value() == HubValue(NOBODY, map[], map[])
      ensures fresh(registry)
    {
      registry := new Registry();
      outbounds, queues := map[], map[];
    }

    method Send(c: Socket, m: ServerMessage)
      modifies this`queues
      ensures queues == Push(old(queues), c, m)
    {
      if c in queues {
        queues := queues[c := queues[c] + [m]];
      }
    }

    method SendToPeers(s: Session, m: ServerMessage)
      requires Injective(outbounds)
      modifies this`queues
      ensures queues == Broadcast(old(queues), outbounds, Peers(registry.Value(), s.Value()), m)
    {
      ghost var was := queues;
      BroadcastNobody(was, outbounds, m);
      if s.roomId.None? || s.roomId.value !in registry.rooms {
        return;
      }
      var ids := registry.rooms[s.roomId.value].Keys;
      if s.participantId.Some? {
        ids := ids - {s.participantId.value};
      }
      var rest := ids;
      while rest != {}
        invariant rest <= ids
        invariant queues == Broadcast(was, outbounds, ids - rest, m)
      {
        var peer :| peer in rest;
        BroadcastOneMore(was, outbounds, ids - rest, peer, m);
        assert ids - (rest - {peer}) == (ids - rest) + {peer};
        rest := rest - {peer};
        if peer in outbounds {
          Send(outbounds[peer], m);
        }
      }
      assert ids - rest == ids;
    }

    method Deliver(s: Session, own: Option<Socket>, outs: seq<Output>) returns (close: bool)
      requires Injective(outbounds)
      modifies this
      ensures (Value(), close) == Hubs.Deliver(old(Value()), s.Value(), own, outs)
    {
      close := false;
      ghost var was := Value();
      for i := 0 to |outs|
        invariant outbounds == was.outbounds && registry.Value() == was.directory
        invariant Value() == DeliverAll(was, s.Value(), own, outs[..i])
        invariant close <==> Output.Close in outs[..i]
      {
        assert outs[..i + 1][..i] == outs[..i];
        match outs[i] {
          case ToSelf(m) =>
            if own.Some? {
              Send(own.value, m);
            }
          case ToPeers(m) => SendToPeers(s, m);
          case Close => close := true;
        }
      }
      assert outs[..|outs|] == outs;
      if close && s.participantId.Some? {
        outbounds := outbounds - {s.participantId.value};
      }
    }

    method Dispatch(s: Session, own: Socket, msg: ClientMessage) returns (close: bool)
      requires s.Valid() && Injective(outbounds)
      requires own !in outbounds.Values || (s.participantId.Some? && s.participantId.value in outbounds)
      modifies this, registry, s
      ensures s.Valid()
      ensures (Value(), s.Value(), close) == Hubs.Dispatch(old(Value()), old(s.Value()), own, msg)
    {
      var outputs := s.Handle(msg, registry);
      if s.state == State.Joined && s.participantId.Some? && s.participantId.value !in outbounds {
        outbounds := outbounds[s.participantId.value := own];
      }
      close := Deliver(s, Some(own), outputs);
    }

    method OnTransportClose(s: Session)
      requires s.Valid() && Injective(outbounds)
      modifies this, registry, s
      ensures s.Valid()
      ensures (Value(), s.Value()) == TransportClosed(old(Value()), old(s.Value()))
    {
      var outputs := s.Close(registry);
      if s.participantId.Some? {
        outbounds := outbounds - {s.participantId.value};
      }
      var _ := Deliver(s, None, outputs);
    }
  }
}
