/** The session as the object that owns its fields and drives the registry it is handed. */
module SessionObjects {
  import opened Messages
  import opened Registries
  import opened Rooms
  import opened RoomViews
  import opened Sessions
  import opened TrackLists
  import opened Wrappers
  import KeyOrder

  class Session {
    var state: State
    var participantId: Option<string>
    var roomId: Option<string>
    var displayName: Option<string>
    var chatSeq: nat

    ghost function Value(): SessionValue
      reads this
    {
      SessionValue(state, participantId, roomId, displayName, chatSeq)
    }

    ghost predicate Valid()
      reads this
    {
      WellFormed(Value())
    }

    constructor ()
      ensures Valid() && Value() == FRESH
    {
      state, participantId, roomId, displayName, chatSeq := AwaitingJoin, None, None, None, 0;
    }

    method Handle(msg: ClientMessage, registry: Registry) returns (out: seq<Output>)
      requires Valid()
      modifies this, registry
      ensures Valid()
      ensures Handled(Value(), registry.Value(), out) ==
              Sessions.Handle(old(Value()), old(registry.Value()), msg)
    {
      HandleWellFormed(Value(), registry.Value(), msg);
      match state {
        case AwaitingJoin =>
          if msg.JoinRequest? {
            out := OnJoin(msg.claims, registry);
          } else {
            out := Reject();
          }
        case Joined => out := OnRoomMessage(msg, registry);
        case Closed => out := [];
      }
    }

    method Close(registry: Registry) returns (out: seq<Output>)
      requires Valid()
      modifies this, registry
      ensures Valid()
      ensures Handled(Value(), registry.Value(), out) == RemoveFromRoom(old(Value()), old(registry.Value()))
    {
      var delta := Remove(registry);
      out := if delta.Some? then [ToPeers(delta.value)] else [];
    }

    method Reject() returns (out: seq<Output>)
      modifies this
      ensures Value() == old(Value()).(state := State.Closed)
      ensures out == [ToSelf(Disconnect(UnspecifiedReason)), Output.Close]
    {
      state := State.Closed;
      out := [ToSelf(Disconnect(UnspecifiedReason)), Output.Close];
    }

    method OnJoin(claims: Option<Claims>, registry: Registry) returns (out: seq<Output>)
      modifies this, registry
      ensures Handled(Value(), registry.Value(), out) ==
              Sessions.OnJoin(old(Value()), old(registry.Value()), claims)
    {
      if claims.None? {
        out := Reject();
        return;
      }
      var room, name := claims.value.roomId, claims.value.displayName;
      var joined := registry.Join(room, name);
      if joined.Err? {
        JoinErrKeeps(old(registry.Value()), room, name);
        out := Reject();
        return;
      }
      participantId, roomId, displayName, state := Some(joined.value), Some(room), Some(name), State.Joined;
      var members := registry.rooms[room];
      out := [ToSelf(JoinResponse(joined.value, Snapshot(members))),
              ToPeers(Delta(NO_CHANGE.(joined := [WireMember(joined.value, members[joined.value])])))];
    }

    method OnRoomMessage(msg: ClientMessage, registry: Registry) returns (out: seq<Output>)
      requires Valid() && state == State.Joined
      modifies this, registry
      ensures Handled(Value(), registry.Value(), out) ==
              Sessions.Handle(old(Value()), old(registry.Value()), msg)
    {
      match msg {
        case JoinRequest(_) => out := Reject();
        case UpdateLocalTracks(publish, unpublish) => out := OnUpdateLocalTracks(publish, unpublish, registry);
        case UpdateSubscriptions(upsert, remove, revision) =>
          out := OnUpdateSubscriptions(upsert, remove, revision, registry);
        case SendChat(text, inBudget) => out := OnSendChat(text, inBudget);
        case LeaveRequest => out := OnLeave(registry);
        case Transport => out := [];
        case Empty => out := [];
      }
    }

    method PublishEach(publish: seq<Track>, registry: Registry) returns (delta: RoomDelta)
      requires Valid() && state == State.Joined
      modifies registry
      ensures (registry.Value(), delta) ==
              Sessions.PublishEach(old(registry.Value()), roomId.value, participantId.value, publish)
    {
      var room, pid := roomId.value, participantId.value;
      ghost var was := registry.Value();
      delta := NO_CHANGE;
      for i := 0 to |publish|
        invariant (registry.Value(), delta) == Sessions.PublishEach(was, room, pid, publish[..i])
      {
        assert publish[..i + 1][..i] == publish[..i];
        var outcome := registry.Publish(room, pid, publish[i].id, CoreMeta(publish[i]));
        if outcome.Ok? && outcome.value.isNew {
          delta := delta.(published := delta.published + [TrackPublished(pid, publish[i])]);
        } else if outcome.Ok? && outcome.value.muteChange.Some? {
          var muted := outcome.value.muteChange.value;
          delta := delta.(muteChanges := delta.muteChanges + [TrackMuted(TrackRef(pid, publish[i].id), muted)]);
        }
      }
      assert publish[..|publish|] == publish;
    }

    method UnpublishEach(unpublish: seq<string>, registry: Registry) returns (gone: seq<TrackRef>)
      requires Valid() && state == State.Joined
      modifies registry
      ensures (registry.Value(), gone) ==
              Sessions.UnpublishEach(old(registry.Value()), roomId.value, participantId.value, unpublish)
    {
      var room, pid := roomId.value, participantId.value;
      ghost var was := registry.Value();
      gone := [];
      for i := 0 to |unpublish|
        invariant (registry.Value(), gone) == Sessions.UnpublishEach(was, room, pid, unpublish[..i])
      {
        assert unpublish[..i + 1][..i] == unpublish[..i];
        var existed := registry.Unpublish(room, pid, unpublish[i]);
        if existed.Ok? && existed.value {
          gone := gone + [TrackRef(pid, unpublish[i])];
        }
      }
      assert unpublish[..|unpublish|] == unpublish;
    }

    method OnUpdateLocalTracks(publish: seq<Track>, unpublish: seq<string>, registry: Registry)
      returns (out: seq<Output>)
      requires Valid() && state == State.Joined
      modifies registry
      ensures Handled(Value(), registry.Value(), out) ==
              OnLocalTracks(old(Value()), old(registry.Value()), publish, unpublish)
    {
      LocalTracksEach(Value(), registry.Value(), publish, unpublish);
      var delta := PublishEach(publish, registry);
      var gone := UnpublishEach(unpublish, registry);
      delta := delta.(unpublished := gone);
      out := if delta == NO_CHANGE then [] else [ToPeers(Delta(delta))];
    }

    method OnUpdateSubscriptions(upsert: seq<WireSubscription>, remove: seq<TrackRef>, revision: nat, registry: Registry)
      returns (out: seq<Output>)
      requires Valid() && state == State.Joined
      modifies registry
      ensures Handled(Value(), registry.Value(), out) ==
              OnSubscriptions(old(Value()), old(registry.Value()), upsert, remove, revision)
    {
      var room, pid := roomId.value, participantId.value;
      var r := registry.UpdateSubscriptions(room, pid, CoreSubscriptions(upsert), remove, revision);
      var echoed := 0;
      if r.Ok? {
        echoed := r.value;
      } else if r.error.StaleRevision? {
        echoed := r.error.applied;
      } else if room in registry.rooms && pid in registry.rooms[room] {
        var applied := registry.rooms[room][pid].applied;
        if applied.Some? {
          echoed := applied.value;
        }
      }
      out := [ToSelf(SubscriptionUpdate(echoed))];
    }

    method OnSendChat(text: string, inBudget: bool) returns (out: seq<Output>)
      requires Valid() && state == State.Joined
      modifies this
      ensures forall d :: Handled(Value(), d, out) == Sessions.OnSendChat(old(Value()), d, text, inBudget)
    {
      if text == "" || |text| > MAX_CHAT_BYTES || !inBudget {
        return [];
      }
      chatSeq := chatSeq + 1;
      var pid := participantId.value;
      var name := if displayName.Some? then displayName.value else "";
      var msg := Chat(pid + "-" + KeyOrder.Decimal(chatSeq), pid, name, text);
      out := [ToPeers(msg), ToSelf(msg)];
    }

    method OnLeave(registry: Registry) returns (out: seq<Output>)
      requires Valid()
      modifies this, registry
      ensures Handled(Value(), registry.Value(), out) == Sessions.OnLeave(old(Value()), old(registry.Value()))
    {
      out := [ToSelf(Disconnect(ClientLeft))];
      var delta := Remove(registry);
      if delta.Some? {
        out := out + [ToPeers(delta.value)];
      }
      out := out + [Output.Close];
    }

    method Remove(registry: Registry) returns (delta: Option<ServerMessage>)
      requires Valid()
      modifies this, registry
      ensures Valid()
      ensures Handled(Value(), registry.Value(), if delta.Some? then [ToPeers(delta.value)] else []) ==
              RemoveFromRoom(old(Value()), old(registry.Value()))
    {
      state := State.Closed;
      if roomId.None? || participantId.None? {
        return None;
      }
      var removed := registry.Leave(roomId.value, participantId.value);
      delta := if removed then Some(Delta(LeftDelta(participantId.value))) else None;
    }
  }
}
