/** The registry as it updates its rooms in place, proved against the value it stands for. */
module Registries {
  import opened Maps
  import opened Wrappers
  import opened Rooms

  lemma SizeAfter<K>(held: set<K>, gone: set<K>, added: set<K>)
    ensures |(held - gone) + added| == |held - (gone - added)| + |added - held|
  {
    assert (held - gone) + added == (held - (gone - added)) + (added - held);
    SizeOfDisjoint(held - (gone - added), added - held);
  }

  lemma OneMoreOff<K>(held: set<K>, gone: set<K>, rest: set<K>, kept: set<K>, k: K)
    requires k in rest && rest <= gone
    ensures |held - ((gone - (rest - {k})) - kept)| ==
            |held - ((gone - rest) - kept)| - (if k in held && k !in kept then 1 else 0)
  {
    var left := held - ((gone - rest) - kept);
    if k in held && k !in kept {
      assert held - ((gone - (rest - {k})) - kept) == left - {k};
    } else {
      assert held - ((gone - (rest - {k})) - kept) == left;
    }
  }

  /** How many of `keys` are outside `held`. */
  method CountNew<K(==)>(keys: set<K>, held: set<K>) returns (n: nat)
    ensures n == |keys - held|
  {
    n := 0;
    var rest := keys;
    while rest != {}
      invariant rest <= keys
      invariant n == |(keys - rest) - held|
    {
      var k :| k in rest;
      ghost var counted := (keys - rest) - held;
      rest := rest - {k};
      assert (keys - rest) - held == if k in held then counted else counted + {k};
      if k !in held {
        n := n + 1;
      }
    }
    assert keys - rest == keys;
  }

  /** `size`, less one for each of `gone` that is held and not kept. */
  method CountOff<K(==)>(held: set<K>, gone: set<K>, kept: set<K>) returns (size: nat)
    ensures size == |held - (gone - kept)|
  {
    size := |held|;
    var rest := gone;
    while rest != {}
      invariant rest <= gone
      invariant size == |held - ((gone - rest) - kept)|
    {
      var k :| k in rest;
      OneMoreOff(held, gone, rest, kept, k);
      rest := rest - {k};
      if k in held && k !in kept {
        size := size - 1;
      }
    }
    assert gone - rest == gone;
  }

  /**
   * The size the subscription map would have after the batch, counted from the
   * distinct keys of both lists without applying either.
   */
  method Project(subs: Subscriptions, upsert: seq<Subscription>, remove: seq<TrackRef>) returns (projected: nat)
    ensures projected == |Batched(subs, upsert, remove)|
  {
    var upsertKeys := set s | s in upsert :: s.track;
    var removeKeys := set t | t in remove;
    projected := CountOff(subs.Keys, removeKeys, upsertKeys);
    var added := CountNew(upsertKeys, subs.Keys);
    projected := projected + added;
    SizeAfter(subs.Keys, removeKeys, upsertKeys);
    ghost var after := Batched(subs, upsert, remove);
    assert after.Keys == subs.Keys - removeKeys + upsertKeys;
    assert |after.Keys| == |after|;
  }

  method Apply(subs: Subscriptions, upsert: seq<Subscription>, remove: seq<TrackRef>) returns (after: Subscriptions)
    ensures after == Batched(subs, upsert, remove)
  {
    after := subs;
    for i := 0 to |remove|
      invariant after == subs - (set t | t in remove[..i])
    {
      assert remove[..i + 1] == remove[..i] + [remove[i]];
      after := after - {remove[i]};
    }
    assert remove[..|remove|] == remove;
    ghost var kept := after;
    for i := 0 to |upsert|
      invariant after == Upserted(kept, upsert[..i])
    {
      assert upsert[..i + 1][..i] == upsert[..i];
      after := after[upsert[i].track := upsert[i]];
    }
    assert upsert[..|upsert|] == upsert;
  }

  lemma PutMemberBack(d: Directory, room: string, pid: string)
    requires Present(d, room, pid)
    ensures SetMember(d, room, pid, d.rooms[room][pid]) == d
  {
    PutBack(d.rooms[room], pid);
    PutBack(d.rooms, room);
  }

  class Registry {
    var rooms: map<string, Room>
    var nextParticipantSeq: nat

    ghost function Value(): Directory
      reads this
    {
      Directory(rooms, nextParticipantSeq)
    }

    constructor ()
      ensures Value() == NOBODY
    {
      rooms := map[];
      nextParticipantSeq := 0;
    }

    method Join(roomId: string, name: string) returns (r: Result<string, RoomError>)
      modifies this
      ensures (Value(), r) == Rooms.Join(old(Value()), roomId, name)
    {
      if roomId == "" || |roomId| > MAX_ID_LEN {
        return Err(InvalidInput);
      }
      if name == "" || |name| > MAX_NAME_LEN {
        return Err(InvalidInput);
      }
      if roomId !in rooms {
        if |rooms| >= MAX_ROOMS {
          return Err(TooManyRooms);
        }
        rooms := rooms[roomId := map[]];
      }
      if |rooms[roomId]| >= MAX_PARTICIPANTS_PER_ROOM {
        return Err(RoomFull);
      }
      var pid := ParticipantId(nextParticipantSeq);
      PutTwice(old(rooms), roomId, map[], map[pid := Member(name, map[], map[], None)]);
      nextParticipantSeq := nextParticipantSeq + 1;
      rooms := rooms[roomId := rooms[roomId][pid := Member(name, map[], map[], None)]];
      r := Ok(pid);
    }

    method Leave(roomId: string, pid: string) returns (removed: bool)
      modifies this
      ensures (Value(), removed) == Rooms.Leave(old(Value()), roomId, pid)
    {
      if roomId !in rooms {
        return false;
      }
      removed := pid in rooms[roomId];
      var members := rooms[roomId] - {pid};
      if members == map[] {
        rooms := rooms - {roomId};
      } else {
        rooms := rooms[roomId := members];
      }
    }

    method Publish(roomId: string, pid: string, trackId: string, meta: TrackMeta)
      returns (r: Result<PublishOutcome, RoomError>)
      modifies this
      ensures (Value(), r) == Rooms.Publish(old(Value()), roomId, pid, trackId, meta)
    {
      if trackId == "" || |trackId| > MAX_ID_LEN {
        return Err(InvalidInput);
      }
      if roomId !in rooms {
        return Err(NoSuchRoom);
      }
      if pid !in rooms[roomId] {
        return Err(NoSuchParticipant);
      }
      var kept := Trimmed(meta);
      var participant := rooms[roomId][pid];
      var isNew := trackId !in participant.tracks;
      if isNew && |participant.tracks| >= MAX_TRACKS_PER_PARTICIPANT {
        PutMemberBack(Value(), roomId, pid);
        return Err(TooManyTracks);
      }
      var muteChange := None;
      if !isNew && participant.tracks[trackId].muted != kept.muted {
        muteChange := Some(kept.muted);
      }
      participant := participant.(tracks := participant.tracks[trackId := kept]);
      rooms := rooms[roomId := rooms[roomId][pid := participant]];
      r := Ok(PublishOutcome(isNew, muteChange));
    }

    method Unpublish(roomId: string, pid: string, trackId: string) returns (r: Result<bool, RoomError>)
      modifies this
      ensures (Value(), r) == Rooms.Unpublish(old(Value()), roomId, pid, trackId)
    {
      if roomId !in rooms {
        return Err(NoSuchRoom);
      }
      if pid !in rooms[roomId] {
        return Err(NoSuchParticipant);
      }
      var participant := rooms[roomId][pid];
      var existed := trackId in participant.tracks;
      participant := participant.(tracks := participant.tracks - {trackId});
      rooms := rooms[roomId := rooms[roomId][pid := participant]];
      r := Ok(existed);
    }

    method UpdateSubscriptions(roomId: string, pid: string, upsert: seq<Subscription>,
                               remove: seq<TrackRef>, revision: nat)
      returns (r: Result<nat, RoomError>)
      modifies this
      ensures (Value(), r) == Rooms.UpdateSubscriptions(old(Value()), roomId, pid, upsert, remove, revision)
    {
      if roomId !in rooms {
        return Err(NoSuchRoom);
      }
      if pid !in rooms[roomId] {
        return Err(NoSuchParticipant);
      }
      var participant := rooms[roomId][pid];
      PutMemberBack(Value(), roomId, pid);
      if participant.applied.Some? && revision <= participant.applied.value {
        return Err(StaleRevision(participant.applied.value));
      }
      var projected := Project(participant.subscriptions, upsert, remove);
      if projected > MAX_SUBSCRIPTIONS_PER_PARTICIPANT {
        return Err(TooManySubscriptions);
      }
      var after := Apply(participant.subscriptions, upsert, remove);
      rooms := rooms[roomId := rooms[roomId][pid := participant.(subscriptions := after, applied := Some(revision))]];
      r := Ok(revision);
    }
  }
}
