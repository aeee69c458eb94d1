/** What a client says to the server, in terms of its picture of the room and its own tracks. */
module ClientEffects {
  import opened ClientSubscriptions
  import opened KeyOrder
  import opened Messages
  import opened Rooms
  import opened RoomViews
  import opened SubscriptionKeys
  import opened Wrappers

  /** Somebody else in the picture has this track, of this kind. */
  ghost predicate Listing(v: View, self: string, ref: TrackRef, kind: TrackKind) {
    exists p, j :: p in v && v[p].id == ref.participantId && v[p].id != self
      && 0 <= j < |v[p].tracks| && v[p].tracks[j].id == ref.trackId && v[p].tracks[j].kind == kind
  }

  ghost predicate AllListed(v: View, self: string, desired: map<string, Wanted>) {
    forall k :: k in desired ==> Listing(v, self, desired[k].ref, desired[k].kind)
  }

  lemma {:induction false} WantedFromListed(v: View, self: string, desired: map<string, Wanted>, p: string, n: nat)
    requires p in v && v[p].id != self && n <= |v[p].tracks| && AllListed(v, self, desired)
    ensures AllListed(v, self, WantFrom(desired, v[p].id, v[p].tracks[..n]))
  {
    var ts := v[p].tracks;
    if n > 0 {
      WantedFromListed(v, self, desired, p, n - 1);
      assert ts[..n][..n - 1] == ts[..n - 1] && ts[..n][n - 1] == ts[n - 1];
      assert Listing(v, self, TrackRef(v[p].id, ts[n - 1].id), ts[n - 1].kind);
    }
  }

  lemma {:induction false} WantedIsListed(v: View, ids: seq<string>, self: string)
    requires forall i :: 0 <= i < |ids| ==> ids[i] in v
    ensures AllListed(v, self, WantAll(v, ids, self))
  {
    if ids != [] {
      var n := |ids| - 1;
      WantedIsListed(v, ids[..n], self);
      if v[ids[n]].id != self {
        WantedFromListed(v, self, WantAll(v, ids[..n], self), ids[n], |v[ids[n]].tracks|);
        assert v[ids[n]].tracks[..|v[ids[n]].tracks|] == v[ids[n]].tracks;
      }
    }
  }

  /** A request for a track: the lowest layer, and audio before video before anything else. */
  ghost predicate AsksFor(s: WireSubscription, v: View, self: string) {
    && s.track.Some? && s.maxLayer == Some(Layer(0, 0))
    && (s.priority == 200 || s.priority == 100 || s.priority == 50)
    && Listing(v, self, s.track.value, if s.priority == 200 then Audio else if s.priority == 100 then Video else UnspecifiedKind)
  }

  lemma DesiredIsListed(v: View, self: string)
    ensures AllListed(v, self, Desired(v, self))
  {
    WantedIsListed(v, Listed(v.Keys), self);
  }

  /** A client asks once or not at all, under the next revision, and only for tracks that somebody else has. */
  lemma AskedFor(cl: Client, open: bool)
    ensures var (cl', sent) := Subscribe(cl, open);
            && |sent| <= 1 && (sent == [] ==> cl' == cl) && (!open || !cl.joined ==> sent == [])
            && (sent != [] ==>
                  && sent[0].UpdateSubscriptions? && sent[0].revision == cl.subRevision + 1 == cl'.subRevision
                  && forall i :: 0 <= i < |sent[0].upsert| ==> AsksFor(sent[0].upsert[i], cl.view, cl.selfId))
  {
    var desired := Desired(cl.view, cl.selfId);
    DesiredIsListed(cl.view, cl.selfId);
    UpsertsAskFor(cl.view, cl.selfId, desired, Listed(desired.Keys - cl.requested));
  }

  lemma UpsertsAskFor(v: View, self: string, desired: map<string, Wanted>, keys: seq<string>)
    requires AllListed(v, self, desired) && forall k :: k in keys ==> k in desired
    ensures forall i :: 0 <= i < |keys| ==> AsksFor(Upserts(desired, keys)[i], v, self)
  {
    forall i | 0 <= i < |keys| ensures AsksFor(Upserts(desired, keys)[i], v, self) {
      assert keys[i] in desired;
    }
  }

  /**
   * A client answers a join response by publishing exactly its local tracks, if it
   * has any, and then asking for what it sees; over a closed channel it says nothing.
   */
  lemma AnswerAnnounces(cl: Client, pid: string, es: seq<Entry>, name: string, local: seq<Track>, open: bool)
    ensures var sent := OnJoinResponse(cl, pid, es, name, local, open).1;
            var first := if open && local != [] then 1 else 0;
            && (!open ==> sent == [])
            && first <= |sent| <= first + 1
            && (first == 1 ==> sent[0] == UpdateLocalTracks(local, []))
            && forall i :: first <= i < |sent| ==> sent[i].UpdateSubscriptions?
  {
    AskedFor(Answering(cl, pid, es, name, local), open);
  }
}
