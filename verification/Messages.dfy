/** The signaling messages, as far as rooms, tracks and subscriptions are concerned. */
module Messages {
  import opened Wrappers
  import opened Rooms

  /** A track on the wire. */
  datatype Track = Track(id: string, kind: TrackKind, source: TrackSource, muted: bool, layers: seq<Layer>, mid: string)

  /** A room member on the wire. */
  datatype Entry = Entry(id: string, name: string, tracks: seq<Track>)

  datatype TrackPublished = TrackPublished(participantId: string, track: Track)

  datatype TrackMuted = TrackMuted(track: TrackRef, muted: bool)

  datatype RoomDelta = RoomDelta(
    joined: seq<Entry>,
    left: seq<string>,
    published: seq<TrackPublished>,
    unpublished: seq<TrackRef>,
    muteChanges: seq<TrackMuted>)

  const NO_CHANGE := RoomDelta([], [], [], [], [])

  datatype Reason = UnspecifiedReason | ClientLeft

  datatype ServerMessage =
    | JoinResponse(participantId: string, participants: seq<Entry>)
    | Delta(delta: RoomDelta)
    | SubscriptionUpdate(appliedRevision: nat)
    | Chat(id: string, participantId: string, displayName: string, text: string)
    | Disconnect(reason: Reason)

  datatype Claims = Claims(roomId: string, displayName: string)

  datatype WireSubscription = WireSubscription(track: Option<TrackRef>, maxLayer: Option<Layer>, priority: nat)

  datatype ClientMessage =
    | JoinRequest(claims: Option<Claims>) // what the token verifies to
    | UpdateLocalTracks(publish: seq<Track>, unpublish: seq<string>)
    | UpdateSubscriptions(upsert: seq<WireSubscription>, remove: seq<TrackRef>, revision: nat)
    | SendChat(text: string, inBudget: bool) // whether the token bucket holds a token
    | LeaveRequest
    | Transport // session descriptions, candidates and pongs
    | Empty

  /** What the adapter must do for a session. */
  datatype Output = ToSelf(message: ServerMessage) | ToPeers(message: ServerMessage) | Close
}
