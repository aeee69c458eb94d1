# Verification of wroom's media edge, signaling and client session

wroom is a video-conferencing server (Rust) with a browser client (TypeScript).
This project models the parts of it whose correctness is a matter of protocol
and state, in Dafny, and proves what they are for. It stands beside the
repository: nothing here is compiled into it.

    dafny verify dfyconfig.toml

## What is modelled

Every component appears twice: once as the values and functions that say what
it means, and, where the source works by updating things in place, once more as
a class or an array-writing method with the source's fields and loops, proved to
compute exactly those functions. The theorems are about the functions, and the
method contracts carry them over to the objects.

Where writer and reader share a helper, a round trip alone would not notice both
being wrong together. So every format also has its layout octet by octet
(`SrtpWire`, `RtpWire`, `RtpElements`, `RtcpWire`, `TwccBodies`, `StunWire`,
`IceWire`), with the parsers accepting exactly what is laid out like that, and
every state change has its effect said in terms of what a caller finds afterwards
(`RoomEffects`, `SessionEffects`, `IceEffects`, `ClientEffects`, `RtpRelay`,
`TileAreas`).

* **SRTP** (`srtp.rs`; RFC 3711, RFC 7714). The index window is a word of bits
  that stands for a set of packet indices; the stream table, with its last-hit
  hint, stands for a map of at most 2048 entries. Over any run of a sender no IV
  is spent twice, and under AES-CM no two keystream blocks have the same input.
  Over any delivery of the media and control packets a sender protected, mixed
  in one context, with loss, reordering, repetition and forgeries, the receiver
  returns each packet once and calls everything else an error. SSRC and sequence
  number are those the RTP parser reads, and what each tag covers is said for both
  transforms. The ciphers, HMAC and key derivation are parameters of which only
  sizes and "open undoes seal" are asked.
* **RTP forwarding** (`rtp.rs`; RFC 3550, RFC 8285). Parsing what the rewriting
  pass wrote gives the header, CSRCs, padding, payload and extension list that
  was asked for, *if and only if* the request is expressible. The condition is
  about the arguments: TWCC and MID are not both synthesised, the MID fits the
  element form, the block fits its 16-bit length. The list is given in terms of the
  two legs' id maps: survivors in order, TWCC and MID stamped, all else kept.
* **RTCP** (`rtcp.rs`; RFC 3550, RFC 4585, RFC 5104). All builders against all
  views: a compound of any packets the builders can write is walked back in
  order, each with its field values. For transport-wide feedback the validating
  scanner and the lazy decoder agree on every accepted body, whatever its mix of
  chunks, and the sizing pass equals the writing pass; a body of any mix of runs and
  vectors decodes to what it says, and nothing else is accepted.
* **Signaling** (`room.rs`, signaling `session.rs`, `ws.rs`, and the client's
  `session.ts`). One locked hub step handles a message and appends to queues.
  For every run of any number of sockets: a client that drains its queue holds
  its room's members and everybody else's tracks; ids are never reused; every
  leaving is announced once; the tracks kept for a participant are those it last
  published, as it last described them; and a client's subscriptions at the server
  are exactly the tracks that the others publish, for a client that has lost and
  replaced its socket any number of times as well.
* **STUN and ICE-lite** (`ice.rs`; RFC 5389, RFC 8445). Builder against parser,
  integrity and fingerprint under later length patching, the least-recently-seen
  table with its timer, and the agent over whole runs and whole datagrams: a
  check built under the password succeeds, and nobody without it is ever tracked
  or selected.
* **Smaller cores**: the subscriber-offer queue (`webrtc.ts`), tile packing over
  the reals (`layout.ts`), payload selection and the shape of an SDP answer
  (`sdp.rs`).

## Where the code departs from its comments

The model follows the code. Each of these is a theorem.

* A synthesised TWCC value is not skipped over (`rtp.rs:607`), so a MID
  synthesised behind it is written on top of it, and the element list read back
  is never the intended one, whatever the MID value:
  `RtpRewriteTheorem.BothSynthesisedIsLost`, as one concrete packet
  `RtpForwarding.MidLandsOnTwcc`. An empty MID in the one-byte form, and one over
  255 octets, are lost as well: `RtpRewriteTheorem.InexpressibleLengthIsLost`.
* The sender's index does not always match "what the receiver's guess concludes"
  (`srtp.rs:1120-1123`): `IndexWindows.SenderAndReceiverAgree` gives exactly the
  sequence numbers where they differ.
* The reserved octets of a FIR entry do not "stay zero" (`rtcp.rs:892`): they
  keep what the buffer held, `RtcpWriter.ReservedAsFound`.
* `handle_timeout` at the instant that `poll_timeout` names purges nothing
  (`ice.rs:904-924`): `IceTable.AtTheDeadlineNothingExpires`.
* A second `join` ends the session but leaves its participant in the room, where
  the others see it, until the socket closes: `HubRuns.SecondJoinLeavesTheEntry`,
  as one concrete run `HubRuns.AliceIsStranded`. No other message does that,
  `HubRuns.StrandedIffSecondJoin`, and in every run a room's member lacks a queue
  exactly when its session is closed, `HubRuns.StrandedIffClosed`.
* When a socket is lost after its join response but before the reconnect loop has
  settled, the next join response is not marked as a rejoin (`session.ts:399-455`),
  and the new server entry lacks every track that was asked for before:
  `Rejoin.LossAfterAnswerLosesTracks`, as one concrete run
  `Rejoin.TwoLossesInOneReconnect`, and exactly when it goes right
  `Rejoin.RejoinMirrorsIff`. After a marked response the whole session that
  follows goes right: `Rejoin.RejoinedSessionMirrors`.
* A track id with a slash can be subscribed to but not unsubscribed from
  (`session.ts:746-752`), and a view of more than 2048 remote tracks is refused
  as a whole (`room.rs:399-401`): the exact condition is the second half of
  `Mirroring.OneRound`, and one concrete round is `Mirroring.SlashedStaysSubscribed`.

## Model

| member | source | states |
|---|---|---|
| `IndexWindows.RecordRepresents` | server/crates/wroom-edge/src/srtp.rs:1156-1181 | recording an index turns the window of a set of indices into the window of that set with the index added, for moves of 64 and more as well |
| `IndexWindows.CheckMeansNew` | server/crates/wroom-edge/src/srtp.rs:1140-1154 | the check passes exactly for an index that is not in the set and fewer than 64 behind its highest member |
| `IndexWindows.GuessIsRightIffWithinReach` | server/crates/wroom-edge/src/srtp.rs:1095-1118 | the estimate from the low 16 bits is the index if and only if the index is within 2^15 of the highest one on the circle of 2^48, ties going to the same rollover |
| `IndexWindows.GuessIsNearest` | server/crates/wroom-edge/src/srtp.rs:1095-1118 | an index strictly within 2^15 of the highest is estimated right, and no other index with its low 16 bits is that close |
| `IndexWindows.SenderAndReceiverAgree` | server/crates/wroom-edge/src/srtp.rs:1120-1138 | sender and receiver conclude the same index exactly outside the region where the receiver steps back a rollover |
| `IndexWindows.SendIndexExhausted` | server/crates/wroom-edge/src/srtp.rs:1124-1138 | the sender refuses exactly when a forward wrap meets the last rollover; otherwise its index has 48 bits and ends in the sequence number |
| `IndexWindows.IndexWindow.Guess` | server/crates/wroom-edge/src/srtp.rs:1098-1118 | the branches on the mutable window compute the estimate the lemmas above are about |
| `IndexWindows.IndexWindow.SendIndex` | server/crates/wroom-edge/src/srtp.rs:1124-1138 | the same for the sender's index, refusal included |
| `IndexWindows.IndexWindow.Check` | server/crates/wroom-edge/src/srtp.rs:1142-1154 | the same for the replay check |
| `IndexWindows.IndexWindow.Record` | server/crates/wroom-edge/src/srtp.rs:1158-1181 | the two fields after recording are the recorded window |
| `SrtpStreams.ContentsHas` | server/crates/wroom-edge/src/srtp.rs:1186-1221 | slots without duplicates are a finite map: an SSRC has an entry exactly when some slot holds it, and the entry is that slot's |
| `SrtpStreams.CountIsSize` | server/crates/wroom-edge/src/srtp.rs:1203-1205 | the number of occupied slots is the size of that map |
| `SrtpStreams.StoreUpdates` | server/crates/wroom-edge/src/srtp.rs:1230-1252 | writing a slot changes the map at that SSRC alone and makes no duplicate |
| `SrtpStreams.Streams.Find` | server/crates/wroom-edge/src/srtp.rs:1207-1221 | with any hint, finds a slot exactly when the map has the SSRC |
| `SrtpStreams.Streams.Get` | server/crates/wroom-edge/src/srtp.rs:1223-1225 | the map's entry, hint or not |
| `SrtpStreams.Streams.GetMutOrInsert` | server/crates/wroom-edge/src/srtp.rs:1227-1252 | refused exactly when the SSRC is new and 2048 entries are there; otherwise the old entry or a fresh one, and no entry is ever lost |
| `SrtpPacket.RtpIvInjective` | server/crates/wroom-edge/src/srtp.rs:975-985 | equal GCM IVs under one salt mean equal SSRC and index |
| `SrtpPacket.RtcpIvInjective` | server/crates/wroom-edge/src/srtp.rs:987-997 | the same for SRTCP |
| `SrtpPacket.CmRtpIvInjective` | server/crates/wroom-edge/src/srtp.rs:999-1011 | equal AES-CM IV prefixes mean equal SSRC and 48-bit index |
| `SrtpPacket.CmRtcpIvInjective` | server/crates/wroom-edge/src/srtp.rs:1013-1024 | the same for the 31-bit SRTCP index |
| `SrtpPacket.CounterBlocksDisjoint` | server/crates/wroom-edge/src/srtp.rs:999-1024 | keystreams of at most 2^16 blocks under different prefixes share no AES input block |
| `SrtpPacket.RtpRoundTrip` | server/crates/wroom-edge/src/srtp.rs:312-485 | an RTP packet protected at an index keeps its header readable and comes back unchanged when unprotected at that index, under both transforms |
| `SrtpPacket.RtcpRoundTrip` | server/crates/wroom-edge/src/srtp.rs:508-726 | an RTCP packet comes back unchanged, sealed with the E flag set or clear, its index travelling in the trailer in each profile's order and its first eight octets in the clear |
| `SrtpFields.HeaderIsParsed` | server/crates/wroom-edge/src/srtp.rs:1037-1063 | the header that SRTP cuts off is the one the RTP parser finds: for every buffer that parses, the same length, sequence number and SSRC |
| `SrtpFields.IvIsLaidOut` | server/crates/wroom-edge/src/srtp.rs:975-1024 | every IV, octet by octet: the salt, bit by bit exclusive-ored with zeros, SSRC and index where each transform puts them |
| `Bytes.XorByteDiffers` | server/crates/wroom-edge/src/srtp.rs:975-1024 | a bit of the exclusive or is set exactly where the two octets differ |
| `SrtpSend.NoIvReuse` | server/crates/wroom-edge/src/srtp.rs:412-726 | over any calls on one context, any mix of SSRCs, RTP and RTCP, all IVs spent under one session key differ |
| `SrtpSend.NoKeystreamReuse` | server/crates/wroom-edge/src/srtp.rs:455-485 | under AES-CM even the AES input blocks differ, for packets of at most 2^16 blocks |
| `SrtpFields.SentUnderItsFields` | server/crates/wroom-edge/src/srtp.rs:412-485 | what is protected goes out under the SSRC and an index ending in the sequence number that the RTP parser reads from it |
| `SrtpFields.MediaIsSentIff` | server/crates/wroom-edge/src/srtp.rs:412-485 | a media packet is refused exactly for a malformed header, a new SSRC at 2048 entries, or an exhausted rollover |
| `SrtpFields.ControlIsSentIff` | server/crates/wroom-edge/src/srtp.rs:612-726 | over any run, a control packet goes out under an index that is the number of earlier ones of its SSRC, refused exactly when it is too short, the table is full or 2^31 were sent |
| `SrtpWire.EmissionsAreLaidOut` | server/crates/wroom-edge/src/srtp.rs:412-726 | over any run, every packet sent octet by octet: what is in the clear, what is encrypted under the IV of its emission, where tag and index word stand, and what the tag covers under each transform |
| `SrtpWire.MediaNotSent` | server/crates/wroom-edge/src/srtp.rs:412-485 | why a media packet is not sent, in the order of reasons, the table staying as it was |
| `SrtpWire.ControlNotSent` | server/crates/wroom-edge/src/srtp.rs:612-726 | the same for a control packet |
| `SrtpSend.Sender.EncryptRtp` | server/crates/wroom-edge/src/srtp.rs:412-485 | the buffer and the table afterwards are those of one step of the run: the protected packet in place, or an error with buffer and map untouched |
| `SrtpSend.Sender.EncryptRtcp` | server/crates/wroom-edge/src/srtp.rs:612-726 | the same for RTCP, with tag and index word in the profile's order |
| `SrtpReceive.EstimateIsRight` | server/crates/wroom-edge/src/srtp.rs:324-336 | a genuine packet strictly within 2^15 of the highest one delivered before it, or the first one at rollover 0, is estimated right |
| `SrtpReceive.DeliveredExactlyOnce` | server/crates/wroom-edge/src/srtp.rs:312-601 | over any timely run of media and control packets into one context, with loss, reordering, repetition and forgeries, a delivery yields its plaintext exactly when it is the first of its index for its SSRC and kind and fewer than 64 behind; any other genuine packet is a replay |
| `SrtpReceive.OrderOfChecksIsInvisible` | server/crates/wroom-edge/src/srtp.rs:312-397 | checking replay before authentication (GCM) or after (AES-CM) accepts the same packets, and an error changes no state |
| `SrtpReceive.ControlDeliveredExactlyOnce` | server/crates/wroom-edge/src/srtp.rs:508-601 | for any sequence of control packets in any order, both E forms, with repetition and forgeries, the same holds with no demand on timing but room for their SSRCs |
| `SrtpFields.ReceivedUnderItsFields` | server/crates/wroom-edge/src/srtp.rs:300-397 | a delivered media packet was opened and recorded under the SSRC and sequence number that the RTP parser reads from it |
| `SrtpFields.ControlReceivedUnderItsFields` | server/crates/wroom-edge/src/srtp.rs:496-601 | a delivered control packet was opened and recorded under the SSRC in its octets 4 to 7 and the 31-bit index in its trailer |
| `SrtpWire.OpensIff` | server/crates/wroom-edge/src/srtp.rs:339-397 | a media packet is opened under an index exactly when its tag is right for header, body and, under AES-CM, the rollover counter |
| `SrtpWire.ControlOpensIff` | server/crates/wroom-edge/src/srtp.rs:508-601 | a control packet exactly when its tag is right for header, body and index word, read where the transform puts it; it is decrypted exactly when the word's top bit says so |
| `SrtpWire.MediaOutcome` | server/crates/wroom-edge/src/srtp.rs:300-397 | what becomes of any media packet with a whole header before its tag: replayed, unauthenticated, without room, or taken and recorded, GCM looking at the index first and AES-CM at the tag |
| `SrtpWire.ControlOutcome` | server/crates/wroom-edge/src/srtp.rs:496-601 | the same for a control packet |
| `SrtpReceive.Receiver.DecryptRtp` | server/crates/wroom-edge/src/srtp.rs:300-397 | result and table are those of one receiving step, and on success the plaintext is the front of the caller's buffer |
| `SrtpReceive.Receiver.DecryptRtcp` | server/crates/wroom-edge/src/srtp.rs:496-601 | the same for RTCP, E flag set or clear |
| `SrtpEndToEnd.WhatIsSentIsDeliveredOnce` | server/crates/wroom-edge/src/srtp.rs:300-726 | for any run of a sender, media and control mixed, and any timely choice of deliveries among its packets and injected octets, the receiver returns exactly the first delivery of each emission that is fewer than 64 behind the highest of its SSRC and kind |
| `RtpPackets.ElementsAreExpressible` | server/crates/wroom-edge/src/rtp.rs:680-725 | every extension element ever yielded has a nonzero id and a length its form can express |
| `RtpPackets.ExtIter.Next` | server/crates/wroom-edge/src/rtp.rs:680-725 | the iterator yields the elements of the block one by one, padding skipped, until the reserved id or an overrun |
| `RtpWire.WireReads` | server/crates/wroom-edge/src/rtp.rs:196-330 | every packet laid out with given fields parses, and the accessors read all of them: marker, payload type, sequence number, timestamp, SSRC, CSRCs, extension area, payload and padding |
| `RtpWire.PacketIff` | server/crates/wroom-edge/src/rtp.rs:196-250 | an octet string parses exactly when it is laid out like that |
| `RtpElements.LaidReads` | server/crates/wroom-edge/src/rtp.rs:680-725 | any sequence of elements and padding octets yields its elements in order, whatever stands behind the reserved id, the cut-off element or the end that stops the list |
| `RtpElements.EveryAreaIsLaid` | server/crates/wroom-edge/src/rtp.rs:680-725 | every octet string is such an area |
| `RtpElements.PacketElements` | server/crates/wroom-edge/src/rtp.rs:300-345 | a packet with such an area shows those elements in the one-byte form under 0xBEDE, in the two-byte form under 0x1000 to 0x100F, and none under any other profile |
| `RtpRewriteTheorem.DecodeEncoded` | server/crates/wroom-edge/src/rtp.rs:575-595 | any list of elements that fit the form decodes back to itself, whatever follows it |
| `RtpRewriteTheorem.InexpressibleLengthIsLost` | server/crates/wroom-edge/src/rtp.rs:610-622 | a MID that the form's length field cannot say is never read back |
| `RtpRewriteTheorem.BothSynthesisedIsLost` | server/crates/wroom-edge/src/rtp.rs:596-622 | when TWCC and MID are both synthesised the intended list is never read back, whatever the MID |
| `RtpForwarding.ForwardingIsFaithfulIffExpressible` | server/crates/wroom-edge/src/rtp.rs:462-629 | for every parsed packet and every rewriting, parsing the output gives the requested header, the source's marker, CSRCs, padding and payload, and exactly the planned elements in order, if and only if the rewriting is expressible |
| `RtpRelay.DeliversIffExpressible` | server/crates/wroom-edge/src/rtp.rs:462-629 | the same with the subscriber's element list said outright: survivors in source order under the id that the outgoing leg gives their kind, TWCC and MID stamped when asked for and every other value kept, and a TWCC and a MID element behind them if asked for and not among them |
| `RtpRelay.ForwardedIsRelayed` | server/crates/wroom-edge/src/rtp.rs:462-629 | and in the right form of block: two-byte where the source or some element calls for it, one-byte otherwise |
| `RtpRelay.StampsAreCurrent` | server/crates/wroom-edge/src/rtp.rs:575-595 | every element under the outgoing TWCC id holds the sequence number asked for, every one under the outgoing MID id the MID, whatever the source carried |
| `RtpRelay.ForwardedSize` | server/crates/wroom-edge/src/rtp.rs:467-531 | the extension block is no longer than its elements padded to words |
| `RtpRelay.OverlapSays` | server/crates/wroom-edge/src/rtp.rs:596-622 | the octets when TWCC and MID are both synthesised: the MID right behind the TWCC header, on top of its value |
| `RtpForwarding.MidLandsOnTwcc` | server/crates/wroom-edge/src/rtp.rs:596-622 | for one bare packet, TWCC 0x0102 and MID "a", the output parses to the single element with value 0x1061 |
| `RtpRewriter.RewriteInto` | server/crates/wroom-edge/src/rtp.rs:462-629 | succeeds exactly when the buffer holds the needed octets, which are the length returned, and then the buffer's front is the output; otherwise the buffer is untouched |
| `RtpRewriter.SizePass` | server/crates/wroom-edge/src/rtp.rs:467-531 | the first pass computes, in one loop, form, size and synthesised elements of what the second will write |
| `Rooms.JoinKeepsSound` | server/crates/wroom-core/src/room.rs:247-271 | joining keeps every cap, no room empty, every id issued and in one room only |
| `Rooms.LeaveKeepsSound` | server/crates/wroom-core/src/room.rs:275-284 | leaving does, removing the room with its last member |
| `Rooms.PublishKeepsSound` | server/crates/wroom-core/src/room.rs:289-323 | publishing does, with layers and mid cut to their bounds |
| `Rooms.UnpublishKeepsSound` | server/crates/wroom-core/src/room.rs:326-334 | unpublishing does |
| `Rooms.UpdateKeepsSound` | server/crates/wroom-core/src/room.rs:368-411 | a subscription batch does |
| `Rooms.NextIdIsNew` | server/crates/wroom-core/src/room.rs:264-265 | the id about to be given out is nobody's |
| `Rooms.LeaveUndoesJoin` | server/crates/wroom-core/src/room.rs:247-284 | an admitted participant was in no room, and its leaving restores all rooms |
| `Rooms.JoinAdmitsIff` | server/crates/wroom-core/src/room.rs:247-263 | admission happens exactly when both names fit and neither the room cap nor the member cap is reached |
| `Registries.Project` | server/crates/wroom-core/src/room.rs:383-399 | the size counted without applying the batch is the size after applying it, duplicates in either list notwithstanding |
| `Registries.Registry.Join` | server/crates/wroom-core/src/room.rs:247-271 | the registry after the in-place update is the joined directory |
| `Registries.Registry.Leave` | server/crates/wroom-core/src/room.rs:275-284 | the same for leaving |
| `Registries.Registry.Publish` | server/crates/wroom-core/src/room.rs:289-323 | the same for publishing, with novelty and mute change reported |
| `Registries.Registry.Unpublish` | server/crates/wroom-core/src/room.rs:326-334 | the same for unpublishing |
| `Registries.Registry.UpdateSubscriptions` | server/crates/wroom-core/src/room.rs:368-411 | the whole batch with removals first, or nothing of it and the reason |
| `RoomEffects.JoinAdds` | server/crates/wroom-core/src/room.rs:247-271 | an admitted participant is there under the given name, with nothing published or subscribed, and everybody else is as before |
| `RoomEffects.LeaveTakesAway` | server/crates/wroom-core/src/room.rs:275-284 | a leaver is gone and nobody else, and the answer says whether it was there |
| `RoomEffects.PublishStores` | server/crates/wroom-core/src/room.rs:289-323 | a publish is accepted exactly when id, participant and track cap allow; then the track has the given kind, source and flag and the cut layers and mid, everything else is as before, and novelty and flag change are reported exactly |
| `RoomEffects.PublishRefusal` | server/crates/wroom-core/src/room.rs:289-323 | a refused publish changes nothing and names the reason |
| `RoomEffects.UnpublishTakesAway` | server/crates/wroom-core/src/room.rs:326-334 | an unpublished track is gone, and nothing else |
| `RoomEffects.UpdateApplies` | server/crates/wroom-core/src/room.rs:368-411 | a batch leaves for each track the last request for it, or what was held and not removed; it is refused exactly for a revision not above the last applied one or a result over 2048, and then nothing changes |
| `TrackLists.ChangedLists` | server/crates/wroom-signaling/src/session.rs:271-332 | a peer's track list that showed the registry's tracks shows them again, without duplicates, after folding the delta of any batch of publishes, updates and unpublishes |
| `RoomDeltas.DeltaInItsWords` | server/crates/wroom-signaling/src/session.rs:268-332 | the delta of a batch carries only tracks of the batch, verbatim and new, flags that the batch set, and withdrawals that it asked for |
| `RoomDeltas.SnapshotTells` | server/crates/wroom-signaling/src/session.rs:591-623 | a joiner's snapshot has one entry for each member, under its name, with each of its tracks once and every field of it as registered |
| `RoomViews.SnapshotAgrees` | server/crates/wroom-signaling/src/session.rs:610-623 | a joiner's snapshot shows exactly the room |
| `RoomViews.JoinedAgrees` | web/src/lib/session.ts:615-623 | folding a joined delta agrees with the room that has the newcomer |
| `RoomViews.LeftAgrees` | web/src/lib/session.ts:624-630 | folding a left delta agrees with the room without that member |
| `RoomViews.ChangeAgrees` | web/src/lib/session.ts:631-662 | folding the delta of a track change agrees with the changed room |
| `RoomViews.SilentChangeAgrees` | server/crates/wroom-signaling/src/session.rs:325-331 | a batch whose delta is empty changed nothing that peers show, so sending nothing is right |
| `RoomViews.RosterAgrees` | web/src/lib/session.ts:545-554 | the picture made of a join response agrees with the room, the client's own fallback entry never being needed |
| `Sessions.HandleKeepsSound` | server/crates/wroom-signaling/src/session.rs:148-158 | whatever message arrives in whatever state, the registry keeps its invariant |
| `SessionObjects.Session.Handle` | server/crates/wroom-signaling/src/session.rs:148-444 | the session object and the registry it drives, track by track, end in the state, and with the outputs, of the handling function |
| `Sessions.LocalTracksEach` | server/crates/wroom-signaling/src/session.rs:268-326 | looking the participant up for every published and unpublished track comes to the same as once for the batch |
| `SessionEffects.UpdateIsAnswered` | server/crates/wroom-signaling/src/session.rs:337-370 | a subscription update brings the entry to what was asked, a missing layer meaning every layer, or changes nothing; either way the sender alone is told the revision the entry is at |
| `SessionEffects.ChatIsHeard` | server/crates/wroom-signaling/src/session.rs:377-415 | a chat line of 1 to 2000 within the budget reaches every socket joined to the room, the sender's included, once and no other, under the sender's id, name and next number; any other line is dropped |
| `SessionEffects.ViolationEnds` | server/crates/wroom-signaling/src/session.rs:148-265 | a message out of order or a join that is not admitted closes the session with no reason given and leaves the registry alone |
| `SessionEffects.LeavingEnds` | server/crates/wroom-signaling/src/session.rs:417-444 | a leaver is told so, its peers hear of it exactly if it was there, nobody else's entry changes, and its socket closes |
| `SessionObjects.Session.Close` | server/crates/wroom-signaling/src/session.rs:160-167 | the same for a socket that went away |
| `Hubs.BroadcastOneMore` | server/crates/wroom-signaling/src/ws.rs:244-275 | sending peer by peer is one message once to each open queue of the peers so far |
| `HubObjects.Hub.SendToPeers` | server/crates/wroom-signaling/src/ws.rs:244-275 | the loop over the room's members is that broadcast |
| `HubObjects.Hub.Deliver` | server/crates/wroom-signaling/src/ws.rs:193-286 | the loop over the outputs appends each to the queues it is for, in order, and deregisters on close |
| `HubObjects.Hub.Dispatch` | server/crates/wroom-signaling/src/ws.rs:101-171 | registry, outbound table, queues and session after one message are those of one hub step |
| `HubObjects.Hub.OnTransportClose` | server/crates/wroom-signaling/src/ws.rs:173-188 | the same for a closed socket |
| `Convergence.StepKeeps` | server/crates/wroom-signaling/src/ws.rs:101-287 | opening a socket, any message on any socket, and closing one each keep soundness, registration, convergence of every joined client and the count of announced leavings |
| `HubRuns.DrainedClientHoldsTheRoom` | server/crates/wroom-signaling/src/session.rs:180-332 | in every run, a joined client that drains its queue holds its room's participants under their names and, for each of the others, exactly the registry's track ids with their mute flags, none twice |
| `HubTracks.TracksAreTheLastWords` | server/crates/wroom-signaling/src/session.rs:268-326 | in every run, each track kept for a joined participant was published by the last thing its socket said about it, with that kind, source and flag; and with at most 16 ids ever published, every track whose last word published it is kept |
| `HubTracks.PeersSeeTheLastWord` | server/crates/wroom-signaling/src/session.rs:268-332 | so a drained client shows for another socket in its room only tracks that it last published, each with the flag of that publish |
| `HubRuns.ReachableHubIsSound` | server/crates/wroom-signaling/src/ws.rs:101-188 | in every run no room is empty, all caps hold, ids live in one room, and the outbound table is exactly the joined sessions, each with its own socket and in its room |
| `HubRuns.EveryOpenSocketIsServed` | server/crates/wroom-signaling/src/ws.rs:101-188 | in every run, what the hub's methods require of their callers holds for every open socket |
| `HubRuns.LeavingIsAnnouncedOnce` | server/crates/wroom-signaling/src/session.rs:417-444 | each participant's leaving is announced at most once, and exactly once as soon as it is in no room, so exactly once after its socket closed |
| `HubRuns.IdsAreNeverReused` | server/crates/wroom-core/src/room.rs:247-271 | whoever is admitted next gets an id that no socket ever had |
| `HubRuns.SecondJoinLeavesTheEntry` | server/crates/wroom-signaling/src/session.rs:244-247 | a second join closes the session and its queue registration while its participant stays in the room |
| `HubRuns.StrandedIffSecondJoin` | server/crates/wroom-signaling/src/session.rs:230-265 | in every run, the next message of a joined session leaves its participant in a room without a queue if and only if it is a join request |
| `HubRuns.StrandedIffClosed` | server/crates/wroom-signaling/src/ws.rs:101-188 | in every run, each room's member belongs to an open socket, and it is missing from the outbound table exactly when that socket's session is closed |
| `HubRuns.AliceIsStranded` | server/crates/wroom-signaling/src/session.rs:244-247 | one such run: open, join, join |
| `HubRuns.ClosedSocketLeavesNoEntry` | server/crates/wroom-signaling/src/ws.rs:173-188 | once its socket has closed a participant is in no room, a second join before that or not |
| `SubscriptionKeys.UnkeyIff` | web/src/lib/session.ts:746-752 | splitting a key gives the track back exactly when its id has no slash |
| `ClientSubscriptions.RemoteTracksAreShown` | web/src/lib/session.ts:724-735 | the desired map holds exactly the tracks listed for someone else |
| `ClientEffects.AskedFor` | web/src/lib/session.ts:724-760 | a client asks at most once, under the next revision, each time for a track that somebody else lists, in the lowest layer, audio at 200, video at 100, others at 50 |
| `ClientEffects.AnswerAnnounces` | web/src/lib/session.ts:556-592 | an open client answers a join response by publishing exactly its local tracks, if any, and then asking; a closed one says nothing |
| `CallSessions.CallSession.HandleJoinResponse` | web/src/lib/session.ts:540-605 | the object after a join response, and what it sent, are those of the response function |
| `CallSessions.CallSession.ApplyRoomDelta` | web/src/lib/session.ts:615-663 | the loops over a mutated copy compute the folded picture, stored only if something changed, then ask for what is new |
| `CallSessions.CallSession.SubscribeToRemoteTracks` | web/src/lib/session.ts:721-765 | collecting, comparing and recording in loops sends exactly the difference and records it |
| `Mirroring.BatchServes` | server/crates/wroom-core/src/room.rs:376-411 | a batch that asks for d where s was held makes the server hold d exactly when no dropped id has a slash and d is within the cap |
| `Mirroring.OneRound` | web/src/lib/session.ts:721-765 | if client and server agreed, then after one round of asking the server holds all remote tracks in view exactly under that condition, and they agree again |
| `Mirroring.SlashedStaysSubscribed` | web/src/lib/session.ts:746-752 | one round in which the track "a/b" of somebody gone stays subscribed |
| `Mirroring.SessionMirrorsFrom` | web/src/lib/session.ts:540-663 | over a whole session from any client and server entry that mirror each other, the server's set is what the client recorded and that is every remote track in its view |
| `Mirroring.SessionMirrors` | web/src/lib/session.ts:540-663 | the same for a new client on a fresh entry |
| `HubMirroring.SubscriptionsMirrorTheRoom` | server/crates/wroom-signaling/src/session.rs:337-370 | end to end, in every run, a client that starts with an empty record or one marked for discarding, answered its whole queue, and whose updates the hub has handled, is subscribed to exactly the tracks the others in its room publish |
| `HubMirroring.RejoinedClientMirrorsTheRoom` | web/src/lib/session.ts:399-455 | in particular any client that lost its socket, after any history of losses and rejoins, and was not answered since |
| `Rejoin.PendingIff` | web/src/lib/session.ts:399-455 | the rejoin mark stands exactly from a joined client's loss of its socket to the first join response after it |
| `Rejoin.RejoinMirrorsIff` | web/src/lib/session.ts:556-570 | after a join response on a new entry the server holds all remote tracks if and only if the response was marked or none of them had been asked for before; client and server are in step for all that follows if and only if, besides, an unmarked record has no slash in its track ids |
| `Rejoin.MarkedResponseMirrors` | web/src/lib/session.ts:556-597 | a marked response puts client and new entry in step, whatever was on the client's record |
| `Rejoin.RejoinedSessionMirrors` | web/src/lib/session.ts:540-663 | and so the whole session that follows mirrors, up to any later point |
| `Rejoin.LossAfterAnswerLosesTracks` | web/src/lib/session.ts:399-455 | a loss between a join response and the end of the reconnect loop leaves the next entry without the tracks asked for before |
| `Rejoin.TwoLossesInOneReconnect` | web/src/lib/session.ts:399-455 | one such run: the client sees a camera and its server entry does not have it |
| `TwccChunks.AcceptedIsExact` | server/crates/wroom-edge/src/rtcp.rs:934-985 | every accepted body has at least as many symbols as statuses, and those need exactly the delta bytes that were measured |
| `TwccSegments.SegmentReads` | server/crates/wroom-edge/src/rtcp.rs:1193-1223 | the word of every run, one-bit vector and two-bit vector is read as the symbols it stands for |
| `TwccSegments.WordIsSegment` | server/crates/wroom-edge/src/rtcp.rs:1193-1223 | every 16-bit word is the word of exactly such a segment |
| `TwccBodies.BodyReads` | server/crates/wroom-edge/src/rtcp.rs:934-985 | any mix of runs and vectors that supplies the statuses, then the deltas, then any octets, is accepted and decodes to those statuses under base plus i modulo 2^16 |
| `TwccBodies.AcceptedIff` | server/crates/wroom-edge/src/rtcp.rs:934-985 | a body is accepted exactly when it is laid out like that; an empty run before the last status is not |
| `TwccDecoder.Scan` | server/crates/wroom-edge/src/rtcp.rs:939-976 | the scanning loop ends on every input and measures chunks and deltas of the statuses announced, or finds the body too short |
| `TwccDecoder.FromBlock` | server/crates/wroom-edge/src/rtcp.rs:934-985 | accepts exactly the consistent bodies and slices them where the scan ended |
| `TwccDecoder.TwccPackets.NextSymbol` | server/crates/wroom-edge/src/rtcp.rs:1193-1223 | loads chunk after chunk and peels off the symbols of all of them in order |
| `TwccDecoder.TwccPackets.Next` | server/crates/wroom-edge/src/rtcp.rs:1229-1253 | yields the statuses in order and, when it ends, has consumed the delta slice exactly |
| `TwccDecoder.Packets` | server/crates/wroom-edge/src/rtcp.rs:1029-1042 | on every accepted body the lazy decoder yields status_count items, never fewer |
| `TwccChunkBuilder.PackedReads` | server/crates/wroom-edge/src/rtcp.rs:1108-1123 | a packed vector chunk reads back symbol by symbol, its tail symbols not received |
| `TwccFeedback.TotalFits` | server/crates/wroom-edge/src/rtcp.rs:1077-1101 | with up to 65535 statuses a packet never exceeds its length field |
| `TwccFeedback.PacketReadsBack` | server/crates/wroom-edge/src/rtcp.rs:1044-1137 | every expressible report reads back: SSRCs, reference time, feedback count, and every status under base plus i modulo 2^16 |
| `TwccGreedy.WrittenChunks` | server/crates/wroom-edge/src/rtcp.rs:1145-1168 | the next word written is a two-bit vector of seven when one of the next 14 deltas does not fit an octet, else a one-bit vector of 14, blanks behind the last status |
| `TwccGreedy.WrittenBodyIs` | server/crates/wroom-edge/src/rtcp.rs:1057-1137 | the body written, octet by octet |
| `TwccWriter.ChunkCount` | server/crates/wroom-edge/src/rtcp.rs:1160-1168 | the sizing pass counts exactly the chunks that the writing pass emits |
| `TwccWriter.Build` | server/crates/wroom-edge/src/rtcp.rs:1057-1137 | refuses too many statuses, a reference time or delta out of range, or a short buffer, without touching the buffer; otherwise writes exactly the packet |
| `RtcpBlocks.WalkCovers` | server/crates/wroom-edge/src/rtcp.rs:350-397 | on arbitrary bytes the blocks found are a prefix of the datagram, an error comes last if at all, and without one the blocks are the whole datagram |
| `RtcpBlocks.ParseIgnoresRest` | server/crates/wroom-edge/src/rtcp.rs:211-243 | what follows a block does not change how it parses |
| `RtcpWire.BlockIff` | server/crates/wroom-edge/src/rtcp.rs:211-243 | a datagram starts with a block exactly when it starts with version 2, count, type, the length of the rest in words, a body and padding that ends in its own length |
| `RtcpWire.PacketIff` | server/crates/wroom-edge/src/rtcp.rs:293-320 | and with an acceptable packet exactly when that body fits its type |
| `RtcpBlocks.WalkOfCompound` | server/crates/wroom-edge/src/rtcp.rs:350-397 | acceptable blocks laid end to end are walked back in order and nothing else |
| `RtcpBlocks.PacketIter.Next` | server/crates/wroom-edge/src/rtcp.rs:373-397 | the iterator yields that walk one result at a time and stays ended |
| `RtcpEntries.ReportReadsBack` | server/crates/wroom-edge/src/rtcp.rs:107-133 | a report block reads back with its loss count reduced to 24 signed bits |
| `RtcpEntries.ReportsKeptIff` | server/crates/wroom-edge/src/rtcp.rs:107-133 | reports read back unchanged exactly when every loss count is a 24-bit signed number |
| `RtcpPackets.WrittenReadsBack` | server/crates/wroom-edge/src/rtcp.rs:297-320 | every packet a builder can write is one acceptable block whose view gives what was asked for |
| `RtcpWire.WireIs` | server/crates/wroom-edge/src/rtcp.rs:470-896 | every packet the builders write, octet by octet |
| `RtcpWire.SenderReads` | server/crates/wroom-edge/src/rtcp.rs:411-465 | a sender report reads back whatever profile extension follows its reports |
| `RtcpWire.ReceiverReads` | server/crates/wroom-edge/src/rtcp.rs:514-541 | so does a receiver report |
| `RtcpWire.NacksRead` | server/crates/wroom-edge/src/rtcp.rs:718-753 | a NACK's entries are read as far as whole entries go |
| `RtcpWire.FirsRead` | server/crates/wroom-edge/src/rtcp.rs:836-870 | so are a FIR's, whatever their reserved octets hold |
| `RtcpPackets.CompoundReadsBack` | server/crates/wroom-edge/src/rtcp.rs:350-397 | any such packets sent as one compound are walked back in order, none missing or added, each with its field values |
| `RtcpEntries.LostIff` | server/crates/wroom-edge/src/rtcp.rs:146-160 | the packet k behind a NACK entry's first is reported exactly when k is 0 or bit k - 1 of the mask is set, modulo 2^16 |
| `SourceDescriptions.SourcesReadBack` | server/crates/wroom-edge/src/rtcp.rs:619-673 | any sources with any items, padded chunk by chunk, read back as their chunks in order |
| `SourceDescriptions.SdesChunks.Next` | server/crates/wroom-edge/src/rtcp.rs:638-673 | the iterator yields the chunks one by one and ends for good at a cut-off item list |
| `RtcpWriter.BuildSenderReport` | server/crates/wroom-edge/src/rtcp.rs:470-504 | refuses more than 31 reports or a short buffer without touching it; otherwise the buffer's front is exactly the packet that `WrittenReadsBack` is about and nothing behind it changes |
| `RtcpWriter.BuildReceiverReport` | server/crates/wroom-edge/src/rtcp.rs:544-570 | the same for receiver reports |
| `RtcpWriter.BuildCname` | server/crates/wroom-edge/src/rtcp.rs:593-617 | the same for a one-item description, refusing names over 255 octets |
| `RtcpWriter.BuildNack` | server/crates/wroom-edge/src/rtcp.rs:756-779 | the same for NACKs, refusing what the length field cannot count |
| `RtcpWriter.BuildPli` | server/crates/wroom-edge/src/rtcp.rs:810-826 | the same for PLI |
| `RtcpWriter.BuildFir` | server/crates/wroom-edge/src/rtcp.rs:872-896 | the same for FIR, each entry over what the buffer held |
| `RtcpWriter.BuiltReadsBack` | server/crates/wroom-edge/src/rtcp.rs:470-896 | whatever one of these builders wrote is one acceptable packet that its view reads as what was asked for |
| `RtcpWriter.ReservedAsFound` | server/crates/wroom-edge/src/rtcp.rs:889-894 | the reserved octets of a FIR entry are those the buffer held before |
| `StunMessages.IteratorCovers` | server/crates/wroom-edge/src/ice.rs:258-335 | on every accepted message the attribute iterator covers exactly the declared length |
| `StunMessages.WireParses` | server/crates/wroom-edge/src/ice.rs:285-335 | any attribute list written with its length parses back to itself, whatever octets follow the message |
| `StunWire.MessageReads` | server/crates/wroom-edge/src/ice.rs:258-335 | every message laid out with type, length, cookie, transaction id and attributes, filled to words with any octets, parses whatever follows it, and the iterator finds the attributes in order |
| `StunWire.ParsesIff` | server/crates/wroom-edge/src/ice.rs:285-335 | a datagram parses exactly when it starts with such a message |
| `StunWire.IntegrityIff` | server/crates/wroom-edge/src/ice.rs:469-495 | a message verifies under a key exactly when its first MESSAGE-INTEGRITY has 20 octets that are the HMAC of what precedes it, the length counting up to its end |
| `StunWire.FingerprintIff` | server/crates/wroom-edge/src/ice.rs:498-515 | its fingerprint is in order exactly when there is none, or the first stands last and is the masked CRC of all before it |
| `StunWire.MappedOctets` | server/crates/wroom-edge/src/ice.rs:616-640 | a mapped address octet by octet |
| `StunMessages.IntegrityVerifies` | server/crates/wroom-edge/src/ice.rs:469-495 | the integrity value verifies under its key although attributes after it changed the length field since |
| `StunMessages.FingerprintVerifies` | server/crates/wroom-edge/src/ice.rs:498-515 | a fingerprint appended last verifies |
| `StunMessages.SealedRoundTrip` | server/crates/wroom-edge/src/ice.rs:534-731 | plain attributes sealed with integrity and fingerprint parse back to the same list, verify under the key and have a valid fingerprint |
| `StunMessages.MappedRoundTrip` | server/crates/wroom-edge/src/ice.rs:420-446 | XOR-MAPPED-ADDRESS decodes to the IPv4 or IPv6 address it was made from |
| `StunMessages.ResponseReadsBack` | server/crates/wroom-edge/src/ice.rs:1095-1111 | a success response tells a receiver who checks it the address it was built for |
| `IceWire.ResponseIs` | server/crates/wroom-edge/src/ice.rs:1095-1111 | the success response octet by octet: type 0x0101, the mapped address, the software name, integrity over those, fingerprint over all |
| `StunBuilder.MessageBuilder.Attribute` | server/crates/wroom-edge/src/ice.rs:558-580 | appends one attribute, or refuses for order, size or room with everything unchanged |
| `StunBuilder.MessageBuilder.MessageIntegrity` | server/crates/wroom-edge/src/ice.rs:667-696 | appends the value computed over the message with its length already patched, once |
| `StunBuilder.MessageBuilder.AppendFingerprint` | server/crates/wroom-edge/src/ice.rs:698-719 | the same for the fingerprint |
| `StunBuilder.MessageBuilder.Finish` | server/crates/wroom-edge/src/ice.rs:721-730 | the buffer's front is the wire form of the attributes appended, or the message is too large |
| `StunBuilder.BuildSuccess` | server/crates/wroom-edge/src/ice.rs:1095-1111 | succeeds exactly when the buffer and the length field hold the response, and then the buffer's front is the sealed wire form of mapped address and software |
| `StunBuilder.SuccessAlwaysFits` | server/crates/wroom-edge/src/ice.rs:75-86 | for both address families and the software name sent, the response takes 80 or 92 of the 256 octets reserved |
| `StunParser.ParseDatagram` | server/crates/wroom-edge/src/ice.rs:285-335 | the framing loop with its advancing offset accepts exactly the framed messages |
| `StunParser.AttributeIter.Next` | server/crates/wroom-edge/src/ice.rs:258-274 | yields the attributes one by one |
| `IceTable.TouchKeeps` | server/crates/wroom-edge/src/ice.rs:1026-1061 | the touched address is in exactly one slot, seen now; another entry is replaced only when the table is full and the address new, and then one seen least recently |
| `IceTable.ExpiredIsFresh` | server/crates/wroom-edge/src/ice.rs:900-924 | after the timer no unselected pair is older than 30 s, the selected one stays, and the next deadline is not in the past |
| `IceEffects.ExpiryIff` | server/crates/wroom-edge/src/ice.rs:913-924 | the timer drops exactly the pairs that are not selected and were silent for more than 30 s |
| `IceTable.AtTheDeadlineNothingExpires` | server/crates/wroom-edge/src/ice.rs:900-924 | at the instant the timer asked for nothing is purged; one tick later something is |
| `IceAgents.RunKeeps` | server/crates/wroom-edge/src/ice.rs:844-1061 | over every run with a clock that does not go back, pairs are unique and at most 64, and every tracked or selected address sent an authenticated request since the remote ufrag last changed |
| `IceEffects.ProvenIff` | server/crates/wroom-edge/src/ice.rs:844-1061 | the addresses that the run keeps to are exactly those with an authenticated request after which the remote ufrag has not changed |
| `IceAgents.NominationIff` | server/crates/wroom-edge/src/ice.rs:1005-1009 | a nomination is announced and counted exactly when the selection becomes a different address |
| `IceAgents.AcceptedIff` | server/crates/wroom-edge/src/ice.rs:928-1003 | success answers exactly the authenticated, understood requests of a controlling peer; any other changes one counter, and an unauthenticated one is answered unsigned |
| `IceAgents.AcceptedIsTracked` | server/crates/wroom-edge/src/ice.rs:1001-1061 | whoever was answered with success is in the table, a full one included |
| `IceEffects.IndicationRefreshes` | server/crates/wroom-edge/src/ice.rs:1012-1024 | an indication from a tracked or selected address leaves it seen now and, if it was tracked, everybody else as before; from any other it changes nothing |
| `IceEffects.AnswerSays` | server/crates/wroom-edge/src/ice.rs:926-1010 | which answer a request gets: 400, 401, 420, 400, 487 in that order of reasons, signed or not, or success with the sender's address |
| `IceEffects.AcceptedLeaves` | server/crates/wroom-edge/src/ice.rs:998-1010 | what an accepted request leaves: its sender seen now, selected if it nominated, one check more |
| `IceEffects.RestartForgets` | server/crates/wroom-edge/src/ice.rs:844-851 | a new remote ufrag forgets pairs and selection and nothing else |
| `IceEffects.SixtyFour` | server/crates/wroom-edge/src/ice.rs:75-86 | the table has 64 slots throughout every run |
| `IceAgents.IceLiteAgent.Touch` | server/crates/wroom-edge/src/ice.rs:1026-1061 | the three loops over the slots compute that table |
| `IceAgents.IceLiteAgent.OnBindingRequest` | server/crates/wroom-edge/src/ice.rs:926-1010 | agent, reply and nomination are those of the request function |
| `IceAgents.IceLiteAgent.OnBindingIndication` | server/crates/wroom-edge/src/ice.rs:1012-1024 | a keepalive refreshes a known pair and creates none |
| `IceAgents.IceLiteAgent.HandleTimeout` | server/crates/wroom-edge/src/ice.rs:913-924 | the purging loop is the expiry |
| `IceAgents.IceLiteAgent.PollTimeout` | server/crates/wroom-edge/src/ice.rs:900-911 | the earliest instant at which an unselected pair has been silent for 30 s |
| `IceAgents.IceLiteAgent.SetRemoteUfrag` | server/crates/wroom-edge/src/ice.rs:839-851 | a changed ufrag flushes pairs and nomination, the same one changes nothing |
| `IceDatagrams.OnlyTheAuthenticatedEnter` | server/crates/wroom-edge/src/ice.rs:860-1061 | whatever a datagram says, an address it makes tracked or selected is its sender's, and the sender proved the local password or is selected already |
| `IceDatagrams.AnsweredIff` | server/crates/wroom-edge/src/ice.rs:860-1010 | success goes out exactly to a Binding request with valid fingerprint, integrity, user name, known attributes and controlling role |
| `IceWire.DatagramSays` | server/crates/wroom-edge/src/ice.rs:860-898 | a message is malformed when its fingerprint is not in order, else a request exactly by type 0x0001, an indication by 0x0011, and nothing to the agent otherwise |
| `IceWire.TypeReads` | server/crates/wroom-edge/src/ice.rs:340-366 | method and class are read from every message type as they were put in |
| `IceWire.OthersAreCounted` | server/crates/wroom-edge/src/ice.rs:860-890 | any other datagram is counted as no STUN or as malformed and changes nothing else |
| `IceWire.RequestSays` | server/crates/wroom-edge/src/ice.rs:928-1000 | what is read from a request's attributes by their numbers: user name, integrity, unknown required ones, role and nomination |
| `IceDatagrams.DatagramIsStep` | server/crates/wroom-edge/src/ice.rs:860-898 | every datagram is one event of an agent run or changes only the drop counters |
| `IceDatagrams.BuiltCheckSucceeds` | server/crates/wroom-edge/src/ice.rs:860-1010 | a check built and sealed under the password is answered with success and nominates exactly when it says so and the address is not yet selected |
| `IceDatagrams.HandleDatagram` | server/crates/wroom-edge/src/ice.rs:853-898 | the object fed one datagram ends in that state with that reply and nomination |
| `OfferQueue.OffersCoalesce` | web/src/lib/webrtc.ts:573-606 | for every interleaving: what was begun is a subsequence of what arrived, every other offer waits or was superseded by a later one, and when idle the last to arrive is the last begun |
| `OfferQueue.OneAtATime` | web/src/lib/webrtc.ts:573-607 | for every interleaving one offer is applied at a time: as many have begun as have ended, and one more exactly while the handler is busy |
| `OfferQueue.OfferHandler.HandleRemoteDescription` | web/src/lib/webrtc.ts:573-586 | the two flags after an arrival are those of the queue step; at most one offer is being applied |
| `OfferQueue.OfferHandler.ApplicationSettled` | web/src/lib/webrtc.ts:582-604 | the same when an application has succeeded or failed |
| `TilePacking.RowsCover` | web/src/lib/layout.ts:69-74 | every tile is in exactly one row, in order, and all rows but the last are full |
| `TilePacking.Chosen` | web/src/lib/layout.ts:94-98 | of the candidates it is one that keeps the floor if any does, its figure not exceeded by any such, or by any at all if none does; `TileAreas.FiguresAreTrue` says what the figure is |
| `TileAreas.ChosenCoversMost` | web/src/lib/layout.ts:62-98 | among all column counts the one chosen keeps the 120 px floor if any does, and the scaled areas of its tiles add up to the greatest sum among those that do, or among all if none does; of several it is the smallest |
| `TileAreas.FiguresAreTrue` | web/src/lib/layout.ts:65-93 | the area compared is the sum over all tiles of scaled height times scaled width, and the floor is tested on every one of them |
| `TileAreas.RowHeightIsGreatest` | web/src/lib/layout.ts:76-77 | a row's height makes its tiles and gaps just fill the width, or is zero |
| `TileAreas.ScaleIsGreatest` | web/src/lib/layout.ts:81-83 | the scale is the greatest up to one at which all rows fit the height |
| `TileAreas.PackedIs` | web/src/lib/layout.ts:98-127 | what is packed: all tiles in the order of the input, an aspect that is not positive taken as 16:9, each at its scaled size in whole pixels or widened to the floor, and overflow exactly when they overrun the box by over half a pixel |
| `TilePacking.EverythingFits` | web/src/lib/layout.ts:98-121 | when the choice keeps the floor and every row is at least 1 px high, every tile is at least 120 wide, every row fits the width, the rows fit the height, and overflow is false |
| `TilePacking.PackedFits` | web/src/lib/layout.ts:94-127 | so what is packed has no overflow and no tile narrower than 120 whenever some column count keeps the floor and the chosen rows are at least 1 px high |
| `TilePacking.Measure` | web/src/lib/layout.ts:65-93 | the nested loops compute a column count's rows, heights, scale, area and narrowest tile |
| `TilePacking.QualifiesIff` | web/src/lib/layout.ts:84-95 | the narrowest tile is within the floor exactly when every tile is |
| `TilePacking.PickBest` | web/src/lib/layout.ts:62-96 | the running maximum is the first of greatest area |
| `TilePacking.PackTiles` | web/src/lib/layout.ts:37-127 | the filled grid is that of the chosen candidate, empty for an empty input or box |
| `SdpAnswer.KeptIff` | server/crates/wroom-edge/src/sdp.rs:1272-1316 | the selection keeps the offered order, and a payload is kept exactly when offered on a usable section and supported or repairing a supported one |
| `SdpAnswer.RepairKeptIff` | server/crates/wroom-edge/src/sdp.rs:1298-1326 | with RTX not configured as a codec, an RTX payload is kept exactly when its apt names a kept codec |
| `SdpAnswer.AnswerMirrorsOffer` | server/crates/wroom-edge/src/sdp.rs:795-977 | sections keep number, order, kind and mid, one is rejected exactly when nothing is selected on it, and BUNDLE lists exactly the accepted sections' mids |
| `SdpAnswer.AnsweredIff` | server/crates/wroom-edge/src/sdp.rs:800-830 | an offer is answered exactly when it has a section and ufrag, password and a candidate are configured; else the first that is missing is named |
| `SdpAnswer.SectionSays` | server/crates/wroom-edge/src/sdp.rs:860-977 | an accepted section has port 9, the selection and the offered lines of what was selected, a rejected one port 0 and the formats it was offered with |
| `SdpAnswer.SelectionIsFixed` | server/crates/wroom-edge/src/sdp.rs:1272-1316 | selecting again on the answer's own section changes nothing |
| `SdpAnswer.WriteAnswer` | server/crates/wroom-edge/src/sdp.rs:800-977 | the writing loop produces that answer, or the first of the four refusals |

## Left out

* AES, GCM, HMAC-SHA1, CRC-32 and key derivation are parameters; so are UTF-8
  validity, join-token verification and the chat token bucket (their results are
  inputs of the step that looks at them).
* Lengths of text are counted in characters, where the source counts bytes, and
  the mid of a track is cut at any character.
* Outbound queues never overflow: the drop at 256 waiting messages is not modelled.
* Packet and chat counters, participant numbers and subscription revisions are
  unbounded, where the source has 64-bit counters.
- IceAgents.IceLiteAgent.OnBindingRequest: the reply is a value; for success `StunBuilder.BuildSuccess` gives its octets, for errors they are not modelled.
- OfferQueue.OfferHandler.ApplicationSettled: closing the connection while offers wait is not modelled.
- CallSessions.CallSession.ApplyRoomDelta: entries are walked in key order, where the source walks its object in insertion order, so the order inside one subscription batch may differ.
- SessionObjects.Session.Handle: messages for the media plane yield no output; parking them until the transport is there is not modelled.
- TilePacking.PackTiles: over the reals, without the memo, whose key rounds its inputs.
- SdpAnswer.WriteAnswer: sections as structured values; direction, fingerprint, setup, extension maps, feedback lines and candidates are not part of this model.
* The index window inside a stream table entry is a value there, and the class
  `IndexWindows.IndexWindow` beside it is the same window updated in place.
* `ExtMap` is a pair of maps; filling it is left out.
* RTCP views of BYE and REMB: only which blocks are accepted.
* `Registry::set_muted`, which the session never calls.
* Media-plane notifications, transport parking and session descriptions inside
  signaling messages.
* The client's disconnect teardown beyond its subscription state, its reconnect
  timers and back-off, and the announcement of a screen share that local tracks
  do not cover yet.
* `dtls.rs`, `transport.rs`, sockets, configuration and the user interface.
