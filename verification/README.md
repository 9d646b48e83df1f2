# YuDesk verification model

YuDesk is a remote-desktop system: an agent shares its screen with a viewer, and a relay broker brings the two
together, hosts meetings and opens public ports. This project models the parts of it that are plain state plus steps,
and proves what they keep over every run.

Each component is given twice. A value-level model says what one step does; lemmas about runs of such steps state the
properties that matter. Beside it stand classes and methods that change fields, buffers and maps in place as the Go code
does, and each of those is proved to compute the value-level model. The files named Effect, Delivery,
Pixels, Format, Check, Reads and Request say what the operations bring about in terms of their inputs alone: exactly when one
succeeds, what it tells whom and what it leaves alone, and that what is asked for does arrive when nothing goes wrong.

| files | component |
|---|---|
| `PriorityGate.dfy` | the two-class write gate of a connection |
| `Wire.dfy`, `WireFormat.dfy`, `WireSchedule.dfy`, `WireConn.dfy` | packets, interleaved fragments, every schedule of writers, and the connection object |
| `TileFrame.dfy`, `TileHub.dfy`, `TileClient.dfy`, `TileCache.dfy` | tile frames, the viewer's tile hub and the clients that follow it |
| `TileEncoder.dfy`, `TilePixels.dfy`, `TileEncoderObject.dfy`, `TilePipeline.dfy`, `TileDelivery.dfy`, `TileEffect.dfy`, `TileStreamObject.dfy` | change detection byte by byte, and capture, encoding and delivery with reused pixel buffers |
| `Conference.dfy`, `ConferenceEffect.dfy`, `ConferenceObject.dfy`, `Meetings.dfy`, `MeetingEffect.dfy`, `MeetingDirectory.dfy` | conference rooms told to their participants by message, and the meetings that hold them |
| `PortMap.dfy`, `PortMapEffect.dfy`, `PortMapBroker.dfy` | public port mappings opened and closed outside the broker's lock |
| `Pairing.dfy`, `PairingBroker.dfy` | pairing of agents and viewers |
| `SecureRecords.dfy`, `SecureReads.dfy`, `SecureWrites.dfy`, `SecureConn.dfy` | the encrypted record layer: reading, writing, and the connection's two directions |
| `PeerPath.dfy`, `PeerCheck.dfy`, `PeerNegotiation.dfy` | the negotiation of a direct path |
| `FileTransfer.dfy`, `FileTransferEffect.dfy`, `FileTransferObjects.dfy` | uploads and downloads over a connection that loses messages |
| `Stun.dfy`, `StunRequest.dfy`, `StunServer.dfy` | the STUN Binding endpoint |
| `InputSession.dfy`, `InputEffect.dfy`, `InputQueue.dfy`, `InputDelivery.dfy`, `InputQueueObject.dfy` | remote input and the queue in front of it |
| `Bytes.dfy`, `Sets.dfy`, `Wrappers.dfy` | big-endian fields, exclusive-or, set sizes, Option |

`dafny verify dfyconfig.toml` checks everything.

Abstractions that run through the project: each critical section under a lock is one step; clocks, random choices and
failures of the outside world are inputs that a step may take any value of; freshly drawn identifiers do not collide;
JSON, PNG and JPEG, SHA-256, CRC-32 and the authenticated cipher are functions of which only the stated properties are
assumed. Identifiers of which only equality matters are natural numbers, with zero for the empty string where the source
treats that specially.

## What does not hold

Where a plausible claim is false of the code, a lemma gives the input and another says exactly when it holds.

- A committed port mapping's router port need not be open. A port that is being closed can be issued again, and the late
  close hook then shuts it (`PortMaps.ReissuedPortCanBeShut`). It stays open if and only if no operation under way is
  concerned with that port (`PortMaps.ServesExactlyWhenUndisturbed`).
- `TileFrame.Validate` compares sums that may wrap, so a tile far outside its frame can pass
  (`TileFrames.WrappedTilePasses`). A tile that passed lies inside exactly when neither sum exceeds the largest Go int
  (`TileFrames.ValidatedTileInside`).
- When both sides tell each other their paths, a viewer that found a path while the agent did not makes both settle for
  the relay with that path's name as the reason, as in "relay, udp_direct" (`PeerPaths.RelayNamedDirect`). When the relay is
  agreed on, the reason is not one of the failure reasons exactly if the sides tell each other their paths, both have
  described themselves and the viewer has found a path (`PeerPaths.RelayReason`).
- The input queue replaces a hover move that waits by the next one, and that can be noticed. A move that the operating
  system refuses would have released everything held; replaced, a key stays down (`InputQueues.RefusedMoveMatters`). The
  queue looks at the events only, so `{"events":[{"type":"move","x":5}],"width":1.5}` is a hover move to it while the session
  cannot read it and would release everything; replaced, a key stays down though the system takes every event
  (`InputQueues.UnreadMoveMatters`). After every step of a run the queue is unnoticed if and only if every replacement in
  the run was harmless (`InputQueues.UnseenExactly`), which for two hover moves a, b and a session that owes no release means:
  if a is taken, b can be read or a leaves the pointer where it was; if a fails and b is taken, no key is held; if both fail,
  a lets go of nothing or of the same as b, and b lets go of everything held or the pointer ends at the same place
  (`InputQueues.Harmless`, `InputQueues.HarmlessExactly`; `InputQueues.HarmlessUnderOneSystem` is the case of one system that
  both moves meet).

## Model

| member | source | states |
|---|---|---|
| PriorityGates.GateSafety | internal/protocol/priority.go:21-86 | Over every interleaving of arrivals, grants, releases and cancellations before or after the grant there is at most one owner, none exactly when the gate is free, no waiter is left at a free gate, and each class is granted in arrival order among those that did not give up. |
| PriorityGates.GateInvariant | internal/protocol/priority.go:21-86 | The same from any state that satisfies it. |
| PriorityGates.LowWaiterServed | internal/protocol/priority.go:66-86 | A low waiter with k low waiters ahead owns the gate after 9(k+1) releases at the latest, whoever arrives or gives up meanwhile. |
| PriorityGates.BoundIsExact | internal/protocol/priority.go:66-86 | With enough high waiters it does not own it one release earlier. |
| PriorityGates.LowWaiterProgress | internal/protocol/priority.go:66-86 | Every step grants a queued low waiter or leaves its budget of releases no larger, and each release makes it smaller. |
| PriorityGates.PriorityGate.Acquire | internal/protocol/priority.go:21-40 | A cancelled caller is refused and changes nothing; a free gate is taken; otherwise a fresh waiter joins the end of its class. |
| PriorityGates.PriorityGate.Cancel | internal/protocol/priority.go:41-63 | A waiter that was granted passes the gate on; one that was not leaves its queue, and the others keep their order. |
| PriorityGates.PriorityGate.ReleaseGate | internal/protocol/priority.go:66-86 | The next owner, and only it, is granted. |
| Wire.ReadPlain | internal/protocol/protocol.go:64-95 | A plain packet is read back as its message, with the unfinished assembly untouched. |
| Wire.FragmentStreamRoundTrip | internal/protocol/interleave.go:47-141 | The fragments of a message from any offset on complete exactly that message on a reader that is as far. |
| Wire.ReadFragmentStep | internal/protocol/interleave.go:100-141 | One fragment moves the reader from what the writer had sent to what it has sent then. |
| Wire.ReadTornPacket | internal/protocol/protocol.go:64-95 | A packet that was cut off, at any length, fails. |
| Wire.ReadAllAppend | internal/protocol/protocol.go:51-95 | A stream cut between packets is read as its two parts in turn. |
| Wire.AcceptMonotone | internal/protocol/protocol.go:64-95 | Offering to accept fragments changes nothing for a stream without them. |
| WireFormats.PacketLayout | internal/protocol/protocol.go:123-160 | The octets of a packet. |
| WireFormats.FragmentLayout | internal/protocol/interleave.go:62-80 | The octets of a fragment of 8192 octets or the rest. |
| WireFormats.ReadsPlain | internal/protocol/protocol.go:64-98 | Exactly which plain packets are read, and that they leave the assembly and the rest of the input alone. |
| WireFormats.ReadsContinued | internal/protocol/interleave.go:100-141 | While a message is assembled, exactly which fragments are read: those that start where it ends, with fitting sizes and flags, without a header; what they add, and when they complete it. |
| WireFormats.ReadsBegun | internal/protocol/interleave.go:100-141 | While none is, exactly those that begin one. |
| WireSchedules.ReaderSound | internal/protocol/interleave.go:100-141 | For every byte stream, whatever is delivered from fragments is the in-order concatenation of their payloads, which tile 0 to the announced length without gap or overlap, of at most 32 MiB. |
| WireSchedules.DeliveriesAreMessages | internal/protocol/protocol.go:51-62 | Those deliveries are exactly the messages that ReadMessage returns. |
| WireSchedules.ScheduleRoundTrip | internal/protocol/interleave.go:47-141 | For every schedule of plain packets, fragments, aborted and torn writes the reader returns each completed message once, unchanged, in order of completion; a bulk message starts on an empty assembly, and a torn write is noticed. |
| WireSchedules.ScheduleInvariant | internal/protocol/interleave.go:47-98 | Every step of such a schedule keeps the reader's assembly equal to what the holder of the bulk gate has sent. |
| Connections.PartialMessage.Append | internal/protocol/interleave.go:132-135 | A payload is copied to its place in the one assembly buffer. |
| Connections.Conn.WriteFull | internal/protocol/protocol.go:174-186 | The transport takes what fits, and a short write is an error. |
| Connections.Conn.WritePacket | internal/protocol/protocol.go:123-172 | The packet that was built in the reused buffer or a new one is sent whole; a write that fails leaves a beginning of it and closes the connection; a cancelled one leaves nothing. |
| Connections.Conn.BuildFragmentHeader | internal/protocol/interleave.go:69-79 | The header that is put together byte by byte is the fragment header of the wire format. |
| Connections.Conn.WriteFragments | internal/protocol/interleave.go:47-98 | All fragments are on the wire exactly if the connection is open, the transport takes them all and the context is not cancelled before the last is under way; otherwise a beginning of them, and if anything was sent the connection is closed. |
| Connections.Conn.WriteMessage | internal/protocol/protocol.go:104-121 | A large message goes in fragments if the peer accepted, else as one packet; it succeeds exactly if it may be sent, the connection is open, the transport takes all of it and the context is not cancelled in time; one that cannot be sent changes nothing, and a failure after the first byte closes the connection. |
| Connections.Conn.ReadFragment | internal/protocol/interleave.go:100-141 | Reading into the assembly buffer in place gives what the wire model gives, errors included. |
| Connections.Conn.ReadPacket | internal/protocol/protocol.go:64-95 | The same for whole packets. |
| Connections.Conn.ReadMessage | internal/protocol/protocol.go:51-62 | The first message of the stream is returned and the rest is read as if it had been; after an error no assembly is left. |
| TileFrames.Validate | internal/stream/tiles.go:39-60 | The accumulating loop accepts exactly the frames with sides in range, few, distinct and valid tiles, and sizes that add up to the payload, in 64-bit arithmetic that wraps. |
| TileFrames.ValidatedTileInside | internal/stream/tiles.go:39-60 | A tile that passed lies inside its frame if and only if neither sum that was compared wraps. |
| TileFrames.WrappedTilePasses | internal/stream/tiles.go:39-60 | A frame that passes although its tile lies far outside. |
| TileFrames.SplitPayload | internal/viewerapp/tiles.go:74-78 | Cutting a payload at the sizes of its tiles gives back the parts it was joined from. |
| TileHubs.KeyframeCoversGrid | internal/viewerapp/tiles.go:35-47 | The pigeonhole: aligned, distinct tiles of the right number are the whole grid. |
| TileHubs.RetainedIsSum | internal/viewerapp/tiles.go:53-66 | The counter that is kept up tile by tile is the number of bytes cached. |
| TileHubs.PublishKeepsInv | internal/viewerapp/tiles.go:34-82 | After every accepted frame the keys are exactly the grid cells, each entry is a valid tile of its cell, and the cache holds what its counter says, at most 32 MiB. |
| TileHubs.PublishedNew | internal/viewerapp/tiles.go:66-78 | A cell of the frame holds what the frame brought, under the new revision. |
| TileHubs.PublishedOld | internal/viewerapp/tiles.go:66-78 | In a delta every other cell keeps what it held; a keyframe leaves no other cell. |
| TileClients.SnapshotValid | internal/viewerapp/tiles.go:86-115 | Every snapshot passes validation, stays on the grid and is at most 32 MiB. |
| TileClients.SnapshotOrderUnique | internal/viewerapp/tiles.go:91-104 | The order in which a snapshot lists its cells is determined. |
| TileClients.FetchShowsPicture | internal/viewerapp/tiles.go:86-178 | Painting a snapshot shows exactly the hub's tile map. |
| TileClients.ClientConverges | internal/viewerapp/tiles.go:67-178 | However many frames, keyframes, failures and restarts lie between its requests, a client that was just answered holds exactly the hub's tile map at the last revision. |
| TileClients.AnyClientRecovers | internal/viewerapp/tiles.go:117-178 | A client of an earlier hub, or one that starts over, shows exactly the hub's tile map after one answer, whatever it showed before. |
| TileClients.WrongSizeStartsOver | internal/viewerapp/tiles.go:86-178 | A delta for another size is not painted and makes the client start over. |
| TileDeliveries.SentSince | internal/viewerapp/tiles.go:86-98 | A snapshot after the revision a viewer has holds exactly the cells that some frame since then has brought, or all cells if one of those frames was a keyframe. |
| TileCaches.TileHub.Publish | internal/viewerapp/tiles.go:34-82 | The hub object accepts exactly the publishable frames, and a refused one changes nothing. |
| TileCaches.TileHub.Snapshot | internal/viewerapp/tiles.go:86-115 | Selecting the entries and sorting them by their own tiles' positions gives the snapshot in its one order. |
| TileCaches.SortRows | internal/viewerapp/tiles.go:99-104 | The same entries, in the order of the rows and columns of their tiles. |
| TileEncoders.EncodedFrameMatches | internal/stream/tiles.go:82-160 | Publishing what Encode sends turns a hub that shows the previous picture into one that shows the new one, cell by cell. |
| TileEncoders.IdleFrameMatches | internal/stream/tiles.go:82-160 | A delta that is not sent because nothing changed leaves the hub up to date. |
| TileEncoders.EncodedPart | internal/stream/tiles.go:102-156 | Each part of a frame has the place and the size of its cell and is the encoding of exactly the cell's pixels. |
| TileEncoders.EncodedExactly | internal/stream/tiles.go:102-156 | A frame fails exactly if one of its tiles cannot be encoded. |
| TilePixels.CellByte | internal/stream/tiles.go:93-117 | At every place of a cell stands the byte of the image at that place: row y, column x, channel k is byte (y * width + x) * 4 + k. |
| TilePixels.CellsDetermine | internal/stream/tiles.go:87-117 | Two images of one size with equal pixels in all grid cells are equal. |
| TilePixels.ChangedExactly | internal/stream/tiles.go:86-101 | A tile is sent again exactly if the encoder is forced, starts or meets another size, or some byte of some pixel in the tile differs. |
| TilePixels.MatchDraws | internal/stream/tiles.go:82-160 | A hub that matches an image shows every byte of every pixel of it, as closely as the codec does. |
| TileDeliveries.SentIsTaken | internal/viewerapp/tiles.go:34-66 | The hub that shows the picture before takes what Encode sends exactly if neither side exceeds 16384, the tiles are non-empty PNG or JPEG, and the cache has room. |
| TileEncoderObjects.TileEncoder.Encode | internal/stream/tiles.go:82-160 | The object sends the tiles that differ from the image it kept, in grid order, and then keeps this one; a failure keeps the old one. |
| TileEncoderObjects.TileEncoder.Differs | internal/stream/tiles.go:92-96 | The row-by-row comparison that stops early finds a difference exactly when the tile's pixels differ. |
| TileEncoderObjects.TileEncoder.FindChanged | internal/stream/tiles.go:87-101 | The loops over the grid list exactly the changed cells in order. |
| TilePipelines.StepKeepsOwned | internal/agentapp/capture_pipeline.go:25-79 | No step puts a pixel buffer into two places, so the one that frames are compared with is never in the pool, the slot or the capturer's hands. |
| TileEffects.BuffersKept | internal/agentapp/capture_pipeline.go:25-79 | While the pool holds fewer than three no step loses a buffer, but the one that a capture was given and did not use. |
| TileEffects.CaptureReuses | internal/agentapp/capture_pipeline.go:43-47 | A capture is given the buffer that has waited longest in the pool, if there is one. |
| TileEffects.PoolBounded | internal/agentapp/capture_pipeline.go:25-32 | Over every run the pool holds three buffers at most. |
| TilePipelines.RunKeepsInv | internal/agentapp/tiles.go:36-149 | Over every run the viewer will match the encoder's reference once the frames under way are published. |
| TilePipelines.ViewerMatchesReference | internal/agentapp/tiles.go:36-149 | After any run of captures, overwrites, errors, resets and skipped idle frames, with everything sent delivered, every grid cell of the viewer encodes exactly the reference's pixels. |
| TileDeliveries.ViewerDrawsReference | internal/agentapp/tiles.go:36-149 | After any run with everything delivered the viewer draws, at every byte of every pixel, what the reference holds there, as closely as the codec does; with a lossless one exactly that. |
| TileDeliveries.CapturePlaces | internal/agentapp/capture_pipeline.go:38-79 | From any reachable state a new capture takes the waiting slot with its pixels, after the stale frame in it. |
| TileDeliveries.CaptureIsShown | internal/agentapp/tiles.go:84-149 | A frame that waits is taken, encoded and kept as the reference; nothing to send means the viewer already shows it, and what is sent is taken if there is room and makes the viewer show it. |
| TileEffects.EncoderFollows | internal/agentapp/tiles.go:63-90 | The encoder starts over exactly with the first frame after a failed capture; nothing but encoding changes it otherwise. |
| TileEffects.SendsExactly | internal/agentapp/tiles.go:84-130 | What is encoded becomes the reference and is sent, unless nothing changed and idle frames are saved; a keyframe exactly if there is nothing of its size to compare with; a frame that cannot be encoded ends the stream. |
| TileEffects.StoppedForGood | internal/agentapp/tiles.go:93-99 | After the stream has stopped nothing is taken, encoded or sent. |
| TileStreamObjects.CapturePipeline.Recycle | internal/agentapp/capture_pipeline.go:25-32 | The pool takes a buffer while it has room. |
| TileStreamObjects.CapturePipeline.Offer | internal/agentapp/capture_pipeline.go:55-72 | The new frame takes the slot, and the buffers that are no longer needed, and no others, go back to the pool. |
| TileStreamObjects.TileStream.Serve | internal/agentapp/tiles.go:84-149 | After a failed capture the encoder starts over; a frame is sent unless idle and without tiles; only the image compared with before goes back to the pool. |
| Conferences.BroadcastTells | cmd/yudesk-relay/conference.go:359-381 | A broadcast brings everyone who stays open from one picture of the room to the next; `ConferenceEffects.BroadcastGets` says who stays open. |
| ConferenceEffects.BroadcastGets | cmd/yudesk-relay/conference.go:359-381 | A broadcast appends just its message for everyone but the one named: who is closed gets nothing, who has fewer than 64 messages waiting gets it and stays open, and only one with 64 waiting is closed. |
| Conferences.JoinKeepsInv | cmd/yudesk-relay/conference.go:174-194 | After a join the newcomer's welcome and everyone else's messages fold to the new roster. |
| Conferences.SetFlagsKeepsInv | cmd/yudesk-relay/conference.go:285-292 | A change of media flags reaches everyone, and only a host's flags may include sharing and recording. |
| Conferences.TransferKeepsInv | cmd/yudesk-relay/conference.go:293-300 | A transfer stops the old host's sharing before the new host is announced, and keeps the room consistent. |
| Conferences.KickKeepsInv | cmd/yudesk-relay/conference.go:301-316 | The target's device is barred, and nothing about the roster changes yet. |
| Conferences.LeaveKeepsInv | cmd/yudesk-relay/conference.go:339-354 | The one who leaves is gone for everyone, and a departing host is succeeded by the earliest joiner. |
| Conferences.TransportKeepsInv | cmd/yudesk-relay/conference.go:224-238 | A writer that takes messages, or a connection that closes, leaves the rest of the room as it was. |
| Conferences.AddPeersLookup | cmd/yudesk-relay/conference.go:176-187 | The list of peers in a welcome, in whatever order, carries each of them as the room knows it. |
| ConferenceEffects.ReactTells | cmd/yudesk-relay/conference.go:257-327 | What each message of a participant tells whom and changes, which flags are kept, and exactly which messages are ignored or end the connection or the meeting. |
| ConferenceEffects.SignalsExactly | cmd/yudesk-relay/conference.go:267-284 | Exactly which signals are well formed. |
| ConferenceEffects.JoinTellsAll | cmd/yudesk-relay/conference.go:174-194 | The newcomer has just its welcome waiting and hosts an empty room; the others are told of it and of the host. |
| ConferenceEffects.WelcomeLists | cmd/yudesk-relay/conference.go:176-187 | A welcome lists the participants as they are and marks the host. |
| ConferenceEffects.LeaveTells | cmd/yudesk-relay/conference.go:329-357 | The others are told, and of the new host if the host left, who is the earliest joiner. |
| MeetingEffects.StepCloses | cmd/yudesk-relay/conference.go:224-405 | In every step a participant's channel only grows, but for its own writer; it is closed only by its own connection or with exactly 64 messages waiting. |
| MeetingEffects.StaysOpen | cmd/yudesk-relay/conference.go:224-405 | Over any run, who is not disconnected and keeps fewer than 64 messages waiting stays open and pictures the room exactly. |
| MeetingEffects.LetInExactly | cmd/yudesk-relay/conference.go:142-194 | A participant is let in exactly if the meeting has not expired, its device is neither in the room nor removed, and it is the meeting's own device come to host or comes to join someone; otherwise nothing changes. |
| MeetingEffects.OpensExactly | cmd/yudesk-relay/meeting.go:84-123 | Opening a meeting ends the device's former one and the expired ones, and nothing else. |
| MeetingEffects.EndsExactly | cmd/yudesk-relay/meeting.go:151-171 | A meeting goes, with its device's entry, exactly if its host ends it, its device gives it up or it has expired. |
| MeetingEffects.ActsExactly | cmd/yudesk-relay/conference.go:257-357 | A message and a departure act on the participant's own room, and on no other. |
| MeetingEffects.MeetingMeets | cmd/yudesk-relay/conference.go:142-194 | From any reachable state: a device that opens a meeting and comes in hosts it, and a second one that joins is in the room with it, both picturing it exactly. |
| ConferenceObjects.Member.Queue | cmd/yudesk-relay/conference.go:359-370 | A closed participant gets nothing; only a channel with 64 messages waiting closes it. |
| ConferenceObjects.ConferenceRoom.Broadcast | cmd/yudesk-relay/conference.go:372-381 | The loop over the participants queues the message to each but the excepted one. |
| ConferenceObjects.ConferenceRoom.Join | cmd/yudesk-relay/conference.go:176-193 | The object's join is the model's, for the order in which the map was walked. |
| ConferenceObjects.ConferenceRoom.SetState | cmd/yudesk-relay/conference.go:285-292 | A state message of someone who is not the host has sharing and recording taken out. |
| ConferenceObjects.ConferenceRoom.Transfer | cmd/yudesk-relay/conference.go:293-300 | Only the host may transfer, and only to another participant; otherwise nothing changes. |
| ConferenceObjects.ConferenceRoom.Kick | cmd/yudesk-relay/conference.go:301-316 | Only the host may remove, a target that is gone is no error, and the device is barred. |
| ConferenceObjects.ConferenceRoom.First | cmd/yudesk-relay/conference.go:344-349 | The loop finds the participant that joined first. |
| ConferenceObjects.ConferenceRoom.Leave | cmd/yudesk-relay/conference.go:339-354 | The object's leave is the model's, succession included. |
| ConferenceObjects.ConferenceRoom.Close | cmd/yudesk-relay/conference.go:383-393 | Everyone is queued the reason, and the room is empty. |
| Meetings.RoomsInEveryRun | cmd/yudesk-relay/conference.go:142-405 | In every reachable state each participant that is not closed has been told exactly the broker's roster, host and flags; the host is set just when there are participants and is one of them; devices are distinct; only the host shares or records; no channel holds more than 64 messages. |
| Meetings.RunKeepsInv | cmd/yudesk-relay/meeting.go:84-171 | Over every run of openings, closings, expiries, joins, messages and departures meetings and meetingDevices stay inverse. |
| Meetings.StepKeepsInv | cmd/yudesk-relay/conference.go:257-405 | Every single step keeps that. |
| Meetings.OnlyTheHostDecides | cmd/yudesk-relay/conference.go:265-326 | A message hands the host role over, bars a device or ends the meeting only if its sender is the host, and never changes anyone else's flags. |
| Meetings.RemovedStaysOut | cmd/yudesk-relay/conference.go:169-173 | While the conference lasts, a removed device stays barred and, once out, never gets back in. |
| Meetings.RoomAfter | cmd/yudesk-relay/conference.go:257-357 | A step that leaves a conference in place adds nobody to it unless it is an admitted join, and lets no barred device off. |
| MeetingDirectories.MeetingDirectory.Cleanup | cmd/yudesk-relay/meeting.go:151-161 | The loop removes exactly the expired meetings and the entries that name them. |
| MeetingDirectories.MeetingDirectory.RemoveDevice | cmd/yudesk-relay/meeting.go:163-171 | A device's meeting and its entry go. |
| MeetingDirectories.MeetingDirectory.RemoveCode | cmd/yudesk-relay/conference.go:395-405 | A meeting goes, with its device's entry if that names it. |
| MeetingDirectories.MeetingDirectory.Open | cmd/yudesk-relay/meeting.go:92-115 | The first of 64 random codes that is free and not the device's own is used; none is allocated exactly if all are taken. |
| PortMaps.NothingLeaks | cmd/yudesk-relay/portmap.go:149-185 | Under every interleaving of create, delete, admin close, disconnect, terminate and takeover, once no operation is under way every open port is held by a committed mapping whose device is registered, and every mapping is committed. |
| PortMaps.TablesInEveryRun | cmd/yudesk-relay/portmap.go:91-151 | The port tables are inverse bijections into 9000 to 9500; a device has at most five mappings, with distinct requests; each has a registered control of its session that is not stopping. |
| PortMaps.StepKeepsInv | cmd/yudesk-relay/portmap.go:149-274 | Every section and every hook call keeps those, and covers each open port by a mapping or by an operation that will close it. |
| PortMaps.RegisterKeepsInv | cmd/yudesk-relay/control.go:107-126 | A control that takes over keeps the session, so the mappings stay with it. |
| PortMaps.ServesExactlyWhenUndisturbed | cmd/yudesk-relay/portmap.go:167-185 | A committed mapping's open port stays open as long as the mapping, whatever happens, if and only if no operation is concerned with it. |
| PortMaps.RunKeepsServing | cmd/yudesk-relay/portmap.go:208-274 | The sufficient half over a run, with the mapping unchanged and no operation coming to be concerned with its port. |
| PortMaps.FinishCloses | cmd/yudesk-relay/portmap.go:169-185 | The necessary half: an operation that is concerned with another mapping's port can run on and close it. |
| PortMaps.ReissuedPortCanBeShut | cmd/yudesk-relay/portmap.go:208-221 | A run that leaves a committed mapping with its port shut. |
| PortMapEffects.CreatesExactly | cmd/yudesk-relay/portmap.go:91-151 | A mapping is entered exactly for a registered, not stopping control of that session whose device has no mapping for the request and fewer than five. |
| PortMapEffects.AskedIsServed | cmd/yudesk-relay/portmap.go:91-185 | From any reachable state such a request for any free port from 9000 to 9500 ends in a committed mapping with its port open, if nothing comes between. |
| PortMapEffects.OpensAndServes | cmd/yudesk-relay/portmap.go:152-185 | When the port was opened the mapping serves if it and its control are still there; otherwise it goes and its port is closed. |
| PortMapEffects.FailsAndCloses | cmd/yudesk-relay/portmap.go:152-166 | When it could not be opened the mapping goes and just its port is closed. |
| PortMapEffects.DeletesAndCloses | cmd/yudesk-relay/portmap.go:208-226 | A deleted mapping goes with its port, and just that is closed. |
| PortMapEffects.RegisterTakesOver | cmd/yudesk-relay/control.go:107-126 | A new connection becomes the control under its own identity, with the predecessor's session, exactly unless the predecessor is stopping; mappings and other controls stay. |
| PortMapEffects.UnregisterExactly | cmd/yudesk-relay/control.go:130-157 | After a takeover the end of the old connection changes nothing, and that of the new one removes the control and exactly the device's mappings. |
| PortMapEffects.ControlStays | cmd/yudesk-relay/control.go:107-157 | Over every run a connection that was let in stays its device's control, whatever older ones end late, until it ends or is replaced; it is stopping exactly if the device was stopped. |
| PortMapEffects.StoppedIsOut | cmd/yudesk-relay/main.go:1776-1827 | A stopped device has no mappings, is authorised for nothing, and cannot register while its control is there. |
| PortMapBrokers.PortMapBroker.RandomFreePort | cmd/yudesk-relay/portmap.go:193-206 | The cyclic search returns the first free port, and fails exactly if all 501 are taken. |
| PortMapBrokers.PortMapBroker.Count | cmd/yudesk-relay/portmap.go:109-121 | The loop counts the device's mappings and finds one that answers the request. |
| PortMapBrokers.PortMapBroker.Create | cmd/yudesk-relay/portmap.go:56-151 | A mapping is entered exactly when the command is well formed, the control's session authorises it, the request is new, fewer than five exist and a port is free; each refusal changes nothing. |
| PortMapBrokers.PortMapBroker.Commit | cmd/yudesk-relay/portmap.go:167-178 | The mapping is marked ready if it is still there and authorised, else removed. |
| PortMapBrokers.PortMapBroker.RemoveMapping | cmd/yudesk-relay/portmap.go:242-250 | The mapping leaves both tables, and its port is reported. |
| PortMapBrokers.PortMapBroker.Delete | cmd/yudesk-relay/portmap.go:208-218 | A device may delete its own mappings only; anything else changes nothing. |
| PortMapBrokers.PortMapBroker.RemoveDevice | cmd/yudesk-relay/portmap.go:252-264 | The loop removes exactly the device's mappings and lists exactly their ports. |
| PortMapBrokers.PortMapBroker.CloseDevice | cmd/yudesk-relay/main.go:1776-1827 | Termination stops the control and removes the mappings in one section. |
| PortMapBrokers.PortMapBroker.Register | cmd/yudesk-relay/control.go:107-126 | A stopping predecessor refuses the newcomer; another hands its session on. |
| PortMapBrokers.PortMapBroker.Unregister | cmd/yudesk-relay/control.go:130-157 | The cleanup of a control that was replaced does nothing; that of the current one removes it and its mappings. |
| Pairings.PairingIsSafe | cmd/yudesk-relay/main.go:429-562 | In every run no device waits and is in a session at once, a session joins one agent and one viewer of that device and the same owner, and no ready channel is filled twice. |
| Pairings.SendsNeverBlock | cmd/yudesk-relay/main.go:1785-1809 | Whenever a ready channel is sent to, under the lock or after it, its slot is empty. |
| Pairings.EntersExactly | cmd/yudesk-relay/main.go:431-503 | Exactly when a connection is refused, waits, evicts or is paired, and in which session with whom. |
| Pairings.OppositesMeet | cmd/yudesk-relay/main.go:431-503 | An agent and a viewer of one owner that come to a free device end in a session of just the two, and the first is told, also when it had to evict another. |
| Pairings.LeavesExactly | cmd/yudesk-relay/main.go:505-562 | Exactly which waiting entries and sessions a departure, a failed ping, the end of a session or the removal of a device take away. |
| Pairings.StepKeepsInv | cmd/yudesk-relay/main.go:429-562 | Every turn of the loop, departure and removal keeps that. |
| Pairings.DropKeepsInv | cmd/yudesk-relay/main.go:1843-1860 | Dropping an owner's device leaves neither a waiting entry nor a session of that owner. |
| PairingBrokers.PairingBroker.Enter | cmd/yudesk-relay/main.go:431-503 | One turn of the loop: busy, wait, denied, paired or evicted, with the connection that has to be told. |
| PairingBrokers.PairingBroker.Gone | cmd/yudesk-relay/main.go:533-544 | A connection that is gone leaves the waiting table and ends its session. |
| PairingBrokers.PairingBroker.Drop | cmd/yudesk-relay/main.go:1843-1860 | The owner's waiting connection and session are removed, and the connections to close are exactly theirs. |
| SecureRecords.OnlyWhatWasSealed | internal/secureconn/secureconn.go:286-338 | With an ideal cipher, whatever arrives and however reads are cut, what is delivered is a prefix of what the peer sealed. |
| SecureRecords.AllThatWasSealed | internal/secureconn/secureconn.go:286-338 | If the records arrive as sealed, with transport errors between them at most, enough reads of any sizes deliver everything, up to and including record number 2^64 - 1. |
| SecureRecords.StreamIsClean | internal/secureconn/secureconn.go:340-379 | The stream of records as it was written is such an arrival. |
| SecureRecords.NoncesDiffer | internal/secureconn/secureconn.go:381-385 | Different sequence numbers give different nonces. |
| SecureRecords.SessionFaithful | internal/secureconn/secureconn.go:286-338 | Delivered and buffered bytes are always the plaintext of the records opened so far. |
| SecureReads.RecordLayout | internal/secureconn/secureconn.go:352-385 | The octets of a record and of its nonce. |
| SecureReads.WholeRecord | internal/secureconn/secureconn.go:292-331 | A record of 16 to 65552 octets is buffered if it opens under the next number, the last being 2^64 - 1, and ends all reading if not. |
| SecureReads.WrongSize | internal/secureconn/secureconn.go:302-306 | A size that no record has ends all reading. |
| SecureReads.TornRecord | internal/secureconn/secureconn.go:307-315 | An error inside a record ends all reading. |
| SecureReads.TornSize | internal/secureconn/secureconn.go:292-301 | An error before the first octet of a size is reported once; one inside it ends all reading. |
| SecureReads.KeptForGood | internal/secureconn/secureconn.go:286-291 | Once an error is kept what is buffered is handed out, and every read then reports the error and takes nothing in. |
| SecureReads.ReadsSomething | internal/secureconn/secureconn.go:286-338 | A read with room returns data, as much as fits, or an error, and never both or neither. |
| SecureReads.CutsExactly | internal/secureconn/secureconn.go:340-352 | A Write is cut into records of 65536 octets and a rest. |
| SecureConns.RecordWriter.WriteFull | internal/secureconn/secureconn.go:387-404 | What is reported written is what the transport took; counts out of range and empty writes are short writes. |
| SecureConns.RecordWriter.WriteRecord | internal/secureconn/secureconn.go:352-375 | The i-th seal uses sequence number i and the number moves on exactly if the record was written whole; otherwise the error sticks. |
| SecureConns.RecordWriter.Write | internal/secureconn/secureconn.go:340-379 | The loop computes the writer model; the count reported is exactly the plaintext of the records written whole, and after an error nothing is sealed or sent. |
| SecureConns.NoncesOfWriter | internal/secureconn/secureconn.go:340-385 | No two seals of a writer object have used the same nonce. |
| SecureWrites.NoNonceTwice | internal/secureconn/secureconn.go:340-385 | Over every run of Write calls on a new connection, whatever counts and errors the transport answers with, no two seals use the same nonce and none comes after number 2^64 - 1. |
| SecureWrites.WritesOrdered | internal/secureconn/secureconn.go:340-404 | Over every such run the i-th seal used number i, all records but the last were written whole, and the wire holds them and a beginning of the last. |
| SecureWrites.ErrorsStick | internal/secureconn/secureconn.go:344-375 | After an error, exhaustion included, no further run of calls seals or sends anything. |
| SecureWrites.TransmitExactly | internal/secureconn/secureconn.go:387-404 | How many of the transport's answers are used, what they have taken, and with which error it ends. |
| SecureWrites.SmoothWrites | internal/secureconn/secureconn.go:340-379 | With a transport that takes everything no run of writes fails before 2^64 records. |
| SecureWrites.WriteSeals | internal/secureconn/secureconn.go:340-379 | What one call seals is the beginning of its argument, all of it unless there is an error, and its count is the plaintext of the records written whole. |
| SecureWrites.SealsWhatWasWritten | internal/secureconn/secureconn.go:340-379 | Over every run of Write calls what was sealed is the beginning of everything passed to them, and all of it while there is no error. |
| SecureConns.RecordReader.Read | internal/secureconn/secureconn.go:286-338 | The loop over buffer, header and packet computes the reader model, sticky errors included. |
| SecureConns.RecordReader.Fill | internal/secureconn/secureconn.go:292-331 | One record, or the error that the code reports and keeps for it. |
| SecureWrites.DeliveredIsPrefixOfWritten | internal/secureconn/secureconn.go:286-404 | Both directions of one key: if nothing opens under a number but what the writer sealed under it, then whatever the writer's transport did, whatever arrives and however reads are cut, the reader delivers a prefix of what the application passed to Write. |
| SecureWrites.UnforgedIsIdeal | internal/secureconn/secureconn.go:340-385 | Because no number is used twice, record n opens to the n-th plaintext sealed and to nothing else. |
| SecureWrites.WrittenIsDelivered | internal/secureconn/secureconn.go:286-404 | If the writer has no error and its bytes arrive, enough reads of any sizes deliver everything that was written. |
| PeerPaths.AlwaysAwaited | internal/peerpath/negotiate.go:29-78 | Two conforming sides with the same settings always receive the stage they await; no message is unexpected, no description or ready state invalid, and no commit inconsistent. |
| PeerPaths.SamePath | internal/peerpath/negotiate.go:216-263 | Whatever is lost and whenever, a side that succeeds has the agreed path, so one never goes on over the relay while the other goes on directly. |
| PeerPaths.BothSucceed | internal/peerpath/negotiate.go:152-263 | If nothing breaks both sides succeed with the agreed path. |
| PeerPaths.AgreedMeans | internal/peerpath/negotiate.go:223-240 | Exactly when the relay, the UDP relay, IPv6 or a direct path is agreed on, and for which reason the relay. |
| PeerPaths.RelayReason | internal/peerpath/negotiate.go:228-235 | When the relay is agreed on, its reason is a failure reason except exactly when the sides tell each other their paths, both have described themselves and the viewer has found a path. |
| PeerPaths.RelayNamedDirect | internal/peerpath/negotiate.go:228-235 | An instance of that exception. |
| PeerChecks.FacingExactly | internal/peerpath/negotiate.go:66-304 | Whatever the other side sends: how far a side gets, that it sends nothing after a check has failed, and that it succeeds exactly if every stage, description, ready state and commit is sound and the path was not lost. |
| PeerPaths.RunKeepsInv | internal/peerpath/negotiate.go:66-264 | Over every run each side has taken exactly the expected signals, and at most one is under way while neither has broken off. |
| PeerPaths.ExpectedPass | internal/peerpath/negotiate.go:266-304 | The signals of plausible sides pass each other's checks. |
| PeerNegotiations.Negotiate | internal/peerpath/negotiate.go:139-264 | The straight-line code sends what the state machine sends and ends as it does, for all incoming messages and failing writes. |
| PeerNegotiations.Conclude | internal/peerpath/negotiate.go:198-263 | The same for the ready and commit exchanges. |
| PeerNegotiations.Signaling.Exchange | internal/peerpath/negotiate.go:66-78 | The viewer sends first; the agent receives first and answers before it looks. |
| PeerNegotiations.DecidePath | internal/peerpath/negotiate.go:223-240 | The assignments compute the common decision. |
| FileTransfers.NeverAhead | internal/viewerapp/files.go:126-163 | In every run with delayed, reordered and lost messages the bridge is never ahead of the manager, level means the same bytes, and a difference with no acknowledgement on its way is a parting. |
| FileTransfers.PartedForGood | internal/viewerapp/files.go:126-190 | Once parted they stay so, the bridge learns of no further byte and never gets to ask for a commit. |
| FileTransfers.PartedRefuses | internal/filetransfer/filetransfer.go:487-568 | After the parting every chunk or commit of that upload is refused. |
| FileTransfers.CommitPublishesAcknowledged | internal/filetransfer/filetransfer.go:520-568 | A commit that succeeds gives the destination exactly the acknowledged chunks, where no file was, and touches no other file. |
| FileTransfers.FilesAreKeptInRuns | internal/filetransfer/filetransfer.go:401-568 | No run of the two programs changes or removes a file that exists. |
| FileTransfers.StepKeepsInv | internal/filetransfer/filetransfer.go:401-568 | Every step, with failing file operations, expiries and cancellations, keeps bridge and manager level or apart. |
| FileTransferEffects.UploadArrives | internal/viewerapp/files.go:89-190 | From any reachable state: every content of at most 1 GiB, cut anyhow into chunks of 1 to 32768 bytes, arrives at a free destination, and the bridge hears so, if nothing is lost or fails. |
| FileTransferEffects.BeginsExactly | internal/filetransfer/filetransfer.go:401-453 | Exactly when an upload is begun. |
| FileTransferEffects.WritesExactly | internal/filetransfer/filetransfer.go:487-518 | Exactly when a chunk is written, the last one included, and what the staging file holds then. |
| FileTransferEffects.PublishesExactly | internal/filetransfer/filetransfer.go:520-568 | Exactly when a file is published. |
| FileTransferEffects.HearsExactly | internal/viewerapp/files.go:89-190 | Which replies enter an upload, advance it and end it; no other reply changes one. |
| FileTransferEffects.LimitsInEveryRun | internal/viewerapp/files.go:89-125 | In every run the bridge has at most two uploads open and none beyond 1 GiB. |
| FileTransferEffects.ClosedForGood | internal/viewerapp/files.go:126-225 | An upload that is over is never asked about again. |
| FileTransferObjects.TransferManager.Begin | internal/filetransfer/filetransfer.go:401-453 | At most two transfers, no oversized file, no existing destination. |
| FileTransferObjects.TransferManager.Chunk | internal/filetransfer/filetransfer.go:487-518 | A chunk is taken only at the offset, within the size and with its digest; a write that fails leaves the settled bytes. |
| FileTransferObjects.TransferManager.Commit | internal/filetransfer/filetransfer.go:520-568 | The staged bytes that are read back are published, or nothing. |
| FileTransferObjects.TransferManager.Expire | internal/filetransfer/filetransfer.go:652-661 | Exactly the transfers idle for two minutes go, and no file. |
| FileTransferObjects.FileBridge.Begin | internal/viewerapp/files.go:89-125 | Uploads idle for more than two minutes make way unless the file is too large; then at most two uploads, and one that was begun starts empty under the manager's identifier. |
| FileTransferObjects.FileBridge.Chunk | internal/viewerapp/files.go:126-163 | A chunk out of order is not sent; without the right acknowledgement nothing advances. |
| FileTransferObjects.FileBridge.Commit | internal/viewerapp/files.go:164-190 | A commit is asked for only when all is acknowledged, with the digest of just that. |
| FileTransferObjects.Download | internal/viewerapp/files.go:228-276 | Whatever the other side replies, a download that ends well has the announced length, the announced digest, and the pieces' bytes in order; it ends otherwise only with the replies or at a piece that does not fit. |
| Stun.ReplyWellFormed | internal/natstun/server.go:71-175 | Every answer is a well-formed message of at most 320 bytes that echoes the transaction identifier, to an acceptable request only, with a fitting fingerprint exactly if the request has one. |
| Stun.SuccessTellsSource | internal/natstun/server.go:110-137 | The success answer decodes to the source address and port. |
| Stun.ErrorListsUnknowns | internal/natstun/server.go:102-163 | A 420 answer lists exactly the unknown comprehension-required types, each once. |
| Stun.CredentialsRefused | internal/natstun/server.go:98-120 | Any credential attribute is answered with error 400. |
| Stun.DecodeEncoded | internal/natstun/server.go:71-109 | Section 5 and section 14 of RFC 8489: every message is read back from its encoding. |
| Stun.UnknownsExact | internal/natstun/server.go:79-107 | The list holds each unknown type once, in order of appearance, and is no longer than the attributes. |
| StunRequests.AnswersExactly | internal/natstun/server.go:71-163 | A packet is answered exactly if it is a Binding request, octet by octet as RFC 8489 has it, from a specific unicast sender; with error 400, error 420 or success, by its attributes. |
| StunRequests.AcceptsExactly | internal/natstun/server.go:71-109 | The conditions on cookie, lengths, attributes, fingerprint and sender, said on the octets. |
| StunRequests.ParsesExactly | internal/natstun/server.go:82-98 | Attributes parse exactly if they are laid out as section 14 has it, with any padding. |
| StunServers.BindingResponse | internal/natstun/server.go:71-138 | The code over in-place buffers answers as specified, byte for byte, or not at all. |
| StunServers.Attributes | internal/natstun/server.go:82-109 | The walk stays in bounds, at most 139 unknown types fit the fixed array, and it rejects exactly what does not parse or has a fingerprint that does not fit. |
| StunServers.BindingError | internal/natstun/server.go:142-163 | The error answer, with its list of types, written in place. |
| StunServers.BindingSuccess | internal/natstun/server.go:124-137 | The success answer written in place. |
| StunServers.FinishResponse | internal/natstun/server.go:165-175 | Header and fingerprint are put around the body. |
| StunServers.Limiter.Allow | internal/natstun/server.go:208-233 | An answer is allowed exactly if fewer than 1000 were given in this second, and fewer than 20 to this host. |
| StunServers.Limiter.Serve | internal/natstun/server.go:44-69 | One turn of the loop: a packet is answered as specified or not at all, and only an answer that could be given counts against its source. |
| StunServers.SharedWindow | internal/natstun/server.go:198-206 | Two addresses that can be answered share a limit exactly if they are the same IPv4 address, in whatever form, or lie in the same /64. |
| InputQueues.UnseenExactly | internal/agentapp/input_queue.go:32-101 | Over every interleaving of accepting and working, with a system, a screen and a cancellation of its own for each message: after every step the queue leads to the session and the events that serving every accepted message leads to, hover moves aside, if and only if every replacement was harmless. |
| InputQueues.StepUnseenExactly | internal/agentapp/input_queue.go:58-101 | The same for one step of any run that was unnoticed before. |
| InputQueues.HarmlessExactly | internal/agentapp/input_queue.go:67-77 | For two hover moves, no button held unless a release is owed: the first can be dropped without a difference if and only if it is harmless, a condition on what the system takes, what is held and where the pointer goes. |
| InputQueues.HarmlessUnderOneSystem | internal/agentapp/input_queue.go:67-77 | For one system, moves the session can read and no release owed: harmless if and only if the first is taken, or no key is held, or the second is refused too and every held key is let go of or both end at the same place. |
| InputQueues.TwoHovers | internal/agentapp/input_queue.go:67-77 | Serving one hover move after another and serving the second alone end alike if and only if that is harmless. |
| InputQueues.SameAsServingAll | internal/agentapp/input_queue.go:32-101 | If every replacement is harmless then, once the queue is empty, the session is as if every accepted message had been served and the system did the same but for hover moves: all other events in order, at their positions, with the buttons held. |
| InputQueues.HarmShows | internal/agentapp/input_queue.go:32-101 | If a run ends in its first replacement that is not harmless, then when the queue has been served the session or the events differ. |
| InputQueues.SameButFollowedHovers | internal/agentapp/input_queue.go:32-101 | If also every hover move is taken, the system did exactly the same but for hover moves that another follows at once. |
| InputQueues.RunTracked | internal/agentapp/input_queue.go:58-101 | Over every run, whatever the system refuses, the queue's button mask covers what the session will hold, and a hover move at its end meets no held button. |
| InputQueues.ServeGuarded | internal/agentapp/input_queue.go:81-94 | The queue's button mask covers what the session holds, unless a release is owed. |
| InputQueues.RefusedMoveMatters | internal/agentapp/input_queue.go:67-77 | The queue is noticed with any system that takes the events around it and refuses one hover move: a key stays down. |
| InputQueues.UnreadMoveMatters | internal/agentapp/input_queue.go:67-77 | The queue is noticed, even if every event is taken, with a hover move whose width the session cannot read: a key stays down. |
| InputSessions.NothingStaysDown | internal/agentapp/input.go:40-133 | Whatever the system took or refused during each message, after a release that succeeds nothing the session pressed stays down, and one that fails is owed. |
| InputSessions.OwedReleaseMadeGood | internal/agentapp/input.go:58-71 | An owed release is made good with the next message that is decoded while the system lets go: nothing from before is down when its events begin. |
| InputEffects.HandleApplies | internal/agentapp/input.go:40-106 | Exactly the events before the first that comes too late, has no mouse's button or is refused are applied, in order, scaled, with the buttons that were down; the message succeeds exactly if that is all of them. |
| InputEffects.HandleRefuses | internal/agentapp/input.go:40-60 | A message that cannot be read, is too long or comes too late applies nothing. |
| InputEffects.HandleOwing | internal/agentapp/input.go:62-71 | While an owed release is not made good no event is applied. |
| InputEffects.ReleaseExactly | internal/agentapp/input.go:108-133 | A release lets go of exactly what is held and the system lets go of, buttons at the pointer. |
| InputEffects.ServeReleases | internal/agentapp/main.go:1245-1252 | After a message that fails nothing stays down that the system lets go of; after one that does not nothing is released. |
| InputEffects.ScaledPlace | internal/agentapp/input.go:75-86 | Mouse events go to the nearest place of the screen, across by the widths and down by the heights; nothing else of an event changes. |
| InputEffects.ScaleNearest | internal/desktop/encode.go:59-65 | Coordinates are rounded to the nearest, clamped, end points to end points. |
| InputEffects.ScaleMonotone | internal/desktop/encode.go:59-65 | Order is kept, and equal sizes move nothing. |
| InputDeliveries.NothingElseDropped | internal/agentapp/input_queue.go:32-101 | Over every run everything accepted but lone moves is served once, in order, or waits among at most 64. |
| InputDeliveries.TakenExactly | internal/agentapp/input_queue.go:58-80 | Exactly when a message is taken; it is then the last to wait. |
| InputDeliveries.TakenIsServed | internal/agentapp/input_queue.go:32-57 | It is served after those before it. |
| InputDeliveries.DroppedIsHover | internal/agentapp/input_queue.go:67-77 | A waiting message is dropped only for the one accepted right after it, both lone moves with no button pressed. |
| InputDeliveries.MovesCoalesce | internal/agentapp/input_queue.go:67-77 | Of two such moves in a row only the second waits. |
| InputDeliveries.MaskExact | internal/agentapp/input_queue.go:81-94 | Over every run the queue's mask holds exactly the buttons that the accepted messages leave pressed. |
| InputQueueObjects.InputQueue.Enqueue | internal/agentapp/input_queue.go:58-101 | What is refused, replaced or appended in the fixed buffer, by what the events alone decode to. |
| InputQueueObjects.InputQueue.Pop | internal/agentapp/input_queue.go:47-51 | The first item is taken and the others move up in place. |
| InputQueueObjects.InputSession.Handle | internal/agentapp/input.go:40-106 | The loop over the events stops at the first that is invalid or refused, or before which the context is cancelled, after an owed release was made good. |
| InputQueueObjects.InputSession.Release | internal/agentapp/input.go:114-133 | Both loops forget what was let go of, and only that. |
| InputQueueObjects.InputSession.Serve | internal/agentapp/main.go:1245-1252 | After an error everything held is released. |

## Left out

- Desktop capture, input injection, audio, clipboard, tray, windows, HTTP pages, setup and update tools, TLS and the key
  exchange: calls into code outside these models.
- Licences, accounts and audit: a licence check may answer anything.
- Deadlines, pacing and liveness: a step may come at any time or never. The claim that every pairing is eventually removed
  is not made.
- Counters of revisions, joins and generations are unbounded; only the record sequence number has its width.
- Tiles in the legacy whole-frame mode, and cursors of an earlier hub.
- Pixel rows are stored without stride padding, and the worker pool that encodes tiles in parallel is a loop.
- Connections.Conn.WriteMessage: the priority class of a write, the pacing and the waiting at the two gates are not part of
  the connection object; `PriorityGate.dfy` models the gates, `WireSchedule.dfy` every schedule they allow.
- The capture worker and the stream loop run concurrently only in `TilePipeline.dfy`; the objects in
  `TileStreamObject.dfy` are one turn of each.
- Meetings: the reason queued to those in a room that ends is shown for the room object only; a participant of a removed
  room is not followed further.
- Conference TURN credentials, the quota of relayed traffic, and the first, advisory look at a meeting before a
  participant is told to proceed.
- A participant's own entry in its picture starts with everything off, as the broker's does; the user interface that shows
  it is not modelled.
- Port mapping records are values in the table rather than shared objects; the authorisation of FRP logins, proxies and
  user connections only reads the tables.
- PortMaps.NothingLeaks: close hooks succeed; a hook that fails to close leaves its port open in the source too.
- PairingBrokers.PairingBroker.Enter: the lines written to the two connections and their order against pings are not
  modelled, nor are stop requests.
- SecureConns.RecordWriter.WriteRecord: the packet buffer that is reused between records is a value here.
- PeerPaths.SamePath: the two sides have the same pathV2 setting and relay permission.
- FileTransfers.StepKeepsInv: directory handles, path rules, symbolic links and identity checks of staging files are one
  choice of success or failure; other programs do not write staging files.
- Stun.ReplyWellFormed: CRC-32 is any function of 32 bits; sockets and their errors are not modelled.
- InputQueues.UnseenExactly: hover moves themselves are not compared, only the pointer they leave and every other event;
  `InputQueues.SameButFollowedHovers` compares them. Coordinates are unbounded integers, and while one message is served the
  system answers the same event alike.
- The channels that wake the input worker and the capture loop, and the notices sent to the viewer after an input error.
