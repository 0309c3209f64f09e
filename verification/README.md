# Skittermouse: the mesh, proved

Skittermouse lets several machines share one keyboard and mouse over a peer mesh. Its
protocol logic is portable C++ above an abstract message `Transport` with an injected
clock. This project models that logic in Dafny and proves what it is for, over whole runs:
sealed links, one input owner that every machine agrees on, control that always returns to
the local user, byte streams and files that arrive as they were sent, a configuration that
survives being saved, and pairing that ends in the same code and key on both sides.

`dafny verify dfyconfig.toml` verifies everything.

## How it is built

Code that the program runs as loops over fields appears as classes and methods with the
same fields, branches and order of effects (`EncryptedTransport`, `OwnershipState`,
`WsFrameAssembler`, `FileSender`, `FileReceiver`, `FilePullSession`, `PromiseStream`,
`MeshNode`, `ClipboardSync`, `ConnectionManager`, `PairingExchange`, the codecs, the
configuration printer and parser, the DER builder, HKDF). Each method's contract equates
its result and new state with a specification function, and the theorems are about runs
made of those functions: every finite sequence of events, in every order.

| file | what it covers |
|---|---|
| `ByteStrings.dfy` | bytes, big-endian words, exclusive or, `std::string` order |
| `SealedLink.dfy` | the AES-GCM decorator: one end, two ends over any network, two ends over a FIFO network |
| `Ownership.dfy`, `OwnershipMesh.dfy` | the Lamport last-writer-wins register, its wire form, any number of replicas |
| `MeshModel.dfy`, `MeshNotices.dfy`, `MeshRegister.dfy`, `MeshObject.dfy` | one mesh node: liveness, election, fail-safe, notices, what it adopts and broadcasts, and the object itself |
| `MeshHearing.dfy`, `MeshBeats.dfy`, `MeshOwner.dfy` | what a node makes of what it hears over a whole run, when it beats, what it tells of its owner |
| `MeshNetwork.dfy` | any number of mesh nodes exchanging their broadcasts: a run of the replicated register |
| `Clipboard.dfy` | echo suppression on one machine, quiescence of the whole mesh |
| `WsFrames.dfy` | RFC 6455 sections 5.2 and 5.3, reassembly from any fragmentation |
| `MessageCodec.dfy`, `FileCodec.dfy`, `FileSession.dfy`, `FileChannel.dfy`, `FileAssembly.dfy`, `FilePull.dfy` | files from the sender's cursors to the bytes the shell reads |
| `ConfigText.dfy`, `Config.dfy` | the configuration file |
| `Connections.dfy` | naming, registering and reaping links |
| `PairingCrypto.dfy`, `Pairing.dfy` | code, key and the commit/reveal exchange |
| `Der.dfy`, `Hkdf.dfy` | ITU-T X.690 elements and the certificate of section 4.1 of RFC 5280; RFC 5869 |

## Where the code and its intent part ways

- The comment at `src/app/mesh_node.cpp:209-210` says a later explicit switch re-establishes
  a single owner after private reverts. That holds when the switching machine's clock is at
  least every other one's (`TopClockSwitchReconciles`); one receiver adopts it exactly under
  `Adopts` (`SwitchAdoptedIff`); and `PrivateRevertsCanOutliveASwitch` is a mesh of three
  machines that end with three owners after it was delivered everywhere. `NodesReconcile` carries
  the theorem over to whole mesh nodes.
- "It always wins locally" (`src/core/ownership_state.cpp:22-24`) holds exactly while the
  64-bit clock is below its maximum (`SwitchWinsLocally`). A claim stamped 2^64-1 therefore
  defeats the fail-safe once its owner goes silent (`ExhaustedClockKeepsSilentOwner`), and
  for good, until a superseding claim is heard (`LastClockFreezesOwner`). `LocalControlWins`
  gives the exact condition, `ControlBeforeLastClock` one on the inputs. At that last value the
  fail-safe also tells of a revert that did not happen; before it, owner notices are exact
  (`OwnerNoticesAreExact`).
- An id list holding only the empty id prints like the empty list and is read back as such
  (`SplitOfJoin`, `ConfigRoundTrip`). Where `long` has 32 bits, reading back the printed
  monitor value -2^31 overflows, and no other printed value does (`PrintedNumbersFitLong`).
- The codecs narrow silently: ids above 255 bytes are cut (`WireRoundTrip`), names above
  65535 bytes and 2^32 files corrupt the metadata (`MetaRoundTrip`), payloads above 64 MiB
  are refused by the receiver (`VarRoundTrip`). Each round trip is proved to hold exactly
  outside these cases.
- The file receiver reads into a 1 MiB buffer, and a message that does not fit is skipped
  without a word. A transfer completes exactly when every message fits (`TransferIsExact`).
  When only the short last chunk of a file fits, its bytes are counted as if they were the
  first ones, and a reader of the pull is served zeros: `OversizedChunkServesZero` is such a
  sender, `TruthfulIffSound` the exact condition, which chunks of up to 1 MiB less 18 bytes
  always meet.
- A clipboard text above 8186 bytes does not fit the receive buffer of a poll and is dropped
  (`UnderstoodIffFits`).
- Clipboard suppression remembers one update: two applied back to back, before the first
  one's echo, are rebroadcast unless their hashes collide (`BackToBackUpdates`).
- `read` returns a byte count as `int`; a reader asking for 2^31 bytes or more of available
  data is told of a failure (`ServedIff`).
- At the exhausted counter `send` encrypts before it refuses. The nonce never reaches the
  wire, so `NoNonceReuse` holds; but a receiver presented with such a frame would accept it
  (`UnsentFrameCanBeAccepted`). What was received is a selection of what was sent exactly
  when none was (`ReceivedIsSelectionOfSent`), and always over a network that can present
  only what it was given or bytes no encryption produced (`ReceivedWasSent`).

## Model

| member | source | states |
|---|---|---|
| SealedLink.MakeNonce | src/net/encrypted_transport.h:120-126 | the two loops over the array leave role byte, three zeros, and the counter most significant byte first |
| SealedLink.CounterRoundTrip | src/net/encrypted_transport.h:120-133 | reading the counter of a nonce undoes making it, for every 64-bit counter |
| SealedLink.NonceInjective | src/net/encrypted_transport.h:11-16 | two nonces are equal exactly when role and counter are |
| SealedLink.FrameLayout | src/net/encrypted_transport.h:9-17 | on the wire: first octet 0 from the end with the smaller id and 1 from the other, three zeros, the counter, the tag, the ciphertext |
| SealedLink.LinkRolesOpposite | src/net/encrypted_transport.h:147-154 | two machines take opposite roles exactly when their ids differ |
| SealedLink.EndsFormALink | src/net/encrypted_transport.h:150-154 | the ends two machines with distinct ids build for themselves are the two ends of one link |
| SealedLink.EncryptedTransport.Send | src/net/encrypted_transport.h:70-90 | which frame is handed on, when none is, and that the counter moves exactly when one is |
| SealedLink.EncryptedTransport.Recv | src/net/encrypted_transport.h:92-117 | what is returned for every inner result, size, role, counter and decryption outcome, and that only an accepted frame changes the window |
| SealedLink.RunKeepsInv | src/net/encrypted_transport.h:70-117 | in every run over any network both ends keep the sender and receiver invariants |
| SealedLink.ReceivedIsSelectionOfSent | src/net/encrypted_transport.h:92-117 | with an ideal cipher and any network, what an end receives is an in-order, duplicate-free selection of what the other encrypted, and of what it sent exactly unless the exhausted counter was accepted, so always while the sender's counter is not exhausted |
| SealedLink.ReceivedWasSent | src/net/encrypted_transport.h:70-117 | over a network that drops, repeats, reorders, reflects or alters but cannot present a frame it was never given, what an end receives is such a selection of what the other sent, in every run |
| SealedLink.UnsentFrameCanBeAccepted | src/net/encrypted_transport.h:81-88 | every run of 2^64 or more encryptions has a continuation in which a frame that was never sent is accepted |
| SealedLink.NoNonceReuse | src/net/encrypted_transport.h:70-90 | no two frames handed to the transport by either end, in any run, carry the same nonce |
| SealedLink.ReceivedFits | src/net/encrypted_transport.h:92-117 | nothing longer than the receiver's buffer is ever returned |
| SealedLink.FifoDeliversPrefix | src/net/encrypted_transport.h:92-117 | over a faithful FIFO network with large enough buffers, what was received is exactly a prefix of what was sent and the rest is queued |
| Ownership.SupersedesTotal | src/core/ownership_state.cpp:7-14 | claims are totally ordered by (sequence, origin) and no two supersede each other |
| Ownership.SwitchWinsLocally | src/core/ownership_state.cpp:21-28 | a local switch wins locally exactly until the clock is used up, and then nothing changes |
| Ownership.ApplyIdempotent | src/core/ownership_state.cpp:30-40 | receiving a claim again changes nothing |
| Ownership.ApplyCommutes | src/core/ownership_state.cpp:30-40 | claims with different stamps may be applied in either order |
| Ownership.OwnershipState.RequestSwitchTo | src/core/ownership_state.cpp:21-28 | the issued claim and the register after it |
| Ownership.OwnershipState.ApplyClaim | src/core/ownership_state.cpp:30-40 | the register after a claim, and that it is adopted exactly when it supersedes |
| Ownership.EncodeOwnershipClaim | src/net/ownership_codec.cpp:5-16 | the wire form of a claim |
| Ownership.DecodeOwnershipClaim | src/net/ownership_codec.cpp:18-34 | the claim read from arbitrary bytes, or none |
| Ownership.DecodeOfEncode | src/net/ownership_codec.cpp:5-34 | decoding an encoded claim, whatever follows it, gives it back with its ids cut to 255 bytes |
| Ownership.WireRoundTrip | src/net/ownership_codec.cpp:5-34 | a claim comes back unchanged exactly when both ids fit the length byte |
| Ownership.ClaimLayout | src/net/ownership_codec.cpp:5-16 | where target, origin and sequence of a claim are on the wire |
| Ownership.AcceptsOnlyEncodings | src/net/ownership_codec.cpp:18-34 | bytes are accepted as a claim exactly when they begin with the encoding of that claim, its ids and sequence within their fields |
| OwnershipMesh.RunKeepsInv | src/core/ownership_state.cpp:21-40 | every run keeps clock = current sequence, distinct stamps, and each register the maximum it has applied |
| OwnershipMesh.EveryNodeHoldsTheMaximum | src/core/ownership_state.cpp:7-40 | any number of machines, claims delivered in any order and multiplicity over the wire codec: each holds the maximum of its initial claim and all it applied, and no (origin, sequence) is issued twice |
| OwnershipMesh.Convergence | src/core/ownership_state.cpp:10-13 | machines that applied the same non-empty set of claims hold the same claim |
| OwnershipMesh.SwitchAdoptedIff | src/core/ownership_state.cpp:7-40 | after any history a receiver adopts another machine's next switch exactly under a condition on the two clocks and one origin |
| OwnershipMesh.TopClockSwitchReconciles | src/app/mesh_node.cpp:206-215 | after any history with private reverts, a switch by a machine with a greatest clock is what every machine that has received it holds, whatever else is delivered |
| OwnershipMesh.TopClaimIsHeld | src/core/ownership_state.cpp:21-40 | the same whenever nothing else is issued meanwhile |
| OwnershipMesh.PrivateRevertsCanOutliveASwitch | src/app/mesh_node.cpp:209-215 | a concrete run in which a delivered switch leaves three machines with three owners |
| MeshModel.LocalControlWins | src/app/mesh_node.cpp:206-215 | in every run with a non-decreasing clock, after each poll or removal the owner is this machine or a peer heard from within the timeout, exactly unless the logical clock is used up under a silent owner |
| MeshModel.RefreshRestoresControl | src/app/mesh_node.cpp:186-216 | from any sound state the refresh restores local control exactly unless the clock is used up |
| MeshModel.ExhaustedClockKeepsSilentOwner | src/app/mesh_node.cpp:211-215 | a concrete run in which a claim stamped 2^64-1 keeps a silent machine in control, the clock at its last value |
| MeshModel.RefreshPeersFacts | src/app/mesh_node.cpp:186-204 | the refresh loop stores each visited peer's liveness, collects exactly the live ones, and leaves everything else alone |
| MeshModel.CurrentServerIsFirst | src/core/server_election.cpp:56-65 | the elected machine is online and every earlier entry is not; none is elected only if all entries are offline |
| MeshModel.NewPeerGoesLast | src/app/mesh_node.cpp:24-27 | a new peer goes to the end of the priority list, an old one keeps its place |
| MeshModel.AddingNeverDemotes | src/app/mesh_node.cpp:24-27 | adding a peer never takes the coordinator's place |
| MeshModel.ElectionFollowsLiveness | src/app/mesh_node.cpp:186-204 | in every run, after each poll or removal the primary is the first priority entry among this machine and the live registered peers |
| MeshModel.RunKeepsSound | src/app/mesh_node.cpp:14-60 | in every run the register's clock equals its claim's sequence, and liveness is known only of registered peers and never in the future |
| MeshNotices.NoticesAlternate | src/app/mesh_node.cpp:186-203 | in every run each peer's online and offline notices strictly alternate from online, and the last agrees with the stored liveness |
| MeshNotices.NoticesAreCurrent | src/app/mesh_node.cpp:186-203 | after a poll or removal the last notice of each registered peer says online exactly when the time since it was last heard is below the timeout |
| MeshNotices.ForgetTells | src/app/mesh_node.cpp:29-40 | removing a peer that was online reports it offline once, and it is then forgotten |
| MeshOwner.OwnerNoticesAreExact | src/app/mesh_node.cpp:47-60 | in every run until the last clock value, no change of owner goes untold and none is told twice |
| MeshHearing.RunSays | src/app/mesh_node.cpp:127-184 | over every run from a new node, in order: the events injected are exactly the mouse and key events heard while the register, after the claims heard before them, named another machine; the texts handed on exactly the clipboard updates heard; one version warning per peer since it was removed; a refusal for exactly the unreachable switches |
| MeshHearing.WarnedIsSince | src/app/mesh_node.cpp:134-138 | the peers not to be warned about again are those heard with another version since their last removal |
| MeshHearing.EchoIsSuppressed | src/app/mesh_node.cpp:168-173 | after a poll that heard clipboard updates, the echo of the last one is not broadcast |
| MeshHearing.SeenIsLastHeard | src/core/heartbeat.cpp:5-13 | in every run the liveness table holds of each peer the time of the last poll that heard anything from it since its last removal |
| MeshHearing.AliveIsHeardLately | src/core/heartbeat.cpp:5-13 | a peer is alive exactly when that was less than the timeout ago |
| MeshBeats.BeatWhenDue | src/app/mesh_node.cpp:95-104 | in every run with a non-decreasing, positive clock a beat adds one broadcast, a heartbeat stamped with the clock modulo 2^32, when no earlier beat that broadcast is less than the interval ago, and nothing otherwise |
| MeshBeats.SpacedBeatsAreSent | src/app/mesh_node.cpp:95-104 | beats at gaps of at least the interval are all sent |
| MeshBeats.HeartbeatOnlyMarksAlive | src/app/mesh_node.cpp:127-145 | hearing a heartbeat marks its sender alive and changes nothing else |
| MeshBeats.HeardLatelyIsAlive | src/app/mesh_node.cpp:186-203 | a peer heard less than the timeout before the latest poll is alive and said to be online |
| MeshBeats.BeatingKeepsAlive | src/app/mesh_node.cpp:95-203 | two nodes: who beats at gaps of at least its interval, and is read each time within the other's timeout, stays alive and online to it |
| MeshRegister.PollRegister | src/app/mesh_node.cpp:106-119 | a poll leaves the newest of what was held and heard, in whatever order peers are read, and reverts to this machine exactly when that names a silent one |
| MeshRegister.SwitchTakesEffect | src/app/mesh_node.cpp:47-60 | in every run a requested switch makes its target the owner exactly when the target is reachable and the clock not used up, or it already was; an unreachable target leaves the register alone |
| MeshRegister.OnlyRequestsBroadcast | src/app/mesh_node.cpp:47-119 | in every run the broadcasts are exactly the claims of accepted switch requests, due heartbeats and genuine clipboard changes, in order: polls, removals and fail-safe reverts broadcast nothing |
| MeshRegister.LastClockStep | src/app/mesh_node.cpp:206-215 | with the clock at its last value a step changes the register exactly when it hears a superseding claim |
| MeshRegister.LastClockFreezesOwner | src/app/mesh_node.cpp:206-215 | once the clock is at its last value, no run without a superseding claim ever changes the owner |
| MeshRegister.ControlBeforeLastClock | src/app/mesh_node.cpp:206-215 | while the clock held and every stamp heard are below 2^64-1, each poll or removal leaves this machine or a live peer in control |
| MeshNetwork.StepRegister | src/app/mesh_node.cpp:29-216 | every step of a node is, for its register: apply what was heard, then the claim issued, if any |
| MeshNetwork.RunSimulates | src/app/mesh_node.cpp:47-216 | every run of any number of nodes that hear only each other's broadcasts is, register by register, a run of the abstract mesh |
| MeshNetwork.NodesConverge | src/app/mesh_node.cpp:47-216 | in every such run two nodes that applied the same non-empty set of claims name the same owner |
| MeshNetwork.NodesReconcile | src/app/mesh_node.cpp:206-215 | after any such run an accepted switch by a node with a greatest clock is what every node that has received it holds, until one switches or reverts again |
| MeshObject.MeshNode.SetPriority | src/app/mesh_node.cpp:18-20 | the priority list is replaced and nothing else |
| MeshObject.MeshNode.AddPeer | src/app/mesh_node.cpp:24-27 | the whole node after a peer is added |
| MeshObject.MeshNode.RemovePeer | src/app/mesh_node.cpp:29-40 | the whole node after a removal and the refresh it triggers |
| MeshObject.MeshNode.RequestSwitchTo | src/app/mesh_node.cpp:47-60 | the whole node after a switch request, broadcast and notices included |
| MeshObject.MeshNode.SendHeartbeats | src/app/mesh_node.cpp:95-104 | the clock moves, and the heartbeat is broadcast and its time kept exactly when due; when that is, is `BeatWhenDue` |
| MeshObject.MeshNode.OnLocalClipboardChange | src/app/mesh_node.cpp:81-86 | the suppression is spent and a genuine change broadcast |
| MeshObject.MeshNode.Poll | src/app/mesh_node.cpp:106-119 | the nested loops over peers and messages, then the refresh, leave the node the specification gives for some enumeration of the peers |
| MeshObject.MeshNode.HandleMessage | src/app/mesh_node.cpp:127-184 | what one message of any content changes: liveness, register, clipboard suppression, warnings, and every callback but the file promise; what that comes to over runs is `RunSays` and `SeenIsLastHeard` |
| MeshObject.MeshNode.RefreshOnlineAndFailSafe | src/app/mesh_node.cpp:186-216 | the refresh loop, the election input and the fail-safe |
| MeshObject.MeshNode.Primary | src/core/server_election.cpp:56-65 | the search loop finds the first online entry of the priority list |
| Clipboard.ClipboardSync.ComputeHash | src/core/clipboard_sync.cpp:5-13 | the loop computes the FNV-1a hash of `RoundIsFnv1a` |
| Clipboard.RoundIsFnv1a | src/core/clipboard_sync.cpp:5-13 | a round is the 64-bit exclusive or with the byte, times the FNV prime, modulo 2^64, from the offset basis |
| Clipboard.ClipboardSync.NoteAppliedRemote | src/core/clipboard_sync.cpp:15-18 | the remembered update is replaced |
| Clipboard.ClipboardSync.ShouldBroadcastLocalChange | src/core/clipboard_sync.cpp:20-29 | which change is broadcast, and that the suppression is spent either way |
| Clipboard.UnderstoodIffFits | src/app/mesh_node.cpp:106-119 | an update is understood by the receiving poll exactly when it fits the 8192-byte buffer |
| Clipboard.BackToBackUpdates | src/core/clipboard_sync.cpp:15-29 | with two updates applied before an echo, the first echo is rebroadcast exactly unless the hashes agree, and the second always is |
| Clipboard.NoEchoIsRebroadcast | src/app/mesh_node.cpp:81-86 | in every run of N machines no echo is rebroadcast, and user changes cost exactly N-1 messages each |
| Clipboard.QuietRunsTerminate | src/app/mesh_node.cpp:168-173 | without user changes, steps taken plus what is left (two per message in flight, one if too long for the buffer, one per echo owed) is constant, so every run ends |
| Clipboard.NeverStuck | src/app/mesh_node.cpp:168-173 | while anything is left some step is possible |
| WsFrames.WsEncodeFrame | src/net/ws_frame.cpp:11-39 | the three length forms, the mask key or zeros, the payload masked as in `MaskOnWire` |
| WsFrames.DecodeHeader | src/net/ws_frame.cpp:41-66 | the advancing position reads exactly the header, reports missing bytes, or refuses the length |
| WsFrames.WsDecodeFrame | src/net/ws_frame.cpp:41-80 | need-more, protocol error, or the frame, unmasked bit by bit as in `MaskFlipsKeyBits`, and the bytes it took, for arbitrary input |
| WsFrames.DecodeOfEncode | src/net/ws_frame.cpp:11-80 | decoding undoes encoding and takes exactly one frame, for every mask key and whatever follows |
| WsFrames.DecodeExtends | src/net/ws_frame.cpp:41-80 | bytes after a decided prefix never change the verdict |
| WsFrames.MaskInvolution | src/net/ws_frame.cpp:29-35 | masking twice with one key gives the payload back |
| WsFrames.MaskOnWire | src/net/ws_frame.cpp:29-35 | after the header, which ends with the key, bit j of byte i of a masked frame differs from the payload's exactly when bit j of key byte i mod 4 is set |
| WsFrames.MaskFlipsKeyBits | src/net/ws_frame.cpp:70-73 | the same of masking and unmasking themselves |
| WsFrames.ZeroKeyIsNoMask | src/net/ws_frame.cpp:29-35 | the zero key leaves the payload as it is |
| WsFrames.RfcExamples | src/net/ws_frame.cpp:11-39 | the examples of section 5.7 of RFC 6455: final and continued, masked and unmasked, and the three length forms |
| WsFrames.FramesOfStream | src/net/ws_frame.cpp:11-80 | greedy decoding of concatenated encodings gives exactly the frames encoded |
| WsFrames.WsFrameAssembler.Feed | src/net/frame_assembler.cpp:5-7 | the buffer grows by the bytes fed |
| WsFrames.WsFrameAssembler.Next | src/net/frame_assembler.cpp:9-20 | the popped frame and what stays buffered, cleared on a protocol error |
| WsFrames.PoppedPlusBuffered | src/net/frame_assembler.cpp:5-20 | for arbitrary bytes, until the first error popped frames and buffer together denote what the whole stream does, past and future |
| WsFrames.ErrorPoint | src/net/frame_assembler.cpp:16-18 | when the error comes, exactly the frames before it have been popped, however the stream was cut |
| WsFrames.StreamInvariant | src/net/frame_assembler.cpp:5-20 | on a stream of encodings the buffer and what is still to come are always the encodings of the frames not yet popped |
| WsFrames.ReassemblyIsFragmentationIndependent | src/net/frame_assembler.cpp:5-20 | however encodings are cut into feeds and interleaved with pops: no error, a prefix popped, and once all is fed each pop gives the next frame until none is left |
| MessageCodec.VarRoundTrip | src/net/message_codec.cpp:48-93 | a variable message comes back, whatever follows it, exactly when its payload is within 64 MiB |
| MessageCodec.TruncatedIsNoMessage | src/net/message_codec.cpp:78-86 | a variable message that lost its end is never taken for a message |
| MessageCodec.EventRoundTrip | src/net/message_codec.cpp:42-76 | an input event comes back unchanged, signed movements included |
| MessageCodec.VarAccepts | src/net/message_codec.cpp:60-93 | bytes are accepted as a variable message exactly when they begin with the encoding of one of a known kind and at most 64 MiB |
| MessageCodec.EventAccepts | src/net/message_codec.cpp:60-76 | bytes are accepted as an input event exactly when they begin with its encoding |
| MessageCodec.VarLayout | src/net/message_codec.cpp:48-58 | version, type, length least significant octet first, payload |
| MessageCodec.EventLayout | src/net/message_codec.cpp:42-46 | where an event's fields are in its twelve octets, movements in two's complement |
| FileCodec.EncodeFilePromiseMeta | src/net/file_transfer.cpp:31-40 | the loop writes the count and every entry |
| FileCodec.DecodeFilePromiseMeta | src/net/file_transfer.cpp:42-61 | the loop with its moving position reads the entries of arbitrary bytes or fails |
| FileCodec.MetaRoundTrip | src/net/file_transfer.cpp:31-61 | the metadata comes back exactly when every name fits 16 bits of length and the count 32 |
| FileCodec.ChunkRoundTrip | src/net/file_transfer.cpp:63-78 | a chunk comes back with index, offset and data |
| FileCodec.MetaAccepts | src/net/file_transfer.cpp:42-61 | bytes are accepted as metadata exactly when they begin with the encoding of those entries, all within their fields |
| FileCodec.ChunkAccepts | src/net/file_transfer.cpp:70-78 | bytes are accepted as a chunk exactly when they are its encoding |
| FileCodec.ChunkLayout | src/net/file_transfer.cpp:63-69 | four octets of index, eight of offset, the data |
| FileCodec.EntryLayout | src/net/file_transfer.cpp:31-40 | two octets of name length, the name, eight of size |
| FileCodec.MetaLayout | src/net/file_transfer.cpp:31-40 | four octets of count, then the entries in order |
| FileSession.DrainInBatches | src/net/file_channel.cpp:43-63 | draining in two calls equals draining in one |
| FileSession.ReceiverAfter | src/net/file_channel.cpp:43-63 | after any number of messages, heard through the 1 MiB buffer, completion is reported exactly at the last one and if all fit; unless a file is torn, the received bytes of each are a prefix of the source |
| FileSession.NothingWithoutMeta | src/net/file_session.cpp:47-57 | when the metadata does not fit the buffer, nothing is ever received |
| FileSession.TransferIsExact | src/net/file_channel.cpp:19-63 | after the whole transmission completion is reported exactly when every message fits the 1 MiB buffer, and then names, sizes and bytes are those sent |
| FileChannel.FileSender.AddFile | src/net/file_session.cpp:8-11 | the file joins the list with its cursor at zero |
| FileChannel.FileSender.Meta | src/net/file_session.cpp:13-19 | the metadata lists every file with its size |
| FileChannel.FileSender.NextChunk | src/net/file_session.cpp:21-30 | the chunk at the cursor, which moves past it; nothing at the end |
| FileChannel.FileReceiver.AcceptMeta | src/net/file_session.cpp:36-45 | entries, zeroed buffers and counts replace what was there, or nothing changes |
| FileChannel.FileReceiver.AcceptChunkBytes | src/net/file_session.cpp:47-57 | the bytes land at their offset and are counted, exactly when index and bounds allow |
| FileChannel.FileReceiver.AllFilesComplete | src/net/file_session.cpp:59-68 | true exactly when there are files and each has its size in bytes |
| FileChannel.SendFile | src/net/file_channel.cpp:28-34 | terminates with the rest of the file sent in order, or the longest prefix the transport took |
| FileChannel.SendFiles | src/net/file_channel.cpp:27-35 | the loop over the files terminates with all their remaining chunks sent in order, or the longest prefix |
| FileChannel.SendAll | src/net/file_channel.cpp:19-41 | terminates with metadata and all remaining chunks sent in order and true returned, or the longest prefix and false |
| FileChannel.ReceiveAvailable | src/net/file_channel.cpp:43-63 | every available message is accepted in order, and completion is reported truthfully |
| FileChannel.AvailableIsAll | src/net/file_channel.cpp:43-47 | messages that are not empty are all heard |
| FileChannel.SentIsReceived | src/net/file_channel.cpp:19-63 | what a fresh sender puts out, received in two batches cut anywhere, is reported complete by the second exactly when every message fits the 1 MiB buffer, by the first exactly when moreover nothing is left, and then has arrived exactly |
| FileAssembly.ReceivedCountsDelivered | src/net/file_session.cpp:47-57 | with non-overlapping chunks in any order, `received` is the number of byte positions delivered |
| FileAssembly.CompleteIffCovered | src/net/file_session.cpp:59-62 | a file is complete exactly when every one of its bytes has been delivered |
| FileAssembly.BufferHolds | src/net/file_session.cpp:47-57 | every delivered byte is where its chunk says, every other one still zero |
| FileAssembly.OrderIsIrrelevant | src/net/file_session.cpp:47-68 | buffer and count do not depend on the order of arrival |
| FileAssembly.AssembledIsSource | src/net/file_session.cpp:47-68 | once chunks cut from a file complete it, the buffer is the file |
| FilePull.EveryReplyIsTruthful | src/platform/tray_win.cpp:906-968 | over a sender that tears no file, in every interleaving of dials, drains, failures, stalls and reads, bytes served are the file's bytes at that offset and 0 is returned only at or past its true end |
| FilePull.TruthfulIffSound | src/platform/tray_win.cpp:906-968 | that holds of every run if and only if the metadata does not fit the receive buffer or no file is torn, which the sender can check |
| FilePull.SmallChunksAreSound | src/net/file_channel.cpp:13-16 | chunks that fit the receive buffer tear no file |
| FilePull.OversizedChunkServesZero | src/net/file_channel.cpp:44-54 | a concrete sender with 1 MiB chunks of whose file, starting with 7, a reader is served a zero |
| FilePull.PollIsTruthful | src/platform/tray_win.cpp:944-954 | one locked section answers truthfully from any in-order receiver |
| FilePull.ServedIff | src/platform/tray_win.cpp:948-952 | a reader asking where bytes have arrived is served exactly when the count fits an `int` |
| FilePull.AnswersAtOnce | src/platform/tray_win.cpp:944-954 | in a session that has not failed, where bytes have arrived the first poll serves them for every schedule, the empty one included, and at or past the end of a whole file it says so |
| FilePull.WaitsWhileIdle | src/platform/tray_win.cpp:940-968 | a reader waits exactly through the states that have nothing to tell it |
| FilePull.ServedWhenItArrives | src/platform/tray_win.cpp:940-968 | it is served as soon as bytes arrive where it asks, told the end as soon as the file is whole, and fails only when the session does or nothing comes at all |
| FilePull.UndisturbedDelivers | src/platform/tray_win.cpp:906-929 | without refused dial, lost link or stall no session fails, and once there was time for every message every file is whole |
| FilePull.RunFollows | src/platform/tray_win.cpp:906-929 | in every interleaving the shared receiver is that of an undisturbed in-order transfer through the 1 MiB buffer |
| FilePull.FilePullSession.Read | src/platform/tray_win.cpp:934-968 | refused when the session has failed or cannot be dialed; otherwise bytes that have arrived where it asks are served at once, min(arrived, asked) of the file's own, and the end of a whole file is told, whatever other threads would do next; in every other case the loop ends with a truthful answer |
| FilePull.ReadInto | src/platform/tray_win.cpp:948-954 | the signed result of a read and what it leaves in the caller's buffer, a count too large for an `int` included |
| FilePull.PromiseStream.Read | src/platform/filepromise_win.cpp:80-96 | from a file that has wholly arrived every read of up to 2^31 - 1 bytes succeeds with the smaller of what was asked for and what is left; always, consecutive reads fill the buffer with consecutive slices of the file, a short success means its end, and only what was read, or on failure asked for, is written |
| ConfigText.Escape | src/core/config.cpp:11-24 | the loop escapes every character |
| ConfigText.Unescape | src/core/config.cpp:26-44 | the loop undoes escapes in arbitrary text, a trailing backslash included |
| ConfigText.UnescOfEsc | src/core/config.cpp:11-44 | unescaping undoes escaping for every text |
| ConfigText.EscapesAre | src/core/config.cpp:11-44 | the four escapes, character by character, and what an unknown escape or a last backslash reads as |
| ConfigText.EscIsClean | src/core/config.cpp:46-47 | escaped text holds no separator and no line break |
| ConfigText.JoinFields | src/core/config.cpp:48-55 | the loop joins the escaped fields |
| ConfigText.SplitFields | src/core/config.cpp:57-71 | the loop splits arbitrary text into unescaped fields |
| ConfigText.SplitOfJoin | src/core/config.cpp:48-71 | splitting undoes joining exactly unless the list is one empty field |
| ConfigText.SplitLines | src/core/config.cpp:73-90 | the loop cuts arbitrary text into lines, dropping carriage returns |
| ConfigText.LinesOfUnlines | src/core/config.cpp:73-90 | lines without breaks come back from the text they make |
| ConfigText.LinesOfCrLf | src/core/config.cpp:73-90 | lines ended by CR LF come back without either |
| ConfigText.LastLineNeedsNoEnd | src/core/config.cpp:73-90 | a last line without a line end is a line |
| ConfigText.ToU16 | src/core/config.cpp:92-100 | the clamping digit loop on arbitrary text |
| ConfigText.ToI32 | src/core/config.cpp:102-112 | sign, digit loop and narrowing on arbitrary text |
| ConfigText.U16RoundTrip | src/core/config.cpp:92-100 | every printed port is read back |
| ConfigText.I32RoundTrip | src/core/config.cpp:102-112 | every printed 32-bit integer is read back |
| ConfigText.U16ReadsLeadingDigits | src/core/config.cpp:92-100 | a port is what its leading digits denote, at most 65535, whatever follows |
| ConfigText.I32ReadsLeadingDigits | src/core/config.cpp:102-112 | a signed number is its sign applied to its leading digits, narrowed |
| ConfigText.NarrowIsModular | src/core/config.cpp:102-112 | narrowing gives the 32-bit integer that differs by a multiple of 2^32 |
| ConfigText.PrintedNumbersFitLong | src/core/config.cpp:102-112 | reading a printed number never overflows a 64-bit `long`, and a 32-bit one exactly for -2^31 |
| ConfigFile.SerializeConfig | src/core/config.cpp:130-151 | the printer writes every line in order |
| ConfigFile.ParseConfig | src/core/config.cpp:153-201 | the parser's loop over arbitrary text |
| ConfigFile.ParseOne | src/core/config.cpp:156-198 | one line: skipped, ignored, or assigned to its field |
| ConfigFile.ParseOfSerialize | src/core/config.cpp:130-201 | what reading a printed configuration gives, field by field |
| ConfigFile.ConfigRoundTrip | src/core/config.cpp:130-201 | a configuration with arbitrary text survives printing and parsing exactly when neither id list is the one empty id |
| ConfigFile.SilenceIsDefault | src/core/config.h:46-50 | what is read of an empty file: the settings of a new installation |
| ConfigFile.IgnoredAnywhere | src/core/config.cpp:153-201 | a blank line, comment, line without `=` or unknown key anywhere changes nothing |
| ConfigFile.MissingFieldsAreEmpty | src/core/config.cpp:170-197 | fields missing at the end of a device or monitor read as empty, further ones are ignored |
| ConfigFile.DeviceLineIs | src/core/config.cpp:138-142 | the seven fields of a device line and their order |
| ConfigFile.MonitorLineIs | src/core/config.cpp:145-149 | the six fields of a monitor line and their order |
| Connections.RunKeepsBooks | src/app/connection_manager.cpp:18-73 | in every run of dials, accepts and polls: mesh peers are the connected links, never self or nameless; a dialed link is registered only under its id; every link is in exactly one of pending, connected, dropped |
| Connections.PollRegisters | src/app/connection_manager.cpp:37-58 | a peer keeps its link, a new one gets the earliest pending link that vouches for it, and either goes if that link has closed |
| Connections.PollJudgesEveryHandshake | src/app/connection_manager.cpp:37-46 | a poll leaves pending exactly the links that are up and silent |
| Connections.PollReapsClosedLinks | src/app/connection_manager.cpp:61-73 | after a poll no closed link is registered |
| Connections.CallbacksAlternate | src/app/connection_manager.cpp:54-73 | in every run the connected and disconnected callbacks of each peer strictly alternate from connected, and the last agrees with the books |
| Connections.EveryLinkIsAnnounced | src/app/connection_manager.cpp:11-29 | in every run exactly the links handed over are announced to, once each and in order |
| Connections.ConnectionManager.AddOutgoing | src/app/connection_manager.cpp:18-23 | a link is announced to and waits under the id it was dialed for; a null one is ignored |
| Connections.ConnectionManager.AddIncoming | src/app/connection_manager.cpp:25-29 | a link is announced to and waits without an expectation; a null one is ignored |
| Connections.ConnectionManager.PollLinks | src/app/connection_manager.cpp:31-73 | both loops, for some enumeration of the connected peers, leave the specified books and callbacks, and no closed link |
| PairingCrypto.MemCmpIsOrder | src/pairing/verification_code.cpp:42-44 | the comparison as written decides the lexicographic order |
| PairingCrypto.TruncationShows | src/pairing/verification_code.cpp:14-25 | the six bytes are decimal digits and denote the first four MAC bytes, as a big-endian number modulo 2^31, modulo 10^6 |
| PairingCrypto.CodeIsCode | src/pairing/verification_code.cpp:33-58 | the code shows the HMAC under the shared secret of "pairing" and the two nonces, the smaller first |
| PairingCrypto.PskIsPsk | src/pairing/ecdh_handshake.cpp:29-47 | the key is one HKDF block over the shared secret, salted with the two ids, the smaller first |
| PairingCrypto.CodeSymmetric | src/pairing/verification_code.cpp:33-58 | both ends show the same six digits, whoever names its nonce first |
| PairingCrypto.PskSymmetric | src/pairing/ecdh_handshake.cpp:29-47 | both ends derive the same key |
| PairingCrypto.VerificationCode | src/pairing/verification_code.cpp:33-58 | six digits that show what `CodeIsCode` says |
| PairingCrypto.DerivePsk | src/pairing/ecdh_handshake.cpp:29-47 | the 32-byte key `PskIsPsk` describes, or none without a shared secret |
| Pairing.OkOnlyAfterMatchingReveal | src/pairing/pairing_exchange.cpp:37-111 | with any peer, success comes only after a reveal that hashes to the commitment before it, and code, key and peer id derive from that reveal |
| Pairing.SuccessIsEarned | src/pairing/pairing_exchange.cpp:37-111 | success takes exactly two messages, the second opening the first, and fixes code, key and peer id from them |
| Pairing.FirstRoundDecides | src/pairing/pairing_exchange.cpp:48-69 | the first message leads on exactly when it is 32 bytes and the reveal, spelled out, could be sent |
| Pairing.SecondRoundDecides | src/pairing/pairing_exchange.cpp:71-111 | the second succeeds exactly when it is a reveal of another machine that hashes, as point, nonce, id, to the commitment and gives a shared secret |
| Pairing.TerminalIsFinal | src/pairing/pairing_exchange.cpp:37-38 | nothing changes an exchange that has succeeded or failed |
| Pairing.HonestPeersAgree | src/pairing/pairing_exchange.cpp:15-111 | two honest started peers with distinct ids reach equal codes, equal keys and each other's ids under every interleaving, and code and key are those of `CodeIsCode` and `PskIsPsk` |
| Pairing.HonestPeersNeverErr | src/pairing/pairing_exchange.cpp:37-111 | no interleaving of polls of two such peers ever leads to an error |
| Pairing.PairingExchange.Start | src/pairing/pairing_exchange.cpp:15-35 | when a commitment is sent, what it commits to, and what a second call does |
| Pairing.PairingExchange.PollOnce | src/pairing/pairing_exchange.cpp:37-111 | the whole new state and the message sent, for every input and transport answer |
| Pairing.PairingExchange.CheckReveal | src/pairing/pairing_exchange.cpp:71-110 | the second round in the source's order of refusals |
| Der.PutLen | src/crypto/x509_selfsigned.cpp:12-25 | the two loops write the shortest definite length |
| Der.WriteTlv | src/crypto/x509_selfsigned.cpp:27-33 | tag, length, content |
| Der.ReadOfWrite | src/crypto/x509_selfsigned.cpp:12-33 | a reader following section 8.1.3 of ITU-T X.690 recovers tag, content and remainder for every length |
| Der.WriteOfRead | src/crypto/x509_selfsigned.cpp:12-33 | whatever the reader accepts is what the writer writes: lengths are minimal and unique |
| Der.IntegerIsMinimalAndExact | src/crypto/x509_selfsigned.cpp:43-52 | an INTEGER keeps the unsigned value and has no redundant first octet (section 8.3) |
| Der.IntegerFromBE | src/crypto/x509_selfsigned.cpp:45-52 | the stripping loop and the sign octet |
| Der.ReadAllOfWriteAll | src/crypto/x509_selfsigned.cpp:37-41 | concatenated elements read back one by one |
| Der.CertificateReadsBack | src/crypto/x509_selfsigned.cpp:101-111 | a DER reader of a built certificate finds the signed TBS bytes, the algorithm, the signature, and the seven TBS fields |
| Der.VersionField | src/crypto/x509_selfsigned.cpp:79-103 | first of seven fields: version 3 |
| Der.SerialField | src/crypto/x509_selfsigned.cpp:79-103 | second: an INTEGER of value 1 |
| Der.AlgorithmField | src/crypto/x509_selfsigned.cpp:79-103 | third: the object identifier 1.2.840.10045.4.3.2, read by arcs |
| Der.NameFields | src/crypto/x509_selfsigned.cpp:79-103 | fourth and sixth: one name as issuer and subject |
| Der.NameSays | src/crypto/x509_selfsigned.cpp:79-103 | that name is one common name (2.5.4.3), Skittermouse |
| Der.ValidityField | src/crypto/x509_selfsigned.cpp:79-103 | fifth: two UTCTime texts, the lower limit first |
| Der.KeyField | src/crypto/x509_selfsigned.cpp:79-103 | seventh: id-ecPublicKey on prime256v1 and the point without unused bits |
| Der.BuildSelfSignedP256Cert | src/crypto/x509_selfsigned.cpp:74-112 | empty for a bad point, signer or signature; otherwise the certificate around exactly the bytes that were signed |
| Hkdf.HkdfSha256 | src/crypto/hkdf.cpp:10-41 | for any 32-byte HMAC and every length L the loop ends with the first min(L, 8160) octets of section 2.3 of RFC 5869, chained block by block from the extracted key |
| Hkdf.ExpandIsChained | src/crypto/hkdf.cpp:21-40 | each 32-octet block of the output is the HMAC of the block before it, the info and the block number |
| Hkdf.BlocksArePrefixes | src/crypto/hkdf.cpp:21-40 | fewer blocks are a prefix of more |
| Hkdf.ShorterIsPrefix | src/crypto/hkdf.cpp:21-40 | a shorter output is a prefix of a longer one |
| ByteStrings.PutBigEndian | src/net/file_transfer.cpp:7-16 | the byte-pushing loops write the low bytes, most significant first |
| ByteStrings.GetBigEndian | src/net/file_transfer.cpp:17-27 | the shifting loops in a word of n bytes read the number those bytes denote |
| ByteStrings.ValueOfBigEndian | src/net/file_transfer.cpp:7-27 | reading undoes writing for every number that fits |
| ByteStrings.XorInvolution | src/net/ws_frame.cpp:33-34 | exclusive or, as in `XorIsExclusiveOr`, with one byte twice gives the byte back |
| ByteStrings.XorIsExclusiveOr | src/net/ws_frame.cpp:33-34 | bit i of the result is set exactly when bit i of one and of the other differ |
| ByteStrings.LessIsLexicographic | src/core/ownership_state.cpp:7-14 | the order of byte strings is decided by the first byte that differs, a proper prefix coming first |

## Left out

- Sockets, TLS, UDP discovery and the operating systems' crypto: links are message queues,
  primitives are arbitrary functions; of the cipher only its ideal behaviour, of ECDH only
  commutativity and output length are used.
- Several links under one stored key: `SealedLink` is about one link object per end.
- Windows, menus, hotkeys, capture and injection, autostart, locking; COM reference counting
  and format tables of the promised files.
- File I/O of configuration and keys, the wall clock, sleeps; the 30 s stall timer is a step
  that may come at any time.
- The mesh node's forwarding of captured input.
- MeshObject.MeshNode.HandleMessage: the announcement of promised files, whose codec is not modelled, changes only the
  sender's liveness here.
- MeshObject.MeshNode.Poll: a message is what `recv` left in the 8192-byte buffer; cutting is the transport's part.
- The loop of `broadcast` over the peers' transports: one notice stands for it, and the
  deliveries are steps of `OwnershipMesh`.
- Callbacks that call back into the object: callbacks are recorded, in order, as a trace.
- The order of iteration over `std::map`: loops over peers are proved for every order.
- The hello codec: a hello is an abstract identity message.
- `poll` of the connection manager driving the mesh node; the two objects are proved apart.
- Calendar formatting of `utcTime`: validity texts of up to 15 bytes are parameters.
- Wake-on-LAN, session tokens, discovery, key translation, logging, the key store's text form,
  `Config::addDevice` and `Config::findDevice`: one-branch members or patterns already covered.
- FileChannel.FileReceiver.AcceptChunkBytes: `offset + size` is taken as a sum of unbounded integers, so a chunk
  whose sum passes 2^64 is refused here.
- FileSession.TransferIsExact: names up to 65535 bytes, fewer than 2^32 files, messages whose length the 32-bit header
  field can state; beyond that the codecs' round trips are proved false.
- FilePull.TruthfulIffSound: reads of positive 32-bit capacity from a sender that sends in order.
- OwnershipMesh.EveryNodeHoldsTheMaximum: fewer than 2^64 claims issued and ids of at most 255 bytes.
- Clipboard.NoEchoIsRebroadcast: a machine's echo fires before its next clipboard event; `Clipboard.BackToBackUpdates`
  says what happens otherwise.
- ConfigText.ToI32: digits are accumulated in an unbounded integer; that no overflow occurs is proved for printed
  numbers, not for arbitrary text.
- WsFrames.PoppedPlusBuffered: says nothing after the first protocol error, where clearing the buffer makes the result
  depend on how the stream was cut.
