# Peer-to-peer data path and lifecycle protocols

A Dafny model of the tunnel's peer-to-peer data path and of the protocols around it, with proofs of what
they promise. One module models one component:

- **Record layer** (`Word64`, `ReplayWindow`, `ConsentConn`, `ReliableLink`): the encrypted record connection in
  reliable mode. `ConsentConn.Conn` has the connection's own fields; `ReliableLink` puts two of them on a network
  that keeps every message ever sent and delivers any of them, or a forgery, at any time. Encryption and
  authentication are ideal: a record carries the label whose key sealed it.
- **Below and around it** (`ConsentTokens`, `ConsentKeys`, `PunchMessage`, `PunchCache`, `Text`): record framing, signed
  control texts, key agreement and hole-punch messages, with hash and MAC functions as parameters.
- **Streams** (`TunnelMux`, `TunnelStreams`, `TunnelRun`): framing, fragmentation and multiplexing above the record
  layer, and whole runs of stream writers, the link and the reading tunnel.
- **TURN** (`TurnCodec`, `TurnIntegrity`, `TurnAddress`, `TurnWire`, `TurnLease`): the STUN/TURN codec of RFC 5389 and
  RFC 5766, byte-stream framing and the refresh policy.
- **ICE** (`PreparedIce`, `PreparedIceManager`, `Negotiation`, `NegotiationStore`, `Signalling`, `ClientSessions`,
  `IceChecklist`): ownership of prepared sockets and relays, the negotiation store, offers and answers that
  the network repeats and reorders, installed sessions, pair ordering and the fair-share budget.
- **Server** (`ServerRegistry`, `ServerAttach`): registration, routes, attach, expiry and teardown, each critical
  section one atomic step of a run in which all handlers interleave.
- **Telemetry** (`SpanQueue`): the asynchronous span exporter.

Components that change state step by step are classes whose methods are proved against functions on values;
the results about whole runs are lemmas about those functions. Clocks, random draws, network answers and the
outcomes of foreign calls are parameters.

Twelve promises hold only under a condition, which is proved exact:

- Delivery by the record layer holds below 2^64 records per direction. The sequence number wraps, and record 2^64
  is acknowledged as a replay without being released (`ReliableLink.DeliveryExactlyBelowWrap`).
- Pair priorities order pairs of validated candidates as RFC 8445 section 6.1.2.3 asks for candidate priorities up
  to 2^31 + 1 (`IceChecklist.FaithfulExactly`).
- The winner of a prepared socket gets the half that connected exactly when no cancel or transfer of that session and
  no close of the manager comes between claim and hand-over. Those steps take the lock separately; after a cancel in
  between, a session is returned over a closed socket. Relays are looked up by session only: when the session is
  prepared again before the lookup, the first winner takes the relay of the second entry and its socket is closed
  (`PreparedIce.EstablishmentOwnsOneHalf`, `PreparedIce.CancelBeforeHandOver`, `PreparedIce.SuccessorLosesItsRelay`).
- A lookup reads the route and then the client without a common lock. The pair belongs to one registration exactly
  when the client was not written in between, and the client is missing exactly when the last such write dropped it
  (`ServerRegistry.TwoReads`, `ServerRegistry.ReadsCanDisagree`).
- A registration without named tunnels inserts a route named after the client ID without looking for a conflict;
  it takes over another client's route exactly when one of that name exists
  (`ServerRegistry.InterferenceOverRuns`, `ServerRegistry.RouteTakenOver`).
- A connection can be published in a registration that is already cancelled, exactly when its claim had passed its
  checks before (`ServerAttach.PublishedAfterCancel`, `ServerAttach.LatePublicationHappens`).
- A hole-punch message whose peer or session ID contains a colon is never accepted (`PunchMessage.BuiltIsAccepted`).
- A control token whose nonce is empty or contains a colon does not verify (`ConsentTokens.ControlRoundTrip`).
- Key material commits to the negotiation and both parties exactly when the parties' fields are drawn from an alphabet
  without the separators NUL, SOH and STX (`ConsentKeys.CommitsExactly`).
- A replayed hole-punch message is refused exactly as long as no later use has read the clock past its time to live,
  beside fewer other keys than the capacity (`PunchCache.ReplayAcceptedExactly`). Uses read the clock before they take
  the lock, so readings may be out of order (`PunchCache.LateReadingForgets`). The number of other keys is exact too:
  capacity of them can crowd out a live key (`PunchCache.RefusesExactlyBelowCapacity`, `PunchCache.CrowdedOut`).
- Close of the manager leaves no prepared socket to come exactly when no PrepareICE call is between its reservation and
  its second critical section; such a call stores its socket afterwards, and unless somebody asks for it its timer
  closes it (`PreparedIce.CloseExactly`, `PreparedIce.StoredAfterClose`, `PreparedIce.StoredExpires`).
- The late end of a replaced session spares its successor exactly when the successor has another session ID
  (`ClientSessions.StaleEndSparesSuccessor`, `ClientSessions.SameIdEndsSuccessor`).

## Model

| member | source | states |
|---|---|---|
| Word64.ShiftLeftBit | cmd/p2p/consent.go:373-379 | shifting the 64-bit window by any amount moves every bit up by that amount, fills with zeros and drops what leaves the word |
| Word64.SetBitBit | cmd/p2p/consent.go:381-387 | setting one bit of the window changes that bit and no other |
| ReplayWindow.AcceptRefinesSet | cmd/p2p/consent.go:353-390 | one arrival: the shifted word accepts exactly when the number is above highest - 64 and not in the set of accepted numbers, and afterwards still represents that set |
| ReplayWindow.RunRefinesReference | cmd/p2p/consent.go:353-390 | over every sequence of arrivals, with any mixture of salts, the word takes the same decisions as the unbounded set of accepted numbers |
| ReplayWindow.ReferenceVerdicts | cmd/p2p/consent.go:353-390 | the reference gives one verdict per arrival, accepts only records under its salt, none accepted before, and no number twice |
| ReplayWindow.NeverAcceptedTwice | cmd/p2p/consent.go:353-390 | no sequence number is accepted twice in any run, and none under a second salt |
| ConsentConn.Conn.constructor | cmd/p2p/consent.go:97-135 | a reliable connection starts with sequence 0, next expected record 1, and an empty window |
| ConsentConn.Conn.Write | cmd/p2p/consent.go:145-203 | the new state, the records sent and the result are those of the abstract Write for every sequence of acknowledgements, closes and timer firings |
| ConsentConn.Conn.OpenData | cmd/p2p/consent.go:353-390 | the three window fields and the verdict are those of the abstract window step, so everything proved of it holds of the fields |
| ConsentConn.Conn.Read | cmd/p2p/consent.go:232-325 | state, returned bytes, reply and failure are those of the abstract read, for buffered data and for every kind of incoming record |
| ConsentConn.RunSendStep | cmd/p2p/consent.go:178-203 | one turn of the retry loop: transport failure, acknowledgement, close, another attempt, or giving up after the last one |
| ConsentConn.WriteOutcome | cmd/p2p/consent.go:178-203 | after the first transmission: the same sealed record again at most five times, success exactly when the first answer other than an idle timer is the acknowledgement, and a closed connection otherwise |
| ConsentConn.WholeWrite | cmd/p2p/consent.go:145-203 | a whole Write: what it refuses at once; otherwise at most six transmissions of one record, success exactly when the first is sent and the first answer other than an idle timer is the acknowledgement, and a closed connection on every other outcome |
| ConsentConn.BufferedReadEffect | cmd/p2p/consent.go:232-246 | a read of buffered data hands out its front, answers nothing and never fails |
| ConsentConn.RecordReadEffect | cmd/p2p/consent.go:247-325 | a read of a record fails exactly for data under a foreign label and forgeries with bad framing or bad data, and then changes nothing; a consent request is answered with its nonce, a response ends its probe |
| ConsentConn.AckReadEffect | cmd/p2p/consent.go:291-325 | an acknowledgement of a pending record takes it out and wakes the Write waiting for it, and does nothing else |
| ConsentConn.DataReadEffect | cmd/p2p/consent.go:247-289 | a record from the peer is released, parked, acknowledged or dropped by whether it is new, next, ahead within the window, or neither |
| ReliableLink.WriteSealsNext | cmd/p2p/consent.go:145-203 | the sender keeps its invariant when it seals a payload or refuses it, and the record sent is the next one |
| ReliableLink.ReadDataInOrder | cmd/p2p/consent.go:232-289 | the next record in order is released and acknowledged; an older one is acknowledged and changes nothing; nothing is parked out of order |
| ReliableLink.SenderStep | cmd/p2p/consent.go:145-325 | every step of the sending end keeps the invariant of its direction |
| ReliableLink.ReceiverStep | cmd/p2p/consent.go:232-325 | every step of the receiving end keeps the invariant of that direction |
| ReliableLink.NextKeepsLink | cmd/p2p/consent.go:145-325 | every step of either end, with any message ever sent or forged arriving, keeps both directions in order |
| ReliableLink.RunInvariant | cmd/p2p/consent.go:145-390 | both directions are in order after every run in which neither end seals 2^64 records |
| ReliableLink.EveryRunDelivers | cmd/p2p/consent.go:145-325 | over a network that drops, duplicates, reorders and forges, the released payloads are a prefix of the written ones, the bytes read are a prefix of the bytes written, and a Write that succeeded had its payload released |
| ReliableLink.NeverMoreThanOneAhead | cmd/p2p/consent.go:145-325 | recvPending stays empty, recvHighest + 1 is recvNext, and an open sender is at most one record ahead |
| ReliableLink.OnlyTheLastMayHaveFailed | cmd/p2p/consent.go:145-203 | in every run all records released at one end but the newest were written with success at the other, although writers continue after a failed Write |
| ReliableLink.ReadsFailOnlyOnForgeries | cmd/p2p/consent.go:232-325 | in every run a read fails exactly when it takes a forgery with bad framing or bad data, or a data record this end sealed itself and the network reflected |
| ReliableLink.WrapLosesARecord | cmd/p2p/consent.go:345-351 | a concrete run of 2^64 records whose last number wraps to 0, is acknowledged as a replay and is never released |
| ReliableLink.DeliveryExactlyBelowWrap | cmd/p2p/consent.go:345-351 | the delivery guarantee holds of all runs with at most n records per direction if and only if n < 2^64 |
| Text.DecimalRoundTrip | cmd/p2p/consent.go:327-343 | a number survives formatting and parsing exactly when it fits 64 bits |
| Text.ParseExactly | cmd/p2p/punch_auth.go:96-122 | a signed number is parsed from digits behind one sign or none, within 64 bits, and from nothing else |
| ConsentTokens.DataAckRoundTrip | cmd/p2p/consent.go:327-343 | the acknowledgement of every sequence number verifies as that number, whatever the session name contains |
| ConsentTokens.ControlRoundTrip | cmd/p2p/consent.go:470-484 | a probe verifies exactly when its nonce is not empty and holds no colon |
| ConsentTokens.PayloadCommits | cmd/p2p/consent.go:485-497 | under an ideal MAC a signed text belongs to one kind of record and one token |
| ConsentTokens.SignedTexts | cmd/p2p/consent.go:470-497 | session, kind and token are signed in this order, and the signature follows the token |
| ConsentTokens.VerifiedExactly | cmd/p2p/consent.go:470-500 | nothing verifies but what signing produces, for probes and for acknowledgements |
| ConsentTokens.FrameVerdicts | cmd/p2p/consent.go:422-468 | every verdict of a read on any datagram, in the order of the checks |
| ConsentTokens.WrittenIsRead | cmd/p2p/consent.go:422-468 | a record is written exactly when it is short enough, and is then read back with its kind and payload |
| ConsentTokens.ReadIsWritten | cmd/p2p/consent.go:422-468 | a datagram is accepted only when what the read buffer holds of it is exactly what writing its content produces |
| ConsentKeys.MaterialAgrees | cmd/p2p/p2p_ice.go:224-236 | both ends of a negotiation hash the same text |
| ConsentKeys.CommitsExactly | cmd/p2p/p2p_ice.go:224-236 | for parties whose fields are drawn from an alphabet, the hashed text determines negotiation and parties if and only if the alphabet holds none of the three separator characters |
| ConsentKeys.MaterialText | cmd/p2p/p2p_ice.go:224-236 | the hashed text: negotiation and the two endpoints in byte order, none for an incomplete party |
| ConsentKeys.LabelCommits | cmd/p2p/consent.go:137-143 | derived keys are equal exactly when their labels are |
| ConsentKeys.DerivationCommits | cmd/p2p/consent.go:137-143 | derived keys also commit to keys of one length and to the session |
| ConsentKeys.KeyTexts | cmd/p2p/consent.go:97-143 | which derivation each of the five keys is |
| ConsentKeys.KeysAreSeparate | cmd/p2p/consent.go:97-143 | the ends hold mirrored keys, and the five keys are pairwise different exactly when the labels differ, which is the condition for reliable mode |
| TunnelMux.FrameRoundTrip | cmd/p2p/tunnel.go:113-140 | every message of at most one chunk is decoded to itself |
| TunnelMux.FrameLayout | cmd/p2p/tunnel.go:306-323 | type, stream ID, length and payload stand at their places in a frame, big-endian |
| TunnelMux.DecodeExactly | cmd/p2p/tunnel.go:113-140 | a record is dispatched as a message exactly when it begins with that whole frame; cut ones are skipped, what follows is ignored |
| TunnelMux.EventEffect | cmd/p2p/tunnel.go:113-183 | what each event does to the stream it names, data, close and unknown frames included, and that it touches no other |
| TunnelMux.CloseRemoves | cmd/p2p/tunnel.go:176-182 | a close removes its stream and leaves every other one alone |
| TunnelMux.ClosedStaysGone | cmd/p2p/tunnel.go:142-182 | once a close was handled the stream is gone until a data frame or an open of its ID |
| TunnelMux.FragmentsPartition | cmd/p2p/tunnel.go:284-304 | the chunks of a write concatenate to it, are never empty or too long, and only the last is short |
| TunnelMux.OpenStreamTakesItsData | cmd/p2p/tunnel.go:113-183 | while a stream stays open it takes in exactly the data frames addressed to it, in order, whatever else arrives |
| TunnelMux.DataOfEncoded | cmd/p2p/tunnel.go:306-323 | the data of one stream within the frames sent is the data its writer passed |
| TunnelMux.WrittenFits | cmd/p2p/tunnel.go:306-323 | every payload sealed in any run fits one application record |
| TunnelMux.ReadsCarryReleased | cmd/p2p/consent.go:232-325 | at either end, reads with a whole-record buffer carry exactly the records released, so the dispatcher sees frame boundaries |
| TunnelRun.FrameKeeps | cmd/p2p/tunnel.go:306-323 | a frame handed over keeps the invariant: the frames that can arrive carry a prefix of what each stream wrote, and without failures the rest of its call is what is missing |
| TunnelRun.InvariantOverRuns | cmd/p2p/tunnel.go:284-323 | the invariant holds over every interleaving of stream writers, close frames, refusals and steps of the link, writers that run on after a failed Write included |
| TunnelRun.WriterSteps | cmd/p2p/tunnel.go:284-323 | a call is split into chunks that concatenate to its buffer, one call at a time per stream; a refusal drops the rest of the call |
| TunnelRun.StreamDeliversPrefix | cmd/p2p/tunnel.go:113-183 | end to end over the record layer, in either direction: what an open stream took in is a prefix of all that was passed to its Write, however streams interleave and whatever failed |
| TunnelRun.StreamDeliversAll | cmd/p2p/tunnel.go:284-304 | once every call of the stream has returned and the connection is open and idle, the open stream took in all that was passed to its Write |
| TunnelRun.SealedIsNoPrefix | cmd/p2p/tunnel.go:229-243 | a concrete run in which a writer goes on after a failed Write: the chunks sealed are no prefix of the bytes written, because the rest of the failed call was dropped |
| TunnelMux.StreamIds | cmd/p2p/tunnel.go:64-103 | IDs opened by the two roles never collide, through any number of wraps, and one role repeats an ID exactly every 2^31 streams |
| TunnelMux.OpenedIdValue | cmd/p2p/tunnel.go:64-103 | the controlling role opens the even IDs from 2 on, the other the odd ones from 1 on |
| TunnelMux.NextStreamId | cmd/p2p/tunnel.go:85-103 | adding the step modulo 2^32 yields the next ID of the same role |
| TunnelStreams.FragmentAt | cmd/p2p/tunnel.go:284-304 | the k-th frame of a write carries the bytes from k chunks on, up to one chunk |
| TunnelStreams.P2PStream.Read | cmd/p2p/tunnel.go:270-282 | a read takes bytes off the front of the buffer and nothing else; the stream ends only when it is closed and empty |
| TunnelStreams.P2PStream.Write | cmd/p2p/tunnel.go:284-304 | the frames handed over are the first of the write up to the first refusal, and the count returned is the bytes whose frames were accepted |
| TunnelStreams.P2PTunnel.WithRole | cmd/p2p/tunnel.go:64-83 | the first ID opened is that of the role |
| TunnelStreams.P2PTunnel.OpenStream | cmd/p2p/tunnel.go:85-103 | a closed tunnel opens nothing; an open one takes the next ID and adds an empty stream under it |
| TunnelStreams.P2PTunnel.DispatchRecord | cmd/p2p/tunnel.go:113-183 | one record changes the streams exactly as the abstract dispatch does, malformed frames included; a close of an open ID takes that stream out and closes it, and no other stream is closed |
| TurnCodec.TypeRoundTrip | cmd/p2p/turn_provider.go:468-477 | method and class survive the interleaved type exactly for 12-bit methods and 2-bit classes, and every type with two leading zero bits is one |
| TurnCodec.TypeBits | cmd/p2p/turn_provider.go:468-477 | where each method bit and each class bit stands in the type |
| TurnCodec.TurnOne | cmd/p2p/turn_provider.go:683-709 | an encoded attribute is read back with its type, value and the offset behind its padding |
| TurnCodec.AttributeBytes | cmd/p2p/turn_provider.go:512-520 | an attribute byte by byte: type and length big-endian, the value, zeros up to a multiple of four |
| TurnCodec.BuiltBytes | cmd/p2p/turn_provider.go:487-497 | a message byte by byte: type, length, magic cookie, transaction ID, attributes |
| TurnCodec.ValidBytes | cmd/p2p/turn_provider.go:669-681 | a message is valid exactly when its size, cookie and length field, read byte by byte, agree |
| TurnCodec.WalkExactly | cmd/p2p/turn_provider.go:683-709 | on any bytes the walk shows consecutive attributes as they stand, up to the first MESSAGE-INTEGRITY, the end, or the attribute that is cut, which it reports |
| TurnCodec.BuildThenWalk | cmd/p2p/turn_provider.go:487-520 | a built message is walked back to exactly its attributes, up to the first MESSAGE-INTEGRITY, if and only if it fits a packet |
| TurnCodec.WalkStaysAligned | cmd/p2p/turn_provider.go:669-709 | on every input the walk stays at multiples of four inside the message and stops at MESSAGE-INTEGRITY |
| TurnCodec.TruncatedHeaderUnreachable | cmd/p2p/turn_provider.go:683-709 | on no message does the walk report a cut header; every attribute shown starts at a multiple of four inside the message |
| TurnCodec.TurnAttributes | cmd/p2p/turn_provider.go:683-709 | the loop shows its visitor exactly the recursive walk and ends with its error |
| TurnIntegrity.AuthenticatedVerifies | cmd/p2p/turn_provider.go:499-510 | a message built with credentials verifies under its key, and shows the attributes signed, if and only if it fits a packet |
| TurnIntegrity.WalkAgrees | cmd/p2p/turn_provider.go:683-709 | the walk up to MESSAGE-INTEGRITY depends only on the bytes up to its end |
| TurnIntegrity.TrailingBytesIgnored | cmd/p2p/turn_provider.go:747-761 | whatever is appended behind MESSAGE-INTEGRITY, with the length corrected, changes neither the walk nor the verification result |
| TurnIntegrity.TrailingBytesChangeNoReading | cmd/p2p/turn_provider.go:711-733 | whatever is appended behind MESSAGE-INTEGRITY changes neither the lifetime nor the challenge nor the first attribute of any type that a reader extracts |
| TurnIntegrity.VerifiedShape | cmd/p2p/turn_provider.go:747-761 | a message that verifies is walked to a full-size MESSAGE-INTEGRITY computed over the bytes before it with the patched length |
| TurnIntegrity.MacCommitsToContent | cmd/p2p/turn_provider.go:747-761 | under an ideal MAC two messages verifying with the same MAC have the same type, transaction and attributes |
| TurnIntegrity.CredentialsInOrder | cmd/p2p/turn_provider.go:499-505 | username, realm and nonce follow the attributes of the request, in this order and under their types |
| TurnIntegrity.LifetimeIsLast | cmd/p2p/turn_provider.go:845-860 | the lifetime read is that of the last well-formed LIFETIME, and 600 s without one |
| TurnIntegrity.ChallengeIsLast | cmd/p2p/turn_provider.go:711-733 | code, realm and nonce of a challenge are each those of the last attribute that carries them |
| TurnIntegrity.ChallengeVerdict | cmd/p2p/turn_provider.go:711-733 | a challenge is complete exactly when the walk was clean and code, realm and nonce are there |
| TurnAddress.XorTwice | cmd/p2p/turn_provider.go:816-843 | masking a byte twice gives it back |
| TurnAddress.XorByteBit | cmd/p2p/turn_provider.go:787-843 | masking is exclusive or: a bit of the result is set exactly when the operands differ there |
| TurnAddress.EncodedBytes | cmd/p2p/turn_provider.go:816-843 | an encoded address is a zero, the family, the port masked with the upper half of the cookie, and the IP masked with cookie and transaction ID, bit by bit |
| TurnAddress.DecodedBytes | cmd/p2p/turn_provider.go:787-814 | what a value is decoded to, by the same masks, and the error of each malformed value |
| TurnAddress.AddressVerdict | cmd/p2p/turn_provider.go:763-785 | the first attribute of the type decides what is found; without one a cut walk is told from a missing address |
| TurnAddress.AddressRoundTrip | cmd/p2p/turn_provider.go:787-843 | an address is encoded exactly when its port is positive and its IP has 4 or 16 bytes, and comes back, IPv4 in short form, exactly when the port fits 16 bits |
| TurnAddress.AddressTravels | cmd/p2p/turn_provider.go:763-785 | an address put into a message, before any other of its type and before MESSAGE-INTEGRITY, is the address read from it |
| TurnWire.SurvivesExactlyDeliverable | cmd/p2p/turn_provider.go:533-612 | a message crosses a byte stream unchanged, whatever follows it, if and only if it is a framed STUN message or ChannelData of exactly its stated length |
| TurnWire.ReadVerdicts | cmd/p2p/turn_provider.go:565-612 | every verdict of a read on any bytes: each error with its cause, and what a successful read takes |
| TurnWire.FrameVerdicts | cmd/p2p/turn_provider.go:533-563 | ChannelData is cut to its length and padded with zeros, a longer length is refused, anything else is written as it is |
| TurnWire.PushedExactly | cmd/p2p/turn_provider.go:533-563 | a frame is pushed whole exactly when some number of non-empty writes accepts that much |
| TurnWire.Wire.ReadFull | cmd/p2p/turn_provider.go:565-612 | reading n bytes over any segmentation takes exactly the first n bytes or reports the end of the stream |
| TurnWire.Wire.Read | cmd/p2p/turn_provider.go:565-612 | one read consumes and returns exactly the first frame of the remaining bytes, or its error, for every segmentation |
| TurnWire.Wire.Write | cmd/p2p/turn_provider.go:533-563 | with short writes, what reaches the stream is a prefix of the frame of known length, and the write succeeds exactly when it is the whole frame |
| TurnWire.Wire.ReadAll | cmd/p2p/turn_provider.go:565-612 | the concatenated frames of any deliverable messages are read back as exactly those messages, then the end of the stream |
| TurnWire.WriteAll | cmd/p2p/turn_provider.go:533-563 | a list of messages is written exactly when every underlying write pushes its whole frame, and then the stream holds their frames |
| TurnLease.IntervalBounds | cmd/p2p/turn_provider.go:916-938 | the interval is positive, at most four minutes, at most half of any lifetime of two nanoseconds or more, and the requested one exactly when that is within the bounds |
| TurnLease.IntervalExactly | cmd/p2p/turn_provider.go:916-938 | the interval exactly: half the lifetime up to 240 s at most, the request cut to it or raised to a second, and a second without a lifetime |
| TurnLease.LeaseMargin | cmd/p2p/turn_provider.go:1016-1053 | no lease lapses for any requested interval if and only if two timeouts and the longest interval fit the lifetime, which four timeouts per lifetime ensure |
| TurnLease.LeaseHeldThroughout | cmd/p2p/turn_provider.go:1217-1236 | over whole runs of refreshes the lease is live at every instant |
| TurnLease.PermissionHeldThroughout | cmd/p2p/turn_provider.go:1217-1236 | over whole runs with refreshes of at most 30 s the 300 s permission is live at every instant |
| TurnLease.RefreshTimer.Loop | cmd/p2p/turn_provider.go:1217-1236 | each wait is recomputed from the requested value and the last lifetime granted; the first failure terminates |
| PreparedIce.CommitKeepsOwnership | cmd/p2p/prepared_ice.go:58-137 | storing a bound socket, or closing it when it came too late, keeps ownership exact |
| PreparedIce.AttachKeepsOwnership | cmd/p2p/prepared_ice.go:139-184 | attaching an allocation, or closing it when its entry is gone or has one, keeps ownership exact |
| PreparedIce.ClaimKeepsOwnership | cmd/p2p/prepared_ice.go:283-296 | claiming keeps ownership exact |
| PreparedIce.TransferSocketKeepsOwnership | cmd/p2p/prepared_ice.go:320-335 | handing the socket over, and closing the relay, keeps ownership exact |
| PreparedIce.TransferRelayKeepsOwnership | cmd/p2p/prepared_ice.go:337-352 | handing the relay over, and closing the socket, keeps ownership exact |
| PreparedIce.DropKeepsOwnership | cmd/p2p/prepared_ice.go:354-451 | cancelling, expiring and closing keep ownership exact |
| PreparedIce.StepKeepsOwnership | cmd/p2p/prepared_ice.go:58-451 | every critical section keeps ownership exact: at most 128 entries, each socket and relay owned once, every departed entry with one half handed over and the other closed or both closed |
| PreparedIce.OwnershipOverRuns | cmd/p2p/prepared_ice.go:58-451 | ownership is exact after every interleaving of calls, timers and closes |
| PreparedIce.OutcomesAreFinal | cmd/p2p/prepared_ice.go:58-451 | what was closed, handed over or claimed stays so |
| PreparedIce.HandedOverStaysOpen | cmd/p2p/prepared_ice.go:320-335 | a socket handed over is never closed by the manager in any later run |
| PreparedIce.ClaimsWinOnce | cmd/p2p/prepared_ice.go:283-296 | a claim is granted only for an entry never claimed before |
| PreparedIce.ClaimedSurvivesExpiry | cmd/p2p/prepared_ice.go:408-451 | no time to live removes a claimed entry |
| PreparedIce.ExpireEffect | cmd/p2p/prepared_ice.go:408-427 | expiry removes exactly the unclaimed entries whose time is over and closes exactly what they held |
| PreparedIce.ReserveVerdict | cmd/p2p/prepared_ice.go:58-86 | a reservation answers by a live entry, then by a call under way, then by the number of both |
| PreparedIce.CommitVerdict | cmd/p2p/prepared_ice.go:109-129 | a bound socket is stored unless the session is prepared by now or the store is full, and closed otherwise |
| PreparedIce.AttachVerdict | cmd/p2p/prepared_ice.go:170-184 | a relay is attached exactly to an entry of its session that has none, and closed otherwise |
| PreparedIce.AskVerdicts | cmd/p2p/prepared_ice.go:268-318 | what a claim and the two lookups return, and which of them move the expiry |
| PreparedIce.LeaveVerdicts | cmd/p2p/prepared_ice.go:320-451 | when an entry leaves by transfer, cancel, timer or close, and that no other entry does |
| PreparedIce.ClosesOnlyItsOwn | cmd/p2p/prepared_ice.go:58-451 | a step closes only sockets still held or stored, so none is closed twice or after hand-over |
| PreparedIce.ClaimedWhileLeftAlone | cmd/p2p/prepared_ice.go:283-372 | after a granted claim, whatever runs, the entry stays claimed under its socket exactly until a cancel or a matching transfer of that session or a close of the manager; after that the socket is closed or handed over |
| PreparedIce.EstablishmentOwnsOneHalf | cmd/p2p/p2p_ice.go:81-173 | with anything between claim, relay lookup by session and hand-over: the winner gets exactly the half of its own entry that connected and the other is closed if and only if no cancel, no matching transfer of that session and no close came between; otherwise its socket is gone, and its last step takes a relay exactly when the session's present entry, prepared again by another, has the relay it looked up, whose socket is then closed; a cancel drops what is prepared now, and nothing else happens |
| PreparedIce.RelayHeldOrGone | cmd/p2p/prepared_ice.go:298-352 | from any point of any run a relay stays on its session's entry until it is handed over or closed |
| PreparedIce.SuccessorLosesItsRelay | cmd/p2p/p2p_ice.go:137-173 | a concrete run: cancelled and prepared again under the same session, the first winner looks up and takes the relay of the second, and the second winner's socket is closed |
| PreparedIce.CancelBeforeHandOver | cmd/p2p/p2p_ice.go:81-120 | a concrete run in which a cancel comes between claim and transfer: the transfer does nothing and the socket of the session returned is closed |
| PreparedIce.LoserLeavesWinners | cmd/p2p/prepared_ice.go:283-296 | at any point of any run a claim is refused exactly when the session was claimed, expired or never prepared; a refused claim leaves every claimed entry as it was and closes no claimed socket |
| PreparedIce.CloseExactly | cmd/p2p/prepared_ice.go:374-406 | after Close nothing is stored again without a new call if and only if no PrepareICE call that reserved was still to reach its second critical section, whether or not it had bound its socket |
| PreparedIce.StoredAfterClose | cmd/p2p/prepared_ice.go:374-406 | a concrete run: a call in flight stores its socket after the close, and its timer closes it 30 s later |
| PreparedIce.StoredExpires | cmd/p2p/prepared_ice.go:108-137 | whatever runs after a socket was stored, if nobody claims or looks up its session, its own timer leaves it handed over if it was before and closed otherwise |
| PreparedIceManager.Manager.ReserveSession | cmd/p2p/prepared_ice.go:58-100 | the first critical section leaves exactly the state and verdict of the abstract reservation |
| PreparedIceManager.Manager.CommitSocket | cmd/p2p/prepared_ice.go:58-137 | the second one stores or closes the socket as the abstract commit does |
| PreparedIceManager.Manager.AttachAllocation | cmd/p2p/prepared_ice.go:139-184 | stores or closes the allocation as the abstract step does |
| PreparedIceManager.Manager.ClaimPrepared | cmd/p2p/prepared_ice.go:283-296 | grants and marks exactly as the abstract claim |
| PreparedIceManager.Manager.PreparedSocket | cmd/p2p/prepared_ice.go:268-281 | looks the socket up and renews the time to live, claimed or not |
| PreparedIceManager.Manager.PreparedRelay | cmd/p2p/prepared_ice.go:298-318 | looks the relay up and renews the time to live of an unclaimed entry only |
| PreparedIceManager.Manager.TransferPreparedSocket | cmd/p2p/prepared_ice.go:320-335 | removes the entry and closes its relay exactly when the socket matches |
| PreparedIceManager.Manager.TransferPreparedRelay | cmd/p2p/prepared_ice.go:337-352 | removes the entry and closes its socket exactly when the relay matches |
| PreparedIceManager.Manager.CancelPreparedICE | cmd/p2p/prepared_ice.go:354-372 | removes the entry and closes both halves |
| PreparedIceManager.Manager.ExpirePreparedLocked | cmd/p2p/prepared_ice.go:408-427 | the loop over the map removes exactly the expired unclaimed entries |
| PreparedIceManager.Manager.ExpirePreparedSession | cmd/p2p/prepared_ice.go:429-451 | a timer removes its entry only if it still holds the same socket, is unclaimed and has expired |
| PreparedIceManager.Manager.Close | cmd/p2p/prepared_ice.go:374-406 | closes everything stored and forgets the reservations |
| Negotiation.AppendAddsNewOnly | cmd/p2p/negotiation.go:85-124 | adding candidates keeps the limit of 32, only appends, only from the batch, never a known one, and fails exactly when one does not fit |
| Negotiation.ApplyKeepsBounds | cmd/p2p/negotiation.go:50-191 | every operation keeps the capacity and the candidate limit |
| Negotiation.EntryLifecycle | cmd/p2p/negotiation.go:50-191 | what one operation can do to an entry: identity fixed, phase one step forward at most, replayed Start without effect, a checking entry removed only by Delete with its own session, another session without effect except by time |
| Negotiation.ExpireExactly | cmd/p2p/negotiation.go:182-191 | expiry removes exactly the entries that lapsed and are not being checked |
| Negotiation.StartVerdict | cmd/p2p/negotiation.go:50-83 | each answer of Start by its arguments and the stored session: a replay returns the stored entry, another session is refused |
| Negotiation.AddRemoteVerdict | cmd/p2p/negotiation.go:85-124 | candidates are taken exactly by a pending negotiation of that session, and only a whole batch renews its time |
| Negotiation.CheckVerdicts | cmd/p2p/negotiation.go:126-150 | a check begins exactly for a pending entry of that session, and completes exactly for a checking one |
| Negotiation.GetAndDelete | cmd/p2p/negotiation.go:152-180 | Get finds and Delete removes the entry of exactly that session |
| Negotiation.PendingComesFromPending | cmd/p2p/negotiation.go:126-150 | an entry is pending only if it was pending and not granted, or was just started |
| Negotiation.StoreOverRuns | cmd/p2p/negotiation.go:50-191 | over all runs the bounds hold and each stored negotiation is granted its connectivity check at most once |
| NegotiationStore.Negotiations.StartNegotiation | cmd/p2p/negotiation.go:50-83 | state and result are those of the abstract Start, with its validation order and error cases |
| NegotiationStore.Negotiations.AddRemoteCandidates | cmd/p2p/negotiation.go:85-124 | the loop appends as the abstract operation does, keeping what was added before a failure |
| NegotiationStore.Negotiations.BeginChecking | cmd/p2p/negotiation.go:126-138 | grants exactly when the abstract operation does |
| NegotiationStore.Negotiations.CompleteCheck | cmd/p2p/negotiation.go:140-150 | completes exactly a checking entry of that session |
| NegotiationStore.Negotiations.DeleteNegotiation | cmd/p2p/negotiation.go:167-173 | removes exactly the entry of that session |
| NegotiationStore.Negotiations.ExpireLocked | cmd/p2p/negotiation.go:182-191 | the loop over the map removes exactly the lapsed entries |
| Signalling.OneInitiator | cmd/p2p/signaling.go:120-122 | of two different clients exactly one initiates, and of equal ones neither |
| Signalling.InitiatorComesFirst | cmd/p2p/signaling.go:120-122 | the client whose ID comes first in byte order initiates |
| Signalling.OfferKeepsRoles | cmd/client.go:2051-2065 | taking an offer up, fresh or replayed, keeps every stored role right |
| Signalling.AcceptKeepsRoles | cmd/client.go:2066-2079 | storing and answering an offer once the socket is prepared keeps every stored role right, whatever ran in between |
| Signalling.AnswerKeepsRoles | cmd/client.go:2081-2095 | handling an answer keeps every stored role right |
| Signalling.StartOfferKeepsRoles | cmd/client.go:2120-2135 | starting an offer keeps every stored role right |
| Signalling.TaskKeepsRoles | cmd/client.go:2051-2135 | each later critical section of a handler, on its own clock reading, keeps every stored role right |
| Signalling.RolesOverRuns | cmd/client.go:2029-2135 | over all runs, with signals repeated and reordered, every stored role is the one the IDs dictate |
| Signalling.OppositeRoles | cmd/client.go:2029-2135 | two clients with a negotiation with each other hold opposite roles, the controlled side a session its peer offered, and their tunnels never open the same stream ID |
| Signalling.StoresRunTheirOps | cmd/client.go:2029-2135 | over all runs with split handlers each client's store goes through a run of store operations, so its bounds and invariants hold |
| Signalling.OneCheckPerNegotiation | cmd/client.go:2076-2095 | whatever is repeated and however handlers interleave, a second connectivity check with a peer begins only after a new negotiation with it was stored since the first |
| Signalling.SignalsCarryPrepared | cmd/client.go:2051-2135 | over every run each answer and offer, queued or sent, carries exactly the candidates its sender prepared for that peer and session |
| Signalling.OfferEffect | cmd/client.go:2051-2065 | a replayed offer is answered from the stored local candidates, a new one is prepared, any other is dropped |
| Signalling.AcceptEffect | cmd/client.go:2066-2079 | without candidates a fallback is sent; otherwise the negotiation is stored, answered and checked unless the store refuses it |
| Signalling.AnswerEffect | cmd/client.go:2081-2095 | an answer to this client adds its candidates and begins the check; any other is dropped |
| Signalling.StartOfferEffect | cmd/client.go:2120-2135 | an offer is stored and queued under the session drawn, unless the store refuses it |
| Signalling.OtherEffects | cmd/client.go:2029-2118 | what peer information, trickled candidates, fallbacks and the ends of a check and a session do |
| Signalling.ExchangeCompletes | cmd/client.go:2029-2135 | an exchange that nothing disturbs ends with both sides checking one session in opposite roles, each with the candidates of the other |
| ClientSessions.SessionsOverRuns | cmd/client.go:2202-2265 | over all runs every connection and tunnel installed serves exactly one peer or is closed, never both |
| ClientSessions.InstallEffect | cmd/client.go:2202-2223 | what is in place after an installation and which handles are closed, the same handle excepted |
| ClientSessions.RemoveEffect | cmd/client.go:2241-2265 | a removal needs the active session, takes the peer out of all three maps and closes what served it |
| ClientSessions.StaleEndSparesSuccessor | cmd/client.go:2225-2265 | the end of a session removes what is active under its ID: a late end leaves the successor serving and open exactly when the successor has another ID |
| ClientSessions.SameIdEndsSuccessor | cmd/client.go:2202-2265 | a concrete run: a successor installed under the same ID is removed and closed by the late end of the first |
| ClientSessions.OtherPeersUntouched | cmd/client.go:2202-2265 | sessions with one peer never disturb those with another |
| ClientSessions.Client.InstallSession | cmd/client.go:2202-2223 | the maps, and the displaced handles to close, are those of the abstract installation |
| ClientSessions.Client.RemoveSessionIfMatch | cmd/client.go:2241-2265 | the maps and the verdict are those of the abstract removal |
| IceChecklist.PriorityIsLexicographic | cmd/p2p/ice_session.go:144-158 | up to 2^31, and without zero priorities up to 2^31 + 1, the priority does not wrap and orders pairs by smaller, then larger candidate priority, then which side is larger |
| IceChecklist.FaithfulExactly | cmd/p2p/ice_session.go:144-158 | pairs of validated candidates whose priorities are at most a bound are ranked faithfully if and only if the bound is at most 2^31 + 1 |
| IceChecklist.FaithfulUnvalidatedExactly | cmd/p2p/ice_session.go:144-158 | for all candidates, unknown types included, the bound is 2^31 |
| IceChecklist.MisrankedPair | cmd/p2p/ice_session.go:144-158 | two concrete pairs of validated host candidates at 2^31 + 2 that are ranked the wrong way round |
| IceChecklist.DefaultPriorities | cmd/p2p/ice_session.go:126-142 | a priority of its own counts; otherwise host before reflexive before relay before unknown, by their numbers |
| IceChecklist.BeforeIsOrder | cmd/p2p/ice_session.go:160-187 | the comparison is a strict weak order whose ties are equal keys |
| IceChecklist.BeforeRanks | cmd/p2p/ice_session.go:160-187 | the comparison puts higher priorities first, then smaller local and remote IDs |
| IceChecklist.AllPairsContents | cmd/p2p/ice_session.go:160-187 | a pair is listed exactly when both ends are usable candidates of their side |
| IceChecklist.ListedExactly | cmd/p2p/ice_session.go:160-187 | the list holds exactly the pairs without relay or empty address, and never a lower priority first |
| IceChecklist.StableSortCorrect | cmd/p2p/ice_session.go:160-187 | the sort is a permutation, in order, and stable |
| IceChecklist.Checklist | cmd/p2p/ice_session.go:160-187 | the two loops and the sort yield the sorted list of all usable pairs |
| IceChecklist.FairShareReachesEveryPair | cmd/p2p/ice_session.go:205-236 | punctual checks reach every pair before the budget runs out if and only if the budget has a tick for each |
| IceChecklist.TimeoutExactly | cmd/p2p/ice_session.go:214-222 | the timeout of a check is the configured one unless an equal share of the time left is shorter |
| IceChecklist.ShortTimeRunsOut | cmd/p2p/ice_session.go:205-236 | with less time than pairs, checks that all run to the end of their context, the deadline of the direct phase included, leave a pair unchecked |
| IceChecklist.FirstConnectedWins | cmd/p2p/ice_session.go:205-236 | a nominated pair is the first that connected; every earlier one was checked and failed |
| IceChecklist.ConnectDirect | cmd/p2p/ice_session.go:205-236 | the loop ends as the recursive phase does and grants each check its fair share of the time left, capped at the configured timeout |
| IceChecklist.MonitorConsent | cmd/p2p/ice_session.go:266-303 | a session ends at the first tick that closes the source or completes the limit of consecutive failures, and not before |
| IceChecklist.EndsExactly | cmd/p2p/ice_session.go:266-303 | a session ends when the ticks close, on cancellation, or when the last limit of probes all failed |
| PunchCache.UseKeepsCache | cmd/p2p/punch_auth.go:37-62 | one use of the cache keeps it bounded, keeps every entry backed by an acceptance, and forgets an acceptance only when it lapsed or capacity other keys followed |
| PunchCache.ReplayAcceptedExactly | cmd/p2p/punch_auth.go:37-62 | with fewer than capacity other keys accepted since, a replay gets through if and only if some use after the last acceptance of its key read the clock at or past its time to live, clock readings in any order |
| PunchCache.LapsedIsAccepted | cmd/p2p/punch_auth.go:37-62 | once a use has read the clock past the time to live the key is accepted again, whatever the capacity |
| PunchCache.RefusesExactlyBelowCapacity | cmd/p2p/punch_auth.go:37-62 | in all runs with at most n other keys a live key is refused, if and only if n is below the capacity |
| PunchCache.CrowdedOut | cmd/p2p/punch_auth.go:49-60 | for every capacity, a run in clock order in which that many other keys evict a live key and its replay is accepted |
| PunchCache.LateReadingForgets | cmd/p2p/punch_auth.go:37-62 | a concrete run in which a use that read the clock late but took the lock early makes the cache accept a key twice within its time to live |
| PunchCache.NeverAboveCapacity | cmd/p2p/punch_auth.go:37-62 | the cache never exceeds its capacity |
| PunchCache.PunchReplayCache.Consume | cmd/p2p/punch_auth.go:37-62 | the loops purge, refuse, evict an oldest entry and insert as specified |
| PunchMessage.BuiltIsAccepted | cmd/p2p/punch_auth.go:80-122 | a message built for a peer is accepted exactly when it is within the skew and neither ID contains a colon, and asks for the replay key of its nonce and MAC |
| PunchMessage.AcceptedExactly | cmd/p2p/punch_auth.go:96-122 | of any text whatever: it is accepted exactly when it has seven fields, this peer and session, a nonce, a timestamp within the skew and the MAC of those |
| PunchMessage.BuiltText | cmd/p2p/punch_auth.go:76-94 | the message as text, and when there is none |
| PunchMessage.ReplayKeyCommits | cmd/p2p/punch_auth.go:96-122 | under an ideal MAC two accepted messages share a replay key exactly when they carry the same timestamp and nonce |
| Text.SplitUndoesJoin | cmd/p2p/punch_auth.go:76-105 | joined fields come back exactly when none contains a colon; otherwise there are more of them |
| ServerRegistry.RegisterEffect | cmd/server.go:1043-1147 | accepted: the client is registered, each tunnel it lists resolves to it and it owns nothing else; refused, exactly when another client has a requested name: only its own previous registration is gone |
| ServerRegistry.FirstTakenIsFirst | cmd/server.go:1076-1108 | the name reported as taken is the first requested one that leads to another client |
| ServerRegistry.RegistrationInterference | cmd/server.go:1076-1108 | a registration leaves every other client's routes alone if and only if it names tunnels or no other client has a route named after its ID |
| ServerRegistry.InterferenceOverRuns | cmd/server.go:1043-1147 | the same at every point of every run of registrations and teardowns |
| ServerRegistry.RouteTakenOver | cmd/server.go:1076-1147 | a concrete run: a client with a tunnel named like another client's ID loses the route to it and stays registered |
| ServerRegistry.ForgetEffect | cmd/server.go:856-871 | forgetting removes exactly the registered instance and all its routes, and nothing when another instance is registered |
| ServerRegistry.StaleForgetOverRuns | cmd/server.go:856-871 | an instance that is no longer registered never is again: its late teardown changes nothing after any further run |
| ServerRegistry.RoutesAlwaysLead | cmd/server.go:1043-1147 | after every run, with no write between the two reads of a lookup, a route resolves to a registered client that lists it |
| ServerRegistry.ResolveExactly | cmd/server.go:1228-1239 | a name is looked up as a route first and as a client ID otherwise |
| ServerRegistry.LogReplays | cmd/server.go:856-1147 | the single writes of a run, in order, lead to its result, and after each of them every route leads to the registration that wrote it |
| ServerRegistry.TwoReads | cmd/server.go:1228-1239 | route read and client read at any two moments among the single writes of any run: same registration if and only if the client was not written in between, no client if and only if the last such write dropped it, and a client listing the name if and only if the last such write, if any, registered it with that name |
| ServerRegistry.AcrossExactly | cmd/server.go:1228-1239 | what two reads return, for names that are routes and for client IDs |
| ServerRegistry.ReadsCanDisagree | cmd/server.go:1228-1239 | a concrete run in which the route is found and its client is gone by the second read |
| ServerRegistry.Server.RemoveClient | cmd/server_deps.go:100-109 | routes go one at a time, then the client; the writes logged are those of the abstract removal, and after every single write every route still leads to a client |
| ServerRegistry.Server.ForgetServerClient | cmd/server.go:856-871 | state, verdict and writes are those of the abstract operation |
| ServerRegistry.Server.PublishClient | cmd/server.go:1131-1146 | the client is inserted, then its routes one at a time, logged in that order; after every single write every route leads to a client |
| ServerRegistry.Server.RegisterClient | cmd/server.go:1043-1147 | state, result and the order of the single writes are those of the abstract registration, and no state visible between two writes has a route without a client |
| ServerAttach.AttachKeeps | cmd/server.go:924-932 | the checks of a claim keep the invariant: a claim passes only in an open registration |
| ServerAttach.InstallKeeps | cmd/server.go:924-932 | the publication of a claim keeps the invariant: the newest connection of the slot is published and served |
| ServerAttach.EndKeeps | cmd/server.go:938-946 | the end of a connection keeps the invariant: it starts a teardown only for the newest connection of its slot |
| ServerAttach.TimerKeeps | cmd/server.go:901-917 | the unattached-registration timer keeps the invariant |
| ServerAttach.InactivityKeeps | cmd/server.go:952-983 | the inactivity monitor keeps the invariant |
| ServerAttach.ForgetKeeps | cmd/server.go:873-895 | the registry step of a teardown keeps the invariant |
| ServerAttach.AdvanceKeeps | cmd/server.go:873-895 | the later steps of a teardown keep the invariant |
| ServerAttach.RegisterKeeps | cmd/server.go:1043-1147 | registration, replacing a previous instance, keeps the invariant |
| ServerAttach.InvariantOverRuns | cmd/server.go:873-983 | the invariant holds after every interleaving of registrations, claims, publications, ends, timers and teardown steps |
| ServerAttach.TimerEffect | cmd/server.go:901-917 | the timer reaps and tears down exactly a registration that was never attached |
| ServerAttach.UnattachedIsReleased | cmd/server.go:901-917 | in every run a registration whose timer has fired is attached, or reaped with a teardown for its expiry; with all teardowns finished it is no longer registered |
| ServerAttach.InactivityEffect | cmd/server.go:952-983 | without a live mux session the monitor cancels the registration and tears it down |
| ServerAttach.AttachEffect | cmd/server.go:924-932 | a claim passes its checks exactly in a registration neither reaped nor cancelled |
| ServerAttach.InstallEffect | cmd/server.go:924-932 | a claim past its checks is published in its slot and served |
| ServerAttach.EndEffect | cmd/server.go:938-946 | the end of the current connection empties its slot, reaps, and begins a teardown unless it is QUIC with its peer alive; a superseded one changes nothing |
| ServerAttach.AdvanceEffect | cmd/server.go:873-895 | the sections of a teardown in their order, and what each changes |
| ServerAttach.NothingPublishedAfterClose | cmd/server.go:924-932 | reaped and cancelled never revert, and no connection is published once a registration is closed with no claim past its checks |
| ServerAttach.ReapedIsFrozen | cmd/server.go:901-946 | a reaped registration has no claim past its checks, so nothing is published after it is reaped |
| ServerAttach.PublishedAfterCancel | cmd/server.go:924-932 | in a cancelled registration a publication can follow if and only if a claim was past its checks by then, because cancelling does not take the attach lock |
| ServerAttach.LatePublicationHappens | cmd/server.go:924-983 | a concrete run from the start: register, claim, inactivity cancels, and the connection is published and served in the cancelled registration |
| ServerAttach.TimerExcludesClaim | cmd/server.go:901-932 | a registration taken by the timer was never attached and never will be; one attached is never taken by it |
| ServerAttach.SupersededTearsNothingDown | cmd/server.go:2428-2458 | a connection whose end starts a teardown was the last of its slot and remains so; one that was replaced starts none |
| ServerAttach.FinishedTeardown | cmd/server.go:873-895 | a teardown that ran to its end among other handlers leaves a closed registration that was decremented, is cancelled if it was a full one, and is never registered again in any further run |
| ServerAttach.TeardownSparesSuccessors | cmd/server.go:856-895 | a teardown step leaves every other registered instance and its routes alone, a successor of the same client included |
| ServerAttach.GaugeOverRuns | cmd/server.go:1165-1170 | the gauge is the counted registrations less those decremented, each at most once; with nothing under way it is the number of registered clients and every other registration is cancelled |
| ServerAttach.ServerClient.ClaimServerAttach | cmd/server.go:924-932 | state and verdict are those of the checks and the publication together, with the connection displaced |
| ServerAttach.ServerClient.ReleaseServerAttach | cmd/server.go:938-946 | state and verdict are those of the abstract release |
| ServerAttach.ServerClient.ReapUnattached | cmd/server.go:901-917 | state and decision are those of the abstract expiry |
| ServerAttach.ServerClient.DecrementOnce | cmd/server.go:873-877 | the gauge falls by one the first time and never again |
| ServerAttach.ServerClient.CloseConnections | cmd/server.go:873-895 | undisturbed: the instance is forgotten, its mux slot emptied, its context cancelled, the gauge decremented once |
| ServerAttach.ServerClient.EndMuxCarrier | cmd/server.go:2428-2458 | a superseded session changes nothing; the current one expires the registration, forgets it, cancels it only if it was still registered, and decrements once |
| SpanQueue.Clamp | cmd/telemetry/telemetry.go:159-202 | the configuration ends in its documented ranges, and one already there is kept |
| SpanQueue.ClampExactly | cmd/telemetry/telemetry.go:159-202 | every setting is its default where it is not positive, its limit where it is above it, and itself otherwise |
| SpanQueue.DelayIsCappedDoubling | cmd/telemetry/telemetry.go:283-319 | the shifted retry delay never overflows: it is the backoff doubled per attempt, capped at a minute, and positive |
| SpanQueue.ConservedStep | cmd/telemetry/telemetry.go:203-319 | every step keeps accepted = exported + failed + queued + batched and offered = accepted + dropped - failed, up to increments under way |
| SpanQueue.InOrderStep | cmd/telemetry/telemetry.go:246-281 | every step keeps the spans handed over, batched and queued in the order they were enqueued, in batches of 1 to BatchSize |
| SpanQueue.RetriedStep | cmd/telemetry/telemetry.go:283-319 | every step keeps at most MaxRetries + 1 attempts per batch, delays in (0, 1 minute], and retries = attempts less batches |
| SpanQueue.ConservationOverRuns | cmd/telemetry/telemetry.go:203-319 | all of it holds after every interleaving of producers, Close and the worker |
| SpanQueue.StoppedAccountsForAll | cmd/telemetry/telemetry.go:228-319 | once the worker has stopped, accepted = exported + failed, every accepted span was handed over in order, once, and nothing more is accepted |
| SpanQueue.DeliveredIsAcknowledged | cmd/telemetry/telemetry.go:283-319 | over every run what counts as delivered and exported is exactly what the collector acknowledged, in that order |
| SpanQueue.SendOutcome | cmd/telemetry/telemetry.go:283-319 | a batch is tried until an answer that is not retryable or the attempts are used up, and is delivered exactly when that last answer was success |
| SpanQueue.OfferEffect | cmd/telemetry/telemetry.go:203-219 | a span is queued exactly when the exporter is open and has room, and dropped otherwise |
| SpanQueue.TakeEffect | cmd/telemetry/telemetry.go:246-281 | the worker takes the oldest span and hands the batch over exactly when it is full |
| SpanQueue.AnswerEffect | cmd/telemetry/telemetry.go:283-319 | what each answer of the collector does to the counters and the next attempt |
| SpanQueue.WorkerEffect | cmd/telemetry/telemetry.go:246-281 | when the worker flushes a partial batch, drains and stops |
| SpanQueue.ClosedWorkerProgress | cmd/telemetry/telemetry.go:246-281 | after Close the worker always has a step to take and each one lowers a bound, so it stops |
| SpanQueue.AsyncExporter.Export | cmd/telemetry/telemetry.go:203-219 | a span is queued and counted, or dropped and counted, as the two abstract substeps do |
| SpanQueue.AsyncExporter.Close | cmd/telemetry/telemetry.go:228-244 | marks the exporter closed and changes nothing else |
| SpanQueue.AsyncExporter.Send | cmd/telemetry/telemetry.go:283-319 | the retry loop leaves the counters of the abstract sequence of attempts |
| SpanQueue.AsyncExporter.Drain | cmd/telemetry/telemetry.go:258-279 | the shutdown loop stops with an empty queue, all enqueued spans handed over in order and accepted = exported + failed |

## Left out

- Shared-label (not reliable) consent mode and its background retransmission: acknowledgement does not imply delivery there.
- Runtime consent probes appear in the record layer only as messages that pass through; the probe's own waiting is not modelled.
- AES-GCM, HMAC, MD5 and SHA: ideal labels in the record layer, function parameters elsewhere; the length of their output is not modelled except for the 20-byte MESSAGE-INTEGRITY.
- Counters of the span exporter are unbounded; their wrap at 2^64 is not modelled. The worker's loop before Close is a step relation, not a method.
- TURN datagram transport, transactions with retries, channel binding, the read loop's demultiplexing and the lease before the first refresh.
- Allocation of relays, NAT discovery and punching loops: their outcomes are parameters.
- The relay phase of Connect and the manager's map of established connections; connections leave the model when they are handed over.
- ServerAttach.ServerClient.CloseConnections: the method states a teardown without interference; among other handlers its sections are separate steps, and ServerAttach.FinishedTeardown states the outcome.
- PreparedIce.CloseExactly: about sockets in the manager's store; a new call after Close is served as before, since the manager keeps no closed flag.
- ValidateCandidate's address parsing is one boolean of a candidate; DecodeSignal's JSON is not modelled.
- Reverse listeners, persistence of server state, session tokens and the connections map of a server client.
- Closing a displaced connection or tunnel after the lock is released is merged with the step that displaced it in ClientSessions.
- IceChecklist.Checklist: the standard library's sort is modelled as a stable insertion sort, which has the only result a stable sort can have.
- TunnelRun.StreamDeliversPrefix: claimed while the stream is open at the reader, since a data frame for a removed ID creates a new stream in the code and in the model; one Write at a time per stream, which may overlap Writes of other streams.
- TunnelStreams.P2PStream.Read: blocking is not modelled; a read is enabled once data or the end of the stream is there.
- PunchCache.ReplayAcceptedExactly: one time to live per cache is an assumption about the callers; clock readings are not assumed to be in order. With capacity or more other keys accepted since, which entry is evicted depends on ties, and the contract says nothing.
- Real sockets, TLS, QUIC, yamux, WebSocket and HTTP/2 calls, byte relays and local proxying of accepted streams.
- Reconnect backoff, command-line flags, configuration files, logging and the remaining metrics.
