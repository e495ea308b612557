# A verified model of korik's protocols and bounded stores

korik is a serverless peer-to-peer chat. Its difficult parts are small protocols between
two nodes and small stores with limits, and each of them promises something about whole
runs. This project models those parts in Dafny and proves what they promise, for every
input and every run; where the code keeps a promise only under a condition, the exact
condition is proved together with an input that breaks the promise.

Code that updates objects in place is modelled by classes and methods, each tied to a
function or relation on values; the theorems about runs are lemmas about those.

| file | component | main results |
|---|---|---|
| `RekeyProtocol.dfy`, `RekeyNode.dfy`, `RekeyTiming.dfy` | session rekey | agreement of keys over all interleavings, conservation of packets, no ping-pong; settling and lasting agreement exactly if no pending slot was overwritten, which the ten-minute gate ensures exactly for packets that arrive within five minutes |
| `FileTransfer.dfy`, `Reassembly.dfy` | chunked file transfer with resume | what is saved is what was sent, over all orders, duplicates and restarts; one resume round completes a file; when "complete" means complete |
| `Dedup.dfy`, `Delivery.dfy`, `AtMostOnce.dfy` | replay suppression and the retry queue | replay window of the bounded store, distinct envelope IDs, at-most-once delivery per submission, delivery exactly if the first packet admitted is delivered, nothing lost exactly if the queue never overflows |
| `Stun.dfy` | STUN binding exchange | meaning of a response, round trips of both address encodings, absence of 16-bit wrap-around |
| `RateLimit.dfy`, `Circuit.dfy` | token buckets, strike guard, circuit breaker | quantitative bounds over every timed run, resets and handshakes included |
| `Group.dfy` | group keys | who converges after any run of invitations and rotations, and what crossing rotations do |
| `Fuzzy.dfy`, `Candidates.dfy`, `Discovery.dfy` | contact search, candidates, discovery | optimality of the greedy matcher, best candidate per address, exact round trip |
| `Basics.dfy`, `Text.dfy` | shared datatypes; decimal numbers, splitting, trimming | inverses used by the above |

## What the model assumes

- X25519, SHA-256 and MixKeys are function parameters. Agreement uses only the symmetry of
  Diffie-Hellman. Results that say two keys *differ* also assume that no collisions occur;
  `SymbolicIsSymmetric` and `SymbolicIsCollisionFree` show that the assumptions are consistent.
  `RekeyNode` has the error paths of ECDH and of the random source; runs of the protocol do not fail.
- "Fresh ephemerals" means that neither end draws one that was sent on this connection before.
- Clocks, random bytes, dial outcomes and session readiness are parameters. Clocks do not go
  back where a lemma says so. `PeerGuard.Allow` reads the clock twice for a new peer; the model
  reads it once.
- Each handler that runs under a lock is one atomic step. Rekey packets travel on FIFO channels,
  as on TCP. The slot table is global to the process in the source; here it belongs to a node.
- A file does not change while it is sent, and a read returns a full chunk unless it meets the end.
- Base64, JSON, compression and encryption of bodies are the identity. IP addresses in STUN are
  their 4 or 16 bytes; text is a sequence of characters. Tokens are reals: rounding is not modelled.
- Lower case in discovery is that of ASCII letters, which is all that can turn into `tcp` or `udp`; the
  key of Deduplicate takes any lower-casing of characters, as strings.ToLower maps them one by one.
- Group keys come from the random source: where it matters a rotation draws one the room never had.
- `sort.SliceStable` is represented by the function `StableSorted`; `Candidates.StableSortUnique`
  shows that the contract of `Prioritize` leaves no other result.
- A queued or sent message carries the number of the QueueOrSend call it goes back to. It is not on
  the wire; it only says what "the same message" means when IDs are compared.

## Where the code and its own words differ

The model follows the code.

- "Preventing infinite rekey ping-pong" (internal/peer/node.go:700-703) holds exactly if no
  initiation overwrote a pending slot. The only gate is ten minutes between initiations
  (internal/peer/node.go:417); the slot is overwritten unchecked (internal/peer/node.go:440-442). The
  gate is enough exactly if no rekey packet takes more than five minutes.
  After one overwrite, by either end, some packet is in flight for ever, deliveries alone lead to a
  moment where both ends processed equally many packets and hold different keys, and from then on
  the keys differ at all such moments. `OverwriteExample` is such a run.
- `removePeer` keeps the slot of a closed connection (internal/peer/node.go:1074-1085). A new
  connection on that address agrees in every run exactly if both ends' slots were empty.
- A repeated hello is called safe (internal/peer/internet.go:113-116). It leaves the session
  unchanged exactly if no rekey packet was processed yet.
- `IsComplete` "checks if all chunks have been received" (internal/filetransfer/filetransfer.go:284-289).
  As `WriteChunk` does not check the range of an index, it holds exactly if stray chunks are at least
  as many as missing ones. Honest senders produce no stray chunks, and then it is right.
- `SaveFile` holds the transfer's lock while it calls `IsComplete`, which takes it again
  (internal/filetransfer/filetransfer.go:285-300). Go's RWMutex is not reentrant, so as written the
  call never returns for a receive transfer and no file is ever saved. Everything said here about
  saving is about the sequential bodies, that is, about the code without that second lock.
- "Maximum number of chat messages a single peer may send per minute" is 100
  (internal/ratelimit/ratelimit.go:16-18). The bucket starts full, so a polite new peer gets 101
  through; from a given moment on the limit holds for a peer exactly if its bucket, refilled up to that
  moment, has less than one token.
- The replay check comes before rate limiting (internal/peer/node.go:526, 628), so a throttled
  message stays suppressed when it is retried. Delivery is at most once, not exactly once: while the
  replay window is open, a message is delivered exactly if its first packet past the check is.
- Anybody in a room can rotate its key; the other members then record the rotator as the creator,
  while the rotator's own store keeps the old one (internal/peer/node.go:914-917, 1365-1381). Two
  rotations that cross leave the rotators with each other's key.
- An invitation is written to the newcomer only (internal/peer/node.go:1254-1270), so an earlier
  member's list stays behind until the next rotation that reaches it.

## Model

| member | source | states |
|---|---|---|
| RekeyProtocol.Agreement | internal/peer/node.go:699-753 | for every interleaving of initiations and deliveries without an overwritten slot, and any two moments of it: two ends that have processed n rekey packets hold the same key, the mix chain of the first n paired ephemerals |
| RekeyProtocol.RoundsWithinOne | internal/peer/node.go:427-457 | the numbers of rekey packets processed by the two ends never differ by more than one |
| RekeyProtocol.Conservation | internal/peer/node.go:440-451 | in every reachable state the packets in flight are exactly the unread hellos, one per pending slot and one per overwritten slot |
| RekeyProtocol.MessagesBounded | internal/peer/node.go:699-746 | no run without an overwrite sends more than two rekey packets per initiation |
| RekeyProtocol.DeliverStepDecreases | internal/peer/node.go:714-746 | every delivery strictly decreases hellos + 2*max(sent) - processed |
| RekeyProtocol.EveryDrainEnds | internal/peer/node.go:699-753 | in whatever order packets arrive, the number of deliveries before the channels are empty is bounded by that measure |
| RekeyProtocol.QuietMeansAgreed | internal/peer/node.go:699-753 | when both channels are empty no slot is pending, both ends processed everything and hold the same key |
| RekeyProtocol.SettlesIffNoOverwrite | internal/peer/node.go:405-442 | deliveries alone can empty both channels if and only if no initiation overwrote a pending slot; otherwise no continuation ever does |
| RekeyProtocol.OverwriteSplitsForGood | internal/peer/node.go:440-442 | after an overwrite by either end, in every continuation with fresh ephemerals, the keys differ whenever both ends have processed equally many packets, and no fewer than either had sent when the slot was lost |
| RekeyProtocol.SplitShows | internal/peer/node.go:440-451 | such a moment is always within reach: some deliveries alone lead to it |
| RekeyProtocol.AgreesIffNoOverwrite | internal/peer/node.go:405-457 | with fresh ephemerals, the ends agree at every level moment of every further run of deliveries if and only if no slot was overwritten |
| RekeyProtocol.OverwriteExample | internal/peer/node.go:427-451 | two initiations of one end in a row: a run of eight steps after which both ends have processed two packets, their keys differ, and a repeated hello would change the session |
| RekeyTiming.GateProtectsIff | internal/peer/node.go:405-423 | in every run of two gated nodes under one clock in which no rekey packet is on its way for more than `delay` seconds, no slot is overwritten, if and only if twice the delay fits into the ten minutes |
| RekeyTiming.PromptRunsAgree | internal/peer/node.go:405-457 | so in every such run with packets of at most five minutes the ends agree whenever they are level, and deliveries alone can settle the exchange |
| RekeyTiming.LateAnswerOverwrites | internal/peer/node.go:416-418 | an input that breaks it: one-way delays of 301 seconds |
| RekeyTiming.SweepIsTick | internal/peer/node.go:405-423 | for either end, a node's sweep of its record is an initiation tick of the timed runs if the gate is open and nothing otherwise, in key, slot, packets and time |
| RekeyTiming.DeliveryIsTick | internal/peer/node.go:699-753 | a rekey packet delivered in a timed run changes the record as the node's handler does |
| RekeyProtocol.StaleSlotIff | internal/peer/node.go:1074-1085 | a new connection agrees in every run that overwrites none of its own ephemerals if and only if neither end's slot survived the previous one |
| RekeyProtocol.RepeatedHelloHarmlessIff | internal/peer/node.go:553-564 | a repeated hello leaves an end, either one, unchanged if and only if that end has processed no rekey packet |
| RekeyProtocol.SymbolicIsSymmetric | internal/crypto/crypto.go:14-22 | the symmetry assumption on key agreement is satisfiable |
| RekeyProtocol.SymbolicIsCollisionFree | internal/crypto/crypto.go:60-70 | the assumption that derived and mixed keys do not collide is satisfiable |
| RekeyNode.Node.SetupConn | internal/peer/node.go:464-485 | the connection opens without a key, writes one hello and inherits whatever slot its address had; other addresses are untouched |
| RekeyNode.Node.RemovePeer | internal/peer/node.go:1074-1085 | only the connection goes; slot and rotation time stay |
| RekeyNode.Node.HandleHello | internal/peer/node.go:537-564 | an accepted hello takes the hello reaction of the protocol; an unreadable key or a failed ECDH changes nothing; a JID that does not match closes the connection and changes nothing |
| RekeyNode.Node.InitiateRekey | internal/peer/node.go:427-452 | takes the initiation reaction of the protocol; fails exactly when there is no session key or no ephemeral |
| RekeyNode.Node.HandleRekey | internal/peer/node.go:699-753 | takes the rekey reaction of the protocol, writes what it sends and records the rotation time; an unreadable key changes nothing; a failed ECDH loses a slot taken for it and changes nothing else |
| RekeyNode.Node.RotateIfDue | internal/peer/node.go:416-421 | a ready connection without a rotation in the last ten minutes, whatever its slot holds, gets the ephemeral into its slot, one more rekey packet written and the time noted; any other record is unchanged |
| RekeyNode.SweepFields | internal/peer/node.go:416-442 | the same for the sweep of a record, field by field |
| RekeyNode.RotationsApart | internal/peer/node.go:405-423 | over every sequence of sweeps and other events, two rotations of one address are more than 600 seconds apart |
| RekeyNode.Node.MaybeRekey | internal/peer/node.go:405-423 | so for every address: the ready ones rotated and noted, all others unchanged, connected or not |
| FileTransfer.Transfer.ReadChunk | internal/filetransfer/filetransfer.go:196-227 | the i-th sequential read yields index i with exactly the bytes of chunk i, advances the counters, completes with the last one, and fails without effect at the end |
| FileTransfer.Transfer.SendAll | internal/peer/node.go:1720-1760 | the send loop yields every chunk once, in order, and BytesSent ends at the file size |
| FileTransfer.Transfer.ReadChunkAt | internal/filetransfer/filetransfer.go:232-261 | the random-access read of index i succeeds exactly in range and equals the i-th sequential read |
| FileTransfer.Transfer.ResendChunks | internal/peer/node.go:1764-1798 | each requested index that is in range is resent once, at its first mention |
| FileTransfer.Transfer.WriteChunk | internal/filetransfer/filetransfer.go:264-282 | a new index is stored and counted, a known one is ignored; no range check |
| FileTransfer.Transfer.MissingChunks | internal/filetransfer/filetransfer.go:382-395 | lists the indexes below the total that are not stored, ascending |
| FileTransfer.Transfer.SaveFile | internal/filetransfer/filetransfer.go:292-342 | succeeds exactly when the count suffices and no index below the total is missing, and writes the chunks in index order |
| FileTransfer.HandleChunk | internal/peer/node.go:810-857 | a chunk message for an unknown transfer restores its checkpoint first, whatever its keys; the chunk is stored and checkpointed; exactly a savable file is saved, its checkpoint cleared and the sender told; undecodable data and send transfers change nothing |
| FileTransfer.Transfer.Checkpoint | internal/filetransfer/filetransfer.go:406-446 | the checkpoint holds every stored chunk under the decimal text of its index and nothing else |
| FileTransfer.EncodeChunks | internal/filetransfer/filetransfer.go:437-440 | the encoding loop yields exactly the stored chunks in any iteration order |
| FileTransfer.ReplayEntries | internal/filetransfer/filetransfer.go:487-499 | replaying any checkpoint, in any order: each named index gets the data of one entry that names it and every readable entry is counted; when keys are how their index prints, the counters match the chunk map |
| FileTransfer.RestorePartial | internal/filetransfer/filetransfer.go:449-504 | the restored transfer is the one the checkpoint describes, and the replay of its entries for a checkpoint with odd keys such as `07` |
| FileTransfer.RestoreInvertsCheckpoint | internal/filetransfer/filetransfer.go:406-504 | restoring what was checkpointed gives back the same total, chunk map and both counters |
| FileTransfer.DecimalIsExact | internal/filetransfer/filetransfer.go:439-488 | reading a printed chunk index gives back the index, negative ones included |
| Reassembly.ChunksPartitionFile | internal/filetransfer/filetransfer.go:101-227 | the chunks of a file, concatenated, are the file; none is empty and all but the last are full |
| Reassembly.CompleteIffStraysCoverMissing | internal/filetransfer/filetransfer.go:285-289 | for every announced total, a transfer counts as complete if and only if stray chunks are at least as many as missing ones; without strays, if and only if nothing is missing |
| Reassembly.StrayChunkFoolsComplete | internal/filetransfer/filetransfer.go:264-289 | one out-of-range chunk makes a transfer of one chunk complete although it cannot be saved |
| Reassembly.RestartIsIdentity | internal/filetransfer/filetransfer.go:406-504 | a restart from any checkpoint of a consistent transfer changes nothing |
| Reassembly.SavedMeaning | internal/filetransfer/filetransfer.go:285-342 | with honest chunks the save succeeds exactly when no index is missing, and then writes the file and counts its bytes |
| Reassembly.ReassemblyOfEveryRun | internal/peer/node.go:810-857 | over every run of honest arrivals and restarts, in any order and with duplicates, the save succeeds if and only if every index arrived, the bytes written are the file and BytesSent is its size |
| Reassembly.ResumeCompletes | internal/peer/node.go:1764-1836 | from every partial state one request and resend round leaves nothing missing and the file can be saved; only missing chunks are resent |
| Reassembly.ResumeAfterEveryRun | internal/peer/node.go:1800-1836 | the same after every run, whatever arrived before and however often the receiver restarted |
| Reassembly.RepliesMeaning | internal/peer/node.go:1772-1796 | a resend replies with exactly the requested indexes in range and their chunks, each once, in the order in which they were first mentioned |
| Reassembly.MissingAscends | internal/filetransfer/filetransfer.go:388-394 | missing indexes are listed in ascending order |
| Dedup.Seen.Add | internal/dedup/dedup.go:31-66 | accepts the empty ID and exactly those not stored; a new one is stored with its time, after which no other entry of a store that was full is older than ttl; at most one entry is evicted, an oldest one |
| Dedup.Seen.Evict | internal/dedup/dedup.go:49-63 | removes nothing from a store below capacity, and else exactly one entry, an oldest one |
| Dedup.Seen.Expire | internal/dedup/dedup.go:42-48 | removes exactly the entries older than ttl |
| Dedup.Seen.FindOldest | internal/dedup/dedup.go:51-58 | finds an entry with the earliest time |
| Dedup.Seen.Has | internal/dedup/dedup.go:69-84 | true exactly for a stored ID within ttl; an expired one is dropped |
| Dedup.StoreBounded | internal/dedup/dedup.go:42-64 | in every run the store never exceeds its capacity |
| Dedup.Displaced | internal/dedup/dedup.go:42-63 | an insertion drops another entry only if it expired or was the oldest of a store that stayed full |
| Dedup.ReplayWindow | internal/dedup/dedup.go:31-84 | if one ID is accepted twice in a run, more than ttl passed or at least `max` distinct other IDs were accepted no earlier than the first time |
| Dedup.ReplayWindowStrict | internal/dedup/dedup.go:31-84 | under a strictly increasing clock those other IDs were accepted strictly between the two calls |
| Dedup.RefusedIff | internal/dedup/dedup.go:31-84 | under a strictly increasing clock an ID is refused if and only if a live call carried it, and found by a look-up exactly if moreover it has not expired |
| Dedup.LiveMeaning | internal/dedup/dedup.go:31-84 | a call is live exactly if it was accepted and no call since dropped it: a look-up that found it expired, or a new ID that met a full store when it had expired or, with none expired, was the earliest |
| Dedup.StoreIsLive | internal/dedup/dedup.go:42-84 | the store holds exactly the IDs of the live calls with their times |
| Delivery.EnvelopeIdsDiffer | internal/peer/node.go:140-154 | IDs with different sequence numbers differ, whatever clock and random suffix, even if JID and device contain the separator |
| Delivery.IdsOfSendersDiffer | internal/peer/node.go:140-154 | IDs of different senders or devices differ, if their names do not contain the separator |
| Delivery.EnvelopeIdExample | internal/peer/node.go:144-152 | a literal ID, with `cli` for a missing device |
| Delivery.Queue.Enqueue | internal/queue/queue.go:49-60 | appends, naming a message that has no ID, and keeps the newest 1000 |
| Delivery.Queue.Remove | internal/queue/queue.go:72-83 | removes every message with the ID and keeps the order of the others |
| Delivery.Queue.MarkAttempt | internal/queue/queue.go:86-95 | increments the counter of the messages with the ID and changes nothing else |
| Delivery.Node.NextEnvelopeId | internal/peer/node.go:140-154 | mints the ID of the next sequence number, wrapping at 64 bits |
| Delivery.Node.SendToWithId | internal/peer/node.go:1127-1163 | writes the message under the given ID, using up one more sequence number, exactly if the session is ready |
| Delivery.Node.QueueOrSend | internal/peer/node.go:386-402 | mints the ID first; the message, for this recipient and with this text, is then either written or queued under that ID |
| Delivery.Node.Resend | internal/peer/node.go:368-378 | one message of a flush: counted, resent under its own ID or failing that offered to the callback, and out of the queue if either succeeded |
| Delivery.Node.FlushQueue | internal/peer/node.go:359-381 | so for each queued message of the peer, in order; returns how many left the queue |
| Delivery.Node.FlushOnHello | internal/peer/node.go:598-610 | the same after a hello, without counting attempts |
| AtMostOnce.IdsPairwiseDistinct | internal/peer/node.go:140-154 | in every run of a sender with fewer than 2^64 mints, all IDs minted, for messages, retries and packets of every other kind, are pairwise distinct |
| AtMostOnce.IdsIdentify | internal/peer/node.go:140-154 | an ID names one message |
| AtMostOnce.AskedIsSubmitted | internal/peer/node.go:386-399 | a run asks for exactly its submissions, one message each, in order, with their recipients and texts |
| AtMostOnce.MessagesConveySubmissions | internal/peer/node.go:364-399 | whatever a run writes, gives to a callback or keeps queued has the recipient and the text of the submission its origin names |
| AtMostOnce.SubmitLosesOnlyAtCap | internal/queue/queue.go:44-60 | a submission loses an earlier message only if the peer is offline and the queue full, and then the oldest queued one |
| AtMostOnce.SubmitDropsOldest | internal/queue/queue.go:56-58 | and that one is lost indeed: it is nowhere else |
| AtMostOnce.FlushLosesNothing | internal/peer/node.go:359-381 | a flush, whatever attempts fail, keeps every message written, called or queued, and brings none back |
| AtMostOnce.RunLosesNothingIff | internal/queue/queue.go:44-60 | at the end of a run each message ever asked for was written, given to the callback or is still queued if and only if no offline submission of the run met a full queue |
| AtMostOnce.OverflowExample | internal/queue/queue.go:56-58 | an input that loses a message: 1001 submissions to an offline peer |
| AtMostOnce.QueueBounded | internal/queue/queue.go:44-58 | in every run the whole queue holds at most 1000 messages |
| AtMostOnce.FlushSendsInOrder | internal/peer/node.go:364-380 | whatever attempts succeed, the messages sent go out in queue order, and the queue keeps the failed ones, counted, and those of other peers, in order |
| AtMostOnce.FlushSendsInSubmissionOrder | internal/peer/node.go:364-380 | in every run what a flush sends goes out in the order of submission |
| AtMostOnce.QueueStaysTidy | internal/peer/node.go:359-402 | throughout every run the queued IDs are pairwise distinct and no queued message has been sent |
| AtMostOnce.Receiver.HandleChat | internal/peer/node.go:518-672 | a chat is handed over exactly if the replay check accepted it and every later gate passed; the check comes first |
| AtMostOnce.AtMostOnceDelivery | internal/peer/node.go:359-402 | however the sender resends and the network repeats: if two packets of the same QueueOrSend call get past the replay check, both carry the ID minted by that call, its recipient and its text, and more than ttl passed or `max` other IDs were accepted meanwhile |
| AtMostOnce.DeliveredIffFirstIs | internal/peer/node.go:518-672 | while the replay window of the first admitted packet of a submission is open, the submission reaches the application if and only if that packet does |
| AtMostOnce.ThrottledIsNeverDelivered | internal/peer/node.go:526-630 | an input that is never delivered: its first packet is throttled and the second dropped as a replay |
| AtMostOnce.OnlyReplaysDropped | internal/peer/node.go:518-535 | a chat is refused only if an earlier accepted call had its ID; that call was no packet of another kind of the same sender, and it was the same chat unless somebody else used the ID |
| Stun.XorMappedRoundTrip | internal/nat/stun.go:125-162 | decoding inverts the encoding of section 15.2 of RFC 5389, a byte-wise XOR of port and address with cookie and transaction ID, for every address, port and transaction ID |
| Stun.CookieHighIsMaskStart | internal/nat/stun.go:135-152 | the port's mask is the first two bytes of the cookie, 21 12 |
| Stun.PortIsBytewise | internal/nat/stun.go:134-135 | unmasking the port as a word is unmasking it byte by byte |
| Stun.MaskIsCookieThenId | internal/nat/stun.go:149-156 | the IPv6 mask is the cookie 21 12 a4 42 followed by the transaction ID |
| Stun.LiteralRequest | internal/nat/stun.go:80-87 | the twenty bytes of a request |
| Stun.LiteralResponse4 | internal/nat/stun.go:89-224 | a literal response with a padded attribute and an XOR-MAPPED-ADDRESS parses to 192.0.2.1, port 32853 |
| Stun.LiteralMapped | internal/nat/stun.go:164-175 | a literal MAPPED-ADDRESS parses to 192.0.2.1, port 32853 |
| Stun.DecodableIff | internal/nat/stun.go:125-186 | a value can be decoded exactly if its family is IPv4 or IPv6 and it is long enough |
| Stun.MappedRoundTrip | internal/nat/stun.go:164-186 | decoding inverts the encoding of section 15.1 of RFC 5389 |
| Stun.Xor32IsBytewise | internal/nat/stun.go:137-140 | unmasking an IPv4 address as one word is unmasking it byte by byte |
| Stun.SliceEndRightIffClipped | internal/nat/stun.go:110-117 | the 16-bit sum of the slice bound is right for every attribute that fits if and only if the body is shorter than 65536 bytes |
| Stun.ReadAttribute | internal/nat/stun.go:193-221 | one round of the loop stays in range, does not wrap, shortens the body and keeps what the walk yields |
| Stun.ParseMappedAttribute | internal/nat/stun.go:190-224 | for every clipped body the loop ends and computes the walk over the attributes |
| Stun.ParseXorMappedAddress | internal/nat/stun.go:125-162 | the in-place IPv6 unmasking and the IPv4 branch compute the XOR with cookie and transaction ID, for every value |
| Stun.ParseBindingResponse | internal/nat/stun.go:89-123 | for every byte string and 12-byte transaction ID: no index is out of range and the result is the one specified |
| Stun.BuildBindingRequest | internal/nat/stun.go:80-87 | the buffer is the 20-byte header of section 6 of RFC 5389 |
| Stun.WalkMeaning | internal/nat/stun.go:190-224 | on every well-formed padded list the walk yields the last decodable XOR-MAPPED-ADDRESS, else what was found before, else the first decodable MAPPED-ADDRESS |
| Stun.ResponseMeaning | internal/nat/stun.go:89-123 | the same for whole responses, whatever trails the declared length |
| Stun.OverlongMeaning | internal/nat/stun.go:110-117 | the same when the declared length exceeds the datagram |
| Stun.BrokenTail | internal/nat/stun.go:192-197 | an attribute cut off at the end does no harm to those before it |
| Stun.UnpaddedLast | internal/nat/stun.go:213-220 | the last attribute counts even if its padding is missing |
| Stun.AcceptedResponse | internal/nat/stun.go:89-108 | nothing is accepted but a success response with the cookie and the expected transaction ID |
| Stun.PaddingMeaning | internal/nat/stun.go:213-217 | attributes are padded to the next multiple of four |
| Stun.ServerRoundTrip | internal/nat/stun.go:89-162 | a server's answer with an XOR-MAPPED-ADDRESS gets the address across |
| RateLimit.KeysAreIndependent | internal/ratelimit/ratelimit.go:60-90 | in a run over many keys, resets included, the state of a key is that of its own events since it was last reset |
| RateLimit.OutcomesAreIndependent | internal/ratelimit/ratelimit.go:60-90 | and so is what is allowed |
| RateLimit.BucketInv | internal/ratelimit/ratelimit.go:60-83 | the bucket never goes below zero or above the burst and remembers the time of the last event |
| RateLimit.RateBound | internal/ratelimit/ratelimit.go:60-83 | of any consecutive events of a key at most burst + rate * T are allowed, T being the time they span |
| RateLimit.RateBoundInWindow | internal/ratelimit/ratelimit.go:60-83 | the same for time windows of any length |
| RateLimit.RateBoundWithResets | internal/ratelimit/ratelimit.go:60-90 | in any run of a limiter over any keys, at most (r + 1) * burst + rate * T events of a key are allowed in a window of length T in which it was reset r times |
| RateLimit.WellSpacedNeverRefused | internal/ratelimit/ratelimit.go:72-82 | events that leave time to earn a token are never refused |
| RateLimit.PerMinuteHoldsIff | internal/ratelimit/ratelimit.go:187-232 | for a bucket of n tokens refilled at n per minute, every key, new, busy or idle, and every moment: at most n events in the minute from then on, for every sender, if and only if the bucket, refilled up to then, holds less than one token |
| RateLimit.GuardPerMinuteHoldsIff | internal/ratelimit/ratelimit.go:119-156 | for every peer that is not blocked, new, busy or idle, and every moment: at most 100 messages in the minute from then on, whatever it sends, if and only if its bucket, refilled up to then, holds less than one token |
| RateLimit.GuardRun | internal/ratelimit/ratelimit.go:119-156 | in every run of a peer that is not blocked each refusal is a strike, up to three, blocked means exactly three strikes, and before that the guard is its bucket |
| RateLimit.StrikesSinceUnblock | internal/ratelimit/ratelimit.go:119-181 | in every run over many peers, a peer's strikes are its refusals since it was last unblocked, up to three, and it is blocked exactly at three |
| RateLimit.BlockedForGood | internal/ratelimit/ratelimit.go:133-135 | nothing is allowed after a block |
| RateLimit.GuardRateBound | internal/ratelimit/ratelimit.go:137-155 | the guard allows at most 100 messages plus 100 per minute of the window |
| RateLimit.PolitePeerNeverStruck | internal/ratelimit/ratelimit.go:119-156 | a peer whose messages are at least 0.6 s apart is never refused, struck or blocked |
| RateLimit.GuardLetsMoreThroughInAMinute | internal/ratelimit/ratelimit.go:15-18 | 101 messages of a new peer pass within 60 seconds |
| RateLimit.Limiter.Allow | internal/ratelimit/ratelimit.go:60-83 | one event of the bucket of its key; other keys are untouched |
| RateLimit.PeerGuard.Allow | internal/ratelimit/ratelimit.go:119-156 | one event of the strike guard of its key; other peers are untouched |
| RateLimit.ConnectionGuard.Allow | internal/ratelimit/ratelimit.go:205-232 | one event of a bucket of 10 tokens refilled at 10 per minute |
| Circuit.Breaker.Skip | internal/circuit/circuit.go:37-50 | skips exactly within the cooldown of a block and clears an older one |
| Circuit.SkippedIff | internal/circuit/circuit.go:37-70 | over every run, told from what was dialled: an attempt is skipped if and only if `threshold` dials in a row failed since the last handshake or expired block, the last no more than the cooldown ago |
| Circuit.RecoversAfterCooldown | internal/circuit/circuit.go:44-48 | an attempt later than the cooldown after every failed dial is dialled, and if the address was blocked a failure then counts as the first |
| Circuit.Breaker.RecordSuccess | internal/circuit/circuit.go:53-58 | clears one address |
| Circuit.Breaker.RecordFailure | internal/circuit/circuit.go:61-70 | counts a failure and blocks exactly from the threshold on |
| Circuit.Breaker.ConnectTo | internal/peer/node.go:229-259 | dials exactly when not connected and not skipped, and records a failed dial; an open connection leaves the breaker alone |
| Circuit.AlwaysSound | internal/circuit/circuit.go:37-70 | throughout every run an address is blocked exactly when its failures reached the threshold, and they never pass it |
| Circuit.FailureBound | internal/peer/node.go:229-259 | any stretch of a run no longer than the cooldown with h handshakes of an address holds at most (h + 1) * threshold failed dials of it |
| Circuit.BoundIsReached | internal/circuit/circuit.go:37-70 | for every h a run at a single moment, each handshake behind a dial that worked, reaches that bound |
| Group.Store.Create | internal/group/group.go:56-80 | a named room with its creator as only member |
| Group.Store.Add | internal/group/group.go:83-91 | stores exactly the rooms with an ID and a 32-byte key |
| Group.Store.Get | internal/group/group.go:94-113 | finds the room with this ID, else the only one with this prefix of at least four characters, in any iteration order; otherwise none exists |
| Group.NamesMeaning | internal/group/group.go:94-113 | a full ID names its room, a prefix of four characters or more the only room it fits; a short or ambiguous prefix names nothing |
| Group.Store.AddMember | internal/group/group.go:152-166 | adds a member once |
| Group.Store.RemoveMember | internal/group/group.go:169-184 | removes a member and keeps the order of the others |
| Group.WithoutMemberConcat | internal/group/group.go:176-182 | removal works on each part of a list by itself, so the order of the others stays |
| Group.Store.Rekey | internal/group/group.go:203-216 | replaces the key and nothing else |
| Group.Member.HandleInvite | internal/peer/node.go:898-936 | stores the invited room with oneself among its members; a packet that the limiter or the decryption refuses and an invalid payload change nothing |
| Group.Member.InviteToRoom | internal/peer/node.go:1230-1272 | sends the room as it was before the newcomer joined, then adds the newcomer; nothing happens without a ready session |
| Group.Member.RekeyRoom | internal/peer/node.go:1365-1381 | rotates the key, keeps the members, and invites every other member with a ready session |
| Group.LastArrivalWins | internal/peer/node.go:898-936 | of the invitations to a room, the last one addressed to a member decides what it stores |
| Group.MemberAfterRun | internal/peer/node.go:1230-1272 | after any run of invitations and rotations, a member stores the inviter's room as it was when the run last wrote to it, newcomer included, with the inviter as creator |
| Group.ConvergesIff | internal/peer/node.go:1230-1272 | then, if no rotation reuses a key, the member's list is a prefix of the inviter's that lacks exactly those first invited since; the lists are equal if and only if there are none, and the keys if and only if no rotation followed |
| Group.FirstInviteeLags | internal/peer/node.go:1254-1270 | an input that does not converge: two invitations, of which the first member never hears of the second |
| Group.CrossingRotationsSwapKeys | internal/peer/node.go:1365-1381 | two rotations that cross leave the rotators with each other's key, whatever the order of arrival |
| Group.RotationConverges | internal/peer/node.go:1365-1381 | after a rotation whose invitations arrived in any order and number, the new key being one nobody held, a member's room equals the rotator's in key and members if and only if it was a member with a ready session; all other stores are unchanged |
| Group.RemovedKeepsOldKey | internal/peer/node.go:1362-1364 | whoever was removed before the rotation keeps the old state and never gets the new key |
| Fuzzy.FuzzyScore | internal/contacts/contacts.go:281-300 | succeeds if and only if the query is a subsequence of the target; the score is the least number of characters skipped before the last match over all embeddings |
| Candidates.StableSortedMeaning | internal/nat/candidate.go:237-244 | the result is sorted, a permutation, and keeps the order within each rank |
| Candidates.StableSortUnique | internal/nat/candidate.go:237-244 | sortedness and the order within ranks determine the result |
| Candidates.SortedMeaning | internal/nat/candidate.go:238-243 | sorted means that priorities fall and IDs rise among equal ones |
| Candidates.TextLessMeaning | internal/nat/candidate.go:242 | text order: the first difference decides, and a prefix comes first |
| Candidates.Prioritize | internal/nat/candidate.go:237-244 | the array becomes sorted, keeps its elements and keeps the order of candidates of equal rank |
| Candidates.Deduplicate | internal/nat/candidate.go:247-259 | the loop computes the list of first occurrences, for any lower-casing of characters |
| Candidates.SameKeyIff | internal/nat/candidate.go:35-40 | two candidates share a key if and only if transport, port and lower-cased host agree |
| Candidates.SameHostIff | internal/nat/candidate.go:35-40 | for IPs without brackets, hosts agree exactly if the IPs do |
| Candidates.AddressExamples | internal/nat/candidate.go:35-40 | literal addresses; an IPv6 literal is bracketed once |
| Candidates.OnePerKey | internal/nat/candidate.go:247-259 | exactly the keys of the input survive, once each, and nothing new appears |
| Candidates.DeduplicateSorted | internal/nat/candidate.go:246-259 | on a sorted list the order and the best candidate of each key survive |
| Candidates.PipelineKeepsBest | internal/peer/internet.go:151-169 | for every list, sort and deduplication leave one candidate per transport and address, of the highest priority among its duplicates, still sorted |
| Candidates.TryTcp | internal/peer/internet.go:196-214 | dials a prefix of the stage's TCP candidates, at most three, and stops at the first success; without success it stopped at three or tried them all |
| Candidates.EligibleMeaning | internal/peer/internet.go:198-201 | exactly the TCP candidates of the stage are eligible |
| Candidates.BestFirst | internal/peer/internet.go:181-214 | no candidate is dialled while a better one of its stage is left out |
| Discovery.AcceptedIsSane | internal/peer/discovery.go:65-118 | every accepted announcement, new or legacy, has a name, transport tcp or udp, a port in range, clean fields, and an IP literal unless it is legacy |
| Discovery.AcceptedHasPrefix | internal/peer/discovery.go:67-70 | nothing is accepted without the prefix and two fields behind it |
| Discovery.ParseBuilt | internal/peer/discovery.go:56-118 | what parsing makes of a payload built from clean fields, errors included |
| Discovery.RoundTripIff | internal/peer/discovery.go:56-130 | parsing a built payload returns its fields if and only if the name is not empty, the fields are trimmed and free of the separator, the IP is a literal and the port is in 1..65535 |
| Discovery.BuildIsJoin | internal/peer/discovery.go:56-61 | a built payload is the six fields joined by bars; an unknown transport becomes tcp |
| Discovery.ParseThreeFields | internal/peer/discovery.go:77-80 | a legacy announcement of clean fields: TCP and no IP, exactly if it has a name and a valid port |
| Discovery.ParseFourFields | internal/peer/discovery.go:81-85 | the same with a device |
| Discovery.TransportExample | internal/peer/discovery.go:88 | upper case transports are read as lower case |
| Discovery.ParseFiveFields | internal/peer/discovery.go:86-97 | the new format without a device, the transport in any case, errors included |
| Discovery.StripZoneMeaning | internal/peer/discovery.go:125-130 | a zone goes, or else surrounding brackets; a bare address stays |
| Text.AtoiItoa | internal/peer/discovery.go:120-123 | reading a printed integer gives it back exactly if it fits 64 bits |
| Text.DecimalExample | internal/peer/discovery.go:60-61 | numbers are written in base ten |
| Text.AtoiExample | internal/peer/discovery.go:120-123 | a plus sign is read, an empty or broken number is not |
| Text.SplitJoin | internal/peer/discovery.go:60-67 | splitting what was joined from fields free of the separator gives the fields back |

## Left out

- Chat packets in flight during a rotation: a chat sent under the old key behind one's own rekey packet does not decrypt, so no such claim is made.
- Rekey over UDP: the pairing argument needs FIFO channels; reordering and hole punching are not modelled.
- Runs with ECDH or random-source failures: the handlers have these paths, the runs of the rekey protocol do not take them.
- The replay check on rekey packets: every rekey packet carries an ID of its own, so it never fires on them.
- Exactly-once delivery and history synchronisation (internal/peer/node.go:1017-1059): synchronised messages carry new envelope IDs.
- Saving a completed file at most once: a repeated chunk under a new envelope ID enters the save path again (internal/peer/node.go:827-834).
- Empty files: no chunk is ever sent, so their receiver never reaches the save path.
- The transfer table, progress, cancellation and pruning of old checkpoints.
- SaveFile: the lock it takes twice is not modelled, only what its body does once it has it; nor are choosing a free file name and errors of the file system.
- Locks and goroutines: each locked handler is one step.
- PriorityFor and StepFor are tables: any assignment of numbers would serve, and the results here hold for all of them. The candidate bundle is JSON in base64, so its round trip is that of those two libraries; DialAddress formats an address for the dialler and nothing reads it back.
- Contact search apart from fuzzyScore: its ranking of substring hits is not a law (internal/contacts/contacts.go:253-266).
- Group chat messages, leaving a room, listing rooms and lookup by name.
- Persistence of queue, rooms, history and configuration; identity, backup, audit, user interface and updates.
- Rounding of floating-point token counts.
