# A verified model of the VPN's transport, rekeying, admission and server core

The repository is a point-to-point VPN in Go. Both ends agree on keys with a
Noise_IK handshake, repeat it from time to time, and carry IP packets as sealed
frames inside obfuscated UDP datagrams. This project models that core in Dafny
and proves what it is for: no session delivers a counter twice, and what it
delivers is what was sealed; no nonce is used twice; nothing is lost to reordering
inside the window; rekeying neither leaves the two ends apart for good nor costs
the client's frames; and admission never exceeds its budgets.

The operations are methods of classes with the source's fields, each proved
against a function on the abstract state; the theorems about whole runs are
lemmas about those functions. Where the source is concurrent, the lock regions
are the events of a state machine. Lemmas say what the events of one undisturbed
call add up to: for the channel, `Encrypt`, `Decrypt` and `Rotate`; for the two
ends, starting and completing a rehandshake and answering a handshake; for the
server, its handlers and the cleanup pass.

| files | what they hold |
|---|---|
| `Wrappers`, `Maps`, `Encoding`, `Cipher` | results, a fact about maps, big-endian integers, the symbolic cipher and its laws |
| `ReplayWindow`, `ReplayRuns` | the 1024-bit ring and every run of calls on it |
| `Sessions`, `SessionRuns` | frames, one session, and delivery orders |
| `Channels`, `ChannelRuns`, `ConcurrentChannel` | rotation with a grace period, its refinement of an ideal channel, and all interleavings |
| `Handshake`, `ClientSide`, `Rekey`, `RekeyProgress`, `RekeyTraffic` | the two-message handshake, the client's pending rehandshake, both ends over a lossy network, and the traffic meanwhile |
| `TokenBuckets`, `IPLimiters`, `RecencyOrder`, `LimiterRuns`, `SourceRuns`, `HandshakeGates` | admission of handshakes |
| `Packets`, `EndToEnd` | the outer packet, and a plaintext through the whole pipeline |
| `ServerSide`, `ServerRuns`, `ServerExpiry`, `DoubleWrites` | the client table, the life of a server, and which frames it can write twice |

## Assumptions

- The cipher is any `Aead` that is `Authentic`: opening undoes sealing and opens
  nothing else. This is a precondition of the lemmas, never an axiom, and two
  ciphers of opposite kinds have it. Nothing assumes that a text opens under one
  key only, which ChaCha20-Poly1305 does not promise: deliveries are told apart by
  the session that makes them.
- Continuity needs a network that does not forge (`Unforged`): a frame that is
  sealed for a session the server holds for the client was sealed under it by the
  client. It may lose, delay, repeat and reorder frames and bring garbage. Lemmas
  that do not name `Unforged` hold of every network. A session key is the pair of
  ephemeral keys it was made from, and a direction.
- A handshake message is the tuple of keys it authenticates. A failed read of
  the second message leaves the initiator reusable, which
  `cmd/client/main.go:217` relies on, and the last nonce is reserved (section
  5.1 of the Noise Protocol Framework, revision 34). The Noise library is not
  part of this model.
- Ephemeral keys and new channel sessions are fresh.
- Clock readings are parameters. They may come in any order, except where a lemma
  says otherwise: exact recency needs readings that do not repeat, and the budget of a
  source that was evicted needs readings that do not go back.

Where the repository's text and its code differ, the code is followed:

- `pkg/session/replay.go:6-7` says a packet is too old when it is more than 1024
  positions behind the highest; the code refuses one exactly 1024 behind, too.
- `pkg/session/replay.go:11` names RFC 6479. The algorithm there keeps one word
  of the bitmap spare and clears whole words; this code clears single bits and
  uses all 1024 as the window.
- `cmd/server/main.go:250-251` says that only authenticated packets keep a client
  alive; a ping, which nothing authenticates, does so as well
  (`cmd/server/main.go:262-269`). `KeptIffInTouch` counts both.
- `Packet.Unmarshal` assigns the type before it finds that the length is wrong.
- Older documents describe epochs, AES-GCM and a pre-shared key; the code has none.

## Model

| member | source | states |
|---|---|---|
| Encoding.DecodeEncode | pkg/session/session.go:231-232 | Decoding an encoded integer gives its low bytes: exact when it fits, truncated as Go's conversion truncates when it does not. |
| Encoding.BigEndianAt | pkg/session/session.go:231-232 | The byte order on the wire: most significant first, each byte the right digit in base 256. |
| Encoding.EncodeDecode | pkg/session/session.go:242 | Every byte string is the encoding of the value read from it, so reading a counter loses nothing. |
| Encoding.Uint64RoundTrip | pkg/session/session.go:231-242 | The counter written at the head of a frame is the one read back, whatever follows it. |
| Cipher.TransparentIsAuthentic | pkg/session/session.go:225-246 | The assumed law of the cipher can be met. |
| Cipher.TransparentTellsKeys | pkg/session/session.go:225-246 | It can be met by a cipher that seals no text under two keys whose ephemerals fit 32 bits. |
| Cipher.KeyBlindIsAuthentic | pkg/session/session.go:225-246 | It can be met by a cipher that seals every text under all keys, so that the law does not quietly exclude ciphers that fail to commit to their key. |
| Cipher.CipherState.Encrypt | pkg/session/session.go:224-225 | Sealing uses the counter as nonce and advances it by one; at the reserved nonce it fails and advances nothing. |
| Cipher.CipherState.Decrypt | pkg/session/session.go:245-246 | Opening uses the nonce that was set, and advances it only if the text authenticates. |
| ReplayWindow.SetBit | pkg/session/replay.go:22-27 | Or-ing a mask into one word sets that one of the 1024 ring positions and changes no other. |
| ReplayWindow.ClearBit | pkg/session/replay.go:22-28 | And-ing the complement clears that one ring position and changes no other. |
| ReplayWindow.SlotsDiffer | pkg/session/replay.go:23 | Two counters less than 1024 apart never share a ring position. |
| ReplayWindow.Window.constructor | pkg/session/replay.go:15-20 | The zero value has accepted nothing and is a correct filter. |
| ReplayWindow.Window.Set | pkg/session/replay.go:27 | Marks exactly the counter's position among the 1024. |
| ReplayWindow.Window.Clear | pkg/session/replay.go:28 | Unmarks exactly the counter's position among the 1024. |
| ReplayWindow.Window.Get | pkg/session/replay.go:29-32 | Reports whether the counter's position is marked. |
| ReplayWindow.Window.Slide | pkg/session/replay.go:52-61 | By either way of clearing, skipped counters end up unmarked, and counters still in the window keep their marks, up to the largest uint64. |
| ReplayWindow.Window.Accept | pkg/session/replay.go:37-76 | Says yes exactly when the counter was not accepted before and no accepted counter is 1024 or more ahead; records it exactly then; and every one of the 1024 bits keeps agreeing with the set of accepted counters. |
| ReplayWindow.Window.Advanced | pkg/session/replay.go:49-65 | After a slide and a mark, all bits agree with the enlarged set around the new highest counter. |
| ReplayRuns.PresentedIsCovered | pkg/session/replay.go:37-76 | A counter once presented stays refused for good, even if it was refused the first time. |
| ReplayRuns.AcceptsClosedForm | pkg/session/replay.go:37-76 | In any sequence of calls, a call is accepted if and only if its counter was never presented before and none presented before is 1024 or more ahead. |
| ReplayRuns.EdgeOfTheWindow | pkg/session/replay.go:67-75 | A counter 1023 behind the highest is accepted, one 1024 behind is refused. |
| ReplayRuns.AcceptedOnce | pkg/session/replay.go:37-76 | No sequence of calls accepts one counter twice. |
| ReplayRuns.LosslessIffBounded | pkg/session/replay.go:49-75 | A delivery order loses nothing if and only if its counters are distinct and none comes 1024 or more behind an earlier one. |
| Sessions.OpensExactlySealed | pkg/session/session.go:238-250 | The authentication step lets through exactly the frames that were sealed for the key, and gives back what was sealed. |
| Sessions.FrameParts | pkg/session/session.go:231-233 | A frame is eight bytes of counter and the sealed text; it is 24 bytes longer than its plaintext and carries its counter. |
| Sessions.DecryptedExactly | pkg/session/session.go:238-258 | A plaintext comes out exactly when the frame is that plaintext sealed for this session and its counter is fresh; the replay error means exactly a sealed frame that is not fresh; only a delivery changes the filter. |
| Sessions.RefusedExactly | pkg/session/session.go:238-258 | Which error a refusal is: too short exactly below 24 bytes, replay exactly for a sealed frame that is not fresh, failed authentication exactly for the rest. |
| Sessions.NonceIsOverwritten | pkg/session/session.go:242-247 | The receive cipher is left at the frame's counter, or one past it if the frame authenticates; a frame that is too short does not touch it. |
| Sessions.CountersAreConsecutive | pkg/session/session.go:222-235 | The n-th frame a session seals carries the n-th counter from where it stands, and sealing fails exactly from 2^64 - 1 on. |
| Sessions.RoundTrip | pkg/session/session.go:222-258 | What one side seals the matched side opens to the same bytes, once: a second try is a replay. |
| Sessions.SealedAsOne | pkg/session/session.go:238-250 | Under one key a frame says one thing. |
| Sessions.Session.constructor | pkg/session/session.go:216-218 | A new session sends and receives with the two cipher states it was given and has accepted nothing. |
| Sessions.Session.Encrypt | pkg/session/session.go:222-235 | Carries out the sealing step on the object's fields, and touches only the sending cipher. |
| Sessions.Session.Decrypt | pkg/session/session.go:238-258 | Carries out the opening step on the object's fields, error by error, with the receive nonce overwritten even by a frame that fails. |
| SessionRuns.FilterFollowsCounters | pkg/session/session.go:252-256 | On genuine frames, the session's filter is the replay filter run on their counters. |
| SessionRuns.BoundedReorderingDeliversAll | pkg/session/session.go:238-258 | In any bounded order all frames come out, each once, with the plaintexts the sender put in. |
| SessionRuns.SameFramesSameTexts | pkg/session/session.go:238-258 | Any two orders of the same frames carry the same multiset of plaintexts. |
| SessionRuns.OrderDoesNotMatter | pkg/session/replay.go:49-75 | Any two bounded orders of the same frames deliver the same multiset of plaintexts. |
| Channels.ChannelDecryptedExactly | pkg/session/channel.go:49-69 | For every authentic cipher: a frame sealed for the current session comes out exactly when its counter is fresh there; any other exactly when the previous session is honoured, sealed it, and finds its counter fresh. |
| Channels.ChannelRefusedExactly | pkg/session/channel.go:56-68 | Which error a refusal is: the current session's, whatever the previous one says. |
| Channels.GraceIsHonoured | pkg/session/channel.go:29-34 | After a rotation the old session opens what it sealed strictly until its grace has passed: thirty seconds, unless the channel was made with a positive one. |
| Channels.DelivererExactly | pkg/session/channel.go:49-69 | Which of the two sessions delivers a frame, if one does, in the same terms. |
| Channels.ChannelDecryptedRecords | pkg/session/channel.go:49-69 | A delivery is recorded in the filter of the session that made it, and no other filter ever changes. |
| Channels.DeliveryIsNew | pkg/session/channel.go:49-69 | What comes out was sealed for the session that delivers it, whose filter did not have its counter and now does. |
| Channels.Channel.constructor | pkg/session/channel.go:29-34 | A new channel has one session, and thirty seconds of grace if none is asked for. |
| Channels.Channel.Encrypt | pkg/session/channel.go:37-42 | Seals under the current session and leaves the previous one alone. |
| Channels.Channel.Decrypt | pkg/session/channel.go:49-69 | Carries out the opening step on the two session objects; which frames come out and which error the others get is what the lemmas above say of that step. |
| Channels.Channel.Rotate | pkg/session/channel.go:73-79 | The new session becomes current, the old current one previous until now plus the grace; the one before is gone. |
| ChannelRuns.RunRefines | pkg/session/channel.go:37-79 | After any run, the channel's keys, deadline and filters are those of an ideal channel that has only its own history. |
| ChannelRuns.ChannelRefinesIdeal | pkg/session/channel.go:49-79 | In every run of sealing, opening and rotating, an opening yields a plaintext exactly when the ideal channel delivers it, and the same session does so: the one installed last judges what it sealed, the one before, strictly before its deadline, what it sealed and the last did not, each by the counters the ideal channel delivered under that key. |
| ChannelRuns.DeliveredOnce | pkg/session/channel.go:49-79 | No session delivers a counter twice in a run, across any rotations and whatever the frames that carry it. |
| ChannelRuns.StepIgnoresNonces | pkg/session/session.go:244-247 | Outcomes never depend on what is left in the receive ciphers' nonces. |
| ChannelRuns.RefusalOnlyMovesNonces | pkg/session/channel.go:56-68 | A refused frame changes nothing but the nonces of the receive ciphers it was tried on. |
| ChannelRuns.RefusedFramesAreInvisible | pkg/session/channel.go:56-68 | Deleting any of the refused frames from any run changes no other outcome and leaves the same channel. |
| ConcurrentChannel.SessionsExtend | pkg/session/channel.go:37-79 | Whatever critical section runs next, sessions keep their keys, and nonces and filters only grow. |
| ConcurrentChannel.RunKeepsInv | pkg/session/channel.go:37-79 | Every interleaving of any number of goroutines keeps: sessions apart, references live, frames between authentication and acceptance genuine, sealings below their nonce, deliveries on record. |
| ConcurrentChannel.DeliveredAtMostOnce | pkg/session/session.go:244-256 | Under every interleaving of openings and rotations, each counter of each session is handed up at most once and only as what was sealed, although authentication and acceptance are separate critical sections. |
| ConcurrentChannel.NonceNeverReused | pkg/session/channel.go:37-42 | Under every interleaving of sealing and rotation, no key meets a nonce twice, even when a goroutine picks its session up before a rotation and seals after it. |
| ConcurrentChannel.TwoSectionsAreDecrypt | pkg/session/session.go:244-257 | Authenticating and then accepting without interruption is one Session.Decrypt. |
| ConcurrentChannel.UninterruptedIsDecrypt | pkg/session/channel.go:49-69 | The critical sections of one undisturbed opening add up to Channel.Decrypt: same channel state, same delivery. |
| ConcurrentChannel.UninterruptedIsEncrypt | pkg/session/channel.go:37-42 | The snapshot and the sealing of one undisturbed call add up to Channel.Encrypt: same channel state, same key and counter in the frame. |
| ConcurrentChannel.RotateIsRotated | pkg/session/channel.go:73-79 | The one critical section of a rotation is Channel.Rotate. |
| Handshake.Initiator.ReadMsg2 | pkg/session/session.go:145-155 | Gives a session exactly when the message answers this initiator and the pinned server signed it; a failed read leaves the initiator usable; the session sends with the first cipher state. |
| Handshake.Responder.ReadMsg1 | pkg/session/session.go:180-189 | Learns the client's static key exactly when the message is a first message for this server. |
| Handshake.Responder.WriteMsg2 | pkg/session/session.go:192-202 | Answers the message that was read, with a session whose directions are crossed. |
| Handshake.RunHandshake | pkg/session/session_test.go:10-42 | A whole handshake completes exactly when the pinned key is the server's; then the two sessions are matched and the server knows the client's key. |
| ClientSide.Client.Handshake | cmd/client/main.go:135-172 | The first handshake establishes a channel exactly when the packet that came back answers it under the pinned key; otherwise there is none. |
| ClientSide.Client.StartRehandshake | cmd/client/main.go:188-203 | A new initiator becomes the pending one, and an earlier one is forgotten; the channel is untouched. |
| ClientSide.Client.CompleteRehandshake | cmd/client/main.go:207-228 | The channel rotates, once, exactly when the message completes the pending initiator, which is then consumed; anything else changes neither channel nor pending. |
| Rekey.TrafficKeepsKeys | pkg/session/channel.go:37-69 | Sealing and opening never change which sessions a channel holds. |
| Rekey.EventKeepsInv | cmd/client/main.go:188-228 | Every event keeps: each answer answers an install, responder keys are used once, consumed initiators never come back, both channels are on what the history says. |
| Rekey.RunKeepsInv | cmd/server/main.go:197-228 | The same over every run with loss, reordering and duplication. |
| Rekey.FollowsAnEarlierInstall | cmd/client/main.go:207-228 | Whenever the client takes up a session, the server installed the matching one, with send and receive crossed, at an earlier step. |
| Rekey.EachHandshakeOnce | cmd/client/main.go:222-226 | No initiator rotates the client twice, whatever is duplicated or unsolicited, and no two sessions of the server share a key. |
| Rekey.UninterruptedIsComplete | cmd/client/main.go:207-228 | The client's three lock regions, undisturbed, are one completed rehandshake, or nothing for a reply nobody waits for. |
| Rekey.UninterruptedIsStart | cmd/client/main.go:188-203 | Making, storing and sending, undisturbed, are one started rehandshake. |
| Rekey.UninterruptedIsAnswer | cmd/server/main.go:206-228 | The server's table update and its reply, undisturbed, are one answered handshake. |
| RekeyProgress.ExchangeEndsMatched | cmd/client/main.go:188-228 | From any point of an exchange nobody disturbs, finishing it leaves the two current sessions matched. |
| RekeyProgress.UndisturbedExchangeConverges | cmd/server/main.go:206-221 | From every reachable state, after whatever was lost, left pending or removed by cleanup, one undisturbed exchange leaves both current sessions matched, by rotation or by registration; old first messages may even be replayed at the client's address until the server answers the new one. |
| RekeyProgress.PlainExchangeIsOne | cmd/client/main.go:188-228 | Such an exchange always exists: from any reachable state at rest, eight events carry it out. |
| RekeyProgress.ClientIsAlwaysHeard | cmd/client/main.go:135-228 | From the start, the first handshake included, or from any later moment at which the two are in step and at rest: while exchanges follow one another and none of their packets is lost or duplicated, a running client always sends on the server's current session, or on its previous one and then never sent on the current. |
| RekeyProgress.PlainFirstIsOrderly | cmd/client/main.go:135-172 | The bare first handshake begins such a run and leaves the two in step. |
| RekeyTraffic.ServerKeysDistinct | cmd/server/main.go:206-221 | In every reachable state the two sessions of a row have different keys. |
| RekeyTraffic.GraceIsThirtySeconds | cmd/server/main.go:206-221 | In every run a row has a usable previous session exactly when the last install at its address rotated a channel and less than thirty seconds have passed since the reading of that install. |
| RekeyTraffic.OpensExactlyLastTwo | pkg/session/channel.go:49-79 | In every run, forgeries or not: a frame comes out at an address exactly when the session installed there last sealed it; or did not, but rotated away less than thirty seconds ago from one that did; and its counter is fresh among those delivered there under that key. A second rotation ends a session. |
| RekeyTraffic.OnlySealedFramesArriveOnce | pkg/session/session.go:238-258 | While nobody forges, the server hands up for the client's address only what the client sealed, under the key it was sealed under, and no counter of a session twice, across any rekeying, removal and registration. |
| RekeyTraffic.OpensExactlyByHistory | pkg/session/channel.go:49-79 | While nobody forges, what comes out for a frame is determined by the history alone: which sessions were installed and when, what the client sealed and what was delivered. |
| RekeyTraffic.NextIsFresh | pkg/session/session.go:222-235 | While nobody forges, what the client seals next is fresh at the server, in every run: the server's filter holds only counters the client has already used. |
| RekeyTraffic.NextFrameArrives | pkg/session/channel.go:37-69 | The next frame of a client that is heard comes out as what the client put in: at any time if its session is current at the server; less than thirty seconds after the server's last install if it is the previous one and the frame is no forgery for the current. |
| RekeyTraffic.EarlierFrameArrives | pkg/session/channel.go:49-79 | A frame the client sealed earlier comes out as what it put in exactly when its counter is still fresh among those delivered, if its session is the last installed; or the one before, less than thirty seconds after the rotation, and the last one did not seal the same frame. |
| RekeyTraffic.Continuity | cmd/client/main.go:135-228 | Both together over whole runs, from the start or from any moment the two were in step: the client is heard, its next frame arrives, and so does every earlier one that still can. |
| TokenBuckets.TokenBucket.constructor | pkg/ratelimit/ratelimit.go:22-30 | A new bucket is full. |
| TokenBuckets.TokenBucket.Allow | pkg/ratelimit/ratelimit.go:33-52 | Carries out the refill-and-take step on the bucket's fields, for a clock that may go back. |
| TokenBuckets.ClockIsLatest | pkg/ratelimit/ratelimit.go:37-45 | The time a bucket goes by is the latest of its creation and the readings so far: a clock that goes back adds nothing. |
| TokenBuckets.TokensStep | pkg/ratelimit/ratelimit.go:37-50 | From one event to the next the tokens are what was left plus what accrued, capped. |
| TokenBuckets.TokensAreLeastBudget | pkg/ratelimit/ratelimit.go:33-52 | The tokens an event finds are the least of what all windows that end with it have left. |
| TokenBuckets.AdmittedIffEveryWindowHasRoom | pkg/ratelimit/ratelimit.go:33-52 | An event is admitted if and only if no window that ends with it would exceed capacity plus rate times its length, with the product written out. |
| TokenBuckets.FullAdmits | pkg/ratelimit/ratelimit.go:22-52 | The same for a new bucket of given rate and capacity. |
| TokenBuckets.EveryWindowIsBounded | pkg/ratelimit/ratelimit.go:20-52 | No window of any run admits more than capacity plus rate times its length. |
| IPLimiters.IPLimiter.constructor | pkg/ratelimit/ratelimit.go:75-86 | A new limiter tracks nobody, and can track at least one source. |
| IPLimiters.IPLimiter.EvictOldest | pkg/ratelimit/ratelimit.go:109-121 | In whatever order the table is scanned, removes exactly one entry, and none was seen before it. |
| IPLimiters.IPLimiter.Track | pkg/ratelimit/ratelimit.go:95-103 | A new source gets a full bucket; an oldest entry goes exactly if the table is full. |
| IPLimiters.IPLimiter.Ask | pkg/ratelimit/ratelimit.go:104-105 | The request is put to the source's own bucket object, and no other source's bucket changes. |
| IPLimiters.IPLimiter.Allow | pkg/ratelimit/ratelimit.go:89-106 | Carries out the whole step on the table of bucket objects, with an oldest entry as the victim if one is needed. |
| LimiterRuns.TableIsBounded | pkg/ratelimit/ratelimit.go:96-103 | In every run the table never holds more than its maximum. |
| LimiterRuns.TableIsMostRecent | pkg/ratelimit/ratelimit.go:89-121 | With readings that do not repeat, the table is at every moment exactly the most recently seen sources, as many as it can hold. |
| RecencyOrder.TopAfterPromote | pkg/ratelimit/ratelimit.go:95-104 | A source among the most recent leaves them as a set when it is seen again; any other pushes the last of them out, if there are that many. |
| SourceRuns.RememberedIffFewOthers | pkg/ratelimit/ratelimit.go:89-121 | A source is remembered if and only if it was seen and fewer others than the table holds were seen since. |
| SourceRuns.BucketIsPrivate | pkg/ratelimit/ratelimit.go:59-106 | Each request of a source that is never crowded out meets the bucket a private limiter would have. |
| SourceRuns.AnswersAsIfAlone | pkg/ratelimit/ratelimit.go:54-58 | Such a source gets, request by request, the answers of a bucket of its own fed only its own requests, whatever the others do. |
| SourceRuns.OwnAnswersCounted | pkg/ratelimit/ratelimit.go:54-58 | What the private bucket counts as admitted is what the limiter admitted of that source. |
| SourceRuns.AlwaysCovered | pkg/ratelimit/ratelimit.go:89-121 | At every point of every run, what a source has spent and has in hand is covered by one burst for each bucket it was given plus its refill. |
| SourceRuns.SourceBudget | pkg/ratelimit/ratelimit.go:89-121 | A source evicted e times is admitted at most e + 1 bursts plus rate times the time since its first bucket. |
| HandshakeGates.FirstGate | cmd/server/main.go:166-169 | The global bucket is asked about every handshake packet. |
| HandshakeGates.SecondGate | cmd/server/main.go:170-173 | The per-source limiter is asked about exactly those the global bucket let through, and decides which pass. |
| HandshakeGates.FirstGateExactly | cmd/server/main.go:118-120 | At a server that has just started, an attempt passes the first gate if and only if every window that ends with it has room under 200 plus 100 for each second. |
| HandshakeGates.SecondGateExactly | cmd/server/main.go:121-122 | It then passes the second, if its source was never crowded out by 4096 others, if and only if every window of the source's own requests has room under 10 plus 5 for each second. |
| HandshakeGates.FirstHandshakePasses | cmd/server/main.go:164-173 | The first attempt at a server that has just started passes both. |
| HandshakeGates.PassesAreBounded | cmd/server/main.go:118-123 | In any window of any run at most 200 handshakes plus 100 for each second pass both gates, however many sources try. |
| HandshakeGates.SourcePassesAreBounded | cmd/server/main.go:121-122 | Of one source at most 10 for each time its entry was given afresh, plus 5 for each second, pass both gates. |
| Packets.Packet.Marshal | pkg/transport/packet.go:33-76 | Fills a buffer with prefix, type, length, payload and padding; refuses exactly the payloads over 65279 bytes. |
| Packets.Packet.Unmarshal | pkg/transport/packet.go:79-99 | Assigns type and payload, or reports too small exactly below 11 bytes and a bad length exactly when bytes 9 and 10 claim more than there is, and says what was assigned by then. |
| Packets.LayoutParts | pkg/transport/packet.go:45-73 | For every payload Marshal accepts: the prefix is the first eight random bytes, the 16-bit length is not truncated, the parts stand where Unmarshal looks, and the padding is as many of the random bytes from the tenth on as the ninth modulo 65. |
| Packets.DatagramBounds | pkg/transport/packet.go:47-56 | A datagram is 11 to 75 bytes longer than its payload and at most 65354 bytes, so it fits the receive buffer. |
| Packets.RoundTrip | pkg/transport/packet.go:33-99 | Unmarshalling what was marshalled gives back type and payload for every choice of the random bytes. |
| Packets.NewHandshakePacket | pkg/transport/packet.go:102-107 | Type 1 around the message. |
| Packets.NewDataPacket | pkg/transport/packet.go:110-115 | Type 2 around the frame. |
| Packets.NewPingPacket | pkg/transport/packet.go:118-123 | Type 3 around the four letters of "ping". |
| EndToEnd.Deliver | pkg/session/channel.go:37-69 | A plaintext of at most 65255 bytes, sealed, packed, unpacked and opened by the matched peer, is itself if the counter is fresh and a replay if not, whatever the random bytes; a larger one is refused. |
| ServerSide.Server.constructor | cmd/server/main.go:112-123 | A new server has no clients and full gates with the source's rates; an empty allowlist admits anybody. |
| ServerSide.Server.PassGates | cmd/server/main.go:164-173 | The source's budget is asked, and spent, only if the global one had room. |
| ServerSide.Server.AnswerHandshake | cmd/server/main.go:177-228 | Answers exactly the first messages for this server from clients the allowlist admits, and then rotates the address's channel or registers it before replying. |
| ServerSide.SeatedInstalls | cmd/server/main.go:206-221 | What the server's table does with a new session is, on its channels, what the two-ended machine's table does. |
| ServerSide.Server.HandleHandshake | cmd/server/main.go:164-228 | Answers exactly what passes both gates and is answerable; a packet that is not answered leaves the table as it was. |
| ServerSide.Server.HandleData | cmd/server/main.go:230-260 | Ties the handler to the table's receiving step, in which the address's channel, held by value, takes the step `Channel.Decrypt` is proved to take: only a delivery is written and noted as seen. |
| ServerSide.DataIsWrittenExactly | cmd/server/main.go:230-260 | A known client's frame is written, as what was sealed, exactly when its current session, or its previous one before the deadline and the current one not, sealed it and finds it fresh; exactly then the client is noted as seen; no other client is touched. |
| ServerSide.Server.HandlePing | cmd/server/main.go:262-269 | Ties the handler to the table's touching step: a known client is noted as seen, and nothing else changes. |
| ServerSide.Server.CleanupClients | cmd/server/main.go:331-340 | Deleting while going through the table in any order keeps precisely the rows seen within two minutes. |
| ServerRuns.NewlyHanded | cmd/server/main.go:242-248 | A frame a row delivers was never handed up by the session that now delivers it, in whatever row, and is on record afterwards. |
| ServerRuns.EventKeepsInv | cmd/server/main.go:164-269 | Every event of the server, cleanup between two lock regions of the handler included, keeps rows apart, keys fresh, sessions authorised and every handed-up frame on record. |
| ServerRuns.RunKeepsInv | cmd/server/main.go:139-341 | The same over every run. |
| ServerRuns.WrittenAtMostOnce | cmd/server/main.go:230-260 | Across registration, rotation, removal and re-registration, for every authentic cipher: what is written is what was sealed for a session the server made, no session's counter is written twice, and so a frame that is written twice was sealed for two sessions. |
| DoubleWrites.WrittenTwiceIffSealedTwice | cmd/server/main.go:206-260 | The exact condition: some run writes a frame twice if and only if two keys with different responder ephemerals sealed it. |
| DoubleWrites.SomeFrameIsWrittenTwice | cmd/server/main.go:206-260 | Within the cipher's law such frames exist, so nothing in the server excludes them. |
| ServerRuns.OnlyAuthorisedSessions | cmd/server/main.go:190-221 | As the guard of the one step that makes sessions gives: every session in any row was made for a client whose static key is on the allowlist, or the allowlist is empty. |
| ServerExpiry.PlaceStep | cmd/server/main.go:333-338 | A client's place in the table is lost exactly by a cleanup pass that finds it last seen more than two minutes before. |
| ServerExpiry.RowLives | cmd/server/main.go:208-269 | The time noted for a row is that of the last handshake, authenticated data frame or ping that reached it, over any run. |
| ServerExpiry.KeptIffInTouch | cmd/server/main.go:208-269 | Over any run a client keeps its row if and only if no cleanup pass comes more than two minutes after it was last heard. |
| ServerExpiry.RunForgetsNothing | cmd/server/main.go:206-260 | Over any run a row never takes an old key back and forgets no counter accepted under a key it still has. |
| ServerExpiry.KeptWithReplayState | cmd/server/main.go:208-269 | In every life of a server, a client that keeps in touch keeps its row and, under every key the row still has, everything its filters recorded. |
| ServerExpiry.RegularClientIsNeverRemoved | cmd/server/main.go:208-269 | While the clock does not go back, a client whose handshakes, authenticated frames or pings arrive at gaps of at most two minutes is never removed. |
| ServerExpiry.AlwaysUnshared | cmd/server/main.go:206-221 | No two addresses ever share a row. |
| ServerExpiry.HandshakeIsSeated | cmd/server/main.go:206-221 | The machine's handshake event does to the table what the server's method does. |
| ServerExpiry.PingIsTouched | cmd/server/main.go:262-269 | The same for a ping, from a known address or not. |
| ServerExpiry.CleanupIsCleaned | cmd/server/main.go:331-340 | The same for a cleanup pass. |
| ServerExpiry.UninterruptedIsReceived | cmd/server/main.go:230-260 | The handler's lock regions for one data frame, undisturbed, have exactly the effect of the server's method on table and tunnel. |

## Left out

- The Noise library, curve25519 and key generation: a handshake message is what it authenticates, a cipher is its law. That the real cipher is authentic only up to negligible odds is not captured.
- Floating point: buckets count in reals, so the rounding of the source's float64 is not captured.
- Server.clients: the class holds its rows by value, so neither the channel objects behind them nor the sharing of a row between goroutines is seen there; `Channels.Channel` has the objects and `ServerRuns` has rows by reference.
- Packet.payload: a byte string value; the aliasing of Go slices is not captured.
- ServerRuns: whether a handshake passed the gates is a given of each event; `HandshakeGates` and `ServerSide` prove which ones do.
- SourceBudget: stated for a clock that does not go back and a rate that is not negative, as the server's is; one whose readings go back could refill a new bucket for the same time twice.
- TableIsMostRecent: stated for readings that do not repeat; between equal readings Go's map order decides who is evicted.
- ClientIsAlwaysHeard: stated while exchanges do not overlap and their packets are neither lost nor duplicated; a second message that is lost leaves the client on an older session until the next exchange.
- Continuity: like it, and for frames that are no forgeries; a frame that opens under the server's current session without having been sealed there is judged by that session.
- UndisturbedExchangeConverges: a rehandshake that starts between the two lock regions of completeRehandshake (`cmd/client/main.go:208-210` and `cmd/client/main.go:222-224`) is not undisturbed: the later region can clear the newer initiator.
- Server-to-client traffic across a rekey: the server rotates before it replies, so what it seals in between can be lost; the source does not promise otherwise.
- Sockets, TUN devices, timers, signals, logging, flags, identity files and the text of the allowlist, which is a given set of keys.
- ipparse, whose output is used only in debug messages.
- The Go memory model below the level of critical sections.
