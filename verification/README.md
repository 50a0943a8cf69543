# MCGate in Dafny

MCGate is a reverse proxy for Minecraft: it accepts TCP connections, reads the handshake, answers
status pings, forwards logins to a backend while watching them, and relays UDP voice traffic. This
project models the parts of it that carry state or transform data, and proves what they keep.

`dafny verify dfyconfig.toml` checks everything.

## How the model is built

* **Networks** are finite byte sequences, after which the peer closes. How they are cut into reads is
  left open; which `select!` branch wins each turn, where a read is dropped, when a timeout fires, which
  backend is reachable and how many bytes a peer takes before a write fails are inputs, and each
  statement holds for all of them. A failed write is final and has delivered some prefix.
* **Objects that change in place** are classes (`BufferedStream`, `PingCache`, `IpBanList`,
  `ConnectionRates`, `PreLoginConnections`, `RouteRuntime`), each tied by `Valid()` to a ghost history
  (bytes handed out, put log, ban decisions, holders), and their methods say what they do to it.
* **Concurrent code** (status tasks, voice relay, global cap, traffic counters, connection tracker) is
  a state machine whose steps are single lock-protected or atomic operations; the main results speak
  about every state of every run.
* **Loops** of the original are methods with invariants, proved equal to a specification function;
  the lemmas are about that function.
* **Foreign code** is a parameter: zlib is a pair of functions with `inflate(deflate(x), |x|) == x`
  (`Compression.Lawful`; `StoredIsLawful` gives a pair that obeys it), IP address text a formatter and parser that are inverse
  (`ProxyProtocol.LawfulText`; `TextIsLawful` shows it of dotted decimals and full hex groups), the protocol number inside a status response a function of the text.

| module | what it covers |
|---|---|
| `VarInt`, `Compression`, `Handshakes` | wire primitives, compressed framing, handshake and Login Start |
| `BufferedStreams`, `LoginSniffer`, `LoginClients`, `LoginRelay` | buffered reads, the login sniffer, the client's decoder, the byte flow of a whole login |
| `HostPatterns` | the table-driven glob matcher with greedy captures |
| `PingCaches`, `StatusKeys`, `StatusPing`, `SlotCounts` | status cache, cache keys, concurrent status tasks, dial slots |
| `StatusCauses`, `StatusStores` | why each backend was asked, waited for or passed over and each answer given; what is stored |
| `VoiceRelay`, `VoiceRest`, `VoiceForwarding` | the voice session tables under packet loop, reaper and logout hook; when they agree at rest; what becomes of each datagram |
| `ConnectionRate`, `RateRuns`, `GlobalCap`, `ConnectionGuards`, `IpBans` | admission control |
| `RouteMetrics`, `ConnectionTracking` | dirty-flag persistence, bounded queue with shutdown drain |
| `ProxyProtocol`, `IpTexts` | PROXY protocol headers, parser and stream reader; a lawful textual form of addresses |
| `TextParser`, `TextColors`, `Gradients`, `TextRuns`, `TextTags`, `Json`, `TextRender`, `TextLegacy` | rich text: parse, flatten, what tags and codes mean, render |

## Where the code does not meet the plain statement

Each of these is proved with an input (or family of inputs) that shows it, and with the exact
condition, or for injected packets a sufficient one, under which the statement does hold.

* `try_parse` does not confine fields to the declared frame: the bytes of the next packet can complete
  a short frame (`UnconfinedFamily`). A received frame parses the same whatever follows it if and only
  if its fields end inside it (`ParseStableIffConfined`).
* `read_handshake` tests its size limit before it looks at what a read completed, so its outcome is
  independent of how the bytes arrive if and only if the buffered bytes already decide it or no more
  than 1024 bytes are unread (`HandshakeScheduleFreeIff`).
* `match_host` measures captures in the lower-cased name and cuts them from the original. A
  lower-casing that lengthens the name can make the slice panic (`ExpandingLowercasePanics`, exactly
  when in `PanicsIff`) or give a wrong capture (`MisplacedCapture`); the captures tile the name if and
  only if both have the same length (`TilesIff`). With per-character lower-casing the matcher is
  correct (`MatchHostCorrect`).
* `read_proxy_protocol_header` reads 16 bytes first and so takes one byte too many of the 15-byte
  `PROXY UNKNOWN` line (`UnknownIsOverread`); it takes exactly the header if and only if that has at
  least 16 bytes (`ReaderTakesHeader`).
* The comment on the connection rate speaks of up to twice the limit within a window. For windows of up
  to 600 seconds the exact bound is one less than twice (`RateLimitBound`), and it is reached
  (`RateBoundReached`; all of this is exact to the nanosecond, at 600 seconds and one). Configuration accepts longer windows, and the sweeper forgets them after 600
  seconds: they admit one more full allowance for every further 600 seconds (`LongWindowsAdmitMore`), so the bound over a window's own
  length holds if and only if it is no longer than that or the limit is zero (`WindowBoundIff`), and
  sweeps then show in the answers (`SweepInvisibleIff`). Longer windows obey the bound over 600 seconds.
* The limit does not hold for an IP that a full table does not track (`FailOpenAdmitsAll`), nor when one
  window counts 2^32 attempts (`WrapPassesTheBound`); otherwise it does.
* After an interrupted sniff an injected packet is framed without compression. A client that has switched
  does not decode it (`InterruptedInjectionFails`), exactly unless inflating its fields happens to give
  the packet (`InterruptedInjection`). After an uninterrupted sniff it is decoded when the splice stands
  at a frame boundary (`InjectionDecodes`); behind the start of a longer frame it is lost
  (`MidFrameInjectionLost`).
* A voice session closed between its insertion and its linking stays in `by_via` (`LateLinkStays`); at
  rest an entry names a closed session if and only if it was written by such a late link
  (`ClosedIffLate`). A live session's via can also be missing there (`SharedViaLosesEntry`).
* A rejected connection counts until it has undone its add, so the global cap can refuse while a slot
  is free (`SpuriousRejection`); `GrantedIff` says exactly when it grants.
* Two flushes of one traffic counter at once can leave the file behind with the dirty flag down
  (`TwoFlushersLoseAnAdd`); one at a time cannot, whatever adds and resets
  run beside it (`PersistedWhenClean`).
* A negative reset time in a metrics file is never replaced and never due, so scheduled resets stay off;
  any other is brought into the schedule (`LoadedScheduleIff`).
* The comment on `to_legacy_text` says its output renders like a minimal one. A client that reads the
  codes keeps decorations until a colour or a reset, so an uncoloured run after a decorated one is
  shown decorated (`DecorationLeaks`); the rendering is faithful if and only if no section sign is visible and every run has a colour
  or continues the uncoloured style before it (`LegacyFaithfulIff`).
* Markup is meant never to panic, but a six-byte hex colour can be cut inside a character
  (`CutColorStopsRendering`), exactly in the cases of `ParseHexPanicsIff`; ASCII text is always rendered
  (`AsciiInputRenders`).

## Model

| member | source | states |
|---|---|---|
| `VarInt.ReadVarIntLoop` | src/protocol/varint.rs:42-59 | the shift-and-or loop reads the base-128 digits up to the first byte without a continuation bit as a 32-bit two's complement number; out of bytes is Incomplete, a fifth continuation bit is TooBig |
| `VarInt.WriteVarIntLoop` | src/protocol/varint.rs:62-72 | the writing loop appends exactly the digits of the value's 32-bit word |
| `VarInt.VarIntRoundTrip` | src/protocol/varint.rs:42-72 | reading undoes writing for every i32, whatever follows, and consumes what was written |
| `VarInt.ReadVarIntStable` | src/protocol/varint.rs:42-59 | a result other than Incomplete does not change when more bytes arrive |
| `VarInt.ReadVarIntPrefix` | src/protocol/varint.rs:42-59 | every strict prefix of a readable VarInt is Incomplete |
| `VarInt.StringRoundTrip` | src/protocol/varint.rs:116-132 | a string of up to four times the limit in bytes is read back as written, whatever follows |
| `Compression.FrameBodyRoundTrip` | src/protocol/compression.rs:41-93 | under any threshold (none, below it, at or above it) the frame body of a packet decodes to its id and fields |
| `Compression.CompressedIffLarge` | src/protocol/compression.rs:41-60 | under a threshold exactly the packets that reach it are compressed and announced with their size; the others are announced with 0 and follow as they are |
| `Compression.OversizedIsRefused` | src/protocol/compression.rs:68-93 | an announced size below zero or above 2,097,151, or a compressed part longer than that, is refused before inflating |
| `Handshakes.NormalHostMeaning` | src/protocol/handshake.rs:123-134 | the normalised host is what precedes the first NUL, less all trailing dots |
| `Handshakes.HandshakeRoundTrip` | src/protocol/handshake.rs:78-145 | for every protocol, port, state and host of up to 255 bytes, parsing the encoded handshake with anything behind it gives the fields back, host normalised, and the frame itself as the raw frame |
| `Handshakes.LaidOutHandshake` | src/protocol/handshake.rs:78-145 | every packet laid out like a handshake, any id, host length and bytes behind the next state: frames of more than 512 bytes, another id and hosts of more than 255 bytes are refused, in that order; otherwise the fields are read, the port high byte first, and the whole frame is kept |
| `Handshakes.HandshakePrefixNeedsMore` | src/protocol/handshake.rs:78-145 | every strict prefix of an encoded handshake asks for more bytes |
| `Handshakes.ParseStableIffConfined` | src/protocol/handshake.rs:93-141 | a received frame parses the same whatever follows it if and only if its fields stay inside it |
| `Handshakes.UnconfinedFamily` | src/protocol/handshake.rs:93-141 | frames declaring one byte, malformed alone, that the following bytes turn into a complete handshake |
| `Handshakes.EncodedIsConfined` | src/protocol/minecraft_protocol.rs:27-36 | encoded handshakes are confined, so incremental parsing cannot change their meaning |
| `Handshakes.LoginStartRoundTrip` | src/protocol/minecraft_protocol.rs:50-105 | Login Start with a name of up to 64 bytes, with or without UUID, is parsed back as encoded |
| `Handshakes.LaidOutLoginStart` | src/protocol/minecraft_protocol.rs:50-77 | every packet laid out like a Login Start: another id and names of more than 64 bytes are refused; what follows the name is the UUID if and only if it has 16 bytes |
| `BufferedStreams.NextFrameStable` | src/net/buffered_stream.rs:76-93 | a frame outcome that is settled by a prefix of the stream is the outcome of the whole stream |
| `BufferedStreams.NextFrameOfPrefixed` | src/net/buffered_stream.rs:76-93 | a length-prefixed body within the limit is the next frame, whatever follows |
| `BufferedStreams.OversizedFrame` | src/net/buffered_stream.rs:78-81 | a body longer than the limit is refused as soon as its length is read |
| `BufferedStreams.BufferedStream.FillMore` | src/net/buffered_stream.rs:45-52 | received bytes go to the end of the buffer; nothing is lost |
| `BufferedStreams.BufferedStream.ReadFrame` | src/net/buffered_stream.rs:76-93 | a read that is not dropped finishes on every finite stream, with the next frame (or the error) that the remaining stream and the limit alone determine, however the bytes arrived; a frame is taken exactly, and any other end takes nothing; a read dropped after some deliveries made them and had no frame in its buffer |
| `BufferedStreams.BufferedStream.Read` | src/net/buffered_stream.rs:96-112 | a raw read hands out the next unread bytes, buffered ones first, and none only at the end of the stream |
| `BufferedStreams.BufferedStream.ReadHandshake` | src/net/buffered_stream.rs:54-74 | for each delivery schedule the outcome is that of the specification run, and a handshake takes exactly its frame |
| `BufferedStreams.BufferedStream.WriteAll` | src/net/buffered_stream.rs:115-125 | a write succeeds exactly if the peer takes all of it; a failed one has delivered what the peer still took, and is final |
| `BufferedStreams.HandshakeScheduleFreeIff` | src/net/buffered_stream.rs:54-74 | the outcome is the same for every schedule if and only if the buffer already decides it or at most 1024 bytes are unread |
| `BufferedStreams.ByteByByteIsWhole` | src/net/buffered_stream.rs:54-74 | delivered one byte at a time, a confined stream of any length gets the outcome of the whole |
| `LoginSniffer.ThresholdsAgree` | src/net/server.rs:670-718 | after each packet of any login sequence, framed under the backend's own current threshold, the sniffer stands at the same threshold with exactly the rest unread |
| `LoginSniffer.ReactToWireId` | src/net/server.rs:695-714 | by the id on the wire, under every threshold: 1 ends with an encrypted verdict, 2 with a plaintext one, 0 gives up, 3 switches to the threshold it carries (or keeps the old one if that is unreadable), any other id goes on |
| `LoginSniffer.ReactToGarbage` | src/net/server.rs:702-714 | a frame that does not decode under the threshold in force is taken for encryption: the verdict is that threshold, encrypted |
| `LoginSniffer.OversizedEndsSniffing` | src/net/server.rs:692-697 | a frame of more than 2,097,151 bytes ends the sniffing without a verdict |
| `LoginSniffer.SnifferAgreement` | src/net/server.rs:670-718 | for every login sequence the verdict is the backend's threshold and plaintext if it ends in Login Success, encrypted if in an Encryption Request, and none if in a Login Disconnect, whatever precedes and follows |
| `LoginSniffer.SniffWithin` | src/net/server.rs:670-718 | any part of the stream that holds the sniffed frames yields the same verdict |
| `LoginClients.SnifferKnowsTheClient` | src/net/server.rs:700-712 | the threshold of a plaintext verdict is the one a client that switches at Set Compression has behind the sniffed stream, and it keeps it from then on |
| `LoginClients.InjectedPacketDecodes` | src/net/server.rs:778-833 | a packet framed for the threshold the client has reached and written after whole frames is decoded as that packet, after everything before it |
| `LoginClients.MisframedPacket` | src/protocol/compression.rs:68-93 | exactly what a client makes of a packet framed without compression, before and after it has switched |
| `LoginRelay.SniffBackendLogin` | src/net/server.rs:670-718 | for every schedule of uploads, dropped reads and timeouts: without an interruption the verdict and what is left unread are those of the backend's stream, so any login framed under the backend's own thresholds yields its threshold and encryption flag; an interruption has its cause (a timeout turn with no frame at hand, the end of the client's stream, a failed write); each earlier turn moved bytes; both directions stay spliced byte for byte throughout |
| `LoginRelay.Relay` | src/net/server.rs:736-786 | for every schedule: the backend is sent what was read from the client, the client what was read from the backend and then the packet of the pending action exactly if that ended the splice; it ends only at an end of stream, a failed write or the first turn of an action, and every earlier turn moved bytes in its own direction; the byte counts are exact |
| `LoginRelay.OpenBackend` | src/net/server.rs:628-644 | a backend that is reachable and takes them gets its PROXY header, handshake and Login Start in that order; otherwise it is not opened and got a prefix of them |
| `LoginRelay.ReadLoginStart` | src/net/server.rs:471-482 | yields the frame behind the handshake unless there is none, or the deadline dropped the read before that many deliveries could bring it |
| `LoginRelay.ServeFirst` | src/net/server.rs:507-600 | backends are tried in order; the first that opens is relayed and the others are never read from; none is served only if none opened |
| `LoginRelay.ServeBackend` | src/net/server.rs:509-569 | sniffing then relaying loses, repeats and reorders nothing in either direction; the packet injected is the one framed for the sniffed session, or for a plain one after an interruption with its cause; at a frame boundary an uninterrupted one is decoded by the client as the action's own |
| `LoginRelay.HandleLogin` | src/net/server.rs:445-615 | it ends for the reason reported (traffic limit, no Login Start, no resolution, no backend opened, relayed) and the client not relayed got that reason's kick; a deadline only cuts off a Login Start longer than what was buffered and one byte for each delivery before it; every dialled backend received a prefix of its opening followed by the client's own stream, which without rewriting is a prefix of exactly what the client sent; a relayed client received what was read of one backend and at most one injected packet |
| `LoginRelay.TransparentWhenUnmodified` | src/net/server.rs:628-644 | with no PROXY header and no host rewriting, what a backend received is a prefix of exactly what the client sent |
| `LoginRelay.OverriddenHandshake` | src/net/server.rs:638-640 | with a host override the backend parses the override as host, the client's protocol and port, and next state 2 |
| `LoginRelay.SessionIff` | src/net/server.rs:528-555 | there is a session to act on if and only if Login Start carried a UUID; it has the handshake's protocol and the verdict's threshold and encryption flag, or -1 and plaintext without a verdict |
| `LoginRelay.InjectedIff` | src/net/server.rs:802-842 | something is injected if and only if the action is a kick or a transfer, the session is not encrypted and its protocol is 774 to 776; it is then the action's packet, id 0x20 with the reason or 0x81 with host and port, framed for the session's threshold |
| `LoginRelay.TransferReads` | src/protocol/reconnect_protocol.rs:165-174 | the fields of a transfer give the host back as a string, and behind it the port, high byte first |
| `LoginRelay.InjectionDecodes` | src/net/server.rs:802-842 | every kick and transfer for a plaintext verdict and a protocol of 774 to 776 is injected, and written after whole frames that hold the sniffed part is decoded by a client that followed Set Compression as the action's packet with its literal id and fields; after a verdict of encryption nothing is injected |
| `LoginRelay.InterruptedInjection` | src/net/server.rs:528-529 | what the client makes of an injected packet after an interrupted sniff; it is the packet if and only if no Set Compression with a threshold has gone by, or inflating the packet's fields to the size its id names gives this very packet |
| `LoginRelay.InterruptedInjectionFails` | src/net/server.rs:528-529 | inputs for which it is not: behind any Set Compression, kicks whose text is not deflated data are read as a broken frame |
| `LoginRelay.MidFrameInjectionLost` | src/net/server.rs:778-833 | inputs for which a rightly framed packet is not decoded: written behind the length byte of a longer frame, it is swallowed by that frame |
| `HostPatterns.TrimDotsIs` | src/config/host_pattern.rs:24-32 | the trimmed text is the one and only text without a final dot that followed by dots alone gives the original |
| `HostPatterns.TrimDotsTrims` | src/config/host_pattern.rs:24-32 | trimming yields such a text |
| `HostPatterns.FillTable` | src/config/host_pattern.rs:44-56 | the table filled from the end tells for each pair of suffixes whether they match |
| `HostPatterns.LongestSpan` | src/config/host_pattern.rs:67-76 | the inner loop finds the longest capture after which the rest still matches |
| `HostPatterns.WalkCaptures` | src/config/host_pattern.rs:61-84 | the walk over the table cuts the greedy captures from the name as received, or stops where a slice is out of range |
| `HostPatterns.MatchHost` | src/config/host_pattern.rs:31-85 | for the name without its trailing dots the table and the walk give the greedy captures if it matches, no match otherwise or above 255 characters, and panic exactly where the specification says |
| `HostPatterns.GlobIffExplained` | src/config/host_pattern.rs:44-59 | the table's recurrence holds if and only if some filling of the wildcards gives the name |
| `HostPatterns.GreedyExplains` | src/config/host_pattern.rs:61-84 | the greedy captures number the wildcards and refill the pattern to the name |
| `HostPatterns.GreedyIsGreatest` | src/config/host_pattern.rs:61-84 | no other reading of the name has a lexicographically greater vector of capture lengths |
| `HostPatterns.MatchHostCorrect` | src/config/host_pattern.rs:31-85 | with per-character lower-casing and up to 255 characters: match if and only if the declarative relation holds; captures count, refill and are lexicographically greatest |
| `HostPatterns.CapturesAreCounted` | src/config/host_pattern.rs:22-85 | for a raw pattern and a received name, each split into a text and trailing dots: matching never panics, and matches if and only if the name has up to 255 characters and some filling of the wildcards turns the lowered pattern into the lowered name; the captures number `wildcard_count` and fill it |
| `HostPatterns.PanicsIff` | src/config/host_pattern.rs:63-84 | for any lower-casing of a name of up to 255 characters, `match_host` panics if and only if the pattern has a wildcard, matches the lower-cased name, and that name less the literals behind the last wildcard is longer than the name |
| `HostPatterns.TilesIff` | src/config/host_pattern.rs:61-84 | the captures, with one character for each literal, make up the name if and only if the pattern matches and the lower-cased name is as long as the name |
| `HostPatterns.MisplacedCapture` | src/config/host_pattern.rs:61-84 | a lengthened name that matches without a panic and yields a wrong capture |
| `HostPatterns.ExpandingLowercasePanics` | src/config/host_pattern.rs:38-84 | a one-character name whose lower-casing has two characters panics under `*` |
| `SlotCounts.AcquireKeepsExact` | src/state.rs:195-208 | taking a slot keeps every count equal to the number of holders and within the cap, and is refused exactly at the cap |
| `SlotCounts.ReleaseKeepsExact` | src/state.rs:210-218 | releasing a held slot keeps counts equal to holders, with no zero entries |
| `PingCaches.PingCache.Get` | src/net/ping_cache.rs:28-36 | returns exactly the latest put with a non-negative TTL for that key, if unexpired and not evicted |
| `PingCaches.PingCache.PutResponse` | src/net/ping_cache.rs:38-48 | a put appends to the log, clears the down marker, and leaves at most 10,000 entries |
| `PingCaches.PingCache.IsKnownDown` | src/net/ping_cache.rs:51-59 | true exactly when the key's last event is a failure not yet expired |
| `PingCaches.PingCache.MarkKeyDown` | src/net/ping_cache.rs:61-63 | the failure is logged and marks the key until its expiry |
| `PingCaches.PingCache.Sweep` | src/net/ping_cache.rs:65-69 | no later lookup or down check can tell that it ran |
| `PingCaches.EvictOverflow` | src/net/ping_cache.rs:78-89 | an overflowing map keeps 9,000 entries, and no survivor expires before a victim |
| `PingCaches.DroppingExpiredIsInvisible` | src/net/ping_cache.rs:28-69 | removing expired entries, lazily or in a sweep, changes no answer at any later time |
| `PingCaches.PutShows` | src/net/ping_cache.rs:38-48 | a put with a non-negative TTL is what is shown until it expires; a negative one leaves the older entry showing |
| `StatusKeys.StatusKeyInjective` | src/net/server.rs:362-364 | equal response keys have equal backend, case-folded host and protocol, even for hosts containing a bar |
| `StatusKeys.StatusKeyIff` | src/net/server.rs:362-364 | two pings share a response key if and only if they have the same backend, the same protocol and hosts that differ at most in the case of letters |
| `StatusKeys.StatusKeyIsNoBackendKey` | src/net/server.rs:267-268 | no response key is a bare `ip:port` key |
| `StatusKeys.BackendKeyInjective` | src/net/server.rs:267 | different backends have different bare keys |
| `StatusPing.RouteRuntime.TryBeginStatusDial` | src/state.rs:195-208 | grants a dial slot exactly below the cap and counts it; a refusal changes nothing |
| `StatusPing.RouteRuntime.EndStatusDial` | src/state.rs:210-218 | gives one slot back and drops empty entries |
| `StatusPing.NextKeepsInv` | src/net/server.rs:259-318 | every step of every status task keeps cached responses sourced, answers legitimate and slots exact |
| `StatusPing.AnswersAreLegitimate` | src/net/server.rs:259-351 | in every interleaving, an answer to a host and protocol was fetched from the very backend the task was asking, for that protocol and that host up to the case of letters, or is that backend's last-known response whose own version is the client's |
| `StatusPing.DialSlotsBalance` | src/net/server.rs:277-351 | in every interleaving, a backend's in-flight count is the number of tasks dialling it, at most 8, with no zero entries, slots won in the wait loop included |
| `StatusCauses.PassedOverForCause` | src/net/server.rs:259-318 | in every run, for each backend a task has left behind there was a moment at which its last event was a failure at most five seconds old, or the task's own fetch from it had failed, or the task had been refused a slot |
| `StatusCauses.RefusedWhenFull` | src/net/server.rs:277-297 | in every run, a task was refused a slot only at a moment when eight tasks of its route were dialling that backend |
| `StatusCauses.FinishedPassedAll` | src/net/server.rs:311-318 | a task that ends without an answer has passed over every one of its backends for such a cause |
| `StatusCauses.AskedForCause` | src/net/server.rs:267-277 | in every run, a task that goes on to a backend found no unexpired response cached for its key, and one that goes on to dial it found its last event to be no failure of the last five seconds |
| `StatusCauses.WaitedForCause` | src/net/server.rs:277-299 | in every run, a task waits for a slot only after it found no unexpired last-known response with its own version |
| `StatusCauses.AnsweredForCause` | src/net/server.rs:269-310 | in every run, an answer was cached and unexpired under the task's key when it was taken, or was such a last-known response with its version, or is what the task's own fetch gave |
| `StatusStores.FetchedIsStored` | src/net/server.rs:303-310 | in every run, a task that dialled its backend and was answered had stored that answer for its route's TTL, under its own key and as last known |
| `VoiceRelay.StepKeepsInv` | src/udp/voice_relay.rs:137-324 | each step of packet loop, reaper and logout hook keeps the tables consistent |
| `VoiceRelay.TablesAgree` | src/udp/voice_relay.rs:137-403 | in every interleaving: a `by_via` entry names a session with that via; sessions stay within the global cap; per-IP counts are the live, creating and closing sessions and within the cap; no session closes twice |
| `VoiceRelay.DeliveriesFollowVia` | src/udp/voice_relay.rs:147-196 | every datagram forwarded, header-less ones included, went through a session whose via was its source at that moment (that the session was not dead is checked in the same step) |
| `VoiceForwarding.DatagramReachesItsSession` | src/udp/voice_relay.rs:147-280 | in every run, once a datagram is handled it has been passed on at most once, and only to a session of its client; if its client (without a header: its source) then has a live session, old or new, exactly once and to that one |
| `VoiceForwarding.DatagramLinksItsSource` | src/udp/voice_relay.rs:260-295 | in every run, once a datagram with a header is handled and its client has a live session, `by_via` names that session under the datagram's source, unless that had been its via before |
| `VoiceForwarding.SessionRefusedIff` | src/udp/voice_relay.rs:297-324 | in every run, a new session is refused for its IP if and only if there is a per-IP cap and the IP has that many live, creating and closing sessions |
| `VoiceRest.ClosedIffLate` | src/udp/voice_relay.rs:260-295 | in every run, at rest, a `by_via` entry names a closed session if and only if the last step that wrote it linked the session behind its unlinking; otherwise it names a live session with that via |
| `VoiceRest.TablesAgreeAtRest` | src/udp/voice_relay.rs:260-295 | in runs without such late links, at rest every `by_via` entry is of a live session with that via |
| `VoiceRest.LateLinkStays` | src/udp/voice_relay.rs:271-275 | a run in which logout closes a session between insertion and linking, and `by_via` names the closed session at rest |
| `VoiceRest.SharedViaLosesEntry` | src/udp/voice_relay.rs:282-295 | a run in which two clients share a via, one moves to another, and the entry the other still uses is gone |
| `ConnectionRate.ConnectionRates.TryAcquire` | src/net/flood_control.rs:97-111 | the window rolls over, counts and answers as specified; a full table lets new IPs through |
| `ConnectionRate.ConnectionRates.Sweep` | src/net/flood_control.rs:113-117 | keeps exactly the windows not older than ten minutes |
| `ConnectionRate.AnswersAreOnesOwn` | src/net/flood_control.rs:95-117 | as long as no attempt of an IP meets a table full of others, what it is answered depends on its own attempts and the sweeps alone, for every window |
| `ConnectionRate.SweepIsInvisible` | src/net/flood_control.rs:113-117 | for windows of up to 600 seconds, sweeps at any moments change no answer to an IP that is tracked with them and without |
| `ConnectionRate.RateLimitBound` | src/net/flood_control.rs:77-117 | in every run in which the IP is tracked and no window counts 2^32 of its attempts, for every limit and window: every half-open interval as long as the window, or 600 seconds if that is shorter, admits at most 2*max - 1 connections of the IP (max if it is one instant) |
| `RateRuns.RateBoundReached` | src/net/flood_control.rs:77-117 | for every limit and window there is such a run that reaches that bound |
| `RateRuns.WindowBoundIff` | src/net/flood_control.rs:77-117 | over intervals of a window's own length the bound holds of all such runs if and only if the window is at most 600 seconds and a nanosecond or the limit is zero |
| `RateRuns.LongWindowsAdmitMore` | src/net/flood_control.rs:113-117 | a window longer than n - 1 times 600 seconds admits n full allowances within its own length, since the sweeper forgets it meanwhile |
| `RateRuns.SweepInvisibleIff` | src/net/flood_control.rs:113-117 | sweeps never change an answer to a tracked IP if and only if the window is at most 600 seconds and a nanosecond or the limit is the largest 32-bit number |
| `RateRuns.FailOpenAdmitsAll` | src/net/flood_control.rs:97-101 | once 250,000 other IPs are tracked, an untracked one is admitted as often as it tries, whatever the limit |
| `RateRuns.WrapPassesTheBound` | src/net/flood_control.rs:109-110 | a window that counts 2^32 attempts wraps its counter and admits 2*max + 1 |
| `GlobalCap.CapHolds` | src/net/flood_control.rs:24-70 | in every interleaving of add, undo and release, the counter is guards held plus rejections pending, and held never exceeds the cap |
| `GlobalCap.RejectionLeavesNothing` | src/net/flood_control.rs:24-32 | a run without its rejected adds and their undos is a run with the same guards held after every remaining step, and its counter is exactly the guards held |
| `GlobalCap.GrantedIff` | src/net/flood_control.rs:24-32 | an attempt is granted if and only if guards and pending rejections together are below the cap |
| `GlobalCap.SpuriousRejection` | src/net/flood_control.rs:24-32 | a run in which an attempt is refused while no guard is held |
| `ConnectionGuards.PreLoginConnections.NewGuard` | src/net/connection_guard.rs:74-84 | refused exactly when a cap is set and that IP already has that many unreleased guards; counts stay equal to unreleased guards |
| `ConnectionGuards.PreLoginConnections.ReleaseGuard` | src/net/connection_guard.rs:89-107 | the first release gives the slot back, later ones do nothing |
| `ConnectionGuards.PreLoginConnections.TryAcquire` | src/net/connection_guard.rs:28-41 | the count map after taking a slot, or unchanged at the cap |
| `ConnectionGuards.PreLoginConnections.ReleaseSlot` | src/net/connection_guard.rs:43-52 | the count map after giving a slot back |
| `IpBans.IpBanList.IsBanned` | src/net/ip_ban.rs:48-59 | true exactly when the latest ban or trigger not followed by an unban expires after now, whatever was removed lazily or swept; an entry with an expired ban goes, all others stay |
| `IpBans.IpBanList.Ban` | src/net/ip_ban.rs:66-71 | always adds the ban to the history; the IP's count and window stay, or start now |
| `IpBans.IpBanList.RecordViolation` | src/net/ip_ban.rs:76-97 | triggers only if the IP's last `max_violations` recorded violations lie within less than one window; the history gains a ban exactly then |
| `IpBans.IpBanList.Unban` | src/net/ip_ban.rs:120-126 | tells whether the IP was under a ban, lifts it and forgets the entry |
| `IpBans.IpBanList.Sweep` | src/net/ip_ban.rs:128-135 | an entry stays if and only if its ban is active or its window began less than 3600 seconds ago, so no ban answer changes |
| `IpBans.ViolateTracks` | src/net/ip_ban.rs:76-97 | one violation keeps the entry consistent with ban expiry and violation times, and a trigger means enough recent violations |
| `IpBans.TriggersAtTheLimit` | src/net/ip_ban.rs:76-97 | whatever is on file for an IP (nothing, an open window, one that is over, a ban before), of violations within one window, those still counted included, exactly the one that reaches the limit triggers; it starts a fresh count, and any other adds one and leaves the ban on file alone |
| `IpBans.FullCountAfterBan` | src/net/ip_ban.rs:87-94 | after a trigger, the next one within a window takes the full number of violations again |
| `RouteMetrics.StepKeepsInv` | src/state/route_metrics_store.rs:47-59 | every atomic step of adders, resets at any time and one flusher keeps unpersisted totals announced |
| `RouteMetrics.PersistedWhenClean` | src/state/route_metrics_store.rs:189-223 | in every run with one flush at a time, and adds and resets at any moment, when nothing is under way and the flag is down, the file holds the counters |
| `RouteMetrics.TotalsAreSums` | src/state/route_metrics_store.rs:47-59 | in every run, each counter is the sum of the positive amounts added in its direction while enabled since its latest reset, on top of the loaded total if there was none |
| `RouteMetrics.AlwaysStarted` | src/state/route_metrics_store.rs:178-187 | at every moment there is such a latest reset, or the beginning |
| `RouteMetrics.FlushWrites` | src/state/route_metrics_store.rs:189-223 | a flush, forced or with the flag up, puts both counters on file and takes the flag down |
| `RouteMetrics.FailedFlushKeepsFlag` | src/state/route_metrics_store.rs:212-222 | one whose write fails ends with the flag up and changes nothing else |
| `RouteMetrics.ResetZeroes` | src/state/route_metrics_store.rs:178-187 | a reset brings both counters to zero and raises the flag |
| `RouteMetrics.TwoFlushersLoseAnAdd` | src/state/route_metrics_store.rs:157-162 | two flushes at once have a run that ends at rest, flag down, with the file behind |
| `RouteMetrics.TickIsNextBoundary` | src/state/route_metrics_store.rs:244-259 | a due reset moves to the one instant in (now, now + interval] congruent to the old one |
| `RouteMetrics.TicksKeepAnchor` | src/state/route_metrics_store.rs:244-259 | any number of ticks, late or early, keeps the schedule's anchor and never moves it back |
| `RouteMetrics.ScheduleStaysNear` | src/state/route_metrics_store.rs:141-187 | through any order of reloads, each with its own interval, ticks and manual resets, the next reset is at most the interval in force away, there is none without an interval, and right after a tick or reset it lies in the future |
| `RouteMetrics.ReloadMovesUpIff` | src/state/route_metrics_store.rs:141-147 | a reload moves the reset up, to one new interval from now, if and only if it was further away than that |
| `RouteMetrics.LoadedScheduleIff` | src/state/route_metrics_store.rs:141-151 | a loaded reset time is brought within one interval if and only if it is not negative; a negative one is kept for good |
| `ConnectionTracking.OfferedIsAcceptedOrDropped` | src/state/connection_tracker.rs:77-88 | in every run, records offered while enabled divide in order into those taken and those counted as dropped, and the taken ones are, in order, the writes so far, the batch at hand and the queue |
| `ConnectionTracking.TakenIffRoom` | src/state/connection_tracker.rs:77-88 | in every run, an offered record was taken if and only if the queue was below its capacity (at least 1) at that moment, and dropped when it was at it |
| `ConnectionTracking.WritesAreBounded` | src/state/connection_tracker.rs:186-234 | in every run, no write but the one at shutdown is empty or larger than the batch size (at least 1) |
| `ConnectionTracking.StoppedWithNothingLeft` | src/state/connection_tracker.rs:140-234 | in every run, when the writer has ended the accepted records are the records of its writes in acceptance order, and the rows are the same less the writes that failed |
| `ProxyProtocol.FindCrlf` | src/protocol/proxy_protocol_datagram.rs:87-97 | the scan finds the first line end complete within 108 bytes, or none |
| `ProxyProtocol.ReadExactMore` | src/protocol/proxy_protocol_tcp.rs:16-30 | grows the buffer to the target with the next bytes of the stream, however they arrive, or to the end of the stream |
| `ProxyProtocol.ReadLine` | src/protocol/proxy_protocol_tcp.rs:43-52 | reads byte by byte up to the line end or the limit |
| `ProxyProtocol.ReadProxyHeader` | src/protocol/proxy_protocol_tcp.rs:32-59 | for every chunking, outcome and bytes taken are functions of the stream |
| `ProxyProtocol.ReaderTakesHeader` | src/protocol/proxy_protocol_tcp.rs:32-59 | on every stream that starts with an accepted header, the reader returns the parser's address and takes exactly the header if and only if that has at least 16 bytes, as every v2 header has; of a shorter one it takes 16 bytes, and a stream of fewer bytes it finds closed |
| `ProxyProtocol.UnknownIsOverread` | src/protocol/proxy_protocol_tcp.rs:34-57 | the 15-byte `PROXY UNKNOWN` line costs one byte of what follows |
| `ProxyProtocol.HeaderRoundTrip` | src/protocol/minecraft_protocol.rs:14-24 | an encoded header parses back to the source address and its full length, whatever follows |
| `ProxyProtocol.EncodedLineParses` | src/protocol/proxy_protocol_datagram.rs:85-113 | a version 1 line of printing characters is parsed by its fields if its line end is complete within 108 bytes, and refused otherwise |
| `ProxyProtocol.V2RoundTrip` | src/protocol/proxy_protocol_datagram.rs:53-83 | a version 2 header written for a source and a destination of either family, with any transport and further fields, parses to the source address and port and to its own length, whatever follows |
| `ProxyProtocol.V2Outcomes` | src/protocol/proxy_protocol_datagram.rs:53-83 | every version 2 header: another version is refused, LOCAL and unspecified families give no address, other families and short blocks are refused, every cut-off header is a truncation |
| `ProxyProtocol.PortRoundTrip` | src/protocol/proxy_protocol_datagram.rs:111-112 | every port is read back from its decimal text, and no larger number is read as a port |
| `TextParser.LegacyCodesToTags` | src/protocol/text_format.rs:72-91 | the loop turns each known code into its tag and keeps everything else |
| `TextParser.ParseNodes` | src/protocol/text_format.rs:131-183 | the recursive loop ends on every input and yields the tree and end position of the specification |
| `TextParser.TopLevelTakesAll` | src/protocol/text_format.rs:131-183 | at the top level the whole input is consumed |
| `TextParser.VisibleIsThinned` | src/protocol/text_format.rs:131-183 | the visible text is the consumed input with some characters deleted: nothing is invented or reordered |
| `TextParser.WriteParseRoundTrip` | src/protocol/text_format.rs:131-183 | every tree without empty or adjacent texts and with names and arguments that fit a tag, written with escapes and closing tags, parses back to itself |
| `TextParser.NoSectionVisible` | src/protocol/text_format.rs:72-183 | input without section signs shows none |
| `TextColors.EntryReadsBack` | src/protocol/text_format.rs:19-48 | the name and the code written for a named colour read back as that colour |
| `TextColors.HexColorReads` | src/protocol/text_format.rs:50-59 | a written hex colour reads back exactly |
| `TextColors.ParseHexPanicsIff` | src/protocol/text_format.rs:50-59 | reading a hex colour panics if and only if it is six bytes and byte 2, or after a valid first pair byte 4, lies inside a character |
| `TextColors.AsciiNeverPanics` | src/protocol/text_format.rs:50-67 | no ASCII colour string panics |
| `TextColors.CutColorPanics` | src/protocol/text_format.rs:50-59 | six-byte colour strings with a three-byte character across byte 2 panic |
| `TextColors.ColorTextReads` | src/protocol/text_format.rs:46-67 | the colour text of a JSON component, name or hex, reads back as the colour |
| `Gradients.MixMonotone` | src/protocol/text_format.rs:235-250 | along a segment each channel moves from one stop towards the other and never back |
| `Gradients.InterpolateBetween` | src/protocol/text_format.rs:235-250 | every channel of a sampled colour lies between those of two neighbouring stops |
| `Gradients.SampleEnds` | src/protocol/text_format.rs:294-295 | the first position takes the first stop and the last of at least two takes the last |
| `Gradients.SampleIsLinear` | src/protocol/text_format.rs:235-250 | each channel of a sampled colour is the point that far along between the two stops around its position, rounded to the nearest |
| `TextRuns.VisibleLenIsTextLen` | src/protocol/text_format.rs:225-233 | the visible length is the length of the visible text |
| `TextRuns.FlattenInto` | src/protocol/text_format.rs:261-282 | pushes the runs of the specification after what was there, and panics exactly when some tag's colour does |
| `TextRuns.GradientInto` | src/protocol/text_format.rs:289-315 | the same for gradients; the position ends where the characters outside nested gradients do, never past the total |
| `TextRuns.GradientShape` | src/protocol/text_format.rs:289-315 | split to characters and with colours erased, a gradient's runs are what the tags alone say |
| `TextRuns.FlattenShape` | src/protocol/text_format.rs:261-282 | the same for `flatten`, so the two agree on text and decorations |
| `TextRuns.GradientColors` | src/protocol/text_format.rs:289-315 | the characters outside nested gradients take the colours of consecutive positions, whatever stands between them |
| `TextTags.KindsAre` | src/protocol/text_format.rs:196-205 | which of the written names and aliases set bold, italic, underlined, strikethrough, obfuscated, reset or take a colour argument, each name literally and no other |
| `TextTags.TagMeans` | src/protocol/text_format.rs:195-218 | a tag turns on exactly the decoration its lower-cased name stands for, or sets the colour of its argument, `#rrggbb` or colour name, or resets all; any other name leaves the style alone |
| `TextTags.ColorNames` | src/protocol/text_format.rs:19-40 | the sixteen colour names and their colours |
| `TextTags.StyleUnderMeans` | src/protocol/text_format.rs:195-218 | under nested tags a decoration is on if and only if some tag since the last reset sets it, and the colour is that of the innermost one since then that has a colour |
| `TextTags.TextMeans` | src/protocol/text_format.rs:261-325 | each visible character of any tree has the decorations its enclosing tags give it, and outside gradients their colour |
| `TextTags.TaggedRun` | src/protocol/text_format.rs:261-325 | a tag around a text is the one run of that text in the tag's style |
| `TextTags.WrittenTagRun` | src/protocol/text_format.rs:127-325 | the same for the tag and text as they are written, with escapes and closing tag |
| `TextTags.StrayClosing` | src/protocol/text_format.rs:131-183 | a closing tag that closes nothing is shown as text |
| `TextTags.UnclosedTag` | src/protocol/text_format.rs:131-183 | everything behind an opening tag that is never closed is inside it |
| `TextTags.CodeMeans` | src/protocol/text_format.rs:93-119 | each code letter, in either case, stands for its literal colour or decoration; any other is no code |
| `TextTags.CodedText` | src/protocol/text_format.rs:72-119 | an ampersand and a code letter before a text give the one run of that text in the code's literal style |
| `TextTags.StopsMean` | src/protocol/text_format.rs:252-259 | of arguments that are all colours the stops are those in order, and of arguments none of which is one, white alone |
| `TextTags.StopsPassOver` | src/protocol/text_format.rs:252-259 | an argument that is no colour makes no difference to the stops, wherever it stands |
| `TextTags.GradientEnds` | src/protocol/text_format.rs:252-315 | a gradient over a text goes from its first argument's colour to its last one's |
| `Json.EscapeLoop` | src/protocol/text_format.rs:329-345 | the loop escapes every character as specified |
| `Json.EscapeRoundTrip` | src/protocol/text_format.rs:329-345 | any text, escaped, is read back by a string reader after section 7 of RFC 8259 |
| `Json.RenderRoundTrip` | src/protocol/text_format.rs:347-400 | reading undoes rendering for every value of the component slice of JSON |
| `TextRender.ParseRuns` | src/protocol/text_format.rs:317-325 | the runs of the flattened tree, or none exactly when a colour panics |
| `TextRender.RunToJson` | src/protocol/text_format.rs:347-379 | the string built piece by piece is the rendering of the run's component |
| `TextRender.ToJsonComponent` | src/protocol/text_format.rs:383-400 | the string is the rendering of the component of all runs; none exactly when a colour panics |
| `TextRender.JsonKeepsTextAndStyle` | src/protocol/text_format.rs:347-400 | the output is well formed, and reading it gives every run back: text, exact colour, decorations; the texts join to the visible text |
| `TextRender.AsciiInputRenders` | src/protocol/text_format.rs:127-131 | an ASCII text is always rendered, whatever its markup |
| `TextRender.CutColorStopsRendering` | src/protocol/text_format.rs:50-59 | a text with one colour tag whose argument is cut inside a character panics |
| `TextLegacy.WriteStyle` | src/protocol/text_format.rs:402-441 | appends the colour and decoration codes of a style |
| `TextLegacy.CodeIsWritten` | src/protocol/text_format.rs:402-441 | each of the sixteen colours and five decorations is written as a section sign and the very letter that stands for it behind an ampersand |
| `TextLegacy.ToLegacyText` | src/protocol/text_format.rs:453-464 | the codes and text of every run in order; none exactly when a colour panics |
| `TextLegacy.StyleShown` | src/protocol/text_format.rs:402-441 | a client that reads a run's codes has its style in force, on top of the earlier one unless the run has a colour |
| `TextLegacy.StrippedLegacyIsVisible` | src/protocol/text_format.rs:443-464 | the output stripped of codes is the visible text, the same the JSON carries, if and only if no section sign is visible, as none is for input without section signs |
| `TextLegacy.LegacyFaithfulIff` | src/protocol/text_format.rs:449-464 | a client shows every character in its run's style if and only if no section sign is visible and each run has a colour or keeps the decorations of an uncoloured run before it |
| `TextLegacy.DecorationLeaks` | src/protocol/text_format.rs:449-464 | texts with a bold part followed by a plain one, which a client shows bold throughout |

## Left out

- Sockets, tokio scheduling, timeouts and clocks: they appear as open choices, chunked byte sequences and a time argument that does not go back.
- Weak memory ordering: the relaxed atomics of counters and flags are sequentially consistent steps.
- UTF-8: names, hosts and strings on the wire stay bytes, so lossy decoding of invalid UTF-8 is not modelled; a version 1 PROXY line is read byte by character.
- Unicode lower-casing of host names is a parameter.
- Gradients.MixMonotone: over exact reals; rounding differences of 64-bit floats are not modelled.
- Gradients.InterpolateBetween: over exact reals, as above.
- Gradients.SampleEnds: over exact reals, as above.
- Gradients.SampleIsLinear: over exact reals, as above.
- TextRender.ParseRuns: tag names are lower-cased over ASCII only, so a name outside ASCII whose full lower-casing is a tag or colour name, or changes its size in bytes, is not modelled.
- TextTags.TagMeans: the same lower-casing over ASCII.
- StatusKeys.StatusKeyIff: hosts are lower-cased over ASCII only.
- ConnectionRate.RateLimitBound: limit and window are fixed during a run.
- LoginClients.InjectedPacketDecodes: that the splice stands at a frame boundary when the packet is written is a premise, because the raw splice does not establish it.
- LoginRelay.InjectionDecodes: the same premise; packet identifiers are those of the supported protocol numbers and the NBT text of a kick is given as bytes.
- LoginRelay.SniffBackendLogin: a peer that stops sending without closing appears as a timeout or as turns in which its branch does not win.
- LoginSniffer.SnifferAgreement: frames are within the packet limit, since longer ones make the reader fail.
- VoiceRelay.TablesAgree: session caps are fixed during a run and there is one packet loop; the per-IP count is claimed for a positive cap, since acquiring skips counting at other caps and releasing does not.
- VoiceRelay.DeliveriesFollowVia: looking at the dead flag and sending are one step; backend-to-client replies are not modelled.
- VoiceForwarding.DatagramReachesItsSession: that the packet loop becomes idle again is a premise, since opening a socket or sending may take any time.
- RouteMetrics.PersistedWhenClean: totals only; limits and the stored reset time are not part of the persisted record here, and counters do not overflow 64 bits.
- ConnectionTracking.StoppedWithNothingLeft: pruning and SQLite are not modelled; a transaction commits its whole batch or none of it.
- Json.RenderRoundTrip: covers strings, `true`, objects and arrays without white space, and no surrogate pairs, which is what the renderer emits.
- TextLegacy.LegacyFaithfulIff: the client's reading of codes (a colour ends decorations, `r` resets, an `x` code takes six digits) is a definition here, not code of the repository.
- `order_backends`, the priority sort of routes and `substitute_params`: short pure functions that would only add easy members.
- Status fetching, ping and pong packets, DNS, voice routing, the plain UDP proxy, the HTTP interface, the console, logging, configuration loading and the launcher.
