/**
 * The login byte flow of `src/net/server.rs`: dialling a backend, sniffing its login, splicing
 * both directions and injecting at most one packet. What the runtime decides is an input: which
 * `select!` branch wins each turn, where a read is dropped, when a timeout fires, which backend
 * can be reached and how much a peer takes before a write to it fails. How reads are cut up is
 * left open.
 */
module LoginRelay {
  import opened Bytes
  import opened VarInt
  import opened Compression
  import opened Handshakes
  import opened BufferedStreams
  import opened LoginSniffer
  import opened LoginClients

  // ----- one direction of a splice -----

  /**
   * Since the time `taken0` had been read at one end and `sent0` written at the other, exactly
   * the bytes read have been written, in order; after a failed write, only a prefix of them.
   */
  ghost predicate Piped(taken: seq<byte>, taken0: seq<byte>, sent: seq<byte>, sent0: seq<byte>, failed: bool) {
    && taken0 <= taken && sent0 <= sent
    && var flow := sent0 + taken[|taken0|..];
       if failed then sent <= flow else sent == flow
  }

  lemma PipedOn(taken: seq<byte>, taken0: seq<byte>, data: seq<byte>,
                sent: seq<byte>, sent0: seq<byte>, failed: bool, sent': seq<byte>, failed': bool)
    requires Piped(taken, taken0, sent, sent0, failed)
    requires !failed' ==> !failed && sent' == sent + data
    requires failed' ==> sent <= sent' <= sent + data
    requires failed ==> sent' == sent
    ensures Piped(taken + data, taken0, sent', sent0, failed')
  {
  }

  lemma PipedFromHere(taken: seq<byte>, sent: seq<byte>)
    ensures Piped(taken, taken, sent, sent, false)
  {
  }

  /** Where both ends stood when their splice began. */
  datatype Baseline = Baseline(clientTaken: seq<byte>, clientSent: seq<byte>, backendTaken: seq<byte>, backendSent: seq<byte>)

  ghost predicate UploadPiped(client: BufferedStream, backend: BufferedStream, base: Baseline)
    reads client, backend
  {
    Piped(client.taken, base.clientTaken, backend.sent, base.backendSent, backend.writeFailed)
  }

  ghost predicate DownloadPiped(client: BufferedStream, backend: BufferedStream, base: Baseline)
    reads client, backend
  {
    Piped(backend.taken, base.backendTaken, client.sent, base.clientSent, client.writeFailed)
  }

  ghost predicate Spliced(client: BufferedStream, backend: BufferedStream, base: Baseline)
    reads client, backend
  {
    && client != backend && client.Valid() && backend.Valid()
    && UploadPiped(client, backend, base) && DownloadPiped(client, backend, base)
  }

  /** Writes to the backend what has just been read from the client. */
  method ForwardUp(client: BufferedStream, backend: BufferedStream, data: seq<byte>, ghost before: seq<byte>, ghost base: Baseline)
    returns (ok: bool)
    requires client != backend && client.Valid() && backend.Valid() && client.taken == before + data
    requires Piped(before, base.clientTaken, backend.sent, base.backendSent, backend.writeFailed)
    requires DownloadPiped(client, backend, base)
    modifies backend`sent, backend`writeFailed
    ensures Spliced(client, backend, base) && (!ok ==> backend.writeFailed) && (old(backend.writeFailed) ==> backend.writeFailed)
  {
    ghost var sent, failed := backend.sent, backend.writeFailed;
    ok := backend.WriteAll(data);
    PipedOn(before, base.clientTaken, data, sent, base.backendSent, failed, backend.sent, backend.writeFailed);
  }

  /** Writes to the client what has just been read from the backend. */
  method ForwardDown(client: BufferedStream, backend: BufferedStream, data: seq<byte>, ghost before: seq<byte>, ghost base: Baseline)
    returns (ok: bool)
    requires client != backend && client.Valid() && backend.Valid() && backend.taken == before + data
    requires Piped(before, base.backendTaken, client.sent, base.clientSent, client.writeFailed)
    requires UploadPiped(client, backend, base)
    modifies client`sent, client`writeFailed
    ensures Spliced(client, backend, base) && (!ok ==> client.writeFailed) && (old(client.writeFailed) ==> client.writeFailed)
  {
    ghost var sent, failed := client.sent, client.writeFailed;
    ok := client.WriteAll(data);
    PipedOn(before, base.backendTaken, data, sent, base.clientSent, failed, client.sent, client.writeFailed);
  }

  /** One won upload branch: read from the client, write to the backend. */
  method PumpUp(client: BufferedStream, backend: BufferedStream, capacity: nat, ghost base: Baseline) returns (n: nat, ok: bool)
    requires Spliced(client, backend, base) && capacity > 0
    modifies client`taken, client`buf, client`pos, client`incoming, backend`sent, backend`writeFailed
    ensures Spliced(client, backend, base)
    ensures |client.taken| == |old(client.taken)| + n && |client.Remaining()| == |old(client.Remaining())| - n
    ensures ok ==> n > 0
    ensures !ok ==> (n == 0 && client.Remaining() == []) || backend.writeFailed
    ensures old(backend.writeFailed) ==> backend.writeFailed
  {
    hide Piped;
    ghost var before := client.taken;
    var data := client.Read(capacity);
    n, ok := |data|, false;
    if data == [] {
      assert before + [] == before;
    } else {
      ok := ForwardUp(client, backend, data, before, base);
    }
  }

  /** One won download branch: read from the backend, write to the client. */
  method PumpDown(client: BufferedStream, backend: BufferedStream, capacity: nat, ghost base: Baseline) returns (n: nat, ok: bool)
    requires Spliced(client, backend, base) && capacity > 0
    modifies backend`taken, backend`buf, backend`pos, backend`incoming, client`sent, client`writeFailed
    ensures Spliced(client, backend, base)
    ensures |backend.taken| == |old(backend.taken)| + n && |backend.Remaining()| == |old(backend.Remaining())| - n
    ensures ok ==> n > 0
    ensures !ok ==> (n == 0 && backend.Remaining() == []) || client.writeFailed
    ensures old(client.writeFailed) ==> client.writeFailed
  {
    hide Piped;
    ghost var before := backend.taken;
    var data := backend.Read(capacity);
    n, ok := |data|, false;
    if data == [] {
      assert before + [] == before;
    } else {
      ok := ForwardDown(client, backend, data, before, base);
    }
  }

  // ----- sniffing -----

  /** Which branch wins a turn of `sniff_backend_login`. */
  datatype Turn =
    | Upload(waits: Option<nat>)   // the client's read; the backend's was dropped after that many deliveries, if started
    | FrameArrives                 // the backend's read
    | TimeOut(after: nat)          // the backend's read has waited too long, after that many deliveries

  datatype Interruption = TimedOut | ClientLeft | BackendRefused | ClientRefused

  /** An interruption has its cause: the schedule, the end of the client's stream, or a failed write. */
  ghost predicate Caused(why: Interruption, client: BufferedStream, backend: BufferedStream, turn: Turn)
    reads client, backend
    requires client.pos <= |client.buf| && backend.pos <= |backend.buf|
  {
    match why
    case TimedOut => turn.TimeOut? && NextFrame(backend.buf[backend.pos..], MAX_PACKET_BYTES) == FrameEof
    case ClientLeft => turn.Upload? && client.Remaining() == []
    case BackendRefused => backend.writeFailed
    case ClientRefused => client.writeFailed
  }

  /** The backend's branch of one turn: dropped where the turn says, run to its end if it wins. */
  method PollBackend(backend: BufferedStream, turn: Turn) returns (poll: FramePoll)
    requires backend.Valid()
    modifies backend`taken, backend`buf, backend`pos, backend`incoming
    ensures poll.Ready? ==> poll.outcome == NextFrame(old(backend.Remaining()), MAX_PACKET_BYTES)
    ensures backend.Advanced(old(backend.taken), old(backend.Remaining()),
                             if poll.Ready? && poll.outcome.FrameOk? then |poll.outcome.frame| else 0)
    ensures poll.Abandoned? ==> !turn.FrameArrives?
    ensures poll.Abandoned? ==> backend.taken == old(backend.taken) && backend.Remaining() == old(backend.Remaining())
    ensures poll.Abandoned? && turn.TimeOut? ==> NextFrame(backend.buf[backend.pos..], MAX_PACKET_BYTES) == FrameEof
  {
    hide NextFrame;
    ghost var taken, rest := backend.taken, backend.Remaining();
    assert taken + rest[..0] == taken && rest[0..] == rest;
    poll := Abandoned;
    if turn.FrameArrives? {
      poll := backend.ReadFrame(MAX_PACKET_BYTES, None);
    } else if turn.TimeOut? {
      poll := backend.ReadFrame(MAX_PACKET_BYTES, Some(turn.after));
    } else if turn.waits.Some? {
      poll := backend.ReadFrame(MAX_PACKET_BYTES, turn.waits);
    }
  }

  datatype TurnResult = Went(threshold: i32) | Settled(verdict: Verdict) | Cut(why: Interruption)

  /** One turn of the loop, from the threshold known so far. */
  method SniffTurn(z: Zlib, client: BufferedStream, backend: BufferedStream, turn: Turn, threshold: i32, ghost base: Baseline)
    returns (r: TurnResult)
    requires Spliced(client, backend, base)
    modifies client, backend
    ensures Spliced(client, backend, base)
    ensures |client.taken| >= |old(client.taken)| && |backend.taken| >= |old(backend.taken)|
    ensures r.Went? ==> |client.taken| + |backend.taken| > |old(client.taken)| + |old(backend.taken)|
    ensures r.Went? ==> Sniff(z, threshold, old(backend.Remaining())) == Sniff(z, r.threshold, backend.Remaining())
    ensures r.Went? ==> SniffRest(z, threshold, old(backend.Remaining())) == SniffRest(z, r.threshold, backend.Remaining())
    ensures r.Settled? ==> Sniff(z, threshold, old(backend.Remaining())) == r.verdict
    ensures r.Settled? && r.verdict.Learned? ==> backend.Remaining() == SniffRest(z, threshold, old(backend.Remaining()))
    ensures r.Cut? ==> Caused(r.why, client, backend, turn)
  {
    hide React, NextFrame, Piped, Sniff, SniffRest;
    ghost var taken, rest := backend.taken, backend.Remaining();
    var poll := PollBackend(backend, turn);
    if poll.Abandoned? {
      if turn.TimeOut? {
        return Cut(TimedOut);
      }
      var n, ok := PumpUp(client, backend, READ_CHUNK, base);
      r := if ok then Went(threshold) else Cut(if backend.writeFailed then BackendRefused else ClientLeft);
    } else {
      ReadyMeans(z, threshold, rest);
      if !poll.outcome.FrameOk? {
        assert taken + rest[..0] == taken;
        return Settled(GaveUp);
      }
      var frame := poll.outcome.frame;
      var ok := ForwardDown(client, backend, frame, taken, base);
      if !ok {
        return Cut(ClientRefused);
      }
      match React(z, frame, threshold) {
        case Continue(t) => r := Went(t);
        case Stop(v) => r := Settled(v);
      }
    }
  }

  /**
   * `sniff_backend_login`, for any schedule of turns. Unless it is interrupted, the verdict and
   * what is left unread are those of the backend's stream alone, so a login whose packets are
   * framed under the backend's own thresholds yields the threshold it ended with. In every case
   * both directions stay spliced byte for byte, and each turn before the last moved some bytes.
   */
  method SniffBackendLogin(z: Zlib, client: BufferedStream, backend: BufferedStream, turns: nat -> Turn, ghost base: Baseline)
    returns (verdict: Verdict, interrupted: Option<Interruption>, n: nat)
    requires Spliced(client, backend, base)
    modifies client, backend
    ensures Spliced(client, backend, base)
    ensures interrupted.None? ==> verdict == Sniff(z, -1, old(backend.Remaining()))
    ensures interrupted.None? && verdict.Learned? ==> backend.Remaining() == SniffRest(z, -1, old(backend.Remaining()))
    ensures interrupted.None? && Lawful(z) ==>
              forall packets, last :: LoginStream(z, packets, last, old(backend.Remaining())) ==>
                verdict == VerdictOf(last, BackendThreshold(packets, -1))
    ensures interrupted.Some? ==> verdict == GaveUp && Caused(interrupted.value, client, backend, turns(n))
    ensures |client.taken| + |backend.taken| >= |old(client.taken)| + |old(backend.taken)| + n
  {
    hide Sniff, SniffRest, NextFrame, UploadPiped, DownloadPiped, LoginStream, Lawful, BackendThreshold, VerdictOf;
    var threshold: i32 := -1;
    ghost var all := backend.Remaining();
    n := 0;
    while true
      invariant Spliced(client, backend, base)
      invariant Sniff(z, threshold, backend.Remaining()) == Sniff(z, -1, all)
      invariant SniffRest(z, threshold, backend.Remaining()) == SniffRest(z, -1, all)
      invariant |client.taken| + |backend.taken| >= |old(client.taken)| + |old(backend.taken)| + n
      decreases |client.stream| + |backend.stream| - |client.taken| - |backend.taken|
    {
      var r := SniffTurn(z, client, backend, turns(n), threshold, base);
      match r {
        case Went(t) =>
          threshold, n := t, n + 1;
        case Settled(v) =>
          LoginVerdicts(z, all);
          return v, None, n;
        case Cut(why) =>
          return GaveUp, Some(why), n;
      }
    }
  }

  /** One finished read of the backend, said in terms of what is left to sniff. */
  lemma ReadyMeans(z: Zlib, threshold: i32, rest: seq<byte>)
    ensures var outcome := NextFrame(rest, MAX_PACKET_BYTES);
            if !outcome.FrameOk? then Sniff(z, threshold, rest) == GaveUp
            else
              var unread := rest[|outcome.frame|..];
              match React(z, outcome.frame, threshold)
              case Continue(t) =>
                && Sniff(z, threshold, rest) == Sniff(z, t, unread)
                && SniffRest(z, threshold, rest) == SniffRest(z, t, unread)
              case Stop(v) => Sniff(z, threshold, rest) == v && SniffRest(z, threshold, rest) == unread
  {
    hide React, NextFrame;
  }

  lemma LoginVerdicts(z: Zlib, s: seq<byte>)
    ensures Lawful(z) ==> forall packets, last :: LoginStream(z, packets, last, s) ==>
              Sniff(z, -1, s) == VerdictOf(last, BackendThreshold(packets, -1))
  {
    hide LoginStream, Sniff;
    if Lawful(z) {
      forall packets, last | LoginStream(z, packets, last, s)
        ensures Sniff(z, -1, s) == VerdictOf(last, BackendThreshold(packets, -1))
      {
        LoginStreamVerdict(z, packets, last, s);
      }
    }
  }

  // ----- the raw splice and its one injected packet -----

  datatype Session = Session(protocol: i32, threshold: i32, encrypted: bool)

  datatype SessionAction = Disconnect | KickWithMessage(reason: seq<byte>) | Transfer(host: seq<byte>, port: u16)

  const PLAY_DISCONNECT: i32 := 0x20
  const PLAY_TRANSFER: i32 := 0x81

  predicate ReconnectSupported(protocol: i32) {
    774 <= protocol <= 776
  }

  predicate CanInject(session: Session) {
    !session.encrypted && ReconnectSupported(session.protocol)
  }

  /** Packet id and fields an action puts on the wire; `reason` is the NBT-encoded message. */
  function ActionPacket(action: SessionAction): Option<(i32, seq<byte>)> {
    match action
    case Disconnect => None
    case KickWithMessage(reason) => Some((PLAY_DISCONNECT, reason))
    case Transfer(host, port) => Some((PLAY_TRANSFER, WriteString(host) + PortBytes(port)))
  }

  /** What `handle_pending_action` writes: nothing unless the session may be injected into. */
  function InjectedBytes(z: Zlib, session: Session, action: SessionAction): seq<byte> {
    match ActionPacket(action)
    case Some(packet) => if CanInject(session) then Frame(z, Payload(packet.0, packet.1), session.threshold) else []
    case None => []
  }

  /** Downloads so far, then the injected packet and nothing else; a prefix of that if a write failed. */
  ghost predicate DownloadThen(client: BufferedStream, backend: BufferedStream, base: Baseline, injected: seq<byte>)
    reads client, backend
  {
    && base.backendTaken <= backend.taken
    && var flow := base.clientSent + backend.taken[|base.backendTaken|..] + injected;
       if client.writeFailed then client.sent <= flow else client.sent == flow
  }

  /** Which branch wins a turn of `relay`; the last one only when there is a session to act on. */
  datatype RelayTurn = Up | Down | Act

  datatype RelayEnd = ClientClosed | BackendClosed | WriteFailed | ActionTaken

  predicate Acts(turns: nat -> RelayTurn, session: Option<Session>, i: nat) {
    turns(i).Act? && session.Some?
  }

  /** How many of the first `n` turns, none of them an action, read from the backend. */
  function Downs(turns: nat -> RelayTurn, n: nat): (d: nat)
    ensures d <= n
  {
    if n == 0 then 0 else Downs(turns, n - 1) + if turns(n - 1).Down? then 1 else 0
  }

  /** The splice ends for a reason: an end of stream, a failed write, or a turn of the pending action. */
  ghost predicate EndCaused(end: RelayEnd, client: BufferedStream, backend: BufferedStream, turns: nat -> RelayTurn,
                            session: Option<Session>, n: nat)
    reads client, backend
    requires client.pos <= |client.buf| && backend.pos <= |backend.buf|
  {
    match end
    case ClientClosed => !turns(n).Down? && client.Remaining() == []
    case BackendClosed => turns(n).Down? && backend.Remaining() == []
    case WriteFailed => client.writeFailed || backend.writeFailed
    case ActionTaken => Acts(turns, session, n)
  }

  /**
   * `relay`, for any schedule of turns: the backend has been sent what was read from the client,
   * and the client what was read from the backend, followed by the pending action's packet
   * exactly if the action ended the splice. It ends for one of the reasons above, at the first
   * turn of an action, and every turn before that moved bytes in its own direction.
   */
  method Relay(z: Zlib, client: BufferedStream, backend: BufferedStream, session: Option<Session>, action: SessionAction,
               turns: nat -> RelayTurn, ghost base: Baseline)
    returns (injected: seq<byte>, uploaded: nat, downloaded: nat, end: RelayEnd, n: nat)
    requires Spliced(client, backend, base)
    modifies client, backend
    ensures client.Valid() && backend.Valid() && UploadPiped(client, backend, base)
    ensures DownloadThen(client, backend, base, injected)
    ensures injected == if end.ActionTaken? && session.Some? then InjectedBytes(z, session.value, action) else []
    ensures uploaded == |client.taken| - |old(client.taken)| && downloaded == |backend.taken| - |old(backend.taken)|
    ensures EndCaused(end, client, backend, turns, session, n)
    ensures forall i :: 0 <= i < n ==> !Acts(turns, session, i)
    ensures downloaded >= Downs(turns, n) && uploaded >= n - Downs(turns, n)
    ensures (old(client.writeFailed) ==> client.writeFailed) && (old(backend.writeFailed) ==> backend.writeFailed)
  {
    hide UploadPiped, DownloadPiped, DownloadThen, InjectedBytes;
    uploaded, downloaded, injected, n := 0, 0, [], 0;
    while true
      invariant Spliced(client, backend, base)
      invariant uploaded == |client.taken| - |old(client.taken)| && downloaded == |backend.taken| - |old(backend.taken)|
      invariant forall i :: 0 <= i < n ==> !Acts(turns, session, i)
      invariant downloaded >= Downs(turns, n) && uploaded >= n - Downs(turns, n)
      invariant (old(client.writeFailed) ==> client.writeFailed) && (old(backend.writeFailed) ==> backend.writeFailed)
      decreases |client.stream| + |backend.stream| - |client.taken| - |backend.taken|
    {
      if Acts(turns, session, n) {
        injected := InjectedBytes(z, session.value, action);
        end := ActionTaken;
        InjectAfter(client, backend, injected, base);
        return;
      }
      var up, down, ended := RelayStep(client, backend, turns(n), base);
      uploaded, downloaded := uploaded + up, downloaded + down;
      if ended.Some? {
        end := ended.value;
        break;
      }
      n := n + 1;
    }
    NothingInjected(client, backend, base);
  }

  /** One turn of the splice, in one direction. */
  method RelayStep(client: BufferedStream, backend: BufferedStream, turn: RelayTurn, ghost base: Baseline)
    returns (up: nat, down: nat, ended: Option<RelayEnd>)
    requires Spliced(client, backend, base)
    modifies client, backend
    ensures Spliced(client, backend, base)
    ensures |client.taken| == |old(client.taken)| + up && |backend.taken| == |old(backend.taken)| + down
    ensures ended.None? ==> if turn.Down? then down > 0 else up > 0
    ensures ended.Some? ==>
              || (ended.value.WriteFailed? && (client.writeFailed || backend.writeFailed))
              || (ended.value.ClientClosed? && !turn.Down? && client.Remaining() == [])
              || (ended.value.BackendClosed? && turn.Down? && backend.Remaining() == [])
    ensures (old(client.writeFailed) ==> client.writeFailed) && (old(backend.writeFailed) ==> backend.writeFailed)
  {
    hide Piped;
    up, down := 0, 0;
    var ok;
    if turn.Down? {
      down, ok := PumpDown(client, backend, 8192, base);
      ended := if ok then None else Some(if client.writeFailed then WriteFailed else BackendClosed);
    } else {
      up, ok := PumpUp(client, backend, 8192, base);
      ended := if ok then None else Some(if backend.writeFailed then WriteFailed else ClientClosed);
    }
  }

  lemma NothingInjected(client: BufferedStream, backend: BufferedStream, base: Baseline)
    requires DownloadPiped(client, backend, base)
    ensures DownloadThen(client, backend, base, [])
  {
    PipedThenNothing(backend.taken, base.backendTaken, client.sent, base.clientSent, client.writeFailed);
  }

  lemma PipedThenNothing(taken: seq<byte>, taken0: seq<byte>, sent: seq<byte>, sent0: seq<byte>, failed: bool)
    requires Piped(taken, taken0, sent, sent0, failed)
    ensures taken0 <= taken
    ensures var flow := sent0 + taken[|taken0|..] + [];
            if failed then sent <= flow else sent == flow
  {
  }

  method InjectAfter(client: BufferedStream, backend: BufferedStream, packet: seq<byte>, ghost base: Baseline)
    requires Spliced(client, backend, base)
    modifies client`sent, client`writeFailed
    ensures client.Valid() && UploadPiped(client, backend, base)
    ensures DownloadThen(client, backend, base, packet) && (old(client.writeFailed) ==> client.writeFailed)
  {
    PipedThenNothing(backend.taken, base.backendTaken, client.sent, base.clientSent, client.writeFailed);
    ghost var flow := base.clientSent + backend.taken[|base.backendTaken|..];
    assert flow + [] == flow && flow <= flow + packet;
    if packet != [] {
      var _ := client.WriteAll(packet);
    }
  }

  // ----- the whole login -----

  /** What `dial_backend` meets, and what it sends instead of, or ahead of, the client's own handshake frame. */
  datatype Dial = Dial(reachable: bool, proxyHeader: Option<seq<byte>>, hostOverride: Option<seq<byte>>)

  function Header(dial: Dial): seq<byte> {
    if dial.proxyHeader.Some? then dial.proxyHeader.value else []
  }

  function HandshakeSent(dial: Dial, hs: Handshake): seq<byte> {
    if dial.hostOverride.Some? then EncodeHandshake(hs.protocol, dial.hostOverride.value, hs.port, 2) else hs.rawFrame
  }

  function Opening(dial: Dial, hs: Handshake): seq<byte> {
    Header(dial) + HandshakeSent(dial, hs)
  }

  predicate Unmodified(dial: Dial) {
    dial.proxyHeader.None? && dial.hostOverride.None?
  }

  ghost predicate Untouched(b: BufferedStream)
    reads b
  {
    b.Valid() && b.taken == [] && b.sent == [] && !b.writeFailed
  }

  /** A backend has seen its opening and then the client's own bytes after the handshake, in order. */
  ghost predicate SentPrefix(b: BufferedStream, dial: Dial, hs: Handshake, client: BufferedStream)
    reads b
    requires |hs.rawFrame| <= |client.stream|
  {
    b.sent <= Opening(dial, hs) + client.stream[|hs.rawFrame|..]
  }

  /**
   * The client has been sent what was taken from `b`, then the injected packet; `b` what was
   * taken from the client. Only a failed write may have cut either short.
   */
  ghost predicate Served(client: BufferedStream, b: BufferedStream, dial: Dial, hs: Handshake, injected: seq<byte>)
    reads client, b
    requires |hs.rawFrame| <= |client.taken|
  {
    && b.Valid() && client.sent <= b.taken + injected
    && (!client.writeFailed ==> client.sent == b.taken + injected)
    && (!b.writeFailed ==> b.sent == Opening(dial, hs) + client.taken[|hs.rawFrame|..])
  }

  /** What an injected packet is framed for: the sniffed verdict, or no compression and no encryption without one. */
  function SessionFor(hs: Handshake, verdict: Verdict): Session {
    if verdict.Learned? then Session(hs.protocol, verdict.threshold, verdict.encrypted) else Session(hs.protocol, -1, false)
  }

  /** The session is registered only when Login Start carried a UUID. */
  function SessionOf(hs: Handshake, login: seq<byte>, verdict: Verdict): Option<Session> {
    var parsed := ParseLoginStart(login);
    if parsed.Some? && parsed.value.uuid.Some? then Some(SessionFor(hs, verdict)) else None
  }

  /** The turns the runtime takes while sniffing and while relaying. */
  datatype Schedule = Schedule(sniff: nat -> Turn, relay: nat -> RelayTurn)

  /** How a relayed login went: the sniffer's verdict, what interrupted it and when, what ended the relay and when. */
  datatype Report = Report(verdict: Verdict, interrupted: Option<Interruption>, sniffed: nat, end: RelayEnd, relayed: nat)

  /** The report is what the backend's stream and the schedule make of it. */
  ghost predicate Accounted(z: Zlib, client: BufferedStream, b: BufferedStream, hs: Handshake, login: seq<byte>, action: SessionAction,
                            schedule: Schedule, report: Report, injected: seq<byte>)
    reads client, b
    requires client.pos <= |client.buf| && b.pos <= |b.buf|
  {
    var session := SessionOf(hs, login, report.verdict);
    && report.verdict == (if report.interrupted.Some? then GaveUp else Sniff(z, -1, b.stream))
    && (report.interrupted.Some? ==> InterruptedBy(report.interrupted.value, client, b, schedule.sniff, report.sniffed))
    && EndCaused(report.end, client, b, schedule.relay, session, report.relayed)
    && (forall i :: 0 <= i < report.relayed ==> !Acts(schedule.relay, session, i))
    && injected == (if report.end.ActionTaken? && session.Some? then InjectedBytes(z, session.value, action) else [])
    && |client.taken| + |b.taken| >= |hs.rawFrame| + |login| + report.sniffed + report.relayed
  }

  /** The cause of an interruption that can still be told when the relay is over. */
  ghost predicate InterruptedBy(why: Interruption, client: BufferedStream, b: BufferedStream, turns: nat -> Turn, n: nat)
    reads client, b
    requires client.pos <= |client.buf|
  {
    match why
    case TimedOut => turns(n).TimeOut?
    case ClientLeft => turns(n).Upload? && client.Remaining() == []
    case BackendRefused => b.writeFailed
    case ClientRefused => client.writeFailed
  }

  /**
   * With an uninterrupted sniff and a splice that stands at a frame boundary, a client that has
   * got everything decodes the injected packet as the action's own, behind the backend's packets.
   */
  ghost predicate Decoded(z: Zlib, client: BufferedStream, b: BufferedStream, action: SessionAction, report: Report, injected: seq<byte>)
    reads client, b
  {
    Lawful(z) && report.interrupted.None? && injected != [] && !client.writeFailed && AtBoundary(b.taken)
    && report.verdict.Learned? && InjectedFits(z, action, report.verdict.threshold) ==>
      && !action.Disconnect?
      && Decode(z, client.sent, JOINING) == Decode(z, b.taken, JOINING) + [PacketOf(action)]
  }

  /** The packet the client is to read: a Play disconnect with the text, or a transfer to host and port. */
  function PacketOf(action: SessionAction): PacketResult
    requires !action.Disconnect?
  {
    match action
    case KickWithMessage(reason) => Packet(0x20, reason)
    case Transfer(host, port) => Packet(0x81, WriteString(host) + [port / 256, port % 256])
  }

  predicate InjectedFits(z: Zlib, action: SessionAction, threshold: i32) {
    !action.Disconnect? ==> Fits(z, Payload(PacketOf(action).id, PacketOf(action).fields), threshold)
  }

  /** A backend was not opened: it could not be reached, or did not take the opening. */
  ghost predicate NotOpened(b: BufferedStream, dial: Dial)
    reads b
  {
    !dial.reachable || b.writeFailed
  }

  /** `dial_backend` and the forwarded Login Start: it succeeds exactly if the backend is reachable and takes both. */
  method OpenBackend(backend: BufferedStream, dial: Dial, hs: Handshake, login: seq<byte>) returns (ok: bool)
    requires Untouched(backend)
    modifies backend`sent, backend`writeFailed
    ensures backend.Valid()
    ensures ok ==> dial.reachable && !backend.writeFailed && backend.sent == Opening(dial, hs) + login
    ensures !ok ==> NotOpened(backend, dial)
    ensures backend.sent <= Opening(dial, hs) + login
  {
    hide EncodeHandshake;
    if !dial.reachable { return false; }
    if dial.proxyHeader.Some? {
      ok := backend.WriteAll(dial.proxyHeader.value);
      if !ok {
        assert backend.sent <= Header(dial) <= Opening(dial, hs) + login;
        return;
      }
    }
    assert backend.sent == Header(dial);
    ok := backend.WriteAll(HandshakeSent(dial, hs));
    if ok {
      ok := backend.WriteAll(login);
    } else {
      assert backend.sent <= Opening(dial, hs) <= Opening(dial, hs) + login;
    }
  }

  /**
   * Waits for Login Start, the first frame after the handshake, or until the deadline drops the
   * read: that can only cut off a frame longer than what was buffered and one byte a delivery.
   */
  method ReadLoginStart(client: BufferedStream, hs: Handshake, deadline: Option<nat>) returns (login: Option<seq<byte>>)
    requires client.Valid() && client.taken == hs.rawFrame
    modifies client`taken, client`buf, client`pos, client`incoming
    ensures client.Valid() && |hs.rawFrame| <= |client.stream|
    ensures login.None? ==> client.taken == hs.rawFrame
    ensures login.None? ==> CutOff(client.stream[|hs.rawFrame|..], old(|client.buf| - client.pos), deadline)
    ensures login.Some? ==> NextFrame(client.stream[|hs.rawFrame|..], MAX_PACKET_BYTES) == FrameOk(login.value)
    ensures login.Some? ==> client.taken == hs.rawFrame + login.value && login.value <= client.stream[|hs.rawFrame|..]
  {
    hide NextFrame;
    ghost var rest := client.stream[|hs.rawFrame|..];
    assert rest == client.Remaining();
    var poll := client.ReadFrame(MAX_PACKET_BYTES, deadline);
    if poll.Ready? && poll.outcome.FrameOk? {
      return Some(poll.outcome.frame);
    }
    login := None;
    if poll.Abandoned? && NextFrame(rest, MAX_PACKET_BYTES).FrameOk? {
      ghost var unread := client.buf[client.pos..];
      assert client.taken == hs.rawFrame && client.Remaining() == rest by { assert rest[0..] == rest && rest[..0] == []; }
      NotYetThere(rest, unread);
    }
  }

  /** No frame is coming, or it is longer than what was buffered and one byte for each delivery before the deadline. */
  predicate CutOff(rest: seq<byte>, buffered: int, deadline: Option<nat>) {
    var next := NextFrame(rest, MAX_PACKET_BYTES);
    next.FrameOk? ==> deadline.Some? && |next.frame| > buffered + deadline.value
  }

  lemma NotYetThere(rest: seq<byte>, unread: seq<byte>)
    requires unread <= rest && NextFrame(unread, MAX_PACKET_BYTES) == FrameEof && NextFrame(rest, MAX_PACKET_BYTES).FrameOk?
    ensures |NextFrame(rest, MAX_PACKET_BYTES).frame| > |unread|
  {
    hide NextFrame;
    if |NextFrame(rest, MAX_PACKET_BYTES).frame| <= |unread| {
      NextFrameWithin(rest, unread, MAX_PACKET_BYTES);
    }
  }

  /** What the runtime and the configuration decide about one login. */
  datatype World = World(
    overLimit: bool,             // the route's traffic has reached its limit
    deadline: Option<nat>,       // the login deadline drops the wait for Login Start after that many deliveries
    resolved: bool,              // the backends' names could be resolved
    schedule: Schedule)

  datatype LoginEnd =
    | OverLimit
    | NoLoginStart
    | Unresolved
    | Unreachable
    | Relayed(backend: nat, login: seq<byte>, report: Report)

  /** Why a login ended as it did, when `buffered` bytes of the client's were at hand. */
  ghost predicate EndExplained(end: LoginEnd, client: BufferedStream, hs: Handshake, dials: seq<Dial>, backends: seq<BufferedStream>,
                               world: World, buffered: int)
    reads backends
    requires |dials| == |backends| && |hs.rawFrame| <= |client.stream|
  {
    var rest := client.stream[|hs.rawFrame|..];
    var next := NextFrame(rest, MAX_PACKET_BYTES);
    match end
    case OverLimit => world.overLimit
    case NoLoginStart => !world.overLimit && CutOff(rest, buffered, world.deadline)
    case Unresolved => !world.overLimit && next.FrameOk? && !world.resolved
    case Unreachable =>
      && !world.overLimit && next.FrameOk? && world.resolved
      && forall i :: 0 <= i < |backends| ==> NotOpened(backends[i], dials[i])
    case Relayed(k, login, _) =>
      && !world.overLimit && next == FrameOk(login) && world.resolved && k < |backends|
      && dials[k].reachable && forall i :: 0 <= i < k ==> NotOpened(backends[i], dials[i])
  }

  /** What a client that was not relayed has been sent: the kick that goes with the end, if any. */
  function KickFor(end: LoginEnd, limitKick: seq<byte>, routeKick: seq<byte>): seq<byte> {
    match end
    case OverLimit => limitKick
    case Unresolved => routeKick
    case Unreachable => routeKick
    case _ => []
  }

  /**
   * `handle_login` from the point where the handshake has been read. It ends for the reason it
   * reports. Every backend dialled has been sent a prefix of its opening followed by the
   * client's own stream; with no rewriting that is a prefix of exactly what the client sent.
   * The client has been sent the one relayed backend's stream, as far as it was read, then at
   * most one injected packet; or, when it was not relayed, the kick that goes with the reason.
   */
  method HandleLogin(z: Zlib, client: BufferedStream, hs: Handshake, dials: seq<Dial>, backends: seq<BufferedStream>,
                     action: SessionAction, limitKick: seq<byte>, routeKick: seq<byte>, world: World)
    returns (end: LoginEnd, injected: seq<byte>)
    requires client.Valid() && client.taken == hs.rawFrame && client.sent == [] && !client.writeFailed
    requires |dials| == |backends| && client !in backends
    requires forall i :: 0 <= i < |backends| ==> Untouched(backends[i])
    requires forall i, j :: 0 <= i < j < |backends| ==> backends[i] != backends[j]
    modifies client, backends
    ensures client.Valid() && hs.rawFrame <= client.taken && |hs.rawFrame| <= |client.stream|
    ensures EndExplained(end, client, hs, dials, backends, world, old(|client.buf| - client.pos))
    ensures forall i :: 0 <= i < |backends| ==> SentPrefix(backends[i], dials[i], hs, client)
    ensures forall i :: 0 <= i < |backends| && Unmodified(dials[i]) ==> backends[i].sent <= client.stream
    ensures forall i :: 0 <= i < |backends| && !(end.Relayed? && end.backend == i) ==> backends[i].taken == []
    ensures !end.Relayed? ==> injected == [] && client.sent <= KickFor(end, limitKick, routeKick)
    ensures !end.Relayed? && !client.writeFailed ==> client.sent == KickFor(end, limitKick, routeKick)
    ensures end.Relayed? ==> Served(client, backends[end.backend], dials[end.backend], hs, injected)
    ensures end.Relayed? ==> Accounted(z, client, backends[end.backend], hs, end.login, action, world.schedule, end.report, injected)
    ensures end.Relayed? ==> Decoded(z, client, backends[end.backend], action, end.report, injected)
  {
    hide Opening, Accounted, Decoded, Served, SentPrefix, NotOpened, NextFrame, CutOff;
    injected := [];
    if world.overLimit {
      var _ := client.WriteAll(limitKick);
      end := OverLimit;
    } else {
      var start := ReadLoginStart(client, hs, world.deadline);
      if start.None? {
        end := NoLoginStart;
      } else if !world.resolved {
        var _ := client.WriteAll(routeKick);
        end := Unresolved;
      } else {
        var served, report;
        served, injected, report := ServeFirst(z, client, hs, dials, backends, start.value, action, world.schedule);
        if served.None? {
          var _ := client.WriteAll(routeKick);
          end := Unreachable;
        } else {
          end := Relayed(served.value, start.value, report);
        }
      }
    }
    forall i | 0 <= i < |backends| ensures SentPrefix(backends[i], dials[i], hs, client) {
      if !end.Relayed? && !end.Unreachable? {
        UntouchedSends(backends[i], dials[i], hs, client);
      }
    }
    forall i | 0 <= i < |backends| && Unmodified(dials[i]) ensures backends[i].sent <= client.stream {
      TransparentWhenUnmodified(backends[i], dials[i], hs, client);
    }
  }

  /** Dials the backends in order until one has been opened, and serves that one. */
  method ServeFirst(z: Zlib, client: BufferedStream, hs: Handshake, dials: seq<Dial>, backends: seq<BufferedStream>,
                    login: seq<byte>, action: SessionAction, schedule: Schedule)
    returns (served: Option<nat>, injected: seq<byte>, report: Report)
    requires client.Valid() && client.taken == hs.rawFrame + login && client.sent == [] && !client.writeFailed
    requires |hs.rawFrame| <= |client.stream| && login <= client.stream[|hs.rawFrame|..]
    requires |dials| == |backends| && client !in backends
    requires forall i :: 0 <= i < |backends| ==> Untouched(backends[i])
    requires forall i, j :: 0 <= i < j < |backends| ==> backends[i] != backends[j]
    modifies client, backends
    ensures client.Valid() && hs.rawFrame <= client.taken
    ensures forall i :: 0 <= i < |backends| ==> SentPrefix(backends[i], dials[i], hs, client)
    ensures forall i :: 0 <= i < |backends| && served != Some(i) ==> backends[i].taken == []
    ensures served.None? ==> client.sent == [] && !client.writeFailed && injected == []
    ensures forall i :: 0 <= i < (if served.Some? then served.value else |backends|) && i < |backends| ==> NotOpened(backends[i], dials[i])
    ensures served.Some? ==> served.value < |backends| && dials[served.value].reachable
    ensures served.Some? ==> Served(client, backends[served.value], dials[served.value], hs, injected)
    ensures served.Some? ==> Accounted(z, client, backends[served.value], hs, login, action, schedule, report, injected)
    ensures served.Some? ==> Decoded(z, client, backends[served.value], action, report, injected)
  {
    hide Opening, Accounted, Decoded, Served, SentPrefix, NotOpened;
    injected, report := [], Report(GaveUp, None, 0, ClientClosed, 0);
    var i := 0;
    while i < |backends|
      invariant 0 <= i <= |backends|
      invariant client.Valid() && client.taken == hs.rawFrame + login && client.sent == [] && !client.writeFailed
      invariant forall k :: 0 <= k < i ==>
                  SentPrefix(backends[k], dials[k], hs, client) && backends[k].taken == [] && NotOpened(backends[k], dials[k])
      invariant forall k :: i <= k < |backends| ==> Untouched(backends[k])
    {
      var b := backends[i];
      var ok := OpenBackend(b, dials[i], hs, login);
      OpenedSends(b, dials[i], hs, client, login);
      if ok {
        injected, report := ServeBackend(z, client, b, hs, dials[i], login, action, schedule);
        forall k | i < k < |backends| ensures SentPrefix(backends[k], dials[k], hs, client) {
          UntouchedSends(backends[k], dials[k], hs, client);
        }
        return Some(i), injected, report;
      }
      i := i + 1;
    }
    served := None;
  }

  lemma OpenedSends(b: BufferedStream, dial: Dial, hs: Handshake, client: BufferedStream, login: seq<byte>)
    requires |hs.rawFrame| <= |client.stream| && login <= client.stream[|hs.rawFrame|..]
    requires b.sent <= Opening(dial, hs) + login
    ensures SentPrefix(b, dial, hs, client)
  {
    PrefixOfLonger(b.sent, Opening(dial, hs), login, client.stream[|hs.rawFrame|..]);
  }

  lemma UntouchedSends(b: BufferedStream, dial: Dial, hs: Handshake, client: BufferedStream)
    requires |hs.rawFrame| <= |client.stream| && Untouched(b)
    ensures SentPrefix(b, dial, hs, client)
  {
  }

  lemma PrefixOfLonger(s: seq<byte>, a: seq<byte>, b: seq<byte>, c: seq<byte>)
    requires s <= a + b && b <= c
    ensures s <= a + c
  {
  }

  /** Sniff, then relay, with a session when the Login Start carried a UUID. */
  method ServeBackend(z: Zlib, client: BufferedStream, b: BufferedStream, hs: Handshake, dial: Dial, login: seq<byte>,
                      action: SessionAction, schedule: Schedule)
    returns (injected: seq<byte>, report: Report)
    requires client != b && client.Valid() && b.Valid() && |hs.rawFrame| <= |client.stream|
    requires client.taken == hs.rawFrame + login && client.sent == [] && !client.writeFailed
    requires b.taken == [] && !b.writeFailed && b.sent == Opening(dial, hs) + login
    modifies client, b
    ensures client.Valid() && b.Valid() && hs.rawFrame <= client.taken && SentPrefix(b, dial, hs, client)
    ensures Served(client, b, dial, hs, injected)
    ensures Accounted(z, client, b, hs, login, action, schedule, report, injected)
    ensures Decoded(z, client, b, action, report, injected)
  {
    hide Opening, Sniff, SniffRest, ParseLoginStart, Piped, InjectedBytes, LoginStream, NextFrame, Lawful, AtBoundary, Decode;
    StreamAhead(b);
    ghost var base := Baseline(client.taken, [], [], b.sent);
    PipedFromHere(client.taken, b.sent);
    PipedFromHere([], []);
    var verdict, interrupted, sniffed := SniffBackendLogin(z, client, b, schedule.sniff, base);
    ghost var read, wasRead := |b.taken|, |client.taken|;
    assert interrupted == Some(ClientLeft) ==> wasRead == |client.stream|;
    assert verdict.Learned? ==> read == |b.stream| - |SniffRest(z, -1, b.stream)|;
    var session := SessionOf(hs, login, verdict);
    var up, down, end, relayed;
    injected, up, down, end, relayed := Relay(z, client, b, session, action, schedule.relay, base);
    report := Report(verdict, interrupted, sniffed, end, relayed);
    assert interrupted == Some(ClientLeft) ==> client.Remaining() == [];
    assert [] + b.taken[0..] + injected == b.taken + injected;
    ServedFlow(hs.rawFrame, login, client.taken, client.stream, Opening(dial, hs), b.sent, b.writeFailed);
    if verdict.Learned? && injected != [] {
      InjectedIff(z, session.value, action);
      InjectionDecodes(z, hs, verdict, action, b.stream, b.taken);
    }
  }

  lemma StreamAhead(b: BufferedStream)
    requires b.Valid() && b.taken == []
    ensures b.Remaining() == b.stream
  {
  }

  lemma ServedFlow(raw: seq<byte>, login: seq<byte>, taken: seq<byte>, stream: seq<byte>, opening: seq<byte>, sent: seq<byte>, failed: bool)
    requires Piped(taken, raw + login, sent, opening + login, failed) && taken <= stream
    ensures raw <= taken && sent <= opening + stream[|raw|..]
    ensures !failed ==> sent == opening + taken[|raw|..]
  {
    var flow := taken[|raw|..];
    assert flow == login + taken[|raw + login|..];
    assert opening + flow == opening + login + taken[|raw + login|..];
    assert flow <= stream[|raw|..];
    PrefixOfLonger(sent, opening, flow, stream[|raw|..]);
  }

  /** With a host override the backend reads the override as host, the client's protocol and port, and a login. */
  lemma OverriddenHandshake(dial: Dial, hs: Handshake, rest: seq<byte>)
    requires dial.hostOverride.Some? && |dial.hostOverride.value| <= 255
    ensures var sent := HandshakeSent(dial, hs);
            TryParse(sent + rest) == Complete(Handshake(hs.protocol, NormalHost(dial.hostOverride.value), hs.port, 2, sent))
  {
    hide EncodeHandshake, TryParse;
    HandshakeRoundTrip(hs.protocol, dial.hostOverride.value, hs.port, 2, rest);
  }

  /** With nothing rewritten on the way out, a backend's input is a prefix of the client's stream. */
  lemma TransparentWhenUnmodified(b: BufferedStream, dial: Dial, hs: Handshake, client: BufferedStream)
    requires hs.rawFrame <= client.stream && Unmodified(dial) && SentPrefix(b, dial, hs, client)
    ensures b.sent <= client.stream
  {
    assert Opening(dial, hs) == hs.rawFrame;
    assert hs.rawFrame + client.stream[|hs.rawFrame|..] == client.stream;
  }

  /**
   * Exactly when something is injected: the action has a packet, the session is not encrypted,
   * and its protocol number is one of the three with known packet ids. It is then the action's
   * packet, framed for the session's threshold.
   */
  lemma InjectedIff(z: Zlib, session: Session, action: SessionAction)
    ensures InjectedBytes(z, session, action) != [] <==>
            !action.Disconnect? && !session.encrypted && 774 <= session.protocol <= 776
    ensures InjectedBytes(z, session, action) != [] ==>
              var p := PacketOf(action); InjectedBytes(z, session, action) == Frame(z, Payload(p.id, p.fields), session.threshold)
  {
    hide FrameBody, Payload;
    if !action.Disconnect? {
      var p := PacketOf(action);
      FrameIsNotEmpty(FrameBody(z, Payload(p.id, p.fields), session.threshold));
    }
  }

  lemma FrameIsNotEmpty(body: seq<byte>)
    ensures LengthPrefix(body) != []
  {
    VarIntRoundTrip(AsI32(|body|), body);
  }

  /** The fields of a transfer give the host back, and behind it the port, high byte first. */
  lemma TransferReads(host: seq<byte>, port: u16)
    requires |host| <= 0x1F_FFFF
    ensures var fields := PacketOf(Transfer(host, port)).fields;
            var read := ReadString(fields, 0x1F_FFFF);
            read.Text? && read.bytes == host && read.size <= |fields| && fields[read.size..] == [port / 256, port % 256]
  {
    StringRoundTrip(host, 0x1F_FFFF, [port / 256, port % 256]);
    hide ReadString;
    assert (WriteString(host) + [port / 256, port % 256])[|WriteString(host)|..] == [port / 256, port % 256];
  }

  /** A session is there to be acted on exactly if Login Start carried a UUID, and is what the verdict says. */
  lemma SessionIff(hs: Handshake, login: LoginStart, verdict: Verdict)
    requires |login.name| <= 64 && (login.uuid.Some? ==> |login.uuid.value| == 16)
    ensures SessionOf(hs, EncodeLoginStart(login), verdict) ==
            if login.uuid.None? then None
            else Some(match verdict
                      case Learned(threshold, encrypted) => Session(hs.protocol, threshold, encrypted)
                      case GaveUp => Session(hs.protocol, -1, false))
  {
    LoginStartRoundTrip(login, []);
    hide ParseLoginStart, EncodeLoginStart;
    assert EncodeLoginStart(login) + [] == EncodeLoginStart(login);
  }

  /**
   * A packet injected for the sniffed verdict reaches a client that has been sent the whole
   * frames `downloaded` of the backend's stream, the sniffed part included, as the action's own
   * packet; after a verdict of encryption nothing is injected.
   */
  lemma InjectionDecodes(z: Zlib, hs: Handshake, verdict: Verdict, action: SessionAction, stream: seq<byte>, downloaded: seq<byte>)
    requires verdict.Learned? && verdict == Sniff(z, -1, stream) && !action.Disconnect? && 774 <= hs.protocol <= 776
    requires downloaded <= stream && |stream| - |SniffRest(z, -1, stream)| <= |downloaded|
    ensures verdict.encrypted <==> InjectedBytes(z, SessionFor(hs, verdict), action) == []
    ensures Lawful(z) && AtBoundary(downloaded) && InjectedFits(z, action, verdict.threshold) && !verdict.encrypted ==>
              Decode(z, downloaded + InjectedBytes(z, SessionFor(hs, verdict), action), JOINING)
              == Decode(z, downloaded, JOINING) + [PacketOf(action)]
  {
    hide AtBoundary, Fits, Frame, Payload, Sniff, SniffRest, Decode, Lawful, InjectedBytes;
    InjectedIff(z, SessionFor(hs, verdict), action);
    if Lawful(z) && AtBoundary(downloaded) && InjectedFits(z, action, verdict.threshold) && !verdict.encrypted {
      SniffWithin(z, -1, stream, downloaded);
      SnifferKnowsTheClient(z, downloaded, -1);
      InjectedPacketDecodes(z, downloaded, PacketOf(action).id, PacketOf(action).fields, JOINING);
    }
  }

  /**
   * After an interrupted sniff the packet is framed without compression. What the client makes
   * of it, and exactly when that is the packet: no Set Compression with a threshold has gone
   * by, or inflating the packet's fields to the size its id names happens to give the packet.
   */
  lemma InterruptedInjection(z: Zlib, hs: Handshake, action: SessionAction, downloaded: seq<byte>)
    requires Lawful(z) && AtBoundary(downloaded) && !action.Disconnect? && 774 <= hs.protocol <= 776
    requires InjectedFits(z, action, -1)
    ensures var packet := PacketOf(action);
            var inflated := z.inflate(packet.fields, packet.id);
            var before, after :=
              Decode(z, downloaded, JOINING), Decode(z, downloaded + InjectedBytes(z, SessionFor(hs, GaveUp), action), JOINING);
            var plain := ClientBehind(z, downloaded, JOINING).threshold < 0;
            && after == before + [if plain then packet
                                  else if inflated.None? then BadFrame(InflateFailed)
                                  else SplitPacket(inflated.value)]
            && (after == before + [packet] <==> plain || (inflated.Some? && SplitPacket(inflated.value) == packet))
  {
    hide AtBoundary, Fits, Frame, Payload, Decode, Lawful, ClientBehind, SplitPacket, InjectedBytes;
    var packet := PacketOf(action);
    InjectedIff(z, SessionFor(hs, GaveUp), action);
    MisframedPacket(z, downloaded, packet.id, packet.fields, JOINING);
    var inflated := z.inflate(packet.fields, packet.id);
    var read := if ClientBehind(z, downloaded, JOINING).threshold < 0 then packet
                else if inflated.None? then BadFrame(InflateFailed) else SplitPacket(inflated.value);
    LastPacket(Decode(z, downloaded, JOINING), read, packet);
  }

  lemma LastPacket(before: seq<PacketResult>, a: PacketResult, b: PacketResult)
    ensures before + [a] == before + [b] <==> a == b
  {
    assert (before + [a])[|before|] == a && (before + [b])[|before|] == b;
  }

  /** A Set Compression packet, framed without compression as a backend's first one is. */
  function Switch(threshold: i32): seq<byte> {
    LengthPrefix(Payload(SET_COMPRESSION, WriteVarInt(threshold)))
  }

  lemma SwitchSeen(z: Zlib, threshold: i32)
    ensures AtBoundary(Switch(threshold)) && ClientBehind(z, Switch(threshold), JOINING) == Client(threshold, true)
  {
    hide ReadVarInt, WriteVarInt, SplitPacket;
    var body, s := Payload(SET_COMPRESSION, WriteVarInt(threshold)), Switch(threshold);
    VarIntRoundTrip(SET_COMPRESSION, WriteVarInt(threshold));
    VarIntRoundTrip(threshold, []);
    assert WriteVarInt(threshold) + [] == WriteVarInt(threshold);
    SplitPacketInverse(SET_COMPRESSION, WriteVarInt(threshold));
    NextFrameOfPrefixed(body, [], MAX_PACKET_BYTES);
    hide NextFrame;
    assert s + [] == s && s[|s|..] == [];
    NothingInEmpty(z, Client(threshold, true));
    assert DecodeFrame(z, s, -1) == SplitPacket(body);
  }

  /**
   * Inputs for which the packet is not decoded: the sniff was interrupted once Set Compression
   * had gone by, and the kick's text is not deflated data, as NBT text is not.
   */
  lemma InterruptedInjectionFails(hs: Handshake, threshold: i32, reason: seq<byte>)
    requires 774 <= hs.protocol <= 776 && threshold >= 0 && |reason| <= 1000 && (reason == [] || reason[0] != 0x78)
    ensures Lawful(STORED) && AtBoundary(Switch(threshold))
    ensures var injected := InjectedBytes(STORED, SessionFor(hs, GaveUp), KickWithMessage(reason));
            Decode(STORED, Switch(threshold) + injected, JOINING)
            == Decode(STORED, Switch(threshold), JOINING) + [BadFrame(InflateFailed)]
  {
    hide AtBoundary, Decode, ClientBehind, Switch, Frame;
    StoredIsLawful();
    SwitchSeen(STORED, threshold);
    VarIntRoundTrip(0x20, reason);
    hide ReadVarInt, WriteVarInt;
    InterruptedInjection(STORED, hs, KickWithMessage(reason), Switch(threshold));
  }

  /**
   * Inputs for which even a rightly framed packet is not decoded: the splice stood behind the
   * length byte of a frame that needs more bytes than the packet has.
   */
  lemma MidFrameInjectionLost(z: Zlib, session: Session, action: SessionAction, downloaded: seq<byte>, length: byte)
    requires AtBoundary(downloaded) && length < 128 && |InjectedBytes(z, session, action)| < length
    ensures Decode(z, downloaded + [length] + InjectedBytes(z, session, action), JOINING) == Decode(z, downloaded, JOINING)
  {
    hide AtBoundary, Decode, InjectedBytes;
    var injected := InjectedBytes(z, session, action);
    SwallowedPacket(z, downloaded, length, injected, JOINING);
    assert downloaded + [length] + injected == downloaded + ([length] + injected);
  }
}
