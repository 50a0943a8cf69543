/**
 * What `sniff_backend_login` (`src/net/server.rs`) learns from a backend's login packets, as a
 * function of the backend's byte stream, against what the backend itself did.
 */
module LoginSniffer {
  import opened Bytes
  import opened VarInt
  import opened Compression
  import opened BufferedStreams

  const LOGIN_DISCONNECT: i32 := 0
  const ENCRYPTION_REQUEST: i32 := 1
  const LOGIN_SUCCESS: i32 := 2
  const SET_COMPRESSION: i32 := 3

  // ----- the backend's side -----

  datatype LoginPacket =
    | SetCompression(threshold: i32)
    | EncryptionRequest(fields: seq<byte>)
    | LoginSuccess(fields: seq<byte>)
    | LoginDisconnect(fields: seq<byte>)
    | OtherLogin(id: i32, fields: seq<byte>)

  ghost predicate WellFormed(p: LoginPacket) {
    p.OtherLogin? ==> !(0 <= p.id <= 3)
  }

  /** The packet ids on the wire, stable across protocol versions. */
  function IdOf(p: LoginPacket): i32
    requires WellFormed(p)
  {
    match p
    case SetCompression(_) => 0x03
    case EncryptionRequest(_) => 0x01
    case LoginSuccess(_) => 0x02
    case LoginDisconnect(_) => 0x00
    case OtherLogin(id, _) => id
  }

  function FieldsOf(p: LoginPacket): seq<byte> {
    if p.SetCompression? then WriteVarInt(p.threshold) else p.fields
  }

  function PayloadOf(p: LoginPacket): seq<byte>
    requires WellFormed(p)
  {
    Payload(IdOf(p), FieldsOf(p))
  }

  /** A backend switches framing right after the Set Compression packet it sends. */
  function ThresholdAfter(p: LoginPacket, threshold: i32): i32 {
    if p.SetCompression? then p.threshold else threshold
  }

  function BackendThreshold(packets: seq<LoginPacket>, threshold: i32): i32 {
    if packets == [] then threshold else BackendThreshold(packets[1..], ThresholdAfter(packets[0], threshold))
  }

  ghost predicate AllWellFormed(packets: seq<LoginPacket>) {
    forall k :: 0 <= k < |packets| ==> WellFormed(packets[k])
  }

  /** The bytes a backend puts on the wire, each packet framed under the threshold then in force. */
  ghost function Emit(z: Zlib, packets: seq<LoginPacket>, threshold: i32): seq<byte>
    requires AllWellFormed(packets)
  {
    if packets == [] then []
    else Frame(z, PayloadOf(packets[0]), threshold) + Emit(z, packets[1..], ThresholdAfter(packets[0], threshold))
  }

  /** Every packet stays within the protocol's size limits under the threshold it is framed with. */
  ghost predicate AllFit(z: Zlib, packets: seq<LoginPacket>, threshold: i32)
    requires AllWellFormed(packets)
  {
    packets != [] ==>
      Fits(z, PayloadOf(packets[0]), threshold) && AllFit(z, packets[1..], ThresholdAfter(packets[0], threshold))
  }

  /** What a backend's last login packet tells about the session: nothing when it is a refusal. */
  function VerdictOf(last: LoginPacket, threshold: i32): Verdict {
    match last
    case EncryptionRequest(_) => Learned(threshold, true)
    case LoginSuccess(_) => Learned(threshold, false)
    case _ => GaveUp
  }

  predicate EndsLogin(p: LoginPacket) {
    p.LoginSuccess? || p.EncryptionRequest? || p.LoginDisconnect?
  }

  /** None of the packets that end sniffing. */
  ghost predicate StillLogin(packets: seq<LoginPacket>) {
    forall k :: 0 <= k < |packets| ==> packets[k].SetCompression? || packets[k].OtherLogin?
  }

  // ----- the sniffer's side -----

  datatype Verdict = Learned(threshold: i32, encrypted: bool) | GaveUp

  /** Sniffing is under way with a current threshold and an unread stream, or is over. */
  datatype SniffState = Observing(threshold: i32, rest: seq<byte>) | Over(verdict: Verdict, unread: seq<byte>)

  datatype Reaction = Continue(threshold: i32) | Stop(verdict: Verdict)

  /** The match on the packet id of one forwarded frame. */
  function React(z: Zlib, frame: seq<byte>, threshold: i32): Reaction {
    var v := ReadVarInt(frame);
    if !v.Value? then Stop(GaveUp)
    else
      match ReadCompressedFrame(z, frame[v.consumed..], threshold)
      case BadFrame(_) => Stop(Learned(threshold, true))
      case Packet(id, fields) =>
        if id == ENCRYPTION_REQUEST then Stop(Learned(threshold, true))
        else if id == SET_COMPRESSION then
          var t := ReadVarInt(fields);
          Continue(if t.Value? then t.value else threshold)
        else if id == LOGIN_SUCCESS then Stop(Learned(threshold, false))
        else if id == LOGIN_DISCONNECT then Stop(GaveUp)
        else Continue(threshold)
  }

  function SniffStep(z: Zlib, threshold: i32, s: seq<byte>): (next: SniffState)
    ensures next.Observing? ==> |next.rest| < |s|
  {
    var outcome := NextFrame(s, MAX_PACKET_BYTES);
    if !outcome.FrameOk? then Over(GaveUp, s)
    else
      var rest := s[|outcome.frame|..];
      match React(z, outcome.frame, threshold)
      case Continue(t) => Observing(t, rest)
      case Stop(verdict) => Over(verdict, rest)
  }

  function SniffSteps(z: Zlib, state: SniffState, n: nat): SniffState
    decreases n
  {
    if n == 0 || state.Over? then state else SniffSteps(z, SniffStep(z, state.threshold, state.rest), n - 1)
  }

  /** The verdict on a stream that nothing interrupts. */
  function Sniff(z: Zlib, threshold: i32, s: seq<byte>): Verdict
    decreases |s|
  {
    match SniffStep(z, threshold, s)
    case Observing(t, rest) => Sniff(z, t, rest)
    case Over(verdict, _) => verdict
  }

  /** What that sniffing leaves unread. */
  function SniffRest(z: Zlib, threshold: i32, s: seq<byte>): (r: seq<byte>)
    ensures |r| <= |s|
    decreases |s|
  {
    match SniffStep(z, threshold, s)
    case Observing(t, rest) => SniffRest(z, t, rest)
    case Over(_, unread) => unread
  }

  /** A verdict is reached from any part of the stream that holds what was sniffed. */
  lemma {:induction false} SniffWithin(z: Zlib, threshold: i32, s: seq<byte>, d: seq<byte>)
    requires Sniff(z, threshold, s).Learned? && d <= s && |s| - |SniffRest(z, threshold, s)| <= |d|
    ensures Sniff(z, threshold, d) == Sniff(z, threshold, s)
    decreases |s|
  {
    hide React, NextFrame;
    var frame := NextFrame(s, MAX_PACKET_BYTES).frame;
    NextFrameWithin(s, d, MAX_PACKET_BYTES);
    match React(z, frame, threshold)
    case Continue(t) =>
      assert d[|frame|..] <= s[|frame|..];
      SniffWithin(z, t, s[|frame|..], d[|frame|..]);
    case Stop(_) =>
  }

  // ----- agreement -----

  /**
   * What the sniffer makes of a frame by the packet id on the wire: 0x00 is a refusal, 0x01 asks
   * for encryption, 0x02 ends the login, 0x03 carries a new threshold if that can be read, and
   * any other packet changes nothing.
   */
  lemma ReactToWireId(z: Zlib, id: i32, fields: seq<byte>, threshold: i32)
    requires Lawful(z) && Fits(z, Payload(id, fields), threshold)
    ensures React(z, Frame(z, Payload(id, fields), threshold), threshold) ==
            if id == 0x00 then Stop(GaveUp)
            else if id == 0x01 then Stop(Learned(threshold, true))
            else if id == 0x02 then Stop(Learned(threshold, false))
            else if id == 0x03 then Continue(if ReadVarInt(fields).Value? then ReadVarInt(fields).value else threshold)
            else Continue(threshold)
  {
    hide ReadVarInt, WriteVarInt, ReadCompressedFrame, FrameBody;
    NextFrameOfPrefixed(FrameBody(z, Payload(id, fields), threshold), [], MAX_PACKET_BYTES);
    FrameBodyRoundTrip(z, id, fields, threshold);
  }

  /** A frame that cannot be decoded under the current threshold counts as encrypted. */
  lemma ReactToGarbage(z: Zlib, body: seq<byte>, threshold: i32)
    requires |body| <= 2_097_151 && ReadCompressedFrame(z, body, threshold).BadFrame?
    ensures React(z, LengthPrefix(body), threshold) == Stop(Learned(threshold, true))
  {
    hide ReadVarInt, ReadCompressedFrame;
    NextFrameOfPrefixed(body, [], MAX_PACKET_BYTES);
  }

  /** A frame of more than 2,097,151 bytes ends the sniffing without a verdict. */
  lemma OversizedEndsSniffing(z: Zlib, body: seq<byte>, rest: seq<byte>, threshold: i32)
    requires 2_097_151 < |body| < 0x8000_0000
    ensures Sniff(z, threshold, LengthPrefix(body) + rest) == GaveUp
  {
    hide NextFrame, React;
    OversizedFrame(body, rest, MAX_PACKET_BYTES);
  }

  lemma ReactToPacket(z: Zlib, p: LoginPacket, threshold: i32)
    requires Lawful(z) && WellFormed(p) && Fits(z, PayloadOf(p), threshold)
    ensures React(z, Frame(z, PayloadOf(p), threshold), threshold) ==
            if EndsLogin(p) then Stop(VerdictOf(p, threshold)) else Continue(ThresholdAfter(p, threshold))
  {
    hide ReadVarInt, WriteVarInt, React, Frame, Fits;
    ReactToWireId(z, IdOf(p), FieldsOf(p), threshold);
    if p.SetCompression? {
      VarIntRoundTrip(p.threshold, []);
      assert WriteVarInt(p.threshold) + [] == WriteVarInt(p.threshold);
    }
  }

  lemma StepOverPacket(z: Zlib, p: LoginPacket, threshold: i32, rest: seq<byte>)
    requires Lawful(z) && WellFormed(p) && Fits(z, PayloadOf(p), threshold)
    ensures SniffStep(z, threshold, Frame(z, PayloadOf(p), threshold) + rest) ==
            if EndsLogin(p) then Over(VerdictOf(p, threshold), rest) else Observing(ThresholdAfter(p, threshold), rest)
  {
    hide React, NextFrame, PayloadOf, Fits;
    assert |FrameBody(z, PayloadOf(p), threshold)| <= MAX_PACKET_BYTES by { FitsMeans(z, PayloadOf(p), threshold); }
    ReactToPacket(z, p, threshold);
    NextFrameOfPrefixed(FrameBody(z, PayloadOf(p), threshold), rest, MAX_PACKET_BYTES);
    var frame := Frame(z, PayloadOf(p), threshold);
    assert (frame + rest)[|frame|..] == rest;
  }

  lemma FitsMeans(z: Zlib, payload: seq<byte>, threshold: i32)
    requires Fits(z, payload, threshold)
    ensures |FrameBody(z, payload, threshold)| <= MAX_PACKET_BYTES
  {
  }

  /**
   * At every step the sniffer's threshold is the backend's: after the frames of any packets that
   * leave the login open, it holds the threshold the backend frames its next packet with, and
   * what it has not read is exactly what the backend sent next.
   */
  lemma {:induction false} ThresholdsAgree(z: Zlib, packets: seq<LoginPacket>, threshold: i32, rest: seq<byte>)
    requires Lawful(z) && AllWellFormed(packets) && StillLogin(packets) && AllFit(z, packets, threshold)
    ensures SniffSteps(z, Observing(threshold, Emit(z, packets, threshold) + rest), |packets|)
            == Observing(BackendThreshold(packets, threshold), rest)
    ensures Sniff(z, threshold, Emit(z, packets, threshold) + rest)
            == Sniff(z, BackendThreshold(packets, threshold), rest)
    decreases |packets|
  {
    hide SniffStep, Frame, PayloadOf, Fits;
    if packets == [] {
      assert [] + rest == rest;
    } else {
      var p, more := packets[0], packets[1..];
      var t := ThresholdAfter(p, threshold);
      var tail := Emit(z, more, t) + rest;
      assert Emit(z, packets, threshold) + rest == Frame(z, PayloadOf(p), threshold) + tail;
      StepOverPacket(z, p, threshold, tail);
      ThresholdsAgree(z, more, t, rest);
    }
  }

  /** `s` is what a backend sends that goes through the login with `packets`, then `last`. */
  ghost predicate LoginStream(z: Zlib, packets: seq<LoginPacket>, last: LoginPacket, s: seq<byte>) {
    && AllWellFormed(packets) && StillLogin(packets) && AllFit(z, packets, -1)
    && EndsLogin(last)
    && Fits(z, PayloadOf(last), BackendThreshold(packets, -1))
    && Emit(z, packets, -1) + Frame(z, PayloadOf(last), BackendThreshold(packets, -1)) <= s
  }

  lemma LoginStreamVerdict(z: Zlib, packets: seq<LoginPacket>, last: LoginPacket, s: seq<byte>)
    requires Lawful(z) && LoginStream(z, packets, last, s)
    ensures Sniff(z, -1, s) == VerdictOf(last, BackendThreshold(packets, -1))
  {
    hide Fits, Frame, PayloadOf, AllFit, Sniff;
    var emitted, framed := Emit(z, packets, -1), Frame(z, PayloadOf(last), BackendThreshold(packets, -1));
    var rest := s[|emitted + framed|..];
    assert s == emitted + (framed + rest);
    SnifferAgreement(z, packets, last, rest);
  }

  /**
   * The verdict: whatever packets come first, Login Success yields the backend's threshold and a
   * plaintext session, an Encryption Request the same threshold and an encrypted one, a refusal
   * none; bytes after the deciding packet play no part.
   */
  lemma SnifferAgreement(z: Zlib, packets: seq<LoginPacket>, last: LoginPacket, rest: seq<byte>)
    requires Lawful(z) && AllWellFormed(packets) && StillLogin(packets) && AllFit(z, packets, -1)
    requires EndsLogin(last)
    requires Fits(z, PayloadOf(last), BackendThreshold(packets, -1))
    ensures var t := BackendThreshold(packets, -1);
            Sniff(z, -1, Emit(z, packets, -1) + (Frame(z, PayloadOf(last), t) + rest))
            == VerdictOf(last, t)
  {
    hide SniffStep, Frame, PayloadOf, Fits, AllFit;
    var t := BackendThreshold(packets, -1);
    ThresholdsAgree(z, packets, -1, Frame(z, PayloadOf(last), t) + rest);
    StepOverPacket(z, last, t, rest);
  }
}
