/** Handshake and Login Start packets: `src/protocol/handshake.rs`, `src/protocol/minecraft_protocol.rs`. */
module Handshakes {
  import opened Bytes
  import opened VarInt

  const MAX_HANDSHAKE_FRAME_BYTES := 512
  const NUL: byte := 0
  const DOT: byte := 0x2E

  type u16 = n: int | 0 <= n < 0x1_0000

  datatype Handshake = Handshake(protocol: i32, host: seq<byte>, port: u16, nextState: i32, rawFrame: seq<byte>)

  datatype Reason =
    | BogusLengthVarInt
    | BogusLength(length: i32)
    | BadPacketId
    | WrongPacketId(id: i32)
    | BadProtocolVersion
    | BadHostLength
    | BogusHostLength(hostLength: i32)
    | FieldsPastBuffer
    | BadNextState

  datatype ParseOutcome = Complete(handshake: Handshake) | NeedMore | Malformed(reason: Reason)

  // ----- host normalisation -----

  /** Everything before the first NUL: Forge/FML clients append markers after one. */
  function BeforeNul(host: seq<byte>): seq<byte> {
    if host == [] || host[0] == NUL then [] else [host[0]] + BeforeNul(host[1..])
  }

  function DropTrailingDots(host: seq<byte>): seq<byte> {
    if host != [] && host[|host| - 1] == DOT then DropTrailingDots(host[..|host| - 1]) else host
  }

  function NormalHost(host: seq<byte>): seq<byte> {
    DropTrailingDots(BeforeNul(host))
  }

  ghost predicate AllDots(s: seq<byte>) {
    forall k :: 0 <= k < |s| ==> s[k] == DOT
  }

  /** `host` is `r`, then dots, then nothing or something that starts with a NUL. */
  ghost predicate StrippedFrom(host: seq<byte>, r: seq<byte>, dots: seq<byte>, tail: seq<byte>) {
    host == r + dots + tail && AllDots(dots) && (tail == [] || tail[0] == NUL)
  }

  lemma {:induction false} BeforeNulSplits(host: seq<byte>)
    ensures NUL !in BeforeNul(host)
    ensures exists tail :: host == BeforeNul(host) + tail && (tail == [] || tail[0] == NUL)
  {
    if host == [] || host[0] == NUL {
      assert host == [] + host;
    } else {
      BeforeNulSplits(host[1..]);
      var tail :| host[1..] == BeforeNul(host[1..]) + tail && (tail == [] || tail[0] == NUL);
      assert host == [host[0]] + host[1..] == BeforeNul(host) + tail;
    }
  }

  lemma {:induction false} DropTrailingDotsSplits(host: seq<byte>)
    ensures var r := DropTrailingDots(host);
            && (r == [] || r[|r| - 1] != DOT)
            && r <= host && AllDots(host[|r|..])
  {
    if host != [] && host[|host| - 1] == DOT {
      var init := host[..|host| - 1];
      DropTrailingDotsSplits(init);
      var r := DropTrailingDots(init);
      assert host[|r|..] == init[|r|..] + [DOT];
    }
  }

  /**
   * The host a route is matched against: the received one cut at its first NUL, then without
   * the dots that ended it.
   */
  lemma NormalHostMeaning(host: seq<byte>)
    ensures var r := NormalHost(host);
            && NUL !in r && (r == [] || r[|r| - 1] != DOT)
            && exists dots, tail :: StrippedFrom(host, r, dots, tail)
  {
    var cut := BeforeNul(host);
    BeforeNulSplits(host);
    DropTrailingDotsSplits(cut);
    var r := NormalHost(host);
    var tail :| host == cut + tail && (tail == [] || tail[0] == NUL);
    assert cut == r + cut[|r|..];
    var dots := cut[|r|..];
    assert StrippedFrom(host, r, dots, tail);
  }

  // ----- parsing -----

  datatype FieldResult = Fields(protocol: i32, host: seq<byte>, port: u16, nextState: i32) | Bad(reason: Reason)

  /** Reads the handshake fields off the front of `s`; nothing here knows where the frame ends. */
  function ReadFields(s: seq<byte>): FieldResult {
    var id := ReadVarInt(s);
    if !id.Value? then Bad(BadPacketId)
    else if id.value != 0 then Bad(WrongPacketId(id.value))
    else ReadAfterId(s[id.consumed..])
  }

  function ReadAfterId(s: seq<byte>): FieldResult {
    var protocol := ReadVarInt(s);
    if !protocol.Value? then Bad(BadProtocolVersion)
    else ReadAfterProtocol(protocol.value, s[protocol.consumed..])
  }

  function ReadAfterProtocol(protocol: i32, s: seq<byte>): FieldResult {
    var length := ReadVarInt(s);
    if !length.Value? then Bad(BadHostLength)
    else if !(0 <= length.value <= 255) then Bad(BogusHostLength(length.value))
    else ReadAfterHostLength(protocol, length.value, s[length.consumed..])
  }

  function ReadAfterHostLength(protocol: i32, n: nat, s: seq<byte>): FieldResult {
    if |s| < n + 2 then Bad(FieldsPastBuffer)
    else
      var state := ReadVarInt(s[n + 2..]);
      if !state.Value? then Bad(BadNextState)
      else Fields(protocol, NormalHost(s[..n]), 256 * (s[n] as int) + s[n + 1] as int, state.value)
  }

  function TryParse(buf: seq<byte>): (r: ParseOutcome)
    ensures r.Complete? ==> 0 < |r.handshake.rawFrame| && r.handshake.rawFrame <= buf
  {
    var v := ReadVarInt(buf);
    match v
    case Incomplete => NeedMore
    case TooBig => Malformed(BogusLengthVarInt)
    case Value(length, header) =>
      if !(0 <= length <= MAX_HANDSHAKE_FRAME_BYTES) then Malformed(BogusLength(length))
      else if |buf| - header < length then NeedMore
      else
        match ReadFields(buf[header..])
        case Bad(reason) => Malformed(reason)
        case Fields(protocol, host, port, nextState) =>
          Complete(Handshake(protocol, host, port, nextState, buf[..header + length]))
  }

  // ----- when more input can change a parse -----

  /** Reading the fields off `s` stops because `s` ends, not because of what it says. */
  predicate RunsOut(s: seq<byte>) {
    var id := ReadVarInt(s);
    id == Incomplete || (id.Value? && id.value == 0 && RunsOutAfterId(s[id.consumed..]))
  }

  predicate RunsOutAfterId(s: seq<byte>) {
    var protocol := ReadVarInt(s);
    protocol == Incomplete || (protocol.Value? && RunsOutAfterProtocol(s[protocol.consumed..]))
  }

  predicate RunsOutAfterProtocol(s: seq<byte>) {
    var length := ReadVarInt(s);
    length == Incomplete
    || (length.Value? && 0 <= length.value <= 255 && RunsOutAfterHostLength(length.value, s[length.consumed..]))
  }

  predicate RunsOutAfterHostLength(n: nat, s: seq<byte>) {
    |s| < n + 2 || ReadVarInt(s[n + 2..]) == Incomplete
  }

  lemma DropAppend(s: seq<byte>, t: seq<byte>, n: nat)
    requires n <= |s|
    ensures (s + t)[n..] == s[n..] + t
  {
  }

  lemma FieldsStable(s: seq<byte>, t: seq<byte>)
    requires !RunsOut(s)
    ensures ReadFields(s + t) == ReadFields(s)
  {
    hide ReadVarInt, WriteVarInt;
    var id := ReadVarInt(s);
    ReadVarIntStable(s, t);
    if id.Value? && id.value == 0 {
      var s1 := s[id.consumed..];
      DropAppend(s, t, id.consumed);
      ReadVarIntStable(s1, t);
      var protocol := ReadVarInt(s1);
      if protocol.Value? {
        var s2 := s1[protocol.consumed..];
        DropAppend(s1, t, protocol.consumed);
        ReadVarIntStable(s2, t);
        var length := ReadVarInt(s2);
        if length.Value? && 0 <= length.value <= 255 {
          DropAppend(s2, t, length.consumed);
          AfterHostLengthStable(protocol.value, length.value, s2[length.consumed..], t);
        }
      }
    }
  }

  lemma AfterHostLengthStable(protocol: i32, n: nat, s: seq<byte>, t: seq<byte>)
    requires !RunsOutAfterHostLength(n, s)
    ensures ReadAfterHostLength(protocol, n, s + t) == ReadAfterHostLength(protocol, n, s)
  {
    hide ReadVarInt, WriteVarInt;
    DropAppend(s, t, n + 2);
    ReadVarIntStable(s[n + 2..], t);
    assert (s + t)[..n] == s[..n];
  }

  /** A VarInt that ran out of bytes is settled by one zero byte. */
  lemma ZeroCompletes(s: seq<byte>)
    requires ReadVarInt(s) == Incomplete
    ensures ReadVarInt(s + [0]).Value?
  {
    ContinuationsAre(s, 5);
    ContinuationsMeaning(s + [0], |s|, 5);
  }

  /** Bytes that change what `ReadFields` makes of an `s` it ran out of. */
  function Unsettling(s: seq<byte>): seq<byte> {
    var id := ReadVarInt(s);
    if id.Value? then UnsettlingAfterId(s[id.consumed..]) else [0]
  }

  function UnsettlingAfterId(s: seq<byte>): seq<byte> {
    var protocol := ReadVarInt(s);
    if protocol.Value? then UnsettlingAfterProtocol(s[protocol.consumed..]) else [0]
  }

  function UnsettlingAfterProtocol(s: seq<byte>): seq<byte> {
    var length := ReadVarInt(s);
    if length.Value? then Zeros(length.value + 2 - (|s| - length.consumed)) + [0] else [0]
  }

  function Zeros(n: int): (z: seq<byte>)
    ensures |z| == (if n < 0 then 0 else n) && forall k :: 0 <= k < |z| ==> z[k] == 0
  {
    if n <= 0 then [] else [0] + Zeros(n - 1)
  }

  lemma FieldsUnstable(s: seq<byte>)
    requires RunsOut(s)
    ensures ReadFields(s + Unsettling(s)) != ReadFields(s)
  {
    hide ReadVarInt, ReadAfterId, RunsOutAfterId, UnsettlingAfterId;
    var id := ReadVarInt(s);
    if id == Incomplete {
      ZeroCompletes(s);
      assert ReadFields(s + [0]) != Bad(BadPacketId) by { NeverBadPacketId(s + [0]); }
    } else {
      var t := Unsettling(s);
      ReadVarIntStable(s, t);
      DropAppend(s, t, id.consumed);
      UnstableAfterId(s[id.consumed..]);
    }
  }

  lemma NeverBadPacketId(s: seq<byte>)
    requires ReadVarInt(s).Value?
    ensures ReadFields(s) != Bad(BadPacketId)
  {
  }

  lemma UnstableAfterId(s: seq<byte>)
    requires RunsOutAfterId(s)
    ensures ReadAfterId(s + UnsettlingAfterId(s)) != ReadAfterId(s)
  {
    hide ReadVarInt, RunsOutAfterProtocol, UnsettlingAfterProtocol;
    var protocol := ReadVarInt(s);
    if protocol == Incomplete {
      ZeroCompletes(s);
    } else {
      hide ReadAfterProtocol;
      var t := UnsettlingAfterId(s);
      ReadVarIntStable(s, t);
      DropAppend(s, t, protocol.consumed);
      UnstableAfterProtocol(protocol.value, s[protocol.consumed..]);
    }
  }

  lemma UnstableAfterProtocol(protocol: i32, s: seq<byte>)
    requires RunsOutAfterProtocol(s)
    ensures ReadAfterProtocol(protocol, s + UnsettlingAfterProtocol(s)) != ReadAfterProtocol(protocol, s)
  {
    hide ReadVarInt, NormalHost;
    var length := ReadVarInt(s);
    if length == Incomplete {
      ZeroCompletes(s);
    } else {
      var t := UnsettlingAfterProtocol(s);
      var n, s' := length.value, s[length.consumed..];
      ReadVarIntStable(s, t);
      DropAppend(s, t, length.consumed);
      if |s'| < n + 2 {
        assert |s' + t| >= n + 2;
      } else {
        assert t == [0];
        ZeroCompletes(s'[n + 2..]);
        DropAppend(s', t, n + 2);
      }
    }
  }

  /** `buf` starts with a length-prefixed frame that has fully arrived. */
  predicate FrameArrived(buf: seq<byte>) {
    var v := ReadVarInt(buf);
    v.Value? && 0 <= v.value <= MAX_HANDSHAKE_FRAME_BYTES && v.consumed + v.value <= |buf|
  }

  function FrameEnd(buf: seq<byte>): (n: nat)
    requires FrameArrived(buf)
    ensures n <= |buf| && n <= MAX_HANDSHAKE_FRAME_BYTES + 5
  {
    ReadVarInt(buf).consumed + ReadVarInt(buf).value
  }

  /** The fields are read without leaving the declared frame, or are wrong inside it. */
  predicate Confined(buf: seq<byte>)
    requires FrameArrived(buf)
  {
    !RunsOut(buf[ReadVarInt(buf).consumed..FrameEnd(buf)])
  }

  lemma FrameOfExtension(frame: seq<byte>, t: seq<byte>)
    requires FrameArrived(frame) && FrameEnd(frame) == |frame|
    ensures FrameArrived(frame + t) && FrameEnd(frame + t) == |frame| && ReadVarInt(frame + t) == ReadVarInt(frame)
    ensures var h := ReadVarInt(frame).consumed;
            && (frame + t)[..|frame|] == frame
            && (frame + t)[h..] == frame[h..] + t
            && (frame + t)[h..|frame|] == frame[h..]
  {
    hide ReadVarInt, WriteVarInt;
    ReadVarIntStable(frame, t);
    DropAppend(frame, t, ReadVarInt(frame).consumed);
  }

  /**
   * Exactly when a fully received frame parses the same whatever arrives behind it: the parser
   * does not confine fields to the declared frame, so a frame that runs out can be completed by
   * bytes of the next packet.
   */
  lemma ParseStableIffConfined(frame: seq<byte>)
    requires FrameArrived(frame) && FrameEnd(frame) == |frame|
    ensures (forall t :: TryParse(frame + t) == TryParse(frame)) <==> Confined(frame)
  {
    hide ReadVarInt, ReadFields, RunsOut, Unsettling;
    var body := frame[ReadVarInt(frame).consumed..];
    assert frame[ReadVarInt(frame).consumed..FrameEnd(frame)] == body;
    if Confined(frame) {
      forall t ensures TryParse(frame + t) == TryParse(frame) {
        FrameOfExtension(frame, t);
        FieldsStable(body, t);
      }
    } else {
      var t := Unsettling(body);
      FrameOfExtension(frame, t);
      FieldsUnstable(body);
      assert TryParse(frame + t) != TryParse(frame);
    }
  }

  // ----- encoding -----

  function PortBytes(port: u16): seq<byte> {
    [port / 256, port % 256]
  }

  function HandshakePayload(protocol: i32, host: seq<byte>, port: u16, nextState: i32): seq<byte> {
    WriteVarInt(0) + WriteVarInt(protocol) + WriteString(host) + PortBytes(port) + WriteVarInt(nextState)
  }

  function EncodeHandshake(protocol: i32, host: seq<byte>, port: u16, nextState: i32): seq<byte> {
    LengthPrefix(HandshakePayload(protocol, host, port, nextState))
  }

  lemma FieldsAfterHostLength(protocol: i32, host: seq<byte>, port: u16, nextState: i32, rest: seq<byte>)
    ensures ReadAfterHostLength(protocol, |host|, host + PortBytes(port) + WriteVarInt(nextState) + rest)
            == Fields(protocol, NormalHost(host), port, nextState)
  {
    hide ReadVarInt, WriteVarInt, NormalHost;
    var s := host + PortBytes(port) + WriteVarInt(nextState) + rest;
    VarIntRoundTrip(nextState, rest);
    assert s[..|host|] == host && s[|host| + 2..] == WriteVarInt(nextState) + rest;
    assert s[|host|] == PortBytes(port)[0] && s[|host| + 1] == PortBytes(port)[1];
  }

  lemma FieldsOfPayload(protocol: i32, host: seq<byte>, port: u16, nextState: i32, rest: seq<byte>)
    requires |host| <= 255
    ensures var s := HandshakePayload(protocol, host, port, nextState) + rest;
            ReadFields(s) == Fields(protocol, NormalHost(host), port, nextState)
  {
    hide ReadVarInt, WriteVarInt, NormalHost, ReadAfterHostLength;
    var s3 := host + PortBytes(port) + WriteVarInt(nextState) + rest;
    var s2 := WriteVarInt(|host|) + s3;
    var s1 := WriteVarInt(protocol) + s2;
    assert HandshakePayload(protocol, host, port, nextState) + rest == WriteVarInt(0) + s1;
    VarIntRoundTrip(0, s1);
    VarIntRoundTrip(protocol, s2);
    VarIntRoundTrip(|host|, s3);
    FieldsAfterHostLength(protocol, host, port, nextState, rest);
  }

  lemma PayloadSize(protocol: i32, host: seq<byte>, port: u16, nextState: i32)
    requires |host| <= 255
    ensures |HandshakePayload(protocol, host, port, nextState)| <= 277
  {
    hide ReadVarInt, WriteVarInt;
    VarIntRoundTrip(0, []);
    VarIntRoundTrip(protocol, []);
    VarIntRoundTrip(|host|, []);
    VarIntRoundTrip(nextState, []);
  }

  /**
   * Parsing undoes encoding for every protocol number, port, state and host of up to 255 bytes,
   * whatever follows; the frame kept for forwarding is the encoded one.
   */
  lemma HandshakeRoundTrip(protocol: i32, host: seq<byte>, port: u16, nextState: i32, rest: seq<byte>)
    requires |host| <= 255
    ensures var frame := EncodeHandshake(protocol, host, port, nextState);
            TryParse(frame + rest) == Complete(Handshake(protocol, NormalHost(host), port, nextState, frame))
  {
    hide ReadVarInt, WriteVarInt, ReadFields, HandshakePayload, NormalHost;
    var payload := HandshakePayload(protocol, host, port, nextState);
    var frame := EncodeHandshake(protocol, host, port, nextState);
    PayloadSize(protocol, host, port, nextState);
    VarIntRoundTrip(|payload|, payload + rest);
    var w := WriteVarInt(|payload|);
    assert frame + rest == w + (payload + rest);
    assert (frame + rest)[|w|..] == payload + rest;
    assert (frame + rest)[..|frame|] == frame;
    FieldsOfPayload(protocol, host, port, nextState, rest);
  }

  /** A packet laid out like a handshake: any id, a host of any length, and anything behind the next state. */
  function LaidOut(id: i32, protocol: i32, host: seq<byte>, port: u16, nextState: i32, more: seq<byte>): seq<byte> {
    WriteVarInt(id) + (WriteVarInt(protocol) + (WriteString(host) + ([port / 256, port % 256] + WriteVarInt(nextState) + more)))
  }

  lemma FieldsOfLaidOut(id: i32, protocol: i32, host: seq<byte>, port: u16, nextState: i32, more: seq<byte>)
    requires |host| < 0x8000_0000
    ensures ReadFields(LaidOut(id, protocol, host, port, nextState, more)) ==
            if id != 0 then Bad(WrongPacketId(id))
            else if |host| > 255 then Bad(BogusHostLength(|host|))
            else Fields(protocol, NormalHost(host), port, nextState)
  {
    hide ReadVarInt, WriteVarInt, NormalHost, ReadAfterHostLength;
    var s3 := host + PortBytes(port) + WriteVarInt(nextState) + more;
    var s2 := WriteVarInt(|host|) + s3;
    var s1 := WriteVarInt(protocol) + s2;
    assert s2 == WriteString(host) + ([port / 256, port % 256] + WriteVarInt(nextState) + more);
    assert LaidOut(id, protocol, host, port, nextState, more) == WriteVarInt(id) + s1;
    VarIntRoundTrip(id, s1);
    VarIntRoundTrip(protocol, s2);
    VarIntRoundTrip(|host|, s3);
    FieldsAfterHostLength(protocol, host, port, nextState, more);
  }

  /**
   * What becomes of every packet laid out like a handshake: a frame of more than 512 bytes,
   * another packet id and a host of more than 255 bytes are refused, in that order; the port is
   * read high byte first, and bytes behind the next state are kept for forwarding only.
   */
  lemma LaidOutHandshake(id: i32, protocol: i32, host: seq<byte>, port: u16, nextState: i32, more: seq<byte>, rest: seq<byte>)
    requires |LaidOut(id, protocol, host, port, nextState, more)| < 0x8000_0000
    ensures var payload := LaidOut(id, protocol, host, port, nextState, more);
            TryParse(LengthPrefix(payload) + rest) ==
            if |payload| > 512 then Malformed(BogusLength(|payload|))
            else if id != 0 then Malformed(WrongPacketId(id))
            else if |host| > 255 then Malformed(BogusHostLength(|host|))
            else Complete(Handshake(protocol, NormalHost(host), port, nextState, LengthPrefix(payload)))
  {
    hide ReadVarInt, WriteVarInt, ReadFields, NormalHost;
    var payload := LaidOut(id, protocol, host, port, nextState, more);
    var w := WriteVarInt(|payload|);
    VarIntRoundTrip(|payload|, payload + rest);
    assert LengthPrefix(payload) + rest == w + (payload + rest);
    assert (w + (payload + rest))[|w|..] == payload + rest;
    assert (w + (payload + rest))[..|w| + |payload|] == LengthPrefix(payload);
    assert payload + rest == LaidOut(id, protocol, host, port, nextState, more + rest);
    FieldsOfLaidOut(id, protocol, host, port, nextState, more + rest);
  }

  /** Every strict prefix of an encoded handshake asks for more input. */
  lemma HandshakePrefixNeedsMore(protocol: i32, host: seq<byte>, port: u16, nextState: i32, k: nat)
    requires |host| <= 255
    requires k < |EncodeHandshake(protocol, host, port, nextState)|
    ensures TryParse(EncodeHandshake(protocol, host, port, nextState)[..k]) == NeedMore
  {
    hide ReadVarInt, WriteVarInt, ReadFields, HandshakePayload;
    var payload := HandshakePayload(protocol, host, port, nextState);
    var frame := EncodeHandshake(protocol, host, port, nextState);
    PayloadSize(protocol, host, port, nextState);
    VarIntRoundTrip(|payload|, payload);
    var w := WriteVarInt(|payload|);
    if k < |w| {
      ReadVarIntPrefix(frame, k);
    } else {
      VarIntRoundTrip(|payload|, payload[..k - |w|]);
      assert frame[..k] == w + payload[..k - |w|];
    }
  }

  /** An encoded handshake is also confined, so incremental parsing cannot change its meaning. */
  lemma EncodedIsConfined(protocol: i32, host: seq<byte>, port: u16, nextState: i32)
    requires |host| <= 255
    ensures var frame := EncodeHandshake(protocol, host, port, nextState);
            FrameArrived(frame) && FrameEnd(frame) == |frame| && Confined(frame)
  {
    hide ReadVarInt, WriteVarInt, HandshakePayload, TryParse, NormalHost, Confined;
    var payload := HandshakePayload(protocol, host, port, nextState);
    var frame := EncodeHandshake(protocol, host, port, nextState);
    PayloadSize(protocol, host, port, nextState);
    VarIntRoundTrip(|payload|, payload);
    forall t ensures TryParse(frame + t) == TryParse(frame) {
      HandshakeRoundTrip(protocol, host, port, nextState, t);
      HandshakeRoundTrip(protocol, host, port, nextState, []);
      assert frame + [] == frame;
    }
    ParseStableIffConfined(frame);
  }

  lemma OneByteVarInt(b: byte, rest: seq<byte>)
    requires b < 128
    ensures ReadVarInt([b] + rest) == Value(b, 1)
  {
    VarIntRoundTrip(b, rest);
  }

  /**
   * Frames that declare only their packet id byte: malformed alone, yet completed by the
   * bytes that arrive behind them, and then only the two declared bytes are consumed.
   */
  lemma UnconfinedFamily(protocol: i32, host: seq<byte>, port: u16, nextState: i32)
    requires |host| <= 255
    ensures TryParse([1, 0]) == Malformed(BadProtocolVersion)
    ensures TryParse([1] + HandshakePayload(protocol, host, port, nextState))
            == Complete(Handshake(protocol, NormalHost(host), port, nextState, [1, 0]))
  {
    var payload := HandshakePayload(protocol, host, port, nextState);
    FieldsOfPayload(protocol, host, port, nextState, []);
    assert payload + [] == payload;
    assert payload[0] == 0;
    OneByteVarInt(1, payload);
    IdAloneIsMalformed();
    hide ReadVarInt, HandshakePayload, NormalHost, ReadFields, WriteVarInt;
    assert ([1] + payload)[1..] == payload;
    assert ([1] + payload)[..2] == [1, 0];
  }

  lemma IdAloneIsMalformed()
    ensures TryParse([1, 0]) == Malformed(BadProtocolVersion)
  {
  }

  // ----- Login Start -----

  datatype LoginStart = LoginStart(name: seq<byte>, uuid: Option<seq<byte>>)

  function ParseLoginStart(buf: seq<byte>): Option<LoginStart> {
    var v := ReadVarInt(buf);
    if !v.Value? || v.value < 0 || |buf| - v.consumed < v.value then None
    else ParseLoginPayload(buf[v.consumed..], v.value)
  }

  /** `s` starts at the payload, of which `length` bytes belong to the frame. */
  function ParseLoginPayload(s: seq<byte>, length: nat): Option<LoginStart> {
    var id := ReadVarInt(s);
    if !id.Value? || id.value != 0 then None else ParseLoginFields(s[id.consumed..], length - id.consumed)
  }

  function ParseLoginFields(s: seq<byte>, length: int): Option<LoginStart> {
    var name := ReadString(s, 16);
    if !name.Text? || length < name.size then None
    else if length - name.size != 16 then Some(LoginStart(name.bytes, None))
    else if |s| < length then None
    else Some(LoginStart(name.bytes, Some(s[name.size..length])))
  }

  function UuidBytes(uuid: Option<seq<byte>>): seq<byte> {
    if uuid.Some? then uuid.value else []
  }

  function EncodeLoginStart(login: LoginStart): seq<byte> {
    LengthPrefix(WriteVarInt(0) + WriteString(login.name) + UuidBytes(login.uuid))
  }

  /** Login Start packets with a name of up to 64 bytes come back as they went in. */
  lemma LoginStartRoundTrip(login: LoginStart, rest: seq<byte>)
    requires |login.name| <= 64 && (login.uuid.Some? ==> |login.uuid.value| == 16)
    ensures ParseLoginStart(EncodeLoginStart(login) + rest) == Some(login)
  {
    hide ReadVarInt, WriteVarInt, ReadString, WriteString, ParseLoginFields;
    var fields := WriteString(login.name) + UuidBytes(login.uuid);
    var payload := WriteVarInt(0) + fields;
    assert payload == WriteVarInt(0) + WriteString(login.name) + UuidBytes(login.uuid);
    LoginFieldsRoundTrip(login, rest);
    VarIntRoundTrip(0, fields + rest);
    VarIntRoundTrip(|payload|, payload + rest);
    assert EncodeLoginStart(login) + rest == WriteVarInt(|payload|) + (payload + rest);
    assert payload + rest == WriteVarInt(0) + (fields + rest);
  }

  lemma LoginFieldsRoundTrip(login: LoginStart, rest: seq<byte>)
    requires |login.name| <= 64 && (login.uuid.Some? ==> |login.uuid.value| == 16)
    ensures var fields := WriteString(login.name) + UuidBytes(login.uuid);
            |fields| <= 85 && ParseLoginFields(fields + rest, |fields|) == Some(login)
  {
    hide ReadString, WriteVarInt;
    var u := UuidBytes(login.uuid);
    var name := WriteString(login.name);
    VarIntRoundTrip(|login.name|, []);
    StringRoundTrip(login.name, 16, u + rest);
    assert name + u + rest == name + (u + rest);
    assert (name + u + rest)[|name|..|name| + |u|] == u;
  }

  /**
   * What becomes of every packet laid out like a Login Start: another id and a name of more than
   * 64 bytes are refused; what follows the name is the UUID if and only if it has 16 bytes.
   */
  lemma LaidOutLoginStart(id: i32, name: seq<byte>, more: seq<byte>, rest: seq<byte>)
    requires |WriteVarInt(id) + (WriteString(name) + more)| < 0x8000_0000
    ensures ParseLoginStart(LengthPrefix(WriteVarInt(id) + (WriteString(name) + more)) + rest) ==
            if id != 0 || |name| > 64 then None else Some(LoginStart(name, if |more| == 16 then Some(more) else None))
  {
    hide ReadVarInt, WriteVarInt, ReadString, ParseLoginFields;
    var fields := WriteString(name) + more;
    var payload := WriteVarInt(id) + fields;
    VarIntRoundTrip(id, fields + rest);
    VarIntRoundTrip(|payload|, payload + rest);
    assert LengthPrefix(payload) + rest == WriteVarInt(|payload|) + (payload + rest);
    assert payload + rest == WriteVarInt(id) + (fields + rest);
    LoginFieldsOf(name, more, rest);
  }

  lemma LoginFieldsOf(name: seq<byte>, more: seq<byte>, rest: seq<byte>)
    requires |name| < 0x8000_0000
    ensures var fields := WriteString(name) + more;
            ParseLoginFields(fields + rest, |fields|) ==
            if |name| > 64 then None else Some(LoginStart(name, if |more| == 16 then Some(more) else None))
  {
    hide ReadVarInt, WriteVarInt;
    var text := WriteString(name);
    assert text + more + rest == text + (more + rest);
    if |name| > 64 {
      VarIntRoundTrip(|name|, name + (more + rest));
      assert text + (more + rest) == WriteVarInt(|name|) + (name + (more + rest));
    } else {
      StringRoundTrip(name, 16, more + rest);
      hide ReadString;
      assert (text + more + rest)[|text|..|text| + |more|] == more;
    }
  }
}
