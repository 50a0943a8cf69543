/**
 * The client at the far end of a login (`src/net/server.rs`): it switches its framing when Set
 * Compression goes by, and has to decode a packet that the proxy injects behind the backend's.
 */
module LoginClients {
  import opened Bytes
  import opened VarInt
  import opened Compression
  import opened BufferedStreams
  import opened LoginSniffer

  /** The threshold the client decodes with, and whether it is still logging in. */
  datatype Client = Client(threshold: i32, login: bool)

  const JOINING := Client(-1, true)

  function DecodeFrame(z: Zlib, frame: seq<byte>, threshold: i32): PacketResult {
    var v := ReadVarInt(frame);
    ReadCompressedFrame(z, frame[if v.Value? then v.consumed else 0..], threshold)
  }

  function ClientAfter(p: PacketResult, c: Client): Client {
    if !c.login || !p.Packet? then c
    else if p.id == SET_COMPRESSION && ReadVarInt(p.fields).Value? then c.(threshold := ReadVarInt(p.fields).value)
    else if p.id == LOGIN_SUCCESS then c.(login := false)
    else c
  }

  /** The packets of the whole frames of `s`. */
  function Decode(z: Zlib, s: seq<byte>, c: Client): seq<PacketResult>
    decreases |s|
  {
    var outcome := NextFrame(s, MAX_PACKET_BYTES);
    if !outcome.FrameOk? then []
    else
      var p := DecodeFrame(z, outcome.frame, c.threshold);
      [p] + Decode(z, s[|outcome.frame|..], ClientAfter(p, c))
  }

  /** Where decoding them leaves the client. */
  function ClientBehind(z: Zlib, s: seq<byte>, c: Client): Client
    decreases |s|
  {
    var outcome := NextFrame(s, MAX_PACKET_BYTES);
    if !outcome.FrameOk? then c
    else ClientBehind(z, s[|outcome.frame|..], ClientAfter(DecodeFrame(z, outcome.frame, c.threshold), c))
  }

  /** `s` ends at a frame boundary: it splits into whole frames with nothing over. */
  predicate AtBoundary(s: seq<byte>)
    decreases |s|
  {
    s == [] || (var outcome := NextFrame(s, MAX_PACKET_BYTES);
                outcome.FrameOk? && AtBoundary(s[|outcome.frame|..]))
  }

  lemma NothingInEmpty(z: Zlib, c: Client)
    ensures Decode(z, [], c) == [] && ClientBehind(z, [], c) == c
  {
  }

  lemma DecodeStep(z: Zlib, s: seq<byte>, c: Client)
    requires NextFrame(s, MAX_PACKET_BYTES).FrameOk?
    ensures var frame := NextFrame(s, MAX_PACKET_BYTES).frame;
            var p := DecodeFrame(z, frame, c.threshold);
            && Decode(z, s, c) == [p] + Decode(z, s[|frame|..], ClientAfter(p, c))
            && ClientBehind(z, s, c) == ClientBehind(z, s[|frame|..], ClientAfter(p, c))
  {
    hide NextFrame, DecodeFrame, ClientAfter;
  }

  /** What follows a frame boundary is decoded from where the frames before it leave the client. */
  lemma {:induction false} DecodeBehind(z: Zlib, s: seq<byte>, more: seq<byte>, c: Client)
    requires AtBoundary(s)
    ensures Decode(z, s + more, c) == Decode(z, s, c) + Decode(z, more, ClientBehind(z, s, c))
    decreases |s|
  {
    hide DecodeFrame, ClientAfter, Decode, ClientBehind, NextFrame;
    if s == [] {
      NothingInEmpty(z, c);
      assert s + more == more;
    } else {
      var head := NextFrame(s, MAX_PACKET_BYTES).frame;
      var p := DecodeFrame(z, head, c.threshold);
      NextFrameStable(s, more, MAX_PACKET_BYTES);
      assert (s + more)[|head|..] == s[|head|..] + more;
      DecodeStep(z, s, c);
      DecodeStep(z, s + more, c);
      DecodeBehind(z, s[|head|..], more, ClientAfter(p, c));
    }
  }

  /** A single frame, whatever threshold it was framed for. */
  lemma OneFrame(z: Zlib, payload: seq<byte>, framedFor: i32, c: Client)
    requires Fits(z, payload, framedFor)
    ensures Decode(z, Frame(z, payload, framedFor), c) == [ReadCompressedFrame(z, FrameBody(z, payload, framedFor), c.threshold)]
  {
    hide ReadVarInt, ReadCompressedFrame, ClientAfter;
    var body := FrameBody(z, payload, framedFor);
    FitsMeans(z, payload, framedFor);
    hide FrameBody, Fits;
    var frame := Frame(z, payload, framedFor);
    NextFrameOfPrefixed(body, [], MAX_PACKET_BYTES);
    assert frame + [] == frame && frame[|frame|..] == [];
    var p := DecodeFrame(z, frame, c.threshold);
    NothingInEmpty(z, ClientAfter(p, c));
    hide NextFrame;
    assert Decode(z, frame, c) == [p] + [];
  }

  /**
   * A packet framed for the client's own threshold and written at a frame boundary is decoded
   * as itself, behind everything that came before.
   */
  lemma InjectedPacketDecodes(z: Zlib, s: seq<byte>, id: i32, fields: seq<byte>, c: Client)
    requires Lawful(z) && AtBoundary(s) && Fits(z, Payload(id, fields), ClientBehind(z, s, c).threshold)
    ensures Decode(z, s + Frame(z, Payload(id, fields), ClientBehind(z, s, c).threshold), c)
            == Decode(z, s, c) + [Packet(id, fields)]
  {
    hide Fits, Frame, FrameBody, ReadCompressedFrame, Decode, ClientBehind, AtBoundary, Payload;
    var t := ClientBehind(z, s, c).threshold;
    DecodeBehind(z, s, Frame(z, Payload(id, fields), t), c);
    OneFrame(z, Payload(id, fields), t, ClientBehind(z, s, c));
    FrameBodyRoundTrip(z, id, fields, t);
  }

  /**
   * What a client makes of a packet framed without compression: under a threshold, the packet's
   * id is taken for the size of the fields inflated.
   */
  lemma MisframedPacket(z: Zlib, s: seq<byte>, id: i32, fields: seq<byte>, c: Client)
    requires Lawful(z) && AtBoundary(s) && Fits(z, Payload(id, fields), -1) && 0 < id <= MAX_PACKET_BYTES
    ensures Decode(z, s + Frame(z, Payload(id, fields), -1), c) == Decode(z, s, c) +
            [if ClientBehind(z, s, c).threshold < 0 then Packet(id, fields)
             else if z.inflate(fields, id).None? then BadFrame(InflateFailed)
             else SplitPacket(z.inflate(fields, id).value)]
  {
    hide Frame, Decode, ClientBehind, AtBoundary, SplitPacket, ReadVarInt, WriteVarInt;
    DecodeBehind(z, s, Frame(z, Payload(id, fields), -1), c);
    OneFrame(z, Payload(id, fields), -1, ClientBehind(z, s, c));
    SplitPacketInverse(id, fields);
    VarIntRoundTrip(id, fields);
    assert Payload(id, fields)[|WriteVarInt(id)|..] == fields;
  }

  /** Written behind the length byte of a frame that needs more bytes than it has, a packet is swallowed by that frame. */
  lemma SwallowedPacket(z: Zlib, s: seq<byte>, length: byte, packet: seq<byte>, c: Client)
    requires AtBoundary(s) && length < 128 && |packet| < length
    ensures Decode(z, s + ([length] + packet), c) == Decode(z, s, c)
  {
    hide AtBoundary, ClientBehind;
    DecodeBehind(z, s, [length] + packet, c);
    VarIntRoundTrip(length, packet);
    assert WriteVarInt(length) == [length];
    assert NextFrame([length] + packet, MAX_PACKET_BYTES) == FrameEof;
  }

  // ----- sniffer and client -----

  lemma {:induction false} PlayKeepsThreshold(z: Zlib, s: seq<byte>, c: Client)
    requires !c.login
    ensures ClientBehind(z, s, c) == c
    decreases |s|
  {
    hide NextFrame, DecodeFrame;
    var outcome := NextFrame(s, MAX_PACKET_BYTES);
    if outcome.FrameOk? {
      PlayKeepsThreshold(z, s[|outcome.frame|..], c);
    }
  }

  lemma ReactIsClientStep(z: Zlib, frame: seq<byte>, threshold: i32)
    requires ReadVarInt(frame).Value?
    ensures var c := ClientAfter(DecodeFrame(z, frame, threshold), Client(threshold, true));
            match React(z, frame, threshold)
            case Continue(t) => c == Client(t, true)
            case Stop(Learned(t, encrypted)) => !encrypted ==> c == Client(t, false)
            case Stop(GaveUp) => true
  {
    hide ReadVarInt, ReadCompressedFrame;
  }

  lemma FrameHasLength(s: seq<byte>)
    requires NextFrame(s, MAX_PACKET_BYTES).FrameOk?
    ensures ReadVarInt(NextFrame(s, MAX_PACKET_BYTES).frame).Value?
  {
    NextFrameWithin(s, NextFrame(s, MAX_PACKET_BYTES).frame, MAX_PACKET_BYTES);
  }

  /** The threshold of a plaintext verdict is the one the client has behind the sniffed stream. */
  lemma {:induction false} SnifferKnowsTheClient(z: Zlib, s: seq<byte>, threshold: i32)
    requires Sniff(z, threshold, s).Learned? && !Sniff(z, threshold, s).encrypted
    ensures ClientBehind(z, s, Client(threshold, true)) == Client(Sniff(z, threshold, s).threshold, false)
    decreases |s|
  {
    FrameHasLength(s);
    hide React, NextFrame, DecodeFrame, ClientAfter, ReadVarInt;
    var frame := NextFrame(s, MAX_PACKET_BYTES).frame;
    ReactIsClientStep(z, frame, threshold);
    match React(z, frame, threshold)
    case Continue(t) => SnifferKnowsTheClient(z, s[|frame|..], t);
    case Stop(v) => PlayKeepsThreshold(z, s[|frame|..], Client(v.threshold, false));
  }
}
