/** Packet framing under a negotiated compression threshold, `src/protocol/compression.rs`. */
module Compression {
  import opened Bytes
  import opened VarInt

  /** zlib (RFC 1950) as a pair of foreign routines; `inflate` is told the size it may produce. */
  datatype Zlib = Zlib(deflate: seq<byte> -> seq<byte>, inflate: (seq<byte>, nat) -> Option<seq<byte>>)

  /** The only thing the framing relies on: inflating a deflated buffer to its own size restores it. */
  ghost predicate Lawful(z: Zlib) {
    forall x: seq<byte> :: z.inflate(z.deflate(x), |x|) == Some(x)
  }

  /** A pair that obeys the law: a marker byte in front, and no input without it is inflated. */
  const STORED := Zlib(
    (x: seq<byte>) => [0x78] + x,
    (s: seq<byte>, n: nat) => if s != [] && s[0] == 0x78 then Some(s[1..]) else None)

  lemma StoredIsLawful()
    ensures Lawful(STORED)
  {
  }

  datatype FrameError = Truncated | DataLengthOutOfRange(length: i32) | CompressedPayloadOutOfRange(size: nat) | InflateFailed

  datatype PacketResult = Packet(id: i32, fields: seq<byte>) | BadFrame(error: FrameError)

  /** What follows the outer packet-length VarInt of a framed packet. */
  function FrameBody(z: Zlib, payload: seq<byte>, threshold: i32): seq<byte> {
    if threshold < 0 then payload
    else if AsI32(|payload|) < threshold then WriteVarInt(0) + payload
    else WriteVarInt(AsI32(|payload|)) + z.deflate(payload)
  }

  function Frame(z: Zlib, payload: seq<byte>, threshold: i32): seq<byte> {
    LengthPrefix(FrameBody(z, payload, threshold))
  }

  /** Packet id and fields at the front of an uncompressed payload. */
  function SplitPacket(payload: seq<byte>): PacketResult {
    var v := ReadVarInt(payload);
    if v.Value? then Packet(v.value, payload[v.consumed..]) else BadFrame(Truncated)
  }

  function ReadCompressedFrame(z: Zlib, body: seq<byte>, threshold: i32): PacketResult {
    if threshold < 0 then SplitPacket(body)
    else
      var v := ReadVarInt(body);
      if !v.Value? then BadFrame(Truncated)
      else
        var rest := body[v.consumed..];
        if v.value == 0 then SplitPacket(rest)
        else if v.value < 0 || v.value > MAX_PACKET_BYTES then BadFrame(DataLengthOutOfRange(v.value))
        else if |rest| > MAX_PACKET_BYTES then BadFrame(CompressedPayloadOutOfRange(|rest|))
        else
          match z.inflate(rest, v.value)
          case None => BadFrame(InflateFailed)
          case Some(inflated) => SplitPacket(inflated)
  }

  function Payload(id: i32, fields: seq<byte>): seq<byte> {
    WriteVarInt(id) + fields
  }

  /** Neither the packet nor its framed body is larger than the protocol allows. */
  predicate Fits(z: Zlib, payload: seq<byte>, threshold: i32) {
    |payload| <= 2_097_151 && |FrameBody(z, payload, threshold)| <= 2_097_151
  }

  lemma SplitPacketInverse(id: i32, fields: seq<byte>)
    ensures SplitPacket(Payload(id, fields)) == Packet(id, fields)
  {
    hide ReadVarInt, WriteVarInt;
    VarIntRoundTrip(id, fields);
  }

  /** Whatever the threshold, a reader using the same one recovers the packet a writer framed. */
  lemma FrameBodyRoundTrip(z: Zlib, id: i32, fields: seq<byte>, threshold: i32)
    requires Lawful(z) && Fits(z, Payload(id, fields), threshold)
    ensures ReadCompressedFrame(z, FrameBody(z, Payload(id, fields), threshold), threshold) == Packet(id, fields)
  {
    hide ReadVarInt, WriteVarInt, SplitPacket;
    var payload := Payload(id, fields);
    SplitPacketInverse(id, fields);
    if threshold >= 0 {
      var small := AsI32(|payload|) < threshold;
      var marker := if small then 0 else |payload|;
      var data := if small then payload else z.deflate(payload);
      VarIntRoundTrip(marker, data);
      assert (WriteVarInt(marker) + data)[|WriteVarInt(marker)|..] == data;
    }
  }

  /**
   * Under a threshold of zero or more, exactly the packets that reach it are compressed, and
   * announced with their size; the others are announced with 0 and follow as they are.
   */
  lemma CompressedIffLarge(z: Zlib, payload: seq<byte>, threshold: i32)
    requires threshold >= 0 && |payload| <= 2_097_151
    ensures var body := FrameBody(z, payload, threshold);
            var v := ReadVarInt(body);
            && v.Value? && v.value == (if |payload| >= threshold then |payload| else 0)
            && body[v.consumed..] == if |payload| >= threshold then z.deflate(payload) else payload
  {
    hide ReadVarInt, WriteVarInt;
    VarIntRoundTrip(0, payload);
    VarIntRoundTrip(|payload|, z.deflate(payload));
  }

  /**
   * A compressed frame that announces more than 2,097,151 bytes, or fewer than none, is refused
   * before anything is inflated, and so is one whose compressed part is longer than that.
   */
  lemma OversizedIsRefused(z: Zlib, length: i32, data: seq<byte>, threshold: i32)
    requires threshold >= 0 && length != 0
    ensures var r := ReadCompressedFrame(z, WriteVarInt(length) + data, threshold);
            && (length < 0 || length > 2_097_151 <==> r == BadFrame(DataLengthOutOfRange(length)))
            && (0 < length <= 2_097_151 < |data| ==> r == BadFrame(CompressedPayloadOutOfRange(|data|)))
  {
    hide ReadVarInt, WriteVarInt;
    VarIntRoundTrip(length, data);
    assert (WriteVarInt(length) + data)[|WriteVarInt(length)|..] == data;
  }
}
