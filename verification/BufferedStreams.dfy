/**
 * The per-connection read buffer of `src/net/buffered_stream.rs`. The network is the finite byte
 * sequence a peer sends before closing, delivered in chunks of any size.
 */
module BufferedStreams {
  import opened Bytes
  import opened VarInt
  import opened Handshakes

  const READ_CHUNK := 4096
  const HANDSHAKE_LIMIT := 1024

  // ----- what a read yields, as a function of the unread stream alone -----

  datatype FrameOutcome = FrameOk(frame: seq<byte>) | FrameOutOfRange(length: i32) | FrameEof

  function NextFrame(s: seq<byte>, maxLen: i32): (r: FrameOutcome)
    ensures r.FrameOk? ==> 0 < |r.frame| && r.frame <= s
  {
    var v := ReadVarInt(s);
    if !v.Value? then FrameEof
    else if !(0 <= v.value <= maxLen) then FrameOutOfRange(v.value)
    else if |s| < v.consumed + v.value then FrameEof
    else FrameOk(s[..v.consumed + v.value])
  }

  /** Once the bytes at hand settle a frame, later bytes cannot change it. */
  lemma NextFrameStable(s: seq<byte>, t: seq<byte>, maxLen: i32)
    requires NextFrame(s, maxLen) != FrameEof
    ensures NextFrame(s + t, maxLen) == NextFrame(s, maxLen)
  {
    hide ReadVarInt;
    ReadVarIntStable(s, t);
    if NextFrame(s, maxLen).FrameOk? {
      var n := ReadVarInt(s).consumed + ReadVarInt(s).value;
      assert (s + t)[..n] == s[..n];
    }
  }

  /** A frame is found in any part of the stream that holds it. */
  lemma NextFrameWithin(s: seq<byte>, d: seq<byte>, maxLen: i32)
    requires NextFrame(s, maxLen).FrameOk? && d <= s && |NextFrame(s, maxLen).frame| <= |d|
    ensures NextFrame(d, maxLen) == NextFrame(s, maxLen)
  {
    var n := ReadVarInt(s).consumed;
    ContinuationsAre(s, 5);
    ContinuationsMeaning(d, n - 1, 5);
    assert d[..n] == s[..n];
    assert ReadVarInt(d) == ReadVarInt(s);
    hide ReadVarInt;
    var frame := NextFrame(s, maxLen).frame;
    assert d[..|frame|] == s[..|frame|];
  }

  /** Reading a length-prefixed body off the front of a stream yields exactly that frame. */
  lemma NextFrameOfPrefixed(body: seq<byte>, rest: seq<byte>, maxLen: i32)
    requires |body| <= maxLen
    ensures NextFrame(LengthPrefix(body) + rest, maxLen) == FrameOk(LengthPrefix(body))
    ensures ReadVarInt(LengthPrefix(body)).Value?
    ensures LengthPrefix(body)[ReadVarInt(LengthPrefix(body)).consumed..] == body
  {
    hide ReadVarInt, WriteVarInt;
    var w := WriteVarInt(|body|);
    VarIntRoundTrip(|body|, body + rest);
    VarIntRoundTrip(|body|, body);
    assert LengthPrefix(body) + rest == w + (body + rest);
    assert (w + (body + rest))[..|w| + |body|] == LengthPrefix(body);
  }

  /** A frame longer than the limit is refused as soon as its length is read. */
  lemma OversizedFrame(body: seq<byte>, rest: seq<byte>, maxLen: i32)
    requires maxLen < |body| < 0x8000_0000
    ensures NextFrame(LengthPrefix(body) + rest, maxLen) == FrameOutOfRange(|body|)
    ensures NextFrame(WriteVarInt(|body|), maxLen) == FrameOutOfRange(|body|)
  {
    hide ReadVarInt, WriteVarInt;
    VarIntRoundTrip(|body|, body + rest);
    VarIntRoundTrip(|body|, []);
    assert LengthPrefix(body) + rest == WriteVarInt(|body|) + (body + rest);
    assert WriteVarInt(|body|) + [] == WriteVarInt(|body|);
  }

  datatype HandshakeOutcome = HandshakeRead(handshake: Handshake) | HandshakeEof | HandshakeMalformed(reason: Reason) | HandshakeTooLarge

  /** The outcome of parsing with every byte at hand. */
  function WholeOutcome(s: seq<byte>): HandshakeOutcome {
    match TryParse(s)
    case Complete(h) => HandshakeRead(h)
    case Malformed(reason) => HandshakeMalformed(reason)
    case NeedMore => HandshakeEof
  }

  /** How many bytes a read delivers when the network offers `offered` of `incoming`. */
  function Arriving(offered: nat, incoming: seq<byte>): (n: nat)
    ensures n <= |incoming| && n <= READ_CHUNK && (n == 0 <==> incoming == [])
  {
    if incoming == [] then 0
    else
      var most := if |incoming| < READ_CHUNK then |incoming| else READ_CHUNK;
      if offered < 1 then 1 else if offered > most then most else offered
  }

  /** `read_handshake` under a delivery schedule: the i-th network read offers `chunk(i)` bytes. */
  function HandshakeRun(unread: seq<byte>, incoming: seq<byte>, chunk: nat -> nat, i: nat): HandshakeOutcome
    decreases |incoming|
  {
    if TryParse(unread) != NeedMore then WholeOutcome(unread)
    else if incoming == [] then HandshakeEof
    else
      var n := Arriving(chunk(i), incoming);
      if |unread| + n > HANDSHAKE_LIMIT then HandshakeTooLarge
      else HandshakeRun(unread + incoming[..n], incoming[n..], chunk, i + 1)
  }

  lemma RunStep(unread: seq<byte>, incoming: seq<byte>, chunk: nat -> nat, i: nat)
    ensures HandshakeRun(unread, incoming, chunk, i) ==
            match TryParse(unread)
            case Complete(h) => HandshakeRead(h)
            case Malformed(reason) => HandshakeMalformed(reason)
            case NeedMore =>
              if incoming == [] then HandshakeEof
              else
                var n := Arriving(chunk(i), incoming);
                if |unread| + n > HANDSHAKE_LIMIT then HandshakeTooLarge
                else HandshakeRun(unread + incoming[..n], incoming[n..], chunk, i + 1)
  {
    hide TryParse;
  }

  /** If the whole stream starts with an arrived frame, that frame's fields stay inside it. */
  predicate ConfinedStream(s: seq<byte>) {
    FrameArrived(s) ==> Confined(s)
  }

  lemma PrefixOutcome(s: seq<byte>, t: seq<byte>)
    requires TryParse(s) != NeedMore && ConfinedStream(s + t)
    ensures TryParse(s + t) == TryParse(s)
  {
    hide ReadVarInt, ReadFields, RunsOut;
    ReadVarIntStable(s, t);
    if FrameArrived(s) {
      var frame, u := s[..FrameEnd(s)], s[FrameEnd(s)..];
      assert frame + u == s && frame + (u + t) == s + t;
      FrameFirst(s);
      FrameOfExtension(frame, u + t);
      assert FrameArrived(s + t);
      assert Confined(frame) by {
        var h := ReadVarInt(frame).consumed;
        assert frame[h..|frame|] == frame[h..];
      }
      ParseStableIffConfined(frame);
      assert TryParse(frame + u) == TryParse(frame) == TryParse(frame + (u + t));
    }
  }

  lemma FrameFirst(s: seq<byte>)
    requires FrameArrived(s)
    ensures var frame := s[..FrameEnd(s)];
            FrameArrived(frame) && FrameEnd(frame) == |frame| && ReadVarInt(frame) == ReadVarInt(s)
  {
    var frame := s[..FrameEnd(s)];
    var n := ReadVarInt(s).consumed;
    ContinuationsAre(s, 5);
    ContinuationsMeaning(frame, n - 1, 5);
    assert frame[..n] == s[..n];
  }

  /** A stream that still needs more is far below the size limit. */
  lemma NeedMoreIsShort(s: seq<byte>)
    requires TryParse(s) == NeedMore
    ensures |s| < MAX_HANDSHAKE_FRAME_BYTES + 5
  {
  }

  lemma {:induction false} ScheduleIrrelevant(unread: seq<byte>, incoming: seq<byte>, chunk: nat -> nat, i: nat)
    requires ConfinedStream(unread + incoming)
    ensures TryParse(unread) != NeedMore || |unread + incoming| <= 1024
            ==> HandshakeRun(unread, incoming, chunk, i) == WholeOutcome(unread + incoming)
    decreases |incoming|
  {
    hide TryParse, ConfinedStream;
    if TryParse(unread) != NeedMore {
      PrefixOutcome(unread, incoming);
    } else if incoming == [] {
      assert unread + incoming == unread;
    } else if |unread + incoming| <= HANDSHAKE_LIMIT {
      var n := Arriving(chunk(i), incoming);
      assert unread + incoming == (unread + incoming[..n]) + incoming[n..];
      ScheduleIrrelevant(unread + incoming[..n], incoming[n..], chunk, i + 1);
    }
  }

  /**
   * Exactly when the delivery schedule cannot matter to `read_handshake`: the buffered bytes
   * already settle it, or what is unread stays within 1024 bytes. Beyond that, one large read
   * trips the size check before the frame it completed is looked at.
   */
  lemma HandshakeScheduleFreeIff(unread: seq<byte>, incoming: seq<byte>)
    requires ConfinedStream(unread + incoming)
    ensures (forall chunk :: HandshakeRun(unread, incoming, chunk, 0) == WholeOutcome(unread + incoming))
            <==> (TryParse(unread) != NeedMore || |unread + incoming| <= 1024)
  {
    hide TryParse, ConfinedStream;
    forall chunk
      ensures TryParse(unread) != NeedMore || |unread + incoming| <= HANDSHAKE_LIMIT
              ==> HandshakeRun(unread, incoming, chunk, 0) == WholeOutcome(unread + incoming)
    {
      ScheduleIrrelevant(unread, incoming, chunk, 0);
    }
    if TryParse(unread) == NeedMore && |unread + incoming| > HANDSHAKE_LIMIT {
      NeedMoreIsShort(unread);
      var greedy := (_: nat) => READ_CHUNK;
      assert HandshakeRun(unread, incoming, greedy, 0) == HandshakeTooLarge;
      assert WholeOutcome(unread + incoming) != HandshakeTooLarge;
    }
  }

  /** Delivered a byte at a time, a confined stream of any length gets its whole outcome. */
  lemma {:induction false} ByteByByteIsWhole(unread: seq<byte>, incoming: seq<byte>, i: nat)
    requires ConfinedStream(unread + incoming)
    ensures HandshakeRun(unread, incoming, _ => 1, i) == WholeOutcome(unread + incoming)
    decreases |incoming|
  {
    if TryParse(unread) != NeedMore {
      PrefixOutcome(unread, incoming);
    } else if incoming == [] {
      assert unread + incoming == unread;
    } else {
      NeedMoreIsShort(unread);
      hide TryParse, ConfinedStream;
      assert unread + incoming == (unread + incoming[..1]) + incoming[1..];
      ByteByByteIsWhole(unread + incoming[..1], incoming[1..], i + 1);
    }
  }

  // ----- the stream object -----

  /** A framed read that ran to its end, or was dropped by `select!` while waiting for bytes. */
  datatype FramePoll = Ready(outcome: FrameOutcome) | Abandoned

  class BufferedStream {
    /** Everything the peer sends on this connection. */
    ghost const stream: seq<byte>
    /** Everything handed to callers so far. */
    ghost var taken: seq<byte>
    var buf: seq<byte>
    var pos: nat
    /** Sent by the peer, not received yet. */
    var incoming: seq<byte>
    /** Written to the peer. */
    var sent: seq<byte>
    var writeFailed: bool
    /** How many bytes the peer takes before a write to it fails; without a number, none fails. */
    const accepts: Option<nat>

    /** Handed out ++ unread ++ not yet received is always the original stream. */
    ghost predicate Valid()
      reads this
    {
      && pos <= |buf| && stream == taken + Remaining()
      && (accepts.Some? ==> |sent| <= accepts.value) && (writeFailed ==> accepts == Some(|sent|))
    }

    /** What this connection will still yield. */
    ghost function Remaining(): seq<byte>
      requires pos <= |buf|
      reads this
    {
      buf[pos..] + incoming
    }

    constructor (network: seq<byte>, limit: Option<nat>)
      ensures Valid() && stream == network && taken == [] && Remaining() == network
      ensures sent == [] && !writeFailed && accepts == limit
    {
      stream, incoming, accepts := network, network, limit;
      taken, buf, pos := [], [], 0;
      sent, writeFailed := [], false;
    }

    method FillMore(offered: nat) returns (n: nat)
      requires Valid()
      modifies `buf, `incoming
      ensures Valid() && Remaining() == old(Remaining())
      ensures n == Arriving(offered, old(incoming))
      ensures buf == old(buf) + old(incoming)[..n] && incoming == old(incoming)[n..]
    {
      n := Arriving(offered, incoming);
      assert buf[pos..] + incoming == (buf + incoming[..n])[pos..] + incoming[n..];
      buf, incoming := buf + incoming[..n], incoming[n..];
    }

    /** Hands the first `n` unread bytes to the caller. */
    ghost predicate Advanced(taken0: seq<byte>, remaining0: seq<byte>, n: nat)
      reads this
      requires n <= |remaining0|
    {
      Valid() && taken == taken0 + remaining0[..n] && Remaining() == remaining0[n..]
    }

    /**
     * `read_frame`. With `drop` it is dropped when it waits for the network after that many
     * deliveries; without, never. A read that finishes yields what the remaining stream says,
     * however it was cut up before and during the read, and takes exactly the frame; any other
     * end takes nothing, and a dropped read had no frame in its buffer.
     */
    method ReadFrame(maxLen: i32, drop: Option<nat>) returns (poll: FramePoll)
      requires Valid()
      modifies `taken, `buf, `pos, `incoming
      ensures poll.Ready? ==> poll.outcome == NextFrame(old(Remaining()), maxLen)
      ensures Advanced(old(taken), old(Remaining()),
                       if poll.Ready? && poll.outcome.FrameOk? then |poll.outcome.frame| else 0)
      ensures poll.Abandoned? ==> drop.Some? && drop.value <= |old(incoming)| - |incoming| && NextFrame(buf[pos..], maxLen) == FrameEof
    {
      hide ReadVarInt;
      ghost var whole := Remaining();
      assert whole[0..] == whole && whole[..0] == [];
      var waits := 0;
      while true
        invariant Valid() && Remaining() == whole && taken == old(taken)
        invariant waits <= |old(incoming)| - |incoming|
        decreases |incoming|
      {
        ghost var unread := buf[pos..];
        var v := ReadVarIntLoop(buf[pos..]);
        if v.Value? {
          if !(0 <= v.value <= maxLen) {
            NextFrameStable(unread, incoming, maxLen);
            return Ready(FrameOutOfRange(v.value));
          }
          var total := v.consumed + v.value;
          if |buf| - pos >= total {
            var frame := buf[pos..pos + total];
            assert unread[..total] == frame;
            NextFrameStable(unread, incoming, maxLen);
            Take(total);
            return Ready(FrameOk(frame));
          }
        }
        if drop == Some(waits) {
          return Abandoned;
        }
        var offered :| 0 <= offered <= READ_CHUNK;
        var n := FillMore(offered);
        if n == 0 {
          assert unread + old(incoming)[..0] == unread;
          assert whole == unread;
          return Ready(FrameEof);
        }
        waits := waits + 1;
      }
    }

    /** Moves the read position over `n` buffered bytes. */
    method Take(n: nat)
      requires Valid() && pos + n <= |buf|
      modifies `taken, `pos
      ensures Advanced(old(taken), old(Remaining()), n) && old(Remaining())[..n] == buf[old(pos)..old(pos) + n]
      ensures pos == old(pos) + n
    {
      ghost var whole := Remaining();
      assert whole[..n] == buf[pos..pos + n] && whole[n..] == buf[pos + n..] + incoming;
      assert taken + whole == (taken + whole[..n]) + whole[n..];
      taken := taken + buf[pos..pos + n];
      pos := pos + n;
    }

    /** `poll_read`: buffered bytes first, the network only once they are gone. */
    method Read(capacity: nat) returns (data: seq<byte>)
      requires Valid()
      modifies `taken, `buf, `pos, `incoming
      ensures |data| <= capacity && data <= old(Remaining())
      ensures Advanced(old(taken), old(Remaining()), |data|)
      ensures data == [] ==> capacity == 0 || old(Remaining()) == []
    {
      if pos < |buf| {
        var n := if capacity < |buf| - pos then capacity else |buf| - pos;
        data := buf[pos..pos + n];
        Take(n);
        if pos == |buf| {
          assert buf[pos..] == [];
          buf, pos := [], 0;
          assert buf[pos..] == [];
        }
      } else {
        var n :| 0 <= n <= capacity && n <= |incoming| && (n == 0 ==> capacity == 0 || incoming == []) by {
          var most := if capacity < |incoming| then capacity else |incoming|;
          assert 0 <= most <= capacity && most <= |incoming|;
        }
        data := TakeIncoming(n);
      }
    }

    /** Hands `n` bytes straight from the network to the caller, with nothing buffered. */
    method TakeIncoming(n: nat) returns (data: seq<byte>)
      requires Valid() && pos == |buf| && n <= |incoming|
      modifies `taken, `incoming
      ensures |data| == n && data == old(Remaining())[..n] && Advanced(old(taken), old(Remaining()), n)
    {
      assert buf[pos..] == [] && Remaining() == incoming;
      data := incoming[..n];
      assert taken + incoming == (taken + incoming[..n]) + incoming[n..];
      taken, incoming := taken + incoming[..n], incoming[n..];
      assert Remaining() == incoming;
    }

    /** `read_handshake` under the delivery schedule `chunk`. */
    method ReadHandshake(chunk: nat -> nat) returns (r: HandshakeOutcome)
      requires Valid()
      modifies `taken, `buf, `pos, `incoming
      ensures r == HandshakeRun(old(buf[pos..]), old(incoming), chunk, 0)
      ensures r.HandshakeRead? ==> r.handshake.rawFrame <= old(Remaining())
      ensures Advanced(old(taken), old(Remaining()), if r.HandshakeRead? then |r.handshake.rawFrame| else 0)
    {
      ghost var whole := Remaining();
      assert whole[0..] == whole && whole[..0] == [];
      hide TryParse, HandshakeRun;
      var i := 0;
      while true
        invariant Valid() && Remaining() == whole && taken == old(taken)
        invariant HandshakeRun(buf[pos..], incoming, chunk, i) == HandshakeRun(old(buf[pos..]), old(incoming), chunk, 0)
        decreases |incoming|
      {
        RunStep(buf[pos..], incoming, chunk, i);
        var parsed := TryParse(buf[pos..]);
        match parsed {
          case Complete(h) =>
            Take(|h.rawFrame|);
            return HandshakeRead(h);
          case Malformed(reason) =>
            return HandshakeMalformed(reason);
          case NeedMore =>
        }
        ghost var before, waiting := buf[pos..], incoming;
        var n := FillMore(chunk(i));
        if n == 0 {
          return HandshakeEof;
        }
        assert buf[pos..] == before + waiting[..n];
        if |buf| - pos > HANDSHAKE_LIMIT {
          return HandshakeTooLarge;
        }
        i := i + 1;
      }
    }

    predicate Takes(n: nat)
      reads `sent
    {
      accepts.None? || |sent| + n <= accepts.value
    }

    /**
     * `write_all`: it succeeds exactly while the peer takes all of the data; a failed write has
     * delivered what the peer still took, and is final.
     */
    method WriteAll(data: seq<byte>) returns (ok: bool)
      requires Valid()
      modifies `sent, `writeFailed
      ensures Valid()
      ensures ok <==> !old(writeFailed) && old(Takes(|data|))
      ensures ok ==> !writeFailed && sent == old(sent) + data
      ensures !ok ==> writeFailed && old(sent) <= sent <= old(sent) + data
      ensures old(writeFailed) ==> sent == old(sent)
    {
      if writeFailed {
        return false;
      }
      if Takes(|data|) {
        sent := sent + data;
        return true;
      }
      sent := sent + data[..accepts.value - |sent|];
      writeFailed := true;
      return false;
    }
  }
}
