/**
 * PROXY protocol headers (sections 2.1 and 2.2 of the HAProxy PROXY protocol specification):
 * the parser of `src/protocol/proxy_protocol_datagram.rs`, the stream reader of
 * `src/protocol/proxy_protocol_tcp.rs` and the v1 encoder of `src/protocol/minecraft_protocol.rs`.
 */
module ProxyProtocol {
  import opened Bytes
  import opened StatusKeys
  import opened Strings

  const V2_SIGNATURE: seq<byte> := [0x0D, 0x0A, 0x0D, 0x0A, 0x00, 0x0D, 0x0A, 0x51, 0x55, 0x49, 0x54, 0x0A]
  const CR: byte := 0x0D
  const LF: byte := 0x0A
  /** A v1 line is looked for in this many bytes. */
  const V1_LIMIT := 108

  type Octets4 = s: seq<byte> | |s| == 4 witness [0, 0, 0, 0]
  type Octets16 = s: seq<byte> | |s| == 16 witness [0, 0, 0, 0, 0, 0, 0, 0, 0, 0, 0, 0, 0, 0, 0, 0]

  datatype Ip = V4(four: Octets4) | V6(sixteen: Octets16)

  datatype SocketAddr = SocketAddr(ip: Ip, port: int)

  /** The standard library's textual form of IP addresses; `IpTexts` has one that obeys the law below. */
  datatype IpText = IpText(format: Ip -> string, parse: string -> Option<Ip>)

  /** Formatting is inverted by parsing, and prints at most 39 characters, none of them a blank or control. */
  ghost predicate LawfulText(t: IpText) {
    forall ip: Ip :: t.parse(t.format(ip)) == Some(ip) && |t.format(ip)| <= 39 && Plain(t.format(ip))
  }

  predicate Plain(s: string) {
    forall k :: 0 <= k < |s| ==> ' ' < s[k] < 127 as char
  }

  datatype FormatError = NoSignature | BadVersion | TruncatedV2 | ShortAddressBlock | NoCrlf | TooFewFields | BadSource | Closed

  datatype Parse = Parsed(addr: Option<SocketAddr>, size: nat) | Failed(error: FormatError)

  // ----- text helpers -----

  function Chars(s: seq<byte>): (r: string)
    ensures |r| == |s|
  {
    seq(|s|, i requires 0 <= i < |s| => s[i] as char)
  }

  function Encode(s: string): (r: seq<byte>)
    requires forall k :: 0 <= k < |s| ==> s[k] < 256 as char
    ensures |r| == |s|
  {
    seq(|s|, i requires 0 <= i < |s| => s[i] as int)
  }

  function DigitsValue(s: string): nat
    requires forall k :: 0 <= k < |s| ==> IsDigit(s[k])
  {
    if s == [] then 0
    else
      var c := s[|s| - 1];
      assert IsDigit(c);
      10 * DigitsValue(s[..|s| - 1]) + (c as int - '0' as int)
  }

  /** `u16::from_str`: an optional plus sign, then digits, no larger than 65535. */
  function ParsePort(s: string): Option<int> {
    var d := if s != [] && s[0] == '+' then s[1..] else s;
    if d == [] || exists k :: 0 <= k < |d| && !IsDigit(d[k]) then None
    else if DigitsValue(d) > 65535 then None
    else Some(DigitsValue(d))
  }

  lemma {:induction false} DecimalValue(n: nat)
    ensures forall k :: 0 <= k < |Decimal(n)| ==> IsDigit(Decimal(n)[k])
    ensures DigitsValue(Decimal(n)) == n
  {
    DecimalIsDigits(n);
    if n >= 10 {
      DecimalValue(n / 10);
      assert Decimal(n)[..|Decimal(n)| - 1] == Decimal(n / 10);
    }
  }

  /** Every port reads back from its decimal text, and no larger number is taken for a port. */
  lemma PortRoundTrip(port: nat)
    ensures ParsePort(Decimal(port)) == if port < 0x1_0000 then Some(port) else None
  {
    DecimalValue(port);
  }

  // ----- the parser -----

  function Word(hi: byte, lo: byte): nat {
    256 * (hi as int) + lo as int
  }

  function ParseV2(buf: seq<byte>): Parse
    requires |buf| >= 16
  {
    var command, family, addrLen := buf[12] % 16, buf[13] / 16, Word(buf[14], buf[15]);
    if buf[12] / 16 != 2 then Failed(BadVersion)
    else if |buf| < 16 + addrLen then Failed(TruncatedV2)
    else if command == 0 || family == 0 then Parsed(None, 16 + addrLen)
    else if family == 1 && addrLen >= 12 then
      Parsed(Some(SocketAddr(V4(buf[16..20]), Word(buf[24], buf[25]))), 16 + addrLen)
    else if family == 2 && addrLen >= 36 then
      Parsed(Some(SocketAddr(V6(buf[16..32]), Word(buf[48], buf[49]))), 16 + addrLen)
    else Failed(ShortAddressBlock)
  }

  /** A line end starts at `i`. */
  predicate CrlfAt(s: seq<byte>, i: int) {
    0 <= i && i + 1 < |s| && s[i] == CR && s[i + 1] == LF
  }

  /** Where the first line end at or after `from` starts, if it is complete within `limit` bytes. */
  function FirstCrlf(s: seq<byte>, from: nat, limit: nat): (r: Option<nat>)
    ensures r.Some? ==> from <= r.value && r.value + 2 <= limit && CrlfAt(s, r.value)
    ensures r.Some? ==> forall i :: from <= i < r.value ==> !CrlfAt(s, i)
    ensures r.None? ==> forall i :: from <= i && i + 2 <= limit ==> !CrlfAt(s, i)
    decreases limit - from
  {
    if from + 2 > limit || from + 2 > |s| then None
    else if CrlfAt(s, from) then Some(from)
    else FirstCrlf(s, from + 1, limit)
  }

  /** The scan loop of `parse_v1`. */
  method FindCrlf(buf: seq<byte>) returns (crlf: Option<nat>)
    ensures crlf == FirstCrlf(buf, 0, 108)
  {
    var limit := if |buf| < V1_LIMIT then |buf| else V1_LIMIT;
    var i := 1;
    while i < limit
      invariant 1 <= i && (i <= limit || limit == 0)
      invariant FirstCrlf(buf, 0, V1_LIMIT) == FirstCrlf(buf, i - 1, V1_LIMIT)
    {
      if buf[i - 1] == CR && buf[i] == LF {
        return Some(i - 1);
      }
      i := i + 1;
    }
    crlf := None;
  }

  function ParseLine(t: IpText, line: string, size: nat): Parse {
    var parts := Split(line, ' ');
    if |parts| >= 2 && parts[1] == "UNKNOWN" then Parsed(None, size)
    else if |parts| < 6 then Failed(TooFewFields)
    else
      var ip, port := t.parse(parts[2]), ParsePort(parts[4]);
      if ip.None? || port.None? then Failed(BadSource)
      else Parsed(Some(SocketAddr(ip.value, port.value)), size)
  }

  function ParseV1(t: IpText, buf: seq<byte>): Parse {
    match FirstCrlf(buf, 0, V1_LIMIT)
    case None => Failed(NoCrlf)
    case Some(crlf) => ParseLine(t, Chars(buf[..crlf]), crlf + 2)
  }

  function V1Prefix(): seq<byte> {
    [0x50, 0x52, 0x4F, 0x58, 0x59, 0x20]
  }

  function ParseHeader(t: IpText, buf: seq<byte>): (r: Parse)
    ensures r.Parsed? ==> r.size <= |buf|
  {
    if |buf| >= 16 && V2_SIGNATURE <= buf then ParseV2(buf)
    else if V1Prefix() <= buf then ParseV1(t, buf)
    else Failed(NoSignature)
  }

  // ----- the stream reader -----

  datatype ReadResult = ReadResult(outcome: Parse, taken: nat)

  /** What the reader makes of a stream, and how much of it it takes. */
  function ReadSpec(t: IpText, s: seq<byte>): (r: ReadResult)
    ensures r.taken <= |s|
  {
    if |s| < 16 then ReadResult(Failed(Closed), |s|)
    else if V2_SIGNATURE <= s then
      var n := 16 + Word(s[14], s[15]);
      if |s| < n then ReadResult(Failed(Closed), |s|) else ReadResult(ParseHeader(t, s[..n]), n)
    else if V1Prefix() <= s then
      match FirstCrlf(s, 0, V1_LIMIT)
      case Some(crlf) =>
        var n := if crlf + 2 < 16 then 16 else crlf + 2;
        ReadResult(ParseHeader(t, s[..n]), n)
      case None => if |s| < V1_LIMIT then ReadResult(Failed(Closed), |s|) else ReadResult(Failed(NoCrlf), V1_LIMIT)
    else ReadResult(Failed(NoSignature), 16)
  }

  /** A socket: what it will still deliver, and what has been read off it. */
  class Source {
    ghost const stream: seq<byte>
    ghost var taken: seq<byte>
    var incoming: seq<byte>

    ghost predicate Valid()
      reads this
    {
      stream == taken + incoming
    }

    constructor (network: seq<byte>)
      ensures Valid() && stream == network && taken == [] && incoming == network
    {
      stream, taken, incoming := network, [], network;
    }

    /** Delivers some of the next bytes, at most `most`; none only at the end. */
    method Read(most: nat) returns (data: seq<byte>)
      requires Valid() && most > 0
      modifies this
      ensures Valid() && |data| <= most && taken == old(taken) + data && old(incoming) == data + incoming
      ensures data == [] <==> old(incoming) == []
    {
      var n :| 0 <= n <= |incoming| && n <= most && (n == 0 <==> incoming == []) by {
        var k := if incoming == [] then 0 else 1;
        assert 0 <= k <= |incoming|;
      }
      data := incoming[..n];
      assert incoming == incoming[..n] + incoming[n..];
      assert taken + incoming == taken + data + incoming[n..];
      taken, incoming := taken + data, incoming[n..];
    }
  }

  /** `read_exact_more`: grows `buf` to the target length, however the bytes arrive, and no further. */
  method ReadExactMore(src: Source, buf: seq<byte>, target: nat) returns (grown: seq<byte>, ok: bool)
    requires src.Valid() && src.taken == buf
    modifies src
    ensures src.Valid() && src.taken == grown && buf <= grown
    ensures ok ==> |grown| == if |buf| < target then target else |buf|
    ensures !ok ==> grown == src.stream && |grown| < target
  {
    grown := buf;
    while |grown| < target
      invariant src.Valid() && src.taken == grown && buf <= grown
      invariant |grown| <= if |buf| < target then target else |buf|
      decreases |src.incoming|
    {
      var chunk := src.Read(target - |grown|);
      if chunk == [] {
        assert src.stream == src.taken + [];
        return grown, false;
      }
      grown := grown + chunk;
    }
    ok := true;
  }

  lemma FirstCrlfIs(s: seq<byte>, c: nat, limit: nat)
    requires CrlfAt(s, c) && c + 2 <= limit && forall i :: 0 <= i < c ==> !CrlfAt(s, i)
    ensures FirstCrlf(s, 0, limit) == Some(c)
  {
  }

  /** Reads a v1 line one byte at a time until its end is in the buffer or the limit is reached. */
  method ReadLine(src: Source, start: seq<byte>) returns (buf: seq<byte>, error: Option<FormatError>)
    requires src.Valid() && src.taken == start && |start| == 16
    modifies src
    ensures src.Valid() && src.taken == buf
    ensures match FirstCrlf(src.stream, 0, V1_LIMIT)
            case Some(crlf) => error.None? && buf == src.stream[..if crlf + 2 < 16 then 16 else crlf + 2]
            case None =>
              if |src.stream| < V1_LIMIT then error == Some(Closed) && buf == src.stream
              else error == Some(NoCrlf) && buf == src.stream[..V1_LIMIT]
  {
    buf := start;
    ghost var s := src.stream;
    while true
      invariant src.Valid() && src.taken == buf && 16 <= |buf| <= V1_LIMIT
      invariant |buf| > 16 ==> forall i :: 0 <= i && i + 2 < |buf| ==> !CrlfAt(s, i)
      decreases V1_LIMIT - |buf|
    {
      assert buf == s[..|buf|];
      assert forall i :: i + 2 <= |buf| ==> (CrlfAt(buf, i) <==> CrlfAt(s, i));
      var found := FirstCrlf(buf, 0, |buf|);
      if found.Some? {
        FirstCrlfIs(s, found.value, V1_LIMIT);
        return buf, None;
      }
      if |buf| >= V1_LIMIT {
        return buf, Some(NoCrlf);
      }
      var ok;
      buf, ok := ReadExactMore(src, buf, |buf| + 1);
      if !ok {
        return buf, Some(Closed);
      }
    }
  }

  /** `read_proxy_protocol_header`, for every way the bytes can arrive. */
  method ReadProxyHeader(t: IpText, src: Source) returns (outcome: Parse)
    requires src.Valid() && src.taken == []
    modifies src
    ensures src.Valid()
    ensures var r := ReadSpec(t, src.stream); outcome == r.outcome && src.taken == src.stream[..r.taken]
  {
    hide ParseHeader, FirstCrlf;
    var buf, ok := ReadExactMore(src, [], 16);
    if !ok {
      return Failed(Closed);
    }
    assert buf == src.stream[..16];
    if V2_SIGNATURE <= buf {
      buf, ok := ReadExactMore(src, buf, 16 + Word(buf[14], buf[15]));
      if !ok {
        return Failed(Closed);
      }
      assert buf == src.stream[..|buf|];
    } else if V1Prefix() <= buf {
      var error;
      buf, error := ReadLine(src, buf);
      if error.Some? {
        return Failed(error.value);
      }
    } else {
      return Failed(NoSignature);
    }
    outcome := ParseHeader(t, buf);
  }

  // ----- exactness -----

  lemma ParseV2Stable(buf: seq<byte>, n: nat)
    requires 16 <= |buf| && n <= |buf| && 16 + Word(buf[14], buf[15]) <= n
    ensures ParseV2(buf[..n]) == ParseV2(buf)
  {
    if Word(buf[14], buf[15]) >= 12 {
      assert buf[..n][16..20] == buf[16..20];
    }
    if Word(buf[14], buf[15]) >= 36 {
      assert buf[..n][16..32] == buf[16..32];
    }
  }

  lemma ParseV1Stable(t: IpText, buf: seq<byte>, n: nat)
    requires n <= |buf| && FirstCrlf(buf, 0, V1_LIMIT).Some? && FirstCrlf(buf, 0, V1_LIMIT).value + 2 <= n
    ensures ParseV1(t, buf[..n]) == ParseV1(t, buf)
  {
    hide ParseLine;
    var crlf := FirstCrlf(buf, 0, V1_LIMIT).value;
    assert forall i :: 0 <= i <= crlf ==> (CrlfAt(buf[..n], i) <==> CrlfAt(buf, i));
    FirstCrlfIs(buf[..n], crlf, V1_LIMIT);
    assert buf[..n][..crlf] == buf[..crlf];
  }

  lemma V1SizeIsLineEnd(t: IpText, buf: seq<byte>)
    requires ParseV1(t, buf).Parsed?
    ensures FirstCrlf(buf, 0, V1_LIMIT).Some? && ParseV1(t, buf).size == FirstCrlf(buf, 0, V1_LIMIT).value + 2
  {
  }

  /**
   * For any stream that starts with a header the parser accepts: the reader returns the parser's
   * address and takes exactly the header if and only if that has 16 bytes or more. Of a shorter
   * one it takes 16 bytes, with the same address; if the stream has fewer, it finds it closed.
   */
  lemma ReaderTakesHeader(t: IpText, s: seq<byte>)
    requires ParseHeader(t, s).Parsed?
    ensures var header := ParseHeader(t, s);
            var r := ReadSpec(t, s);
            && (r == ReadResult(header, header.size) <==> header.size >= 16)
            && (header.size < 16 <= |s| ==> r == ReadResult(header, 16))
            && (|s| < 16 ==> r == ReadResult(Failed(Closed), |s|))
            && (V2_SIGNATURE <= s ==> header.size >= 16)
  {
    hide ParseLine;
    if |s| >= 16 {
      if V2_SIGNATURE <= s {
        var n := 16 + Word(s[14], s[15]);
        assert V2_SIGNATURE <= s[..n];
        ParseV2Stable(s, n);
      } else {
        V1SizeIsLineEnd(t, s);
        var crlf := FirstCrlf(s, 0, V1_LIMIT).value;
        var n := if crlf + 2 < 16 then 16 else crlf + 2;
        ParseV1Stable(t, s, n);
        assert V1Prefix() <= s[..n] && !(V2_SIGNATURE <= s[..n]);
      }
    } else {
      NoShortV2(s);
    }
  }

  lemma NoShortV2(s: seq<byte>)
    requires V1Prefix() <= s
    ensures !(V2_SIGNATURE <= s)
  {
    assert s[0] == V1Prefix()[0];
  }

  // ----- encoding -----

  function HeaderLine(t: IpText, src: SocketAddr, dst: SocketAddr): string
    requires src.port >= 0 && dst.port >= 0
  {
    "PROXY" + [' '] + ((if src.ip.V6? then "TCP6" else "TCP4") + [' ']
    + (t.format(src.ip) + [' '] + (t.format(dst.ip) + [' '] + (Decimal(src.port) + [' '] + Decimal(dst.port)))))
  }

  predicate Printing(s: string) {
    forall k :: 0 <= k < |s| ==> ' ' <= s[k] < 127 as char
  }

  lemma DecimalIsPlain(n: nat)
    ensures Plain(Decimal(n))
  {
  }

  lemma {:induction false} DecimalLength(n: nat, digits: nat)
    requires digits > 0 && n < Pow10(digits)
    ensures |Decimal(n)| <= digits
  {
    if n >= 10 {
      assert n / 10 < Pow10(digits - 1);
      DecimalLength(n / 10, digits - 1);
    }
  }

  function Pow10(k: nat): nat {
    if k == 0 then 1 else 10 * Pow10(k - 1)
  }

  lemma LineIsPrinting(t: IpText, src: SocketAddr, dst: SocketAddr)
    requires LawfulText(t) && 0 <= src.port < 0x1_0000 && 0 <= dst.port < 0x1_0000
    ensures Printing(HeaderLine(t, src, dst)) && |HeaderLine(t, src, dst)| + 2 <= V1_LIMIT
  {
    hide Decimal;
    DecimalIsPlain(src.port);
    DecimalIsPlain(dst.port);
    assert Pow10(5) == 100000;
    DecimalLength(src.port, 5);
    DecimalLength(dst.port, 5);
    assert Plain(t.format(src.ip)) && Plain(t.format(dst.ip));
  }

  function EncodeProxyHeader(t: IpText, src: SocketAddr, dst: SocketAddr): seq<byte>
    requires src.port >= 0 && dst.port >= 0 && Printing(HeaderLine(t, src, dst))
  {
    Encode(HeaderLine(t, src, dst)) + [CR, LF]
  }

  lemma LineParts(t: IpText, src: SocketAddr, dst: SocketAddr)
    requires LawfulText(t) && 0 <= src.port < 0x1_0000 && 0 <= dst.port < 0x1_0000
    ensures Split(HeaderLine(t, src, dst), ' ') ==
            ["PROXY", if src.ip.V6? then "TCP6" else "TCP4", t.format(src.ip), t.format(dst.ip), Decimal(src.port), Decimal(dst.port)]
  {
    hide Decimal, Split;
    DecimalIsPlain(src.port);
    DecimalIsPlain(dst.port);
    var proto := if src.ip.V6? then "TCP6" else "TCP4";
    var l4 := Decimal(src.port) + [' '] + Decimal(dst.port);
    var l3 := t.format(dst.ip) + [' '] + l4;
    var l2 := t.format(src.ip) + [' '] + l3;
    var l1 := proto + [' '] + l2;
    assert Plain(t.format(src.ip)) && Plain(t.format(dst.ip));
    SplitAtFirst("PROXY", ' ', l1);
    SplitAtFirst(proto, ' ', l2);
    SplitAtFirst(t.format(src.ip), ' ', l3);
    SplitAtFirst(t.format(dst.ip), ' ', l4);
    SplitAtFirst(Decimal(src.port), ' ', Decimal(dst.port));
    SplitWhole(Decimal(dst.port), ' ');
  }

  /** A header written for a backend parses back to the client's address, whatever follows it. */
  lemma HeaderRoundTrip(t: IpText, src: SocketAddr, dst: SocketAddr, rest: seq<byte>)
    requires LawfulText(t) && 0 <= src.port < 0x1_0000 && 0 <= dst.port < 0x1_0000
    ensures Printing(HeaderLine(t, src, dst))
    ensures var header := EncodeProxyHeader(t, src, dst);
            ParseHeader(t, header + rest) == Parsed(Some(src), |header|)
  {
    LineIsPrinting(t, src, dst);
    var line := HeaderLine(t, src, dst);
    assert line[..6] == "PROXY ";
    LineParts(t, src, dst);
    PortRoundTrip(src.port);
    assert ParseLine(t, line, |line| + 2) == Parsed(Some(src), |line| + 2);
    hide HeaderLine, LawfulText, ParseLine, Decimal, Split, ParsePort;
    EncodedLineParses(t, line, rest);
  }

  /** A v1 line is parsed if its line end is complete within 108 bytes, and refused otherwise. */
  lemma EncodedLineParses(t: IpText, line: string, rest: seq<byte>)
    requires Printing(line) && |line| >= 6 && line[..6] == "PROXY "
    ensures ParseHeader(t, Encode(line) + [0x0D, 0x0A] + rest) ==
            if |line| + 2 <= 108 then ParseLine(t, line, |line| + 2) else Failed(NoCrlf)
  {
    hide ParseLine;
    var buf := Encode(line) + [CR, LF] + rest;
    var n := |line|;
    assert forall i :: 0 <= i < n ==> buf[i] == line[i] as int;
    assert buf[n] == CR && buf[n + 1] == LF;
    if n + 2 <= V1_LIMIT {
      FirstCrlfIs(buf, n, V1_LIMIT);
    }
    assert Chars(buf[..n]) == line;
    assert forall i :: 0 <= i < 6 ==> line[i] == "PROXY "[i] by { assert forall i :: 0 <= i < 6 ==> line[i] == line[..6][i]; }
    assert V1Prefix() <= buf && buf[0] == 0x50;
  }

  /** `PROXY UNKNOWN` and a line end: 15 bytes, so the reader also takes the first byte after it. */
  lemma UnknownIsOverread(t: IpText, rest: seq<byte>)
    requires rest != []
    ensures var s := Encode("PROXY UNKNOWN") + [CR, LF] + rest;
            ParseHeader(t, s) == Parsed(None, 15) && ReadSpec(t, s).taken == 16
  {
    hide ParseLine, Split, FirstCrlf, ParseHeader, ReadSpec, Encode;
    UnknownLine(t);
    EncodedLineParses(t, "PROXY UNKNOWN", rest);
    ReaderTakesHeader(t, Encode("PROXY UNKNOWN") + [CR, LF] + rest);
  }

  lemma UnknownLine(t: IpText)
    ensures "PROXY UNKNOWN"[..6] == "PROXY " && Printing("PROXY UNKNOWN")
    ensures ParseLine(t, "PROXY UNKNOWN", 15) == Parsed(None, 15)
  {
    hide Split;
    SplitAtFirst("PROXY", ' ', "UNKNOWN");
    SplitWhole("UNKNOWN", ' ');
    assert "PROXY" + [' '] + "UNKNOWN" == "PROXY UNKNOWN";
  }

  // ----- version 2 -----

  type Nibble = n: int | 0 <= n < 16

  /** A number of 16 bits in network order. */
  function BigEndian(n: int): seq<byte>
    requires 0 <= n < 0x1_0000
  {
    [n / 256, n % 256]
  }

  /** A v2 header as the specification lays it out: signature, version and command, family and transport, length, block. */
  function V2Bytes(version: Nibble, command: Nibble, family: Nibble, transport: Nibble, block: seq<byte>): seq<byte>
    requires |block| < 0x1_0000
  {
    [0x0D, 0x0A, 0x0D, 0x0A, 0x00, 0x0D, 0x0A, 0x51, 0x55, 0x49, 0x54, 0x0A]
    + [16 * version + command, 16 * family + transport] + BigEndian(|block|) + block
  }

  function Octets(ip: Ip): seq<byte> {
    if ip.V4? then ip.four else ip.sixteen
  }

  /** The address block: source, destination, source port, destination port, and any further fields. */
  function AddressBlock(src: SocketAddr, dst: SocketAddr, more: seq<byte>): seq<byte>
    requires 0 <= src.port < 0x1_0000 && 0 <= dst.port < 0x1_0000
  {
    Octets(src.ip) + Octets(dst.ip) + BigEndian(src.port) + BigEndian(dst.port) + more
  }

  /** What the parser reads off the fixed part of a v2 header. */
  lemma V2Fields(version: Nibble, command: Nibble, family: Nibble, transport: Nibble, block: seq<byte>, rest: seq<byte>)
    requires |block| < 0x1_0000
    ensures var buf := V2Bytes(version, command, family, transport, block) + rest;
            && |buf| == 16 + |block| + |rest| && V2_SIGNATURE <= buf
            && buf[12] / 16 == version && buf[12] % 16 == command && buf[13] / 16 == family
            && Word(buf[14], buf[15]) == |block| && buf[16..] == block + rest
  {
    var buf := V2Bytes(version, command, family, transport, block) + rest;
    assert buf[..12] == V2_SIGNATURE;
    assert buf[12] == 16 * version + command && buf[13] == 16 * family + transport;
    assert buf[14] == |block| / 256 && buf[15] == |block| % 256;
  }

  /**
   * A v2 header naming a source and a destination of one family parses to the source, its port
   * high byte first, and to its own length, whatever the transport, the further fields and the
   * bytes behind it.
   */
  lemma V2RoundTrip(t: IpText, src: SocketAddr, dst: SocketAddr, transport: Nibble, more: seq<byte>, rest: seq<byte>)
    requires 0 <= src.port < 0x1_0000 && 0 <= dst.port < 0x1_0000 && src.ip.V4? == dst.ip.V4?
    requires |AddressBlock(src, dst, more)| < 0x1_0000
    ensures var header := V2Bytes(2, 1, if src.ip.V4? then 1 else 2, transport, AddressBlock(src, dst, more));
            ParseHeader(t, header + rest) == Parsed(Some(src), |header|)
  {
    var family: Nibble := if src.ip.V4? then 1 else 2;
    var block := AddressBlock(src, dst, more);
    var buf := V2Bytes(2, 1, family, transport, block) + rest;
    V2Fields(2, 1, family, transport, block, rest);
    hide V2Bytes;
    var n := |Octets(src.ip)|;
    assert buf[16..][..n] == Octets(src.ip);
    assert buf[16..16 + n] == buf[16..][..n];
    assert buf[16 + 2 * n] == buf[16..][2 * n] == src.port / 256;
    assert buf[17 + 2 * n] == buf[16..][2 * n + 1] == src.port % 256;
  }

  /**
   * Every v2 header, complete or not: another version is refused; a block that is not all there
   * is a truncation; a LOCAL command or an unspecified family gives no address; any other family,
   * or a block too short for its family, is refused.
   */
  lemma V2Outcomes(t: IpText, version: Nibble, command: Nibble, family: Nibble, transport: Nibble, block: seq<byte>, rest: seq<byte>)
    requires |block| < 0x1_0000
    ensures var header := V2Bytes(version, command, family, transport, block);
            var r := ParseHeader(t, header + rest);
            && (version != 2 ==> r == Failed(BadVersion))
            && (version == 2 && (command == 0 || family == 0) ==> r == Parsed(None, |header|))
            && (version == 2 && command != 0 && family != 0 ==>
                  if (family == 1 && |block| >= 12) || (family == 2 && |block| >= 36)
                  then r.Parsed? && r.addr.Some? && r.size == |header| else r == Failed(ShortAddressBlock))
            && (version == 2 ==> forall k :: 16 <= k < |header| ==> ParseHeader(t, header[..k]) == Failed(TruncatedV2))
  {
    V2Fields(version, command, family, transport, block, rest);
    V2Fields(version, command, family, transport, block, []);
    var header := V2Bytes(version, command, family, transport, block);
    assert header + [] == header;
    hide V2Bytes;
    if version == 2 {
      forall k | 16 <= k < |header| ensures ParseHeader(t, header[..k]) == Failed(TruncatedV2) {
        assert V2_SIGNATURE <= header[..k];
      }
    }
  }
}
