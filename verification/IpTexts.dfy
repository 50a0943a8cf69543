/**
 * A textual form of IP addresses that obeys the law `ProxyProtocol` assumes of the standard
 * library's: dotted decimals for version 4, eight full groups of hex digits for version 6.
 */
module IpTexts {
  import opened Bytes
  import opened Json
  import opened StatusKeys
  import opened Strings
  import opened ProxyProtocol

  function Dotted(o: Octets4): string {
    Decimal(o[0]) + ['.'] + (Decimal(o[1]) + ['.'] + (Decimal(o[2]) + ['.'] + Decimal(o[3])))
  }

  function ReadOctet(s: string): Option<byte> {
    match ParsePort(s)
    case Some(n) => if 0 <= n < 256 then Some(n) else None
    case None => None
  }

  function ReadDotted(s: string): Option<Ip> {
    var parts := Split(s, '.');
    if |parts| != 4 then None
    else
      match (ReadOctet(parts[0]), ReadOctet(parts[1]), ReadOctet(parts[2]), ReadOctet(parts[3]))
      case (Some(a), Some(b), Some(c), Some(d)) => Some(V4([a, b, c, d]))
      case _ => None
  }

  function Nibble(o: Octets16, n: nat): (r: nat)
    requires n < 32
    ensures r < 16
  {
    if n % 2 == 0 then o[n / 2] / 16 else o[n / 2] % 16
  }

  /** Four hex digits to a group, a colon behind each group but the last. */
  function GroupChar(o: Octets16, k: nat): char
    requires k < 39
  {
    if k % 5 == 4 then ':' else HexDigit(Nibble(o, k - k / 5))
  }

  function Groups(o: Octets16): (r: string)
    ensures |r| == 39
  {
    seq(39, k requires 0 <= k < 39 => GroupChar(o, k))
  }

  function NibbleAt(s: string, n: nat): nat
    requires |s| == 39 && n < 32
  {
    var v := HexValue(s[n + n / 4]);
    if v.Some? && v.value < 16 then v.value else 0
  }

  function OctetAt(s: string, i: nat): byte
    requires |s| == 39 && i < 16
  {
    var hi, lo := NibbleAt(s, 2 * i), NibbleAt(s, 2 * i + 1);
    if hi < 16 && lo < 16 then 16 * hi + lo else 0
  }

  function ReadGroups(s: string): Option<Ip> {
    if |s| != 39 then None else Some(V6(seq(16, i requires 0 <= i < 16 => OctetAt(s, i))))
  }

  function Format(ip: Ip): string {
    match ip
    case V4(four) => Dotted(four)
    case V6(sixteen) => Groups(sixteen)
  }

  function Parse(s: string): Option<Ip> {
    if '.' in s then ReadDotted(s) else ReadGroups(s)
  }

  const IP_TEXT := IpText(Format, Parse)

  lemma DottedReads(o: Octets4)
    ensures ReadDotted(Dotted(o)) == Some(V4(o))
  {
    hide Split, Decimal, ParsePort;
    forall k | 0 <= k < 4 ensures ReadOctet(Decimal(o[k])) == Some(o[k]) && '.' !in Decimal(o[k]) {
      PortRoundTrip(o[k]);
      DecimalIntAvoids(o[k], '.');
    }
    var tail2 := Decimal(o[2]) + ['.'] + Decimal(o[3]);
    var tail1 := Decimal(o[1]) + ['.'] + tail2;
    SplitAtFirst(Decimal(o[0]), '.', tail1);
    SplitAtFirst(Decimal(o[1]), '.', tail2);
    SplitAtFirst(Decimal(o[2]), '.', Decimal(o[3]));
    SplitWhole(Decimal(o[3]), '.');
    assert [o[0], o[1], o[2], o[3]] == o;
  }

  lemma DottedIsShort(o: Octets4)
    ensures |Dotted(o)| <= 15 && Plain(Dotted(o)) && '.' in Dotted(o)
  {
    hide Decimal;
    assert Pow10(3) == 1000;
    forall k | 0 <= k < 4 ensures |Decimal(o[k])| <= 3 && Plain(Decimal(o[k])) {
      DecimalLength(o[k], 3);
      DecimalIsPlain(o[k]);
    }
    assert Dotted(o)[|Decimal(o[0])|] == '.';
  }

  lemma NibbleReads(o: Octets16, n: nat)
    requires n < 32
    ensures NibbleAt(Groups(o), n) == Nibble(o, n)
  {
    var k := n + n / 4;
    assert k % 5 != 4 && k - k / 5 == n;
    HexInverse(Nibble(o, n));
  }

  lemma GroupsRead(o: Octets16)
    ensures ReadGroups(Groups(o)) == Some(V6(o))
  {
    hide NibbleAt, Groups;
    var read := seq(16, i requires 0 <= i < 16 => OctetAt(Groups(o), i));
    forall i | 0 <= i < 16 ensures OctetAt(Groups(o), i) == o[i] {
      NibbleReads(o, 2 * i);
      NibbleReads(o, 2 * i + 1);
    }
    assert read == o;
  }

  lemma HexDigitIsPlain(n: nat)
    requires n < 16
    ensures ' ' < HexDigit(n) < 127 as char && HexDigit(n) != '.'
  {
  }

  lemma GroupsArePlain(o: Octets16)
    ensures Plain(Groups(o)) && '.' !in Groups(o)
  {
    hide HexDigit;
    forall k | 0 <= k < 39 ensures ' ' < Groups(o)[k] < 127 as char && Groups(o)[k] != '.' {
      if k % 5 != 4 {
        HexDigitIsPlain(Nibble(o, k - k / 5));
      }
    }
  }

  /** The assumed law can be met. */
  lemma TextIsLawful()
    ensures LawfulText(IP_TEXT)
  {
    forall ip: Ip ensures Parse(Format(ip)) == Some(ip) && |Format(ip)| <= 39 && ProxyProtocol.Plain(Format(ip)) {
      hide ReadDotted, ReadGroups, Dotted, Groups, ProxyProtocol.Plain;
      match ip
      case V4(four) =>
        DottedReads(four);
        DottedIsShort(four);
      case V6(sixteen) =>
        GroupsRead(sixteen);
        GroupsArePlain(sixteen);
    }
  }
}
