/** Named and hex colours of `src/protocol/text_format.rs`, read and written. */
module TextColors {
  import opened Bytes
  import opened Json

  datatype Rgb = Rgb(r: byte, g: byte, b: byte)

  datatype Named = Named(name: string, code: char, rgb: Rgb)

  const NAMED: seq<Named> := [
    Named("black", '0', Rgb(0, 0, 0)),
    Named("dark_blue", '1', Rgb(0, 0, 170)),
    Named("dark_green", '2', Rgb(0, 170, 0)),
    Named("dark_aqua", '3', Rgb(0, 170, 170)),
    Named("dark_red", '4', Rgb(170, 0, 0)),
    Named("dark_purple", '5', Rgb(170, 0, 170)),
    Named("gold", '6', Rgb(255, 170, 0)),
    Named("gray", '7', Rgb(170, 170, 170)),
    Named("dark_gray", '8', Rgb(85, 85, 85)),
    Named("blue", '9', Rgb(85, 85, 255)),
    Named("green", 'a', Rgb(85, 255, 85)),
    Named("aqua", 'b', Rgb(85, 255, 255)),
    Named("red", 'c', Rgb(255, 85, 85)),
    Named("light_purple", 'd', Rgb(255, 85, 255)),
    Named("yellow", 'e', Rgb(255, 255, 85)),
    Named("white", 'f', Rgb(255, 255, 255))
  ]

  /** The first entry that satisfies `p`. */
  function Find(entries: seq<Named>, p: Named -> bool): (r: Option<Named>)
    ensures r.Some? ==> r.value in entries && p(r.value)
    ensures r.None? ==> forall e | e in entries :: !p(e)
  {
    if entries == [] then None
    else if p(entries[0]) then Some(entries[0])
    else Find(entries[1..], p)
  }

  function NamedColor(name: string): Option<Rgb> {
    match Find(NAMED, (e: Named) => e.name == name)
    case Some(e) => Some(e.rgb)
    case None => None
  }

  function CodeColor(code: char): Option<Rgb> {
    match Find(NAMED, (e: Named) => e.code == code)
    case Some(e) => Some(e.rgb)
    case None => None
  }

  function EntryOf(rgb: Rgb): Option<Named> {
    Find(NAMED, (e: Named) => e.rgb == rgb)
  }

  lemma CodesAreDigits()
    ensures |NAMED| == 16 && forall i :: 0 <= i < 16 ==> NAMED[i].code == HexDigit(i)
  {
  }

  lemma NamesAreDistinct()
    ensures forall i, j :: 0 <= i < j < |NAMED| ==> NAMED[i].name != NAMED[j].name
  {
  }

  /** The name and the legacy code written for a colour are read back as that colour. */
  lemma EntryReadsBack(rgb: Rgb)
    requires EntryOf(rgb).Some?
    ensures NamedColor(EntryOf(rgb).value.name) == Some(rgb) && CodeColor(EntryOf(rgb).value.code) == Some(rgb)
  {
    hide NAMED;
    hide HexDigit;
    NamesAreDistinct();
    CodesAreDigits();
    var e := EntryOf(rgb).value;
    var n := Find(NAMED, (x: Named) => x.name == e.name);
    var c := Find(NAMED, (x: Named) => x.code == e.code);
    assert n.Some? && c.Some?;
    var k, i, j :| 0 <= k < 16 && 0 <= i < 16 && 0 <= j < 16 && NAMED[k] == e && NAMED[i] == n.value && NAMED[j] == c.value;
    assert i == k;
    HexInverse(k);
    HexInverse(j);
  }

  // ----- hex colours -----

  /** How many bytes a character takes in UTF-8. */
  function Utf8Size(c: char): (n: nat)
    ensures 1 <= n <= 4
  {
    var code := c as int;
    if code < 0x80 then 1 else if code < 0x800 then 2 else if code < 0x10000 then 3 else 4
  }

  function ByteLen(s: string): nat {
    if s == [] then 0 else Utf8Size(s[0]) + ByteLen(s[1..])
  }

  /** The number of characters before byte `b`, unless byte `b` lies inside a character. */
  function CharsBefore(s: string, b: nat): (r: Option<nat>)
    ensures r.Some? ==> r.value <= |s| && ByteLen(s[..r.value]) == b
    decreases |s|
  {
    if b == 0 then Some(0)
    else if s == [] || Utf8Size(s[0]) > b then None
    else
      match CharsBefore(s[1..], b - Utf8Size(s[0]))
      case None => None
      case Some(k) =>
        assert s[..k + 1][1..] == s[1..][..k];
        Some(k + 1)
  }

  /** `u8::from_str_radix(p, 16)` on two bytes: two hex digits, or a plus sign and one. */
  function HexPair(p: string): (r: Option<byte>) {
    if |p| != 2 || HexValue(p[1]).None? then None
    else if p[0] == '+' then Some(HexValue(p[1]).value)
    else if HexValue(p[0]).None? then None
    else Some(16 * HexValue(p[0]).value + HexValue(p[1]).value)
  }

  /** What reading a colour gives; `Panic` when a slice falls inside a character. */
  datatype ColorRead = Color(rgb: Rgb) | NoColor | Panic

  /** Fewer bytes, fewer characters. */
  lemma {:induction false} LongerPrefix(s: string, i: nat, j: nat)
    requires i <= |s| && j <= |s| && ByteLen(s[..i]) < ByteLen(s[..j])
    ensures i < j
  {
    if j <= i {
      assert s[..i] == s[..j] + s[j..i];
      ByteLenConcat(s[..j], s[j..i]);
    }
  }

  lemma {:induction false} ByteLenConcat(a: string, b: string)
    ensures ByteLen(a + b) == ByteLen(a) + ByteLen(b)
  {
    if a == [] {
      assert a + b == b;
    } else {
      assert (a + b)[1..] == a[1..] + b;
      ByteLenConcat(a[1..], b);
    }
  }

  /** The two bytes of `s` from byte `from` on. */
  function PairAt(s: string, from: nat): Option<string> {
    match (CharsBefore(s, from), CharsBefore(s, from + 2))
    case (Some(i), Some(j)) =>
      LongerPrefix(s, i, j);
      Some(s[i..j])
    case _ => None
  }

  function ParseHex(s: string): ColorRead {
    if s == [] || s[0] != '#' || ByteLen(s[1..]) != 6 then NoColor
    else
      var t := s[1..];
      var r := PairAt(t, 0);
      if r.None? then Panic
      else if HexPair(r.value).None? then NoColor
      else
        var g := PairAt(t, 2);
        if g.None? then Panic
        else if HexPair(g.value).None? then NoColor
        else
          var b := PairAt(t, 4);
          if b.None? then Panic
          else if HexPair(b.value).None? then NoColor
          else Color(Rgb(HexPair(r.value).value, HexPair(g.value).value, HexPair(b.value).value))
  }

  function ColorFromStr(s: string): ColorRead {
    if s != [] && s[0] == '#' then ParseHex(s)
    else
      match NamedColor(s)
      case Some(rgb) => Color(rgb)
      case None => NoColor
  }

  /** Byte `b` lies inside the character at some index. */
  ghost predicate Inside(s: string, b: nat) {
    exists k: nat | k < |s| :: ByteLen(s[..k]) < b < ByteLen(s[..k + 1])
  }

  lemma PrefixBytes(s: string, k: nat)
    requires k < |s|
    ensures ByteLen(s[..k + 1]) == Utf8Size(s[0]) + ByteLen(s[1..][..k])
  {
    assert s[..k + 1][1..] == s[1..][..k];
  }

  lemma InsideFirst(s: string, b: nat)
    requires s != [] && 0 < b < Utf8Size(s[0])
    ensures Inside(s, b)
  {
    PrefixBytes(s, 0);
    assert ByteLen(s[..0]) < b < ByteLen(s[..0 + 1]);
  }

  lemma InsideRest(s: string, b: nat)
    requires s != [] && Utf8Size(s[0]) <= b
    ensures Inside(s, b) <==> Inside(s[1..], b - Utf8Size(s[0]))
  {
    hide ByteLen;
    var size, t := Utf8Size(s[0]), s[1..];
    if Inside(s, b) {
      var k: nat :| k < |s| && ByteLen(s[..k]) < b < ByteLen(s[..k + 1]);
      PrefixBytes(s, k);
      if k > 0 {
        PrefixBytes(s, k - 1);
        assert ByteLen(t[..k - 1]) < b - size < ByteLen(t[..k - 1 + 1]);
      } else {
        assert t[..0] == [];
        NoBytes();
      }
    }
    if Inside(t, b - size) {
      var k: nat :| k < |t| && ByteLen(t[..k]) < b - size < ByteLen(t[..k + 1]);
      PrefixBytes(s, k);
      PrefixBytes(s, k + 1);
      assert ByteLen(s[..k + 1]) < b < ByteLen(s[..k + 1 + 1]);
    }
  }

  lemma NoBytes()
    ensures ByteLen([]) == 0
  {
  }

  lemma {:induction false} CharsBeforeFails(s: string, b: nat)
    requires b <= ByteLen(s)
    ensures CharsBefore(s, b).None? <==> Inside(s, b)
    decreases |s|
  {
    hide Inside;
    if b == 0 {
      NotInsideZero(s);
    } else if Utf8Size(s[0]) > b {
      InsideFirst(s, b);
    } else {
      CharsBeforeFails(s[1..], b - Utf8Size(s[0]));
      InsideRest(s, b);
    }
  }

  lemma NotInsideZero(s: string)
    ensures !Inside(s, 0)
  {
  }

  /**
   * Reading a hex colour panics exactly when it is six bytes long and byte 2 is inside a
   * character, or the first two bytes are a number and byte 4 is inside a character.
   */
  lemma ParseHexPanicsIff(s: string)
    ensures ParseHex(s).Panic? <==>
            && |s| > 2 && s[0] == '#' && ByteLen(s[1..]) == 6
            && (Inside(s[1..], 2) || (HexPair(s[1..3]).Some? && Inside(s[1..], 4)))
  {
    hide Inside, HexPair, ByteLen, CharsBefore;
    if s != [] && s[0] == '#' && ByteLen(s[1..]) == 6 {
      var t := s[1..];
      CharsBeforeFails(t, 2);
      CharsBeforeFails(t, 4);
      CharsBeforeEnds(t);
      TwoBytes(t);
      assert s[1..3] == t[..2];
      if HexPair(t[..2]).Some? {
        HexPairSize(t);
      }
      if CharsBefore(t, 2).Some? {
        var k := CharsBefore(t, 2).value;
        HexPairLength(t[0..k]);
        assert HexPair(t[0..k]).Some? ==> t[0..k] == t[..2];
      }
    }
  }

  lemma HexPairLength(p: string)
    ensures HexPair(p).Some? ==> |p| == 2
  {
  }

  lemma {:induction false} CharsBeforeEnds(s: string)
    ensures CharsBefore(s, 0) == Some(0) && CharsBefore(s, ByteLen(s)) == Some(|s|)
  {
    if s != [] {
      CharsBeforeEnds(s[1..]);
    }
  }

  lemma TwoBytes(t: string)
    requires ByteLen(t) == 6
    ensures |t| >= 2
  {
  }

  /** If the first two characters are a number, byte 2 follows them. */
  lemma HexPairSize(t: string)
    requires |t| >= 2 && HexPair(t[..2]).Some?
    ensures CharsBefore(t, 2) == Some(2)
  {
    assert t[..2][0] == t[0] && t[..2][1] == t[1];
    assert CharsBefore(t[1..], 1) == Some(1);
  }

  predicate Ascii(s: string) {
    forall i :: 0 <= i < |s| ==> s[i] as int < 0x80
  }

  lemma {:induction false} AsciiByteLen(s: string)
    requires Ascii(s)
    ensures ByteLen(s) == |s|
  {
    if s != [] {
      AsciiByteLen(s[1..]);
    }
  }

  /** Only text outside ASCII can make it panic. */
  lemma AsciiNeverPanics(s: string)
    requires Ascii(s)
    ensures !ParseHex(s).Panic? && !ColorFromStr(s).Panic?
  {
    hide ParseHex, ByteLen, HexPair;
    ParseHexPanicsIff(s);
    if |s| > 1 {
      var t := s[1..];
      forall k: nat | k <= |t| ensures ByteLen(t[..k]) == k {
        AsciiByteLen(t[..k]);
      }
    }
  }

  /** A colour string that panics: six bytes with a three-byte character across byte 2. */
  lemma CutColorPanics(c: char, d: char)
    requires Utf8Size(c) == 3 && Utf8Size(d) == 2
    ensures ParseHex(['#', 'a', c, d]).Panic?
  {
    var s := ['#', 'a', c, d];
    assert s[1..] == ['a', c, d] && s[1..][1..] == [c, d] && s[1..][1..][1..] == [d] && s[1..][1..][1..][1..] == [];
    assert ByteLen([d]) == 2 && ByteLen([c, d]) == 5;
    assert ByteLen(s[1..]) == 6;
    assert CharsBefore(s[1..][1..], 1).None?;
  }

  // ----- writing colours -----

  function HexText(n: byte): string {
    [HexDigit(n / 16), HexDigit(n % 16)]
  }

  function HexColor(rgb: Rgb): string {
    HexText(rgb.r) + HexText(rgb.g) + HexText(rgb.b)
  }

  lemma HexTextReads(n: byte)
    ensures HexPair(HexText(n)) == Some(n)
    ensures Ascii(HexText(n))
  {
    HexInverse(n / 16);
    HexInverse(n % 16);
  }

  lemma {:induction false} AsciiCharsBefore(s: string, b: nat)
    requires Ascii(s) && b <= |s|
    ensures CharsBefore(s, b) == Some(b)
    decreases b
  {
    if b > 0 {
      AsciiCharsBefore(s[1..], b - 1);
    }
  }

  /** A written hex colour is read back. */
  lemma HexColorReads(rgb: Rgb)
    ensures ParseHex(['#'] + HexColor(rgb)) == Color(rgb)
  {
    hide HexPair, HexText;
    var t := HexColor(rgb);
    HexTextReads(rgb.r);
    HexTextReads(rgb.g);
    HexTextReads(rgb.b);
    HexPairLength(HexText(rgb.r));
    HexPairLength(HexText(rgb.g));
    HexPairLength(HexText(rgb.b));
    AsciiByteLen(t);
    AsciiCharsBefore(t, 2);
    AsciiCharsBefore(t, 4);
    AsciiCharsBefore(t, 6);
    assert (['#'] + t)[1..] == t;
    assert t[0..2] == HexText(rgb.r) && t[2..4] == HexText(rgb.g) && t[4..6] == HexText(rgb.b);
  }

  /** How a colour is named in a JSON component. */
  function ColorText(rgb: Rgb): string {
    match EntryOf(rgb)
    case Some(e) => e.name
    case None => ['#'] + HexColor(rgb)
  }

  lemma ColorTextReads(rgb: Rgb)
    ensures ColorFromStr(ColorText(rgb)) == Color(rgb)
  {
    hide NAMED, ParseHex, HexColor, NamedColor;
    match EntryOf(rgb)
    case Some(e) =>
      NamesArePlain();
      EntryReadsBack(rgb);
    case None =>
      HexColorReads(rgb);
  }

  predicate PlainChar(c: char) {
    0x20 <= c as int < 0x80 && c != '"' && c != '\\' && c != '#'
  }

  predicate Plain(s: string) {
    forall i :: 0 <= i < |s| ==> PlainChar(s[i])
  }

  lemma NameIsPlain(i: nat)
    requires i < |NAMED|
    ensures NAMED[i].name != [] && Plain(NAMED[i].name)
  {
    var name := NAMED[i].name;
    assert 3 <= |name| <= 12;
    forall k | 0 <= k < |name| ensures PlainChar(name[k]) {
    }
  }

  lemma NamesArePlain()
    ensures forall e | e in NAMED :: e.name != [] && Plain(e.name)
  {
    hide NAMED, Plain;
    forall e | e in NAMED ensures e.name != [] && Plain(e.name) {
      var i: nat :| i < |NAMED| && NAMED[i] == e;
      NameIsPlain(i);
    }
  }
}
