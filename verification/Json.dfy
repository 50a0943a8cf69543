/**
 * The slice of JSON (RFC 8259) that chat components use: strings, `true`, objects and arrays.
 * `escape_json` is from `src/protocol/text_format.rs`; the reader is the reference it is held to.
 */
module Json {
  import opened Bytes

  datatype Value = Str(text: string) | True | Obj(members: seq<Member>) | Arr(items: seq<Value>)

  datatype Member = Member(key: string, value: Value)

  // ----- strings -----

  function HexDigit(n: nat): char
    requires n < 16
  {
    "0123456789abcdef"[n]
  }

  function HexValue(c: char): Option<nat> {
    if '0' <= c <= '9' then Some(c as nat - '0' as nat)
    else if 'a' <= c <= 'f' then Some(c as nat - 'a' as nat + 10)
    else if 'A' <= c <= 'F' then Some(c as nat - 'A' as nat + 10)
    else None
  }

  lemma HexInverse(n: nat)
    requires n < 16
    ensures HexValue(HexDigit(n)) == Some(n)
  {
  }

  function EscapeChar(c: char): (r: string)
    ensures r != []
  {
    if c == '"' then ['\\', '"']
    else if c == '\\' then ['\\', '\\']
    else if c == '\n' then ['\\', 'n']
    else if c == '\r' then ['\\', 'r']
    else if c == '\t' then ['\\', 't']
    else if c as int < 0x20 then ['\\', 'u', '0', '0', HexDigit(c as int / 16), HexDigit(c as int % 16)]
    else [c]
  }

  function Escape(s: string): string {
    if s == [] then [] else EscapeChar(s[0]) + Escape(s[1..])
  }

  lemma Regroup(a: string, b: string, c: string)
    ensures a + b + c == a + (b + c)
  {
  }

  lemma EscapeStep(value: string, i: nat)
    requires i < |value|
    ensures Escape(value[i..]) == EscapeChar(value[i]) + Escape(value[i + 1..])
  {
    hide EscapeChar;
    assert value[i..][1..] == value[i + 1..];
  }

  lemma NoEscape()
    ensures Escape("") == ""
  {
  }

  /** The loop of `escape_json`. */
  method EscapeLoop(value: string) returns (out: string)
    ensures out == Escape(value)
  {
    hide Escape, EscapeChar;
    out := [];
    assert value[0..] == value;
    for i := 0 to |value|
      invariant out + Escape(value[i..]) == Escape(value)
    {
      EscapeStep(value, i);
      Regroup(out, EscapeChar(value[i]), Escape(value[i + 1..]));
      out := out + EscapeChar(value[i]);
    }
    assert value[|value|..] == [] && out + [] == out;
    NoEscape();
  }

  datatype CharRead = CharRead(c: char, size: nat) | BadChar

  /** The character a two-character escape stands for (section 7 of RFC 8259). */
  function ShortEscape(c: char): Option<char> {
    if c == '"' || c == '\\' || c == '/' then Some(c)
    else if c == 'b' then Some(8 as char)
    else if c == 'f' then Some(12 as char)
    else if c == 'n' then Some('\n')
    else if c == 'r' then Some('\r')
    else if c == 't' then Some('\t')
    else None
  }

  /** Four hex digits naming a character outside the surrogate range. */
  function ReadHex(s: string): CharRead
    requires |s| >= 6
  {
    var a, b, c, d := HexValue(s[2]), HexValue(s[3]), HexValue(s[4]), HexValue(s[5]);
    if a.None? || b.None? || c.None? || d.None? || !(a.value < 16 && b.value < 16 && c.value < 16 && d.value < 16) then BadChar
    else
      var code := ((a.value * 16 + b.value) * 16 + c.value) * 16 + d.value;
      if 0xD800 <= code < 0xE000 then BadChar else CharRead(code as char, 6)
  }

  /** One character of a string literal's content; unescaped quotes and controls are not allowed. */
  function ReadChar(s: string): (r: CharRead)
    requires s != []
    ensures r.CharRead? ==> 0 < r.size <= |s|
  {
    if s[0] == '"' || s[0] as int < 0x20 then BadChar
    else if s[0] != '\\' then CharRead(s[0], 1)
    else if |s| < 2 then BadChar
    else if s[1] == 'u' then (if |s| < 6 then BadChar else ReadHex(s))
    else if ShortEscape(s[1]).Some? then CharRead(ShortEscape(s[1]).value, 2)
    else BadChar
  }

  datatype Read<+V> = Read(value: V, rest: string) | BadJson

  /** The rest of a string literal, up to and over its closing quote. */
  function ReadString(s: string): (r: Read<string>)
    ensures r.Read? ==> |r.rest| < |s|
    decreases |s|
  {
    if s == [] then BadJson
    else if s[0] == '"' then Read([], s[1..])
    else
      var c := ReadChar(s);
      if c.BadChar? then BadJson
      else
        var more := ReadString(s[c.size..]);
        if more.BadJson? then BadJson else Read([c.c] + more.value, more.rest)
  }

  lemma EscapedCharReads(c: char, t: string)
    ensures (EscapeChar(c) + t)[0] != '"' && ReadChar(EscapeChar(c) + t) == CharRead(c, |EscapeChar(c)|)
  {
    var n := c as int;
    if n < 0x20 {
      HexInverse(n / 16);
      HexInverse(n % 16);
      assert HexValue('0') == Some(0);
      assert (n / 16) * 16 + n % 16 == n;
    }
  }

  /** Any text at all survives being escaped into a literal and read back. */
  lemma {:induction false} EscapeRoundTrip(s: string, rest: string)
    ensures ReadString(Escape(s) + ['"'] + rest) == Read(s, rest)
    decreases |s|
  {
    var lit := Escape(s) + ['"'] + rest;
    if s == [] {
      assert lit == ['"'] + rest;
    } else {
      var t := Escape(s[1..]) + ['"'] + rest;
      assert lit == EscapeChar(s[0]) + t;
      EscapedCharReads(s[0], t);
      assert lit[|EscapeChar(s[0])|..] == t;
      EscapeRoundTrip(s[1..], rest);
      assert [s[0]] + s[1..] == s;
    }
  }

  // ----- values -----

  function Render(v: Value): (r: string)
    ensures r != []
    decreases v
  {
    match v
    case Str(text) => ['"'] + Escape(text) + ['"']
    case True => "true"
    case Obj(members) => ['{'] + RenderMembers(members) + ['}']
    case Arr(items) => ['['] + RenderItems(items) + [']']
  }

  function RenderMember(m: Member): string
    decreases m
  {
    ['"'] + Escape(m.key) + ['"', ':'] + Render(m.value)
  }

  function RenderMembers(members: seq<Member>): string
    decreases members
  {
    if members == [] then []
    else if |members| == 1 then RenderMember(members[0])
    else RenderMember(members[0]) + [','] + RenderMembers(members[1..])
  }

  function RenderItems(items: seq<Value>): string
    decreases items
  {
    if items == [] then []
    else if |items| == 1 then Render(items[0])
    else Render(items[0]) + [','] + RenderItems(items[1..])
  }

  function ReadValue(s: string): (r: Read<Value>)
    ensures r.Read? ==> |r.rest| < |s|
    decreases |s|, 0
  {
    if s == [] then BadJson
    else if s[0] == '"' then
      var text := ReadString(s[1..]);
      if text.BadJson? then BadJson else Read(Str(text.value), text.rest)
    else if "true" <= s then Read(True, s[4..])
    else if s[0] == '{' then
      if |s| > 1 && s[1] == '}' then Read(Obj([]), s[2..])
      else
        var ms := ReadMembers(s[1..]);
        if ms.BadJson? then BadJson else Read(Obj(ms.value), ms.rest)
    else if s[0] == '[' then
      if |s| > 1 && s[1] == ']' then Read(Arr([]), s[2..])
      else
        var vs := ReadItems(s[1..]);
        if vs.BadJson? then BadJson else Read(Arr(vs.value), vs.rest)
    else BadJson
  }

  /** At least one `"key":value`, up to and over the closing brace. */
  function ReadMembers(s: string): (r: Read<seq<Member>>)
    ensures r.Read? ==> |r.rest| < |s|
    decreases |s|, 1
  {
    if s == [] || s[0] != '"' then BadJson
    else
      var key := ReadString(s[1..]);
      if key.BadJson? || key.rest == [] || key.rest[0] != ':' then BadJson
      else
        var v := ReadValue(key.rest[1..]);
        if v.BadJson? || v.rest == [] then BadJson
        else if v.rest[0] == '}' then Read([Member(key.value, v.value)], v.rest[1..])
        else if v.rest[0] != ',' then BadJson
        else
          var more := ReadMembers(v.rest[1..]);
          if more.BadJson? then BadJson else Read([Member(key.value, v.value)] + more.value, more.rest)
  }

  function ReadItems(s: string): (r: Read<seq<Value>>)
    ensures r.Read? ==> |r.rest| < |s|
    decreases |s|, 1
  {
    var v := ReadValue(s);
    if v.BadJson? || v.rest == [] then BadJson
    else if v.rest[0] == ']' then Read([v.value], v.rest[1..])
    else if v.rest[0] != ',' then BadJson
    else
      var more := ReadItems(v.rest[1..]);
      if more.BadJson? then BadJson else Read([v.value] + more.value, more.rest)
  }

  lemma {:induction false} RenderStarts(v: Value)
    ensures Render(v)[0] != ']' && Render(v)[0] != '}'
    ensures v.Obj? <==> Render(v)[0] == '{'
    ensures v.Arr? <==> Render(v)[0] == '['
    ensures v.Str? <==> Render(v)[0] == '"'
    ensures v.True? ==> Render(v)[0] == 't'
  {
  }

  /** Reading undoes rendering, and takes no more than the rendered text. */
  lemma {:induction false} RenderRoundTrip(v: Value, rest: string)
    ensures ReadValue(Render(v) + rest) == Read(v, rest)
    decreases v, 1
  {
    hide ReadString, Escape;
    RenderStarts(v);
    match v {
      case Str(text) => StrRoundTrip(text, rest);
      case True =>
        assert "true" <= "true" + rest;
        assert ("true" + rest)[4..] == rest;
      case Obj(members) => ObjRoundTrip(members, rest);
      case Arr(items) => ArrRoundTrip(items, rest);
    }
  }

  lemma StrRoundTrip(text: string, rest: string)
    ensures ReadValue(Render(Str(text)) + rest) == Read(Str(text), rest)
  {
    hide ReadString, Escape;
    EscapeRoundTrip(text, rest);
    var s := Render(Str(text)) + rest;
    assert s == ['"'] + (Escape(text) + ['"'] + rest);
    assert s[1..] == Escape(text) + ['"'] + rest;
  }

  lemma {:induction false} ObjRoundTrip(members: seq<Member>, rest: string)
    ensures ReadValue(Render(Obj(members)) + rest) == Read(Obj(members), rest)
    decreases members, 2
  {
    hide ReadString, Escape, ReadMembers, RenderMembers;
    var s := Render(Obj(members)) + rest;
    if members == [] {
      NoMembers();
      assert s == ['{', '}'] + rest;
    } else {
      MembersRoundTrip(members, rest);
      MembersStart(members);
      assert s == ['{'] + (RenderMembers(members) + ['}'] + rest);
      assert s[1..] == RenderMembers(members) + ['}'] + rest;
      assert s[1] == RenderMembers(members)[0];
    }
  }

  lemma NoMembers()
    ensures RenderMembers([]) == [] && RenderItems([]) == []
  {
  }

  lemma MembersStart(members: seq<Member>)
    requires members != []
    ensures RenderMembers(members) != [] && RenderMembers(members)[0] == '"'
  {
  }

  lemma {:induction false} MembersRoundTrip(members: seq<Member>, rest: string)
    requires members != []
    ensures ReadMembers(RenderMembers(members) + ['}'] + rest) == Read(members, rest)
    decreases members, 1
  {
    hide ReadString, Escape, ReadValue, Render, RenderMember;
    var m, more := members[0], members[1..];
    var tail := if |members| == 1 then ['}'] + rest else [','] + (RenderMembers(more) + ['}'] + rest);
    var s := RenderMembers(members) + ['}'] + rest;
    assert s == RenderMember(m) + tail;
    MemberLayout(m, tail);
    EscapeRoundTrip(m.key, [':'] + (Render(m.value) + tail));
    assert ([':'] + (Render(m.value) + tail))[1..] == Render(m.value) + tail;
    RenderRoundTrip(m.value, tail);
    assert m == Member(m.key, m.value);
    if |members| > 1 {
      MembersRoundTrip(more, rest);
      assert [m] + more == members;
    } else {
      assert [m] == members;
    }
  }

  lemma MemberLayout(m: Member, tail: string)
    ensures var s := RenderMember(m) + tail;
            s != [] && s[0] == '"' && s[1..] == Escape(m.key) + ['"'] + ([':'] + (Render(m.value) + tail))
  {
    hide Escape, Render;
    var key, value := Escape(m.key), Render(m.value);
    assert RenderMember(m) + tail == ['"'] + (key + ['"'] + ([':'] + (value + tail)));
  }

  lemma {:induction false} ArrRoundTrip(items: seq<Value>, rest: string)
    ensures ReadValue(Render(Arr(items)) + rest) == Read(Arr(items), rest)
    decreases items, 2
  {
    hide ReadString, Escape, ReadItems, RenderItems;
    var s := Render(Arr(items)) + rest;
    if items == [] {
      NoMembers();
      assert s == ['[', ']'] + rest;
    } else {
      ItemsRoundTrip(items, rest);
      ItemsStart(items);
      assert s == ['['] + (RenderItems(items) + [']'] + rest);
      assert s[1..] == RenderItems(items) + [']'] + rest;
      assert s[1] == RenderItems(items)[0];
    }
  }

  lemma ItemsStart(items: seq<Value>)
    requires items != []
    ensures RenderItems(items) != [] && RenderItems(items)[0] != ']'
  {
  }

  lemma {:induction false} ItemsRoundTrip(items: seq<Value>, rest: string)
    requires items != []
    ensures ReadItems(RenderItems(items) + [']'] + rest) == Read(items, rest)
    decreases items, 1
  {
    hide ReadValue, Render;
    var v, more := items[0], items[1..];
    var tail := if |items| == 1 then [']'] + rest else [','] + (RenderItems(more) + [']'] + rest);
    var s := RenderItems(items) + [']'] + rest;
    assert s == Render(v) + tail;
    RenderRoundTrip(v, tail);
    if |items| > 1 {
      ItemsRoundTrip(more, rest);
      assert [v] + more == items;
    } else {
      assert [v] == items;
    }
  }
}
