/** The JSON renderer of `src/protocol/text_format.rs`, and which texts can be rendered at all. */
module TextRender {
  import opened Bytes
  import opened Json
  import opened Strings
  import opened StatusKeys
  import opened TextParser
  import opened TextColors
  import opened TextRuns

  function Runs(input: string): seq<Run> {
    Flatten(Tree(input), PLAIN)
  }

  /** `parse_runs`. */
  method ParseRuns(input: string) returns (runs: Option<seq<Run>>)
    ensures runs.None? <==> Panics(Tree(input))
    ensures runs.Some? ==> runs.value == Runs(input)
  {
    hide Flatten, ParseFrom, LegacyToTags, Panics;
    var chars := LegacyCodesToTags(input);
    var nodes, pos := ParseNodes(chars, 0, false);
    var out, panicked := FlattenInto(nodes, PLAIN, []);
    runs := if panicked then None else Some(out);
  }

  // ----- text that cannot panic -----

  ghost predicate AsciiTags(nodes: seq<Node>)
    decreases nodes
  {
    nodes == [] || (AsciiTag(nodes[0]) && AsciiTags(nodes[1..]))
  }

  ghost predicate AsciiTag(n: Node)
    decreases n
  {
    n.Tag? ==> Ascii(n.name) && (forall i :: 0 <= i < |n.args| ==> Ascii(n.args[i])) && AsciiTags(n.children)
  }

  lemma {:induction false} AsciiTagsConcat(a: seq<Node>, b: seq<Node>)
    requires AsciiTags(a) && AsciiTags(b)
    ensures AsciiTags(a + b)
    decreases |a|
  {
    if a == [] {
      assert a + b == b;
    } else {
      assert (a + b)[1..] == a[1..] + b;
      AsciiTagsConcat(a[1..], b);
    }
  }

  lemma {:induction false} SplitAscii(s: string, sep: char)
    requires Ascii(s)
    ensures forall i :: 0 <= i < |Split(s, sep)| ==> Ascii(Split(s, sep)[i])
  {
    if s != [] {
      SplitAscii(s[1..], sep);
    }
  }

  lemma {:induction false} LegacyAscii(s: string)
    requires Ascii(s)
    ensures Ascii(LegacyToTags(s))
    decreases |s|
  {
    hide LegacyTag, LowerChar;
    if s != [] {
      LegacyAscii(s[1..]);
      if |s| > 1 {
        LegacyTagAscii(LowerChar(s[1]));
        LegacyAscii(s[2..]);
      }
    }
  }

  lemma LegacyTagAscii(c: char)
    ensures LegacyTag(c).Some? ==> Ascii(LegacyTag(c).value)
  {
    hide LegacyTag;
    if c <= '9' {
      DigitTagAscii(c);
    } else if c <= 'f' {
      LetterTagAscii(c);
    } else {
      DecorationTagAscii(c);
    }
  }

  lemma DigitTagAscii(c: char)
    requires c <= '9'
    ensures LegacyTag(c).Some? ==> Ascii(LegacyTag(c).value)
  {
  }

  lemma LetterTagAscii(c: char)
    requires '9' < c <= 'f'
    ensures LegacyTag(c).Some? ==> Ascii(LegacyTag(c).value)
  {
  }

  lemma DecorationTagAscii(c: char)
    requires 'f' < c
    ensures LegacyTag(c).Some? ==> Ascii(LegacyTag(c).value)
  {
  }

  lemma {:induction false} ParsedAscii(chars: string, pos: nat, nested: bool, text: string)
    requires pos <= |chars| && Ascii(chars)
    ensures AsciiTags(ParseFrom(chars, pos, nested, text).nodes)
    decreases |chars| - pos
  {
    hide NextMove, Ascii, AsciiTags;
    FlushAscii(text);
    if pos < |chars| {
      match NextMove(chars, pos, nested)
      case Gather(added, next) => ParsedAscii(chars, next, nested, text + added);
      case Close(_) =>
      case Enter(name, args, next) =>
        var children := ParseFrom(chars, next, true, []);
        ParsedAscii(chars, next, true, []);
        ParsedAscii(chars, children.pos, nested, []);
        EnteredAscii(chars, pos, nested);
        OneAsciiTag(Tag(name, args, children.nodes));
        AsciiTagsConcat(Flush(text), [Tag(name, args, children.nodes)]);
        AsciiTagsConcat(Flush(text) + [Tag(name, args, children.nodes)], ParseFrom(chars, children.pos, nested, []).nodes);
    }
  }

  lemma FlushAscii(text: string)
    ensures AsciiTags(Flush(text))
  {
    if text != [] {
      OneAsciiTag(Text(text));
    }
  }

  lemma OneAsciiTag(n: Node)
    requires AsciiTag(n)
    ensures AsciiTags([n])
  {
  }

  lemma EnteredAscii(chars: string, pos: nat, nested: bool)
    requires pos < |chars| && Ascii(chars) && NextMove(chars, pos, nested).Enter?
    ensures var m := NextMove(chars, pos, nested); Ascii(m.name) && forall i :: 0 <= i < |m.args| ==> Ascii(m.args[i])
  {
    hide Split;
    var inner := chars[pos + 1..NextGt(chars, pos)];
    SplitAscii(inner, ':');
  }

  lemma {:induction false} LowerAscii(s: string)
    requires Ascii(s)
    ensures Ascii(Lower(s))
  {
    if s != [] {
      LowerAscii(s[1..]);
    }
  }

  lemma AsciiTagRenders(name: string, args: seq<string>)
    requires Ascii(name) && forall i :: 0 <= i < |args| ==> Ascii(args[i])
    ensures !TagPanics(name, args)
  {
    hide Ascii, ColorFromStr, Lower;
    LowerAscii(name);
    AsciiNeverPanics(Lower(name));
    forall i | 0 <= i < |args| ensures !ColorFromStr(args[i]).Panic? {
      AsciiNeverPanics(args[i]);
    }
  }

  lemma {:induction false} AsciiTreeRenders(nodes: seq<Node>)
    requires AsciiTags(nodes)
    ensures !Panics(nodes)
    decreases nodes
  {
    hide TagPanics, Ascii;
    if nodes != [] {
      AsciiTreeRenders(nodes[1..]);
      if nodes[0].Tag? {
        AsciiTreeRenders(nodes[0].children);
        AsciiTagRenders(nodes[0].name, nodes[0].args);
      }
    }
  }

  /** An ASCII text is always rendered, whatever its markup. */
  lemma AsciiInputRenders(input: string)
    requires Ascii(input)
    ensures !Panics(Tree(input))
  {
    hide Ascii, Panics, AsciiTags, ParseFrom, LegacyToTags;
    LegacyAscii(input);
    ParsedAscii(LegacyToTags(input), 0, false, []);
    AsciiTreeRenders(Tree(input));
  }

  /** Not every text is: one tag with a colour argument cut inside a character stops the rendering. */
  lemma CutColorStopsRendering(c: char, d: char)
    requires Utf8Size(c) == 3 && Utf8Size(d) == 2
    ensures Panics(Tree(Written([Tag("color", [['#', 'a', c, d]], [])])))
  {
    hide ParseFrom;
    var arg := ['#', 'a', c, d];
    var nodes := [Tag("color", [arg], [])];
    var input := Written(nodes);
    assert nodes[1..] == [];
    ColorTagText(arg);
    UncodedIsKept(input);
    ColorTagWritable(arg);
    WriteParseRoundTrip(nodes);
    CutColorPanics(c, d);
    ColorTagPanics(arg);
  }

  lemma ColorTagText(arg: string)
    requires '&' !in arg
    ensures '&' !in Written([Tag("color", [arg], [])])
  {
    var tag := Tag("color", [arg], []);
    var parts := ["color"] + [arg];
    assert parts[1..] == [arg] && Joined([arg]) == arg;
    assert Joined(parts) == "color" + [':'] + arg;
    assert WrittenNode(tag) == ['<'] + ("color" + [':'] + arg) + ['>'] + [] + "</>";
    assert [tag][1..] == [] && Written([tag]) == WrittenNode(tag) + [];
  }

  lemma ColorTagWritable(arg: string)
    requires ':' !in arg && '>' !in arg
    ensures Writable([Tag("color", [arg], [])])
  {
    var tag := Tag("color", [arg], []);
    assert "color"[0] == 'c';
    assert WritableNode(tag);
    assert [tag][1..] == [];
  }

  lemma ColorTagPanics(arg: string)
    requires ColorFromStr(arg).Panic?
    ensures TagPanics("color", [arg])
  {
    hide ColorFromStr;
    assert "color"[1..] == "olor" && "olor"[1..] == "lor" && "lor"[1..] == "or" && "or"[1..] == "r" && "r"[1..] == "";
    assert Lower("r") == "r" && Lower("or") == "or" && Lower("lor") == "lor" && Lower("olor") == "olor";
    assert Lower("color") == "color" && "gradient"[0] == 'g';
  }

  // ----- the text of runs -----

  function RunsText(runs: seq<Run>): string {
    if runs == [] then [] else runs[0].text + RunsText(runs[1..])
  }

  function Chars(cells: seq<Cell>): string {
    if cells == [] then [] else [cells[0].c] + Chars(cells[1..])
  }

  lemma {:induction false} CharsConcat(a: seq<Cell>, b: seq<Cell>)
    ensures Chars(a + b) == Chars(a) + Chars(b)
    decreases |a|
  {
    if a == [] {
      assert a + b == b;
    } else {
      assert (a + b)[1..] == a[1..] + b;
      CharsConcat(a[1..], b);
    }
  }

  lemma {:induction false} CharsSpell(text: string, style: Style)
    ensures Chars(Spell(text, style)) == text
  {
    if text != [] {
      CharsSpell(text[1..], style);
    }
  }

  lemma {:induction false} CharsCells(runs: seq<Run>)
    ensures Chars(Cells(runs)) == RunsText(runs)
  {
    if runs != [] {
      CharsConcat(Spell(runs[0].text, runs[0].style), Cells(runs[1..]));
      CharsSpell(runs[0].text, runs[0].style);
      CharsCells(runs[1..]);
    }
  }

  lemma {:induction false} CharsErase(cells: seq<Cell>)
    ensures Chars(Erase(cells)) == Chars(cells)
  {
    if cells != [] {
      CharsErase(cells[1..]);
    }
  }

  lemma {:induction false} CharsDecorated(nodes: seq<Node>, style: Style)
    ensures Chars(Decorated(nodes, style)) == VisibleText(nodes)
    decreases nodes
  {
    hide ApplyTag;
    if nodes != [] {
      CharsConcat(DecoratedNode(nodes[0], style), Decorated(nodes[1..], style));
      CharsDecorated(nodes[1..], style);
      match nodes[0]
      case Text(text) => CharsSpell(text, Uncolored(style));
      case Tag(name, args, children) => CharsDecorated(children, ApplyTag(style, name, args));
    }
  }

  /** The runs spell the visible text. */
  lemma RunsSpellTheText(nodes: seq<Node>, style: Style)
    ensures RunsText(Flatten(nodes, style)) == VisibleText(nodes)
  {
    var runs := Flatten(nodes, style);
    FlattenShape(nodes, style);
    CharsDecorated(nodes, style);
    CharsErase(Cells(runs));
    CharsCells(runs);
  }

  ghost predicate Filled(runs: seq<Run>) {
    forall i :: 0 <= i < |runs| ==> runs[i].text != []
  }

  lemma {:induction false} SampledFilled(text: string, style: Style, stops: seq<Rgb>, total: nat, pos: nat)
    requires stops != [] && pos + |text| <= total
    ensures Filled(Sampled(text, style, stops, total, pos))
    decreases |text|
  {
    if text != [] {
      SampledFilled(text[1..], style, stops, total, pos + 1);
    }
  }

  lemma {:induction false} GradientFilled(nodes: seq<Node>, style: Style, stops: seq<Rgb>, total: nat, pos: nat)
    requires stops != [] && pos + OwnLen(nodes) <= total
    ensures Filled(Gradient(nodes, style, stops, total, pos))
    decreases nodes
  {
    hide Sampled, ApplyTag, IsGradient, GradientStops;
    if nodes != [] {
      var n := nodes[0];
      GradientFilled(nodes[1..], style, stops, total, pos + NodeOwnLen(n));
      match n
      case Text(text) => SampledFilled(text, style, stops, total, pos);
      case Tag(name, args, children) =>
        if IsGradient(name) {
          GradientFilled(children, style, GradientStops(args), Total(children), 0);
        } else {
          GradientFilled(children, ApplyTag(style, name, args), stops, total, pos);
        }
    }
  }

  lemma {:induction false} FlattenFilled(nodes: seq<Node>, style: Style)
    ensures Filled(Flatten(nodes, style))
    decreases nodes
  {
    hide ApplyTag, IsGradient, GradientStops, Gradient;
    if nodes != [] {
      FlattenFilled(nodes[1..], style);
      if nodes[0].Tag? {
        var Tag(name, args, children) := nodes[0];
        GradientFilled(children, style, GradientStops(args), Total(children), 0);
        FlattenFilled(children, ApplyTag(style, name, args));
      }
    }
  }

  // ----- JSON -----

  function ColorMember(color: Option<Rgb>): seq<Member> {
    match color
    case None => []
    case Some(rgb) => [Member("color", Str(ColorText(rgb)))]
  }

  function Flag(key: string, on: bool): seq<Member> {
    if on then [Member(key, True)] else []
  }

  function Attributes(style: Style): seq<Member> {
    ColorMember(style.color) + Flag("bold", style.bold) + Flag("italic", style.italic) +
    Flag("underlined", style.underlined) + Flag("strikethrough", style.strikethrough) + Flag("obfuscated", style.obfuscated)
  }

  function Component(run: Run): Value {
    Obj([Member("text", Str(run.text))] + Attributes(run.style))
  }

  function Components(runs: seq<Run>): seq<Value> {
    if runs == [] then [] else [Component(runs[0])] + Components(runs[1..])
  }

  function ComponentOf(runs: seq<Run>): Value {
    if runs == [] then Obj([Member("text", Str(""))])
    else if |runs| == 1 then Component(runs[0])
    else Obj([Member("text", Str("")), Member("extra", Arr(Components(runs)))])
  }

  // Reading a component back, with the parser's own reading of colours.

  function Lookup(members: seq<Member>, key: string): Option<Value> {
    if members == [] then None
    else if members[0].key == key then Some(members[0].value)
    else Lookup(members[1..], key)
  }

  function ReadColor(v: Option<Value>): Option<Rgb> {
    if v.Some? && v.value.Str? && ColorFromStr(v.value.text).Color? then Some(ColorFromStr(v.value.text).rgb) else None
  }

  function ReadStyle(ms: seq<Member>): Style {
    var on := (key: string) => Lookup(ms, key) == Some(True);
    Style(ReadColor(Lookup(ms, "color")), on("bold"), on("italic"), on("underlined"), on("strikethrough"), on("obfuscated"))
  }

  function ReadRun(v: Value): Option<Run> {
    if !v.Obj? then None
    else
      match Lookup(v.members, "text")
      case Some(Str(text)) => Some(Run(text, ReadStyle(v.members)))
      case _ => None
  }

  function ReadRuns(items: seq<Value>): Option<seq<Run>> {
    if items == [] then Some([])
    else
      match (ReadRun(items[0]), ReadRuns(items[1..]))
      case (Some(run), Some(more)) => Some([run] + more)
      case _ => None
  }

  /** The styled runs of a component: its own text, if any, then its extras. */
  function RunsOf(v: Value): Option<seq<Run>> {
    var own := ReadRun(v);
    if own.None? then None
    else
      var head := if own.value.text == [] then [] else [own.value];
      match Lookup(v.members, "extra")
      case None => Some(head)
      case Some(Arr(items)) =>
        var more := ReadRuns(items);
        if more.None? then None else Some(head + more.value)
      case _ => None
  }

  lemma {:induction false} LookupConcat(a: seq<Member>, b: seq<Member>, key: string)
    ensures Lookup(a + b, key) == if Lookup(a, key).Some? then Lookup(a, key) else Lookup(b, key)
    decreases |a|
  {
    if a == [] {
      assert a + b == b;
    } else {
      assert (a + b)[1..] == a[1..] + b;
      LookupConcat(a[1..], b, key);
    }
  }

  lemma LookupFlag(name: string, on: bool, key: string)
    ensures Lookup(Flag(name, on), key) == if on && name == key then Some(True) else None
  {
  }

  lemma LookupColor(color: Option<Rgb>, key: string)
    ensures Lookup(ColorMember(color), key) == if color.Some? && key == "color" then Some(Str(ColorText(color.value))) else None
  {
  }

  /** Every attribute of a written run is found under its key. */
  lemma LookupAttribute(style: Style, text: string, key: string)
    ensures Lookup(Component(Run(text, style)).members, key) ==
            if key == "text" then Some(Str(text))
            else if key == "color" then (if style.color.Some? then Some(Str(ColorText(style.color.value))) else None)
            else if || (key == "bold" && style.bold) || (key == "italic" && style.italic) || (key == "underlined" && style.underlined)
                    || (key == "strikethrough" && style.strikethrough) || (key == "obfuscated" && style.obfuscated)
            then Some(True) else None
  {
    hide ColorText, Lookup;
    var a := ColorMember(style.color);
    var b := Flag("bold", style.bold);
    var c := Flag("italic", style.italic);
    var d := Flag("underlined", style.underlined);
    var e := Flag("strikethrough", style.strikethrough);
    var f := Flag("obfuscated", style.obfuscated);
    LookupConcat([Member("text", Str(text))], a + b + c + d + e + f, key);
    LookupConcat(a + b + c + d + e, f, key);
    LookupConcat(a + b + c + d, e, key);
    LookupConcat(a + b + c, d, key);
    LookupConcat(a + b, c, key);
    LookupConcat(a, b, key);
    LookupColor(style.color, key);
    LookupFlag("bold", style.bold, key);
    LookupFlag("italic", style.italic, key);
    LookupFlag("underlined", style.underlined, key);
    LookupFlag("strikethrough", style.strikethrough, key);
    LookupFlag("obfuscated", style.obfuscated, key);
    LookupText(text, key);
    KeysDiffer();
  }

  lemma LookupText(text: string, key: string)
    ensures Lookup([Member("text", Str(text))], key) == if key == "text" then Some(Str(text)) else None
  {
  }

  lemma KeysDiffer()
    ensures |"text"| == 4 && |"extra"| == 5 && |"color"| == 5 && |"bold"| == 4 && |"italic"| == 6 && |"underlined"| == 10
    ensures |"strikethrough"| == 13 && |"obfuscated"| == 10
    ensures "text"[0] == 't' && "extra"[0] == 'e' && "color"[0] == 'c' && "bold"[0] == 'b'
    ensures "underlined"[0] == 'u' && "obfuscated"[0] == 'o'
  {
  }

  /** A run's text, colour and decorations survive the component. */
  lemma ComponentReads(run: Run)
    ensures ReadRun(Component(run)) == Some(run) && Lookup(Component(run).members, "extra").None?
  {
    hide Lookup, ColorText, ColorFromStr, Attributes;
    KeysDiffer();
    LookupAttribute(run.style, run.text, "text");
    LookupAttribute(run.style, run.text, "extra");
    LookupAttribute(run.style, run.text, "color");
    LookupAttribute(run.style, run.text, "bold");
    LookupAttribute(run.style, run.text, "italic");
    LookupAttribute(run.style, run.text, "underlined");
    LookupAttribute(run.style, run.text, "strikethrough");
    LookupAttribute(run.style, run.text, "obfuscated");
    if run.style.color.Some? {
      ColorTextReads(run.style.color.value);
    }
  }

  lemma {:induction false} ComponentsRead(runs: seq<Run>)
    ensures ReadRuns(Components(runs)) == Some(runs)
  {
    hide Component, ReadRun;
    if runs != [] {
      ComponentReads(runs[0]);
      ComponentsRead(runs[1..]);
      assert [runs[0]] + runs[1..] == runs;
    }
  }

  lemma ComponentOfReads(runs: seq<Run>)
    requires Filled(runs)
    ensures RunsOf(ComponentOf(runs)) == Some(runs)
  {
    hide Component, ReadStyle;
    KeysDiffer();
    if |runs| == 1 {
      ComponentReads(runs[0]);
      assert runs == [runs[0]];
    } else {
      ComponentsRead(runs);
      var v := ComponentOf(runs);
      assert Lookup(v.members, "text") == Some(Str(""));
      var tail := v.members[1..];
      assert Lookup(v.members, "extra") == Lookup(tail, "extra");
      if |runs| > 1 {
        assert tail == [Member("extra", Arr(Components(runs)))];
        assert Lookup(tail, "extra") == Some(Arr(Components(runs)));
        assert [] + runs == runs;
      }
    }
  }

  /**
   * The JSON rendering is well formed, and reading it gives back every run: its text, its exact
   * colour and its decorations.
   */
  lemma JsonKeepsTextAndStyle(input: string, rest: string)
    ensures var read := ReadValue(Render(ComponentOf(Runs(input))) + rest);
            && read.Read? && read.rest == rest
            && RunsOf(read.value) == Some(Runs(input))
            && RunsText(RunsOf(read.value).value) == VisibleText(Tree(input))
  {
    hide ReadValue, Render, ComponentOf, RunsOf, Flatten, Tree, VisibleText;
    var runs := Runs(input);
    RenderRoundTrip(ComponentOf(runs), rest);
    FlattenFilled(Tree(input), PLAIN);
    ComponentOfReads(runs);
    RunsSpellTheText(Tree(input), PLAIN);
  }

  // ----- writing JSON text -----

  predicate VerbatimChar(c: char) {
    0x20 <= c as int && c != '"' && c != '\\'
  }

  ghost predicate Verbatim(s: string) {
    forall i :: 0 <= i < |s| ==> VerbatimChar(s[i])
  }

  lemma {:induction false} VerbatimEscape(s: string)
    requires Verbatim(s)
    ensures Escape(s) == s
  {
    if s != [] {
      VerbatimEscape(s[1..]);
    }
  }

  lemma {:induction false} RenderSnoc(ms: seq<Member>, m: Member)
    requires ms != []
    ensures RenderMembers(ms + [m]) == RenderMembers(ms) + [','] + RenderMember(m)
    decreases |ms|
  {
    hide RenderMember;
    assert (ms + [m])[1..] == ms[1..] + [m];
    if |ms| > 1 {
      RenderSnoc(ms[1..], m);
      var r := RenderMembers(ms[1..]);
      assert RenderMember(ms[0]) + [','] + (r + [','] + RenderMember(m)) == RenderMember(ms[0]) + [','] + r + [','] + RenderMember(m);
    }
  }

  lemma HexTextVerbatim(n: byte)
    ensures Verbatim(HexText(n)) && |HexText(n)| == 2
  {
  }

  lemma ColorTextVerbatim(rgb: Rgb)
    ensures Verbatim(ColorText(rgb))
  {
    hide NAMED, HexText;
    NamesArePlain();
    HexTextVerbatim(rgb.r);
    HexTextVerbatim(rgb.g);
    HexTextVerbatim(rgb.b);
  }

  lemma FlagText(key: string)
    requires Verbatim(key)
    ensures RenderMember(Member(key, True)) == ['"'] + key + ['"', ':'] + "true"
  {
    VerbatimEscape(key);
  }

  lemma StringText(key: string, text: string)
    requires Verbatim(key) && Escape(text) == text
    ensures RenderMember(Member(key, Str(text))) == Quoted(key, text)
  {
    hide Escape;
    VerbatimEscape(key);
  }

  /** One more `"key":true`, when the decoration is on. */
  method AddFlag(before: string, key: string, on: bool, ghost ms: seq<Member>) returns (out: string)
    requires ms != [] && Verbatim(key) && before == ['{'] + RenderMembers(ms)
    ensures out == ['{'] + RenderMembers(ms + Flag(key, on))
  {
    hide Verbatim, RenderMembers, RenderMember;
    out := before;
    if on {
      RenderSnoc(ms, Member(key, True));
      FlagText(key);
      out := out + [','] + (['"'] + key + ['"', ':'] + "true");
    } else {
      assert ms + Flag(key, on) == ms;
    }
  }

  method AddColor(before: string, color: Option<Rgb>, ghost ms: seq<Member>) returns (out: string)
    requires ms != [] && before == ['{'] + RenderMembers(ms)
    ensures out == ['{'] + RenderMembers(ms + ColorMember(color))
  {
    hide ColorText, Verbatim, RenderMembers, RenderMember, Quoted;
    out := before;
    if color.Some? {
      var text := ColorText(color.value);
      RenderSnoc(ms, Member("color", Str(text)));
      ColorTextVerbatim(color.value);
      VerbatimEscape(text);
      KeysVerbatim();
      StringText("color", text);
      out := out + [','] + Quoted("color", text);
    } else {
      assert ms + ColorMember(color) == ms;
    }
  }

  lemma KeysVerbatim()
    ensures Verbatim("text") && Verbatim("extra") && Verbatim("color") && Verbatim("bold") && Verbatim("italic")
    ensures Verbatim("underlined") && Verbatim("strikethrough") && Verbatim("obfuscated")
  {
  }

  /** `run_to_json`. */
  method RunToJson(run: Run) returns (out: string)
    ensures out == Render(Component(run))
  {
    hide Verbatim, Flag, ColorMember, RenderMembers, Quoted, Escape, Attributes;
    KeysVerbatim();
    var text := EscapeLoop(run.text);
    out := ['{'] + Quoted("text", text);
    TextMember(run.text);
    var s := run.style;
    ghost var m0 := [Member("text", Str(run.text))];
    out := AddColor(out, s.color, m0);
    ghost var m1 := m0 + ColorMember(s.color);
    out := AddFlag(out, "bold", s.bold, m1);
    ghost var m2 := m1 + Flag("bold", s.bold);
    out := AddFlag(out, "italic", s.italic, m2);
    ghost var m3 := m2 + Flag("italic", s.italic);
    out := AddFlag(out, "underlined", s.underlined, m3);
    ghost var m4 := m3 + Flag("underlined", s.underlined);
    out := AddFlag(out, "strikethrough", s.strikethrough, m4);
    ghost var m5 := m4 + Flag("strikethrough", s.strikethrough);
    out := AddFlag(out, "obfuscated", s.obfuscated, m5);
    AttributesInOrder(m0, s);
    out := out + ['}'];
  }

  lemma AttributesInOrder(ms: seq<Member>, s: Style)
    ensures ms + ColorMember(s.color) + Flag("bold", s.bold) + Flag("italic", s.italic) + Flag("underlined", s.underlined) +
            Flag("strikethrough", s.strikethrough) + Flag("obfuscated", s.obfuscated) == ms + Attributes(s)
  {
    hide Flag, ColorMember;
  }

  function Quoted(key: string, escaped: string): string {
    ['"'] + key + ['"', ':'] + (['"'] + escaped + ['"'])
  }

  lemma TextMember(text: string)
    ensures RenderMembers([Member("text", Str(text))]) == Quoted("text", Escape(text))
  {
    hide Verbatim;
    KeysVerbatim();
    VerbatimEscape("text");
    hide Escape;
    assert RenderMembers([Member("text", Str(text))]) == RenderMember(Member("text", Str(text)));
  }

  /** `to_json_component`; nothing is rendered when a colour panics. */
  method ToJsonComponent(input: string) returns (json: Option<string>)
    ensures json.None? <==> Panics(Tree(input))
    ensures json.Some? ==> json.value == Render(ComponentOf(Runs(input)))
  {
    hide Component, Tree, Flatten, Panics;
    var parsed := ParseRuns(input);
    if parsed.None? {
      return None;
    }
    var runs := parsed.value;
    if |runs| == 0 {
      EmptyComponent();
      json := Some(['{'] + Quoted("text", "") + ['}']);
    } else if |runs| == 1 {
      var one := RunToJson(runs[0]);
      json := Some(one);
    } else {
      var items := JoinRuns(runs);
      ManyComponents(runs);
      json := Some(Wrapped(items));
    }
  }

  lemma EmptyComponent()
    ensures Render(ComponentOf([])) == ['{'] + Quoted("text", "") + ['}']
  {
    TextMember("");
    NoEscape();
  }

  /** The literal text around the list of extras. */
  function Wrapped(items: string): string {
    ['{'] + (Quoted("text", "") + [','] + ("\"extra\":[" + items + "]")) + ['}']
  }

  lemma ExtraMember(items: seq<Value>)
    ensures RenderMember(Member("extra", Arr(items))) == "\"extra\":[" + RenderItems(items) + "]"
  {
    hide RenderItems, Escape, Verbatim;
    KeysVerbatim();
    VerbatimEscape("extra");
    var inner := RenderItems(items);
    assert ['"'] + "extra" + ['"', ':'] + (['['] + inner + [']']) == "\"extra\":[" + inner + "]";
  }

  lemma ManyComponents(runs: seq<Run>)
    requires |runs| > 1
    ensures Render(ComponentOf(runs)) == Wrapped(RenderItems(Components(runs)))
  {
    hide Component, Components, RenderItems, Escape, RenderMembers, RenderMember;
    var text, extra := Member("text", Str("")), Member("extra", Arr(Components(runs)));
    RenderSnoc([text], extra);
    assert [text] + [extra] == [text, extra];
    TextMember("");
    NoEscape();
    ExtraMember(Components(runs));
  }

  /** The runs' components, with commas between them. */
  method JoinRuns(runs: seq<Run>) returns (out: string)
    ensures out == RenderItems(Components(runs))
  {
    hide Component, Render;
    out := [];
    for i := 0 to |runs|
      invariant out == RenderItems(Components(runs[..i]))
    {
      if i > 0 {
        out := out + ",";
      }
      var json := RunToJson(runs[i]);
      out := out + json;
      assert runs[..i + 1] == runs[..i] + [runs[i]];
      ComponentsSnoc(runs[..i], runs[i]);
      ItemsSnoc(Components(runs[..i]), Component(runs[i]));
    }
    assert runs[..|runs|] == runs;
  }

  lemma {:induction false} ComponentsSnoc(runs: seq<Run>, run: Run)
    ensures Components(runs + [run]) == Components(runs) + [Component(run)] && |Components(runs)| == |runs|
    decreases |runs|
  {
    hide Component;
    if runs == [] {
      assert (runs + [run])[1..] == [];
    } else {
      assert (runs + [run])[1..] == runs[1..] + [run];
      ComponentsSnoc(runs[1..], run);
    }
  }

  lemma {:induction false} ItemsSnoc(items: seq<Value>, v: Value)
    ensures RenderItems(items + [v]) == RenderItems(items) + (if items == [] then [] else [',']) + Render(v)
    decreases |items|
  {
    hide Render;
    if items != [] {
      assert (items + [v])[1..] == items[1..] + [v];
      ItemsSnoc(items[1..], v);
    }
  }
}
