/** The section-sign renderer of `src/protocol/text_format.rs`, held against a client that reads the codes. */
module TextLegacy {
  import opened Bytes
  import opened Json
  import opened TextParser
  import opened TextColors
  import opened TextRuns
  import opened TextRender
  import TextTags

  // ----- writing -----

  function Coded(codes: string): string {
    if codes == [] then [] else [SECTION, codes[0]] + Coded(codes[1..])
  }

  function ColorCodes(color: Option<Rgb>): string {
    match color
    case None => []
    case Some(rgb) =>
      match EntryOf(rgb)
      case Some(e) => [SECTION, e.code]
      case None => [SECTION, 'x'] + Coded(HexColor(rgb))
  }

  function FlagCode(on: bool, code: char): string {
    if on then [SECTION, code] else []
  }

  function StyleCodes(style: Style): string {
    ColorCodes(style.color) + (FlagCode(style.bold, 'l') + (FlagCode(style.italic, 'o') + (FlagCode(style.underlined, 'n') +
      (FlagCode(style.strikethrough, 'm') + FlagCode(style.obfuscated, 'k')))))
  }

  function RunCodes(run: Run): string {
    if run.text == [] then [] else StyleCodes(run.style) + run.text
  }

  function Legacy(runs: seq<Run>): string {
    if runs == [] then [] else RunCodes(runs[0]) + Legacy(runs[1..])
  }

  method WriteHexCodes(before: string, digits: string) returns (out: string)
    ensures out == before + Coded(digits)
  {
    out := before;
    assert digits[0..] == digits;
    for i := 0 to |digits|
      invariant out + Coded(digits[i..]) == before + Coded(digits)
    {
      assert digits[i..][1..] == digits[i + 1..];
      ghost var rest := Coded(digits[i + 1..]);
      assert out + ([SECTION, digits[i]] + rest) == out + [SECTION, digits[i]] + rest;
      out := out + [SECTION, digits[i]];
    }
    assert out + [] == out;
  }

  method WriteColor(before: string, color: Option<Rgb>) returns (out: string)
    ensures out == before + ColorCodes(color)
  {
    hide HexColor, EntryOf, Coded;
    out := before;
    if color.Some? {
      var e := EntryOf(color.value);
      if e.Some? {
        out := out + [SECTION, e.value.code];
      } else {
        out := WriteHexCodes(out + [SECTION, 'x'], HexColor(color.value));
        Regroup(before, [SECTION, 'x'], Coded(HexColor(color.value)));
      }
    } else {
      assert before + ColorCodes(color) == before;
    }
  }

  method WriteFlag(before: string, on: bool, code: char) returns (out: string)
    ensures out == before + FlagCode(on, code)
  {
    out := if on then before + [SECTION, code] else before;
  }

  /** `write_legacy_style`. */
  method WriteStyle(before: string, style: Style) returns (out: string)
    ensures out == before + StyleCodes(style)
  {
    hide ColorCodes, FlagCode;
    out := WriteColor(before, style.color);
    out := WriteFlag(out, style.bold, 'l');
    out := WriteFlag(out, style.italic, 'o');
    out := WriteFlag(out, style.underlined, 'n');
    out := WriteFlag(out, style.strikethrough, 'm');
    out := WriteFlag(out, style.obfuscated, 'k');
  }

  method WriteRun(before: string, run: Run) returns (out: string)
    ensures out == before + RunCodes(run)
  {
    hide StyleCodes;
    out := before;
    if run.text != [] {
      out := WriteStyle(out, run.style);
      out := out + run.text;
    }
  }

  /** The loop of `to_legacy_text`. */
  method WriteRuns(runs: seq<Run>) returns (out: string)
    ensures out == Legacy(runs)
  {
    hide RunCodes;
    out := [];
    assert runs[0..] == runs;
    for i := 0 to |runs|
      invariant out + Legacy(runs[i..]) == Legacy(runs)
    {
      assert runs[i..][1..] == runs[i + 1..];
      Regroup(out, RunCodes(runs[i]), Legacy(runs[i + 1..]));
      out := WriteRun(out, runs[i]);
    }
  }

  /** `to_legacy_text`. */
  method ToLegacyText(input: string) returns (text: Option<string>)
    ensures text.None? <==> Panics(Tree(input))
    ensures text.Some? ==> text.value == Legacy(Runs(input))
  {
    hide Tree, Flatten, Panics, Legacy, Runs;
    var parsed := ParseRuns(input);
    if parsed.None? {
      return None;
    }
    var out := WriteRuns(parsed.value);
    text := Some(out);
  }

  // ----- a client's reading -----

  /** What a code does to the style in force: a colour drops the decorations, as does a reset. */
  function Follow(code: char, style: Style): Style {
    if CodeColor(code).Some? then PLAIN.(color := CodeColor(code))
    else if code == 'l' then style.(bold := true)
    else if code == 'o' then style.(italic := true)
    else if code == 'n' then style.(underlined := true)
    else if code == 'm' then style.(strikethrough := true)
    else if code == 'k' then style.(obfuscated := true)
    else if code == 'r' then PLAIN
    else style
  }

  /** The colour of an `x` code followed by six coded hex digits. */
  function HexCodes(s: string): Option<Rgb> {
    if |s| < 14 || s[1] != 'x' || !(s[2] == s[4] == s[6] == s[8] == s[10] == s[12] == SECTION) then None
    else
      match (HexPair([s[3], s[5]]), HexPair([s[7], s[9]]), HexPair([s[11], s[13]]))
      case (Some(r), Some(g), Some(b)) => Some(Rgb(r, g, b))
      case _ => None
  }

  function Shown(s: string, style: Style): seq<Cell> {
    if s == [] then []
    else if s[0] != SECTION then [Cell(s[0], style)] + Shown(s[1..], style)
    else if |s| == 1 then []
    else if HexCodes(s).Some? then Shown(s[14..], PLAIN.(color := HexCodes(s)))
    else Shown(s[2..], Follow(s[1], style))
  }

  /** The text left after deleting every section sign and the character behind it. */
  function Strip(s: string): string {
    if s == [] then []
    else if s[0] != SECTION then [s[0]] + Strip(s[1..])
    else if |s| == 1 then []
    else Strip(s[2..])
  }

  /** The client shows the stripped text, whatever the codes. */
  lemma {:induction false} ShownIsStripped(s: string, style: Style)
    ensures Chars(Shown(s, style)) == Strip(s)
    decreases |s|
  {
    hide Follow, HexCodes;
    if s == [] {
    } else if s[0] != SECTION {
      ShownIsStripped(s[1..], style);
    } else if |s| > 1 {
      if HexCodes(s).Some? {
        HexCodesAreCoded(s);
        StripCoded(s, 7);
        ShownIsStripped(s[14..], PLAIN.(color := HexCodes(s)));
      } else {
        ShownIsStripped(s[2..], Follow(s[1], style));
      }
    }
  }

  lemma HexCodesAreCoded(s: string)
    requires s != [] && s[0] == SECTION && HexCodes(s).Some?
    ensures |s| >= 14 && forall k :: 0 <= k < 7 ==> s[2 * k] == SECTION
  {
  }

  lemma {:induction false} StripCoded(s: string, n: nat)
    requires |s| >= 2 * n && forall k :: 0 <= k < n ==> s[2 * k] == SECTION
    ensures Strip(s) == Strip(s[2 * n..])
    decreases n
  {
    if n > 0 {
      assert s[2 * 0] == SECTION;
      var t := s[2..];
      forall k | 0 <= k < n - 1 ensures t[2 * k] == SECTION {
        assert t[2 * k] == s[2 * (k + 1)];
      }
      StripCoded(t, n - 1);
      assert t[2 * (n - 1)..] == s[2 * n..];
    }
  }

  /** The style in force after a run's codes, when `before` was in force. */
  function Worn(before: Style, style: Style): Style {
    if style.color.Some? then style
    else
      Style(before.color, before.bold || style.bold, before.italic || style.italic, before.underlined || style.underlined,
            before.strikethrough || style.strikethrough, before.obfuscated || style.obfuscated)
  }

  lemma OneCode(code: char, rest: string, style: Style)
    requires code != 'x'
    ensures Shown([SECTION, code] + rest, style) == Shown(rest, Follow(code, style))
  {
  }

  lemma CodesAreNoX()
    ensures CodeColor('x').None? && CodeColor('l').None? && CodeColor('o').None? && CodeColor('n').None?
    ensures CodeColor('m').None? && CodeColor('k').None?
  {
    hide NAMED;
    CodesAreDigits();
    assert forall i :: 0 <= i < 16 ==> HexDigit(i) != 'x' && HexDigit(i) != 'l' && HexDigit(i) != 'o';
    assert forall i :: 0 <= i < 16 ==> HexDigit(i) != 'n' && HexDigit(i) != 'm' && HexDigit(i) != 'k';
  }

  lemma ColorShown(color: Option<Rgb>, rest: string, style: Style)
    ensures Shown(ColorCodes(color) + rest, style) == Shown(rest, if color.Some? then PLAIN.(color := color) else style)
  {
    hide Shown, HexColor, EntryOf, CodeColor;
    if color.None? {
      assert ColorCodes(color) + rest == rest;
    } else {
      CodesAreNoX();
      match EntryOf(color.value)
      case Some(e) =>
        EntryReadsBack(color.value);
        OneCode(e.code, rest, style);
      case None =>
        HexShown(color.value, rest, style);
    }
  }

  lemma HexShown(rgb: Rgb, rest: string, style: Style)
    ensures Shown([SECTION, 'x'] + Coded(HexColor(rgb)) + rest, style) == Shown(rest, PLAIN.(color := Some(rgb)))
  {
    hide HexPair;
    HexTextReads(rgb.r);
    HexTextReads(rgb.g);
    HexTextReads(rgb.b);
    var s := [SECTION, 'x'] + Coded(HexColor(rgb)) + rest;
    CodedHex(HexColor(rgb));
    hide HexDigit;
    assert HexCodes(s) == Some(rgb);
    assert s[14..] == rest;
  }

  lemma CodedHex(d: string)
    requires |d| == 6
    ensures Coded(d) == [SECTION, d[0], SECTION, d[1], SECTION, d[2], SECTION, d[3], SECTION, d[4], SECTION, d[5]]
  {
    assert Coded(d[5..]) == [SECTION, d[5]];
    assert Coded(d[4..]) == [SECTION, d[4]] + Coded(d[5..]) by { assert d[4..][1..] == d[5..]; }
    assert Coded(d[3..]) == [SECTION, d[3]] + Coded(d[4..]) by { assert d[3..][1..] == d[4..]; }
    assert Coded(d[2..]) == [SECTION, d[2]] + Coded(d[3..]) by { assert d[2..][1..] == d[3..]; }
    assert Coded(d[1..]) == [SECTION, d[1]] + Coded(d[2..]) by { assert d[1..][1..] == d[2..]; }
  }

  lemma FlagShown(on: bool, code: char, rest: string, style: Style)
    requires code != 'x'
    ensures Shown(FlagCode(on, code) + rest, style) == Shown(rest, if on then Follow(code, style) else style)
  {
    hide Shown, Follow;
    if on {
      OneCode(code, rest, style);
    } else {
      assert FlagCode(on, code) + rest == rest;
    }
  }

  /** Reading a run's codes puts its style in force, on top of what was in force unless it has a colour. */
  lemma StyleShown(style: Style, rest: string, before: Style)
    ensures Shown(StyleCodes(style) + rest, before) == Shown(rest, Worn(before, style))
  {
    hide Shown, ColorCodes, FlagCode, CodeColor;
    var k := FlagCode(style.obfuscated, 'k');
    var mk := FlagCode(style.strikethrough, 'm') + k;
    var nmk := FlagCode(style.underlined, 'n') + mk;
    var onmk := FlagCode(style.italic, 'o') + nmk;
    var all := FlagCode(style.bold, 'l') + onmk;
    var s0 := if style.color.Some? then PLAIN.(color := style.color) else before;
    var s1 := if style.bold then Follow('l', s0) else s0;
    var s2 := if style.italic then Follow('o', s1) else s1;
    var s3 := if style.underlined then Follow('n', s2) else s2;
    var s4 := if style.strikethrough then Follow('m', s3) else s3;
    var s5 := if style.obfuscated then Follow('k', s4) else s4;
    Regroup(ColorCodes(style.color), all, rest);
    ColorShown(style.color, all + rest, before);
    Regroup(FlagCode(style.bold, 'l'), onmk, rest);
    FlagShown(style.bold, 'l', onmk + rest, s0);
    Regroup(FlagCode(style.italic, 'o'), nmk, rest);
    FlagShown(style.italic, 'o', nmk + rest, s1);
    Regroup(FlagCode(style.underlined, 'n'), mk, rest);
    FlagShown(style.underlined, 'n', mk + rest, s2);
    Regroup(FlagCode(style.strikethrough, 'm'), k, rest);
    FlagShown(style.strikethrough, 'm', k + rest, s3);
    FlagShown(style.obfuscated, 'k', rest, s4);
    CodesAreNoX();
    assert s5 == Worn(before, style);
  }

  lemma {:induction false} TextShown(text: string, rest: string, style: Style)
    requires SECTION !in text
    ensures Shown(text + rest, style) == Spell(text, style) + Shown(rest, style)
    decreases |text|
  {
    if text == [] {
      assert text + rest == rest;
    } else {
      assert (text + rest)[1..] == text[1..] + rest;
      TextShown(text[1..], rest, style);
    }
  }

  ghost predicate NoSections(runs: seq<Run>) {
    forall i :: 0 <= i < |runs| ==> SECTION !in runs[i].text
  }

  /** What the client shows for `runs` when `before` is in force. */
  function WornCells(runs: seq<Run>, before: Style): seq<Cell> {
    if runs == [] then []
    else
      var worn := Worn(before, runs[0].style);
      Spell(runs[0].text, worn) + WornCells(runs[1..], worn)
  }

  lemma {:induction false} LegacyShown(runs: seq<Run>, before: Style)
    requires Filled(runs) && NoSections(runs)
    ensures Shown(Legacy(runs), before) == WornCells(runs, before)
    decreases |runs|
  {
    hide Shown, StyleCodes, Worn;
    if runs == [] {
      NothingShown(before);
    } else {
      var run := runs[0];
      var worn := Worn(before, run.style);
      Regroup(StyleCodes(run.style), run.text, Legacy(runs[1..]));
      StyleShown(run.style, run.text + Legacy(runs[1..]), before);
      TextShown(run.text, Legacy(runs[1..]), worn);
      LegacyShown(runs[1..], worn);
    }
  }

  lemma NothingShown(style: Style)
    ensures Shown([], style) == []
  {
  }

  // ----- when the rendering is faithful -----

  /** A run's codes are enough after `before`: it has a colour, or nothing of `before` outlasts it. */
  predicate Covers(before: Style, style: Style) {
    || style.color.Some?
    || (&& before.color.None? && (before.bold ==> style.bold) && (before.italic ==> style.italic)
        && (before.underlined ==> style.underlined) && (before.strikethrough ==> style.strikethrough)
        && (before.obfuscated ==> style.obfuscated))
  }

  predicate Covered(runs: seq<Run>, before: Style) {
    runs == [] || (Covers(before, runs[0].style) && Covered(runs[1..], runs[0].style))
  }

  lemma SpellFirst(text: string, style: Style)
    requires text != []
    ensures |Spell(text, style)| > 0 && Spell(text, style)[0] == Cell(text[0], style)
  {
  }

  lemma {:induction false} WornIffCovered(runs: seq<Run>, before: Style)
    requires Filled(runs)
    ensures WornCells(runs, before) == Cells(runs) <==> Covered(runs, before)
    decreases |runs|
  {
    hide Spell, Worn, Covers;
    if runs != [] {
      var run, rest := runs[0], runs[1..];
      var worn := Worn(before, run.style);
      WornWhenCovers(before, run.style);
      SpellFirst(run.text, worn);
      SpellFirst(run.text, run.style);
      var shown, meant := WornCells(runs, before), Cells(runs);
      assert shown[0] == Cell(run.text[0], worn) && meant[0] == Cell(run.text[0], run.style);
      WornIffCovered(rest, run.style);
      if worn == run.style {
        var head := Spell(run.text, worn);
        assert shown == head + WornCells(rest, run.style) && meant == head + Cells(rest);
        assert shown[|head|..] == WornCells(rest, run.style) && meant[|head|..] == Cells(rest);
      }
    }
  }

  lemma WornWhenCovers(before: Style, style: Style)
    ensures Worn(before, style) == style <==> Covers(before, style)
  {
  }

  /** Texts of runs are parts of their joint text. */
  lemma {:induction false} RunsHaveNoSections(runs: seq<Run>)
    requires SECTION !in RunsText(runs)
    ensures NoSections(runs)
  {
    if runs != [] {
      RunsHaveNoSections(runs[1..]);
    }
  }

  lemma VisiblyNoSections(input: string)
    requires SECTION !in VisibleText(Tree(input))
    ensures NoSections(Runs(input)) && Filled(Runs(input))
  {
    hide Flatten, Tree, VisibleText, RunsText;
    RunsSpellTheText(Tree(input), PLAIN);
    RunsHaveNoSections(Runs(input));
    FlattenFilled(Tree(input), PLAIN);
  }

  lemma {:induction false} WornText(runs: seq<Run>, before: Style)
    ensures Chars(WornCells(runs, before)) == RunsText(runs)
    decreases |runs|
  {
    hide Worn;
    if runs != [] {
      var worn := Worn(before, runs[0].style);
      CharsConcat(Spell(runs[0].text, worn), WornCells(runs[1..], worn));
      CharsSpell(runs[0].text, worn);
      WornText(runs[1..], worn);
    }
  }

  lemma RunsShowTheText(input: string)
    ensures RunsText(Runs(input)) == VisibleText(Tree(input))
  {
    RunsSpellTheText(Tree(input), PLAIN);
  }

  lemma {:induction false} StripHasNoSection(s: string)
    ensures SECTION !in Strip(s)
    decreases |s|
  {
    if s != [] {
      if s[0] != SECTION {
        StripHasNoSection(s[1..]);
      } else if |s| > 1 {
        StripHasNoSection(s[2..]);
      }
    }
  }

  /**
   * Stripped of its codes, the legacy rendering is the visible text, the same that the JSON one
   * carries, exactly if that shows no section sign; input without one shows none.
   */
  lemma StrippedLegacyIsVisible(input: string)
    ensures Strip(Legacy(Runs(input))) == VisibleText(Tree(input)) <==> SECTION !in VisibleText(Tree(input))
    ensures SECTION !in input ==> SECTION !in VisibleText(Tree(input))
  {
    hide Runs, Strip, Shown, Legacy, Tree, VisibleText;
    var runs := Runs(input);
    StripHasNoSection(Legacy(runs));
    if SECTION !in VisibleText(Tree(input)) {
      VisiblyNoSections(input);
      LegacyShown(runs, PLAIN);
      ShownIsStripped(Legacy(runs), PLAIN);
      WornText(runs, PLAIN);
      RunsShowTheText(input);
    }
    if SECTION !in input {
      NoSectionVisible(input);
    }
  }

  /**
   * The client shows each character in its run's style exactly when no section sign is visible
   * and every run either has a colour of its own or keeps all of the decorations of an
   * uncoloured run before it.
   */
  lemma LegacyFaithfulIff(input: string)
    ensures Shown(Legacy(Runs(input)), PLAIN) == Cells(Runs(input)) <==>
            SECTION !in VisibleText(Tree(input)) && Covered(Runs(input), PLAIN)
  {
    hide Runs, Shown, Legacy, Strip, Tree, VisibleText;
    var runs := Runs(input);
    if SECTION !in VisibleText(Tree(input)) {
      VisiblyNoSections(input);
      LegacyShown(runs, PLAIN);
      WornIffCovered(runs, PLAIN);
    } else {
      StripHasNoSection(Legacy(runs));
      ShownIsStripped(Legacy(runs), PLAIN);
      CharsCells(runs);
      RunsShowTheText(input);
    }
  }

  /**
   * The rendering is not always faithful: after a bold run, an uncoloured plain one is shown bold,
   * because nothing in its codes ends the decoration.
   */
  lemma DecorationLeaks(a: string, b: string)
    requires a != [] && b != [] && '&' !in a && '&' !in b && SECTION !in a && SECTION !in b
    ensures var input := Written([Tag("bold", [], [Text(a)]), Text(b)]);
            && SECTION !in input
            && Runs(input) == [Run(a, PLAIN.(bold := true)), Run(b, PLAIN)]
            && Shown(Legacy(Runs(input)), PLAIN) != Cells(Runs(input))
  {
    hide Shown, Legacy, Cells;
    var nodes := [Tag("bold", [], [Text(a)]), Text(b)];
    var input := Written(nodes);
    LeakingInput(a, b);
    UncodedIsKept(input);
    WriteParseRoundTrip(nodes);
    LeakingRuns(a, b);
    LegacyFaithfulIff(input);
    assert Runs(input)[1..][0] == Run(b, PLAIN);
  }

  lemma {:induction false} EscapedHas(text: string, c: char)
    requires c != '\\' && c !in text
    ensures c !in Escaped(text)
  {
    if text != [] {
      EscapedHas(text[1..], c);
    }
  }

  lemma OneText(a: string)
    requires a != []
    ensures Written([Text(a)]) == Escaped(a) && Writable([Text(a)])
  {
    var nodes := [Text(a)];
    assert nodes[0] == Text(a) && nodes[1..] == [];
    assert WrittenNode(nodes[0]) == Escaped(a) && Written(nodes[1..]) == [];
    assert Written(nodes) == Escaped(a) + [];
    assert WritableNode(nodes[0]) && Writable(nodes[1..]);
  }

  lemma BoldText(a: string)
    requires a != []
    ensures var tag := Tag("bold", [], [Text(a)]);
            WritableNode(tag) && WrittenNode(tag) == ['<'] + "bold" + ['>'] + Escaped(a) + "</>"
  {
    OneText(a);
    hide Written, Writable, Escaped;
    assert ["bold"] + [] == ["bold"] && Joined(["bold"]) == "bold";
    assert "bold"[0] == 'b';
  }

  lemma LeakingInput(a: string, b: string)
    requires a != [] && b != [] && '&' !in a && '&' !in b && SECTION !in a && SECTION !in b
    ensures var nodes := [Tag("bold", [], [Text(a)]), Text(b)];
            var input := Written(nodes);
            Writable(nodes) && '&' !in input && SECTION !in input
  {
    EscapedHas(a, '&');
    EscapedHas(a, SECTION);
    EscapedHas(b, '&');
    EscapedHas(b, SECTION);
    BoldText(a);
    OneText(b);
    hide Escaped, WritableNode, WrittenNode;
    var tag := Tag("bold", [], [Text(a)]);
    var nodes := [tag, Text(b)];
    assert nodes[1..] == [Text(b)];
    assert Written(nodes) == WrittenNode(tag) + Escaped(b);
  }

  lemma LeakingRuns(a: string, b: string)
    requires a != [] && b != []
    ensures Flatten([Tag("bold", [], [Text(a)]), Text(b)], PLAIN) == [Run(a, PLAIN.(bold := true)), Run(b, PLAIN)]
  {
    var nodes := [Tag("bold", [], [Text(a)]), Text(b)];
    BoldTag();
    assert nodes[1..] == [Text(b)];
    assert Flatten([Text(b)], PLAIN) == [Run(b, PLAIN)] + [];
    assert Flatten([Text(a)], PLAIN.(bold := true)) == [Run(a, PLAIN.(bold := true))] + [];
  }

  lemma BoldTag()
    ensures !IsGradient("bold") && ApplyTag(PLAIN, "bold", []) == PLAIN.(bold := true)
  {
  }

  // ----- which codes -----

  lemma ColorsAreDistinct()
    ensures forall i, j :: 0 <= i < j < |NAMED| ==> NAMED[i].rgb != NAMED[j].rgb
  {
  }

  lemma ColorFinds(i: nat)
    requires i < |NAMED|
    ensures EntryOf(NAMED[i].rgb) == Some(NAMED[i])
  {
    hide NAMED;
    ColorsAreDistinct();
    var found := Find(NAMED, (e: Named) => e.rgb == NAMED[i].rgb);
    assert NAMED[i] in NAMED;
    var k: nat :| k < |NAMED| && NAMED[k] == found.value;
    assert k == i;
  }

  lemma ColorIsNamed(c: char)
    requires '0' <= c <= '9' || 'a' <= c <= 'f'
    ensures var i := if c <= '9' then c as int - '0' as int else c as int - 'a' as int + 10;
            i < |NAMED| && NAMED[i].code == c && TextTags.CodeStyle(c) == Some(PLAIN.(color := Some(NAMED[i].rgb)))
  {
  }

  lemma ColorIsWritten(rgb: Rgb)
    requires EntryOf(rgb).Some?
    ensures StyleCodes(PLAIN.(color := Some(rgb))) == ['\U{00A7}', EntryOf(rgb).value.code]
  {
    hide NAMED, EntryOf;
  }

  lemma DecorationIsWritten()
    ensures StyleCodes(PLAIN.(bold := true)) == ['\U{00A7}', 'l']
    ensures StyleCodes(PLAIN.(italic := true)) == ['\U{00A7}', 'o']
    ensures StyleCodes(PLAIN.(underlined := true)) == ['\U{00A7}', 'n']
    ensures StyleCodes(PLAIN.(strikethrough := true)) == ['\U{00A7}', 'm']
    ensures StyleCodes(PLAIN.(obfuscated := true)) == ['\U{00A7}', 'k']
  {
  }

  /** Each colour or decoration is written as a section sign and the letter that stands for it behind an ampersand. */
  lemma CodeIsWritten(c: char)
    requires TextTags.CodeStyle(c).Some? && c != 'r'
    ensures StyleCodes(TextTags.CodeStyle(c).value) == ['\U{00A7}', c]
  {
    hide NAMED, EntryOf, StyleCodes;
    DecorationIsWritten();
    if '0' <= c <= '9' || 'a' <= c <= 'f' {
      hide TextTags.CodeStyle;
      ColorIsNamed(c);
      var i := if c <= '9' then c as int - '0' as int else c as int - 'a' as int + 10;
      ColorFinds(i);
      ColorIsWritten(NAMED[i].rgb);
    }
  }
}
