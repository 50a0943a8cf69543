/**
 * What the tags and codes of `src/protocol/text_format.rs` mean, said by their names: which
 * decorations and which colour each visible character has, from the tags around it.
 */
module TextTags {
  import opened Bytes
  import opened StatusKeys
  import opened TextParser
  import opened TextColors
  import opened Gradients
  import opened TextRuns

  // ----- one tag -----

  predicate IsReset(n: string) { n == "reset" }
  predicate IsBold(n: string) { n == "bold" || n == "b" }
  predicate IsItalic(n: string) { n == "italic" || n == "i" || n == "em" }
  predicate IsUnderlined(n: string) { n == "underlined" || n == "u" }
  predicate IsStrikethrough(n: string) { n == "strikethrough" || n == "st" }
  predicate IsObfuscated(n: string) { n == "obfuscated" || n == "obf" }
  predicate IsColor(n: string) { n == "color" || n == "colour" }

  /** Each name has one meaning. */
  lemma ShortNames(n: string)
    requires |n| <= 3
    ensures (KindOf(n) == Bold <==> IsBold(n)) && (KindOf(n) == Italic <==> IsItalic(n)) && (KindOf(n) == Underlined <==> IsUnderlined(n))
    ensures (KindOf(n) == Strikethrough <==> IsStrikethrough(n)) && (KindOf(n) == Obfuscated <==> IsObfuscated(n))
    ensures KindOf(n) != ByArgument && KindOf(n) != Reset && !IsReset(n) && !IsColor(n)
  {
  }

  lemma LongNames(n: string)
    requires |n| > 3
    ensures (KindOf(n) == Bold <==> IsBold(n)) && (KindOf(n) == Italic <==> IsItalic(n)) && (KindOf(n) == Underlined <==> IsUnderlined(n))
    ensures (KindOf(n) == Strikethrough <==> IsStrikethrough(n)) && (KindOf(n) == Obfuscated <==> IsObfuscated(n))
    ensures (KindOf(n) == ByArgument <==> IsColor(n)) && (KindOf(n) == Reset <==> IsReset(n))
  {
  }

  /** The colour a tag gives of its own: by its argument, or by its name if that is not a decoration's. */
  function OwnColor(n: string, args: seq<string>): Option<Rgb> {
    if IsColor(n) then (if args == [] then None else ColorOf(args[0]))
    else if IsReset(n) || IsBold(n) || IsItalic(n) || IsUnderlined(n) || IsStrikethrough(n) || IsObfuscated(n) then None
    else ColorOf(n)
  }

  function ColorOf(s: string): Option<Rgb> {
    match ColorFromStr(s)
    case Color(rgb) => Some(rgb)
    case _ => None
  }

  /**
   * A tag by its name: a reset clears everything, a decoration is switched on, a colour replaces
   * the colour, and any other tag leaves the style alone.
   */
  lemma TagMeans(style: Style, name: string, args: seq<string>)
    ensures var n, after := Lower(name), ApplyTag(style, name, args);
            if IsReset(n) then after == Style(None, false, false, false, false, false)
            else
              && after.bold == (style.bold || IsBold(n))
              && after.italic == (style.italic || IsItalic(n))
              && after.underlined == (style.underlined || IsUnderlined(n))
              && after.strikethrough == (style.strikethrough || IsStrikethrough(n))
              && after.obfuscated == (style.obfuscated || IsObfuscated(n))
              && after.color == (if OwnColor(n, args).Some? then OwnColor(n, args) else style.color)
  {
    hide ColorFromStr, KindOf, IsReset, IsBold, IsItalic, IsUnderlined, IsStrikethrough, IsObfuscated, IsColor, Lower;
    KindsAre(Lower(name));
  }

  lemma KindsAre(n: string)
    ensures (KindOf(n) == Bold <==> IsBold(n)) && (KindOf(n) == Italic <==> IsItalic(n)) && (KindOf(n) == Underlined <==> IsUnderlined(n))
    ensures (KindOf(n) == Strikethrough <==> IsStrikethrough(n)) && (KindOf(n) == Obfuscated <==> IsObfuscated(n))
    ensures (KindOf(n) == ByArgument <==> IsColor(n)) && (KindOf(n) == Reset <==> IsReset(n))
  {
    hide KindOf, IsReset, IsBold, IsItalic, IsUnderlined, IsStrikethrough, IsObfuscated, IsColor;
    if |n| <= 3 {
      ShortNames(n);
    } else {
      LongNames(n);
    }
  }

  // ----- the tags around a character -----

  datatype TagUse = TagUse(name: string, args: seq<string>)

  /** The style under `path`, the tags from the outermost in. */
  function StyleUnder(path: seq<TagUse>): Style {
    if path == [] then PLAIN
    else
      var last := path[|path| - 1];
      ApplyTag(StyleUnder(path[..|path| - 1]), last.name, last.args)
  }

  lemma StyleUnderMore(path: seq<TagUse>, t: TagUse)
    ensures StyleUnder(path + [t]) == ApplyTag(StyleUnder(path), t.name, t.args)
  {
    hide ApplyTag;
    assert (path + [t])[..|path|] == path;
  }

  /** The tag at `i` is inside of which no reset stands. */
  ghost predicate InForce(path: seq<TagUse>, i: nat)
    requires i < |path|
  {
    forall j :: i <= j < |path| ==> !IsReset(Lower(path[j].name))
  }

  /** Some tag in force has such a name. */
  ghost predicate On(path: seq<TagUse>, named: string -> bool) {
    exists i: nat :: i < |path| && InForce(path, i) && named(Lower(path[i].name))
  }

  /** The colour of the innermost tag in force that has one. */
  ghost predicate ColorIs(path: seq<TagUse>, color: Option<Rgb>) {
    match color
    case None => forall i: nat :: i < |path| && InForce(path, i) ==> OwnColor(Lower(path[i].name), path[i].args).None?
    case Some(rgb) => exists i: nat :: i < |path| && Innermost(path, i, rgb)
  }

  ghost predicate Innermost(path: seq<TagUse>, i: nat, rgb: Rgb)
    requires i < |path|
  {
    && InForce(path, i) && OwnColor(Lower(path[i].name), path[i].args) == Some(rgb)
    && forall j :: i < j < |path| ==> OwnColor(Lower(path[j].name), path[j].args).None?
  }

  lemma InForceMore(path: seq<TagUse>, t: TagUse, i: nat)
    requires i < |path|
    ensures InForce(path + [t], i) <==> InForce(path, i) && !IsReset(Lower(t.name))
  {
    hide Lower, IsReset;
    var more := path + [t];
    assert forall j :: i <= j < |path| ==> more[j] == path[j];
    assert more[|path|] == t;
  }

  lemma OnMore(path: seq<TagUse>, t: TagUse, named: string -> bool)
    requires named(Lower(t.name)) ==> !IsReset(Lower(t.name))
    ensures On(path + [t], named) <==> named(Lower(t.name)) || (On(path, named) && !IsReset(Lower(t.name)))
  {
    hide Lower, IsReset;
    var more := path + [t];
    assert more[|path|] == t;
    assert InForce(more, |path|) <==> !IsReset(Lower(t.name));
    if On(more, named) {
      var i: nat :| i < |more| && InForce(more, i) && named(Lower(more[i].name));
      if i < |path| {
        InForceMore(path, t, i);
        assert named(Lower(path[i].name));
      }
    }
    if On(path, named) && !IsReset(Lower(t.name)) {
      var i: nat :| i < |path| && InForce(path, i) && named(Lower(path[i].name));
      InForceMore(path, t, i);
      assert named(Lower(more[i].name));
    }
    if named(Lower(t.name)) {
      assert more[|path|] == t && InForce(more, |path|);
    }
  }

  lemma ColorMore(path: seq<TagUse>, t: TagUse, color: Option<Rgb>)
    requires ColorIs(path, color)
    ensures ColorIs(path + [t], if IsReset(Lower(t.name)) then None
                                else if OwnColor(Lower(t.name), t.args).Some? then OwnColor(Lower(t.name), t.args)
                                else color)
  {
    hide Lower, OwnColor, IsReset;
    var more := path + [t];
    assert more[|path|] == t && forall i :: 0 <= i < |path| ==> more[i] == path[i];
    forall i: nat | i < |path| ensures InForce(more, i) <==> InForce(path, i) && !IsReset(Lower(t.name)) {
      InForceMore(path, t, i);
    }
    assert InForce(more, |path|) <==> !IsReset(Lower(t.name));
    if IsReset(Lower(t.name)) {
      assert forall i: nat :: i < |more| ==> !InForce(more, i);
    } else if OwnColor(Lower(t.name), t.args).Some? {
      assert Innermost(more, |path|, OwnColor(Lower(t.name), t.args).value);
    } else if color.Some? {
      var i: nat :| i < |path| && Innermost(path, i, color.value);
      assert Innermost(more, i, color.value);
    }
  }

  /**
   * A decoration is on exactly if a tag around the character, with no reset inside it, has one
   * of its names; the colour is that of the innermost such tag that has one.
   */
  ghost predicate StyleMeans(path: seq<TagUse>, style: Style) {
    && (style.bold <==> On(path, IsBold)) && (style.italic <==> On(path, IsItalic))
    && (style.underlined <==> On(path, IsUnderlined)) && (style.strikethrough <==> On(path, IsStrikethrough))
    && (style.obfuscated <==> On(path, IsObfuscated)) && ColorIs(path, style.color)
  }

  lemma {:induction false} StyleUnderMeans(path: seq<TagUse>)
    ensures StyleMeans(path, StyleUnder(path))
  {
    if path != [] {
      var before, t := path[..|path| - 1], path[|path| - 1];
      assert path == before + [t];
      StyleUnderMeans(before);
      StyleUnderMore(before, t);
      ResetIsNoDecoration(Lower(t.name));
      TagMeans(StyleUnder(before), t.name, t.args);
      hide ApplyTag, Lower, On, ColorIs, OwnColor, IsReset, IsBold, IsItalic, IsUnderlined, IsStrikethrough, IsObfuscated;
      OnMore(before, t, IsBold);
      OnMore(before, t, IsItalic);
      OnMore(before, t, IsUnderlined);
      OnMore(before, t, IsStrikethrough);
      OnMore(before, t, IsObfuscated);
      ColorMore(before, t, StyleUnder(before).color);
    }
  }

  lemma ResetIsNoDecoration(n: string)
    ensures IsReset(n) ==> !IsBold(n) && !IsItalic(n) && !IsUnderlined(n) && !IsStrikethrough(n) && !IsObfuscated(n)
  {
    if IsReset(n) {
      LongNames(n);
    }
  }

  // ----- every visible character -----

  /** A visible character with the tags around it. */
  datatype Leaf = Leaf(c: char, path: seq<TagUse>)

  function Letters(text: string, path: seq<TagUse>): seq<Leaf> {
    if text == [] then [] else [Leaf(text[0], path)] + Letters(text[1..], path)
  }

  function Leaves(nodes: seq<Node>, path: seq<TagUse>): seq<Leaf>
    decreases nodes
  {
    if nodes == [] then [] else NodeLeaves(nodes[0], path) + Leaves(nodes[1..], path)
  }

  function NodeLeaves(n: Node, path: seq<TagUse>): seq<Leaf>
    decreases n
  {
    match n
    case Text(text) => Letters(text, path)
    case Tag(name, args, children) => Leaves(children, path + [TagUse(name, args)])
  }

  ghost predicate InGradient(path: seq<TagUse>) {
    exists i: nat :: i < |path| && IsGradient(path[i].name)
  }

  /** A cell shows a leaf: its character, the decorations under its tags, and outside gradients their colour. */
  ghost predicate Shows(cell: Cell, leaf: Leaf) {
    && cell.c == leaf.c && Uncolored(cell.style) == Uncolored(StyleUnder(leaf.path))
    && (!InGradient(leaf.path) ==> cell.style == StyleUnder(leaf.path))
  }

  ghost predicate AllShow(cells: seq<Cell>, leaves: seq<Leaf>) {
    |cells| == |leaves| && forall k :: 0 <= k < |cells| ==> Shows(cells[k], leaves[k])
  }

  lemma AllShowConcat(a: seq<Cell>, x: seq<Leaf>, b: seq<Cell>, y: seq<Leaf>)
    requires AllShow(a, x) && AllShow(b, y)
    ensures AllShow(a + b, x + y)
  {
    hide Shows;
  }

  lemma {:induction false} LettersShown(text: string, path: seq<TagUse>)
    ensures AllShow(Spell(text, StyleUnder(path)), Letters(text, path))
  {
    hide StyleUnder, InGradient;
    if text != [] {
      LettersShown(text[1..], path);
      AllShowConcat([Cell(text[0], StyleUnder(path))], [Leaf(text[0], path)], Spell(text[1..], StyleUnder(path)), Letters(text[1..], path));
    }
  }

  /** Cells with the decorations right, when all leaves are inside a gradient. */
  lemma ErasedShown(cells: seq<Cell>, decorated: seq<Cell>, leaves: seq<Leaf>)
    requires Erase(cells) == decorated && |decorated| == |leaves|
    requires forall k :: 0 <= k < |leaves| ==>
               decorated[k] == Cell(leaves[k].c, Uncolored(StyleUnder(leaves[k].path))) && InGradient(leaves[k].path)
    ensures AllShow(cells, leaves)
  {
    hide StyleUnder, InGradient;
    EraseAt(cells);
    forall k | 0 <= k < |cells| ensures Shows(cells[k], leaves[k]) {
      assert decorated[k] == Cell(cells[k].c, Uncolored(cells[k].style));
    }
  }

  lemma {:induction false} EraseAt(cells: seq<Cell>)
    ensures |Erase(cells)| == |cells|
    ensures forall k :: 0 <= k < |cells| ==> Erase(cells)[k] == Cell(cells[k].c, Uncolored(cells[k].style))
  {
    if cells != [] {
      EraseAt(cells[1..]);
    }
  }

  /** What the tags say of the decorations, leaf by leaf. */
  ghost predicate AllDecorated(cells: seq<Cell>, leaves: seq<Leaf>, path: seq<TagUse>) {
    && |cells| == |leaves|
    && forall k :: 0 <= k < |cells| ==>
         cells[k] == Cell(leaves[k].c, Uncolored(StyleUnder(leaves[k].path))) && path <= leaves[k].path
  }

  lemma {:induction false} LettersDecorated(text: string, path: seq<TagUse>)
    ensures AllDecorated(Spell(text, Uncolored(StyleUnder(path))), Letters(text, path), path)
  {
    hide StyleUnder;
    if text != [] {
      LettersDecorated(text[1..], path);
    }
  }

  lemma {:induction false} DecoratedMeans(nodes: seq<Node>, path: seq<TagUse>)
    ensures AllDecorated(Decorated(nodes, StyleUnder(path)), Leaves(nodes, path), path)
    decreases nodes
  {
    hide ApplyTag, StyleUnder;
    if nodes != [] {
      DecoratedMeans(nodes[1..], path);
      match nodes[0]
      case Text(text) => LettersDecorated(text, path);
      case Tag(name, args, children) =>
        StyleUnderMore(path, TagUse(name, args));
        DecoratedMeans(children, path + [TagUse(name, args)]);
    }
  }

  /** Every visible character has the decorations its tags give it, and outside gradients the colour. */
  lemma {:induction false} FlattenMeans(nodes: seq<Node>, path: seq<TagUse>)
    ensures AllShow(Cells(Flatten(nodes, StyleUnder(path))), Leaves(nodes, path))
    decreases nodes
  {
    hide ApplyTag, StyleUnder, AllShow, IsGradient, GradientStops, Total, Cells;
    if nodes == [] {
      NothingShows();
    } else {
      var style := StyleUnder(path);
      CellsConcat(FlattenNode(nodes[0], style), Flatten(nodes[1..], style));
      FlattenMeans(nodes[1..], path);
      NodeMeans(nodes[0], path);
      AllShowConcat(Cells(FlattenNode(nodes[0], style)), NodeLeaves(nodes[0], path),
                    Cells(Flatten(nodes[1..], style)), Leaves(nodes[1..], path));
    }
  }

  lemma NothingShows()
    ensures AllShow(Cells([]), [])
  {
  }

  lemma {:induction false} NodeMeans(n: Node, path: seq<TagUse>)
    ensures AllShow(Cells(FlattenNode(n, StyleUnder(path))), NodeLeaves(n, path))
    decreases n
  {
    hide ApplyTag, StyleUnder, AllShow, GradientStops, Total, Cells, Gradient;
    var style := StyleUnder(path);
    match n
    case Text(text) =>
      LettersShown(text, path);
      if text == [] {
        NothingShows();
      } else {
        OneRun(Run(text, style));
      }
    case Tag(name, args, children) =>
      var inner := path + [TagUse(name, args)];
      StyleUnderMore(path, TagUse(name, args));
      if IsGradient(name) {
        GradientIsUnknownTag(style, name, args);
        GradientMeans(children, inner, GradientStops(args), Total(children));
      } else {
        FlattenMeans(children, inner);
      }
  }

  lemma GradientMeans(nodes: seq<Node>, path: seq<TagUse>, stops: seq<Rgb>, total: nat)
    requires stops != [] && OwnLen(nodes) <= total && path != [] && IsGradient(path[|path| - 1].name)
    ensures AllShow(Cells(Gradient(nodes, StyleUnder(path), stops, total, 0)), Leaves(nodes, path))
  {
    var style := StyleUnder(path);
    GradientShape(nodes, style, stops, total, 0);
    DecoratedMeans(nodes, path);
    var leaves := Leaves(nodes, path);
    hide StyleUnder, Decorated, Leaves, Gradient, IsGradient, AllShow, Cells, Erase;
    forall k | 0 <= k < |leaves| ensures InGradient(leaves[k].path) {
      assert leaves[k].path[|path| - 1] == path[|path| - 1];
    }
    ErasedShown(Cells(Gradient(nodes, style, stops, total, 0)), Decorated(nodes, style), leaves);
  }

  /**
   * What a text means: each of its visible characters, in order, has exactly the decorations
   * that the tags around it name, and outside gradients the colour of the innermost that has one.
   */
  lemma TextMeans(nodes: seq<Node>, k: nat)
    requires k < |Leaves(nodes, [])|
    ensures var cells, leaf := Cells(Flatten(nodes, PLAIN)), Leaves(nodes, [])[k];
            && |cells| == |Leaves(nodes, [])| && cells[k].c == leaf.c
            && StyleMeans(leaf.path, StyleUnder(leaf.path))
            && Uncolored(cells[k].style) == Uncolored(StyleUnder(leaf.path))
            && (!InGradient(leaf.path) ==> StyleMeans(leaf.path, cells[k].style))
  {
    FlattenMeans(nodes, []);
    assert StyleUnder([]) == PLAIN;
    var leaf := Leaves(nodes, [])[k];
    hide StyleUnder, Leaves, Flatten, Cells, StyleMeans, InGradient;
    StyleUnderMeans(leaf.path);
    assert Shows(Cells(Flatten(nodes, PLAIN))[k], leaf);
  }

  // ----- colours by name -----

  /** The sixteen colour names. */
  lemma ColorNames()
    ensures NamedColor("black") == Some(Rgb(0, 0, 0)) && NamedColor("dark_blue") == Some(Rgb(0, 0, 170))
    ensures NamedColor("dark_green") == Some(Rgb(0, 170, 0)) && NamedColor("dark_aqua") == Some(Rgb(0, 170, 170))
    ensures NamedColor("dark_red") == Some(Rgb(170, 0, 0)) && NamedColor("dark_purple") == Some(Rgb(170, 0, 170))
    ensures NamedColor("gold") == Some(Rgb(255, 170, 0)) && NamedColor("gray") == Some(Rgb(170, 170, 170))
    ensures NamedColor("dark_gray") == Some(Rgb(85, 85, 85)) && NamedColor("blue") == Some(Rgb(85, 85, 255))
    ensures NamedColor("green") == Some(Rgb(85, 255, 85)) && NamedColor("aqua") == Some(Rgb(85, 255, 255))
    ensures NamedColor("red") == Some(Rgb(255, 85, 85)) && NamedColor("light_purple") == Some(Rgb(255, 85, 255))
    ensures NamedColor("yellow") == Some(Rgb(255, 255, 85)) && NamedColor("white") == Some(Rgb(255, 255, 255))
  {
    assert NAMED[0] == Named("black", '0', Rgb(0, 0, 0)) && NAMED[1] == Named("dark_blue", '1', Rgb(0, 0, 170));
    assert NAMED[2] == Named("dark_green", '2', Rgb(0, 170, 0)) && NAMED[3] == Named("dark_aqua", '3', Rgb(0, 170, 170));
    assert NAMED[4] == Named("dark_red", '4', Rgb(170, 0, 0)) && NAMED[5] == Named("dark_purple", '5', Rgb(170, 0, 170));
    assert NAMED[6] == Named("gold", '6', Rgb(255, 170, 0)) && NAMED[7] == Named("gray", '7', Rgb(170, 170, 170));
    assert NAMED[8] == Named("dark_gray", '8', Rgb(85, 85, 85)) && NAMED[9] == Named("blue", '9', Rgb(85, 85, 255));
    assert NAMED[10] == Named("green", 'a', Rgb(85, 255, 85)) && NAMED[11] == Named("aqua", 'b', Rgb(85, 255, 255));
    assert NAMED[12] == Named("red", 'c', Rgb(255, 85, 85)) && NAMED[13] == Named("light_purple", 'd', Rgb(255, 85, 255));
    assert NAMED[14] == Named("yellow", 'e', Rgb(255, 255, 85)) && NAMED[15] == Named("white", 'f', Rgb(255, 255, 255));
    hide NAMED, NamedColor;
    CodesAreDigits();
    forall i: nat | i < 16 ensures NamedColor(NAMED[i].name) == Some(NAMED[i].rgb) {
      NameFinds(i);
    }
  }

  lemma NameFinds(i: nat)
    requires i < |NAMED|
    ensures NamedColor(NAMED[i].name) == Some(NAMED[i].rgb)
  {
    hide NAMED;
    NamesAreDistinct();
    var found := Find(NAMED, (e: Named) => e.name == NAMED[i].name);
    assert NAMED[i] in NAMED;
    var k: nat :| k < |NAMED| && NAMED[k] == found.value;
    assert k == i;
  }

  // ----- texts with one tag or code -----

  /** Text without markup is shown as it is. */
  lemma {:induction false} PlainParses(chars: string, pos: nat, nested: bool, text: string)
    requires pos <= |chars| && forall k :: pos <= k < |chars| ==> chars[k] != '<' && chars[k] != '\\'
    ensures ParseFrom(chars, pos, nested, text) == Parsed(Flush(text + chars[pos..]), |chars|)
    decreases |chars| - pos
  {
    if pos == |chars| {
      assert text + chars[pos..] == text;
    } else {
      assert NextMove(chars, pos, nested) == Gather([chars[pos]], pos + 1);
      hide NextMove;
      PlainParses(chars, pos + 1, nested, text + [chars[pos]]);
      assert text + [chars[pos]] + chars[pos + 1..] == text + chars[pos..];
    }
  }

  lemma StrayMove(chars: string, head: string, name: string)
    requires '>' !in name && head == "</" + name && head + ['>'] <= chars
    ensures NextMove(chars, 0, false) == Gather(head + ['>'], |head| + 1)
  {
    assert chars[0] == head[0] == '<' && chars[1] == head[1] == '/' && chars[|head|] == '>';
    assert chars[0..|head|] == head && chars[0..|head| + 1] == head + ['>'];
    GtAfter(chars, 0, head);
    assert chars[1..|head|][0] == '/';
  }

  /** A closing tag that closes nothing is text. */
  lemma StrayClosing(name: string, t: string)
    requires '>' !in name && '<' !in t && '\\' !in t
    ensures var chars := "</" + name + ['>'] + t; ParseFrom(chars, 0, false, []) == Parsed([Text(chars)], |chars|)
  {
    hide NextMove;
    var head, chars := "</" + name, "</" + name + ['>'] + t;
    StrayMove(chars, head, name);
    var n := |head| + 1;
    assert forall k :: n <= k < |chars| ==> chars[k] == t[k - n];
    PlainParses(chars, n, false, [] + (head + ['>']));
    assert [] + (head + ['>']) + chars[n..] == chars;
  }

  /** A tag with a text in it is that text in the tag's style. */
  lemma TaggedRun(name: string, args: seq<string>, t: string)
    requires t != [] && !IsGradient(name)
    ensures Flatten([Tag(name, args, [Text(t)])], PLAIN) == [Run(t, StyleUnder([TagUse(name, args)]))]
  {
    hide ApplyTag, IsGradient;
    StyleUnderMore([], TagUse(name, args));
    assert [] + [TagUse(name, args)] == [TagUse(name, args)] && StyleUnder([]) == PLAIN;
    var style := ApplyTag(PLAIN, name, args);
    var inner, outer := [Text(t)], [Tag(name, args, [Text(t)])];
    assert inner[1..] == [] && outer[1..] == [];
    assert Flatten(inner, style) == [Run(t, style)] + [];
    assert Flatten(outer, PLAIN) == Flatten(inner, style) + [];
  }

  /** The same from the text as it is written, with escapes and a closing tag. */
  lemma WrittenTagRun(name: string, args: seq<string>, t: string)
    requires t != [] && !IsGradient(name)
    requires Writable([Tag(name, args, [Text(t)])]) && '&' !in Written([Tag(name, args, [Text(t)])])
    ensures Flatten(Tree(Written([Tag(name, args, [Text(t)])])), PLAIN) == [Run(t, StyleUnder([TagUse(name, args)]))]
  {
    hide ParseFrom, Flatten, Written, Writable, IsGradient, StyleUnder;
    var nodes := [Tag(name, args, [Text(t)])];
    UncodedIsKept(Written(nodes));
    WriteParseRoundTrip(nodes);
    TaggedRun(name, args, t);
  }

  /** What each code letter stands for: a colour or one decoration. */
  function CodeStyle(c: char): Option<Style> {
    match c
    case '0' => Some(PLAIN.(color := Some(Rgb(0, 0, 0))))
    case '1' => Some(PLAIN.(color := Some(Rgb(0, 0, 170))))
    case '2' => Some(PLAIN.(color := Some(Rgb(0, 170, 0))))
    case '3' => Some(PLAIN.(color := Some(Rgb(0, 170, 170))))
    case '4' => Some(PLAIN.(color := Some(Rgb(170, 0, 0))))
    case '5' => Some(PLAIN.(color := Some(Rgb(170, 0, 170))))
    case '6' => Some(PLAIN.(color := Some(Rgb(255, 170, 0))))
    case '7' => Some(PLAIN.(color := Some(Rgb(170, 170, 170))))
    case '8' => Some(PLAIN.(color := Some(Rgb(85, 85, 85))))
    case '9' => Some(PLAIN.(color := Some(Rgb(85, 85, 255))))
    case 'a' => Some(PLAIN.(color := Some(Rgb(85, 255, 85))))
    case 'b' => Some(PLAIN.(color := Some(Rgb(85, 255, 255))))
    case 'c' => Some(PLAIN.(color := Some(Rgb(255, 85, 85))))
    case 'd' => Some(PLAIN.(color := Some(Rgb(255, 85, 255))))
    case 'e' => Some(PLAIN.(color := Some(Rgb(255, 255, 85))))
    case 'f' => Some(PLAIN.(color := Some(Rgb(255, 255, 255))))
    case 'k' => Some(PLAIN.(obfuscated := true))
    case 'l' => Some(PLAIN.(bold := true))
    case 'm' => Some(PLAIN.(strikethrough := true))
    case 'n' => Some(PLAIN.(underlined := true))
    case 'o' => Some(PLAIN.(italic := true))
    case 'r' => Some(PLAIN)
    case _ => None
  }

  lemma {:induction false} LowerKept(s: string)
    requires forall k :: 0 <= k < |s| ==> !('A' <= s[k] <= 'Z')
    ensures Lower(s) == s
  {
    if s != [] {
      LowerKept(s[1..]);
    }
  }

  /** A colour's name is no decoration's. */
  lemma NamedIsByName(i: nat)
    requires i < |NAMED|
    ensures KindOf(NAMED[i].name) == ByName
  {
    var n := NAMED[i].name;
    assert 3 <= |n| <= 12;
    if |n| <= 3 {
      ShortNames(n);
    }
  }

  lemma NameIsLower(i: nat)
    requires i < |NAMED|
    ensures Lower(NAMED[i].name) == NAMED[i].name
  {
    var n := NAMED[i].name;
    assert 3 <= |n| <= 12;
    forall k | 0 <= k < |n| ensures !('A' <= n[k] <= 'Z') {
    }
    LowerKept(n);
  }

  lemma ByNameTag(n: string, rgb: Rgb)
    requires Lower(n) == n && KindOf(n) == ByName && ColorFromStr(n) == Color(rgb)
    ensures ApplyTag(PLAIN, n, []) == PLAIN.(color := Some(rgb))
  {
    hide KindOf, ColorFromStr, Lower;
  }

  lemma NameReads(i: nat)
    requires i < |NAMED|
    ensures ColorFromStr(NAMED[i].name) == Color(NAMED[i].rgb)
  {
    NameFinds(i);
    NameIsPlain(i);
    hide NAMED, NamedColor, ParseHex;
    assert PlainChar(NAMED[i].name[0]);
  }

  /** A colour's name as a tag sets that colour. */
  lemma NamedTag(i: nat)
    requires i < |NAMED|
    ensures ApplyTag(PLAIN, NAMED[i].name, []) == PLAIN.(color := Some(NAMED[i].rgb)) && !IsGradient(NAMED[i].name)
  {
    NameIsLower(i);
    NamedIsByName(i);
    NameReads(i);
    NoGradientName(i);
    hide NAMED, KindOf, ColorFromStr, Lower, ApplyTag;
    ByNameTag(NAMED[i].name, NAMED[i].rgb);
  }

  lemma NoGradientName(i: nat)
    requires i < |NAMED|
    ensures NAMED[i].name != "gradient"
  {
  }

  /** The names and colours the digit codes stand for. */
  lemma DigitCode(c: char)
    requires '0' <= c <= '9'
    ensures var i := c as int - '0' as int;
            && LegacyTag(c) == Some(NAMED[i].name) && CodeStyle(c) == Some(PLAIN.(color := Some(NAMED[i].rgb)))
  {
  }

  lemma LetterCode(c: char)
    requires 'a' <= c <= 'f'
    ensures var i := 10 + c as int - 'a' as int;
            && LegacyTag(c) == Some(NAMED[i].name) && CodeStyle(c) == Some(PLAIN.(color := Some(NAMED[i].rgb)))
  {
  }

  predicate IsDecorationCode(c: char) {
    'k' <= c <= 'o' || c == 'r'
  }

  function KindStyle(kind: Kind): Style {
    match kind
    case Bold => PLAIN.(bold := true)
    case Italic => PLAIN.(italic := true)
    case Underlined => PLAIN.(underlined := true)
    case Strikethrough => PLAIN.(strikethrough := true)
    case Obfuscated => PLAIN.(obfuscated := true)
    case _ => PLAIN
  }

  lemma KindTag(n: string)
    requires Lower(n) == n && KindOf(n) != ByName && KindOf(n) != ByArgument
    ensures ApplyTag(PLAIN, n, []) == KindStyle(KindOf(n))
  {
    hide KindOf, ColorFromStr, Lower;
  }

  function CodeKind(c: char): Kind {
    match c
    case 'k' => Obfuscated
    case 'l' => Bold
    case 'm' => Strikethrough
    case 'n' => Underlined
    case 'o' => Italic
    case _ => Reset
  }

  lemma CodeKindStyle(c: char)
    requires IsDecorationCode(c)
    ensures CodeStyle(c) == Some(KindStyle(CodeKind(c)))
  {
  }

  lemma DecorationName(c: char)
    requires IsDecorationCode(c)
    ensures LegacyTag(c).Some?
    ensures var n := LegacyTag(c).value;
            (forall k :: 0 <= k < |n| ==> !('A' <= n[k] <= 'Z')) && n != "gradient" && KindOf(n) == CodeKind(c)
  {
    var n := LegacyTag(c).value;
    assert 4 <= |n| <= 13;
    LongNames(n);
  }

  lemma DecorationCode(c: char)
    requires IsDecorationCode(c)
    ensures LegacyTag(c).Some? && ApplyTag(PLAIN, LegacyTag(c).value, []) == CodeStyle(c).value && !IsGradient(LegacyTag(c).value)
  {
    hide LegacyTag, ApplyTag, KindOf, Lower, CodeStyle, KindStyle;
    DecorationName(c);
    var n := LegacyTag(c).value;
    LowerKept(n);
    CodeKindStyle(c);
    KindTag(n);
  }

  /** A code letter, in either case, means what the table above says; any other is no code. */
  lemma CodeMeans(c: char)
    ensures LegacyTag(c).Some? <==> CodeStyle(c).Some?
    ensures LegacyTag(c).Some? ==> ApplyTag(PLAIN, LegacyTag(c).value, []) == CodeStyle(c).value && !IsGradient(LegacyTag(c).value)
  {
    if '0' <= c <= '9' {
      hide ApplyTag, LegacyTag, CodeStyle, NAMED, IsGradient;
      DigitCode(c);
      NamedTag(c as int - '0' as int);
    } else if 'a' <= c <= 'f' {
      hide ApplyTag, LegacyTag, CodeStyle, NAMED, IsGradient;
      LetterCode(c);
      NamedTag(10 + c as int - 'a' as int);
    } else if IsDecorationCode(c) {
      hide ApplyTag, LegacyTag, CodeStyle, IsGradient;
      DecorationCode(c);
      CodeKindStyle(c);
    } else {
      hide ApplyTag;
    }
  }

  // ----- a text behind a code -----

  ghost predicate FitsTag(name: string) {
    name != [] && name[0] != '/' && ':' !in name && '>' !in name
  }

  lemma CodeNameFits(c: char)
    requires LegacyTag(c).Some?
    ensures FitsTag(LegacyTag(c).value)
  {
    if '0' <= c <= '9' {
      DigitCode(c);
      NamedFits(c as int - '0' as int);
    } else if 'a' <= c <= 'f' {
      LetterCode(c);
      NamedFits(10 + c as int - 'a' as int);
    } else {
      DecorationFits(c);
    }
  }

  lemma NamedFits(i: nat)
    requires i < |NAMED|
    ensures FitsTag(NAMED[i].name)
  {
    var n := NAMED[i].name;
    assert 3 <= |n| <= 12;
    forall k | 0 <= k < |n| ensures n[k] != '/' && n[k] != ':' && n[k] != '>' {
    }
  }

  lemma DecorationFits(c: char)
    requires IsDecorationCode(c)
    ensures FitsTag(LegacyTag(c).value)
  {
    var n := LegacyTag(c).value;
    assert 4 <= |n| <= 13;
    forall k | 0 <= k < |n| ensures n[k] != '/' && n[k] != ':' && n[k] != '>' {
    }
  }

  lemma UnclosedEnters(name: string, t: string)
    requires FitsTag(name)
    ensures var chars := ['<'] + name + ['>'] + t; NextMove(chars, 0, false) == Enter(name, [], |name| + 2)
  {
    var start, chars := Opening(name, []), ['<'] + name + ['>'] + t;
    assert [name] + [] == [name] && Joined([name]) == name;
    assert start == ['<'] + name + ['>'] && chars == start + t;
    assert WritableNode(Tag(name, [], []));
    assert chars[0..|start|] == start;
    OpeningIsEntered(chars, 0, false, name, []);
  }

  /** Everything behind an opening tag that is never closed is inside it. */
  lemma UnclosedTag(name: string, t: string)
    requires FitsTag(name) && t != [] && '<' !in t && '\\' !in t
    ensures ParseFrom(['<'] + name + ['>'] + t, 0, false, []).nodes == [Tag(name, [], [Text(t)])]
  {
    hide NextMove, ParseFrom, FitsTag;
    UnclosedEnters(name, t);
    var chars, n := ['<'] + name + ['>'] + t, |name| + 2;
    EnterParses(chars, 0, false, []);
    assert forall k :: n <= k < |chars| ==> chars[k] == t[k - n];
    PlainParses(chars, n, true, []);
    PlainParses(chars, |chars|, false, []);
    assert [] + chars[n..] == t && [] + chars[|chars|..] == [];
    assert Flush([]) + [Tag(name, [], Flush(t))] + Flush([]) == [Tag(name, [], [Text(t)])];
  }

  /** An ampersand and a code letter style the text behind them. */
  lemma CodedText(c: char, t: string)
    requires CodeStyle(LowerChar(c)).Some? && t != [] && '&' !in t && '<' !in t && '\\' !in t
    ensures Flatten(Tree(['&', c] + t), PLAIN) == [Run(t, CodeStyle(LowerChar(c)).value)]
  {
    var code := LowerChar(c);
    CodeMeans(code);
    CodeNameFits(code);
    var name := LegacyTag(code).value;
    var input := ['&', c] + t;
    assert input[2..] == t;
    UncodedIsKept(t);
    assert LegacyToTags(input) == ['<'] + name + ['>'] + t;
    hide LegacyToTags, LegacyTag, CodeStyle, ParseFrom, ApplyTag, FitsTag, IsGradient;
    UnclosedTag(name, t);
    TaggedRun(name, [], t);
    StyleUnderMore([], TagUse(name, []));
    assert [] + [TagUse(name, [])] == [TagUse(name, [])];
  }

  // ----- a gradient's stops -----

  /** Of arguments that are all colours the stops are those, in order; of none, white. */
  lemma {:induction false} StopsMean(args: seq<string>)
    ensures (forall i :: 0 <= i < |args| ==> ColorOf(args[i]).Some?) ==>
              |StopsOf(args)| == |args| && forall i :: 0 <= i < |args| ==> ColorOf(args[i]) == Some(StopsOf(args)[i])
    ensures (forall i :: 0 <= i < |args| ==> ColorOf(args[i]).None?) ==> GradientStops(args) == [Rgb(255, 255, 255)]
  {
    hide ColorFromStr;
    if args != [] {
      StopsMean(args[1..]);
    }
  }

  /** An argument that is no colour makes no difference, wherever it stands. */
  lemma {:induction false} StopsPassOver(args: seq<string>, other: string, more: seq<string>)
    requires ColorOf(other).None?
    ensures StopsOf(args + [other] + more) == StopsOf(args + more)
  {
    hide ColorFromStr;
    var all, fewer := args + [other] + more, args + more;
    if args == [] {
      assert all[0] == other && all[1..] == more && fewer == more;
    } else {
      StopsPassOver(args[1..], other, more);
      assert all[0] == fewer[0] == args[0];
      assert all[1..] == args[1..] + [other] + more && fewer[1..] == args[1..] + more;
    }
  }

  lemma GradientOfText(args: seq<string>, t: string)
    requires t != []
    ensures Flatten([Tag("gradient", args, [Text(t)])], PLAIN) == Sampled(t, PLAIN, GradientStops(args), |t|, 0)
  {
    GradientNameIs();
    hide GradientStops, IsGradient, Sampled, ApplyTag;
    var stops, nodes := GradientStops(args), [Text(t)];
    var outer := [Tag("gradient", args, nodes)];
    assert nodes[1..] == [] && outer[1..] == [];
    assert VisibleLen(nodes) == |t| && OwnLen(nodes) == |t|;
    assert Gradient(nodes, PLAIN, stops, |t|, 0) == Sampled(t, PLAIN, stops, |t|, 0) + [];
    assert FlattenNode(outer[0], PLAIN) == Gradient(nodes, PLAIN, stops, |t|, 0);
  }

  /** A gradient over a text goes from its first argument's colour to its last one's. */
  lemma GradientEnds(args: seq<string>, t: string)
    requires args != [] && |t| >= 2 && forall i :: 0 <= i < |args| ==> ColorOf(args[i]).Some?
    ensures var cells := Cells(Flatten([Tag("gradient", args, [Text(t)])], PLAIN));
            && |cells| == |t|
            && cells[0].style.color == ColorOf(args[0]) && cells[|t| - 1].style.color == ColorOf(args[|args| - 1])
  {
    hide ColorOf, Flatten, GradientStops, Cells, Sampled, Sample;
    EndStops(args);
    GradientOfText(args, t);
    EndCells(t, GradientStops(args));
  }

  lemma {:induction false} StopsAll(args: seq<string>)
    requires forall i :: 0 <= i < |args| ==> ColorOf(args[i]).Some?
    ensures |StopsOf(args)| == |args| && forall i :: 0 <= i < |args| ==> ColorOf(args[i]) == Some(StopsOf(args)[i])
  {
    hide ColorFromStr;
    if args != [] {
      StopsAll(args[1..]);
    }
  }

  lemma EndStops(args: seq<string>)
    requires args != [] && forall i :: 0 <= i < |args| ==> ColorOf(args[i]).Some?
    ensures var stops := GradientStops(args);
            ColorOf(args[0]) == Some(stops[0]) && ColorOf(args[|args| - 1]) == Some(stops[|stops| - 1])
  {
    hide ColorOf, StopsOf;
    StopsAll(args);
  }

  lemma EndCells(t: string, stops: seq<Rgb>)
    requires |t| >= 2 && stops != []
    ensures var cells := Cells(Sampled(t, PLAIN, stops, |t|, 0));
            && |cells| == |t|
            && cells[0].style.color == Some(stops[0]) && cells[|t| - 1].style.color == Some(stops[|stops| - 1])
  {
    hide Cells, Sampled, Sample;
    SampledAt(t, PLAIN, stops, |t|, 0, 0);
    SampledAt(t, PLAIN, stops, |t|, 0, |t| - 1);
    SampleEnds(stops, |t|);
  }

  lemma GradientNameIs()
    ensures IsGradient("gradient")
  {
    var n := "gradient";
    assert |n| == 8;
    LowerKept(n);
  }

  lemma {:induction false} SampledAt(text: string, style: Style, stops: seq<Rgb>, total: nat, pos: nat, k: nat)
    requires stops != [] && pos + |text| <= total && k < |text|
    ensures var cells := Cells(Sampled(text, style, stops, total, pos));
            |cells| == |text| && cells[k] == Cell(text[k], style.(color := Some(Sample(stops, total, pos + k))))
    decreases |text|
  {
    hide Sample;
    var run := Run([text[0]], style.(color := Some(Sample(stops, total, pos))));
    var rest := Sampled(text[1..], style, stops, total, pos + 1);
    OneRun(run);
    assert [text[0]][1..] == [] && Spell(run.text, run.style) == [Cell(text[0], run.style)] + [];
    CellsConcat([run], rest);
    if |text| > 1 {
      SampledAt(text[1..], style, stops, total, pos + 1, if k == 0 then 0 else k - 1);
    } else {
      assert rest == [] && Cells(rest) == [];
    }
  }
}
