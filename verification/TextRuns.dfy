/** Tags and gradients flattened into styled runs: `src/protocol/text_format.rs`. */
module TextRuns {
  import opened Bytes
  import opened StatusKeys
  import opened TextParser
  import opened TextColors
  import opened Gradients

  datatype Style = Style(color: Option<Rgb>, bold: bool, italic: bool, underlined: bool, strikethrough: bool, obfuscated: bool)

  const PLAIN := Style(None, false, false, false, false, false)

  datatype Run = Run(text: string, style: Style)

  // ----- tags -----

  function Recolor(style: Style, color: ColorRead): Style {
    if color.Color? then style.(color := Some(color.rgb)) else style
  }

  /** The arms of the match on a tag's lower-cased name. */
  datatype Kind = Reset | Bold | Italic | Underlined | Strikethrough | Obfuscated | ByArgument | ByName

  function KindOf(n: string): Kind {
    if n == "reset" then Reset
    else if n == "bold" || n == "b" then Bold
    else if n == "italic" || n == "i" || n == "em" then Italic
    else if n == "underlined" || n == "u" then Underlined
    else if n == "strikethrough" || n == "st" then Strikethrough
    else if n == "obfuscated" || n == "obf" then Obfuscated
    else if n == "color" || n == "colour" then ByArgument
    else ByName
  }

  function ApplyTag(style: Style, name: string, args: seq<string>): Style {
    var n := Lower(name);
    match KindOf(n)
    case Reset => PLAIN
    case Bold => style.(bold := true)
    case Italic => style.(italic := true)
    case Underlined => style.(underlined := true)
    case Strikethrough => style.(strikethrough := true)
    case Obfuscated => style.(obfuscated := true)
    case ByArgument => if args == [] then style else Recolor(style, ColorFromStr(args[0]))
    case ByName => Recolor(style, ColorFromStr(n))
  }

  predicate IsGradient(name: string) {
    Lower(name) == "gradient"
  }

  /** Whether reading a tag's colours panics. */
  predicate TagPanics(name: string, args: seq<string>) {
    var n := Lower(name);
    if n == "gradient" then exists a | a in args :: ColorFromStr(a).Panic?
    else if n == "color" || n == "colour" then args != [] && ColorFromStr(args[0]).Panic?
    else ColorFromStr(n).Panic?
  }

  function StopsOf(args: seq<string>): seq<Rgb> {
    if args == [] then []
    else if ColorFromStr(args[0]).Color? then [ColorFromStr(args[0]).rgb] + StopsOf(args[1..])
    else StopsOf(args[1..])
  }

  function GradientStops(args: seq<string>): (r: seq<Rgb>)
    ensures r != []
  {
    var stops := StopsOf(args);
    if stops == [] then [Rgb(255, 255, 255)] else stops
  }

  // ----- lengths -----

  function VisibleLen(nodes: seq<Node>): nat
    decreases nodes
  {
    if nodes == [] then 0 else NodeLen(nodes[0]) + VisibleLen(nodes[1..])
  }

  function NodeLen(n: Node): nat
    decreases n
  {
    match n
    case Text(text) => |text|
    case Tag(_, _, children) => VisibleLen(children)
  }

  lemma {:induction false} VisibleLenIsTextLen(nodes: seq<Node>)
    ensures VisibleLen(nodes) == |VisibleText(nodes)|
    decreases nodes
  {
    if nodes != [] {
      if nodes[0].Tag? {
        VisibleLenIsTextLen(nodes[0].children);
      }
      VisibleLenIsTextLen(nodes[1..]);
    }
  }

  /** The characters an enclosing gradient colours itself: those outside nested gradients. */
  function OwnLen(nodes: seq<Node>): (n: nat)
    ensures n <= VisibleLen(nodes)
    decreases nodes
  {
    if nodes == [] then 0 else NodeOwnLen(nodes[0]) + OwnLen(nodes[1..])
  }

  function NodeOwnLen(n: Node): (k: nat)
    ensures k <= NodeLen(n)
    decreases n
  {
    match n
    case Text(text) => |text|
    case Tag(name, _, children) => if IsGradient(name) then 0 else OwnLen(children)
  }

  function Total(children: seq<Node>): (n: nat)
    ensures 0 < n && OwnLen(children) <= n
  {
    if VisibleLen(children) == 0 then 1 else VisibleLen(children)
  }

  // ----- flattening -----

  function Flatten(nodes: seq<Node>, style: Style): seq<Run>
    decreases nodes
  {
    if nodes == [] then [] else FlattenNode(nodes[0], style) + Flatten(nodes[1..], style)
  }

  function FlattenNode(n: Node, style: Style): seq<Run>
    decreases n
  {
    match n
    case Text(text) => if text == [] then [] else [Run(text, style)]
    case Tag(name, args, children) =>
      if IsGradient(name) then Gradient(children, style, GradientStops(args), Total(children), 0)
      else Flatten(children, ApplyTag(style, name, args))
  }

  /** The runs of a gradient over `total` characters from position `pos` on, which never passes `total`. */
  function Gradient(nodes: seq<Node>, style: Style, stops: seq<Rgb>, total: nat, pos: nat): seq<Run>
    requires stops != [] && pos + OwnLen(nodes) <= total
    decreases nodes
  {
    if nodes == [] then []
    else
      GradientNode(nodes[0], style, stops, total, pos) +
      Gradient(nodes[1..], style, stops, total, pos + NodeOwnLen(nodes[0]))
  }

  function GradientNode(n: Node, style: Style, stops: seq<Rgb>, total: nat, pos: nat): seq<Run>
    requires stops != [] && pos + NodeOwnLen(n) <= total
    decreases n
  {
    match n
    case Text(text) => Sampled(text, style, stops, total, pos)
    case Tag(name, args, children) =>
      if IsGradient(name) then Gradient(children, style, GradientStops(args), Total(children), 0)
      else Gradient(children, ApplyTag(style, name, args), stops, total, pos)
  }

  function Sampled(text: string, style: Style, stops: seq<Rgb>, total: nat, pos: nat): seq<Run>
    requires stops != [] && pos + |text| <= total
  {
    if text == [] then []
    else
      [Run([text[0]], style.(color := Some(Sample(stops, total, pos))))] +
      Sampled(text[1..], style, stops, total, pos + 1)
  }

  // ----- what is shown -----

  datatype Cell = Cell(c: char, style: Style)

  function Spell(text: string, style: Style): seq<Cell> {
    if text == [] then [] else [Cell(text[0], style)] + Spell(text[1..], style)
  }

  /** Runs split to characters. */
  function Cells(runs: seq<Run>): seq<Cell> {
    if runs == [] then [] else Spell(runs[0].text, runs[0].style) + Cells(runs[1..])
  }

  function Uncolored(style: Style): Style {
    style.(color := None)
  }

  function Erase(cells: seq<Cell>): seq<Cell> {
    if cells == [] then [] else [Cell(cells[0].c, Uncolored(cells[0].style))] + Erase(cells[1..])
  }

  /** What the tags say when colours, and so gradients, do not matter. */
  function Decorated(nodes: seq<Node>, style: Style): seq<Cell>
    decreases nodes
  {
    if nodes == [] then [] else DecoratedNode(nodes[0], style) + Decorated(nodes[1..], style)
  }

  function DecoratedNode(n: Node, style: Style): seq<Cell>
    decreases n
  {
    match n
    case Text(text) => Spell(text, Uncolored(style))
    case Tag(name, args, children) => Decorated(children, ApplyTag(style, name, args))
  }

  lemma {:induction false} CellsConcat(a: seq<Run>, b: seq<Run>)
    ensures Cells(a + b) == Cells(a) + Cells(b)
    decreases |a|
  {
    if a == [] {
      assert a + b == b;
    } else {
      assert (a + b)[1..] == a[1..] + b;
      CellsConcat(a[1..], b);
    }
  }

  lemma {:induction false} EraseConcat(a: seq<Cell>, b: seq<Cell>)
    ensures Erase(a + b) == Erase(a) + Erase(b)
    decreases |a|
  {
    if a == [] {
      assert a + b == b;
    } else {
      assert (a + b)[1..] == a[1..] + b;
      EraseConcat(a[1..], b);
    }
  }

  lemma {:induction false} EraseSpell(text: string, style: Style)
    ensures Erase(Spell(text, style)) == Spell(text, Uncolored(style))
  {
    if text != [] {
      EraseSpell(text[1..], style);
      assert Spell(text, style)[1..] == Spell(text[1..], style);
    }
  }

  /** The erased cells of a run list, and how they split over a concatenation. */
  function Shape(runs: seq<Run>): seq<Cell> {
    Erase(Cells(runs))
  }

  lemma ShapeConcat(a: seq<Run>, b: seq<Run>)
    ensures Shape(a + b) == Shape(a) + Shape(b)
  {
    CellsConcat(a, b);
    EraseConcat(Cells(a), Cells(b));
  }

  lemma {:induction false} SampledShape(text: string, style: Style, stops: seq<Rgb>, total: nat, pos: nat)
    requires stops != [] && pos + |text| <= total
    ensures Shape(Sampled(text, style, stops, total, pos)) == Spell(text, Uncolored(style))
    decreases |text|
  {
    if text != [] {
      var run := Run([text[0]], style.(color := Some(Sample(stops, total, pos))));
      ShapeConcat([run], Sampled(text[1..], style, stops, total, pos + 1));
      SampledShape(text[1..], style, stops, total, pos + 1);
      OneRun(run);
      assert Spell([text[0]], Uncolored(style)) == [Cell(text[0], Uncolored(style))];
    }
  }

  lemma OneRun(run: Run)
    ensures Cells([run]) == Spell(run.text, run.style) && Shape([run]) == Spell(run.text, Uncolored(run.style))
  {
    assert Cells([run]) == Spell(run.text, run.style) + [];
    EraseSpell(run.text, run.style);
  }

  lemma GradientIsUnknownTag(style: Style, name: string, args: seq<string>)
    requires IsGradient(name)
    ensures ApplyTag(style, name, args) == style
  {
    hide ColorFromStr;
    assert "gradient"[0] == 'g' && |"gradient"| == 8;
    GradientIsNoColor();
  }

  lemma GradientIsNoColor()
    ensures ColorFromStr("gradient") == NoColor
  {
    assert forall i :: 0 <= i < |NAMED| ==> NAMED[i].name != "gradient";
  }

  /**
   * A gradient recolours and nothing else: split to characters and with colours erased, the runs
   * of `flatten_gradient` and those of `flatten` are what the tags alone say.
   */
  lemma {:induction false} GradientShape(nodes: seq<Node>, style: Style, stops: seq<Rgb>, total: nat, pos: nat)
    requires stops != [] && pos + OwnLen(nodes) <= total
    ensures Shape(Gradient(nodes, style, stops, total, pos)) == Decorated(nodes, style)
    decreases nodes
  {
    hide ApplyTag, Shape, IsGradient, Sampled, GradientStops, Total, Spell;
    if nodes == [] {
      NoShape();
    } else {
      var n := nodes[0];
      ShapeConcat(GradientNode(n, style, stops, total, pos), Gradient(nodes[1..], style, stops, total, pos + NodeOwnLen(n)));
      GradientShape(nodes[1..], style, stops, total, pos + NodeOwnLen(n));
      match n
      case Text(text) => SampledShape(text, style, stops, total, pos);
      case Tag(name, args, children) =>
        if IsGradient(name) {
          GradientShape(children, style, GradientStops(args), Total(children), 0);
          GradientIsUnknownTag(style, name, args);
        } else {
          GradientShape(children, ApplyTag(style, name, args), stops, total, pos);
        }
    }
  }

  lemma NoShape()
    ensures Shape([]) == []
  {
  }

  lemma TextShape(text: string, style: Style)
    ensures Shape(FlattenNode(Text(text), style)) == Spell(text, Uncolored(style))
  {
    if text == [] {
      NoShape();
    } else {
      OneRun(Run(text, style));
    }
  }

  lemma {:induction false} FlattenShape(nodes: seq<Node>, style: Style)
    ensures Shape(Flatten(nodes, style)) == Decorated(nodes, style)
    decreases nodes
  {
    hide ApplyTag, Shape, IsGradient, GradientStops, Total, Spell;
    if nodes == [] {
      NoShape();
    } else {
      var n := nodes[0];
      ShapeConcat(FlattenNode(n, style), Flatten(nodes[1..], style));
      FlattenShape(nodes[1..], style);
      match n
      case Text(text) => TextShape(text, style);
      case Tag(name, args, children) =>
        if IsGradient(name) {
          GradientShape(children, style, GradientStops(args), Total(children), 0);
          GradientIsUnknownTag(style, name, args);
        } else {
          FlattenShape(children, ApplyTag(style, name, args));
        }
    }
  }

  // ----- what a gradient's colours are -----

  /** Which visible characters are outside nested gradients. */
  function Own(nodes: seq<Node>): (mask: seq<bool>)
    decreases nodes
  {
    if nodes == [] then [] else OwnNode(nodes[0]) + Own(nodes[1..])
  }

  function OwnNode(n: Node): seq<bool>
    decreases n
  {
    match n
    case Text(text) => Same(true, |text|)
    case Tag(name, _, children) => if IsGradient(name) then Same(false, VisibleLen(children)) else Own(children)
  }

  function Same(b: bool, n: nat): seq<bool> {
    if n == 0 then [] else [b] + Same(b, n - 1)
  }

  /** The colours of the cells that `mask` selects. */
  function Picked(cells: seq<Cell>, mask: seq<bool>): seq<Option<Rgb>> {
    if cells == [] || mask == [] then []
    else (if mask[0] then [cells[0].style.color] else []) + Picked(cells[1..], mask[1..])
  }

  /** The colours of `n` consecutive positions. */
  function Ramp(stops: seq<Rgb>, total: nat, pos: nat, n: nat): seq<Option<Rgb>>
    requires stops != [] && pos + n <= total
    decreases n
  {
    if n == 0 then [] else [Some(Sample(stops, total, pos))] + Ramp(stops, total, pos + 1, n - 1)
  }

  lemma {:induction false} PickedConcat(a: seq<Cell>, m: seq<bool>, b: seq<Cell>, n: seq<bool>)
    requires |a| == |m|
    ensures Picked(a + b, m + n) == Picked(a, m) + Picked(b, n)
    decreases |a|
  {
    if a == [] {
      assert a + b == b && m + n == n;
    } else {
      assert (a + b)[1..] == a[1..] + b && (m + n)[1..] == m[1..] + n;
      PickedConcat(a[1..], m[1..], b, n);
    }
  }

  lemma {:induction false} RampConcat(stops: seq<Rgb>, total: nat, pos: nat, m: nat, n: nat)
    requires stops != [] && pos + m + n <= total
    ensures Ramp(stops, total, pos, m + n) == Ramp(stops, total, pos, m) + Ramp(stops, total, pos + m, n)
    decreases m
  {
    hide Sample;
    if m > 0 {
      RampConcat(stops, total, pos + 1, m - 1, n);
    }
  }

  lemma {:induction false} PickedNone(cells: seq<Cell>)
    ensures Picked(cells, Same(false, |cells|)) == []
  {
    if cells != [] {
      PickedNone(cells[1..]);
      assert Same(false, |cells|)[1..] == Same(false, |cells| - 1);
    }
  }

  lemma {:induction false} SampledColors(text: string, style: Style, stops: seq<Rgb>, total: nat, pos: nat)
    requires stops != [] && pos + |text| <= total
    ensures var cells := Cells(Sampled(text, style, stops, total, pos));
            |cells| == |text| && Picked(cells, Same(true, |text|)) == Ramp(stops, total, pos, |text|)
    decreases |text|
  {
    hide Sample;
    if text != [] {
      var runs := Sampled(text, style, stops, total, pos);
      SampledColors(text[1..], style, stops, total, pos + 1);
      OneRun(runs[0]);
      assert Spell(runs[0].text, runs[0].style) == [Cell(text[0], runs[0].style)];
      CellsConcat([runs[0]], runs[1..]);
      assert runs == [runs[0]] + runs[1..];
      assert Same(true, |text|)[1..] == Same(true, |text| - 1);
    }
  }

  /** As many characters, styled, as there are visible ones. */
  lemma {:induction false} GradientLen(nodes: seq<Node>, style: Style, stops: seq<Rgb>, total: nat, pos: nat)
    requires stops != [] && pos + OwnLen(nodes) <= total
    ensures |Cells(Gradient(nodes, style, stops, total, pos))| == VisibleLen(nodes)
    decreases nodes
  {
    hide Sampled, ApplyTag, IsGradient, GradientStops, Cells, Picked, Ramp;
    if nodes == [] {
      NothingPicked(stops, total, pos);
    } else {
      var n := nodes[0];
      CellsConcat(GradientNode(n, style, stops, total, pos), Gradient(nodes[1..], style, stops, total, pos + NodeOwnLen(n)));
      GradientLen(nodes[1..], style, stops, total, pos + NodeOwnLen(n));
      match n
      case Text(text) => SampledColors(text, style, stops, total, pos);
      case Tag(name, args, children) =>
        if IsGradient(name) {
          GradientLen(children, style, GradientStops(args), Total(children), 0);
        } else {
          GradientLen(children, ApplyTag(style, name, args), stops, total, pos);
        }
    }
  }

  /**
   * The characters outside nested gradients take the colours of consecutive positions, whatever
   * tags and nested gradients stand between them.
   */
  lemma {:induction false} GradientColors(nodes: seq<Node>, style: Style, stops: seq<Rgb>, total: nat, pos: nat)
    requires stops != [] && pos + OwnLen(nodes) <= total
    ensures Picked(Cells(Gradient(nodes, style, stops, total, pos)), Own(nodes)) == Ramp(stops, total, pos, OwnLen(nodes))
    ensures |Own(nodes)| == VisibleLen(nodes)
    decreases nodes
  {
    hide Sampled, ApplyTag, IsGradient, GradientStops, Sample, Picked, Ramp, Cells;
    if nodes == [] {
      NothingPicked(stops, total, pos);
    } else {
      var n, rest := nodes[0], nodes[1..];
      var next := pos + NodeOwnLen(n);
      GradientNodeColors(n, style, stops, total, pos);
      GradientColors(rest, style, stops, total, next);
      var a, b := GradientNode(n, style, stops, total, pos), Gradient(rest, style, stops, total, next);
      CellsConcat(a, b);
      PickedConcat(Cells(a), OwnNode(n), Cells(b), Own(rest));
      RampConcat(stops, total, pos, NodeOwnLen(n), OwnLen(rest));
    }
  }

  lemma NothingPicked(stops: seq<Rgb>, total: nat, pos: nat)
    requires stops != [] && pos <= total
    ensures Cells([]) == [] && Picked([], []) == Ramp(stops, total, pos, 0)
  {
  }

  lemma {:induction false} SameLen(b: bool, n: nat)
    ensures |Same(b, n)| == n
  {
    if n > 0 {
      SameLen(b, n - 1);
    }
  }

  lemma {:induction false} GradientNodeColors(n: Node, style: Style, stops: seq<Rgb>, total: nat, pos: nat)
    requires stops != [] && pos + NodeOwnLen(n) <= total
    ensures Picked(Cells(GradientNode(n, style, stops, total, pos)), OwnNode(n)) == Ramp(stops, total, pos, NodeOwnLen(n))
    ensures |OwnNode(n)| == NodeLen(n) == |Cells(GradientNode(n, style, stops, total, pos))|
    decreases n
  {
    hide Sampled, ApplyTag, IsGradient, GradientStops, Sample, Picked, Cells;
    match n
    case Text(text) =>
      SampledColors(text, style, stops, total, pos);
      SameLen(true, |text|);
    case Tag(name, args, children) =>
      if IsGradient(name) {
        GradientLen(children, style, GradientStops(args), Total(children), 0);
        SameLen(false, VisibleLen(children));
        PickedNone(Cells(Gradient(children, style, GradientStops(args), Total(children), 0)));
      } else {
        GradientColors(children, ApplyTag(style, name, args), stops, total, pos);
        GradientLen(children, ApplyTag(style, name, args), stops, total, pos);
      }
  }

  // ----- the recursive loops -----

  predicate Panics(nodes: seq<Node>)
    decreases nodes
  {
    nodes != [] && (NodePanics(nodes[0]) || Panics(nodes[1..]))
  }

  /** Some tag of the tree holds a colour whose reading panics. */
  predicate NodePanics(n: Node)
    decreases n
  {
    n.Tag? && (TagPanics(n.name, n.args) || Panics(n.children))
  }

  /** `flatten`, pushing onto `before`; it visits every tag, so it panics if any colour does. */
  method FlattenInto(nodes: seq<Node>, style: Style, before: seq<Run>) returns (out: seq<Run>, panicked: bool)
    ensures panicked <==> Panics(nodes)
    ensures !panicked ==> out == before + Flatten(nodes, style)
    decreases nodes
  {
    hide FlattenNode, NodePanics;
    out, panicked := before, false;
    var i := 0;
    assert nodes[0..] == nodes;
    while i < |nodes|
      invariant 0 <= i <= |nodes| && !panicked
      invariant Panics(nodes) <==> Panics(nodes[i..])
      invariant out + Flatten(nodes[i..], style) == before + Flatten(nodes, style)
    {
      assert nodes[i..][0] == nodes[i] && nodes[i..][1..] == nodes[i + 1..];
      Joining(out, FlattenNode(nodes[i], style), Flatten(nodes[i + 1..], style));
      out, panicked := FlattenNodeInto(nodes[i], style, out);
      if panicked {
        return;
      }
      i := i + 1;
    }
    assert nodes[i..] == [] && out + [] == out;
  }

  lemma Joining(a: seq<Run>, b: seq<Run>, c: seq<Run>)
    ensures a + b + c == a + (b + c)
  {
  }

  method FlattenNodeInto(n: Node, style: Style, before: seq<Run>) returns (out: seq<Run>, panicked: bool)
    ensures panicked <==> NodePanics(n)
    ensures !panicked ==> out == before + FlattenNode(n, style)
    decreases n
  {
    hide ApplyTag, IsGradient, GradientStops, Total, TagPanics, Gradient, Flatten, Panics;
    out, panicked := before, false;
    match n {
      case Text(text) =>
        out := if text == [] then before else before + [Run(text, style)];
        assert before + [] == before;
      case Tag(name, args, children) =>
        panicked := TagPanics(name, args);
        if panicked {
          return;
        }
        if IsGradient(name) {
          var end;
          end, out, panicked := GradientInto(children, style, GradientStops(args), Total(children), 0, before);
        } else {
          out, panicked := FlattenInto(children, ApplyTag(style, name, args), before);
        }
    }
  }

  /** `flatten_gradient`, pushing onto `before` and moving `pos` on. */
  method GradientInto(nodes: seq<Node>, style: Style, stops: seq<Rgb>, total: nat, start: nat, before: seq<Run>)
    returns (pos: nat, out: seq<Run>, panicked: bool)
    requires stops != [] && start + OwnLen(nodes) <= total
    ensures panicked <==> Panics(nodes)
    ensures !panicked ==> pos == start + OwnLen(nodes) && out == before + Gradient(nodes, style, stops, total, start)
    decreases nodes
  {
    hide GradientNode, NodePanics, NodeOwnLen;
    pos, out, panicked := start, before, false;
    var i := 0;
    assert nodes[0..] == nodes;
    while i < |nodes|
      invariant 0 <= i <= |nodes| && !panicked
      invariant Panics(nodes) <==> Panics(nodes[i..])
      invariant pos + OwnLen(nodes[i..]) == start + OwnLen(nodes)
      invariant out + Gradient(nodes[i..], style, stops, total, pos) == before + Gradient(nodes, style, stops, total, start)
    {
      assert nodes[i..][0] == nodes[i] && nodes[i..][1..] == nodes[i + 1..];
      ghost var rest := Gradient(nodes[i + 1..], style, stops, total, pos + NodeOwnLen(nodes[i]));
      Joining(out, GradientNode(nodes[i], style, stops, total, pos), rest);
      pos, out, panicked := GradientNodeInto(nodes[i], style, stops, total, pos, out);
      if panicked {
        return;
      }
      i := i + 1;
    }
    assert nodes[i..] == [] && out + [] == out;
  }

  method GradientNodeInto(n: Node, style: Style, stops: seq<Rgb>, total: nat, start: nat, before: seq<Run>)
    returns (pos: nat, out: seq<Run>, panicked: bool)
    requires stops != [] && start + NodeOwnLen(n) <= total
    ensures panicked <==> NodePanics(n)
    ensures !panicked ==> pos == start + NodeOwnLen(n) && out == before + GradientNode(n, style, stops, total, start)
    decreases n
  {
    hide ApplyTag, IsGradient, GradientStops, Total, TagPanics, Sampled, Gradient, Panics, OwnLen;
    pos, out, panicked := start, before, false;
    match n {
      case Text(text) =>
        pos, out := SampleText(text, style, stops, total, start, before);
      case Tag(name, args, children) =>
        panicked := TagPanics(name, args);
        if panicked {
          return;
        }
        if IsGradient(name) {
          var end;
          end, out, panicked := GradientInto(children, style, GradientStops(args), Total(children), 0, before);
        } else {
          pos, out, panicked := GradientInto(children, ApplyTag(style, name, args), stops, total, start, before);
        }
    }
  }

  method SampleText(text: string, style: Style, stops: seq<Rgb>, total: nat, start: nat, before: seq<Run>)
    returns (pos: nat, out: seq<Run>)
    requires stops != [] && start + |text| <= total
    ensures pos == start + |text| && out == before + Sampled(text, style, stops, total, start)
  {
    hide Sample;
    pos, out := start, before;
    assert text[0..] == text;
    for k := 0 to |text|
      invariant pos == start + k
      invariant out + Sampled(text[k..], style, stops, total, pos) == before + Sampled(text, style, stops, total, start)
    {
      var run := Run([text[k]], style.(color := Some(Sample(stops, total, pos))));
      assert text[k..][1..] == text[k + 1..];
      ghost var rest := Sampled(text[k + 1..], style, stops, total, pos + 1);
      assert out + ([run] + rest) == out + [run] + rest;
      out := out + [run];
      pos := pos + 1;
    }
    assert out + [] == out;
  }
}
