/** The rich-text parser of `src/protocol/text_format.rs`: legacy codes, then tags into a tree. */
module TextParser {
  import opened Bytes
  import opened Strings
  import opened StatusKeys

  datatype Node = Text(text: string) | Tag(name: string, args: seq<string>, children: seq<Node>)

  datatype Parsed = Parsed(nodes: seq<Node>, pos: nat)

  function Flush(text: string): seq<Node> {
    if text == [] then [] else [Text(text)]
  }

  /** Where the first `>` from `pos` on is, or the end of the input. */
  function NextGt(chars: string, pos: nat): (r: nat)
    requires pos <= |chars|
    ensures pos <= r <= |chars| && (r < |chars| ==> chars[r] == '>')
    decreases |chars| - pos
  {
    if pos == |chars| || chars[pos] == '>' then pos else NextGt(chars, pos + 1)
  }

  /** What the parser does at a character: gather text, leave a tag, or enter one. */
  datatype Move =
    | Gather(added: string, next: nat)
    | Close(next: nat)
    | Enter(name: string, args: seq<string>, next: nat)

  function NextMove(chars: string, pos: nat, nested: bool): (m: Move)
    requires pos < |chars|
    ensures pos < m.next <= |chars|
  {
    if chars[pos] == '\\' && pos + 1 < |chars| then Gather([chars[pos + 1]], pos + 2)
    else if chars[pos] == '<' && NextGt(chars, pos) < |chars| then
      var tagEnd := NextGt(chars, pos);
      var inner := chars[pos + 1..tagEnd];
      if inner != [] && inner[0] == '/' then
        if nested then Close(tagEnd + 1) else Gather(chars[pos..tagEnd + 1], tagEnd + 1)
      else
        var parts := Split(inner, ':');
        if parts[0] == [] then Gather([chars[pos]], pos + 1) else Enter(parts[0], parts[1..], tagEnd + 1)
    else Gather([chars[pos]], pos + 1)
  }

  /** What follows a parse that has gathered `text` and stands at `pos`. */
  function ParseFrom(chars: string, pos: nat, nested: bool, text: string): (r: Parsed)
    requires pos <= |chars|
    ensures pos <= r.pos <= |chars|
    decreases |chars| - pos
  {
    if pos == |chars| then Parsed(Flush(text), pos)
    else
      match NextMove(chars, pos, nested)
      case Gather(added, next) => ParseFrom(chars, next, nested, text + added)
      case Close(next) => Parsed(Flush(text), next)
      case Enter(name, args, next) =>
        var children := ParseFrom(chars, next, true, []);
        var rest := ParseFrom(chars, children.pos, nested, []);
        Parsed(Flush(text) + [Tag(name, args, children.nodes)] + rest.nodes, rest.pos)
  }

  /** `parse_nodes`: the loop over characters, recursing into each opening tag. */
  method ParseNodes(chars: string, start: nat, nested: bool) returns (nodes: seq<Node>, pos: nat)
    requires start <= |chars|
    ensures Parsed(nodes, pos) == ParseFrom(chars, start, nested, [])
    decreases |chars| - start
  {
    hide NextMove, Flush;
    nodes, pos := [], start;
    var text := [];
    while pos < |chars|
      invariant start <= pos <= |chars|
      invariant ParseFrom(chars, start, nested, []) ==
                var r := ParseFrom(chars, pos, nested, text); Parsed(nodes + r.nodes, r.pos)
      decreases |chars| - pos
    {
      match NextMove(chars, pos, nested)
      case Gather(added, next) =>
        text, pos := text + added, next;
      case Close(next) =>
        nodes, pos := nodes + Flush(text), next;
        return;
      case Enter(name, args, inside) =>
        var children, next := ParseNodes(chars, inside, true);
        ghost var rest := ParseFrom(chars, next, nested, []);
        var tag := Tag(name, args, children);
        assert nodes + (Flush(text) + [tag] + rest.nodes) == nodes + Flush(text) + [tag] + rest.nodes;
        nodes := nodes + Flush(text) + [tag];
        text, pos := [], next;
    }
    nodes := nodes + Flush(text);
  }

  /** Parsing a whole input, from the top level, takes all of it. */
  lemma {:induction false} TopLevelTakesAll(chars: string, pos: nat, text: string)
    requires pos <= |chars|
    ensures ParseFrom(chars, pos, false, text).pos == |chars|
    decreases |chars| - pos
  {
    if pos < |chars| {
      match NextMove(chars, pos, false)
      case Gather(added, next) => TopLevelTakesAll(chars, next, text + added);
      case Enter(_, _, next) => TopLevelTakesAll(chars, ParseFrom(chars, next, true, []).pos, []);
    }
  }

  // ----- visible text -----

  function VisibleText(nodes: seq<Node>): string
    decreases nodes
  {
    if nodes == [] then []
    else NodeText(nodes[0]) + VisibleText(nodes[1..])
  }

  function NodeText(n: Node): string
    decreases n
  {
    match n
    case Text(text) => text
    case Tag(_, _, children) => VisibleText(children)
  }

  lemma {:induction false} VisibleTextAppend(a: seq<Node>, b: seq<Node>)
    ensures VisibleText(a + b) == VisibleText(a) + VisibleText(b)
    decreases |a|
  {
    if a == [] {
      assert a + b == b;
    } else {
      assert (a + b)[1..] == a[1..] + b;
      VisibleTextAppend(a[1..], b);
    }
  }

  lemma FlushText(text: string)
    ensures VisibleText(Flush(text)) == text
  {
  }

  /** `a` is what is left of `b` after deleting some of its characters. */
  ghost predicate Thinned(a: string, b: string)
    decreases |b|
  {
    a == [] || (b != [] && (Thinned(a, b[1..]) || (a[0] == b[0] && Thinned(a[1..], b[1..]))))
  }

  lemma {:induction false} ThinnedConcat(a: string, b: string, c: string, d: string)
    requires Thinned(a, b) && Thinned(c, d)
    ensures Thinned(a + c, b + d)
    decreases |b|
  {
    if b == [] {
      assert a + c == c && b + d == d;
    } else {
      assert (b + d)[1..] == b[1..] + d;
      if Thinned(a, b[1..]) {
        ThinnedConcat(a, b[1..], c, d);
      } else {
        ThinnedConcat(a[1..], b[1..], c, d);
        assert (a + c)[1..] == a[1..] + c;
      }
    }
  }

  lemma {:induction false} ThinnedSelf(a: string)
    ensures Thinned(a, a)
  {
    if a != [] {
      ThinnedSelf(a[1..]);
    }
  }

  lemma ThinnedNothing(b: string)
    ensures Thinned([], b)
  {
  }

  lemma {:induction false} ThinnedHas(a: string, b: string, c: char)
    requires Thinned(a, b) && c in a
    ensures c in b
    decreases |b|
  {
    if Thinned(a, b[1..]) {
      ThinnedHas(a, b[1..], c);
    } else if c != a[0] {
      ThinnedHas(a[1..], b[1..], c);
    }
  }

  /**
   * The parser invents no text and reorders none: what is visible after `text` is the consumed
   * input with some characters (markup and escapes) deleted.
   */
  lemma {:induction false} VisibleIsThinned(chars: string, pos: nat, nested: bool, text: string)
    requires pos <= |chars|
    ensures Shows(chars, pos, ParseFrom(chars, pos, nested, text), text)
    decreases |chars| - pos
  {
    hide NextMove, VisibleText, Thinned, Shows;
    var r := ParseFrom(chars, pos, nested, text);
    if pos == |chars| {
      FlushShows(chars, pos, pos, text);
    } else {
      match NextMove(chars, pos, nested)
      case Gather(added, next) =>
        VisibleIsThinned(chars, next, nested, text + added);
        GatheredIsThinned(chars, pos, nested);
        MoreText(chars, pos, next, r, text, added);
      case Close(next) =>
        FlushShows(chars, pos, next, text);
      case Enter(name, args, next) =>
        var children := ParseFrom(chars, next, true, []);
        VisibleIsThinned(chars, next, true, []);
        VisibleIsThinned(chars, children.pos, nested, []);
        TagShows(chars, pos, next, Tag(name, args, children.nodes), children.pos, ParseFrom(chars, children.pos, nested, []), text);
    }
  }

  /** `r` shows `text`, then characters of `chars[pos..r.pos]` in their order. */
  ghost predicate Shows(chars: string, pos: nat, r: Parsed, text: string) {
    var v := VisibleText(r.nodes);
    pos <= r.pos <= |chars| && text <= v && Thinned(v[|text|..], chars[pos..r.pos])
  }

  lemma FlushShows(chars: string, pos: nat, next: nat, text: string)
    requires pos <= next <= |chars|
    ensures Shows(chars, pos, Parsed(Flush(text), next), text)
  {
  }

  lemma GatheredIsThinned(chars: string, pos: nat, nested: bool)
    requires pos < |chars| && NextMove(chars, pos, nested).Gather?
    ensures var m := NextMove(chars, pos, nested); Thinned(m.added, chars[pos..m.next])
  {
    hide Split, NextGt, Thinned;
    var m := NextMove(chars, pos, nested);
    if |m.added| == 1 && m.added[0] == chars[pos..m.next][|chars[pos..m.next]| - 1] {
      OneThinned(m.added, chars[pos..m.next]);
    } else {
      ThinnedSelf(m.added);
    }
  }

  /** Passing `added` on from `chars[pos..mid]` to the gathered text keeps the relation. */
  lemma MoreText(chars: string, pos: nat, mid: nat, r: Parsed, text: string, added: string)
    requires pos <= mid <= r.pos <= |chars|
    requires Thinned(added, chars[pos..mid]) && Shows(chars, mid, r, text + added)
    ensures Shows(chars, pos, r, text)
  {
    hide VisibleText, Thinned;
    var v := VisibleText(r.nodes);
    ThinnedConcat(added, chars[pos..mid], v[|text + added|..], chars[mid..r.pos]);
    assert v[|text|..] == added + v[|text + added|..];
    assert chars[pos..r.pos] == chars[pos..mid] + chars[mid..r.pos];
  }

  lemma {:induction false} OneThinned(one: string, b: string)
    requires |one| == 1 && one[0] in b
    ensures Thinned(one, b)
    decreases |b|
  {
    if one[0] != b[0] {
      OneThinned(one, b[1..]);
    } else {
      assert one[1..] == [];
    }
  }

  /** A tag shows what is inside it, and the markup itself is deleted. */
  lemma TagShows(chars: string, pos: nat, next: nat, tag: Node, mid: nat, rest: Parsed, text: string)
    requires pos <= next <= mid && tag.Tag?
    requires Shows(chars, next, Parsed(tag.children, mid), []) && Shows(chars, mid, rest, [])
    ensures Shows(chars, pos, Parsed(Flush(text) + [tag] + rest.nodes, rest.pos), text)
  {
    hide VisibleText, Thinned, Flush;
    FlushText(text);
    VisibleTextAppend(Flush(text) + [tag], rest.nodes);
    VisibleTextAppend(Flush(text), [tag]);
    OneTag(tag);
    var inside, after := VisibleText(tag.children), VisibleText(rest.nodes);
    assert inside[|""|..] == inside && after[|""|..] == after;
    assert (text + inside + after)[|text|..] == inside + after;
    ThinnedNothing(chars[pos..next]);
    ThinnedConcat([], chars[pos..next], inside, chars[next..mid]);
    assert [] + inside == inside && chars[pos..next] + chars[next..mid] == chars[pos..mid];
    ThinnedConcat(inside, chars[pos..mid], after, chars[mid..rest.pos]);
    assert chars[pos..rest.pos] == chars[pos..mid] + chars[mid..rest.pos];
  }

  lemma OneTag(tag: Node)
    requires tag.Tag?
    ensures VisibleText([tag]) == VisibleText(tag.children)
  {
  }

  // ----- writing a tree -----

  /** Trees that can be written: no empty or adjacent texts, and names and arguments that fit in a tag. */
  ghost predicate Writable(nodes: seq<Node>)
    decreases nodes
  {
    nodes == [] ||
    (WritableNode(nodes[0]) && Writable(nodes[1..]) && !(|nodes| > 1 && nodes[0].Text? && nodes[1].Text?))
  }

  ghost predicate WritableNode(n: Node)
    decreases n
  {
    match n
    case Text(text) => text != []
    case Tag(name, args, children) =>
      name != [] && name[0] != '/' && (forall p | p in [name] + args :: ':' !in p && '>' !in p) && Writable(children)
  }

  function Escaped(text: string): (r: string)
    ensures |r| == 2 * |text|
  {
    if text == [] then [] else ['\\', text[0]] + Escaped(text[1..])
  }

  function Joined(parts: seq<string>): string
    requires parts != []
  {
    if |parts| == 1 then parts[0] else parts[0] + [':'] + Joined(parts[1..])
  }

  function Opening(name: string, args: seq<string>): string {
    ['<'] + Joined([name] + args) + ['>']
  }

  function Written(nodes: seq<Node>): string
    decreases nodes
  {
    if nodes == [] then [] else WrittenNode(nodes[0]) + Written(nodes[1..])
  }

  function WrittenNode(n: Node): string
    decreases n
  {
    match n
    case Text(text) => Escaped(text)
    case Tag(name, args, children) => Opening(name, args) + Written(children) + "</>"
  }

  /** `part` stands in `chars` at `pos`. */
  ghost predicate At(chars: string, pos: nat, part: string) {
    pos + |part| <= |chars| && chars[pos..pos + |part|] == part
  }

  lemma AtConcat(chars: string, pos: nat, a: string, b: string)
    requires At(chars, pos, a + b)
    ensures At(chars, pos, a) && At(chars, pos + |a|, b)
  {
    var w := chars[pos..pos + |a + b|];
    assert w[..|a|] == a && w[|a|..] == b;
    assert chars[pos..pos + |a|] == w[..|a|] && chars[pos + |a|..pos + |a| + |b|] == w[|a|..];
  }

  lemma EscapeMove(chars: string, pos: nat, nested: bool, c: char)
    requires At(chars, pos, ['\\', c])
    ensures NextMove(chars, pos, nested) == Gather([c], pos + 2)
  {
    assert chars[pos..pos + 2][0] == '\\' && chars[pos..pos + 2][1] == c;
  }

  lemma {:induction false} EscapedIsGathered(chars: string, pos: nat, nested: bool, text: string, more: string)
    requires At(chars, pos, Escaped(more))
    ensures ParseFrom(chars, pos, nested, text) == ParseFrom(chars, pos + 2 * |more|, nested, text + more)
    decreases |more|
  {
    hide NextMove;
    if more == [] {
      assert text + more == text;
    } else {
      AtConcat(chars, pos, ['\\', more[0]], Escaped(more[1..]));
      EscapeMove(chars, pos, nested, more[0]);
      hide At;
      EscapedIsGathered(chars, pos + 2, nested, text + [more[0]], more[1..]);
      assert text + more == text + [more[0]] + more[1..];
    }
  }

  lemma {:induction false} GtAfter(chars: string, pos: nat, part: string)
    requires At(chars, pos, part) && '>' !in part && pos + |part| < |chars| && chars[pos + |part|] == '>'
    ensures NextGt(chars, pos) == pos + |part|
    decreases |part|
  {
    if part != [] {
      assert chars[pos] == chars[pos..pos + |part|][0];
      AtConcat(chars, pos, part[..1], part[1..]) by { assert part == part[..1] + part[1..]; }
      GtAfter(chars, pos + 1, part[1..]);
    }
  }

  lemma {:induction false} SplitJoined(parts: seq<string>)
    requires parts != [] && forall p | p in parts :: ':' !in p
    ensures Split(Joined(parts), ':') == parts
    decreases |parts|
  {
    if |parts| == 1 {
      SplitWhole(parts[0], ':');
    } else {
      SplitAtFirst(parts[0], ':', Joined(parts[1..]));
      SplitJoined(parts[1..]);
    }
  }

  lemma {:induction false} JoinedHas(parts: seq<string>, c: char)
    requires parts != [] && c != ':' && forall p | p in parts :: c !in p
    ensures c !in Joined(parts)
    decreases |parts|
  {
    if |parts| > 1 {
      JoinedHas(parts[1..], c);
    }
  }

  lemma JoinedStarts(parts: seq<string>)
    requires parts != [] && parts[0] != []
    ensures Joined(parts) != [] && Joined(parts)[0] == parts[0][0]
  {
  }

  lemma OpeningIsEntered(chars: string, pos: nat, nested: bool, name: string, args: seq<string>)
    requires WritableNode(Tag(name, args, [])) && At(chars, pos, Opening(name, args))
    ensures NextMove(chars, pos, nested) == Enter(name, args, pos + |Opening(name, args)|)
  {
    hide Split, Joined, NextGt;
    var parts := [name] + args;
    var inner := Joined(parts);
    JoinedHas(parts, '>');
    SplitJoined(parts);
    JoinedStarts(parts);
    assert parts[1..] == args;
    AtConcat(chars, pos, ['<'] + inner, ['>']);
    AtConcat(chars, pos, ['<'], inner);
    assert chars[pos] == chars[pos..pos + 1][0];
    assert chars[pos + 1 + |inner|] == chars[pos + 1 + |inner|..pos + 2 + |inner|][0];
    GtAfter(chars, pos, ['<'] + inner);
    assert chars[pos + 1..pos + 1 + |inner|] == inner;
  }

  lemma ClosingIsLeft(chars: string, pos: nat)
    requires At(chars, pos, "</>")
    ensures NextMove(chars, pos, true) == Close(pos + 3)
  {
    var w := chars[pos..pos + 3];
    assert chars[pos] == w[0] && chars[pos + 1] == w[1] && chars[pos + 2] == w[2];
    GtAfter(chars, pos, "</") by { AtConcat(chars, pos, "</", ">"); }
  }

  /** `pos` is where the enclosing level ends: at a closing tag, or at the end of the input. */
  ghost predicate EndsAt(chars: string, pos: nat, nested: bool) {
    if nested then At(chars, pos, "</>") else pos == |chars|
  }

  /** Parsing a written tree gives the tree back, at the top level and inside a tag. */
  lemma {:induction false} WrittenParses(chars: string, pos: nat, nested: bool, text: string, nodes: seq<Node>)
    requires Writable(nodes) && (text != [] && nodes != [] ==> nodes[0].Tag?)
    requires At(chars, pos, Written(nodes)) && EndsAt(chars, pos + |Written(nodes)|, nested)
    ensures ParseFrom(chars, pos, nested, text) == Parsed(Flush(text) + nodes, EndOf(pos + |Written(nodes)|, nested))
    decreases nodes
  {
    hide NextMove, ParseFrom, At, EndsAt, EndOf, Flush, WrittenNode;
    if nodes == [] {
      EndParses(chars, pos, nested, text);
      assert Flush(text) + nodes == Flush(text);
    } else {
      var head, tail := nodes[0], nodes[1..];
      var next := pos + |WrittenNode(head)|;
      AtConcat(chars, pos, WrittenNode(head), Written(tail));
      FlushJoin(text, head, tail);
      assert [head] + tail == nodes;
      match head
      case Text(more) =>
        WrittenTextParses(chars, pos, nested, text, head);
        WrittenParses(chars, next, nested, more, tail);
      case Tag(_, _, children) =>
        TagParts(chars, pos, head);
        WrittenParses(chars, pos + |Opening(head.name, head.args)|, true, [], children);
        WrittenTagParses(chars, pos, nested, text, head);
        WrittenParses(chars, next, nested, [], tail);
    }
  }

  function EndOf(pos: nat, nested: bool): nat {
    if nested then pos + 3 else pos
  }

  lemma EndParses(chars: string, pos: nat, nested: bool, text: string)
    requires EndsAt(chars, pos, nested)
    ensures pos <= |chars| && ParseFrom(chars, pos, nested, text) == Parsed(Flush(text), EndOf(pos, nested))
  {
    hide NextMove;
    if nested {
      ClosingIsLeft(chars, pos);
    }
  }

  lemma FlushJoin(text: string, head: Node, tail: seq<Node>)
    requires head.Text? ==> text == [] && head.text != []
    ensures Flush(text) + [head] + (Flush([]) + tail) == Flush(text) + ([head] + tail)
    ensures head.Text? ==> Flush(head.text) + tail == Flush(text) + ([head] + tail)
  {
  }

  lemma WrittenTextParses(chars: string, pos: nat, nested: bool, text: string, head: Node)
    requires head.Text? && text == [] && At(chars, pos, WrittenNode(head))
    ensures pos + |WrittenNode(head)| <= |chars|
    ensures ParseFrom(chars, pos, nested, text) == ParseFrom(chars, pos + |WrittenNode(head)|, nested, head.text)
  {
    hide ParseFrom;
    EscapedIsGathered(chars, pos, nested, text, head.text);
    assert text + head.text == head.text;
  }

  lemma TagParts(chars: string, pos: nat, tag: Node)
    requires tag.Tag? && At(chars, pos, WrittenNode(tag))
    ensures At(chars, pos, Opening(tag.name, tag.args))
    ensures var inside := pos + |Opening(tag.name, tag.args)|;
            && At(chars, inside, Written(tag.children))
            && EndsAt(chars, inside + |Written(tag.children)|, true)
            && EndOf(inside + |Written(tag.children)|, true) == pos + |WrittenNode(tag)| <= |chars|
  {
    hide At, Opening, Written;
    var start, inside := Opening(tag.name, tag.args), Written(tag.children);
    AtConcat(chars, pos, start + inside, "</>");
    AtConcat(chars, pos, start, inside);
    assert pos + |WrittenNode(tag)| <= |chars| by { AtFits(chars, pos, WrittenNode(tag)); }
  }

  lemma WrittenTagParses(chars: string, pos: nat, nested: bool, text: string, tag: Node)
    requires tag.Tag? && WritableNode(tag) && At(chars, pos, WrittenNode(tag))
    requires var inside := pos + |Opening(tag.name, tag.args)|;
             inside <= |chars| && ParseFrom(chars, inside, true, []) == Parsed(Flush([]) + tag.children, pos + |WrittenNode(tag)|)
    ensures var rest := ParseFrom(chars, pos + |WrittenNode(tag)|, nested, []);
            ParseFrom(chars, pos, nested, text) == Parsed(Flush(text) + [tag] + rest.nodes, rest.pos)
  {
    hide NextMove, ParseFrom, Opening, Written, At;
    TagParts(chars, pos, tag);
    OpeningIsEntered(chars, pos, nested, tag.name, tag.args);
    EnterParses(chars, pos, nested, text);
    assert Flush([]) + tag.children == tag.children;
  }

  lemma AtFits(chars: string, pos: nat, part: string)
    requires At(chars, pos, part)
    ensures pos + |part| <= |chars|
  {
  }

  lemma EnterParses(chars: string, pos: nat, nested: bool, text: string)
    requires pos < |chars| && NextMove(chars, pos, nested).Enter?
    ensures var m := NextMove(chars, pos, nested);
            var children := ParseFrom(chars, m.next, true, []);
            var rest := ParseFrom(chars, children.pos, nested, []);
            ParseFrom(chars, pos, nested, text) ==
            Parsed(Flush(text) + [Tag(m.name, m.args, children.nodes)] + rest.nodes, rest.pos)
  {
  }

  /** Every tree of writable nodes is the parse of some text. */
  lemma WriteParseRoundTrip(nodes: seq<Node>)
    requires Writable(nodes)
    ensures ParseFrom(Written(nodes), 0, false, []) == Parsed(nodes, |Written(nodes)|)
  {
    hide ParseFrom, Written, Writable;
    WrittenParses(Written(nodes), 0, false, [], nodes);
    assert Flush([]) + nodes == nodes;
  }

  // ----- legacy codes -----

  /** The tag a legacy code letter stands for. */
  function LegacyTag(c: char): Option<string> {
    match c
    case '0' => Some("black")
    case '1' => Some("dark_blue")
    case '2' => Some("dark_green")
    case '3' => Some("dark_aqua")
    case '4' => Some("dark_red")
    case '5' => Some("dark_purple")
    case '6' => Some("gold")
    case '7' => Some("gray")
    case '8' => Some("dark_gray")
    case '9' => Some("blue")
    case 'a' => Some("green")
    case 'b' => Some("aqua")
    case 'c' => Some("red")
    case 'd' => Some("light_purple")
    case 'e' => Some("yellow")
    case 'f' => Some("white")
    case 'k' => Some("obfuscated")
    case 'l' => Some("bold")
    case 'm' => Some("strikethrough")
    case 'n' => Some("underlined")
    case 'o' => Some("italic")
    case 'r' => Some("reset")
    case _ => None
  }

  function LegacyToTags(s: string): string {
    if s == [] then []
    else if s[0] == '&' && |s| > 1 && LegacyTag(LowerChar(s[1])).Some? then
      ['<'] + LegacyTag(LowerChar(s[1])).value + ['>'] + LegacyToTags(s[2..])
    else [s[0]] + LegacyToTags(s[1..])
  }

  lemma LegacyStep(value: string, i: nat)
    requires i < |value|
    ensures var known := value[i] == '&' && i + 1 < |value| && LegacyTag(LowerChar(value[i + 1])).Some?;
            && (known ==> LegacyToTags(value[i..]) ==
                          ['<'] + LegacyTag(LowerChar(value[i + 1])).value + ['>'] + LegacyToTags(value[i + 2..]))
            && (!known ==> LegacyToTags(value[i..]) == [value[i]] + LegacyToTags(value[i + 1..]))
  {
  }

  /** The loop of `legacy_codes_to_tags`. */
  method LegacyCodesToTags(value: string) returns (out: string)
    ensures out == LegacyToTags(value)
  {
    hide LegacyTag, LowerChar, LegacyToTags;
    out := [];
    var i := 0;
    assert value[i..] == value;
    while i < |value|
      invariant 0 <= i <= |value|
      invariant out + LegacyToTags(value[i..]) == LegacyToTags(value)
    {
      var c := value[i];
      LegacyStep(value, i);
      if c == '&' && i + 1 < |value| {
        var tag := LegacyTag(LowerChar(value[i + 1]));
        if tag.Some? {
          out := out + (['<'] + tag.value + ['>']);
          i := i + 2;
          continue;
        }
      }
      out := out + [c];
      i := i + 1;
    }
    assert value[i..] == [];
    LegacyEnd();
  }

  lemma LegacyEnd()
    ensures LegacyToTags([]) == []
  {
  }

  const SECTION: char := '\U{00A7}'

  lemma TagNamesArePlain(c: char)
    ensures LegacyTag(c).Some? ==> SECTION !in LegacyTag(c).value
  {
  }

  lemma {:induction false} LegacyAddsNoSection(s: string)
    requires SECTION !in s
    ensures SECTION !in LegacyToTags(s)
    decreases |s|
  {
    hide LegacyTag;
    if s != [] {
      LegacyAddsNoSection(s[1..]);
      if |s| > 1 {
        TagNamesArePlain(LowerChar(s[1]));
        LegacyAddsNoSection(s[2..]);
      }
    }
  }

  lemma {:induction false} UncodedIsKept(s: string)
    requires '&' !in s
    ensures LegacyToTags(s) == s
  {
    hide LegacyTag, LowerChar;
    if s != [] {
      UncodedIsKept(s[1..]);
    }
  }

  /** The tree an input text is rendered from. */
  function Tree(input: string): seq<Node> {
    ParseFrom(LegacyToTags(input), 0, false, []).nodes
  }

  /** A text without section signs shows none, whatever its markup. */
  lemma NoSectionVisible(input: string)
    requires SECTION !in input
    ensures SECTION !in VisibleText(Tree(input))
  {
    hide ParseFrom, LegacyToTags;
    var chars := LegacyToTags(input);
    LegacyAddsNoSection(input);
    VisibleIsThinned(chars, 0, false, []);
    var r := ParseFrom(chars, 0, false, []);
    var v := VisibleText(Tree(input));
    assert v[|""|..] == v;
    if SECTION in v {
      ThinnedHas(v, chars[0..r.pos], SECTION);
    }
  }
}
