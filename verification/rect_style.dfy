/** The "rectangle" style: every node drawn with `├─` under a `│ ` indent, then
    the lines padded to one width and framed with box-drawing characters. */
module RectStyle {
  import opened JsonData
  import opened Nodes
  import opened Text
  import opened Layout
  import opened Errors

  /** The indent before the connector: one `│ ` unit per level below the first. */
  function Indent(level: nat): (r: string)
    ensures |r| == if level == 0 then 0 else 2 * (level - 1)
    ensures forall i :: 0 <= i < |r| ==> r[i] == '│' || r[i] == ' '
  {
    if level > 0 then Repeat("│ ", level - 1) else ""
  }

  /** Unit `j` of the indent is a `│` followed by a blank. */
  lemma IndentAt(level: nat, j: nat)
    requires j < level - 1
    ensures 2 * j + 1 < |Indent(level)|
    ensures Indent(level)[2 * j] == '│' && Indent(level)[2 * j + 1] == ' '
  {
    RepeatAt("│ ", level - 1, j, 0);
    RepeatAt("│ ", level - 1, j, 1);
  }

  /** The connector: `├─` whether or not the node is the last child. */
  const Connector: string := "├─"

  /** `draw(node, level, is_last_child)` of the rectangle style. */
  function Draw(icons: Icons, node: Node, level: nat, isLastChild: bool): string
    decreases node, 1, 0
  {
    var prefix := Connector;
    var indent := Indent(level);
    match node
    case Leaf(name, value) =>
      if value == JNull then indent + prefix + icons.leaf + name + "\n"
      else indent + prefix + icons.leaf + name + ": " + ValueText(value) + "\n"
    case Composite(name, children) =>
      (if name != RootName then indent + prefix + icons.composite + name + "\n" else "")
      + if |children| > 0 then
          DrawEarlier(icons, node, |children| - 1, level + 1) + Draw(icons, children[|children| - 1], level + 1, true)
        else ""
  }

  /** The loop over `children[:-1]`. */
  function DrawEarlier(icons: Icons, p: Node, k: nat, level: nat): string
    requires p.Composite? && k < |p.children|
    decreases p, 0, k
  {
    if k == 0 then "" else DrawEarlier(icons, p, k - 1, level) + Draw(icons, p.children[k - 1], level, false)
  }

  /** The line a visit of the walk stands for; the last-child flag plays no part. */
  function Line(icons: Icons, e: Entry): string
  {
    Indent(e.level) + Connector + Label(icons, e.node)
  }

  function Lines(icons: Icons, es: seq<Entry>): (ls: seq<string>)
    ensures |ls| == |es|
    ensures forall i :: 0 <= i < |es| ==> ls[i] == Line(icons, es[i])
  {
    if es == [] then [] else [Line(icons, es[0])] + Lines(icons, es[1..])
  }

  /** The text a run of visits prints: each shown visit's line and a line feed. */
  function Walk(icons: Icons, es: seq<Entry>): string
  {
    if es == [] then ""
    else (if Shown(es[0].node) then Line(icons, es[0]) + "\n" else "") + Walk(icons, es[1..])
  }

  /** The walk prints exactly the lines of its shown visits, each ended by a line feed. */
  lemma {:induction false} WalkLines(icons: Icons, es: seq<Entry>)
    ensures Walk(icons, es) == Unlines(Lines(icons, Visible(es)))
  {
    if es != [] {
      var vs := Visible(es);
      WalkLines(icons, es[1..]);
      if Shown(es[0].node) {
        assert vs == [es[0]] + Visible(es[1..]);
        assert vs[1..] == Visible(es[1..]);
        UnlinesCons(Line(icons, es[0]), Lines(icons, vs[1..]));
      } else {
        assert vs == Visible(es[1..]);
      }
    }
  }

  lemma {:induction false} WalkAppend(icons: Icons, a: seq<Entry>, b: seq<Entry>)
    ensures Walk(icons, a + b) == Walk(icons, a) + Walk(icons, b)
  {
    if a != [] {
      assert (a + b)[1..] == a[1..] + b;
      WalkAppend(icons, a[1..], b);
    } else {
      assert a + b == b;
    }
  }

  /** A single visit prints its line, unless it is the root composite. */
  lemma WalkOne(icons: Icons, e: Entry)
    ensures Walk(icons, [e]) == if Shown(e.node) then Line(icons, e) + "\n" else ""
  {
    assert [e][1..] == [];
  }

  /** The drawing is the walk's shown visits, one line each, in walk order: the
      same line set as the tree style, with `├─` for every node and `│ ` indents. */
  lemma {:induction false} DrawIsWalk(icons: Icons, node: Node, level: nat, last: bool)
    ensures Draw(icons, node, level, last) == Walk(icons, Entries(node, level, last))
    decreases node, 2, 0
  {
    if node.Leaf? {
      DrawLeafIsWalk(icons, node, level, last);
    } else {
      DrawCompositeIsWalk(icons, node, level, last);
    }
  }

  lemma DrawLeafIsWalk(icons: Icons, node: Node, level: nat, last: bool)
    requires node.Leaf?
    ensures Draw(icons, node, level, last) == Walk(icons, Entries(node, level, last))
  {
    var e := Entry(node, level, last);
    WalkOne(icons, e);
    assert Entries(node, level, last) == [e];
  }

  lemma {:induction false} DrawCompositeIsWalk(icons: Icons, node: Node, level: nat, last: bool)
    requires node.Composite?
    ensures Draw(icons, node, level, last) == Walk(icons, Entries(node, level, last))
    decreases node, 1, 0
  {
    var cs := node.children;
    CompositeDraw(icons, node, level, last);
    CompositeWalk(icons, node, level, last);
    if |cs| > 0 {
      DrawEarlierIsWalk(icons, node, |cs| - 1, level + 1);
      DrawIsWalk(icons, cs[|cs| - 1], level + 1, true);
    }
  }

  /** A composite's own line, as `draw` writes it and as the walk prints it. */
  function OwnLine(icons: Icons, node: Node, level: nat, last: bool): string
  {
    if node.name != RootName then Indent(level) + Connector + icons.composite + node.name + "\n" else ""
  }

  /** The non-recursive part of the proof above: `draw` of a composite is its own
      line, then the earlier children, then the last child... */
  lemma CompositeDraw(icons: Icons, node: Node, level: nat, last: bool)
    requires node.Composite?
    ensures var cs := node.children;
      Draw(icons, node, level, last)
      == OwnLine(icons, node, level, last)
         + if |cs| > 0 then DrawEarlier(icons, node, |cs| - 1, level + 1) + Draw(icons, cs[|cs| - 1], level + 1, true) else ""
  {
  }

  /** ...and so is its walk. */
  lemma CompositeWalk(icons: Icons, node: Node, level: nat, last: bool)
    requires node.Composite?
    ensures var cs := node.children;
      Walk(icons, Entries(node, level, last))
      == OwnLine(icons, node, level, last)
         + if |cs| > 0 then Walk(icons, ChildEntries(node, |cs| - 1, level + 1)) + Walk(icons, Entries(cs[|cs| - 1], level + 1, true)) else ""
  {
    var cs := node.children;
    var e := Entry(node, level, last);
    var all := ChildEntries(node, |cs|, level + 1);
    calc {
      Walk(icons, Entries(node, level, last));
    == { assert Entries(node, level, last) == [e] + all; WalkAppend(icons, [e], all); }
      Walk(icons, [e]) + Walk(icons, all);
    == { WalkOne(icons, e); }
      OwnLine(icons, node, level, last) + Walk(icons, all);
    }
    if |cs| > 0 {
      var earlier := ChildEntries(node, |cs| - 1, level + 1);
      var final := Entries(cs[|cs| - 1], level + 1, true);
      ChildEntriesStep(node, |cs|, level + 1);
      WalkAppend(icons, earlier, final);
    } else {
      assert all == [];
    }
  }

  lemma {:induction false} DrawEarlierIsWalk(icons: Icons, p: Node, k: nat, level: nat)
    requires p.Composite? && k < |p.children|
    ensures DrawEarlier(icons, p, k, level) == Walk(icons, ChildEntries(p, k, level))
    decreases p, 0, k
  {
    if k > 0 {
      DrawEarlierIsWalk(icons, p, k - 1, level);
      DrawIsWalk(icons, p.children[k - 1], level, false);
      DrawEarlierStep(icons, p, k, level);
    } else {
      assert ChildEntries(p, k, level) == [];
    }
  }

  /** One more child: its walk follows the walk of the children before it. */
  lemma DrawEarlierStep(icons: Icons, p: Node, k: nat, level: nat)
    requires p.Composite? && 0 < k < |p.children|
    requires DrawEarlier(icons, p, k - 1, level) == Walk(icons, ChildEntries(p, k - 1, level))
    requires Draw(icons, p.children[k - 1], level, false) == Walk(icons, Entries(p.children[k - 1], level, false))
    ensures DrawEarlier(icons, p, k, level) == Walk(icons, ChildEntries(p, k, level))
  {
    ChildEntriesStep(p, k, level);
    WalkAppend(icons, ChildEntries(p, k - 1, level), Entries(p.children[k - 1], level, false));
  }

  /** When no text holds a line feed, the drawing splits into one line per shown
      visit plus the empty piece after the final line feed. */
  lemma DrawnLines(icons: Icons, node: Node, level: nat, last: bool)
    requires SingleLine(icons, node)
    ensures Split(Draw(icons, node, level, last), '\n') == Lines(icons, Visible(Entries(node, level, last))) + [""]
  {
    var lines := Lines(icons, Visible(Entries(node, level, last)));
    ShownLinesSingle(icons, node, level, last);
    DrawUnlines(icons, node, level, last);
    SplitUnlines(lines);
  }

  /** The drawing is the shown lines, each ended by a line feed. */
  lemma DrawUnlines(icons: Icons, node: Node, level: nat, last: bool)
    ensures Draw(icons, node, level, last) == Unlines(Lines(icons, Visible(Entries(node, level, last))))
  {
    DrawIsWalk(icons, node, level, last);
    WalkLines(icons, Entries(node, level, last));
  }

  /** `draw` prints nothing exactly when no node of the subtree is shown, and
      otherwise text that ends with a line feed. */
  lemma DrawEnding(icons: Icons, node: Node, level: nat, last: bool)
    ensures var text := Draw(icons, node, level, last);
      && (text == "" <==> Visible(Entries(node, level, last)) == [])
      && (text != "" ==> text[|text| - 1] == '\n')
  {
    DrawUnlines(icons, node, level, last);
    UnlinesEnding(Lines(icons, Visible(Entries(node, level, last))));
  }

  lemma ShownLinesSingle(icons: Icons, node: Node, level: nat, last: bool)
    requires SingleLine(icons, node)
    ensures var lines := Lines(icons, Visible(Entries(node, level, last)));
      forall i :: 0 <= i < |lines| ==> '\n' !in lines[i] && |lines[i]| >= 2
  {
    var es := Entries(node, level, last);
    var vs := Visible(es);
    var lines := Lines(icons, vs);
    SingleLineEntries(icons, node, level, last);
    VisibleFrom(es);
    forall i | 0 <= i < |lines|
      ensures '\n' !in lines[i] && |lines[i]| >= 2
    {
      assert vs[i] in es;
      LineSingleLine(icons, vs[i]);
    }
  }

  /** A line holds no line feed when its node's texts hold none, and it is at
      least as long as its connector. */
  lemma LineSingleLine(icons: Icons, e: Entry)
    requires SingleLine(icons, e.node)
    ensures '\n' !in Line(icons, e) && |Line(icons, e)| >= 2
  {
    var indent := Indent(e.level);
    var pre := indent + Connector;
    var line := Line(icons, e);
    LabelSingleLine(icons, e.node);
    forall j | 0 <= j < |line|
      ensures line[j] != '\n'
    {
      if j < |indent| {
        assert line[j] == indent[j];
      } else if j < |pre| {
        assert line[j] == Connector[j - |indent|];
      } else {
        assert line[j] == Label(icons, e.node)[j - |pre|];
      }
    }
  }

  // ---------------------------------------------------------------------------
  // beautify

  /** The first loop: every line padded with `─` to `width`. */
  function Padded(lines: seq<string>, width: nat): (r: seq<string>)
    ensures |r| == |lines|
  {
    seq(|lines|, i requires 0 <= i < |lines| => LJust(lines[i], width, '─'))
  }

  /** One line of the second loop: `│` in column 0, `┤` in the last column. */
  function FrameOne(line: string): (r: string)
    requires |line| >= 2
    ensures |r| == |line|
  {
    "│" + line[1..|line| - 1] + "┤"
  }

  function FramedAll(lines: seq<string>): (r: seq<string>)
    requires forall i :: 0 <= i < |lines| ==> |lines[i]| >= 2
    ensures |r| == |lines|
  {
    seq(|lines|, i requires 0 <= i < |lines| => FrameOne(lines[i]))
  }

  /** The rewrite of `lines[0]`: corners `┌` and `┐`. */
  function TopBorder(line: string): (r: string)
    requires |line| >= 2
    ensures |r| == |line|
  {
    "┌" + line[1..|line| - 1] + "┐"
  }

  /** The rewrites of `lines[-2]`: `┘` in the last column, every `│` turned into
      `└`, as many leading blanks turned into `─` as there are `└`, and every `├`
      turned into `─`. */
  function BottomBorder(line: string): (r: string)
    requires |line| >= 1
    ensures |r| == |line|
  {
    var closed := line[..|line| - 1] + "┘";
    var cornered := ReplaceAll(closed, '│', '└');
    var joined := ReplaceFirst(cornered, ' ', '─', Count(cornered, '└'));
    ReplaceAll(joined, '├', '─')
  }

  /** The width every framed line gets: the longest drawn line plus 7. */
  function Width(lines: seq<string>): nat
    requires |lines| >= 1
  {
    MaxLen(lines) + 7
  }

  /** The lines padded and framed, with the top border over the first one: what
      `beautify` has built before it turns to the bottom line. */
  function Topped(lines: seq<string>): (t: seq<string>)
    requires |lines| >= 1
    ensures |t| == |lines|
    ensures forall i :: 0 <= i < |t| ==> |t[i]| == Width(lines)
  {
    var framed := FramedAll(Padded(lines, Width(lines)));
    framed[0 := TopBorder(framed[0])]
  }

  /** The lines after all of `beautify`'s steps: two pieces at least, since it
      writes `lines[-2]`. */
  function FramedLines(lines: seq<string>): (out: seq<string>)
    requires |lines| >= 2
    ensures |out| == |lines|
  {
    var n := |lines|;
    var topped := Topped(lines);
    topped[n - 2 := BottomBorder(topped[n - 2])][n - 1 := ""]
  }

  /** What `beautify(result)` returns: the framed lines joined, or the
      `IndexError` of `lines[-2]` when the drawing has no line feed at all. */
  function Framed(text: string): Result<string>
  {
    var lines := Split(text, '\n');
    if |lines| < 2 then Err(IndexError) else Ok(Join(FramedLines(lines), '\n'))
  }

  /** `max(len(line) for line in lines)` */
  method MaxLength(lines: array<string>) returns (m: nat)
    requires lines.Length >= 1
    ensures m == MaxLen(lines[..])
  {
    m := |lines[0]|;
    for i := 1 to lines.Length
      invariant forall k :: 0 <= k < i ==> |lines[k]| <= m
      invariant exists k :: 0 <= k < i && |lines[k]| == m
    {
      if |lines[i]| > m {
        m := |lines[i]|;
      }
    }
    MaxLenUnique(lines[..], m);
  }

  lemma MaxLenUnique(lines: seq<string>, m: nat)
    requires |lines| >= 1
    requires forall k :: 0 <= k < |lines| ==> |lines[k]| <= m
    requires exists k :: 0 <= k < |lines| && |lines[k]| == m
    ensures m == MaxLen(lines)
  {
  }

  /** The padding loop, in place. */
  method PadLines(lines: array<string>, width: nat)
    modifies lines
    ensures lines[..] == Padded(old(lines[..]), width)
  {
    for i := 0 to lines.Length
      invariant forall k :: 0 <= k < i ==> lines[k] == LJust(old(lines[k]), width, '─')
      invariant forall k :: i <= k < lines.Length ==> lines[k] == old(lines[k])
    {
      lines[i] := LJust(lines[i], width, '─');
    }
  }

  /** The framing loop, in place. */
  method FrameLines(lines: array<string>)
    requires forall k :: 0 <= k < lines.Length ==> |lines[k]| >= 2
    modifies lines
    ensures lines[..] == FramedAll(old(lines[..]))
  {
    for i := 0 to lines.Length
      invariant forall k :: 0 <= k < i ==> lines[k] == FrameOne(old(lines[k]))
      invariant forall k :: i <= k < lines.Length ==> lines[k] == old(lines[k])
    {
      lines[i] := "│" + lines[i][1..|lines[i]| - 1] + "┤";
    }
  }

  /** Padding, framing and the top border, in place. */
  method TopLines(lines: array<string>)
    requires lines.Length >= 1
    modifies lines
    ensures lines[..] == Topped(old(lines[..]))
  {
    var maxLength := MaxLength(lines);
    PadLines(lines, maxLength + 7);
    FrameLines(lines);
    lines[0] := "┌" + lines[0][1..|lines[0]| - 1] + "┐";
  }

  /** `beautify(result)` of the rectangle style. */
  method Beautify(text: string) returns (r: Result<string>)
    ensures r == Framed(text)
  {
    var parts := Split(text, '\n');
    var lines := new string[|parts|](i requires 0 <= i < |parts| => parts[i]);
    var n := lines.Length;
    assert lines[..] == parts;
    TopLines(lines);
    if n < 2 {
      return Err(IndexError);
    }
    var bottom := lines[n - 2];
    bottom := bottom[..|bottom| - 1] + "┘";
    bottom := ReplaceAll(bottom, '│', '└');
    bottom := ReplaceFirst(bottom, ' ', '─', Count(bottom, '└'));
    bottom := ReplaceAll(bottom, '├', '─');
    lines[n - 2] := bottom;
    lines[n - 1] := "";
    assert lines[..] == FramedLines(parts);
    r := Ok(Join(lines[..], '\n'));
  }

  /** Rectangle-style `visualize(node)`: draw from level 0, then beautify. */
  method Visualize(icons: Icons, node: Node) returns (r: Result<string>)
    ensures r == Framed(Draw(icons, node, 0, false))
  {
    var drawn := Draw(icons, node, 0, false);
    r := Beautify(drawn);
  }

  // ---------------------------------------------------------------------------
  // Properties

  /** A padded and framed line: `│`, the drawn line from column 1 on, `─` up to
      the last column, and `┤` there. */
  lemma FrameOfPadded(line: string, width: nat)
    requires |line| < width - 1
    ensures var f := FrameOne(LJust(line, width, '─'));
      && |f| == width
      && f[0] == '│' && f[width - 1] == '┤'
      && (forall k :: 1 <= k < |line| ==> f[k] == line[k])
      && (forall k :: 1 <= k < width - 1 && k >= |line| ==> f[k] == '─')
  {
  }

  /** What `beautify`'s steps leave of the bottom line: `┘` in the last column,
      no `│` and no `├` anywhere, and `└` in column 0 when it held `│`. */
  lemma BottomBorderShape(line: string)
    requires |line| >= 2
    ensures var b := BottomBorder(line);
      && |b| == |line|
      && b[|b| - 1] == '┘'
      && '│' !in b && '├' !in b
      && (line[0] == '│' ==> b[0] == '└')
      && (line[0] == '┌' ==> b[0] == '┌')
      && ('\n' !in line ==> '\n' !in b)
  {
    var closed := line[..|line| - 1] + "┘";
    var cornered := ReplaceAll(closed, '│', '└');
    var joined := ReplaceFirst(cornered, ' ', '─', Count(cornered, '└'));
    var b := ReplaceAll(joined, '├', '─');
    assert closed[0] == line[0];
    forall k | 0 <= k < |b|
      ensures b[k] != '│' && b[k] != '├'
      ensures '\n' !in line ==> b[k] != '\n'
    {
      assert cornered[k] != '│';
    }
  }

  /** Column `k` of the bottom line, strictly inside the frame, against the framed
      line `t`: `│` becomes `└`, `├` becomes `─`, a blank becomes `─` exactly when
      fewer blanks than there are `└` come before it, and anything else is kept. */
  lemma BottomBorderAt(t: string, k: nat)
    requires 2 <= |t| && 0 < k < |t| - 1
    ensures var c := ReplaceAll(t[..|t| - 1] + "┘", '│', '└');
      var b := BottomBorder(t);
      && (t[k] != '│' && t[k] != ' ' && t[k] != '├' ==> b[k] == t[k])
      && (t[k] == '│' ==> b[k] == '└')
      && (t[k] == '├' ==> b[k] == '─')
      && (t[k] == ' ' ==> (b[k] == ' ' || b[k] == '─'))
      && (t[k] == ' ' ==> (b[k] == '─' <==> Count(c[..k], ' ') < Count(c, '└')))
  {
    var c := ReplaceAll(t[..|t| - 1] + "┘", '│', '└');
    assert c[k] == if t[k] == '│' then '└' else t[k];
    if t[k] == ' ' {
      ReplaceFirstAt(c, ' ', '─', Count(c, '└'), k);
    }
  }

  /** A row of the frame: `┌`...`┐` on top, `│`...`┤` below, each around its
      drawn line padded with `─`. */
  lemma ToppedRow(lines: seq<string>, i: nat)
    requires |lines| >= 1 && i < |lines|
    ensures var t := Topped(lines)[i];
      var w := Width(lines);
      && t[0] == (if i == 0 then '┌' else '│')
      && t[w - 1] == (if i == 0 then '┐' else '┤')
      && (forall k :: 1 <= k < |lines[i]| ==> t[k] == lines[i][k])
      && (forall k :: 1 <= k < w - 1 && k >= |lines[i]| ==> t[k] == '─')
  {
    var w := Width(lines);
    assert |lines[i]| < w - 1;
    FrameOfPadded(lines[i], w);
    FrameOfPadded(lines[0], w);
  }

  lemma ToppedNoFeed(lines: seq<string>)
    requires |lines| >= 1
    requires forall i :: 0 <= i < |lines| ==> '\n' !in lines[i]
    ensures forall i :: 0 <= i < |lines| ==> '\n' !in Topped(lines)[i]
  {
    var w := Width(lines);
    forall i, k | 0 <= i < |lines| && 0 <= k < w
      ensures Topped(lines)[i][k] != '\n'
    {
      ToppedRow(lines, i);
    }
  }

  /** The rows above the bottom border after `beautify`. */
  lemma FramedLinesRow(lines: seq<string>, i: nat)
    requires |lines| >= 2 && i < |lines| - 2
    ensures var out := FramedLines(lines);
      var w := Width(lines);
      && |out[i]| == w
      && out[i][0] == (if i == 0 then '┌' else '│')
      && out[i][w - 1] == (if i == 0 then '┐' else '┤')
      && (forall k :: 1 <= k < |lines[i]| ==> out[i][k] == lines[i][k])
      && (forall k :: 1 <= k < w - 1 && k >= |lines[i]| ==> out[i][k] == '─')
  {
    ToppedRow(lines, i);
    assert FramedLines(lines)[i] == Topped(lines)[i];
  }

  /** The bottom border after `beautify`. */
  lemma FramedLinesBottom(lines: seq<string>)
    requires |lines| >= 2
    ensures var out := FramedLines(lines);
      var n := |lines|;
      var w := Width(lines);
      && |out[n - 2]| == w
      && out[n - 2][w - 1] == '┘'
      && '│' !in out[n - 2] && '├' !in out[n - 2]
      && out[n - 2][0] == (if n == 2 then '┌' else '└')
  {
    var n := |lines|;
    var topped := Topped(lines);
    ToppedRow(lines, n - 2);
    BottomBorderShape(topped[n - 2]);
    assert FramedLines(lines)[n - 2] == BottomBorder(topped[n - 2]);
  }

  /** The drawn line `d` inside the bottom line `out` of width `w`: a `│` shows
      as `└`, a `├` as `─`, a blank as a blank or `─`, any other character as
      itself, and the padding up to the last column stays `─`. */
  ghost predicate BottomText(d: string, out: string, w: nat)
  {
    && (forall k :: 1 <= k < |d| && k < |out| && d[k] != '│' && d[k] != ' ' && d[k] != '├' ==> out[k] == d[k])
    && (forall k :: 1 <= k < |d| && k < |out| && d[k] == '│' ==> out[k] == '└')
    && (forall k :: 1 <= k < |d| && k < |out| && d[k] == '├' ==> out[k] == '─')
    && (forall k :: 1 <= k < |d| && k < |out| && d[k] == ' ' ==> out[k] == ' ' || out[k] == '─')
    && (forall k :: 1 <= k < w - 1 && |d| <= k < |out| ==> out[k] == '─')
  }

  /** The drawn text survives in the bottom line, as `BottomText` says. */
  lemma FramedLinesBottomText(lines: seq<string>)
    requires |lines| >= 2
    ensures |lines[|lines| - 2]| < Width(lines) - 1
    ensures BottomText(lines[|lines| - 2], FramedLines(lines)[|lines| - 2], Width(lines))
  {
    var n := |lines|;
    var d := lines[n - 2];
    var t := Topped(lines)[n - 2];
    var out := FramedLines(lines)[n - 2];
    ToppedRow(lines, n - 2);
    assert out == BottomBorder(t);
    forall k | 1 <= k < |t| - 1
      ensures k < |d| && d[k] != '│' && d[k] != ' ' && d[k] != '├' ==> out[k] == d[k]
      ensures k < |d| && d[k] == '│' ==> out[k] == '└'
      ensures k < |d| && d[k] == '├' ==> out[k] == '─'
      ensures k < |d| && d[k] == ' ' ==> out[k] == ' ' || out[k] == '─'
      ensures k >= |d| ==> out[k] == '─'
    {
      BottomBorderAt(t, k);
    }
    assert |out| == |t| == Width(lines) && |d| < |t| - 1;
    assert BottomText(d, out, Width(lines));
  }

  /** The shape of a frame around the lines `before`: as many lines, all but
      the last as wide as the longest drawn line plus 7, the top and side
      borders, the text kept in its columns and padded with `─`, the bottom
      border, and an empty last piece. */
  ghost predicate FrameShaped(before: seq<string>, after: seq<string>)
    requires |before| >= 2
  {
    var n := |before|;
    var w := MaxLen(before) + 7;
    && |after| == n
    && (forall i :: 0 <= i < n - 1 ==> |after[i]| == w)
    && after[n - 1] == ""
    && (forall i :: 0 <= i < n - 2 ==>
          && after[i][0] == (if i == 0 then '┌' else '│')
          && after[i][w - 1] == (if i == 0 then '┐' else '┤')
          && (forall k :: 1 <= k < |before[i]| ==> after[i][k] == before[i][k])
          && (forall k :: 1 <= k < w - 1 && k >= |before[i]| ==> after[i][k] == '─'))
    && after[n - 2][w - 1] == '┘'
    && '│' !in after[n - 2] && '├' !in after[n - 2]
    && after[n - 2][0] == (if n == 2 then '┌' else '└')
    && BottomText(before[n - 2], after[n - 2], w)
  }

  lemma FramedLinesShape(lines: seq<string>)
    requires |lines| >= 2
    ensures FrameShaped(lines, FramedLines(lines))
  {
    forall i | 0 <= i < |lines| - 2 {
      FramedLinesRow(lines, i);
    }
    FramedLinesBottom(lines);
    FramedLinesBottomText(lines);
  }

  lemma FramedLinesNoFeed(lines: seq<string>)
    requires |lines| >= 2
    requires forall i :: 0 <= i < |lines| ==> '\n' !in lines[i]
    ensures forall i :: 0 <= i < |lines| ==> '\n' !in FramedLines(lines)[i]
  {
    ToppedNoFeed(lines);
    BottomBorderShape(Topped(lines)[|lines| - 2]);
  }

  /** The beautified text splits into exactly the framed lines. */
  lemma FramedSplits(text: string)
    requires Framed(text).Ok?
    ensures |Split(text, '\n')| >= 2
    ensures Split(Framed(text).value, '\n') == FramedLines(Split(text, '\n'))
  {
    var lines := Split(text, '\n');
    FramedLinesNoFeed(lines);
    SplitJoin(FramedLines(lines), '\n');
  }

  /** Every line of the frame, borders included, has the width of the longest
      drawn line plus 7; the frame is `┌`...`┐` on top (with two or more drawn
      lines), `│`...`┤` around each drawn line, whose text stays in place and is
      padded with `─`, and the bottom line ends in `┘` and holds no `│` or `├`. */
  lemma FramedShape(text: string)
    requires Framed(text).Ok?
    ensures |Split(text, '\n')| >= 2
    ensures FrameShaped(Split(text, '\n'), Split(Framed(text).value, '\n'))
  {
    FramedSplits(text);
    FramedLinesShape(Split(text, '\n'));
  }

  /** `beautify` fails exactly when the drawing holds no line feed, that is, when
      there is nothing to frame. */
  lemma FramedFails(text: string)
    ensures Framed(text).Err? <==> '\n' !in text
    ensures Framed(text).Err? ==> Framed(text).error == IndexError
  {
    CountZero(text, '\n');
  }

  /** The output ends with a line feed: the last piece is emptied before joining. */
  lemma FramedEndsWithLineFeed(text: string)
    requires Framed(text).Ok?
    ensures |Framed(text).value| > 0 && Framed(text).value[|Framed(text).value| - 1] == '\n'
  {
    var out := FramedLines(Split(text, '\n'));
    JoinEndsWithSeparator(out, '\n');
  }

  /** An empty root (the tree of `{}`) draws nothing, and framing it raises `IndexError`. */
  lemma EmptyRootFails(icons: Icons)
    ensures Draw(icons, Composite(RootName, []), 0, false) == ""
    ensures Framed(Draw(icons, Composite(RootName, []), 0, false)) == Err(IndexError)
  {
    assert Split("", '\n') == [""];
  }

  /** A walk prints a line feed exactly when it shows at least one visit. */
  lemma {:induction false} WalkFeeds(icons: Icons, es: seq<Entry>)
    ensures '\n' in Walk(icons, es) <==> Visible(es) != []
  {
    if es != [] {
      WalkFeeds(icons, es[1..]);
      if Shown(es[0].node) {
        var line := Line(icons, es[0]);
        assert (line + "\n")[|line|] == '\n';
      }
    }
  }

  /** The rectangle style fails exactly when no node is shown, that is when every
      node of the tree is a composite named "root" (the trees of `{}` and of
      `{"root": {}}`). */
  lemma VisualizeFailsIffNothingShown(icons: Icons, node: Node)
    ensures Framed(Draw(icons, node, 0, false)).Err? <==> Visible(Entries(node, 0, false)) == []
  {
    DrawIsWalk(icons, node, 0, false);
    WalkFeeds(icons, Entries(node, 0, false));
    FramedFails(Draw(icons, node, 0, false));
  }
}
