/** The "tree" style: branch connectors and a two-space indent per level,
    followed by a pass that patches column 0 of the drawn lines. */
module TreeStyle {
  import opened JsonData
  import opened Nodes
  import opened Text
  import opened Layout
  import opened Errors

  /** The indent before the connector: two spaces per level below the first. */
  function Indent(level: nat): (r: string)
    ensures |r| == if level == 0 then 0 else 2 * (level - 1)
    ensures forall i :: 0 <= i < |r| ==> r[i] == ' '
  {
    if level > 0 then Repeat("  ", level - 1) else ""
  }

  function Connector(isLastChild: bool): string
  {
    if isLastChild then "└─" else "├─"
  }

  /** `draw(node, level, is_last_child)`: one line-feed-terminated line for the
      node unless it is a composite named "root", then its children, the last one
      drawn as last. */
  function Draw(icons: Icons, node: Node, level: nat, isLastChild: bool): string
    decreases node, 1, 0
  {
    var prefix := Connector(isLastChild);
    var indent := Indent(level);
    match node
    case Leaf(name, value) =>
      if value == JNull then indent + prefix + icons.leaf + name + "\n"
      else indent + prefix + icons.leaf + name + ": " + ValueText(value) + "\n"
    case Composite(name, children) =>
      (if name != RootName then indent + prefix + icons.composite + name + "\n" else "")
      + if |children| > 0 then
          DrawEarlier(icons, node, |children| - 1, level + 1) + Draw(icons, children[|children| - 1], level + 1, true)
        else ""
  }

  /** The loop over `children[:-1]`: the first `k` children, each drawn as not last. */
  function DrawEarlier(icons: Icons, p: Node, k: nat, level: nat): string
    requires p.Composite? && k < |p.children|
    decreases p, 0, k
  {
    if k == 0 then "" else DrawEarlier(icons, p, k - 1, level) + Draw(icons, p.children[k - 1], level, false)
  }

  /** The line a visit of the walk stands for. */
  function Line(icons: Icons, e: Entry): string
  {
    Indent(e.level) + Connector(e.last) + Label(icons, e.node)
  }

  function Lines(icons: Icons, es: seq<Entry>): (ls: seq<string>)
    ensures |ls| == |es|
    ensures forall i :: 0 <= i < |es| ==> ls[i] == Line(icons, es[i])
  {
    if es == [] then [] else [Line(icons, es[0])] + Lines(icons, es[1..])
  }

  /** The text a run of visits prints: each shown visit's line and a line feed. */
  function Walk(icons: Icons, es: seq<Entry>): string
  {
    if es == [] then ""
    else (if Shown(es[0].node) then Line(icons, es[0]) + "\n" else "") + Walk(icons, es[1..])
  }

  /** The walk prints exactly the lines of its shown visits, each ended by a line feed. */
  lemma {:induction false} WalkLines(icons: Icons, es: seq<Entry>)
    ensures Walk(icons, es) == Unlines(Lines(icons, Visible(es)))
  {
    if es != [] {
      var vs := Visible(es);
      WalkLines(icons, es[1..]);
      if Shown(es[0].node) {
        assert vs == [es[0]] + Visible(es[1..]);
        assert vs[1..] == Visible(es[1..]);
        UnlinesCons(Line(icons, es[0]), Lines(icons, vs[1..]));
      } else {
        assert vs == Visible(es[1..]);
      }
    }
  }

  lemma {:induction false} WalkAppend(icons: Icons, a: seq<Entry>, b: seq<Entry>)
    ensures Walk(icons, a + b) == Walk(icons, a) + Walk(icons, b)
  {
    if a != [] {
      assert (a + b)[1..] == a[1..] + b;
      WalkAppend(icons, a[1..], b);
    } else {
      assert a + b == b;
    }
  }

  /** A single visit prints its line, unless it is the root composite. */
  lemma WalkOne(icons: Icons, e: Entry)
    ensures Walk(icons, [e]) == if Shown(e.node) then Line(icons, e) + "\n" else ""
  {
    assert [e][1..] == [];
  }

  /** The drawing is the walk's shown visits, one line each, in walk order. */
  lemma {:induction false} DrawIsWalk(icons: Icons, node: Node, level: nat, last: bool)
    ensures Draw(icons, node, level, last) == Walk(icons, Entries(node, level, last))
    decreases node, 2, 0
  {
    if node.Leaf? {
      var e := Entry(node, level, last);
      assert Walk(icons, [e]) == Line(icons, e) + "\n" by {
        WalkOne(icons, e);
      }
      assert Entries(node, level, last) == [e];
    } else {
      DrawCompositeIsWalk(icons, node, level, last);
    }
  }

  lemma {:induction false} DrawCompositeIsWalk(icons: Icons, node: Node, level: nat, last: bool)
    requires node.Composite?
    ensures Draw(icons, node, level, last) == Walk(icons, Entries(node, level, last))
    decreases node, 1, 0
  {
    var cs := node.children;
    CompositeDraw(icons, node, level, last);
    CompositeWalk(icons, node, level, last);
    if |cs| > 0 {
      DrawEarlierIsWalk(icons, node, |cs| - 1, level + 1);
      DrawIsWalk(icons, cs[|cs| - 1], level + 1, true);
    }
  }

  /** A composite's own line, as `draw` writes it and as the walk prints it. */
  function OwnLine(icons: Icons, node: Node, level: nat, last: bool): string
  {
    if node.name != RootName then Indent(level) + Connector(last) + icons.composite + node.name + "\n" else ""
  }

  /** The non-recursive part of the proof above: `draw` of a composite is its own
      line, then the earlier children, then the last child... */
  lemma CompositeDraw(icons: Icons, node: Node, level: nat, last: bool)
    requires node.Composite?
    ensures var cs := node.children;
      Draw(icons, node, level, last)
      == OwnLine(icons, node, level, last)
         + if |cs| > 0 then DrawEarlier(icons, node, |cs| - 1, level + 1) + Draw(icons, cs[|cs| - 1], level + 1, true) else ""
  {
  }

  /** ...and so is its walk. */
  lemma CompositeWalk(icons: Icons, node: Node, level: nat, last: bool)
    requires node.Composite?
    ensures var cs := node.children;
      Walk(icons, Entries(node, level, last))
      == OwnLine(icons, node, level, last)
         + if |cs| > 0 then Walk(icons, ChildEntries(node, |cs| - 1, level + 1)) + Walk(icons, Entries(cs[|cs| - 1], level + 1, true)) else ""
  {
    var cs := node.children;
    var e := Entry(node, level, last);
    var all := ChildEntries(node, |cs|, level + 1);
    calc {
      Walk(icons, Entries(node, level, last));
    == { assert Entries(node, level, last) == [e] + all; WalkAppend(icons, [e], all); }
      Walk(icons, [e]) + Walk(icons, all);
    == { WalkOne(icons, e); }
      OwnLine(icons, node, level, last) + Walk(icons, all);
    }
    if |cs| > 0 {
      var earlier := ChildEntries(node, |cs| - 1, level + 1);
      var final := Entries(cs[|cs| - 1], level + 1, true);
      ChildEntriesStep(node, |cs|, level + 1);
      WalkAppend(icons, earlier, final);
    } else {
      assert all == [];
    }
  }

  lemma {:induction false} DrawEarlierIsWalk(icons: Icons, p: Node, k: nat, level: nat)
    requires p.Composite? && k < |p.children|
    ensures DrawEarlier(icons, p, k, level) == Walk(icons, ChildEntries(p, k, level))
    decreases p, 0, k
  {
    if k > 0 {
      DrawEarlierIsWalk(icons, p, k - 1, level);
      DrawIsWalk(icons, p.children[k - 1], level, false);
      DrawEarlierStep(icons, p, k, level);
    } else {
      assert ChildEntries(p, k, level) == [];
    }
  }

  /** One more child: its walk follows the walk of the children before it. */
  lemma DrawEarlierStep(icons: Icons, p: Node, k: nat, level: nat)
    requires p.Composite? && 0 < k < |p.children|
    requires DrawEarlier(icons, p, k - 1, level) == Walk(icons, ChildEntries(p, k - 1, level))
    requires Draw(icons, p.children[k - 1], level, false) == Walk(icons, Entries(p.children[k - 1], level, false))
    ensures DrawEarlier(icons, p, k, level) == Walk(icons, ChildEntries(p, k, level))
  {
    ChildEntriesStep(p, k, level);
    WalkAppend(icons, ChildEntries(p, k - 1, level), Entries(p.children[k - 1], level, false));
  }

  // ---------------------------------------------------------------------------
  // beautify

  /** The first pass's change to a line before the last: a line that starts with
      whitespace gets `│` in column 0. */
  function BarPatched(line: string): (r: string)
    ensures |r| == |line|
    ensures |line| > 0 ==> r[1..] == line[1..] && r[0] == if IsSpace(line[0]) then '│' else line[0]
  {
    if |line| - |LStrip(line)| > 0 then "│" + line[1..] else line
  }

  predicate StartsWithCorner(line: string)
  {
    |line| > 0 && line[0] == '└'
  }

  /** The index of the last of the first `k` lines that starts with `└`, or 0 when none does. */
  function LastCorner(lines: seq<string>, k: nat): (r: nat)
    requires k <= |lines|
    ensures k > 0 ==> r < k
    ensures r > 0 ==> r < k && StartsWithCorner(lines[r])
    ensures forall i :: r < i < k ==> !StartsWithCorner(lines[i])
  {
    if k == 0 then 0
    else if StartsWithCorner(lines[k - 1]) then k - 1
    else LastCorner(lines, k - 1)
  }

  /** The lines after the first pass. */
  function BarPass(lines: seq<string>): (patched: seq<string>)
    ensures |patched| == |lines|
  {
    seq(|lines|, i requires 0 <= i < |lines| => if i < |lines| - 1 then BarPatched(lines[i]) else lines[i])
  }

  /** Whether some line before the last is empty: its column 0 cannot be read. */
  predicate HasEmptyLine(lines: seq<string>)
  {
    exists i :: 0 <= i < |lines| - 1 && lines[i] == ""
  }

  /** The second pass: the lines after index `last`, up to but excluding the
      final piece, get a blank in column 0. */
  function Blanked(lines: seq<string>, last: nat): (out: seq<string>)
    requires forall i :: last < i < |lines| - 1 ==> lines[i] != ""
    ensures |out| == |lines|
  {
    seq(|lines|, i requires 0 <= i < |lines| => if last < i < |lines| - 1 then " " + lines[i][1..] else lines[i])
  }

  /** The lines after both passes: the blanking starts after the last `└`-led line. */
  function Finished(lines: seq<string>): (out: seq<string>)
    requires !HasEmptyLine(lines)
    ensures |out| == |lines|
  {
    var patched := BarPass(lines);
    Blanked(patched, LastCorner(patched, if |lines| > 0 then |lines| - 1 else 0))
  }

  /** What `beautify(result)` returns: the finished lines joined again, or the
      `IndexError` of reading column 0 of an empty line. */
  function Beautified(text: string): Result<string>
  {
    var lines := Split(text, '\n');
    if HasEmptyLine(lines) then Err(IndexError) else Ok(Join(Finished(lines), '\n'))
  }

  /** Column 0 of one line turned into `│` when the line starts with blanks. */
  method PatchLine(lines: array<string>, i: nat)
    requires i < lines.Length
    modifies lines
    ensures lines[..] == old(lines[..])[i := BarPatched(old(lines[i]))]
  {
    var line := lines[i];
    if |line| - |LStrip(line)| > 0 {
      lines[i] := "│" + line[1..];
    }
  }

  /** The first loop of `beautify`: patches column 0 of every line but the last
      and records the last `└`-led one; fails on an empty line, as the source's
      `lines[i][0]` does. */
  method MarkBars(lines: array<string>) returns (lastRoot: nat, failed: bool)
    requires lines.Length >= 1
    modifies lines
    ensures failed <==> HasEmptyLine(old(lines[..]))
    ensures !failed ==> lines[..] == BarPass(old(lines[..]))
    ensures !failed ==> lastRoot == LastCorner(lines[..], lines.Length - 1)
  {
    ghost var parts := lines[..];
    ghost var patched := BarPass(parts);
    var n := lines.Length;
    lastRoot := 0;
    for i := 0 to n - 1
      invariant forall k :: 0 <= k < i ==> lines[k] == patched[k] && parts[k] != ""
      invariant forall k :: i <= k < n ==> lines[k] == parts[k]
      invariant lastRoot == LastCorner(patched, i)
    {
      PatchLine(lines, i);
      assert lines[i] == patched[i];
      if |lines[i]| == 0 {
        assert parts[i] == "";
        return lastRoot, true;
      }
      if lines[i][0] == '└' {
        lastRoot := i;
      }
    }
    assert lines[..] == patched;
    failed := false;
  }

  /** The second loop of `beautify`: a blank in column 0 of every line after
      `lastRoot`, up to but excluding the last. */
  method BlankAfter(lines: array<string>, lastRoot: nat)
    requires forall k :: lastRoot < k < lines.Length - 1 ==> lines[k] != ""
    modifies lines
    ensures lines[..] == Blanked(old(lines[..]), lastRoot)
  {
    var n := lines.Length;
    var i := lastRoot + 1;
    while i < n - 1
      invariant lastRoot + 1 <= i
      invariant forall k :: lastRoot < k < i && k < n - 1 ==> lines[k] == " " + old(lines[k])[1..]
      invariant forall k :: 0 <= k < n && !(lastRoot < k < i && k < n - 1) ==> lines[k] == old(lines[k])
    {
      lines[i] := " " + lines[i][1..];
      i := i + 1;
    }
  }

  /** `beautify(result)`: the source's two passes over the split lines, in place. */
  method Beautify(text: string) returns (r: Result<string>)
    ensures r == Beautified(text)
  {
    var parts := Split(text, '\n');
    var lines := new string[|parts|](i requires 0 <= i < |parts| => parts[i]);
    assert lines[..] == parts;
    var lastRoot, failed := MarkBars(lines);
    if failed {
      return Err(IndexError);
    }
    BlankAfter(lines, lastRoot);
    assert lines[..] == Finished(parts);
    r := Ok(Join(lines[..], '\n'));
  }

  /** Tree-style `visualize(node)`: draw from level 0 as a non-last node, then
      beautify; it cannot fail unless some text in the tree holds a line feed. */
  method Visualize(icons: Icons, node: Node) returns (r: Result<string>)
    ensures r == Beautified(Draw(icons, node, 0, false))
    ensures SingleLine(icons, node) ==> r.Ok?
  {
    var drawn := Draw(icons, node, 0, false);
    r := Beautify(drawn);
    if SingleLine(icons, node) {
      DrawnLines(icons, node, 0, false);
    }
  }

  // ---------------------------------------------------------------------------
  // Properties

  /** When no text holds a line feed, the drawing splits into one line per shown
      visit of the walk, none of them empty, plus the empty piece after the final
      line feed. */
  lemma DrawnLines(icons: Icons, node: Node, level: nat, last: bool)
    requires SingleLine(icons, node)
    ensures var lines := Lines(icons, Visible(Entries(node, level, last)));
      && Split(Draw(icons, node, level, last), '\n') == lines + [""]
      && (forall i :: 0 <= i < |lines| ==> |lines[i]| >= 2)
      && !HasEmptyLine(lines + [""])
  {
    var lines := Lines(icons, Visible(Entries(node, level, last)));
    ShownLinesSingle(icons, node, level, last);
    DrawUnlines(icons, node, level, last);
    SplitUnlines(lines);
    assert !HasEmptyLine(lines + [""]) by {
      forall i | 0 <= i < |lines|
        ensures (lines + [""])[i] != ""
      {
        assert (lines + [""])[i] == lines[i];
      }
    }
  }

  /** The drawing is the shown lines, each ended by a line feed. */
  lemma DrawUnlines(icons: Icons, node: Node, level: nat, last: bool)
    ensures Draw(icons, node, level, last) == Unlines(Lines(icons, Visible(Entries(node, level, last))))
  {
    DrawIsWalk(icons, node, level, last);
    WalkLines(icons, Entries(node, level, last));
  }

  /** `draw` prints nothing exactly when no node of the subtree is shown, and
      otherwise text that ends with a line feed. */
  lemma DrawEnding(icons: Icons, node: Node, level: nat, last: bool)
    ensures var text := Draw(icons, node, level, last);
      && (text == "" <==> Visible(Entries(node, level, last)) == [])
      && (text != "" ==> text[|text| - 1] == '\n')
  {
    DrawUnlines(icons, node, level, last);
    UnlinesEnding(Lines(icons, Visible(Entries(node, level, last))));
  }

  lemma ShownLinesSingle(icons: Icons, node: Node, level: nat, last: bool)
    requires SingleLine(icons, node)
    ensures var lines := Lines(icons, Visible(Entries(node, level, last)));
      forall i :: 0 <= i < |lines| ==> '\n' !in lines[i] && |lines[i]| >= 2
  {
    var es := Entries(node, level, last);
    var vs := Visible(es);
    var lines := Lines(icons, vs);
    SingleLineEntries(icons, node, level, last);
    VisibleFrom(es);
    forall i | 0 <= i < |lines|
      ensures '\n' !in lines[i] && |lines[i]| >= 2
    {
      assert vs[i] in es;
      LineSingleLine(icons, vs[i]);
    }
  }

  /** A line holds no line feed when its node's texts hold none, and it is at
      least as long as its connector. */
  lemma LineSingleLine(icons: Icons, e: Entry)
    requires SingleLine(icons, e.node)
    ensures '\n' !in Line(icons, e) && |Line(icons, e)| >= 2
  {
    var indent := Indent(e.level);
    var pre := indent + Connector(e.last);
    var line := Line(icons, e);
    LabelSingleLine(icons, e.node);
    forall j | 0 <= j < |line|
      ensures line[j] != '\n'
    {
      if j < |indent| {
        assert line[j] == indent[j];
      } else if j < |pre| {
        assert line[j] == Connector(e.last)[j - |indent|];
      } else {
        assert line[j] == Label(icons, e.node)[j - |pre|];
      }
    }
  }

  /** Among a composite's children only the last is drawn with `└─`: the line
      for child `i` (when shown) is its indent, `└─` exactly when `i` is the last
      index and `├─` otherwise, and its label. */
  lemma ChildConnector(icons: Icons, p: Node, level: nat, last: bool, i: nat)
    requires p.Composite? && i < |p.children| && Shown(p.children[i])
    requires SingleLine(icons, p)
    ensures 1 + SumSizes(p.children[..i]) < |Entries(p, level, last)|
    ensures var j := |Visible(Entries(p, level, last)[..1 + SumSizes(p.children[..i])])|;
      && j < |Split(Draw(icons, p, level, last), '\n')|
      && Split(Draw(icons, p, level, last), '\n')[j]
         == Indent(level + 1) + (if i == |p.children| - 1 then "└─" else "├─") + Label(icons, p.children[i])
  {
    ChildLine(icons, p, level, last, i);
    DrawnLines(icons, p, level, last);
  }

  /** The line of child `i` among the walk's shown lines. */
  lemma ChildLine(icons: Icons, p: Node, level: nat, last: bool, i: nat)
    requires p.Composite? && i < |p.children| && Shown(p.children[i])
    ensures 1 + SumSizes(p.children[..i]) < |Entries(p, level, last)|
    ensures var j := |Visible(Entries(p, level, last)[..1 + SumSizes(p.children[..i])])|;
      && j < |Lines(icons, Visible(Entries(p, level, last)))|
      && Lines(icons, Visible(Entries(p, level, last)))[j]
         == Indent(level + 1) + (if i == |p.children| - 1 then "└─" else "├─") + Label(icons, p.children[i])
  {
    var es := Entries(p, level, last);
    var k := 1 + SumSizes(p.children[..i]);
    ChildEntry(p, level, last, i);
    VisibleAt(es, k);
  }

  /** A line before the last keeps its length and everything after column 0. */
  lemma FinishedShape(lines: seq<string>, i: nat)
    requires !HasEmptyLine(lines) && i < |lines|
    ensures |Finished(lines)[i]| == |lines[i]|
    ensures i < |lines| - 1 ==> Finished(lines)[i][1..] == lines[i][1..]
    ensures i == |lines| - 1 ==> Finished(lines)[i] == lines[i]
  {
  }

  lemma {:induction false} LastCornerPatched(lines: seq<string>, k: nat)
    requires k < |lines|
    ensures LastCorner(BarPass(lines), k) == LastCorner(lines, k)
  {
    var patched := BarPass(lines);
    forall i | 0 <= i < k
      ensures StartsWithCorner(patched[i]) == StartsWithCorner(lines[i])
    {
      BarPatchedCorner(lines[i]);
    }
    LastCornerSame(patched, lines, k);
  }

  /** `LastCorner` looks at nothing but which lines start with `└`. */
  lemma {:induction false} LastCornerSame(a: seq<string>, b: seq<string>, k: nat)
    requires k <= |a| && k <= |b|
    requires forall i :: 0 <= i < k ==> StartsWithCorner(a[i]) == StartsWithCorner(b[i])
    ensures LastCorner(a, k) == LastCorner(b, k)
  {
    if k > 0 {
      LastCornerSame(a, b, k - 1);
    }
  }

  /** Patching column 0 neither creates nor removes a leading `└`. */
  lemma BarPatchedCorner(line: string)
    ensures StartsWithCorner(BarPatched(line)) == StartsWithCorner(line)
  {
    if |line| > 0 {
      assert !IsSpace('└');
    }
  }

  /** The beautified text splits into exactly the finished lines. */
  lemma BeautifiedSplits(text: string)
    requires Beautified(text).Ok?
    ensures !HasEmptyLine(Split(text, '\n'))
    ensures Split(Beautified(text).value, '\n') == Finished(Split(text, '\n'))
  {
    var before := Split(text, '\n');
    FinishedNoFeed(before);
    SplitJoin(Finished(before), '\n');
  }

  lemma FinishedNoFeed(lines: seq<string>)
    requires !HasEmptyLine(lines)
    requires forall i :: 0 <= i < |lines| ==> '\n' !in lines[i]
    ensures forall i :: 0 <= i < |lines| ==> '\n' !in Finished(lines)[i]
  {
    var out := Finished(lines);
    forall i | 0 <= i < |out|
      ensures '\n' !in out[i]
    {
      FinishedShape(lines, i);
      if i < |lines| - 1 {
        assert out[i] == [out[i][0]] + out[i][1..];
      }
    }
  }

  /** Beautify changes nothing but column 0 of the lines before the last piece:
      the line count, every line's length and every later column stay as drawn. */
  lemma BeautifyKeepsLines(text: string)
    requires Beautified(text).Ok?
    ensures var before := Split(text, '\n');
      var after := Split(Beautified(text).value, '\n');
      && |after| == |before|
      && (forall i :: 0 <= i < |before| ==> |after[i]| == |before[i]|)
      && (forall i :: 0 <= i < |before| - 1 ==> after[i][1..] == before[i][1..])
      && after[|before| - 1] == before[|before| - 1]
  {
    var before := Split(text, '\n');
    BeautifiedSplits(text);
    forall i | 0 <= i < |before| {
      FinishedShape(before, i);
    }
  }

  /** Column 0 of a line before the last piece becomes a blank after the last
      `└`-led line, and up to it becomes `│` exactly when the line starts with
      whitespace (otherwise it is kept). */
  lemma BeautifyColumnZero(text: string, i: nat)
    requires Beautified(text).Ok?
    requires i < |Split(text, '\n')| - 1
    ensures var before := Split(text, '\n');
      var after := Split(Beautified(text).value, '\n');
      && |before[i]| > 0 && i < |after| && |after[i]| > 0
      && after[i][0] == if LastCorner(before, |before| - 1) < i then ' '
                        else if IsSpace(before[i][0]) then '│'
                        else before[i][0]
  {
    var before := Split(text, '\n');
    BeautifiedSplits(text);
    LastCornerPatched(before, |before| - 1);
    var patched := BarPass(before);
    assert patched[i] == BarPatched(before[i]);
  }

  /** With no line feed inside any text, the tree style succeeds, and its output
      is empty exactly when no node is shown; otherwise it ends with a line feed. */
  lemma VisualizedEnding(icons: Icons, node: Node)
    requires SingleLine(icons, node)
    ensures Beautified(Draw(icons, node, 0, false)).Ok?
    ensures var out := Beautified(Draw(icons, node, 0, false)).value;
      && (out == "" <==> Visible(Entries(node, 0, false)) == [])
      && (out != "" ==> out[|out| - 1] == '\n')
  {
    var lines := Lines(icons, Visible(Entries(node, 0, false)));
    DrawnLines(icons, node, 0, false);
    BeautifiedEnding(Draw(icons, node, 0, false), lines);
  }

  /** A text of line-feed-terminated lines, none of them empty, beautifies to the
      empty text when there are no lines, and otherwise to text that ends with a
      line feed. */
  lemma BeautifiedEnding(text: string, lines: seq<string>)
    requires Split(text, '\n') == lines + [""] && !HasEmptyLine(lines + [""])
    ensures Beautified(text).Ok?
    ensures var out := Beautified(text).value;
      && (out == "" <==> lines == [])
      && (out != "" ==> out[|out| - 1] == '\n')
  {
    var all := lines + [""];
    var fin := Finished(all);
    FinishedShape(all, |all| - 1);
    if lines != [] {
      JoinEndsWithSeparator(fin, '\n');
    } else {
      assert fin == [""];
    }
  }

  /** An empty drawing (a root with no children) beautifies to the empty text. */
  lemma BeautifyEmpty()
    ensures Beautified("") == Ok("")
  {
    assert Split("", '\n') == [""];
    assert Finished([""]) == [""];
  }
}
