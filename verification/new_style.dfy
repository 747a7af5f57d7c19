/** The "new" style: every node on its own line, two spaces of indent per
    level, each line opened by a fixed banner, and no post-processing pass. */
module NewStyle {
  import opened JsonData
  import opened Nodes
  import opened Text
  import opened Layout

  const Banner := "This is new style!"

  /** Two spaces per level, the root included. */
  function Indent(level: nat): (r: string)
    ensures |r| == 2 * level
    ensures forall i :: 0 <= i < |r| ==> r[i] == ' '
  {
    Repeat(" ", level * 2)
  }

  /** The text after the indent: a leaf always shows `": "` and its value, even
      when that value is null (printed `None`). */
  function NewLabel(icons: Icons, n: Node): string
  {
    match n
    case Leaf(name, v) => icons.leaf + name + ": " + ValueText(v)
    case Composite(name, _) => icons.composite + name
  }

  /** `visualize(node, level)`: the banner, the node's own line, then every child
      visualized one level deeper. */
  function Visualize(icons: Icons, node: Node, level: nat): string
    decreases node, 1, 0
  {
    var result := Banner;
    var indent := Indent(level);
    match node
    case Leaf(name, value) =>
      result + indent + icons.leaf + name + ": " + ValueText(value) + "\n"
    case Composite(name, children) =>
      result + indent + icons.composite + name + "\n" + VisualizeChildren(icons, node, |children|, level + 1)
  }

  /** The loop over the children: the first `k` of them, in order. */
  function VisualizeChildren(icons: Icons, p: Node, k: nat, level: nat): string
    requires p.Composite? && k <= |p.children|
    decreases p, 0, k
  {
    if k == 0 then "" else VisualizeChildren(icons, p, k - 1, level) + Visualize(icons, p.children[k - 1], level)
  }

  /** The line a visit of the walk stands for; every visit is shown. */
  function Line(icons: Icons, e: Entry): string
  {
    Banner + Indent(e.level) + NewLabel(icons, e.node)
  }

  function Lines(icons: Icons, es: seq<Entry>): (ls: seq<string>)
    ensures |ls| == |es|
    ensures forall i :: 0 <= i < |es| ==> ls[i] == Line(icons, es[i])
  {
    if es == [] then [] else [Line(icons, es[0])] + Lines(icons, es[1..])
  }

  /** The text a run of visits prints: every visit's line and a line feed. */
  function Walk(icons: Icons, es: seq<Entry>): string
  {
    if es == [] then "" else Line(icons, es[0]) + "\n" + Walk(icons, es[1..])
  }

  /** The walk prints exactly the lines of its visits, each ended by a line feed. */
  lemma {:induction false} WalkLines(icons: Icons, es: seq<Entry>)
    ensures Walk(icons, es) == Unlines(Lines(icons, es))
  {
    if es != [] {
      UnlinesCons(Line(icons, es[0]), Lines(icons, es[1..]));
      WalkLines(icons, es[1..]);
    }
  }

  lemma {:induction false} WalkAppend(icons: Icons, a: seq<Entry>, b: seq<Entry>)
    ensures Walk(icons, a + b) == Walk(icons, a) + Walk(icons, b)
  {
    if a != [] {
      assert (a + b)[1..] == a[1..] + b;
      WalkAppend(icons, a[1..], b);
    } else {
      assert a + b == b;
    }
  }

  lemma WalkOne(icons: Icons, e: Entry)
    ensures Walk(icons, [e]) == Line(icons, e) + "\n"
  {
    assert [e][1..] == [];
  }

  /** The output is the whole walk, root included, one line per node in pre-order. */
  lemma {:induction false} VisualizeIsWalk(icons: Icons, node: Node, level: nat, last: bool)
    ensures Visualize(icons, node, level) == Walk(icons, Entries(node, level, last))
    decreases node, 2, 0
  {
    var e := Entry(node, level, last);
    assert Walk(icons, [e]) == Line(icons, e) + "\n" by {
      WalkOne(icons, e);
    }
    if node.Leaf? {
      assert Entries(node, level, last) == [e];
    } else {
      CompositeIsWalk(icons, node, level, last);
    }
  }

  lemma {:induction false} CompositeIsWalk(icons: Icons, node: Node, level: nat, last: bool)
    requires node.Composite?
    ensures Visualize(icons, node, level) == Walk(icons, Entries(node, level, last))
    decreases node, 1, 0
  {
    var e := Entry(node, level, last);
    var all := ChildEntries(node, |node.children|, level + 1);
    assert Walk(icons, Entries(node, level, last)) == Walk(icons, [e]) + Walk(icons, all) by {
      assert Entries(node, level, last) == [e] + all;
      WalkAppend(icons, [e], all);
    }
    assert Walk(icons, [e]) == Line(icons, e) + "\n" by {
      WalkOne(icons, e);
    }
    CompositeVisualize(icons, node, level, last);
    ChildrenAreWalk(icons, node, |node.children|, level + 1);
  }

  /** A composite prints its own line, then its children one level deeper. */
  lemma CompositeVisualize(icons: Icons, node: Node, level: nat, last: bool)
    requires node.Composite?
    ensures Visualize(icons, node, level)
         == Line(icons, Entry(node, level, last)) + "\n" + VisualizeChildren(icons, node, |node.children|, level + 1)
  {
  }

  lemma {:induction false} ChildrenAreWalk(icons: Icons, p: Node, k: nat, level: nat)
    requires p.Composite? && k <= |p.children|
    ensures VisualizeChildren(icons, p, k, level) == Walk(icons, ChildEntries(p, k, level))
    decreases p, 0, k
  {
    if k > 0 {
      var child := p.children[k - 1];
      assert VisualizeChildren(icons, p, k - 1, level) == Walk(icons, ChildEntries(p, k - 1, level)) by {
        ChildrenAreWalk(icons, p, k - 1, level);
      }
      assert Visualize(icons, child, level) == Walk(icons, Entries(child, level, k == |p.children|)) by {
        VisualizeIsWalk(icons, child, level, k == |p.children|);
      }
      ChildrenStep(icons, p, k, level);
    } else {
      assert ChildEntries(p, k, level) == [];
    }
  }

  /** One more child: its walk follows the walk of the children before it. */
  lemma ChildrenStep(icons: Icons, p: Node, k: nat, level: nat)
    requires p.Composite? && 0 < k <= |p.children|
    requires VisualizeChildren(icons, p, k - 1, level) == Walk(icons, ChildEntries(p, k - 1, level))
    requires Visualize(icons, p.children[k - 1], level) == Walk(icons, Entries(p.children[k - 1], level, k == |p.children|))
    ensures VisualizeChildren(icons, p, k, level) == Walk(icons, ChildEntries(p, k, level))
  {
    ChildEntriesStep(p, k, level);
    WalkAppend(icons, ChildEntries(p, k - 1, level), Entries(p.children[k - 1], level, k == |p.children|));
  }

  /** Apart from the null leaf, a node's text is the one the other styles print. */
  lemma NewLabelIsLabel(icons: Icons, n: Node)
    ensures n.Leaf? && n.value == JNull ==> NewLabel(icons, n) == Label(icons, n) + ": None"
    ensures !(n.Leaf? && n.value == JNull) ==> NewLabel(icons, n) == Label(icons, n)
  {
  }

  /** With no line feed inside any text, the output has exactly one line per
      node of the tree (the root included), every line starts with the banner,
      the first one shows the root itself, and the text ends with a line feed. */
  lemma VisualizedLines(icons: Icons, node: Node)
    requires SingleLine(icons, node)
    ensures var lines := Lines(icons, Entries(node, 0, false));
      && Split(Visualize(icons, node, 0), '\n') == lines + [""]
      && |lines| == Size(node)
      && lines[0] == Banner + NewLabel(icons, node)
      && (forall i :: 0 <= i < |lines| ==> lines[i][..|Banner|] == Banner)
  {
    var es := Entries(node, 0, false);
    var lines := Lines(icons, es);
    EntryLinesSingle(icons, node);
    assert Visualize(icons, node, 0) == Unlines(lines) by {
      VisualizeIsWalk(icons, node, 0, false);
      WalkLines(icons, es);
    }
    SplitUnlines(lines);
    assert lines[0] == Banner + NewLabel(icons, node) by {
      assert es[0] == Entry(node, 0, false);
    }
  }

  /** The output starts with the banner and ends with a line feed. */
  lemma VisualizeEnding(icons: Icons, node: Node, level: nat)
    ensures var text := Visualize(icons, node, level);
      && |text| > |Banner| && text[..|Banner|] == Banner && text[|text| - 1] == '\n'
  {
    VisualizeIsWalk(icons, node, level, false);
    WalkEnding(icons, Entries(node, level, false));
  }

  lemma {:induction false} WalkEnding(icons: Icons, es: seq<Entry>)
    requires es != []
    ensures var text := Walk(icons, es);
      && |text| > |Banner| && text[..|Banner|] == Banner && text[|text| - 1] == '\n'
  {
    var line := Line(icons, es[0]);
    var rest := Walk(icons, es[1..]);
    assert line[..|Banner|] == Banner;
    if es[1..] != [] {
      WalkEnding(icons, es[1..]);
    }
    assert Walk(icons, es) == line + ("\n" + rest);
  }

  lemma EntryLinesSingle(icons: Icons, node: Node)
    requires SingleLine(icons, node)
    ensures forall i :: 0 <= i < |Entries(node, 0, false)| ==> '\n' !in Lines(icons, Entries(node, 0, false))[i]
  {
    var es := Entries(node, 0, false);
    SingleLineEntries(icons, node, 0, false);
    forall i | 0 <= i < |es|
      ensures '\n' !in Lines(icons, es)[i]
    {
      assert es[i] in es;
      LineSingleLine(icons, es[i]);
    }
  }

  lemma LineSingleLine(icons: Icons, e: Entry)
    requires SingleLine(icons, e.node)
    ensures '\n' !in Line(icons, e)
  {
    var line := Line(icons, e);
    var b := Banner + Indent(e.level);
    forall j | 0 <= j < |line|
      ensures line[j] != '\n'
    {
      if j >= |b| {
        assert line[j] == NewLabel(icons, e.node)[j - |b|];
      }
    }
  }

  /** A null leaf still prints `": None"`. */
  lemma NullLeafShowsNone(icons: Icons, name: string, level: nat)
    ensures Visualize(icons, Leaf(name, JNull), level)
         == Banner + Indent(level) + icons.leaf + name + ": None\n"
  {
  }
}
