/** What the three styles share: the icon pair, the label of a node, and the
    depth-first walk that visits every node once, each child flagged as the last
    of its siblings or not. */
module Layout {
  import opened JsonData
  import opened Nodes
  import opened Text

  /** The icon family chosen by the user: one glyph string for leaves, one for composites. */
  datatype Icons = Icons(leaf: string, composite: string)

  /** A node's own line in the tree and rectangle styles, without indent and
      connector: icon and name, then ": " and the value unless the value is None. */
  function Label(icons: Icons, n: Node): string
  {
    match n
    case Leaf(name, v) => icons.leaf + name + (if v == JNull then "" else ": " + ValueText(v))
    case Composite(name, _) => icons.composite + name
  }

  /** A label starts with the node's icon and name; only a leaf whose value is
      not None goes on, with ": " and the value's text. */
  lemma LabelParts(icons: Icons, n: Node)
    ensures var head := (if n.Leaf? then icons.leaf else icons.composite) + n.name;
      var r := Label(icons, n);
      && |head| <= |r| && r[..|head|] == head
      && (n.Composite? || n.value == JNull ==> r == head)
      && (n.Leaf? && n.value != JNull ==> r[|head|..] == ": " + ValueText(n.value))
  {
    var head := (if n.Leaf? then icons.leaf else icons.composite) + n.name;
    if n.Leaf? && n.value != JNull {
      assert Label(icons, n) == head + (": " + ValueText(n.value));
    }
  }

  /** The tree and rectangle styles print a node's own line unless it is a
      composite named "root", wherever it sits. */
  predicate Shown(n: Node)
  {
    !(n.Composite? && n.name == RootName)
  }

  /** One visit of the walk: the node, its depth (children of the top are at
      depth 1) and whether it is the last child of its parent. */
  datatype Entry = Entry(node: Node, level: nat, last: bool)

  /** Depth-first pre-order from `n`: the node itself, then each child's walk in
      stored order. */
  function Entries(n: Node, level: nat, last: bool): (es: seq<Entry>)
    ensures |es| == Size(n)
    ensures es[0] == Entry(n, level, last)
    decreases n, 1, 0
  {
    [Entry(n, level, last)] + if n.Composite? then ChildEntries(n, |n.children|, level + 1) else []
  }

  /** The walks of the first `k` children of `p`; a child is flagged last exactly
      when it is the final one of all of `p`'s children. */
  function ChildEntries(p: Node, k: nat, level: nat): (es: seq<Entry>)
    requires p.Composite? && k <= |p.children|
    ensures |es| == SumSizes(p.children[..k])
    decreases p, 0, k
  {
    if k == 0 then []
    else
      assert p.children[..k][..k - 1] == p.children[..k - 1];
      ChildEntries(p, k - 1, level) + Entries(p.children[k - 1], level, k == |p.children|)
  }

  /** One step of the loop over the children: the walk of the first `k` children
      is that of the first `k - 1` followed by child `k - 1`'s own walk. */
  lemma ChildEntriesStep(p: Node, k: nat, level: nat)
    requires p.Composite? && 0 < k <= |p.children|
    ensures ChildEntries(p, k, level)
         == ChildEntries(p, k - 1, level) + Entries(p.children[k - 1], level, k == |p.children|)
  {
  }

  lemma {:induction false} ChildEntryAt(p: Node, k: nat, level: nat, i: nat)
    requires p.Composite? && i < k <= |p.children|
    ensures SumSizes(p.children[..i]) < |ChildEntries(p, k, level)|
    ensures ChildEntries(p, k, level)[SumSizes(p.children[..i])] == Entry(p.children[i], level, i == |p.children| - 1)
  {
    if i < k - 1 {
      ChildEntryAt(p, k - 1, level, i);
    }
  }

  /** Child `i` of a composite is visited right after the whole walks of its
      earlier siblings, one level deeper, and is flagged last exactly when it is
      the final child. */
  lemma ChildEntry(p: Node, level: nat, last: bool, i: nat)
    requires p.Composite? && i < |p.children|
    ensures 1 + SumSizes(p.children[..i]) < |Entries(p, level, last)|
    ensures Entries(p, level, last)[1 + SumSizes(p.children[..i])] == Entry(p.children[i], level + 1, i == |p.children| - 1)
  {
    ChildEntryAt(p, |p.children|, level + 1, i);
  }

  /** The entries whose nodes are shown, in order. */
  function Visible(es: seq<Entry>): (vs: seq<Entry>)
    ensures |vs| <= |es|
  {
    if es == [] then []
    else (if Shown(es[0].node) then [es[0]] else []) + Visible(es[1..])
  }

  /** The visits kept are shown, and each is one of the visits given. */
  lemma {:induction false} VisibleFrom(es: seq<Entry>)
    ensures forall i :: 0 <= i < |Visible(es)| ==> Shown(Visible(es)[i].node) && Visible(es)[i] in es
  {
    if es != [] {
      var vs := Visible(es);
      var rest := Visible(es[1..]);
      VisibleFrom(es[1..]);
      forall i | 0 <= i < |vs|
        ensures Shown(vs[i].node) && vs[i] in es
      {
        var j := if Shown(es[0].node) then i - 1 else i;
        if j >= 0 {
          assert vs[i] == rest[j];
          assert rest[j] in es[1..];
        }
      }
    }
  }

  lemma {:induction false} VisibleAppend(a: seq<Entry>, b: seq<Entry>)
    ensures Visible(a + b) == Visible(a) + Visible(b)
  {
    if a != [] {
      assert (a + b)[1..] == a[1..] + b;
      VisibleAppend(a[1..], b);
    } else {
      assert a + b == b;
    }
  }

  /** No icon, name or value text of the tree contains a line feed, so every
      emitted line stays one line of the output. */
  predicate SingleLine(icons: Icons, n: Node)
  {
    && '\n' !in icons.leaf && '\n' !in icons.composite && '\n' !in n.name
    && match n
       case Leaf(_, v) => '\n' !in ValueText(v)
       case Composite(_, cs) => forall i :: 0 <= i < |cs| ==> SingleLine(icons, cs[i])
  }

  lemma {:induction false} SingleLineEntries(icons: Icons, n: Node, level: nat, last: bool)
    requires SingleLine(icons, n)
    ensures forall e :: e in Entries(n, level, last) ==> SingleLine(icons, e.node)
    decreases n, 1, 0
  {
    if n.Composite? {
      SingleLineChildEntries(icons, n, |n.children|, level + 1);
    }
  }

  lemma {:induction false} SingleLineChildEntries(icons: Icons, p: Node, k: nat, level: nat)
    requires p.Composite? && k <= |p.children| && SingleLine(icons, p)
    ensures forall e :: e in ChildEntries(p, k, level) ==> SingleLine(icons, e.node)
    decreases p, 0, k
  {
    if k > 0 {
      SingleLineChildEntries(icons, p, k - 1, level);
      SingleLineEntries(icons, p.children[k - 1], level, k == |p.children|);
    }
  }

  lemma LabelSingleLine(icons: Icons, n: Node)
    requires SingleLine(icons, n)
    ensures '\n' !in Label(icons, n)
  {
  }

  /** A shown visit at position `m` of a walk is visit number
      `|Visible(es[..m])|` among the shown ones. */
  lemma VisibleAt(es: seq<Entry>, m: nat)
    requires m < |es| && Shown(es[m].node)
    ensures |Visible(es[..m])| < |Visible(es)|
    ensures Visible(es)[|Visible(es[..m])|] == es[m]
  {
    assert es == es[..m] + es[m..];
    VisibleAppend(es[..m], es[m..]);
    assert es[m..][1..] == es[m + 1..];
  }
}
