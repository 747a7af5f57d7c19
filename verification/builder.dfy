/** Turning a parsed JSON value into a node tree. */
module Builder {
  import opened JsonData
  import opened Nodes

  /** The tree built from `data` under `name`: an object becomes a composite with
      one child per member, in member order, each named by its key; any other
      value becomes a leaf holding it. */
  function Tree(data: Json, name: string): (n: Node)
    ensures n.name == name
    ensures n.IsLeaf() <==> !data.JObject?
    ensures n.IsLeaf() ==> n.value == data
    ensures data.JObject? ==> |n.children| == |data.members|
    ensures data.JObject? ==> forall i :: 0 <= i < |data.members| ==> n.children[i].name == data.members[i].0
    ensures WellFormed(n)
    decreases data
  {
    match data
    case JObject(members) =>
      Composite(name, seq(|members|, i requires 0 <= i < |members| => Tree(members[i].1, members[i].0)))
    case _ => Leaf(name, data)
  }

  /** The value a tree was built from: composites read back as objects whose
      keys are the children's names. */
  function Unbuild(n: Node): Json
  {
    match n
    case Leaf(_, v) => v
    case Composite(_, cs) => JObject(seq(|cs|, i requires 0 <= i < |cs| => (cs[i].name, Unbuild(cs[i]))))
  }

  /** Building loses nothing: the data can be read back from the tree. */
  lemma {:induction false} UnbuildTree(data: Json, name: string)
    ensures Unbuild(Tree(data, name)) == data
  {
    match data
    case JObject(members) =>
      var n := Tree(data, name);
      forall i | 0 <= i < |members|
        ensures (n.children[i].name, Unbuild(n.children[i])) == members[i]
      {
        UnbuildTree(members[i].1, members[i].0);
      }
    case _ =>
  }

  /** Every well-formed tree is what building its own data produces. */
  lemma {:induction false} TreeUnbuild(n: Node)
    requires WellFormed(n)
    ensures Tree(Unbuild(n), n.name) == n
  {
    match n
    case Composite(name, cs) =>
      var t := Tree(Unbuild(n), name);
      forall i | 0 <= i < |cs|
        ensures t.children[i] == cs[i]
      {
        TreeUnbuild(cs[i]);
      }
    case Leaf(_, _) =>
  }

  /** The concrete builder; it keeps no state. */
  class CompositeNodeBuilder {
    constructor ()
    {
    }

    /** Builds the tree for `data` the way the source does: a composite object is
        created empty and each member's subtree is appended to it in order. */
    method Build(data: Json, name: string := RootName) returns (node: Node)
      ensures node == Tree(data, name)
      decreases data
    {
      if data.JObject? {
        var members := data.members;
        var composite := new CompositeNode(name);
        for i := 0 to |members|
          invariant composite.name == name
          invariant composite.children == seq(i, j requires 0 <= j < i => Tree(members[j].1, members[j].0))
        {
          var child := Build(members[i].1, members[i].0);
          composite.Add(child);
        }
        node := composite.Value();
      } else {
        var leaf := new LeafNode(name, data);
        node := leaf.Value();
      }
    }
  }

  /** The director: holds a builder and delegates to it. */
  class TreeDirector {
    const builder: CompositeNodeBuilder

    constructor (builder: CompositeNodeBuilder)
      ensures this.builder == builder
    {
      this.builder := builder;
    }

    /** The tree for `data`, rooted at a node named "root" unless told otherwise. */
    method BuildTree(data: Json, name: string := RootName) returns (node: Node)
      ensures node == Tree(data, name)
      ensures node.name == name
    {
      node := builder.Build(data, name);
    }
  }
}
