/** The node tree: composites for JSON objects, leaves for every other value. */
module Nodes {
  import opened JsonData

  /** The name the director gives the top of the tree; the tree and rectangle
      styles print no line for a composite of this name. */
  const RootName: string := "root"

  /** A finished node. A composite's children keep insertion order; a leaf holds
      its value verbatim, lists included. */
  datatype Node =
    | Composite(name: string, children: seq<Node>)
    | Leaf(name: string, value: Json)
  {
    predicate IsLeaf()
    {
      Leaf?
    }
  }

  /** Number of nodes in a tree, the node itself included. */
  function Size(n: Node): nat
  {
    match n
    case Leaf(_, _) => 1
    case Composite(_, cs) => 1 + SumSizes(cs)
  }

  function SumSizes(cs: seq<Node>): nat
  {
    if cs == [] then 0 else SumSizes(cs[..|cs| - 1]) + Size(cs[|cs| - 1])
  }

  /** No leaf holds an object: objects always become composites. */
  predicate WellFormed(n: Node)
  {
    match n
    case Leaf(_, v) => !v.JObject?
    case Composite(_, cs) => forall i :: 0 <= i < |cs| ==> WellFormed(cs[i])
  }

  /** A composite while it is being filled: the builder creates it empty and
      appends one child per key. */
  class CompositeNode {
    const name: string
    var children: seq<Node>

    constructor (name: string)
      ensures this.name == name && children == []
    {
      this.name := name;
      children := [];
    }

    /** Appends `node` after the existing children. */
    method Add(node: Node)
      modifies this
      ensures children == old(children) + [node]
    {
      children := children + [node];
    }

    /** The finished node this object stands for. */
    function Value(): (n: Node)
      reads this
      ensures n.Composite? && n.name == name && n.children == children
    {
      Composite(name, children)
    }

    function IsLeaf(): (b: bool)
      reads this
      ensures b == Value().IsLeaf()
    {
      false
    }
  }

  /** A leaf: a name and the value it was given. */
  class LeafNode {
    const name: string
    const value: Json

    constructor (name: string, value: Json)
      ensures this.name == name && this.value == value
    {
      this.name := name;
      this.value := value;
    }

    function Value(): (n: Node)
      ensures n.Leaf? && n.name == name && n.value == value
    {
      Leaf(name, value)
    }

    function IsLeaf(): (b: bool)
      ensures b == Value().IsLeaf()
    {
      true
    }
  }
}
