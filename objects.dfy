/** The two kinds of shared objects of graph.ts: vertices and the links
    between them. The label field of a vertex is called `name` here because
    `label` is a reserved word of Dafny. */
module GraphObjects {
  /** A vertex (the `Node` interface, lines 4-7). */
  class Node {
    const id: int
    var name: string

    constructor (id: int, name: string)
      ensures this.id == id && this.name == name
    {
      this.id := id;
      this.name := name;
    }
  }

  /** A link between two vertex objects (the `Link` interface, lines 9-13,
      as built at lines 317 and 615), with the `clicked` and `hasCurve` flags
      that colorEdge and curveEdge set; a new link has neither. */
  class Link {
    var source: Node
    var target: Node
    var clicked: bool
    var hasCurve: bool

    constructor (source: Node, target: Node)
      ensures this.source == source && this.target == target
      ensures !clicked && !hasCurve
    {
      this.source := source;
      this.target := target;
      this.clicked := false;
      this.hasCurve := false;
    }
  }

  /** `l` and `k` join the same two vertex objects, in either direction. */
  predicate SameEnds(l: Link, k: Link)
    reads l, k
  {
    (l.source == k.source && l.target == k.target) || (l.source == k.target && l.target == k.source)
  }
}
