/** The graph topology of graph.ts. Vertices and links are shared objects:
    the Graph keeps them in two arrays and an id counter, its editing
    operations rewrite those arrays and mutate the objects in place, and
    lookups compare labels by value and objects by identity. Rendering and
    the force simulation, which every operation ends by restarting, are not
    part of this model. */
module Topology {
  import opened GraphObjects
  import opened JsArray
  import opened Pairing
  import opened EdgeSampling
  import opened RandomGraph

  /** The vertex objects the links of `ls` point at. */
  function Ends(ls: seq<Link>): set<Node>
    reads ls
  {
    (set l | l in ls :: l.source) + (set l | l in ls :: l.target)
  }

  /** The test of lines 367, 503-504 and 526: `l` joins a vertex labelled `a`
      to one labelled `b`, in either direction. */
  predicate Joins(l: Link, a: string, b: string)
    reads l, l.source, l.target
  {
    (l.source.name == a && l.target.name == b) || (l.source.name == b && l.target.name == a)
  }

  /** `nodes.find(node => node.name == label)` (lines 315, 316, 379 and
      findNode at 518-520), given as the position of the node it returns. */
  function FindNode(ns: seq<Node>, lab: string): (r: Option<nat>)
    reads ns
    ensures r.Some? ==> r.value < |ns| && ns[r.value].name == lab
    ensures r.Some? ==> forall i :: 0 <= i < r.value ==> ns[i].name != lab
    ensures r.None? <==> forall i :: 0 <= i < |ns| ==> ns[i].name != lab
  {
    if ns == [] then None
    else if ns[0].name == lab then Some(0)
    else match FindNode(ns[1..], lab)
      case None => None
      case Some(k) => Some(k + 1)
  }

  /** findEdge (lines 522-528, and the same `find` at lines 364-368): the
      position of the first link joining labels `a` and `b`. */
  function FindEdge(ls: seq<Link>, a: string, b: string): (r: Option<nat>)
    reads ls, Ends(ls)
    ensures r.Some? ==> r.value < |ls| && Joins(ls[r.value], a, b)
    ensures r.Some? ==> forall i :: 0 <= i < r.value ==> !Joins(ls[i], a, b)
    ensures r.None? <==> forall i :: 0 <= i < |ls| ==> !Joins(ls[i], a, b)
  {
    if ls == [] then None
    else if Joins(ls[0], a, b) then Some(0)
    else match FindEdge(ls[1..], a, b)
      case None => None
      case Some(k) => Some(k + 1)
  }

  /** The link findEdge returns. */
  function FoundEdge(ls: seq<Link>, a: string, b: string): Link
    requires FindEdge(ls, a, b).Some?
    reads ls, Ends(ls)
  {
    ls[FindEdge(ls, a, b).value]
  }

  /** The vertices of `ns` labelled `v`. */
  function Labelled(ns: seq<Node>, v: string): set<Node>
    reads ns
  {
    set n | n in ns && n.name == v
  }

  /** After the vertex filter of lines 301 and 507 no vertex is labelled `v`. */
  lemma LabelGone(ns: seq<Node>, v: string)
    ensures forall n :: n in Without(ns, Labelled(ns, v)) ==> n.name != v
  {
  }

  /** The links of `ls` with an endpoint labelled `v` (line 302). */
  function TouchingLabel(ls: seq<Link>, v: string): set<Link>
    reads ls, Ends(ls)
  {
    set l | l in ls && (l.source.name == v || l.target.name == v)
  }

  /** The links of `ls` joining labels `a` and `b` (lines 503-504). */
  function JoiningSet(ls: seq<Link>, a: string, b: string): set<Link>
    reads ls, Ends(ls)
  {
    set l | l in ls && Joins(l, a, b)
  }

  /** findAllIncomingEdgesOfVertex (lines 458-460): the links with `x`
      itself, by identity, at either end, in their order in `ls`. */
  function Incident(ls: seq<Link>, x: Node): (r: seq<Link>)
    reads ls
    ensures forall l {:trigger l in r} :: l in r ==> l in ls && (l.source == x || l.target == x)
    ensures forall l {:trigger l in r} :: l in ls && (l.source == x || l.target == x) ==> l in r
  {
    Only(ls, AtVertex(ls, x))
  }

  /** The links of `ls` with `x` at either end. */
  function AtVertex(ls: seq<Link>, x: Node): set<Link>
    reads ls
  {
    set l | l in ls && (l.source == x || l.target == x)
  }

  /** `l` has an endpoint that is an endpoint of `e`. */
  predicate Touches(l: Link, e: Link)
    reads l, e
  {
    l.source == e.source || l.target == e.source || l.source == e.target || l.target == e.target
  }

  /** The links contractEdge keeps (lines 495-506): those incident to either
      endpoint of the link findEdge returns, in `concat` order, without the
      ones joining `a` and `b`. Links touching neither endpoint are dropped. */
  function ContractedLinks(ls: seq<Link>, a: string, b: string): (r: seq<Link>)
    requires FindEdge(ls, a, b).Some?
    reads ls, Ends(ls)
    ensures forall l {:trigger l in r} :: l in r ==> l in ls && !Joins(l, a, b) && Touches(l, FoundEdge(ls, a, b))
    ensures forall l {:trigger l in r} :: l in ls && !Joins(l, a, b) && Touches(l, FoundEdge(ls, a, b)) ==> l in r
  {
    var e := FoundEdge(ls, a, b);
    var all := Incident(ls, e.source) + Incident(ls, e.target);
    Without(all, JoiningSet(ls, a, b))
  }

  /** Where the forEach at lines 509-512 sends an endpoint: a vertex
      labelled `b` is replaced by `survivor`, any other is kept. */
  function Repoint(n: Node, b: string, survivor: Node): (r: Node)
    reads n
    ensures r == n || r == survivor
    ensures r != survivor ==> n.name != b
  {
    if n.name == b then survivor else n
  }

  /** Dropping the vertices labelled `v` together with the links touching
      them keeps every remaining link's endpoints among the remaining
      vertices. */
  lemma DropLabelKeepsClosed(ns: seq<Node>, ls: seq<Link>, v: string)
    requires forall l :: l in ls ==> l.source in ns && l.target in ns
    ensures forall l :: l in Without(ls, TouchingLabel(ls, v)) ==>
      l.source in Without(ns, Labelled(ns, v)) && l.target in Without(ns, Labelled(ns, v))
  {
  }

  /** No two positions of `ns` hold vertices with the same id. */
  ghost predicate DistinctIds(ns: seq<Node>)
  {
    forall i, j :: 0 <= i < j < |ns| ==> ns[i].id != ns[j].id
  }

  /** Filtering vertices out keeps the remaining ids distinct. */
  lemma {:induction false} FilterKeepsDistinctIds(ns: seq<Node>, bad: set<Node>)
    requires DistinctIds(ns)
    ensures DistinctIds(Without(ns, bad))
  {
    if ns != [] {
      var rest := Without(ns[1..], bad);
      FilterKeepsDistinctIds(ns[1..], bad);
      if ns[0] !in bad {
        assert Without(ns, bad) == [ns[0]] + rest;
        HeadIdUnique(ns, rest);
      } else {
        assert Without(ns, bad) == rest;
      }
    }
  }

  /** A vertex whose id differs from those of a list with distinct ids can
      be put in front of it. */
  lemma HeadIdUnique(ns: seq<Node>, rest: seq<Node>)
    requires ns != [] && DistinctIds(rest)
    requires forall n :: n in rest ==> n in ns[1..]
    requires DistinctIds(ns)
    ensures DistinctIds([ns[0]] + rest)
  {
    var r := [ns[0]] + rest;
    forall i, j | 0 <= i < j < |r|
      ensures r[i].id != r[j].id
    {
      if i == 0 {
        assert r[j] in ns[1..];
        var k :| 0 <= k < |ns| - 1 && ns[1..][k] == r[j];
        assert ns[k + 1] == r[j];
      } else {
        assert r[i] == rest[i - 1] && r[j] == rest[j - 1];
      }
    }
  }

  /** The editor's graph: the `nodes`, `links` and `lastId` fields of the
      Graph class (lines 15-35). */
  class Graph {
    var nodes: seq<Node>
    var links: seq<Link>
    var lastId: int

    /** Whether `load` has run. Before it the three fields above are
        `undefined` in the source, and every operation that touches them
        throws. */
    ghost var loaded: bool

    /** The constructor (lines 37-41) only records the DOM container: the
        arrays and the counter stay undefined until `load`. */
    constructor ()
      ensures !loaded
    {
      loaded := false;
    }

    /** Every link's endpoints are vertices of the graph. */
    ghost predicate Closed()
      reads this`nodes, this`links, links
    {
      forall l :: l in links ==> l.source in nodes && l.target in nodes
    }

    /** Distinct vertices carry distinct ids and none exceeds `lastId`, so
        the next `++this.lastId` is an id never used before. */
    ghost predicate IdsFresh()
      reads this`nodes, this`lastId
    {
      (forall n :: n in nodes ==> n.id <= lastId) && DistinctIds(nodes)
    }

    /** No self-loop and no two links between the same two vertices. */
    ghost predicate Simple()
      reads this`links, links
    {
      && (forall l :: l in links ==> l.source != l.target)
      && (forall i, j :: 0 <= i < j < |links| ==> !SameEnds(links[i], links[j]))
    }

    /** The topology part of load (lines 448-450): take the given arrays and
        set the counter to the number of vertices. */
    method Load(ns: seq<Node>, ls: seq<Link>)
      modifies this
      ensures nodes == ns && links == ls && lastId == |ns| && loaded
    {
      nodes := ns;
      links := ls;
      lastId := |ns|;
      loaded := true;
    }

    /** The graph's generateRandomGraph (lines 394-397): load a generated
        graph. Loading the `undefined` a rejected request yields fails on
        `graph.nodes`, so the request must pass the guard. The loaded graph
        has vertices with ids and labels `1..n`, `lastId == n`, and is
        closed, has fresh ids and is simple; link `k` is the one built from
        entry `k` of the shuffled edge indices, and with the maximum number
        of edges every pair of vertices is joined. */
    method LoadRandomGraph(vertices: int, edges: int, choices: seq<int>)
      requires Accepts(vertices, edges) && ValidChoices(edges, MaxNumEdges(vertices), choices)
      modifies this
      ensures |nodes| == vertices && |links| == edges && lastId == vertices && loaded
      ensures forall k :: 0 <= k < vertices ==> nodes[k].id == k + 1 && nodes[k].name == DecimalString(k + 1)
      ensures Closed() && IdsFresh() && Simple()
      ensures BuiltFrom(vertices, nodes, Swaps(MaxNumEdges(vertices), choices)[..edges], links)
      ensures edges == MaxNumEdges(vertices) ==> forall u, v :: 0 <= u < v < vertices ==> Joined(nodes, links, u, v)
    {
      var randomGraph := GenerateRandomGraph(vertices, edges, choices);
      Load(randomGraph.value.nodes, randomGraph.value.links);
      GeneratedShape(vertices, edges, choices);
    }

    /** Links built from the shuffled edge indices over vertices with ids
        `1..n` leave the editor closed, with fresh ids and simple; with every
        edge index the graph is complete. */
    lemma GeneratedShape(vertices: nat, edges: nat, choices: seq<int>)
      requires edges <= MaxNumEdges(vertices) && ValidChoices(edges, MaxNumEdges(vertices), choices)
      requires lastId == vertices && forall k :: 0 <= k < |nodes| ==> nodes[k].id == k + 1
      requires BuiltFrom(vertices, nodes, Swaps(MaxNumEdges(vertices), choices)[..edges], links)
      ensures Closed() && IdsFresh() && Simple()
      ensures edges == MaxNumEdges(vertices) ==> forall u, v :: 0 <= u < v < vertices ==> Joined(nodes, links, u, v)
    {
      var shuffled := Swaps(MaxNumEdges(vertices), choices);
      var chosen := shuffled[..edges];
      LinksForward(vertices, nodes, chosen, links);
      DistinctEdgesDistinctLinks(vertices, nodes, chosen, links);
      if edges == MaxNumEdges(vertices) {
        assert chosen == shuffled;
        PermutationFromMultiset(shuffled);
        AllPairsJoined(vertices, nodes, shuffled, links);
      }
    }

    /** addVertex (lines 308-312): append one new vertex with id
        `++lastId`; links are untouched and fresh ids stay fresh. */
    method AddVertex(vertexToAdd: string)
      requires loaded
      modifies this
      ensures loaded && lastId == old(lastId) + 1
      ensures |nodes| == |old(nodes)| + 1 && nodes[..|old(nodes)|] == old(nodes)
      ensures fresh(nodes[|old(nodes)|])
      ensures nodes[|old(nodes)|].id == lastId && nodes[|old(nodes)|].name == vertexToAdd
      ensures links == old(links)
      ensures old(IdsFresh()) ==> IdsFresh()
      ensures old(Closed()) ==> Closed()
    {
      lastId := lastId + 1;
      var node := new Node(lastId, vertexToAdd);
      nodes := nodes + [node];
      assert nodes[..|old(nodes)|] == old(nodes);
    }

    /** removeVertex (lines 300-306): drop every vertex labelled `v` and,
        through the splice loop, every link with an endpoint labelled `v`;
        everything else keeps its order. */
    method RemoveVertex(v: string)
      requires loaded
      modifies this`links, this`nodes
      ensures nodes == old(Without(nodes, Labelled(nodes, v)))
      ensures links == old(Without(links, TouchingLabel(links, v)))
      ensures lastId == old(lastId)
      ensures forall n :: n in nodes ==> n.name != v
      ensures forall l :: l in links ==> l.source.name != v && l.target.name != v
      ensures old(Closed()) ==> Closed()
      ensures old(IdsFresh()) ==> IdsFresh()
    {
      if Closed() {
        DropLabelKeepsClosed(nodes, links, v);
      }
      if DistinctIds(nodes) {
        FilterKeepsDistinctIds(nodes, Labelled(nodes, v));
      }
      var kept := Without(nodes, Labelled(nodes, v));
      var bad := TouchingLabel(links, v);
      var linksToRemove := Only(links, bad);
      SpliceEachRemovesAll(links, bad);
      SpliceAll(linksToRemove);
      nodes := kept;
    }

    /** The `map` at line 303: splice each link of `linksToRemove`, in
        turn, out of `this.links` at the position `indexOf` finds. */
    method SpliceAll(linksToRemove: seq<Link>)
      modifies this`links
      ensures links == SpliceEach(old(links), linksToRemove)
    {
      var i := 0;
      while i < |linksToRemove|
        invariant 0 <= i <= |linksToRemove|
        invariant SpliceEach(links, linksToRemove[i..]) == SpliceEach(old(links), linksToRemove)
      {
        assert linksToRemove[i..][1..] == linksToRemove[i + 1..];
        links := SpliceOne(links, IndexOf(links, linksToRemove[i]));
        i := i + 1;
      }
      assert linksToRemove[i..] == [];
    }

    /** addEdge (lines 314-320): append one new link from the first vertex
        labelled `a` to the first labelled `b`. The source dereferences
        neither, but a missing vertex leaves an undefined endpoint that the
        renderer then fails on, so both must exist. The new link is neither
        clicked nor curved. */
    method AddEdge(a: string, b: string)
      requires loaded && FindNode(nodes, a).Some? && FindNode(nodes, b).Some?
      modifies this
      ensures loaded && nodes == old(nodes) && lastId == old(lastId)
      ensures |links| == |old(links)| + 1 && links[..|old(links)|] == old(links)
      ensures fresh(links[|old(links)|])
      ensures links[|old(links)|].source == nodes[FindNode(nodes, a).value]
      ensures links[|old(links)|].target == nodes[FindNode(nodes, b).value]
      ensures Joins(links[|old(links)|], a, b)
      ensures !links[|old(links)|].clicked && !links[|old(links)|].hasCurve
      ensures old(Closed()) ==> Closed()
    {
      var first := nodes[FindNode(nodes, a).value];
      var second := nodes[FindNode(nodes, b).value];
      var newLink := new Link(first, second);
      links := links + [newLink];
      assert links[..|old(links)|] == old(links);
    }

    /** removeEdge (lines 363-372): `splice(indexOf(found), 1)`. With a link
        joining `a` and `b`, exactly the first such link goes; with none,
        `indexOf(undefined)` is -1 and the last link goes instead. */
    method RemoveEdge(a: string, b: string)
      requires loaded
      modifies this
      ensures loaded && nodes == old(nodes) && lastId == old(lastId)
      ensures match old(FindEdge(links, a, b))
        case Some(k) => links == old(links)[..k] + old(links)[k + 1..]
        case None => links == if old(links) == [] then [] else old(links)[..|old(links)| - 1]
      ensures old(Closed()) ==> Closed()
    {
      var found := FindEdge(links, a, b);
      var ind := -1;
      if found.Some? {
        var k := found.value;
        ind := IndexOf(links, links[k]);
        assert ind == k by {
          assert links[ind] == links[k];
          assert Joins(links[ind], a, b);
        }
      }
      links := SpliceOne(links, ind);
    }

    /** changeLabel (lines 378-382): the first vertex labelled `v` takes the
        new label; the same object is seen through every link that points at
        it. Every other vertex, all ids and both arrays are unchanged. */
    method ChangeLabel(v: string, newName: string)
      requires loaded && FindNode(nodes, v).Some?
      modifies nodes
      ensures var n := nodes[old(FindNode(nodes, v)).value];
        && n.name == newName
        && (forall m :: m in nodes && m != n ==> m.name == old(m.name))
        && (forall l :: l in links ==>
              && l.source.name == (if l.source == n then newName else old(l.source.name))
              && l.target.name == (if l.target == n then newName else old(l.target.name)))
    {
      var node := nodes[FindNode(nodes, v).value];
      node.name := newName;
    }

    /** curveEdge (lines 478-481): set `hasCurve` on the link findEdge
        returns, which must exist (line 480 dereferences it). */
    method CurveEdge(a: string, b: string)
      requires loaded && FindEdge(links, a, b).Some?
      modifies FoundEdge(links, a, b)`hasCurve
      ensures FoundEdge(links, a, b).hasCurve
    {
      var edge := FoundEdge(links, a, b);
      edge.hasCurve := true;
    }

    /** colorEdge (lines 462-476): toggle the link's `clicked` flag; the
        color change it requests is rendering. */
    method ColorEdge(link: Link, color: string)
      modifies link`clicked
      ensures link.clicked == !old(link.clicked)
    {
      if link.clicked {
        link.clicked := false;
      } else {
        link.clicked := true;
      }
    }

    /** contractEdge (lines 494-516). Take the first link joining `a` and
        `b`; keep only the links incident to its endpoints, minus those
        joining `a` and `b`; drop every vertex labelled `b`; re-point each
        kept endpoint labelled `b` onto the found link's `target`. */
    method ContractEdge(a: string, b: string)
      requires loaded && FindEdge(links, a, b).Some?
      modifies this`links, this`nodes
      modifies (set l | l in ContractedLinks(links, a, b))`source
      modifies (set l | l in ContractedLinks(links, a, b))`target
      ensures nodes == old(Without(nodes, Labelled(nodes, b)))
      ensures links == old(ContractedLinks(links, a, b))
      ensures lastId == old(lastId)
      ensures forall l :: l in links ==>
        && l.source == old(Repoint(l.source, b, FoundEdge(links, a, b).target))
        && l.target == old(Repoint(l.target, b, FoundEdge(links, a, b).target))
      ensures forall n :: n in nodes ==> n.name != b
      ensures old(Closed()) && old(FoundEdge(links, a, b).target.name) != b ==> Closed()
      ensures old(IdsFresh()) ==> IdsFresh()
    {
      if Closed() && FoundEdge(links, a, b).target.name != b {
        ContractKeepsClosed(nodes, links, a, b);
      }
      if IdsFresh() {
        FilterKeepsDistinctIds(nodes, Labelled(nodes, b));
      }
      LabelGone(nodes, b);
      var plan := PlanContraction(nodes, links, FoundEdge(links, a, b), a, b);
      Rewire(plan.remaining, plan.keptNodes, plan.kept, b, plan.survivor);
    }

    /** The state changes of contractEdge (lines 501, 507-514), in order:
        `this.links` takes the links incident to neither endpoint (a value
        line 514 overwrites), `this.nodes` loses the vertices labelled `b`,
        the kept links are re-pointed, and they become `this.links`. */
    method Rewire(remaining: seq<Link>, keptNodes: seq<Node>, kept: seq<Link>, b: string, survivor: Node)
      requires forall n :: n in keptNodes ==> n.name != b
      modifies this`links, this`nodes, (set l | l in kept)`source, (set l | l in kept)`target
      ensures nodes == keptNodes && links == kept
      ensures forall l :: l in kept ==>
        && l.source == old(Repoint(l.source, b, survivor))
        && l.target == old(Repoint(l.target, b, survivor))
      ensures forall n :: n in nodes ==> n.name != b
      ensures old(forall l :: l in kept ==> Repoint(l.source, b, survivor) in keptNodes && Repoint(l.target, b, survivor) in keptNodes)
        ==> Closed()
    {
      links := remaining;
      nodes := keptNodes;
      RepointAll(kept, b, survivor);
      links := kept;
    }
  }

  /** What contractEdge computes before it changes anything: the links
      line 501 keeps, the re-pointed links of line 506, the vertices of
      line 507 and the found link's `target` that takes over. */
  datatype Contraction = Contraction(remaining: seq<Link>, kept: seq<Link>, keptNodes: seq<Node>, survivor: Node)

  /** The filters of contractEdge (lines 496-507) in source order: the
      links incident to either endpoint of the found link, concatenated; the
      links incident to neither; the incident links minus those joining `a`
      and `b`; the vertices not labelled `b`. The kept links are
      ContractedLinks. */
  function PlanContraction(ns: seq<Node>, ls: seq<Link>, edgeToRemove: Link, a: string, b: string): (p: Contraction)
    requires edgeToRemove in ls
    reads ns, ls, Ends(ls)
    ensures p.kept == Without(Incident(ls, edgeToRemove.source) + Incident(ls, edgeToRemove.target), JoiningSet(ls, a, b))
    ensures p.keptNodes == Without(ns, Labelled(ns, b))
    ensures p.survivor == edgeToRemove.target
  {
    var inc := Incident(ls, edgeToRemove.source);
    var inc2 := Incident(ls, edgeToRemove.target);
    var allIncomingEdges := inc + inc2;
    var linkToRemove := Only(allIncomingEdges, JoiningSet(ls, a, b));
    WithoutAgreeing(allIncomingEdges, Elements(linkToRemove), JoiningSet(ls, a, b));
    Contraction(
      Without(ls, Elements(allIncomingEdges)),
      Without(allIncomingEdges, Elements(linkToRemove)),
      Without(ns, Labelled(ns, b)),
      edgeToRemove.target)
  }

  /** After contraction no kept link joins `a` and `b`: with the found
      link's endpoints labelled `a` and `b`, re-pointing an endpoint
      labelled `b` gives it the label `a` or `b` again, and a kept link did
      not join the two labels before. */
  lemma ContractedAvoidsPair(ls: seq<Link>, a: string, b: string)
    requires FindEdge(ls, a, b).Some?
    ensures var e := FoundEdge(ls, a, b);
      forall l :: l in ContractedLinks(ls, a, b) ==>
        var s, t := Repoint(l.source, b, e.target), Repoint(l.target, b, e.target);
        !((s.name == a && t.name == b) || (s.name == b && t.name == a))
  {
  }

  /** When the found link's `target` is not itself labelled `b`, no kept
      link has an endpoint labelled `b` once re-pointed. */
  lemma ContractedDropsLabel(ls: seq<Link>, a: string, b: string)
    requires FindEdge(ls, a, b).Some?
    requires FoundEdge(ls, a, b).target.name != b
    ensures var e := FoundEdge(ls, a, b);
      forall l :: l in ContractedLinks(ls, a, b) ==>
        Repoint(l.source, b, e.target).name != b && Repoint(l.target, b, e.target).name != b
  {
  }

  /** When every link of `ls` ends at vertices of `ns` and the found link's
      `target` is not labelled `b`, every re-pointed kept link ends at
      vertices that survive the removal of those labelled `b`. */
  lemma ContractKeepsClosed(ns: seq<Node>, ls: seq<Link>, a: string, b: string)
    requires forall l :: l in ls ==> l.source in ns && l.target in ns
    requires FindEdge(ls, a, b).Some?
    requires FoundEdge(ls, a, b).target.name != b
    ensures var e := FoundEdge(ls, a, b);
      forall l :: l in ContractedLinks(ls, a, b) ==>
        && Repoint(l.source, b, e.target) in Without(ns, Labelled(ns, b))
        && Repoint(l.target, b, e.target) in Without(ns, Labelled(ns, b))
  {
  }

  /** The forEach at lines 509-512: every endpoint labelled `b` of every link
      in `all` is re-pointed onto `survivor`; a link listed twice is
      re-pointed twice, to the same effect. */
  method RepointAll(all: seq<Link>, b: string, survivor: Node)
    modifies (set l | l in all)`source, (set l | l in all)`target
    ensures forall l :: l in all ==>
      && l.source == old(Repoint(l.source, b, survivor))
      && l.target == old(Repoint(l.target, b, survivor))
  {
    var i := 0;
    while i < |all|
      invariant 0 <= i <= |all|
      invariant forall l :: l in all[..i] ==>
        && l.source == old(Repoint(l.source, b, survivor))
        && l.target == old(Repoint(l.target, b, survivor))
      invariant forall l :: l in all && l !in all[..i] ==>
        l.source == old(l.source) && l.target == old(l.target)
    {
      var link := all[i];
      if link.source.name == b { link.source := survivor; }
      if link.target.name == b { link.target := survivor; }
      assert all[..i + 1] == all[..i] + [link];
      i := i + 1;
    }
    assert all[..i] == all;
  }
}
