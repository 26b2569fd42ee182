/** The free function generateRandomGraph of graph.ts (lines 586-618): `n`
    vertices with ids and labels `1..n`, and `m` links read off the first
    `m` entries of a partially shuffled list of all vertex pairs. */
module RandomGraph {
  import opened GraphObjects
  import opened JsArray
  import opened Pairing
  import opened EdgeSampling

  /** The decimal digit `d` as a character. */
  function DigitChar(d: nat): char
    requires d < 10
  {
    (48 + d) as char
  }

  /** `JSON.stringify(k)` for a non-negative integer `k` (line 593): its
      decimal numeral, most significant digit first, without leading zeros. */
  function DecimalString(k: nat): (s: string)
    ensures 1 <= |s| && forall i :: 0 <= i < |s| ==> '0' <= s[i] <= '9'
    ensures s[0] == '0' ==> k == 0
    decreases k
  {
    if k < 10 then [DigitChar(k)] else DecimalString(k / 10) + [DigitChar(k % 10)]
  }

  /** The value of a string of decimal digits. */
  function DecimalValue(s: string): nat
    requires forall i :: 0 <= i < |s| ==> '0' <= s[i] <= '9'
  {
    if s == [] then 0 else 10 * DecimalValue(s[..|s| - 1]) + (s[|s| - 1] as int - 48)
  }

  /** Reading the numeral back gives the number: the labels of distinct
      vertices differ. */
  lemma {:induction false} DecimalRoundTrip(k: nat)
    ensures DecimalValue(DecimalString(k)) == k
    decreases k
  {
    if k >= 10 {
      var s := DecimalString(k);
      assert s[..|s| - 1] == DecimalString(k / 10);
      DecimalRoundTrip(k / 10);
    }
  }

  /** Distinct numbers have distinct numerals. */
  lemma DecimalStringInjective(j: nat, k: nat)
    requires j != k
    ensures DecimalString(j) != DecimalString(k)
  {
    DecimalRoundTrip(j);
    DecimalRoundTrip(k);
  }

  /** The `{ nodes, links }` object generateRandomGraph returns. */
  datatype GraphData = GraphData(nodes: seq<Node>, links: seq<Link>)

  /** generateRandomGraph(n, m), with `choices[i]` the value of
      `randomInt(i, maxNumEdges)` in round `i` of the shuffle. It returns
      nothing exactly when the guard at line 588 fails. Otherwise vertex `k`
      has id `k + 1` and label `JSON.stringify(k + 1)`, and there are `m`
      links, link `k` joining the two positions that entry `k` of the
      shuffled edge indices names. Every link runs from a vertex to a later one, no two links join
      the same two vertices, and when `m` is the maximum every pair of
      vertices is joined. */
  method GenerateRandomGraph(n: int, m: int, choices: seq<int>) returns (r: Option<GraphData>)
    requires Accepts(n, m) ==> ValidChoices(m, MaxNumEdges(n), choices)
    ensures r.None? <==> !Accepts(n, m)
    ensures r.Some? ==> |r.value.nodes| == n && |r.value.links| == m
    ensures r.Some? ==> forall k :: 0 <= k < n ==>
      r.value.nodes[k].id == k + 1 && r.value.nodes[k].name == DecimalString(k + 1)
    ensures r.Some? ==> forall l :: l in r.value.links ==>
      l.source in r.value.nodes && l.target in r.value.nodes && l.source.id < l.target.id
    ensures r.Some? ==> forall i, j :: 0 <= i < j < m ==> !SameEnds(r.value.links[i], r.value.links[j])
    ensures r.Some? && m == MaxNumEdges(n) ==> forall u, v :: 0 <= u < v < n ==> Joined(r.value.nodes, r.value.links, u, v)
    ensures Accepts(n, m) ==> r.Some? && BuiltFrom(n, r.value.nodes, Swaps(MaxNumEdges(n), choices)[..m], r.value.links)
  {
    if !Accepts(n, m) {
      return None;
    }
    var maxNumEdges := MaxNumEdges(n);
    var nodes := MakeNodes(n);
    var state := Shuffle(m, maxNumEdges, choices);
    var edges := Image(state, maxNumEdges);
    var links := MakeLinks(n, nodes, edges[..m]);
    LinksForward(n, nodes, edges[..m], links);
    DistinctEdgesDistinctLinks(n, nodes, edges[..m], links);
    if m == maxNumEdges {
      assert edges[..m] == edges;
      AllPairsJoined(n, nodes, edges, links);
    }
    return Some(GraphData(nodes, links));
  }

  /** The loop at lines 592-594: `n` new vertices, the `k`-th with id
      `k + 1` and its decimal numeral as label. */
  method MakeNodes(n: nat) returns (nodes: seq<Node>)
    ensures |nodes| == n
    ensures forall k :: 0 <= k < n ==> nodes[k].id == k + 1 && nodes[k].name == DecimalString(k + 1)
  {
    nodes := [];
    var i := 0;
    while i < n
      invariant 0 <= i <= n && |nodes| == i
      invariant forall k :: 0 <= k < i ==> nodes[k].id == k + 1 && nodes[k].name == DecimalString(k + 1)
    {
      var node := new Node(i + 1, DecimalString(i + 1));
      nodes := nodes + [node];
      i := i + 1;
    }
  }

  /** Link `k` of `links` joins the two positions named by edge index
      `edges[k]` among the `n` vertices, the smaller position as source. */
  ghost predicate BuiltFrom(n: nat, nodes: seq<Node>, edges: seq<int>, links: seq<Link>)
    reads links
  {
    && |nodes| == n
    && |links| == |edges|
    && forall k :: 0 <= k < |edges| ==>
      && 0 <= edges[k]
      && 0 <= EdgeOf(n, edges[k]).0 < EdgeOf(n, edges[k]).1 < n
      && links[k].source == nodes[EdgeOf(n, edges[k]).0]
      && links[k].target == nodes[EdgeOf(n, edges[k]).1]
  }

  /** The loop at lines 611-616: link `k` joins the two positions of edge
      index `edges[k]`. */
  method MakeLinks(n: nat, nodes: seq<Node>, edges: seq<int>) returns (links: seq<Link>)
    requires |nodes| == n
    requires forall k :: 0 <= k < |edges| ==> 0 <= edges[k] < MaxNumEdges(n)
    ensures BuiltFrom(n, nodes, edges, links)
  {
    links := [];
    var i := 0;
    while i < |edges|
      invariant 0 <= i <= |edges| && |links| == i
      invariant forall k :: 0 <= k < i ==>
        && 0 <= EdgeOf(n, edges[k]).0 < EdgeOf(n, edges[k]).1 < n
        && links[k].source == nodes[EdgeOf(n, edges[k]).0]
        && links[k].target == nodes[EdgeOf(n, edges[k]).1]
    {
      EdgeInRange(n, edges[i]);
      var (x, y) := Unpair(edges[i]);
      var link := new Link(nodes[x], nodes[n - 1 - y]);
      links := links + [link];
      i := i + 1;
    }
  }

  /** Every link runs between two vertices of the graph, from the one with
      the smaller id to the one with the larger. */
  lemma LinksForward(n: nat, nodes: seq<Node>, edges: seq<int>, links: seq<Link>)
    requires BuiltFrom(n, nodes, edges, links)
    requires forall k :: 0 <= k < n ==> nodes[k].id == k + 1
    ensures forall l :: l in links ==> l.source in nodes && l.target in nodes && l.source.id < l.target.id
  {
    forall l | l in links
      ensures l.source in nodes && l.target in nodes && l.source.id < l.target.id
    {
      var k :| 0 <= k < |links| && links[k] == l;
      var (u, v) := EdgeOf(n, edges[k]);
      assert l.source == nodes[u] && l.target == nodes[v];
    }
  }

  /** Links built from distinct edge indices over vertices with distinct
      ids join distinct pairs of vertices. */
  lemma DistinctEdgesDistinctLinks(n: nat, nodes: seq<Node>, edges: seq<int>, links: seq<Link>)
    requires BuiltFrom(n, nodes, edges, links)
    requires forall k :: 0 <= k < n ==> nodes[k].id == k + 1
    requires forall i, j :: 0 <= i < j < |edges| ==> edges[i] != edges[j]
    ensures forall i, j :: 0 <= i < j < |links| ==> !SameEnds(links[i], links[j])
  {
    forall i, j | 0 <= i < j < |links|
      ensures !SameEnds(links[i], links[j])
    {
      EdgeOfInjective(n, edges[i], edges[j]);
      var (a, b) := EdgeOf(n, edges[i]);
      var (c, d) := EdgeOf(n, edges[j]);
      assert links[i].source == nodes[a] && links[i].target == nodes[b];
      assert links[j].source == nodes[c] && links[j].target == nodes[d];
      DistinctPositions(n, nodes, a, b, c, d);
    }
  }

  /** Two different forward pairs of positions, over vertices with distinct
      ids, name different vertex pairs in either orientation. */
  lemma DistinctPositions(n: nat, nodes: seq<Node>, a: int, b: int, c: int, d: int)
    requires |nodes| == n && forall k :: 0 <= k < n ==> nodes[k].id == k + 1
    requires 0 <= a < b < n && 0 <= c < d < n && (a, b) != (c, d)
    ensures !(nodes[a] == nodes[c] && nodes[b] == nodes[d])
    ensures !(nodes[a] == nodes[d] && nodes[b] == nodes[c])
  {
    assert nodes[a].id == a + 1 && nodes[b].id == b + 1;
    assert nodes[c].id == c + 1 && nodes[d].id == d + 1;
  }

  /** When the edge indices are all of `[0, maxNumEdges)`, every pair of
      vertices `u < v` is joined by some link, `u` as source. */
  lemma AllPairsJoined(n: nat, nodes: seq<Node>, edges: seq<int>, links: seq<Link>)
    requires BuiltFrom(n, nodes, edges, links)
    requires |edges| == MaxNumEdges(n) && IsPermutation(edges)
    ensures forall u, v :: 0 <= u < v < n ==> Joined(nodes, links, u, v)
  {
    forall u, v | 0 <= u < v < n
      ensures Joined(nodes, links, u, v)
    {
      EdgeOfOnto(n, u, v);
      var e := Pair(u, n - 1 - v);
      assert e in edges;
      var k :| 0 <= k < |edges| && edges[k] == e;
      assert EdgeOf(n, edges[k]) == (u, v);
      assert links[k].source == nodes[u] && links[k].target == nodes[v];
    }
  }

  /** Some link runs from vertex `u` to vertex `v`. */
  ghost predicate Joined(nodes: seq<Node>, links: seq<Link>, u: int, v: int)
    reads links
    requires 0 <= u < |nodes| && 0 <= v < |nodes|
  {
    exists k :: 0 <= k < |links| && links[k].source == nodes[u] && links[k].target == nodes[v]
  }
}
