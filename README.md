# BetterGraphs graph topology, in Dafny

BetterGraphs is a small TypeScript library that draws a graph in the browser
with d3 and animates edits to it. This project models the part of its `Graph`
class that owns the topology: the `nodes` and `links` arrays and the `lastId`
counter. It models the operations that edit them (`addVertex`, `removeVertex`,
`addEdge`, `removeEdge`, `changeLabel`, `curveEdge`, `colorEdge`,
`contractEdge`, `load`, `generateRandomGraph`), the lookups they rely on
(`findNode`, `findEdge`, `findAllIncomingEdgesOfVertex`), and the free
function `generateRandomGraph` with its pairing function `unpair`.

Vertices and links are objects shared between the arrays, so they are Dafny
classes. `Node` has a constant `id` and a mutable label. `Link` has mutable
`source`/`target` references and the `clicked`/`hasCurve` flags. `Graph` holds
the two arrays as sequence fields, which its methods reassign, and its
methods mutate the shared objects in place. The source calls a vertex's label
`label`. That word is reserved in Dafny, so the field is named `name` here.

Files:

- `objects.dfy` (module `GraphObjects`): the vertex and link objects.
- `jsarray.dfy` (module `JsArray`): the `Array` operations the source builds on.
  These are `indexOf`, `splice(i, 1)` with its handling of a negative start,
  and `filter` by membership. It also proves that the splice-by-`indexOf`
  loop of `removeVertex` is the same as a filter.
- `topology.dfy` (module `Topology`): the lookups and the `Graph` class.
- `pairing.dfy` (module `Pairing`): the triangular numbering of vertex pairs
  behind `unpair`, and the proof that it is a bijection onto the forward
  pairs of positions.
- `sampling.dfy` (module `EdgeSampling`): the partial Fisher-Yates shuffle
  over a sparse map (`state`) in `generateRandomGraph`.
- `random_graph.dfy` (module `RandomGraph`): `generateRandomGraph` itself.
- `scenarios.dfy` (module `Scenarios`):
  - add-then-remove round trips for edges and vertices;
  - the demo graph of `src/index.ts` contracted along `"1"`-`"4"`, which
    leaves vertices 1, 2, 3, 5, 6 and links 1-5, 6-1, 1-2, 1-3.

Behaviour of the code as written that the contracts state:

- `removeVertex` drops every vertex carrying the label, not just the first.
- `removeEdge` with no matching link splices at `indexOf(undefined) == -1`,
  which removes the last link.
- `contractEdge` re-points every kept endpoint labelled `b` onto the found
  link's `target`. That `target` may itself be labelled `b`, in which case it
  has just been removed from `nodes`. So the contract promises that every
  link still ends at a vertex of the graph only when that `target` is not
  labelled `b`.
- `contractEdge` keeps only the links incident to the two endpoints of the
  found link. The assignment at line 501 is overwritten at line 514.
- Where the source dereferences the result of a failed `find`, it throws a
  `TypeError`. The model makes that a precondition, which callers must
  establish. This covers `changeLabel` (line 380), `curveEdge` (line 480)
  and `contractEdge` (line 496). The same holds for the graph's
  `generateRandomGraph` on a request the guard rejects: the free function
  returns `undefined`, and `load` then fails on `graph.nodes`.
- A new editor has no arrays until `load` (the constructor at lines 37-41
  sets none of them), so every edit before `load` throws. The ghost flag
  `loaded` records this, and each edit that touches the arrays requires it.

## Model

| member | source | states |
|---|---|---|
| GraphObjects.Node.constructor | src/graph.ts:4-7 | a vertex object has the given id and label |
| GraphObjects.Link.constructor | src/graph.ts:317 | a new link has the given endpoints and neither its `clicked` nor its `hasCurve` flag set |
| JsArray.IndexOf | src/graph.ts:303 | `indexOf` gives the first position holding the object, and -1 exactly when it is absent |
| JsArray.SpliceOne | src/graph.ts:370 | `splice(i, 1)` removes position `i` when it is in range; -1 removes the last element; a start past the end removes nothing |
| JsArray.Without | src/graph.ts:501-506 | `filter(x => !bad.includes(x))` (lines 501, 506) keeps exactly the elements outside `bad` in order, and is no longer than its input; the label filters at lines 301 and 507 are this filter with `bad` the set of vertices the predicate rejects |
| JsArray.Only | src/graph.ts:302 | the selecting filter at line 302 (and at lines 503-504) keeps exactly the elements its predicate accepts, written as membership in the set of those elements |
| JsArray.SpliceEach | src/graph.ts:303 | the `map` of `splice(indexOf(x), 1)` removes exactly one element per step while any remain (an absent one removes the last) and adds none |
| JsArray.SpliceEachRemovesAll | src/graph.ts:302-303 | splicing out, one at a time at their `indexOf` position, the links the filter selected, leaves exactly the other links in their order, even when a link occurs twice |
| JsArray.WithoutAppend | src/graph.ts:500-501 | filtering distributes over `concat` |
| Topology.FindNode | src/graph.ts:518-520 | `find` by label returns the first vertex with that label, or none exactly when no vertex has it |
| Topology.FindEdge | src/graph.ts:522-528 | `findEdge` returns the first link joining the two labels in either direction, or none exactly when no link does |
| Topology.Incident | src/graph.ts:458-460 | the incident links are exactly the links with the vertex object at either end |
| Topology.ContractedLinks | src/graph.ts:494-506 | the links contraction keeps are exactly those that touch an endpoint of the found link and do not join the two labels |
| Topology.PlanContraction | src/graph.ts:496-507 | the filters of `contractEdge` in source order compute ContractedLinks, the vertices not labelled `b`, and the found link's `target` as survivor |
| Topology.LabelGone | src/graph.ts:301 | after the vertex filter no vertex carries the removed label |
| Topology.DropLabelKeepsClosed | src/graph.ts:300-304 | dropping a label's vertices together with the links touching them leaves every link ending at remaining vertices |
| Topology.FilterKeepsDistinctIds | src/graph.ts:507 | filtering vertices keeps their ids pairwise distinct |
| Topology.ContractedAvoidsPair | src/graph.ts:503-512 | after re-pointing, no kept link joins the two contracted labels |
| Topology.ContractedDropsLabel | src/graph.ts:507-512 | when the found link's `target` is not labelled `b`, no re-pointed endpoint is labelled `b` |
| Topology.ContractKeepsClosed | src/graph.ts:494-514 | when every link ends at vertices of the graph and the found `target` is not labelled `b`, every re-pointed link ends at surviving vertices |
| Topology.Repoint | src/graph.ts:510-511 | an endpoint either stays or becomes the survivor, and it stays only when it is not labelled `b` |
| Topology.RepointAll | src/graph.ts:509-512 | every endpoint labelled `b` of every kept link now points at the survivor, and every other endpoint is unchanged |
| Topology.Graph.constructor | src/graph.ts:37-41 | a new editor is not loaded: its arrays and counter are undefined, so every edit that touches them is excluded until `load` |
| Topology.Graph.Load | src/graph.ts:443-456 | loading takes the given arrays, sets the counter to the number of vertices, and makes the editor loaded |
| Topology.Graph.LoadRandomGraph | src/graph.ts:394-397 | the loaded random graph has ids and labels `1..n` and counter `n`, every link ends at its vertices, ids are fresh, and it has no self-loop or parallel link; link `k` runs from vertex `EdgeOf(n, e).0` to vertex `EdgeOf(n, e).1`, where `e` is entry `k` of `Swaps(maxNumEdges, choices)`, and with `edges` at the maximum every pair of vertices is joined (the complete graph) |
| Topology.Graph.GeneratedShape | src/graph.ts:394-397 | an editor holding links built from the shuffled edge indices over vertices with ids `1..n` is closed, has fresh ids and is simple, and with every edge index every pair of vertices is joined |
| Topology.Graph.AddVertex | src/graph.ts:308-312 | one new vertex is appended with id `++lastId` and the label; links are unchanged; fresh ids and closed links are preserved |
| Topology.Graph.RemoveVertex | src/graph.ts:300-306 | every vertex with the label, and every link with an endpoint with the label, is removed; the rest keep their order; closed links and fresh ids are preserved |
| Topology.Graph.SpliceAll | src/graph.ts:303 | the `map` over the selected links performs the sequence of `indexOf`/`splice` steps |
| Topology.Graph.AddEdge | src/graph.ts:314-320 | one new link is appended from the first vertex labelled `a` to the first labelled `b`; it joins `a` and `b`, is neither clicked nor curved; closed links are preserved |
| Topology.Graph.RemoveEdge | src/graph.ts:363-372 | the first link joining the labels is removed; if none does, the last link is removed; closed links are preserved |
| Topology.Graph.ChangeLabel | src/graph.ts:378-382 | the first vertex with the label is relabelled, and every link that points at it sees the new label; every other label is unchanged |
| Topology.Graph.CurveEdge | src/graph.ts:478-481 | the link `findEdge` returns gets `hasCurve` set, and nothing else changes |
| Topology.Graph.ColorEdge | src/graph.ts:462-476 | the link's `clicked` flag is toggled |
| Topology.Graph.ContractEdge | src/graph.ts:494-516 | vertices labelled `b` are removed; links become ContractedLinks with `b`-labelled endpoints re-pointed onto the found link's `target`; no vertex keeps label `b`; fresh ids are preserved, and closed links when that `target` is not labelled `b` |
| Topology.Graph.Rewire | src/graph.ts:501-514 | the assignments of `contractEdge` in order leave the filtered vertices and the re-pointed kept links |
| Pairing.TriRoot | src/graph.ts:607 | the triangular root `z` of `k` satisfies `z(z+1)/2 <= k < (z+1)(z+2)/2` |
| Pairing.Unpair | src/graph.ts:606-609 | `unpair(k)` gives a pair that the triangular numbering maps back to `k` |
| Pairing.UnpairPair | src/graph.ts:606-609 | `unpair` inverts the numbering, so every pair of coordinates is reached |
| Pairing.EdgeOf | src/graph.ts:612-614 | the positions `(x, n - 1 - y)` an index names give the index back through the pair numbering, so no two indices name the same positions |
| Pairing.MaxNumEdgesIsTri | src/graph.ts:587 | `n(n-1)/2` is the triangular number of `n - 1` |
| Pairing.EdgeInRange | src/graph.ts:611-615 | every index below `maxNumEdges` names two positions `x < n - 1 - y` inside the vertex array: no self-loop, no undefined vertex |
| Pairing.EdgeOfInjective | src/graph.ts:611-615 | distinct indices name distinct position pairs |
| Pairing.EdgeOfOnto | src/graph.ts:611-615 | every forward pair of positions is named by an index below `maxNumEdges` |
| EdgeSampling.Accepts | src/graph.ts:587-588 | the guard accepts non-negative counts with `m <= n(n-1)/2`; an accepted request with any edge has at least two vertices |
| EdgeSampling.Lookup | src/graph.ts:601-602 | an entry of `state` is the key itself when absent (the default of lines 601-602) or a stored value |
| EdgeSampling.Swaps | src/graph.ts:598-604 | the array `0..max-1` after round `i` has swapped positions `i` and `choices[i]` for each round in turn; it has `max` entries, the same multiset of values, and no repeats |
| EdgeSampling.SwapKeeps | src/graph.ts:603 | a swap keeps the multiset of values and their distinctness |
| EdgeSampling.SwapEntries | src/graph.ts:601-603 | defaulting entries `i` and `j` and swapping them exchanges positions `i` and `j` of the represented array |
| EdgeSampling.ShuffleStep | src/graph.ts:599-604 | one round of the loop keeps the represented array a distinct rearrangement of `0..max-1` |
| EdgeSampling.PermutationFromMultiset | src/graph.ts:598-604 | a sequence with the multiset of `0..len-1` and no repeat is a permutation |
| EdgeSampling.Shuffle | src/graph.ts:598-604 | after the loop the first `m` keys are present, all keys are below `maxNumEdges`, and the array the sparse `state` stands for (absent entries holding their own index) is exactly `Swaps(maxNumEdges, choices)`, the result of the swaps the drawn values name, and so a permutation of `0..maxNumEdges-1` |
| RandomGraph.DecimalString | src/graph.ts:593 | `JSON.stringify` of a non-negative integer is a non-empty digit string without leading zero |
| RandomGraph.DecimalRoundTrip | src/graph.ts:593 | reading the numeral back gives the number |
| RandomGraph.DecimalStringInjective | src/graph.ts:593 | distinct vertices get distinct labels |
| RandomGraph.MakeNodes | src/graph.ts:592-594 | vertex `k` has id `k + 1` and label `JSON.stringify(k + 1)` |
| RandomGraph.MakeLinks | src/graph.ts:611-616 | link `k` joins the positions that `unpair(state[k])` names |
| RandomGraph.LinksForward | src/graph.ts:611-616 | every generated link joins two vertices of the graph, from the smaller id to the larger |
| RandomGraph.DistinctEdgesDistinctLinks | src/graph.ts:598-616 | no two generated links join the same pair of vertices, in either direction |
| RandomGraph.AllPairsJoined | src/graph.ts:598-616 | with `m == maxNumEdges` every pair of vertices is joined: the complete graph |
| RandomGraph.GenerateRandomGraph | src/graph.ts:586-618 | `undefined` exactly when the guard rejects; otherwise `n` vertices with ids and labels `1..n` and `m` links, forward, pairwise non-parallel, and every pair joined when `m` is the maximum; link `k` runs from vertex `EdgeOf(n, e).0` to vertex `EdgeOf(n, e).1`, where `e` is entry `k` of `Swaps(maxNumEdges, choices)` |
| Scenarios.EdgeRoundTrip | src/graph.ts:363-372 | `addEdge(a, b)` followed by `removeEdge(a, b)`, with no link between `a` and `b` before, restores the graph exactly |
| Scenarios.VertexRoundTrip | src/graph.ts:300-312 | `addVertex(v)` followed by `removeVertex(v)`, on a loaded editor with no vertex labelled `v` and every link ending at a vertex of the graph, restores the arrays and advances only the counter |
| Scenarios.DemoContraction | src/index.ts:11-33 | the demo graph contracted along `"1"`-`"4"` has vertices 1, 2, 3, 5, 6 and links 1-5, 6-1, 1-2, 1-3 in that order |
| Scenarios.DemoLinks | src/graph.ts:494-506 | in the demo graph, `findEdge("1", "4")` is the link 4-1, and contraction keeps 4-5, 6-4, 1-2, 1-3 |
| Scenarios.DemoNodes | src/graph.ts:507 | in the demo graph the vertex filter of `contractEdge` leaves vertices 1, 2, 3, 5, 6 |

## Left out

- Rendering is left out: SVG creation, the d3 force simulation and `restart`, labels, tooltips, the hull, arrows and `moveGraph`. So are the colour and size animations (`changeVerticesColor`, `changeEdgesColor`, `changeSizeOfVertices` and the like) and the DOM lookups in the constructor. None of them changes the topology.
- Graph.ColorEdge: only the `clicked` toggle is modelled. The `changeEdgesColor` call that repaints the link is rendering.
- Graph.Load: takes links whose endpoints are already vertex objects. In the source, d3's link force resolves numeric endpoints (as in `src/index.ts`) to vertex objects when the simulation starts. That resolution is not modelled, so the demo scenario builds its links with object endpoints.
- Graph.AddEdge: requires both labels to exist. With a missing label the source pushes a link with an `undefined` endpoint, and a `Link` here cannot hold one.
- Graph.constructor: the source leaves `nodes`, `links` and `lastId` undefined until `load`, and any edit before then throws (`++undefined`, then `push` on `undefined`). The model records this with the ghost flag `loaded`, and every edit that touches those fields requires it. What an edit before `load` does (it throws) is not modelled.
- The `nodes` and `links` arrays are sequence-valued fields that each operation reassigns. The in-place `push` and `splice` of lines 303, 310, 318 and 370 are therefore not captured as mutation of a shared array. The array `load` received from its caller (lines 448-449) and the one the d3 simulation holds would see those changes in the source, and nothing in the model aliases them.
- Graph.ChangeLabel, Graph.CurveEdge and Graph.ContractEdge require the lookup to succeed. A failed lookup throws a `TypeError` in the source, and throwing is not modelled.
- Graph.LoadRandomGraph: requires the guard to pass. On a rejected request the source fails inside `load`.
- GenerateRandomGraph: `Math.random` is replaced by the parameter `choices`, which lists the values `randomInt(i, maxNumEdges)` returns. Each value lies in `[i, maxNumEdges)`, as `Math.floor(Math.random() * (max - min) + min)` guarantees. Nothing is said about the distribution.
- GenerateRandomGraph: takes integer arguments. JavaScript numbers that are not integers, and integers beyond 2^53, are not modelled.
- Pairing.Unpair: the triangular root is computed exactly. The source uses the floating-point `Math.floor(Math.sqrt(...))`, whose rounding for very large indices is not modelled.
- Node and Link fields used only by the simulation and rendering (`x`, `y`, `value`, `d`, `s`) are left out.
