/** Sequences of editor calls and what they add up to: adding then removing
    an edge or a vertex restores the graph, and the demo graph of index.ts
    (lines 11-28) contracted along `"1"`-`"4"` (the call at line 33). */
module Scenarios {
  import opened GraphObjects
  import opened JsArray
  import opened Topology

  /** addEdge(a, b) followed by removeEdge(a, b), where no link joined `a`
      and `b` before: the new link is the first one joining them, so it is
      the one removed and the link sequence is restored exactly. */
  method EdgeRoundTrip(g: Graph, a: string, b: string)
    requires g.loaded && FindNode(g.nodes, a).Some? && FindNode(g.nodes, b).Some?
    requires FindEdge(g.links, a, b).None?
    modifies g
    ensures g.nodes == old(g.nodes) && g.links == old(g.links) && g.lastId == old(g.lastId)
  {
    ghost var before := g.links;
    g.AddEdge(a, b);
    FirstJoining(before, g.links[|before|], a, b);
    PrefixThenLast(g.links, before);
    g.RemoveEdge(a, b);
  }

  /** A sequence one longer than its prefix `t` is `t` and its last element. */
  lemma PrefixThenLast<T>(s: seq<T>, t: seq<T>)
    requires |s| == |t| + 1 && s[..|t|] == t
    ensures s == t + [s[|t|]]
  {
    assert s == s[..|t|] + s[|t|..];
  }

  /** A link pushed onto links none of which joins `a` and `b` is the
      first one that does, when it does. */
  lemma FirstJoining(ls: seq<Link>, l: Link, a: string, b: string)
    requires FindEdge(ls, a, b).None? && Joins(l, a, b)
    ensures FindEdge(ls + [l], a, b) == Some(|ls|)
  {
    var t := ls + [l];
    forall i | 0 <= i < |ls|
      ensures !Joins(t[i], a, b)
    {
      assert t[i] == ls[i];
    }
    assert t[|ls|] == l;
  }

  /** addVertex(v) followed by removeVertex(v), where no vertex was labelled
      `v` and every link ended at vertices of the graph: the new vertex is
      the only one removed, no link touches it, and only the id counter has
      moved on. */
  method VertexRoundTrip(g: Graph, v: string)
    requires g.loaded && FindNode(g.nodes, v).None? && g.Closed()
    modifies g
    ensures g.nodes == old(g.nodes) && g.links == old(g.links) && g.lastId == old(g.lastId) + 1
  {
    ghost var ns := g.nodes;
    ghost var ls := g.links;
    g.AddVertex(v);
    var added := g.nodes[|ns|];
    assert g.nodes == ns + [added];
    assert Labelled(g.nodes, v) == {added};
    WithoutLast(ns, added);
    assert TouchingLabel(g.links, v) == {} by {
      forall l | l in g.links
        ensures l.source.name != v && l.target.name != v
      {
        assert l.source in ns && l.target in ns;
      }
    }
    WithoutNone(g.links, {});
    g.RemoveVertex(v);
  }

  /** Filtering out just the appended element gives back the sequence. */
  lemma WithoutLast(ns: seq<Node>, x: Node)
    requires x !in ns
    ensures Without(ns + [x], {x}) == ns
  {
    WithoutAppend(ns, [x], {x});
    WithoutNone(ns, {x});
    assert Without([x], {x}) == [];
  }

  /** The labels of `ns`, in order. */
  function Names(ns: seq<Node>): (r: seq<string>)
    reads ns
    ensures |r| == |ns| && forall i :: 0 <= i < |ns| ==> r[i] == ns[i].name
  {
    if ns == [] then [] else [ns[0].name] + Names(ns[1..])
  }

  /** The labels of the endpoints of `ls`, in order. */
  function EndNames(ls: seq<Link>): (r: seq<(string, string)>)
    reads ls, Ends(ls)
    ensures |r| == |ls| && forall i :: 0 <= i < |ls| ==> r[i] == (ls[i].source.name, ls[i].target.name)
  {
    if ls == [] then [] else [(ls[0].source.name, ls[0].target.name)] + EndNames(ls[1..])
  }

  /** The demo graph of index.ts lines 11-28 after contractEdge("1", "4"):
      the vertices labelled 1, 2, 3, 5, 6 and the links 1-5, 6-1, 1-2,
      1-3, in that order, as labels of their endpoints. */
  method DemoContraction() returns (labels: seq<string>, ends: seq<(string, string)>)
    ensures labels == ["1", "2", "3", "5", "6"]
    ensures ends == [("1", "5"), ("6", "1"), ("1", "2"), ("1", "3")]
  {
    var g, n1, n2, n3, n4, n5, n6, l12, l13, l45, l41, l64 := LoadDemo();
    DemoLinks(n1, n2, n3, n4, n5, n6, l12, l13, l45, l41, l64);
    DemoNodes(n1, n2, n3, n4, n5, n6);
    g.ContractEdge("1", "4");
    assert g.nodes == [n1, n2, n3, n5, n6];
    assert g.links == [l45, l64, l12, l13];
    assert l45.source == n1 && l45.target == n5 by {
      assert l45 in g.links;
    }
    assert l64.source == n6 && l64.target == n1 by {
      assert l64 in g.links;
    }
    assert l12.source == n1 && l12.target == n2 by {
      assert l12 in g.links;
    }
    assert l13.source == n1 && l13.target == n3 by {
      assert l13 in g.links;
    }
    labels := Names(g.nodes);
    ends := EndNames(g.links);
    DemoLabels(n1, n2, n3, n5, n6);
    DemoEnds(n1, n2, n3, n5, n6, l45, l64, l12, l13);
  }

  /** The labels of the vertices left after the contraction. */
  lemma DemoLabels(n1: Node, n2: Node, n3: Node, n5: Node, n6: Node)
    requires n1.name == "1" && n2.name == "2" && n3.name == "3" && n5.name == "5" && n6.name == "6"
    ensures Names([n1, n2, n3, n5, n6]) == ["1", "2", "3", "5", "6"]
  {
    var r := Names([n1, n2, n3, n5, n6]);
    assert r[0] == "1" && r[1] == "2" && r[2] == "3" && r[3] == "5" && r[4] == "6";
  }

  /** The endpoint labels of the links left after the contraction. */
  lemma DemoEnds(n1: Node, n2: Node, n3: Node, n5: Node, n6: Node, l15: Link, l61: Link, l12: Link, l13: Link)
    requires n1.name == "1" && n2.name == "2" && n3.name == "3" && n5.name == "5" && n6.name == "6"
    requires l15.source == n1 && l15.target == n5 && l61.source == n6 && l61.target == n1
    requires l12.source == n1 && l12.target == n2 && l13.source == n1 && l13.target == n3
    ensures EndNames([l15, l61, l12, l13]) == [("1", "5"), ("6", "1"), ("1", "2"), ("1", "3")]
  {
    var r := EndNames([l15, l61, l12, l13]);
    assert r[0] == ("1", "5") && r[1] == ("6", "1") && r[2] == ("1", "2") && r[3] == ("1", "3");
  }

  /** The demo graph of index.ts lines 11-28, loaded into a new editor. */
  method LoadDemo() returns (g: Graph, n1: Node, n2: Node, n3: Node, n4: Node, n5: Node, n6: Node,
                             l12: Link, l13: Link, l45: Link, l41: Link, l64: Link)
    ensures fresh(g) && fresh(l12) && fresh(l13) && fresh(l45) && fresh(l41) && fresh(l64)
    ensures DemoGraph(n1, n2, n3, n4, n5, n6, l12, l13, l45, l41, l64)
    ensures g.loaded && g.nodes == [n1, n2, n3, n4, n5, n6] && g.links == [l12, l13, l45, l41, l64]
  {
    n1 := new Node(1, "1");
    n2 := new Node(2, "2");
    n3 := new Node(3, "3");
    n4 := new Node(4, "4");
    n5 := new Node(5, "5");
    n6 := new Node(6, "6");
    l12 := new Link(n1, n2);
    l13 := new Link(n1, n3);
    l45 := new Link(n4, n5);
    l41 := new Link(n4, n1);
    l64 := new Link(n6, n4);
    g := new Graph();
    g.Load([n1, n2, n3, n4, n5, n6], [l12, l13, l45, l41, l64]);
  }

  /** The names and links of the demo graph (index.ts lines 11-28), as objects. */
  ghost predicate DemoGraph(n1: Node, n2: Node, n3: Node, n4: Node, n5: Node, n6: Node,
                            l12: Link, l13: Link, l45: Link, l41: Link, l64: Link)
    reads n1, n2, n3, n4, n5, n6, l12, l13, l45, l41, l64
  {
    && n1.name == "1" && n2.name == "2" && n3.name == "3"
    && n4.name == "4" && n5.name == "5" && n6.name == "6"
    && l12.source == n1 && l12.target == n2
    && l13.source == n1 && l13.target == n3
    && l45.source == n4 && l45.target == n5
    && l41.source == n4 && l41.target == n1
    && l64.source == n6 && l64.target == n4
  }

  /** In the demo graph the first link joining 1 and 4 is 4-1, and
      contracting it keeps 4-5, 6-4, 1-2 and 1-3: the links at 4, then those
      at 1, without 4-1. */
  lemma DemoLinks(n1: Node, n2: Node, n3: Node, n4: Node, n5: Node, n6: Node,
                  l12: Link, l13: Link, l45: Link, l41: Link, l64: Link)
    requires DemoGraph(n1, n2, n3, n4, n5, n6, l12, l13, l45, l41, l64)
    ensures FindEdge([l12, l13, l45, l41, l64], "1", "4") == Some(3)
    ensures ContractedLinks([l12, l13, l45, l41, l64], "1", "4") == [l45, l64, l12, l13]
  {
    var ls := [l12, l13, l45, l41, l64];
    assert FindEdge(ls, "1", "4") == Some(3) by {
      assert ls[3] == l41 && Joins(l41, "1", "4");
      assert !Joins(ls[0], "1", "4") && !Joins(ls[1], "1", "4") && !Joins(ls[2], "1", "4");
    }
    assert Incident(ls, n4) == [l45, l41, l64] by {
      DemoAt4(n1, n2, n3, n4, n5, n6, l12, l13, l45, l41, l64);
    }
    assert Incident(ls, n1) == [l12, l13, l41] by {
      DemoAt1(n1, n2, n3, n4, n5, n6, l12, l13, l45, l41, l64);
    }
    DemoDropJoining(n1, n2, n3, n4, n5, n6, l12, l13, l45, l41, l64);
  }

  /** findAllIncomingEdgesOfVertex on vertex 4 of the demo graph. */
  lemma DemoAt4(n1: Node, n2: Node, n3: Node, n4: Node, n5: Node, n6: Node,
                l12: Link, l13: Link, l45: Link, l41: Link, l64: Link)
    requires DemoGraph(n1, n2, n3, n4, n5, n6, l12, l13, l45, l41, l64)
    ensures Incident([l12, l13, l45, l41, l64], n4) == [l45, l41, l64]
  {
    var ls := [l12, l13, l45, l41, l64];
    var at := AtVertex(ls, n4);
    assert ls == [l12, l13] + [l45, l41, l64];
    assert Only(ls, at) == Only([l12, l13], at) + Only([l45, l41, l64], at) by {
      OnlyAppend([l12, l13], [l45, l41, l64], at);
    }
    assert Only([l12, l13], at) == [] by {
      assert l12 !in at && l13 !in at;
      OnlyNone([l12, l13], at);
    }
    assert Only([l45, l41, l64], at) == [l45, l41, l64] by {
      assert l45 in at && l41 in at && l64 in at;
      OnlyAll([l45, l41, l64], at);
    }
  }

  /** findAllIncomingEdgesOfVertex on vertex 1 of the demo graph. */
  lemma DemoAt1(n1: Node, n2: Node, n3: Node, n4: Node, n5: Node, n6: Node,
                l12: Link, l13: Link, l45: Link, l41: Link, l64: Link)
    requires DemoGraph(n1, n2, n3, n4, n5, n6, l12, l13, l45, l41, l64)
    ensures Incident([l12, l13, l45, l41, l64], n1) == [l12, l13, l41]
  {
    var ls := [l12, l13, l45, l41, l64];
    var at := AtVertex(ls, n1);
    assert l12 in at && l13 in at && l45 !in at && l41 in at && l64 !in at;
    assert ls == ([l12, l13] + [l45]) + ([l41] + [l64]);
    assert Only(ls, at) == Only([l12, l13] + [l45], at) + Only([l41] + [l64], at) by {
      OnlyAppend([l12, l13] + [l45], [l41] + [l64], at);
    }
    assert Only([l12, l13] + [l45], at) == [l12, l13] by {
      OnlyAppend([l12, l13], [l45], at);
      OnlyAll([l12, l13], at);
      OnlyNone([l45], at);
    }
    assert Only([l41] + [l64], at) == [l41] by {
      OnlyAppend([l41], [l64], at);
      OnlyAll([l41], at);
      OnlyNone([l64], at);
    }
  }

  /** Dropping the links that join 1 and 4 from the concatenated incident
      links of the demo graph leaves 4-5, 6-4, 1-2, 1-3. */
  lemma DemoDropJoining(n1: Node, n2: Node, n3: Node, n4: Node, n5: Node, n6: Node,
                        l12: Link, l13: Link, l45: Link, l41: Link, l64: Link)
    requires DemoGraph(n1, n2, n3, n4, n5, n6, l12, l13, l45, l41, l64)
    ensures Without([l45, l41, l64] + [l12, l13, l41], JoiningSet([l12, l13, l45, l41, l64], "1", "4"))
      == [l45, l64, l12, l13]
  {
    var joining := JoiningSet([l12, l13, l45, l41, l64], "1", "4");
    assert l12 !in joining && l13 !in joining && l45 !in joining && l41 in joining && l64 !in joining;
    assert Without([l45, l41, l64] + [l12, l13, l41], joining)
      == Without([l45, l41, l64], joining) + Without([l12, l13, l41], joining) by {
      WithoutAppend([l45, l41, l64], [l12, l13, l41], joining);
    }
    assert Without([l45, l41, l64], joining) == [l45, l64] by {
      assert [l45, l41, l64] == [l45] + [l41] + [l64];
      WithoutOne([l45], l41, [l64], joining);
    }
    assert Without([l12, l13, l41], joining) == [l12, l13] by {
      assert [l12, l13, l41] == [l12, l13] + [l41] + [];
      WithoutOne([l12, l13], l41, [], joining);
    }
  }

  /** Dropping the vertices labelled 4 from the demo vertices. */
  lemma DemoNodes(n1: Node, n2: Node, n3: Node, n4: Node, n5: Node, n6: Node)
    requires n1.name == "1" && n2.name == "2" && n3.name == "3"
    requires n4.name == "4" && n5.name == "5" && n6.name == "6"
    ensures Without([n1, n2, n3, n4, n5, n6], Labelled([n1, n2, n3, n4, n5, n6], "4")) == [n1, n2, n3, n5, n6]
  {
    var bad := Labelled([n1, n2, n3, n4, n5, n6], "4");
    assert n1 !in bad && n2 !in bad && n3 !in bad && n4 in bad && n5 !in bad && n6 !in bad;
    assert [n1, n2, n3, n4, n5, n6] == [n1, n2, n3] + [n4] + [n5, n6];
    WithoutOne([n1, n2, n3], n4, [n5, n6], bad);
  }
}
