// Two plans that folding changes: a window with a second consumer, and a count with two.
module WindowExamples {
  import opened Digraphs
  import opened Dataflow
  import opened RunReplacement
  import opened Search
  import opened EdgeArrays
  import opened NodeRemoval
  import opened WindowFusion
  import opened WindowPass

  function CountRules(): WindowRules<int, string> {
    WindowRules(n => n == 1, n => n == 2, (n, a) => 12, w => true)
  }

  predicate FromTo(h: Graph<int, string>, e: Edge<string>, from: int, to: int) {
    e.src < |h.nodes| && e.tgt < |h.nodes| && h.nodes[e.src] == from && h.nodes[e.tgt] == to
  }

  lemma {:induction false} FourSlots<E(!new)>(a: Edge<E>, b: Edge<E>, c: Edge<E>, d: Edge<E>)
    ensures Slotted([a, b, c, d], [0, 1, 2, 3])
  {
    var slots: seq<nat> := [0, 1, 2, 3];
    forall i: nat | i < 4
      ensures i in slots
    {
      assert slots[i] == i;
    }
  }

  /** A chain of edges from a source leads to its end. */
  lemma {:induction false} ChainReaches<N(!new), E(!new)>(g: Graph<N, E>, a: Edge<E>, b: Edge<E>)
    requires a in g.edges && b in g.edges && a.tgt == b.src && a.src < |g.nodes| && InEdges(g.edges, a.src) == []
    ensures Reachable(g, b.tgt)
  {
    forall c | Closed(g, c) && HasSources(g, c)
      ensures b.tgt in c
    {
      assert a.src in c && a.tgt in c;
    }
  }

  lemma {:induction false} CountFusable(g: Graph<int, string>, e: Edge<string>)
    requires |g.nodes| > 2 && g.nodes[1] == 1 && g.nodes[2] == 2 && InEdges(g.edges, 2) == [e] && e.src == 1
    ensures Fusable(g, CountRules(), 2)
  {
    hide InEdges;
  }

  // ---------- a shared window ----------

  /** A source, a window read by a count and by a sink, and a sink behind the count. */
  function SharedWindow(): Graph<int, string> {
    Graph([0, 1, 2, 3, 4], [Edge(0, 1, "a"), Edge(1, 2, "b"), Edge(1, 3, "c"), Edge(2, 4, "d")])
  }

  lemma {:induction false} FourSharedEdges(a: Edge<string>, b: Edge<string>, c: Edge<string>, d: Edge<string>, x: nat)
    requires a.tgt != x && b.tgt == x && c.tgt != x && d.tgt != x
    requires a.src != x && b.src != x && c.src != x && d.src == x
    ensures InEdges([a, b, c, d], x) == [b] && OutEdges([a, b, c, d], x) == [d] && Kept([a, b, c, d], {x}) == [a, c]
  {
    NoEdges<string>(x, {x});
    hide *;
    assert [] + [a] == [a] && [a] + [b] == [a, b] && [a, b] + [c] == [a, b, c] && [a, b, c] + [d] == [a, b, c, d];
    EdgesAppend([], a, x, {x});
    EdgesAppend([a], b, x, {x});
    EdgesAppend([a, b], c, x, {x});
    EdgesAppend([a, b, c], d, x, {x});
  }

  lemma {:induction false} NoInputs(a: Edge<string>, b: Edge<string>, c: Edge<string>, d: Edge<string>, x: nat)
    requires a.tgt != x && b.tgt != x && c.tgt != x && d.tgt != x
    ensures InEdges([a, b, c, d], x) == []
  {
    NoEdges<string>(x, {});
    hide *;
    assert [] + [a] == [a] && [a] + [b] == [a, b] && [a, b] + [c] == [a, b, c] && [a, b, c] + [d] == [a, b, c, d];
    EdgesAppend([], a, x, {});
    EdgesAppend([a], b, x, {});
    EdgesAppend([a, b], c, x, {});
    EdgesAppend([a, b, c], d, x, {});
  }

  lemma {:induction false} SharedEdges()
    ensures var g := SharedWindow();
            && Valid(g) && Slotted(g.edges, [0, 1, 2, 3]) && Fusable(g, CountRules(), 2) && Reachable(g, 2)
            && InEdges(g.edges, 2) == [Edge(1, 2, "b")] && OutEdges(g.edges, 2) == [Edge(2, 4, "d")]
            && Kept(g.edges, {2}) == [Edge(0, 1, "a"), Edge(1, 3, "c")]
  {
    var a, b, c, d := Edge(0, 1, "a"), Edge(1, 2, "b"), Edge(1, 3, "c"), Edge(2, 4, "d");
    hide InEdges, OutEdges, Kept, Slotted, Reachable, Fusable;
    FourSharedEdges(a, b, c, d, 2);
    FourSlots(a, b, c, d);
    NoInputs(a, b, c, d, 0);
    var g := SharedWindow();
    assert g.edges[0] == a && g.edges[1] == b;
    CountFusable(g, b);
    ChainReaches(g, a, b);
  }

  lemma {:induction false} SharedKept(n: int)
    ensures var g := SharedWindow();
            && InEdges(g.edges, 2) != []
            && Kept(Refed(WithNode(g, 1, n), [0, 1, 2, 3], 2, 1).edges, {2}) == [Edge(0, 1, "a"), Edge(1, 3, "c"), Edge(1, 4, "d")]
  {
    SharedEdges();
    var g, moved := WithNode(SharedWindow(), 1, n), [Edge(1, 4, "d")];
    var e := Edge(1, 2, "b");
    hide InEdges, OutEdges, Kept, Slotted, Reachable, StaleRound, TakenOver;
    FewOut(g, [0, 1, 2, 3], 1, 2, e);
    RefedIsRewired(g, [0, 1, 2, 3], 1, 2, e);
    assert Moved([Edge(2, 4, "d")], 1) == moved;
    KeptConcat(g.edges, moved, {2});
    KeptUntouched(moved, {2});
  }

  lemma {:induction false} SharedResult(h: Graph<int, string>, names: seq<nat>)
    requires InEdges(SharedWindow().edges, 2) != []
    requires Without(h, Refed(WithNode(SharedWindow(), 1, 12), [0, 1, 2, 3], 2, 1), names, {2})
    ensures 3 in h.nodes && |h.edges| == 3 && 1 !in h.nodes
    ensures exists k :: 0 <= k < |h.edges| && FromTo(h, h.edges[k], 12, 3)
  {
    SharedKept(12);
    var r := Refed(WithNode(SharedWindow(), 1, 12), [0, 1, 2, 3], 2, 1);
    assert r.nodes == [0, 12, 2, 3, 4];
    hide Kept, OutEdges, Refed, InEdges;
    assert Mapped(h.edges, names) == [Edge(0, 1, "a"), Edge(1, 3, "c"), Edge(1, 4, "d")];
    assert 3 in names;
    var i :| 0 <= i < |names| && names[i] == 3;
    assert h.nodes[i] == 3;
    var e := h.edges[1];
    assert Mapped(h.edges, names)[1] == Edge(names[e.src], names[e.tgt], e.weight);
    assert FromTo(h, h.edges[1], 12, 3);
  }

  lemma {:induction false} FoldIs<N(!new), E(!new)>(rules: WindowRules<N, E>, s: State<N, E>, t: State<N, E>, x: nat,
                                                    names: seq<nat>, p: nat, n: N)
    requires FoldStep(rules, s, t, x, names) && InEdges(s.graph.edges, x) != [] && |s.slots| == |s.graph.edges|
    requires p == Parent(s.graph.edges, x) < |s.graph.nodes| && x < |s.graph.nodes|
    requires n == rules.fuse(s.graph.nodes[p], s.graph.nodes[x])
    ensures Without(t.graph, Refed(WithNode(s.graph, p, n), s.slots, x, p), names, {x})
  {
  }

  /** The plain window is gone, and the sink that read it reads the counting one. */
  method FuseSharedWindow() returns (h: Graph<int, string>)
    ensures 3 in h.nodes && |h.edges| == 3 && 1 !in h.nodes
    ensures exists k :: 0 <= k < |h.edges| && FromTo(h, h.edges[k], 12, 3)
  {
    SharedEdges();
    var slots: seq<nat> := [0, 1, 2, 3];
    var graph := new EdgeGraph<int, string>(SharedWindow(), slots);
    hide Fusable, Valid, InEdges, Without, Reachable, Slotted, FoldStep, Refed, FromTo, OutEdges, Kept;
    ghost var s := State(SharedWindow(), slots);
    ghost var names := FuseOne(graph, CountRules(), 2);
    h := graph.View();
    FoldIs(CountRules(), s, State(h, graph.slots), 2, names, 1, 12);
    SharedResult(h, names);
  }

  // ---------- a count with two consumers ----------

  /** A source, a window read by a count alone, and two sinks behind the count. */
  function TwoSinks(): Graph<int, string> {
    Graph([0, 1, 2, 3, 4], [Edge(0, 1, "a"), Edge(1, 2, "b"), Edge(2, 3, "c"), Edge(2, 4, "d")])
  }

  lemma {:induction false} FourSinkEdges(a: Edge<string>, b: Edge<string>, c: Edge<string>, d: Edge<string>, x: nat, p: nat)
    requires a.tgt != x && b.tgt == x && c.tgt != x && d.tgt != x && p != x
    requires a.src != x && b.src != x && c.src == x && d.src == x && a.src != p && b.src == p
    ensures InEdges([a, b, c, d], x) == [b] && OutEdges([a, b, c, d], x) == [c, d] && Kept([a, b, c, d], {x}) == [a]
    ensures OutEdges([a, b, c, d], p) == [b]
  {
    NoEdges<string>(x, {x});
    NoEdges<string>(p, {x});
    hide *;
    assert [] + [a] == [a] && [a] + [b] == [a, b] && [a, b] + [c] == [a, b, c] && [a, b, c] + [d] == [a, b, c, d];
    EdgesAppend([], a, x, {x});
    EdgesAppend([a], b, x, {x});
    EdgesAppend([a, b], c, x, {x});
    EdgesAppend([a, b, c], d, x, {x});
    EdgesAppend([], a, p, {x});
    EdgesAppend([a], b, p, {x});
    EdgesAppend([a, b], c, p, {x});
    EdgesAppend([a, b, c], d, p, {x});
  }

  lemma {:induction false} SinkEdges()
    ensures var g := TwoSinks();
            && Valid(g) && Slotted(g.edges, [0, 1, 2, 3]) && Fusable(g, CountRules(), 2) && Reachable(g, 2)
            && InEdges(g.edges, 2) == [Edge(1, 2, "b")] && OutEdges(g.edges, 2) == [Edge(2, 3, "c"), Edge(2, 4, "d")]
            && Kept(g.edges, {2}) == [Edge(0, 1, "a")] && OutEdges(g.edges, 1) == [Edge(1, 2, "b")]
  {
    var a, b, c, d := Edge(0, 1, "a"), Edge(1, 2, "b"), Edge(2, 3, "c"), Edge(2, 4, "d");
    hide InEdges, OutEdges, Kept, Slotted, Reachable, Fusable;
    FourSinkEdges(a, b, c, d, 2, 1);
    FourSlots(a, b, c, d);
    NoInputs(a, b, c, d, 0);
    var g := TwoSinks();
    assert g.edges[0] == a && g.edges[1] == b;
    CountFusable(g, b);
    ChainReaches(g, a, b);
  }

  /** The older of the two edges out of the count is the last of the array once the edge into it is removed. */
  lemma {:induction false} SinkIsStale(edges: seq<Edge<string>>, slots: seq<nat>)
    requires edges == TwoSinks().edges && slots == [0, 1, 2, 3] && Slotted(edges, slots) && InEdges(edges, 2) == [Edge(1, 2, "b")]
    ensures StaleRound(edges, slots, 2) > 0
  {
    var k := EntryAt(edges, slots, 2);
    assert edges[k] == Edge(1, 2, "b");
    assert k == 1;
    StaleIff(edges, slots, 2);
    assert OlderOut(edges, slots, 2, 2, 2, 3);
  }

  lemma {:induction false} SinkKept(n: int)
    ensures var g := TwoSinks();
            && InEdges(g.edges, 2) != []
            && Kept(Refed(WithNode(g, 1, n), [0, 1, 2, 3], 2, 1).edges, {2}) == [Edge(0, 1, "a"), Edge(1, 3, "d")]
  {
    SinkEdges();
    var g, slots: seq<nat> := WithNode(TwoSinks(), 1, n), [0, 1, 2, 3];
    var e, taken := Edge(1, 2, "b"), [Edge(1, 3, "d")];
    hide InEdges, OutEdges, Kept, Slotted, Reachable, StaleRound, TakenOver;
    SinkIsStale(g.edges, slots);
    TakenIs(g, slots, 1, 2, e);
    var outs := [Edge(2, 3, "c"), Edge(2, 4, "d")];
    assert Moved(outs, 1) == [Edge(1, 4, "d"), Edge(1, 3, "c")];
    assert Arrived(outs, 1, 1, 2) == taken;
    KeptConcat(g.edges, taken, {2});
    KeptUntouched(taken, {2});
  }

  lemma {:induction false} SinkResult(h: Graph<int, string>, names: seq<nat>)
    requires InEdges(TwoSinks().edges, 2) != []
    requires Without(h, Refed(WithNode(TwoSinks(), 1, 12), [0, 1, 2, 3], 2, 1), names, {2})
    ensures 4 in h.nodes && |h.edges| == 2
    ensures forall k :: 0 <= k < |h.edges| ==> h.edges[k].tgt < |h.nodes| && h.nodes[h.edges[k].tgt] != 4
    ensures FromTo(h, h.edges[1], 12, 3) && h.edges[1].weight == "d"
  {
    SinkKept(12);
    var r := Refed(WithNode(TwoSinks(), 1, 12), [0, 1, 2, 3], 2, 1);
    assert r.nodes == [0, 12, 2, 3, 4];
    hide Kept, OutEdges, Refed, InEdges;
    assert Mapped(h.edges, names) == [Edge(0, 1, "a"), Edge(1, 3, "d")];
    assert 4 in names;
    var i :| 0 <= i < |names| && names[i] == 4;
    assert h.nodes[i] == 4;
    forall k | 0 <= k < |h.edges|
      ensures h.edges[k].tgt < |h.nodes| && h.nodes[h.edges[k].tgt] != 4
    {
      assert Mapped(h.edges, names)[k].tgt == names[h.edges[k].tgt];
    }
    assert Mapped(h.edges, names)[1].src == names[h.edges[1].src] && Mapped(h.edges, names)[1].tgt == names[h.edges[1].tgt];
  }

  /**
   * The window's only consumer is the count, and yet sink 4 is left without an input, and sink
   * 3 is fed over the edge that was the other's.
   */
  method FuseTwoSinks() returns (h: Graph<int, string>)
    ensures OutEdges(TwoSinks().edges, 1) == [Edge(1, 2, "b")]
    ensures 4 in h.nodes && |h.edges| == 2
    ensures forall k :: 0 <= k < |h.edges| ==> h.edges[k].tgt < |h.nodes| && h.nodes[h.edges[k].tgt] != 4
    ensures FromTo(h, h.edges[1], 12, 3) && h.edges[1].weight == "d"
  {
    SinkEdges();
    var slots: seq<nat> := [0, 1, 2, 3];
    var graph := new EdgeGraph<int, string>(TwoSinks(), slots);
    hide Fusable, Valid, InEdges, Without, Reachable, Slotted, FoldStep, Refed, FromTo, OutEdges, Kept;
    ghost var s := State(TwoSinks(), slots);
    ghost var names := FuseOne(graph, CountRules(), 2);
    h := graph.View();
    FoldIs(CountRules(), s, State(h, graph.slots), 2, names, 1, 12);
    SinkResult(h, names);
  }
}
