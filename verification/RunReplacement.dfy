// The mutable plan graph and replace_run: add the new nodes and edges, then remove the nodes
// of the run in descending order of index, so that no removal moves a node still to be removed.
module RunReplacement {
  import opened Digraphs
  import opened Dataflow

  class DiGraph<N(!new), E(!new)> {
    var nodes: seq<N>
    var edges: seq<Edge<E>>

    function View(): Graph<N, E>
      reads this
    {
      Graph(nodes, edges)
    }

    constructor (g: Graph<N, E>)
      ensures View() == g
    {
      nodes, edges := g.nodes, g.edges;
    }

    method AddNode(n: N) returns (i: nat)
      modifies this
      ensures i == |old(nodes)| && nodes == old(nodes) + [n] && edges == old(edges)
    {
      i := |nodes|;
      nodes := nodes + [n];
    }

    method AddEdge(src: nat, tgt: nat, weight: E)
      requires src < |nodes| && tgt < |nodes|
      modifies this
      ensures nodes == old(nodes) && edges == old(edges) + [Edge(src, tgt, weight)]
    {
      edges := edges + [Edge(src, tgt, weight)];
    }

    method RemoveNode(a: nat)
      requires Valid(View()) && a < |nodes|
      modifies this
      ensures View() == Digraphs.RemoveNode(old(View()), a)
    {
      var g := Digraphs.RemoveNode(View(), a);
      nodes, edges := g.nodes, g.edges;
    }
  }

  // ---------- the order of removal ----------

  predicate Descending(s: seq<nat>) {
    forall i, j :: 0 <= i < j < |s| ==> s[j] < s[i]
  }

  function Insert(s: seq<nat>, x: nat): (r: seq<nat>)
    requires Descending(s) && x !in s
    ensures Descending(r) && |r| == |s| + 1 && forall y: nat :: y in r <==> y in s || y == x
  {
    if s == [] then [x]
    else if x > s[0] then
      var r := [x] + s;
      assert forall y: nat :: y in r <==> y in s || y == x;
      r
    else
      var t := Insert(s[1..], x);
      var r := [s[0]] + t;
      assert forall y: nat :: y in s[1..] ==> y in s && y < s[0];
      assert s == [s[0]] + s[1..];
      assert forall k :: 0 <= k < |t| ==> t[k] in t;
      assert forall y: nat :: y in r <==> y in s || y == x;
      r
  }

  ghost predicate SameElements(s: seq<nat>, t: seq<nat>) {
    forall x: nat :: x in s <==> x in t
  }

  predicate AllBelow(s: seq<nat>, n: nat) {
    forall k :: 0 <= k < |s| ==> s[k] < n
  }

  lemma {:induction false} SameBelow(s: seq<nat>, t: seq<nat>, n: nat)
    requires SameElements(s, t) && AllBelow(t, n)
    ensures AllBelow(s, n)
  {
    forall k | 0 <= k < |s|
      ensures s[k] < n
    {
      var x := s[k];
      assert x in s;
    }
  }

  /** sort() and reverse() on the indices of the run. */
  method SortDescending(run: seq<nat>) returns (r: seq<nat>)
    requires Injective(run)
    ensures Descending(r) && |r| == |run| && SameElements(r, run)
  {
    r := [];
    var i := 0;
    while i < |run|
      invariant 0 <= i <= |run|
      invariant Descending(r) && |r| == i && SameElements(r, run[..i])
    {
      assert run[i] !in run[..i];
      assert run[..i + 1] == run[..i] + [run[i]];
      r := Insert(r, run[i]);
      i := i + 1;
    }
    assert run[..i] == run;
  }

  /** Below the last removed index every node still has its own index. */
  ghost predicate LowNamesFixed(names: seq<nat>, bound: nat) {
    bound <= |names| && forall x :: 0 <= x < bound ==> names[x] == x
  }

  lemma {:induction false} RemovalKeepsLow(names: seq<nat>, bound: nat, a: nat)
    requires LowNamesFixed(names, bound) && a < bound
    ensures LowNamesFixed(SwapRemove(names, a), a)
  {
  }

  /** After the first i removals: h is g without those nodes, and lower indices have not moved. */
  ghost predicate RemovalInv<N(!new), E(!new)>(h: Graph<N, E>, g: Graph<N, E>, names: seq<nat>, order: seq<nat>, i: nat) {
    && i <= |order| && |h.nodes| == |g.nodes| - i
    && Without(h, g, names, RunSet(order[..i]))
    && LowNamesFixed(names, if i == 0 then |g.nodes| else order[i - 1])
  }

  lemma {:induction false} RemovalStart<N(!new), E(!new)>(g: Graph<N, E>, order: seq<nat>)
    requires Valid(g)
    ensures RemovalInv(g, g, Identity(|g.nodes|), order, 0)
  {
    WithoutNothing(g);
    assert RunSet(order[..0]) == {};
  }

  lemma {:induction false} RemovalStep<N(!new), E(!new)>(h: Graph<N, E>, g: Graph<N, E>, names: seq<nat>, order: seq<nat>,
                                                         i: nat)
    requires RemovalInv(h, g, names, order, i) && i < |order| && Descending(order)
    requires AllBelow(order, |g.nodes|)
    ensures Valid(h) && order[i] < |h.nodes| && |names| == |h.nodes|
    ensures RemovalInv(RemoveNode(h, order[i]), g, SwapRemove(names, order[i]), order, i + 1)
  {
    var a := order[i];
    var bound := if i == 0 then |g.nodes| else order[i - 1];
    assert a < bound;
    assert names[a] == a && |names| == |h.nodes|;
    hide Without, Kept, Mapped;
    RemovalKeepsLow(names, bound, a);
    WithoutValid(h, g, names, RunSet(order[..i]));
    RemoveOneMore(h, g, names, RunSet(order[..i]), a);
    assert order[..i + 1] == order[..i] + [a];
    assert RunSet(order[..i]) + {a} == RunSet(order[..i + 1]);
  }

  lemma {:induction false} WithoutValid<N(!new), E(!new)>(h: Graph<N, E>, g: Graph<N, E>, names: seq<nat>, dead: set<nat>)
    requires Without(h, g, names, dead)
    ensures Valid(h) && |names| == |h.nodes|
  {
  }

  lemma {:induction false} RemovalEnd<N(!new), E(!new)>(h: Graph<N, E>, g: Graph<N, E>, names: seq<nat>, order: seq<nat>,
                                                        run: seq<nat>)
    requires RemovalInv(h, g, names, order, |order|) && SameElements(order, run)
    ensures Without(h, g, names, RunSet(run)) && |h.nodes| == |g.nodes| - |order|
  {
    assert order[..|order|] == order;
    assert RunSet(order) == RunSet(run);
  }

  /** Removing the indices of run in descending order removes exactly those nodes. */
  method RemoveAll<N(!new), E(!new)>(graph: DiGraph<N, E>, run: seq<nat>) returns (ghost names: seq<nat>)
    requires Valid(graph.View()) && Injective(run) && AllBelow(run, |graph.nodes|)
    modifies graph
    ensures Without(graph.View(), old(graph.View()), names, RunSet(run))
    ensures |graph.nodes| == |old(graph.nodes)| - |run|
  {
    ghost var g := graph.View();
    var order := SortDescending(run);
    SameBelow(order, run, |graph.nodes|);
    hide SameElements, AllBelow, Without, Descending, Injective, Valid, LowNamesFixed, RemoveNode, SwapRemove, Identity,
         RemovalInv, RunSet;
    names := Identity(|graph.nodes|);
    RemovalStart(g, order);
    var i := 0;
    while i < |order|
      invariant 0 <= i <= |order|
      invariant RemovalInv(graph.View(), g, names, order, i)
    {
      RemovalStep(graph.View(), g, names, order, i);
      graph.RemoveNode(order[i]);
      names := SwapRemove(names, order[i]);
      i := i + 1;
    }
    RemovalEnd(graph.View(), g, names, order, run);
  }

  // ---------- replace_run ----------

  function NodesOf<N, E>(node: N, additional: seq<(E, N)>): (r: seq<N>)
    ensures |r| == |additional| + 1
  {
    [node] + seq(|additional|, k requires 0 <= k < |additional| => additional[k].1)
  }

  function WeightsOf<N, E>(weight: E, additional: seq<(E, N)>): (r: seq<E>)
    ensures |r| == |additional| + 1
  {
    [weight] + seq(|additional|, k requires 0 <= k < |additional| => additional[k].0)
  }

  /** Edges between other nodes do not change which edge is the oldest out of x. */
  lemma {:induction false} OldestOut<E(!new)>(es: seq<Edge<E>>, fs: seq<Edge<E>>, x: nat)
    requires |OutEdges(es, x)| > 0
    ensures |OutEdges(es + fs, x)| > 0 && OutEdges(es + fs, x)[0] == OutEdges(es, x)[0]
  {
    OutEdgesConcat(es, fs, x);
  }

  /** The run has a first and a last node, and these an edge in and an edge out; the code panics otherwise. */
  predicate HasEnds<N, E>(g: Graph<N, E>, run: seq<nat>) {
    && |run| > 0 && Injective(run) && AllBelow(run, |g.nodes|)
    && InEdges(g.edges, run[0]) != [] && OutEdges(g.edges, run[|run| - 1]) != []
  }

  function FirstIn<N, E>(g: Graph<N, E>, run: seq<nat>): Edge<E>
    requires HasEnds(g, run)
  {
    InEdges(g.edges, run[0])[0]
  }

  function FirstOut<N, E>(g: Graph<N, E>, run: seq<nat>): Edge<E>
    requires HasEnds(g, run)
  {
    OutEdges(g.edges, run[|run| - 1])[0]
  }

  lemma {:induction false} EndsInside<N(!new), E(!new)>(g: Graph<N, E>, run: seq<nat>)
    requires Valid(g) && HasEnds(g, run)
    ensures FirstIn(g, run).src < |g.nodes| && FirstOut(g, run).tgt < |g.nodes|
  {
    var e, f := FirstIn(g, run), FirstOut(g, run);
    InEdgesAre(g.edges, run[0]);
    OutEdgesAre(g.edges, run[|run| - 1]);
    assert e in InEdges(g.edges, run[0]);
    assert f in OutEdges(g.edges, run[|run| - 1]);
  }

  lemma {:induction false} ExtendedValid<N(!new), E(!new)>(g: Graph<N, E>, entry: Edge<E>, exit: Edge<E>, vs: seq<N>,
                                                           fs: seq<E>)
    requires Valid(g) && entry.src < |g.nodes| && exit.tgt < |g.nodes| && |vs| == |fs| > 0
    ensures Valid(ExtendedBy(g, entry, exit, vs, fs))
  {
  }

  /** The graph once the first k + 1 nodes of the new path and the edges into them are added. */
  function Prefix<N, E>(g: Graph<N, E>, entry: Edge<E>, exit: Edge<E>, vs: seq<N>, fs: seq<E>, k: nat): (p: Graph<N, E>)
    requires |vs| == |fs| > k
    ensures |p.nodes| == |g.nodes| + k + 1
  {
    Graph(g.nodes + vs[..k + 1], g.edges + NewEdges(|g.nodes|, entry.src, exit.tgt, fs, exit.weight)[..k + 1])
  }

  lemma {:induction false} PrefixStart<N(!new), E(!new)>(g: Graph<N, E>, entry: Edge<E>, exit: Edge<E>, vs: seq<N>,
                                                         fs: seq<E>)
    requires |vs| == |fs| > 0
    ensures Prefix(g, entry, exit, vs, fs, 0) == Graph(g.nodes + [vs[0]], g.edges + [Edge(entry.src, |g.nodes|, fs[0])])
  {
  }

  lemma {:induction false} PrefixStep<N(!new), E(!new)>(g: Graph<N, E>, entry: Edge<E>, exit: Edge<E>, vs: seq<N>,
                                                        fs: seq<E>, k: nat)
    requires |vs| == |fs| > k + 1
    ensures var p := Prefix(g, entry, exit, vs, fs, k);
            Prefix(g, entry, exit, vs, fs, k + 1)
            == Graph(p.nodes + [vs[k + 1]], p.edges + [Edge(|g.nodes| + k, |g.nodes| + k + 1, fs[k + 1])])
  {
    var path := NewEdges(|g.nodes|, entry.src, exit.tgt, fs, exit.weight);
    assert path[..k + 2] == path[..k + 1] + [path[k + 1]];
    assert vs[..k + 2] == vs[..k + 1] + [vs[k + 1]];
  }

  lemma {:induction false} PrefixEnd<N(!new), E(!new)>(g: Graph<N, E>, entry: Edge<E>, exit: Edge<E>, vs: seq<N>,
                                                       fs: seq<E>, x: nat)
    requires |vs| == |fs| > 0 && OutEdges(g.edges, x) != []
    ensures var p := Prefix(g, entry, exit, vs, fs, |fs| - 1);
            && |OutEdges(p.edges, x)| > 0 && OutEdges(p.edges, x)[0] == OutEdges(g.edges, x)[0]
            && ExtendedBy(g, entry, exit, vs, fs)
            == Graph(p.nodes, p.edges + [Edge(|g.nodes| + |fs| - 1, exit.tgt, exit.weight)])
  {
    var path := NewEdges(|g.nodes|, entry.src, exit.tgt, fs, exit.weight);
    OldestOut(g.edges, path[..|fs|], x);
    assert path == path[..|fs|] + [path[|fs|]];
    assert vs[..|vs|] == vs;
  }

  /**
   * Every node outside the run survives with all its edges to other survivors, up to
   * renaming, and a new path runs from the source of the oldest edge into the run to the
   * target of the oldest edge out of it. If the run is a path with one way in and one way
   * out, these are its only edges to the outside: the run is contracted and nothing is lost.
   */
  method ReplaceRun<N(!new), E(!new)>(graph: DiGraph<N, E>, run: seq<nat>, node: N, additional: seq<(E, N)>)
      returns (ghost names: seq<nat>)
    requires Valid(graph.View()) && HasEnds(graph.View(), run)
    modifies graph
    ensures var g := old(graph.View());
            Without(graph.View(), ExtendedBy(g, FirstIn(g, run), FirstOut(g, run), NodesOf(node, additional),
                                             WeightsOf(FirstIn(g, run).weight, additional)), names, RunSet(run))
    ensures SinglePath(old(graph.View()), run) ==>
              Replaced(graph.View(), old(graph.View()), names, run, NodesOf(node, additional),
                       WeightsOf(Entry(old(graph.View()), run).weight, additional))
    ensures |graph.nodes| == |old(graph.nodes)| - |run| + 1 + |additional|
  {
    ghost var g := graph.View();
    ghost var vs, fs := NodesOf(node, additional), WeightsOf(FirstIn(g, run).weight, additional);
    EndsInside(g, run);
    AddPath(graph, run, node, additional);
    ExtendedValid(g, FirstIn(g, run), FirstOut(g, run), vs, fs);
    assert graph.nodes == g.nodes + vs && AllBelow(run, |graph.nodes|) && Injective(run);
    hide Valid, Without, ExtendedBy, Injective, HasEnds, InEdges, OutEdges;
    names := RemoveAll(graph, run);
  }

  method AddPath<N(!new), E(!new)>(graph: DiGraph<N, E>, run: seq<nat>, node: N, additional: seq<(E, N)>)
    requires Valid(graph.View()) && HasEnds(graph.View(), run)
    modifies graph
    ensures var g := old(graph.View());
            graph.View() == ExtendedBy(g, FirstIn(g, run), FirstOut(g, run), NodesOf(node, additional),
                                       WeightsOf(FirstIn(g, run).weight, additional))
  {
    ghost var g := graph.View();
    ghost var entry, exit := FirstIn(g, run), FirstOut(g, run);
    ghost var vs, fs := NodesOf(node, additional), WeightsOf(entry.weight, additional);
    EndsInside(g, run);
    PrefixStart(g, entry, exit, vs, fs);
    var upstream := InEdges(graph.edges, run[0])[0];
    hide NewEdges, OutEdges, InEdges, Valid, Prefix, ExtendedBy;
    var last := graph.AddNode(node);
    graph.AddEdge(upstream.src, last, upstream.weight);
    var k := 0;
    while k < |additional|
      invariant 0 <= k <= |additional| && last == |g.nodes| + k
      invariant graph.View() == Prefix(g, entry, exit, vs, fs, k)
    {
      PrefixStep(g, entry, exit, vs, fs, k);
      var next := graph.AddNode(additional[k].1);
      graph.AddEdge(last, next, additional[k].0);
      last := next;
      k := k + 1;
    }
    PrefixEnd(g, entry, exit, vs, fs, run[|run| - 1]);
    var downstream := OutEdges(graph.edges, run[|run| - 1])[0];
    graph.AddEdge(last, downstream.tgt, downstream.weight);
  }

  /**
   * A run that is entered from outside by several edges: whatever the streams are, the first
   * node of the new path is fed by the oldest of these edges alone, so it is fed as the run
   * was if and only if there is just one.
   */
  lemma {:induction false} InputsKeptIffSingle<N(!new), E(!new), S(!new)>(g: Graph<N, E>, h: Graph<N, E>, names: seq<nat>,
        run: seq<nat>,
                                                                         vs: seq<N>, fs: seq<E>, i: nat, mid: nat -> S, out: nat -> S)
    requires Valid(g) && HasEnds(g, run) && |vs| == |fs| > 0 && FirstIn(g, run).src !in run && FirstOut(g, run).tgt !in run
    requires Without(h, ExtendedBy(g, FirstIn(g, run), FirstOut(g, run), vs, fs), names, RunSet(run))
    requires i < |names| && names[i] == |g.nodes| && fs[0] == FirstIn(g, run).weight
    requires forall j :: 0 <= j < |names| ==> out(j) == mid(names[j])
    ensures Feeds(h.edges, i, out) == multiset{(FirstIn(g, run).weight, mid(FirstIn(g, run).src))}
    ensures Feeds(h.edges, i, out) == Feeds(g.edges, run[0], mid) <==> |InEdges(g.edges, run[0])| == 1
  {
    EndsInside(g, run);
    NewNodeInputs(g, FirstIn(g, run), FirstOut(g, run), vs, fs, RunSet(run), mid);
    FeedsMapped(h.edges, names, i, out, mid);
    FeedsCount(g.edges, run[0], mid);
    if |InEdges(g.edges, run[0])| == 1 {
      var e := FirstIn(g, run);
      InEdgesAre(g.edges, run[0]);
      assert e in InEdges(g.edges, run[0]);
      assert InEdges(g.edges, run[0]) == [e];
      SingleFeed(g.edges, run[0], mid, e);
    }
  }

  /** The first node of the new path has one input, whatever the run had. */
  lemma {:induction false} NewNodeInputs<N(!new), E(!new), S(!new)>(g: Graph<N, E>, entry: Edge<E>, exit: Edge<E>,
                                                                    vs: seq<N>, fs: seq<E>,
                                                                   dead: set<nat>, mid: nat -> S)
    requires Valid(g) && entry.src < |g.nodes| && exit.tgt < |g.nodes| && |fs| > 0
    requires entry.src !in dead && exit.tgt !in dead && forall x: nat :: x in dead ==> x < |g.nodes|
    ensures Feeds(Kept(ExtendedBy(g, entry, exit, vs, fs).edges, dead), |g.nodes|, mid) == multiset{(fs[0], mid(entry.src))}
  {
    var n := |g.nodes|;
    var path := NewEdges(n, entry.src, exit.tgt, fs, exit.weight);
    KeptUntouched(path, dead);
    KeptConcat(g.edges, path, dead);
    FeedsConcat(Kept(g.edges, dead), path, n, mid);
    NewFeeds(n, entry.src, exit, fs, n, mid);
    KeptFeedsNoNew(g, dead, n, mid);
    hide Feeds, Kept, NewEdges, ExtendedBy;
    SumEmpty(FromNewEdges(n, entry.src, exit, fs, n, mid));
  }

  /** Two sources, a run of two nodes that both feed, and a sink. */
  function TwoEntries(): Graph<int, string> {
    Graph([0, 1, 2, 3, 4], [Edge(0, 2, "a"), Edge(1, 2, "b"), Edge(2, 3, "c"), Edge(3, 4, "d")])
  }

  lemma {:induction false} EdgesAppend<E(!new)>(es: seq<Edge<E>>, e: Edge<E>, i: nat, dead: set<nat>)
    ensures InEdges(es + [e], i) == InEdges(es, i) + if e.tgt == i then [e] else []
    ensures OutEdges(es + [e], i) == OutEdges(es, i) + if e.src == i then [e] else []
    ensures Kept(es + [e], dead) == Kept(es, dead) + if e.src in dead || e.tgt in dead then [] else [e]
  {
    assert (es + [e])[..|es|] == es;
  }

  lemma {:induction false} FourEdges<E(!new)>(a: Edge<E>, b: Edge<E>, c: Edge<E>, d: Edge<E>, x: nat, y: nat,
                                              dead: set<nat>)
    requires a.tgt == b.tgt == x && c.tgt != x && d.tgt != x
    requires a.src != y && b.src != y && c.src != y && d.src == y
    requires x in dead && y in dead && c.src in dead
    ensures InEdges([a, b, c, d], x) == [a, b] && OutEdges([a, b, c, d], y) == [d] && Kept([a, b, c, d], dead) == []
  {
    NoEdges<E>(x, dead);
    NoEdges<E>(y, dead);
    hide *;
    assert [] + [a] == [a] && [a] + [b] == [a, b] && [a, b] + [c] == [a, b, c] && [a, b, c] + [d] == [a, b, c, d];
    EdgesAppend([], a, x, dead);
    EdgesAppend([a], b, x, dead);
    EdgesAppend([a, b], c, x, dead);
    EdgesAppend([a, b, c], d, x, dead);
    EdgesAppend([], a, y, dead);
    EdgesAppend([a], b, y, dead);
    EdgesAppend([a, b], c, y, dead);
    EdgesAppend([a, b, c], d, y, dead);
  }

  lemma {:induction false} TwoEntriesLeft()
    ensures var g := TwoEntries();
            && Valid(g) && HasEnds(g, [2, 3])
            && FirstIn(g, [2, 3]) == Edge(0, 2, "a") && FirstOut(g, [2, 3]) == Edge(3, 4, "d")
            && Kept(ExtendedBy(g, Edge(0, 2, "a"), Edge(3, 4, "d"), [5], ["a"]).edges, {2, 3})
            == [Edge(0, 5, "a"), Edge(5, 4, "d")]
  {
    hide InEdges, OutEdges, Kept;
    var a, b, c, d := Edge(0, 2, "a"), Edge(1, 2, "b"), Edge(2, 3, "c"), Edge(3, 4, "d");
    var added, dead: set<nat> := NewEdges(5, 0, 4, ["a"], "d"), {2, 3};
    FourEdges(a, b, c, d, 2, 3, dead);
    assert added == [Edge(0, 5, "a"), Edge(5, 4, "d")];
    KeptConcat(TwoEntries().edges, added, dead);
    KeptUntouched(added, dead);
  }

  lemma {:induction false} NoEdges<E(!new)>(i: nat, dead: set<nat>)
    ensures InEdges<E>([], i) == [] && OutEdges<E>([], i) == [] && Kept<E>([], dead) == []
  {
  }

  /** The edges that are left come from source 0 and from the new node. */
  lemma {:induction false} SourceOneIsUnread(h: Graph<int, string>, names: seq<nat>)
    requires Without(h, ExtendedBy(TwoEntries(), Edge(0, 2, "a"), Edge(3, 4, "d"), [5], ["a"]), names, {2, 3})
    ensures 1 in h.nodes && |h.edges| == 2
    ensures forall k :: 0 <= k < |h.edges| ==> h.edges[k].src < |h.nodes| && h.nodes[h.edges[k].src] != 1
  {
    TwoEntriesLeft();
    var ext := ExtendedBy(TwoEntries(), Edge(0, 2, "a"), Edge(3, 4, "d"), [5], ["a"]);
    assert ext.nodes == [0, 1, 2, 3, 4, 5];
    assert 1 in names;
    var i :| 0 <= i < |names| && names[i] == 1;
    assert h.nodes[i] == 1;
    assert Mapped(h.edges, names) == [Edge(0, 5, "a"), Edge(5, 4, "d")];
    forall k | 0 <= k < |h.edges|
      ensures h.edges[k].src < |h.nodes| && h.nodes[h.edges[k].src] != 1
    {
      assert Mapped(h.edges, names)[k].src == names[h.edges[k].src];
    }
  }

  /** Replacing the run keeps source 1 and drops its only edge: nothing reads it any more. */
  method ReplaceTwoEntries() returns (h: Graph<int, string>)
    ensures |h.nodes| == 4 && 1 in h.nodes && |h.edges| == 2
    ensures forall k :: 0 <= k < |h.edges| ==> h.edges[k].src < |h.nodes| && h.nodes[h.edges[k].src] != 1
  {
    TwoEntriesLeft();
    var graph := new DiGraph<int, string>(TwoEntries());
    hide Without, Valid, HasEnds, ExtendedBy;
    ghost var names := ReplaceRun(graph, [2, 3], 5, []);
    h := graph.View();
    assert NodesOf<int, string>(5, []) == [5] && WeightsOf<int, string>("a", []) == ["a"];
    assert RunSet([2, 3]) == {2, 3};
    SourceOneIsUnread(h, names);
  }
}
