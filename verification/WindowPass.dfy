// The pass that folds aggregates into windows: a depth-first search from every source for the
// next aggregate to fold, and a new search after every fold.
module WindowPass {
  import opened Messages
  import opened Digraphs
  import opened Dataflow
  import opened PathReplacement
  import opened Shapes
  import opened Search
  import opened EdgeArrays
  import opened NodeRemoval
  import opened Parallelism
  import opened WindowFusion

  /** What the pass knows of operators and edges. */
  datatype WindowRules<!N, !E> = WindowRules(
    window: N -> bool,         // a window without an aggregate
    aggregate: N -> bool,      // count, min, max or sum
    fuse: (N, N) -> N,         // the window with the aggregate
    forward: E -> bool)

  /** x is an aggregate whose only input is a window without one, over a forward edge. */
  predicate Fusable<N, E>(g: Graph<N, E>, rules: WindowRules<N, E>, x: nat) {
    && x < |g.nodes| && |InEdges(g.edges, x)| == 1 && rules.forward(InEdges(g.edges, x)[0].weight)
    && Parent(g.edges, x) < |g.nodes| && rules.window(g.nodes[Parent(g.edges, x)]) && rules.aggregate(g.nodes[x])
  }

  /** No operator is both. */
  ghost predicate Apart<N(!new), E(!new)>(rules: WindowRules<N, E>) {
    forall n :: !(rules.window(n) && rules.aggregate(n))
  }

  /** The fused window does what the window and then the aggregate do. */
  ghost predicate FusesWindows<N(!new), E(!new), S(!new)>(sem: Sem<N, E, S>, rules: WindowRules<N, E>) {
    forall n, a, w :: rules.window(n) && rules.aggregate(a) && rules.forward(w) ==> FusesPair(sem, n, w, a, rules.fuse(n, a))
  }

  lemma {:induction false} FusableIs<N(!new), E(!new)>(g: Graph<N, E>, rules: WindowRules<N, E>, x: nat)
    requires Valid(g) && Apart(rules) && Fusable(g, rules, x)
    ensures InEdges(g.edges, x) != [] && OnlyInput(g, Parent(g.edges, x), x, InEdges(g.edges, x)[0])
  {
    var e := InEdges(g.edges, x)[0];
    InEdgesAre(g.edges, x);
    assert e in InEdges(g.edges, x);
    assert InEdges(g.edges, x) == [e];
  }

  // ---------- looking for the next aggregate ----------

  /** No node that a source leads to is to be folded. */
  ghost predicate NothingToFold<N(!new), E(!new)>(g: Graph<N, E>, rules: WindowRules<N, E>) {
    forall i: nat :: Reachable(g, i) ==> !Fusable(g, rules, i)
  }

  method FindFusable<N(!new), E(!new)>(g: Graph<N, E>, rules: WindowRules<N, E>) returns (x: Option<nat>)
    requires Valid(g)
    ensures x.Some? ==> Fusable(g, rules, x.value) && Reachable(g, x.value)
    ensures x.None? ==> NothingToFold(g, rules)
  {
    hide Valid, Reachable, Fusable;
    x := FindReachable(g, (i: nat) => Fusable(g, rules, i));
  }

  // ---------- runs of the pass ----------

  /** A plan graph with the slots of its edges. */
  datatype State<N, E> = State(graph: Graph<N, E>, slots: seq<nat>)

  /** x is to be folded into the window before it. */
  ghost predicate ToFold<N(!new), E(!new)>(rules: WindowRules<N, E>, s: State<N, E>, x: nat) {
    && Valid(s.graph) && Slotted(s.graph.edges, s.slots) && |s.slots| == |s.graph.edges|
    && Fusable(s.graph, rules, x) && Reachable(s.graph, x) && InEdges(s.graph.edges, x) != []
  }

  /** t is s with x folded. */
  ghost predicate FoldStep<N(!new), E(!new)>(rules: WindowRules<N, E>, s: State<N, E>, t: State<N, E>, x: nat,
                                             names: seq<nat>) {
    && ToFold(rules, s, x)
    && var g, p := s.graph, Parent(s.graph.edges, x);
       Folded(g, s.slots, t.graph, names, p, x, InEdges(g.edges, x)[0], rules.fuse(g.nodes[p], g.nodes[x]))
  }

  /** The states of a run of the pass; fold i takes state i to state i + 1 by folding xs[i]. */
  ghost predicate FoldRun<N(!new), E(!new)>(rules: WindowRules<N, E>, run: seq<State<N, E>>, xs: seq<nat>,
                                            names: seq<seq<nat>>) {
    && |run| == |xs| + 1 && |names| == |xs|
    && forall i :: 0 <= i < |xs| ==> FoldStep(rules, run[i], run[i + 1], xs[i], names[i])
  }

  ghost predicate HarmlessAt<N(!new), E(!new)>(rules: WindowRules<N, E>, s: State<N, E>, x: nat) {
    && ToFold(rules, s, x)
    && Harmless(s.graph, s.slots, Parent(s.graph.edges, x), x, InEdges(s.graph.edges, x)[0])
  }

  ghost predicate AllHarmless<N(!new), E(!new)>(rules: WindowRules<N, E>, run: seq<State<N, E>>, xs: seq<nat>) {
    |run| >= |xs| && forall i :: 0 <= i < |xs| ==> HarmlessAt(rules, run[i], xs[i])
  }

  lemma {:induction false} StepPreserves<N(!new), E(!new), S(!new)>(sem: Sem<N, E, S>, rules: WindowRules<N, E>,
                                                                    s: State<N, E>, t: State<N, E>, x: nat, names: seq<nat>)
    requires FoldStep(rules, s, t, x, names) && HarmlessAt(rules, s, x) && FusesWindows(sem, rules)
    ensures InEdges(s.graph.edges, x) != []
    ensures SameMeaning(sem, s.graph, t.graph, FusedNames(names, Parent(s.graph.edges, x), x))
  {
    var g, p, e := s.graph, Parent(s.graph.edges, x), InEdges(s.graph.edges, x)[0];
    assert FusesPair(sem, g.nodes[p], e.weight, g.nodes[x], rules.fuse(g.nodes[p], g.nodes[x]));
    hide FusesPair, FusesWindows, SameMeaning, FusedNames, Folded, Harmless, Reachable;
    PairPreserves(sem, g, s.slots, t.graph, names, p, x, e, rules.fuse(g.nodes[p], g.nodes[x]));
  }

  /** A run of harmless folds preserves the meaning of the graph. */
  lemma {:induction false} HarmlessRun<N(!new), E(!new), S(!new)>(sem: Sem<N, E, S>, rules: WindowRules<N, E>,
                                                                  run: seq<State<N, E>>, xs: seq<nat>,
                                                                  names: seq<seq<nat>>) returns (all: seq<Name>)
    requires FoldRun(rules, run, xs, names) && AllHarmless(rules, run, xs) && FusesWindows(sem, rules)
    ensures SameMeaning(sem, run[0].graph, run[|xs|].graph, all)
    decreases |xs|
  {
    if xs == [] {
      all := SameNames(|run[0].graph.nodes|);
      SameMeaningRefl(sem, run[0].graph);
    } else {
      var k := |xs| - 1;
      hide FoldStep, HarmlessAt, FusesWindows, SameMeaning, Composed, FusedNames;
      var front := HarmlessRun(sem, rules, run[..|xs|], xs[..k], names[..k]);
      assert FoldStep(rules, run[k], run[k + 1], xs[k], names[k]) && HarmlessAt(rules, run[k], xs[k]);
      StepPreserves(sem, rules, run[k], run[k + 1], xs[k], names[k]);
      var later := FusedNames(names[k], Parent(run[k].graph.edges, xs[k]), xs[k]);
      SameMeaningComposes(sem, run[0].graph, run[k].graph, run[k + 1].graph, front, later);
      all := Composed(front, later);
    }
  }

  // ---------- graphs with one output per node ----------

  lemma {:induction false} OneConsumer<N(!new), E(!new)>(g: Graph<N, E>, p: nat, x: nat, e: Edge<E>)
    requires OnlyInput(g, p, x, e) && OneOut(g)
    ensures OutEdges(g.edges, p) == [e]
  {
    InEdgesAre(g.edges, x);
    OutEdgesAre(g.edges, p);
    assert e in InEdges(g.edges, x);
    assert e in OutEdges(g.edges, p);
    Only(OutEdges(g.edges, p), e);
  }

  /** With at most one edge out of x no round can go wrong. */
  lemma {:induction false} FewOut<N(!new), E(!new)>(g: Graph<N, E>, slots: seq<nat>, p: nat, x: nat, e: Edge<E>)
    requires OnlyInput(g, p, x, e) && Slotted(g.edges, slots) && |OutEdges(g.edges, x)| <= 1
    ensures |slots| == |g.edges| && InEdges(g.edges, x) != [] && StaleRound(g.edges, slots, x) == 0
  {
    TakenIs(g, slots, p, x, e);
  }

  lemma {:induction false} KeptOut<E(!new)>(es: seq<Edge<E>>, dead: set<nat>, v: nat)
    ensures |OutEdges(Kept(es, dead), v)| <= |OutEdges(es, v)|
    decreases |es|
  {
    if es != [] {
      var front, last := es[..|es| - 1], es[|es| - 1];
      KeptOut(front, dead, v);
      if last.src in dead || last.tgt in dead {
        assert Kept(es, dead) == Kept(front, dead);
      } else {
        OutAppend(Kept(front, dead), last, v);
      }
    }
  }

  lemma {:induction false} OutAtMost<E(!new)>(es: seq<Edge<E>>, v: nat)
    ensures |OutEdges(es, v)| <= |es|
    decreases |es|
  {
    if es != [] {
      OutAtMost(es[..|es| - 1], v);
    }
  }

  lemma {:induction false} RewiredOut<N(!new), E(!new)>(g: Graph<N, E>, p: nat, x: nat, e: Edge<E>, v: nat)
    requires Valid(g) && OnlyInput(g, p, x, e) && OutEdges(g.edges, p) == [e] && OneOut(g) && v != x && v < |g.nodes|
    ensures |OutEdges(Kept(Rewired(g, x, p).edges, {x}), v)| <= 1
  {
    var kept, outs, moved := Kept(g.edges, {x}), OutEdges(g.edges, x), Moved(OutEdges(g.edges, x), p);
    assert |outs| <= 1 && |OutEdges(g.edges, v)| <= 1 && |moved| == |outs|;
    OutSources(g.edges, x, p);
    KeptSources(g, p, x, e);
    hide OutEdges, Kept, Moved, Rewired, OneOut, Valid, OnlyInput;
    RewiredKept(g, x, p);
    OutEdgesConcat(kept, Kept(moved, {x}), v);
    KeptOut(g.edges, {x}, v);
    KeptOut(moved, {x}, v);
    OutAtMost(moved, v);
    if v == p {
      OutOfNone(kept, v);
    } else {
      OutOfNone(moved, v);
    }
  }

  /** A graph with at most one output per node stays one. */
  lemma {:induction false} StaysOneOut<N(!new), E(!new)>(g: Graph<N, E>, h: Graph<N, E>, names: seq<nat>, p: nat, x: nat,
                                                         e: Edge<E>, n: N)
    requires FusedPair(g, h, names, p, x, e, n) && OneOut(g)
    ensures Valid(h) && OneOut(h)
  {
    OneConsumer(g, p, x, e);
    var r := Rewired(WithNode(g, p, n), x, p);
    PairNodes(g, h, names, p, x, e, n);
    forall i: nat | i < |h.nodes|
      ensures |OutEdges(h.edges, i)| <= 1
    {
      OutMapped(h.edges, names, i);
      RewiredOut(g, p, x, e, names[i]);
      assert r.edges == Rewired(g, x, p).edges;
    }
  }

  /** On a graph with at most one output per node a fold is harmless and leaves such a graph. */
  lemma {:induction false} OneOutStep<N(!new), E(!new)>(rules: WindowRules<N, E>, s: State<N, E>, t: State<N, E>, x: nat,
                                                        names: seq<nat>)
    requires FoldStep(rules, s, t, x, names) && OneOut(s.graph)
    ensures HarmlessAt(rules, s, x) && OneOut(t.graph)
  {
    var g, p, e := s.graph, Parent(s.graph.edges, x), InEdges(s.graph.edges, x)[0];
    var n := rules.fuse(g.nodes[p], g.nodes[x]);
    assert OnlyInput(g, p, x, e) && |OutEdges(g.edges, x)| <= 1;
    hide OutEdges, InEdges, StaleRound, OneOut, Without, Slotted, Reachable;
    OneConsumer(g, p, x, e);
    FewOut(g, s.slots, p, x, e);
    FoldedIsPair(g, s.slots, t.graph, names, p, x, e, n);
    StaysOneOut(g, t.graph, names, p, x, e, n);
  }

  lemma {:induction false} OneOutRun<N(!new), E(!new)>(rules: WindowRules<N, E>, run: seq<State<N, E>>, xs: seq<nat>,
                                                       names: seq<seq<nat>>)
    requires FoldRun(rules, run, xs, names) && OneOut(run[0].graph)
    ensures AllHarmless(rules, run, xs) && OneOut(run[|xs|].graph)
    decreases |xs|
  {
    if xs != [] {
      var k := |xs| - 1;
      hide FoldStep, HarmlessAt, OneOut;
      OneOutRun(rules, run[..|xs|], xs[..k], names[..k]);
      assert FoldStep(rules, run[k], run[k + 1], xs[k], names[k]);
      OneOutStep(rules, run[k], run[k + 1], xs[k], names[k]);
      forall i | 0 <= i < |xs|
        ensures HarmlessAt(rules, run[i], xs[i])
      {
        if i < k {
          assert HarmlessAt(rules, run[..|xs|][i], xs[..k][i]);
        }
      }
    }
  }

  // ---------- forward edges ----------

  lemma {:induction false} RewiredMatches<N(!new), E(!new)>(g: Graph<N, E>, forward: E -> bool, par: N -> nat, p: nat,
                                                            x: nat,
                                                           e: Edge<E>, n: N, f: Edge<E>)
    requires Valid(g) && ForwardMatches(g, forward, par) && OnlyInput(g, p, x, e) && forward(e.weight)
    requires par(n) == par(g.nodes[p]) && f in Rewired(WithNode(g, p, n), x, p).edges && forward(f.weight)
    ensures EdgeMatches(Rewired(WithNode(g, p, n), x, p), par, f)
  {
    InEdgesAre(g.edges, x);
    assert e in InEdges(g.edges, x);
    assert EdgeMatches(g, par, e);
    var outs := OutEdges(g.edges, x);
    OutEdgesAre(g.edges, x);
    hide InEdges, OutEdges;
    if f in g.edges {
      assert EdgeMatches(g, par, f);
    } else {
      var k :| 0 <= k < |outs| && Moved(outs, p)[k] == f;
      var o := outs[|outs| - 1 - k];
      assert o in outs;
      assert EdgeMatches(g, par, o);
    }
  }

  /** A fold in which no edge goes missing keeps forward edges between nodes of equal parallelism. */
  lemma {:induction false} FoldKeepsForward<N(!new), E(!new)>(g: Graph<N, E>, slots: seq<nat>, h: Graph<N, E>,
                                                             forward: E -> bool, par: N -> nat, names: seq<nat>, p: nat,
                                                             x: nat, e: Edge<E>, n: N)
    requires Folded(g, slots, h, names, p, x, e, n) && |slots| == |g.edges| && InEdges(g.edges, x) != []
    requires StaleRound(g.edges, slots, x) == 0
    requires ForwardMatches(g, forward, par) && forward(e.weight) && p < |g.nodes| && par(n) == par(g.nodes[p])
    ensures ForwardMatches(h, forward, par)
  {
    hide *;
    FoldedIsPair(g, slots, h, names, p, x, e, n);
    PairKeepsForward(g, h, forward, par, names, p, x, e, n);
  }

  lemma {:induction false} PairKeepsForward<N(!new), E(!new)>(g: Graph<N, E>, h: Graph<N, E>, forward: E -> bool,
                                                             par: N -> nat, names: seq<nat>, p: nat, x: nat, e: Edge<E>, n: N)
    requires FusedPair(g, h, names, p, x, e, n)
    requires ForwardMatches(g, forward, par) && forward(e.weight) && p < |g.nodes| && par(n) == par(g.nodes[p])
    ensures ForwardMatches(h, forward, par)
  {
    forall f | f in h.edges && forward(f.weight)
      ensures EdgeMatches(h, par, f)
    {
      hide *;
      PairIs(g, h, names, p, x, e, n);
      var was := EdgeWas(g, h, names, p, x, e, n, f);
      RewiredMatches(g, forward, par, p, x, e, n, was);
      StillMatches(g, h, names, p, x, e, n, f, was, par);
    }
  }

  /** An edge of the new graph, in the rewired one. */
  lemma {:induction false} EdgeWas<N(!new), E(!new)>(g: Graph<N, E>, h: Graph<N, E>, names: seq<nat>, p: nat, x: nat,
                                                    e: Edge<E>, n: N, f: Edge<E>) returns (was: Edge<E>)
    requires FusedPair(g, h, names, p, x, e, n) && f in h.edges && p < |g.nodes|
    ensures was in Rewired(WithNode(g, p, n), x, p).edges && was.weight == f.weight
    ensures was == Edge(NameOf(names, f.src), NameOf(names, f.tgt), f.weight)
  {
    var r := Rewired(WithNode(g, p, n), x, p);
    KeptAre(r.edges, {x});
    assert Mapped(h.edges, names) == Kept(r.edges, {x});
    hide *;
    var k :| 0 <= k < |h.edges| && h.edges[k] == f;
    was := MappedOne(h.edges, names, k);
    assert was in Kept(r.edges, {x});
  }

  lemma {:induction false} MappedOne<E(!new)>(es: seq<Edge<E>>, names: seq<nat>, k: nat) returns (was: Edge<E>)
    requires k < |es|
    ensures was in Mapped(es, names) && was == Edge(NameOf(names, es[k].src), NameOf(names, es[k].tgt), es[k].weight)
  {
    was := Mapped(es, names)[k];
  }

  lemma {:induction false} StillMatches<N(!new), E(!new)>(g: Graph<N, E>, h: Graph<N, E>, names: seq<nat>, p: nat, x: nat,
                                                         e: Edge<E>, n: N, f: Edge<E>, was: Edge<E>, par: N -> nat)
    requires FusedPair(g, h, names, p, x, e, n) && f in h.edges && p < |g.nodes|
    requires was == Edge(NameOf(names, f.src), NameOf(names, f.tgt), f.weight)
    requires EdgeMatches(Rewired(WithNode(g, p, n), x, p), par, was)
    ensures EdgeMatches(h, par, f)
  {
    hide Kept, Mapped, OutEdges, InEdges, Moved;
  }

  lemma {:induction false} PairIs<N(!new), E(!new)>(g: Graph<N, E>, h: Graph<N, E>, names: seq<nat>, p: nat, x: nat,
                                                    e: Edge<E>, n: N)
    requires FusedPair(g, h, names, p, x, e, n)
    ensures Valid(g) && OnlyInput(g, p, x, e)
  {
  }

  /** The fused window has the parallelism of the window. */
  ghost predicate KeepsParallelism<N(!new), E(!new)>(rules: WindowRules<N, E>, par: N -> nat) {
    forall n, a :: par(rules.fuse(n, a)) == par(n)
  }

  lemma {:induction false} HarmlessForward<N(!new), E(!new)>(rules: WindowRules<N, E>, par: N -> nat, run: seq<State<N, E>>,
                                                            xs: seq<nat>, names: seq<seq<nat>>)
    requires FoldRun(rules, run, xs, names) && AllHarmless(rules, run, xs) && KeepsParallelism(rules, par)
    requires ForwardMatches(run[0].graph, rules.forward, par)
    ensures ForwardMatches(run[|xs|].graph, rules.forward, par)
    decreases |xs|
  {
    if xs != [] {
      var k := |xs| - 1;
      hide FoldStep, HarmlessAt, ForwardMatches;
      HarmlessForward(rules, par, run[..|xs|], xs[..k], names[..k]);
      assert FoldStep(rules, run[k], run[k + 1], xs[k], names[k]) && HarmlessAt(rules, run[k], xs[k]);
      StepForward(rules, par, run[k], run[k + 1], xs[k], names[k]);
    }
  }

  lemma {:induction false} StepForward<N(!new), E(!new)>(rules: WindowRules<N, E>, par: N -> nat, s: State<N, E>,
                                                        t: State<N, E>, x: nat, names: seq<nat>)
    requires FoldStep(rules, s, t, x, names) && HarmlessAt(rules, s, x) && KeepsParallelism(rules, par)
    requires ForwardMatches(s.graph, rules.forward, par)
    ensures ForwardMatches(t.graph, rules.forward, par)
  {
    var g, p, e := s.graph, Parent(s.graph.edges, x), InEdges(s.graph.edges, x)[0];
    hide Folded, ForwardMatches, StaleRound, Reachable;
    FoldKeepsForward(g, s.slots, t.graph, rules.forward, par, names, p, x, e, rules.fuse(g.nodes[p], g.nodes[x]));
  }

  // ---------- the pass ----------

  /** Folds one aggregate into its window. */
  method FuseOne<N(!new), E(!new)>(graph: EdgeGraph<N, E>, rules: WindowRules<N, E>, x: nat) returns (ghost names: seq<nat>)
    requires graph.Good() && Apart(rules) && Fusable(graph.View(), rules, x) && Reachable(graph.View(), x)
    modifies graph
    ensures graph.Good() && |graph.nodes| == |old(graph.nodes)| - 1
    ensures FoldStep(rules, State(old(graph.View()), old(graph.slots)), State(graph.View(), graph.slots), x, names)
  {
    ghost var g, slots := graph.View(), graph.slots;
    FusableIs(g, rules, x);
    SlotsMatch(graph.edges, graph.slots);
    ghost var s := State(g, slots);
    assert ToFold(rules, s, x);
    var incoming := InEdges(graph.edges, x);
    var p := incoming[|incoming| - 1].src;
    assert p == Parent(g.edges, x);
    graph.nodes := graph.nodes[p := rules.fuse(graph.nodes[p], graph.nodes[x])];
    assert graph.View() == WithNode(g, p, rules.fuse(g.nodes[p], g.nodes[x]));
    hide InEdges, OutEdges, Without, TakenOver, Reachable, Slotted;
    names := RemoveInPlace(graph, x);
  }

  /** One more fold. */
  lemma {:induction false} RunOn<N(!new), E(!new)>(rules: WindowRules<N, E>, run: seq<State<N, E>>, xs: seq<nat>,
                                                  names: seq<seq<nat>>, t: State<N, E>, x: nat, renamed: seq<nat>)
    requires FoldRun(rules, run, xs, names) && FoldStep(rules, run[|xs|], t, x, renamed)
    ensures FoldRun(rules, run + [t], xs + [x], names + [renamed])
  {
    hide FoldStep;
    var run', xs', names' := run + [t], xs + [x], names + [renamed];
    forall i | 0 <= i < |xs'|
      ensures FoldStep(rules, run'[i], run'[i + 1], xs'[i], names'[i])
    {
      if i < |xs| {
        assert FoldStep(rules, run[i], run[i + 1], xs[i], names[i]);
      }
    }
  }

  /**
   * The pass ends on every graph with nothing left to fold among the nodes that a source leads
   * to, after a run of folds. If these were all harmless, as they are on a graph with at most
   * one output per node, then the graph means what it meant.
   */
  method FuseWindowAggregation<N(!new), E(!new), S(!new)>(graph: EdgeGraph<N, E>, rules: WindowRules<N, E>,
                                                          ghost sem: Sem<N, E, S>)
      returns (ghost run: seq<State<N, E>>, ghost xs: seq<nat>, ghost names: seq<seq<nat>>, ghost all: seq<Name>)
    requires graph.Good() && Apart(rules)
    modifies graph
    ensures graph.Good() && |graph.nodes| <= |old(graph.nodes)| && NothingToFold(graph.View(), rules)
    ensures FoldRun(rules, run, xs, names)
    ensures run[0] == State(old(graph.View()), old(graph.slots)) && run[|xs|] == State(graph.View(), graph.slots)
    ensures AllHarmless(rules, run, xs) && FusesWindows(sem, rules) ==>
              SameMeaning(sem, old(graph.View()), graph.View(), all)
    ensures OneOut(old(graph.View())) ==> AllHarmless(rules, run, xs) && OneOut(graph.View())
  {
    GoodIs(graph);
    hide *;
    ghost var g := graph.View();
    run, xs, names, all := [State(graph.View(), graph.slots)], [], [], [];
    RunStart(rules, run[0]);
    var x := FindFusable(graph.View(), rules);
    while x.Some?
      invariant graph.Good() && |graph.nodes| <= |old(graph.nodes)|
      invariant |run| == |xs| + 1 && FoldRun(rules, run, xs, names)
      invariant run[0] == State(g, old(graph.slots)) && run[|xs|] == State(graph.View(), graph.slots)
      invariant x.Some? ==> Fusable(graph.View(), rules, x.value) && Reachable(graph.View(), x.value)
      invariant x.None? ==> NothingToFold(graph.View(), rules)
      decreases |graph.nodes|, x.Some?
    {
      ghost var renamed := FuseOne(graph, rules, x.value);
      ghost var t := State(graph.View(), graph.slots);
      RunOn(rules, run, xs, names, t, x.value, renamed);
      run, xs, names := run + [t], xs + [x.value], names + [renamed];
      GoodIs(graph);
      x := FindFusable(graph.View(), rules);
    }
    if OneOut(g) {
      OneOutRun(rules, run, xs, names);
    }
    if AllHarmless(rules, run, xs) && FusesWindows(sem, rules) {
      all := HarmlessRun(sem, rules, run, xs, names);
    }
  }

  lemma {:induction false} RunStart<N(!new), E(!new)>(rules: WindowRules<N, E>, s: State<N, E>)
    ensures FoldRun(rules, [s], [], [])
  {
  }
}
