// Forward edges connect each subtask to the subtask of the same index, so they may only join
// nodes of equal parallelism. Fusion keeps it so, and with it the whole optimizer loop.
module Parallelism {
  import opened Digraphs
  import opened Dataflow
  import opened Shapes
  import opened RunReplacement
  import opened GraphOptimizer

  /** Every forward edge joins nodes of equal parallelism. */
  ghost predicate ForwardMatches<N(!new), E(!new)>(g: Graph<N, E>, forward: E -> bool, par: N -> nat) {
    forall e :: e in g.edges && forward(e.weight) ==> EdgeMatches(g, par, e)
  }

  ghost predicate EdgeMatches<N(!new), E(!new)>(g: Graph<N, E>, par: N -> nat, e: Edge<E>) {
    e.src < |g.nodes| && e.tgt < |g.nodes| && par(g.nodes[e.src]) == par(g.nodes[e.tgt])
  }

  /** The nodes of a run, and the node before it, have one parallelism. */
  lemma {:induction false} RunIsUniform<N(!new), E(!new)>(g: Graph<N, E>, forward: E -> bool, par: N -> nat, run: seq<nat>,
                                                          j: nat)
    requires Valid(g) && ForwardMatches(g, forward, par) && GoodRun(g, forward, run) && j < |run|
    ensures par(g.nodes[run[j]]) == par(g.nodes[run[0]])
    decreases j
  {
    if j > 0 {
      RunIsUniform(g, forward, par, run, j - 1);
      assert Linked(g.edges, run[j - 1], run[j]);
      var e := InEdges(g.edges, run[j])[0];
      InEdgesAre(g.edges, run[j]);
      assert e in InEdges(g.edges, run[j]);
      assert EdgeMatches(g, par, e);
    }
  }

  lemma {:induction false} ExtendedMatches<N(!new), E(!new)>(g: Graph<N, E>, forward: E -> bool, par: N -> nat,
                                                             run: seq<nat>, n: N, e: Edge<E>)
    requires Valid(g) && ForwardMatches(g, forward, par) && GoodRun(g, forward, run) && par(n) == par(g.nodes[run[0]])
    requires e in Extended(g, run, [n], [Entry(g, run).weight]).edges && forward(e.weight)
    ensures EdgeMatches(Extended(g, run, [n], [Entry(g, run).weight]), par, e)
  {
    var x := Extended(g, run, [n], [Entry(g, run).weight]);
    assert x.nodes == g.nodes + [n];
    EntryAndExit(g, run);
    FusedEdges(g, run, n, e);
    RunIsUniform(g, forward, par, run, |run| - 1);
    hide InEdges, OutEdges, Extended;
    if e in g.edges {
      assert EdgeMatches(g, par, e);
    } else if e.src == |g.nodes| {
      assert EdgeMatches(g, par, Exit(g, run));
    } else {
      assert EdgeMatches(g, par, Entry(g, run));
    }
  }

  /** Replacing a run by a node of the parallelism of its first node keeps forward edges matched. */
  lemma {:induction false} FusionKeepsForward<N(!new), E(!new)>(g: Graph<N, E>, h: Graph<N, E>, forward: E -> bool,
                                                                par: N -> nat,
                                                               names: seq<nat>, run: seq<nat>, n: N)
    requires GoodRun(g, forward, run) && Replaced(h, g, names, run, [n], [Entry(g, run).weight])
    requires Valid(h) && ForwardMatches(g, forward, par) && par(n) == par(g.nodes[run[0]])
    ensures ForwardMatches(h, forward, par)
  {
    var x := Extended(g, run, [n], [Entry(g, run).weight]);
    KeptAre(x.edges, RunSet(run));
    forall e | e in h.edges && forward(e.weight)
      ensures EdgeMatches(h, par, e)
    {
      var k :| 0 <= k < |h.edges| && h.edges[k] == e;
      var old_ := Mapped(h.edges, names)[k];
      assert old_ in Kept(x.edges, RunSet(run));
      ExtendedMatches(g, forward, par, run, n, old_);
    }
  }

  /** A fused node takes the parallelism of the first node of its run. */
  ghost predicate TakesFirst<N(!new), E(!new)>(fuse: seq<(N, E)> -> Attempt<N>, par: N -> nat) {
    forall ws, es, w, n :: FusesTo(fuse, ws, es, w, n) ==> par(n) == par(ws[0])
  }

  /** Any number of fusions keep forward edges matched. */
  lemma {:induction false} FusionsKeepForward<N(!new), E(!new)>(rules: Rules<N, E>, par: N -> nat, g: Graph<N, E>,
                                                                h: Graph<N, E>, k: nat)
    requires FusionSteps(rules, g, h, k) && TakesFirst(rules.fuse, par) && Valid(g) && ForwardMatches(g, rules.forward, par)
    ensures Valid(h) && ForwardMatches(h, rules.forward, par)
    decreases k
  {
    hide *;
    var m := LastStep(rules, g, h, k);
    if k > 0 {
      FusionsKeepForward(rules, par, g, m, k - 1);
      StepKeepsForward(rules, par, m, h);
    }
  }

  lemma {:induction false} LastStep<N(!new), E(!new)>(rules: Rules<N, E>, g: Graph<N, E>, h: Graph<N, E>,
                                                      k: nat) returns (m: Graph<N, E>)
    requires FusionSteps(rules, g, h, k)
    ensures k == 0 ==> h == g
    ensures k > 0 ==> FusionSteps(rules, g, m, k - 1) && FusionStep(rules, m, h)
  {
    hide FusionStep;
    m := g;
    if k > 0 {
      m :| FusionSteps(rules, g, m, k - 1) && FusionStep(rules, m, h);
    }
  }

  lemma {:induction false} StepKeepsForward<N(!new), E(!new)>(rules: Rules<N, E>, par: N -> nat, g: Graph<N, E>,
                                                              h: Graph<N, E>)
    requires FusionStep(rules, g, h) && TakesFirst(rules.fuse, par) && Valid(g) && ForwardMatches(g, rules.forward, par)
    ensures Valid(h) && ForwardMatches(h, rules.forward, par)
  {
    var names, run, n :| FusedAt(rules, g, h, names, run, n);
    hide ForwardMatches, InEdges, OutEdges;
    assert par(n) == par(RunNodes(g, run)[0]);
    FusionKeepsForward(g, h, rules.forward, par, names, run, n);
  }

  /** The optimizer loop on a graph whose forward edges join equal parallelisms leaves such a graph. */
  method OptimizeForward<N(!new), E(==,!new), S(==,!new)>(graph: DiGraph<N, E>, rules: Rules<N, E>, ghost sem: Sem<N, E, S>,
                                                          ghost par: N -> nat)
      returns (panicked: bool)
    requires Shape(graph.View(), rules.can) && Faithful(sem, rules.fuse)
    requires TakesFirst(rules.fuse, par) && ForwardMatches(graph.View(), rules.forward, par)
    modifies graph
    ensures Valid(graph.View()) && ForwardMatches(graph.View(), rules.forward, par)
  {
    ghost var g := graph.View();
    ghost var names, steps;
    panicked, names, steps := Optimize(graph, rules, sem);
    hide ForwardMatches, FusionSteps;
    FusionsKeepForward(rules, par, g, graph.View(), steps);
  }
}
