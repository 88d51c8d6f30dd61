// The optimizer loop over a plan graph: walk the graph from its sources, collect runs of
// fusable nodes, replace the first run that can be fused, and start again until none can.
module GraphOptimizer {
  import opened Messages
  import opened Digraphs
  import opened Dataflow
  import opened PathReplacement
  import opened Shapes
  import opened RunReplacement
  import opened Search

  /** What an attempt to fuse a run comes to. */
  datatype Attempt<N> = FusedInto(node: N) | Declined | Panics

  /** can_optimize, try_optimize and the test for forward edges of one optimizer. */
  datatype Rules<!N, !E> = Rules(
    can: (N, seq<N>) -> bool,
    fuse: seq<(N, E)> -> Attempt<N>,
    forward: E -> bool)

  // ---------- the graphs on which runs are paths ----------

  /** No node without inputs and no node without outputs can be part of a run. */
  ghost predicate EndsAreFixed<N(!new), E(!new)>(g: Graph<N, E>, can: (N, seq<N>) -> bool) {
    forall i: nat, chain :: i < |g.nodes| && can(g.nodes[i], chain) ==>
      InEdges(g.edges, i) != [] && OutEdges(g.edges, i) != []
  }

  ghost predicate Shape<N(!new), E(!new)>(g: Graph<N, E>, can: (N, seq<N>) -> bool) {
    Valid(g) && OneOut(g) && EndsAreFixed(g, can)
  }

  lemma {:induction false} ShapeOutside<N(!new), E(!new)>(g: Graph<N, E>, h: Graph<N, E>, names: seq<nat>, run: seq<nat>,
                                                         vs: seq<N>, fs: seq<E>, can: (N, seq<N>) -> bool, i: nat, chain: seq<N>)
    requires Replaced(h, g, names, run, vs, fs) && Shape(g, can) && i < |h.nodes| && i < |names| && can(h.nodes[i], chain)
    ensures InEdges(h.edges, i) != [] && OutEdges(h.edges, i) != []
  {
    OutDegrees(g, h, names, run, vs, fs, i);
    assert Extended(g, run, vs, fs).nodes == g.nodes + vs;
    if names[i] < |g.nodes| {
      InDegreeOutside(g, h, names, run, vs, fs, i);
      assert h.nodes[i] == g.nodes[names[i]];
    } else {
      InDegreeInside(g, h, names, run, vs, fs, i);
    }
  }

  /** The rewritten graph is again one on which runs are paths. */
  lemma {:induction false} ShapeKept<N(!new), E(!new)>(g: Graph<N, E>, h: Graph<N, E>, names: seq<nat>, run: seq<nat>,
                                                      vs: seq<N>, fs: seq<E>, can: (N, seq<N>) -> bool)
    requires Replaced(h, g, names, run, vs, fs) && Shape(g, can)
    ensures Shape(h, can)
  {
    assert |names| == |h.nodes| && Valid(h);
    forall i: nat | i < |h.nodes|
      ensures |OutEdges(h.edges, i)| <= 1
    {
      OutDegrees(g, h, names, run, vs, fs, i);
    }
    forall i: nat, chain | i < |h.nodes| && can(h.nodes[i], chain)
      ensures InEdges(h.edges, i) != [] && OutEdges(h.edges, i) != []
    {
      ShapeOutside(g, h, names, run, vs, fs, can, i, chain);
    }
  }

  /** Every sink of g is a sink of h, with the same inputs. */
  ghost predicate SinksKept<N(!new), E(!new)>(g: Graph<N, E>, h: Graph<N, E>, names: seq<Name>) {
    && |names| == |h.nodes|
    && forall t: nat :: t < |g.nodes| && OutEdges(g.edges, t) == [] ==> SinkAt(g, h, names, t)
  }

  ghost predicate SinkAt<N(!new), E(!new)>(g: Graph<N, E>, h: Graph<N, E>, names: seq<Name>, t: nat)
    requires |names| == |h.nodes| && t < |g.nodes|
  {
    exists i: nat :: i < |names| && names[i] == Same(t) && h.nodes[i] == g.nodes[t] && OutEdges(h.edges, i) == []
  }

  lemma {:induction false} ReplacementKeepsSinks<N(!new), E(!new)>(g: Graph<N, E>, h: Graph<N, E>, names: seq<nat>,
                                                                   run: seq<nat>,
                                                                  vs: seq<N>, fs: seq<E>)
    requires Replaced(h, g, names, run, vs, fs)
    ensures SinksKept(g, h, OldNames(names, |g.nodes|, |vs|, run[|run| - 1]))
  {
    var o := OldNames(names, |g.nodes|, |vs|, run[|run| - 1]);
    forall t: nat | t < |g.nodes| && OutEdges(g.edges, t) == []
      ensures SinkAt(g, h, o, t)
    {
      NoSinkInRun(g, run, t);
      assert Extended(g, run, vs, fs).nodes == g.nodes + vs;
      var i := IndexOf(names, t);
      OutDegrees(g, h, names, run, vs, fs, i);
      assert o[i] == Same(t);
    }
  }

  lemma {:induction false} OneOutOfRun<N(!new), E(!new)>(g: Graph<N, E>, run: seq<nat>, j: nat)
    requires SinglePath(g, run) && j < |run|
    ensures |OutEdges(g.edges, run[j])| == 1
  {
    if j + 1 < |run| {
      var k := j + 1;
      assert Linked(g.edges, run[k - 1], run[k]);
    }
  }

  lemma {:induction false} NoSinkInRun<N(!new), E(!new)>(g: Graph<N, E>, run: seq<nat>, t: nat)
    requires SinglePath(g, run) && OutEdges(g.edges, t) == []
    ensures t !in run
  {
    forall j | 0 <= j < |run|
      ensures run[j] != t
    {
      OneOutOfRun(g, run, j);
    }
  }

  lemma {:induction false} SinksCompose<N(!new), E(!new)>(f: Graph<N, E>, g: Graph<N, E>, h: Graph<N, E>, names: seq<Name>,
                                                          later: seq<Name>)
    requires SinksKept(f, g, names) && SinksKept(g, h, later)
    ensures SinksKept(f, h, Composed(names, later))
  {
    forall t: nat | t < |f.nodes| && OutEdges(f.edges, t) == []
      ensures SinkAt(f, h, Composed(names, later), t)
    {
      assert SinkAt(f, g, names, t);
      var i: nat :| i < |names| && names[i] == Same(t) && g.nodes[i] == f.nodes[t] && OutEdges(g.edges, i) == [];
      assert SinkAt(g, h, later, i);
      var j: nat :| j < |later| && later[j] == Same(i) && h.nodes[j] == g.nodes[i] && OutEdges(h.edges, j) == [];
      assert Composed(names, later)[j] == Same(t);
    }
  }

  lemma {:induction false} SinksRefl<N(!new), E(!new)>(g: Graph<N, E>)
    ensures SinksKept(g, g, SameNames(|g.nodes|))
  {
    forall t: nat | t < |g.nodes| && OutEdges(g.edges, t) == []
      ensures SinkAt(g, g, SameNames(|g.nodes|), t)
    {
      assert SameNames(|g.nodes|)[t] == Same(t);
    }
  }

  // ---------- collecting runs ----------

  /** x is entered only from p, by a forward edge, and can be left. */
  ghost predicate Member<N(!new), E(!new)>(g: Graph<N, E>, forward: E -> bool, p: nat, x: nat) {
    && |InEdges(g.edges, x)| == 1 && InEdges(g.edges, x)[0].src == p && forward(InEdges(g.edges, x)[0].weight)
    && OutEdges(g.edges, x) != []
  }

  /** The run under construction is the end of the trail, after a node that is not part of it. */
  ghost predicate OpenRun<N(!new), E(!new)>(g: Graph<N, E>, forward: E -> bool, trail: seq<nat>, run: seq<nat>) {
    && |run| <= |trail| && run == trail[|trail| - |run|..] && (run != [] ==> |run| < |trail|)
    && forall k :: |trail| - |run| <= k < |trail| && 0 < k ==> Member(g, forward, trail[k - 1], trail[k])
  }

  /** A path of forward edges whose nodes have one input each. */
  ghost predicate GoodRun<N(!new), E(!new)>(g: Graph<N, E>, forward: E -> bool, run: seq<nat>) {
    && SinglePath(g, run)
    && forall j :: 0 <= j < |run| ==> |InEdges(g.edges, run[j])| == 1 && forward(InEdges(g.edges, run[j])[0].weight)
  }

  lemma {:induction false} NewMember<N(!new), E(!new)>(g: Graph<N, E>, rules: Rules<N, E>, p: nat, x: nat, chain: seq<N>)
    requires Shape(g, rules.can) && Follows(g, p, x)
    requires Joins(g, rules, x, chain)
    ensures Member(g, rules.forward, p, x)
  {
    OutEdgesAre(g.edges, p);
    InEdgesAre(g.edges, x);
    var e := OutEdges(g.edges, p)[0];
    assert e in OutEdges(g.edges, p);
    assert e in InEdges(g.edges, x);
    Only(InEdges(g.edges, x), e);
  }

  lemma {:induction false} ExtendRun<N(!new), E(!new)>(g: Graph<N, E>, forward: E -> bool, trail: seq<nat>, run: seq<nat>,
                                                       x: nat)
    requires trail != [] && OpenRun(g, forward, trail, run) && Member(g, forward, trail[|trail| - 1], x)
    ensures OpenRun(g, forward, trail + [x], run + [x])
  {
    hide Member;
    var longer := trail + [x];
    assert run + [x] == longer[|longer| - |run| - 1..];
    forall k | |longer| - |run| - 1 <= k < |longer| && 0 < k
      ensures Member(g, forward, longer[k - 1], longer[k])
    {
      if k < |trail| {
        assert Member(g, forward, trail[k - 1], trail[k]);
      }
    }
  }

  /** The node after the run is not one of its nodes. */
  lemma {:induction false} LeavesRun<N(!new), E(!new)>(g: Graph<N, E>, forward: E -> bool, trail: seq<nat>, run: seq<nat>,
                                                       e: Edge<E>)
    requires Trail(g, trail) && OpenRun(g, forward, trail, run) && run != []
    requires e in g.edges && e.src == trail[|trail| - 1]
    ensures e.tgt !in run
  {
    var a := |trail| - |run|;
    forall j | 0 <= j < |run|
      ensures run[j] != e.tgt
    {
      assert run[j] == trail[a + j];
      var k := a + j;
      assert Member(g, forward, trail[k - 1], trail[k]);
      if run[j] == e.tgt {
        InEdgesAre(g.edges, trail[k]);
        assert e in InEdges(g.edges, trail[k]);
        Only(InEdges(g.edges, trail[k]), e);
        assert false;
      }
    }
  }

  lemma {:induction false} RunIsLinked<N(!new), E(!new)>(g: Graph<N, E>, forward: E -> bool, trail: seq<nat>, run: seq<nat>,
                                                         j: nat)
    requires Trail(g, trail) && OpenRun(g, forward, trail, run) && j < |run|
    ensures run[j] < |g.nodes| && |InEdges(g.edges, run[j])| == 1 && forward(InEdges(g.edges, run[j])[0].weight)
    ensures j > 0 ==> Linked(g.edges, run[j - 1], run[j])
  {
    hide InEdges, OutEdges;
    var k := |trail| - |run| + j;
    assert run[j] == trail[k];
    assert j > 0 ==> run[j - 1] == trail[k - 1];
    assert Member(g, forward, trail[k - 1], trail[k]);
    assert Follows(g, trail[k - 1], trail[k]);
  }

  lemma {:induction false} RunIsLeft<N(!new), E(!new)>(g: Graph<N, E>, forward: E -> bool, trail: seq<nat>, run: seq<nat>)
    requires OneOut(g) && Trail(g, trail) && OpenRun(g, forward, trail, run) && run != []
    ensures |OutEdges(g.edges, run[|run| - 1])| == 1 && OutEdges(g.edges, run[|run| - 1])[0].tgt !in run
  {
    var last, k := run[|run| - 1], |trail| - 1;
    assert last == trail[k];
    assert Member(g, forward, trail[k - 1], trail[k]);
    OutEdgesAre(g.edges, last);
    hide OutEdges, InEdges;
    var e := OutEdges(g.edges, last)[0];
    assert e in OutEdges(g.edges, last);
    LeavesRun(g, forward, trail, run, e);
  }

  /** Every run that the walk collects is a path with one way in and one way out. */
  lemma {:induction false} RunsArePaths<N(!new), E(!new)>(g: Graph<N, E>, rules: Rules<N, E>, trail: seq<nat>,
                                                          run: seq<nat>)
    requires Shape(g, rules.can) && Trail(g, trail) && OpenRun(g, rules.forward, trail, run) && run != []
    ensures GoodRun(g, rules.forward, run)
  {
    var a := |trail| - |run|;
    assert forall j :: 0 <= j < |run| ==> run[j] == trail[a + j];
    assert Injective(run);
    RunIsLeft(g, rules.forward, trail, run);
    EntersFromOutside(g, rules, trail, run);
    hide InEdges, OutEdges, Trail, OpenRun, Member, Injective, Linked;
    forall j | 0 <= j < |run|
      ensures run[j] < |g.nodes| && |InEdges(g.edges, run[j])| == 1 && rules.forward(InEdges(g.edges, run[j])[0].weight)
      ensures j > 0 ==> Linked(g.edges, run[j - 1], run[j])
    {
      RunIsLinked(g, rules.forward, trail, run, j);
    }
  }

  lemma {:induction false} EntersFromOutside<N(!new), E(!new)>(g: Graph<N, E>, rules: Rules<N, E>, trail: seq<nat>,
                                                               run: seq<nat>)
    requires Trail(g, trail) && OpenRun(g, rules.forward, trail, run) && run != []
    ensures |InEdges(g.edges, run[0])| == 1 && InEdges(g.edges, run[0])[0].src !in run
  {
    var a := |trail| - |run|;
    assert Member(g, rules.forward, trail[a - 1], trail[a]);
    assert run[0] == trail[a];
    assert forall j :: 0 <= j < |run| ==> run[j] == trail[a + j] && run[j] != trail[a - 1];
  }

  ghost predicate AllGood<N(!new), E(!new)>(g: Graph<N, E>, forward: E -> bool, runs: seq<seq<nat>>) {
    forall k :: 0 <= k < |runs| ==> runs[k] == [] || GoodRun(g, forward, runs[k])
  }

  lemma {:induction false} LastGood<N(!new), E(!new)>(g: Graph<N, E>, forward: E -> bool, runs: seq<seq<nat>>,
                                                      run: seq<nat>)
    requires runs != [] && AllGood(g, forward, runs) && (run == [] || GoodRun(g, forward, run))
    ensures AllGood(g, forward, runs[|runs| - 1 := run]) && AllGood(g, forward, runs + [run])
  {
  }

  /** Between visits: the runs are good, and the last of them is the end of the trail. */
  ghost predicate WalkInv<N(!new), E(!new)>(g: Graph<N, E>, forward: E -> bool, source: nat, trail: seq<nat>,
                                            runs: seq<seq<nat>>) {
    && Trail(g, trail) && (trail != [] ==> trail[0] == source)
    && runs != [] && AllGood(g, forward, runs)
    && (trail != [] ==> OpenRun(g, forward, trail, runs[|runs| - 1]))
  }

  /** x can be part of a run, after the nodes of chain. */
  ghost predicate Joins<N(!new), E(!new)>(g: Graph<N, E>, rules: Rules<N, E>, x: nat, chain: seq<N>) {
    && x < |g.nodes| && rules.can(g.nodes[x], chain) && |InEdges(g.edges, x)| <= 1
    && forall k :: 0 <= k < |InEdges(g.edges, x)| ==> rules.forward(InEdges(g.edges, x)[k].weight)
  }

  lemma {:induction false} JoinIsMember<N(!new), E(!new)>(g: Graph<N, E>, rules: Rules<N, E>, source: nat, trail: seq<nat>,
                                                          x: nat,
                                                         chain: seq<N>)
    requires Shape(g, rules.can) && InEdges(g.edges, source) == []
    requires Trail(g, trail + [x]) && (trail + [x])[0] == source && Joins(g, rules, x, chain)
    ensures trail != [] && Member(g, rules.forward, trail[|trail| - 1], x)
  {
    var all := trail + [x];
    if trail == [] {
      assert false;
    } else {
      assert Follows(g, all[|all| - 2], all[|all| - 1]);
      NewMember(g, rules, trail[|trail| - 1], x, chain);
    }
  }

  /** A visit to a node that joins the run. */
  lemma {:induction false} JoinKeeps<N(!new), E(!new)>(g: Graph<N, E>, rules: Rules<N, E>, source: nat, trail: seq<nat>,
                                                      runs: seq<seq<nat>>, x: nat, chain: seq<N>)
    requires Shape(g, rules.can) && InEdges(g.edges, source) == [] && WalkInv(g, rules.forward, source, trail, runs)
    requires Trail(g, trail + [x]) && (trail + [x])[0] == source && Joins(g, rules, x, chain)
    ensures WalkInv(g, rules.forward, source, trail + [x], runs[|runs| - 1 := runs[|runs| - 1] + [x]])
  {
    hide Shape, Trail, Joins, AllGood, OpenRun, Member, InEdges, GoodRun;
    var run := runs[|runs| - 1];
    JoinIsMember(g, rules, source, trail, x, chain);
    ExtendRun(g, rules.forward, trail, run, x);
    RunsArePaths(g, rules, trail + [x], run + [x]);
    LastGood(g, rules.forward, runs, run + [x]);
  }

  /** A visit to a node that ends the run. */
  lemma {:induction false} BreakKeeps<N(!new), E(!new)>(g: Graph<N, E>, forward: E -> bool, source: nat, trail: seq<nat>,
                                                       runs: seq<seq<nat>>, x: nat)
    requires WalkInv(g, forward, source, trail, runs) && Trail(g, trail + [x]) && (trail + [x])[0] == source
    ensures WalkInv(g, forward, source, trail + [x], runs + [[]])
  {
    LastGood(g, forward, runs, []);
    assert OpenRun(g, forward, trail + [x], []);
  }

  // ---------- the runs as a function of the graph ----------

  /** The nodes of a run. */
  function ChainOf<N, E>(g: Graph<N, E>, run: seq<nat>): seq<N> {
    if run == [] then []
    else
      var last := run[|run| - 1];
      ChainOf(g, run[..|run| - 1]) + if last < |g.nodes| then [g.nodes[last]] else []
  }

  /** A visit to x: it joins the last run, or ends it. */
  ghost function RunStep<N(!new), E(!new)>(g: Graph<N, E>, rules: Rules<N, E>, runs: seq<seq<nat>>,
                                           x: nat): (r: seq<seq<nat>>)
    requires runs != []
    ensures r != []
  {
    var last := runs[|runs| - 1];
    if Joins(g, rules, x, ChainOf(g, last)) then runs[|runs| - 1 := last + [x]] else runs + [[]]
  }

  ghost function RunsAlong<N(!new), E(!new)>(g: Graph<N, E>, rules: Rules<N, E>, visits: seq<nat>): (r: seq<seq<nat>>)
    ensures r != []
  {
    if visits == [] then [[]] else RunStep(g, rules, RunsAlong(g, rules, visits[..|visits| - 1]), visits[|visits| - 1])
  }

  /** The walks from all of the sources, one after the other. */
  ghost function VisitsFrom<N(!new), E(!new)>(g: Graph<N, E>, sources: seq<nat>): seq<nat>
    requires Valid(g) && OneOut(g) && InGraph(g, sources)
  {
    if sources == [] then []
    else VisitsFrom(g, sources[..|sources| - 1]) + WalkFrom(g, sources[|sources| - 1], [])
  }

  /** The runs along the walks from the sources of the graph. */
  ghost function Runs<N(!new), E(!new)>(g: Graph<N, E>, rules: Rules<N, E>): (r: seq<seq<nat>>)
    requires Valid(g) && OneOut(g)
    ensures r != []
  {
    ExternalsAre(g, |g.nodes|);
    SourcesInGraph(g);
    RunsAlong(g, rules, VisitsFrom(g, Externals(g, |g.nodes|)))
  }

  lemma {:induction false} SourcesInGraph<N(!new), E(!new)>(g: Graph<N, E>)
    ensures InGraph(g, Externals(g, |g.nodes|))
  {
    ExternalsAre(g, |g.nodes|);
    var s := Externals(g, |g.nodes|);
    forall k | 0 <= k < |s|
      ensures s[k] < |g.nodes|
    {
      assert s[k] in s;
    }
  }

  lemma {:induction false} OneMoreVisit<N(!new), E(!new)>(g: Graph<N, E>, rules: Rules<N, E>, visits: seq<nat>, x: nat)
    ensures RunsAlong(g, rules, visits + [x]) == RunStep(g, rules, RunsAlong(g, rules, visits), x)
  {
    assert (visits + [x])[..|visits|] == visits;
  }

  lemma {:induction false} OneMoreWalk<N(!new), E(!new)>(g: Graph<N, E>, sources: seq<nat>, k: nat)
    requires Valid(g) && OneOut(g) && InGraph(g, sources) && k < |sources|
    ensures VisitsFrom(g, sources[..k + 1]) == VisitsFrom(g, sources[..k]) + WalkFrom(g, sources[k], [])
  {
    assert sources[..k + 1][..k] == sources[..k];
  }

  lemma {:induction false} ChainOn<N(!new), E(!new)>(g: Graph<N, E>, run: seq<nat>, x: nat)
    requires x < |g.nodes|
    ensures ChainOf(g, run + [x]) == ChainOf(g, run) + [g.nodes[x]] && ChainOf(g, []) == []
  {
    assert (run + [x])[..|run|] == run;
  }

  /** A source ends every run, whatever the chain. */
  lemma {:induction false} SourceBreaks<N(!new), E(!new)>(g: Graph<N, E>, rules: Rules<N, E>, source: nat, chain: seq<N>)
    requires Shape(g, rules.can) && InEdges(g.edges, source) == []
    ensures !Joins(g, rules, source, chain)
  {
  }

  // ---------- collecting them ----------

  /** One visit: the node joins the last run exactly if the rules let it follow the nodes of that run. */
  method VisitNode<N(!new), E(!new)>(g: Graph<N, E>, rules: Rules<N, E>, ghost source: nat, ghost trail: seq<nat>, x: nat,
                                     chain: seq<N>, runs: seq<seq<nat>>) returns (chain': seq<N>, runs': seq<seq<nat>>)
    requires Shape(g, rules.can) && InEdges(g.edges, source) == []
    requires WalkInv(g, rules.forward, source, trail, runs) && runs != []
    requires trail != [] ==> chain == ChainOf(g, runs[|runs| - 1])
    requires Trail(g, trail + [x]) && (trail + [x])[0] == source && x < |g.nodes|
    ensures WalkInv(g, rules.forward, source, trail + [x], runs')
    ensures runs' == RunStep(g, rules, runs, x) && chain' == ChainOf(g, runs'[|runs'| - 1])
  {
    if trail == [] {
      SourceBreaks(g, rules, x, chain);
      SourceBreaks(g, rules, x, ChainOf(g, runs[|runs| - 1]));
    }
    hide Shape, WalkInv, Trail, InEdges, AllGood, OpenRun, ChainOf;
    var ins := InEdges(g.edges, x);
    var noShuffles := forall k :: 0 <= k < |ins| ==> rules.forward(ins[k].weight);
    ChainOn(g, runs[|runs| - 1], x);
    if noShuffles && |ins| <= 1 && rules.can(g.nodes[x], chain) {
      JoinKeeps(g, rules, source, trail, runs, x, chain);
      chain' := chain + [g.nodes[x]];
      runs' := runs[|runs| - 1 := runs[|runs| - 1] + [x]];
    } else {
      BreakKeeps(g, rules.forward, source, trail, runs, x);
      chain' := [];
      runs' := runs + [[]];
    }
  }

  /** The walk so far has collected the runs along it. */
  ghost predicate Walking<N(!new), E(!new)>(g: Graph<N, E>, rules: Rules<N, E>, source: nat, trail: seq<nat>,
                                            visits: seq<nat>, chain: seq<N>, runs: seq<seq<nat>>)
    requires Valid(g) && OneOut(g) && source < |g.nodes|
  {
    && Trail(g, trail) && WalkFrom(g, source, trail) == WalkFrom(g, source, [])
    && runs == RunsAlong(g, rules, visits + trail) && WalkInv(g, rules.forward, source, trail, runs)
    && (trail != [] ==> chain == ChainOf(g, runs[|runs| - 1]))
  }

  /** The search has come to idx, or to its end. */
  ghost predicate Ahead<N(!new), E(!new)>(g: Graph<N, E>, source: nat, trail: seq<nat>, idx: Option<nat>, stack: seq<nat>,
                                          discovered: set<nat>) {
    match idx
    case None => Straight(g, source, trail, [])
    case Some(x) =>
      && x < |g.nodes| && Straight(g, source, trail, [x]) && discovered == RunSet(trail + [x])
      && Searching(g, source, trail + [x], stack) && Straight(g, source, trail + [x], stack)
  }

  lemma {:induction false} WalkStep<N(!new), E(!new)>(g: Graph<N, E>, rules: Rules<N, E>, source: nat, trail: seq<nat>,
                                                      visits: seq<nat>, chain: seq<N>, runs: seq<seq<nat>>, x: nat,
                                                      stack: seq<nat>, discovered: set<nat>)
    requires Valid(g) && OneOut(g) && source < |g.nodes| && Walking(g, rules, source, trail, visits, chain, runs)
    requires Ahead(g, source, trail, Some(x), stack, discovered)
    ensures runs != [] && WalkInv(g, rules.forward, source, trail, runs) && x < |g.nodes|
    ensures trail != [] ==> chain == ChainOf(g, runs[|runs| - 1])
    ensures Trail(g, trail + [x]) && (trail + [x])[0] == source && |trail| < |g.nodes|
    ensures WalkFrom(g, source, trail + [x]) == WalkFrom(g, source, [])
    ensures RunStep(g, rules, runs, x) == RunsAlong(g, rules, visits + (trail + [x]))
    ensures Searching(g, source, trail + [x], stack) && Straight(g, source, trail + [x], stack)
    ensures discovered == RunSet(trail + [x])
  {
    hide *;
    WalkingAre(g, rules, source, trail, visits, chain, runs);
    AheadAre(g, source, trail, x, stack, discovered);
    WalkOn(g, source, trail, x);
    TrailShort(g, trail + [x]);
    OneMoreVisit(g, rules, visits + trail, x);
    assert visits + trail + [x] == visits + (trail + [x]);
  }

  lemma {:induction false} WalkingAre<N(!new), E(!new)>(g: Graph<N, E>, rules: Rules<N, E>, source: nat, trail: seq<nat>,
                                                        visits: seq<nat>, chain: seq<N>, runs: seq<seq<nat>>)
    requires Valid(g) && OneOut(g) && source < |g.nodes| && Walking(g, rules, source, trail, visits, chain, runs)
    ensures Trail(g, trail) && WalkFrom(g, source, trail) == WalkFrom(g, source, [])
    ensures runs != [] && runs == RunsAlong(g, rules, visits + trail) && WalkInv(g, rules.forward, source, trail, runs)
    ensures trail != [] ==> trail[0] == source && chain == ChainOf(g, runs[|runs| - 1])
  {
  }

  lemma {:induction false} AheadAre<N(!new), E(!new)>(g: Graph<N, E>, source: nat, trail: seq<nat>, x: nat,
                                                      stack: seq<nat>, discovered: set<nat>)
    requires Ahead(g, source, trail, Some(x), stack, discovered)
    ensures x < |g.nodes| && Straight(g, source, trail, [x]) && discovered == RunSet(trail + [x])
    ensures Searching(g, source, trail + [x], stack) && Straight(g, source, trail + [x], stack)
    ensures trail == [] ==> x == source
  {
    hide Searching;
    assert trail == [] ==> [x] == [source];
  }

  lemma {:induction false} TrailShort<N(!new), E(!new)>(g: Graph<N, E>, trail: seq<nat>)
    requires Trail(g, trail)
    ensures |trail| <= |g.nodes|
  {
    TrailIsShort(g, trail);
  }

  lemma {:induction false} WalkingStart<N(!new), E(!new)>(g: Graph<N, E>, rules: Rules<N, E>, source: nat,
                                                          visits: seq<nat>, runs: seq<seq<nat>>)
    requires Valid(g) && OneOut(g) && source < |g.nodes|
    requires runs == RunsAlong(g, rules, visits) && AllGood(g, rules.forward, runs)
    ensures Walking(g, rules, source, [], visits, [], runs)
    ensures Searching(g, source, [], [source]) && Straight(g, source, [], [source]) && RunSet([]) == {}
  {
    SearchStart(g, source);
    assert visits + [] == visits;
  }

  lemma {:induction false} WalkingEnd<N(!new), E(!new)>(g: Graph<N, E>, rules: Rules<N, E>, source: nat, trail: seq<nat>,
                                                        visits: seq<nat>, chain: seq<N>, runs: seq<seq<nat>>,
                                                        stack: seq<nat>, discovered: set<nat>)
    requires Valid(g) && OneOut(g) && source < |g.nodes| && Walking(g, rules, source, trail, visits, chain, runs)
    requires Ahead(g, source, trail, None, stack, discovered)
    ensures runs == RunsAlong(g, rules, visits + WalkFrom(g, source, [])) && AllGood(g, rules.forward, runs)
  {
    hide RunsAlong, WalkFrom, AllGood, Straight;
    WalkEnds(g, source, trail);
  }

  /** One depth-first walk, adding to the runs collected so far. */
  method Walk<N(!new), E(!new)>(g: Graph<N, E>, rules: Rules<N, E>, source: nat, runs: seq<seq<nat>>,
                                ghost visits: seq<nat>)
      returns (toFuse: seq<seq<nat>>)
    requires Shape(g, rules.can) && source < |g.nodes| && InEdges(g.edges, source) == []
    requires runs == RunsAlong(g, rules, visits) && AllGood(g, rules.forward, runs)
    ensures toFuse == RunsAlong(g, rules, visits + WalkFrom(g, source, [])) && AllGood(g, rules.forward, toFuse)
  {
    assert Valid(g) && OneOut(g) && Trail(g, []);
    hide *;
    WalkingStart(g, rules, source, visits, runs);
    toFuse := runs;
    var dfs := new Dfs(source);
    var chain: seq<N> := [];
    ghost var trail: seq<nat> := [];
    var idx: Option<nat> := dfs.Next(g, source, trail);
    AheadIs(g, source, trail, [source], idx, dfs.stack, dfs.discovered);
    while idx.Some?
      invariant fresh(dfs)
      invariant Walking(g, rules, source, trail, visits, chain, toFuse)
      invariant Ahead(g, source, trail, idx, dfs.stack, dfs.discovered)
      decreases |g.nodes| - |trail|, idx.Some?
    {
      WalkStep(g, rules, source, trail, visits, chain, toFuse, idx.value, dfs.stack, dfs.discovered);
      chain, toFuse := VisitNode(g, rules, source, trail, idx.value, chain, toFuse);
      trail := trail + [idx.value];
      WalkingIs(g, rules, source, trail, visits, chain, toFuse);
      ghost var stack := dfs.stack;
      idx := dfs.Next(g, source, trail);
      AheadIs(g, source, trail, stack, idx, dfs.stack, dfs.discovered);
    }
    WalkingEnd(g, rules, source, trail, visits, chain, toFuse, dfs.stack, dfs.discovered);
  }

  lemma {:induction false} AheadIs<N(!new), E(!new)>(g: Graph<N, E>, source: nat, trail: seq<nat>, was: seq<nat>,
                                                     idx: Option<nat>, stack: seq<nat>, discovered: set<nat>)
    requires Straight(g, source, trail, was)
    requires if idx.None? then was == [] else was == [idx.value] && Straight(g, source, trail + [idx.value], stack)
    requires idx.Some? ==> idx.value < |g.nodes| && discovered == RunSet(trail + [idx.value])
    requires idx.Some? ==> Searching(g, source, trail + [idx.value], stack)
    ensures Ahead(g, source, trail, idx, stack, discovered)
  {
    hide Straight, Searching;
  }

  lemma {:induction false} WalkingIs<N(!new), E(!new)>(g: Graph<N, E>, rules: Rules<N, E>, source: nat, trail: seq<nat>,
                                                       visits: seq<nat>, chain: seq<N>, runs: seq<seq<nat>>)
    requires Valid(g) && OneOut(g) && source < |g.nodes| && Trail(g, trail) && runs != []
    requires WalkFrom(g, source, trail) == WalkFrom(g, source, []) && runs == RunsAlong(g, rules, visits + trail)
    requires WalkInv(g, rules.forward, source, trail, runs) && chain == ChainOf(g, runs[|runs| - 1])
    ensures Walking(g, rules, source, trail, visits, chain, runs)
  {
  }

  /** The runs that the walks from all sources collect; empty ones separate them. */
  method CollectRuns<N(!new), E(!new)>(g: Graph<N, E>, rules: Rules<N, E>) returns (toFuse: seq<seq<nat>>)
    requires Shape(g, rules.can)
    ensures toFuse == Runs(g, rules) && AllGood(g, rules.forward, toFuse)
  {
    toFuse := [[]];
    var sources := Sources(g);
    SourcesInGraph(g);
    assert Valid(g) && OneOut(g);
    hide Shape, AllGood, GoodRun, Externals, Valid, OneOut, InEdges, RunStep;
    ghost var visits: seq<nat> := [];
    var i := 0;
    while i < |sources|
      invariant 0 <= i <= |sources| && visits == VisitsFrom(g, sources[..i])
      invariant toFuse == RunsAlong(g, rules, visits) && AllGood(g, rules.forward, toFuse)
    {
      assert sources[i] in sources;
      OneMoreWalk(g, sources, i);
      toFuse := Walk(g, rules, sources[i], toFuse, visits);
      visits := visits + WalkFrom(g, sources[i], []);
      i := i + 1;
    }
    assert sources[..i] == sources;
  }

  // ---------- fusing ----------

  /** The nodes of a run, each with the weight of the edge out of it. */
  function Pairs<N, E>(ws: seq<N>, outs: seq<E>): (r: seq<(N, E)>)
    requires |ws| == |outs|
    ensures |r| == |ws|
  {
    seq(|ws|, j requires 0 <= j < |ws| => (ws[j], outs[j]))
  }

  ghost predicate FusesTo<N(!new), E(!new)>(fuse: seq<(N, E)> -> Attempt<N>, ws: seq<N>, es: seq<E>, w: E, n: N) {
    |ws| == |es| > 1 && fuse(Pairs(ws, es[1..] + [w])) == FusedInto(n)
  }

  /** The fused node can output what the path can, and nothing else. */
  ghost predicate SamePath<N(!new), E(!new), S(!new)>(sem: Sem<N, E, S>, ws: seq<N>, es: seq<E>, n: N)
    requires |es| > 0
  {
    Simulates(sem, ws, es, [n], [es[0]]) && Simulates(sem, [n], [es[0]], ws, es)
  }

  /** An optimizer that fuses paths only into nodes of the same meaning. */
  ghost predicate Faithful<N(!new), E(!new), S(!new)>(sem: Sem<N, E, S>, fuse: seq<(N, E)> -> Attempt<N>) {
    forall ws, es, w, n :: FusesTo(fuse, ws, es, w, n) ==> SamePath(sem, ws, es, n)
  }

  datatype Outcome = Changed | Unchanged | Panicked

  lemma {:induction false} LinkWeight<E(!new)>(es: seq<Edge<E>>, a: nat, b: nat)
    requires Linked(es, a, b)
    ensures OutEdges(es, a)[0] == InEdges(es, b)[0]
  {
    OutEdgesAre(es, a);
    InEdgesAre(es, b);
    var e := OutEdges(es, a)[0];
    assert e in OutEdges(es, a);
    assert e in InEdges(es, b);
    Only(InEdges(es, b), e);
  }

  /** The input that get_node_edge_pair builds for a run. */
  lemma {:induction false} RunPairs<N(!new), E(!new)>(g: Graph<N, E>, run: seq<nat>, input: seq<(N, E)>)
    requires Valid(g) && SinglePath(g, run) && |input| == |run|
    requires forall j :: 0 <= j < |run| ==>
               |OutEdges(g.edges, run[j])| == 1 && input[j] == (g.nodes[run[j]], OutEdges(g.edges, run[j])[0].weight)
    ensures input == Pairs(RunNodes(g, run), RunEdges(g, run)[1..] + [Exit(g, run).weight])
  {
    var outs := RunEdges(g, run)[1..] + [Exit(g, run).weight];
    hide OutEdges, InEdges;
    forall j | 0 <= j < |run|
      ensures input[j] == (RunNodes(g, run)[j], outs[j])
    {
      if j + 1 < |run| {
        var k := j + 1;
        assert Linked(g.edges, run[k - 1], run[k]);
        LinkWeight(g.edges, run[k - 1], run[k]);
        assert outs[j] == RunEdges(g, run)[k];
      }
    }
  }

  method NodeEdgePairs<N(!new), E(!new)>(graph: DiGraph<N, E>, run: seq<nat>) returns (input: seq<(N, E)>)
    requires Valid(graph.View()) && SinglePath(graph.View(), run)
    ensures var g := graph.View();
            input == Pairs(RunNodes(g, run), RunEdges(g, run)[1..] + [Exit(g, run).weight])
  {
    ghost var g := graph.View();
    input := [];
    var j := 0;
    while j < |run|
      invariant 0 <= j <= |run| == |input| + |run| - j
      invariant forall k :: 0 <= k < j ==>
                  |OutEdges(g.edges, run[k])| == 1 && input[k] == (g.nodes[run[k]], OutEdges(g.edges, run[k])[0].weight)
    {
      OneOutOfRun(g, run, j);
      input := input + [(graph.nodes[run[j]], OutEdges(graph.edges, run[j])[0].weight)];
      j := j + 1;
    }
    RunPairs(g, run, input);
  }

  /** Everything one replacement by a fused node promises. */
  lemma {:induction false} FusionKeeps<N(!new), E(!new), S(!new)>(sem: Sem<N, E, S>, rules: Rules<N, E>, g: Graph<N, E>,
                                                                  h: Graph<N, E>,
                                                                 names: seq<nat>, run: seq<nat>, n: N)
    requires Shape(g, rules.can) && SinglePath(g, run) && |run| > 1
    requires Replaced(h, g, names, run, [n], [Entry(g, run).weight])
    requires SamePath(sem, RunNodes(g, run), RunEdges(g, run), n)
    ensures var o := OldNames(names, |g.nodes|, 1, run[|run| - 1]);
            Shape(h, rules.can) && SameMeaning(sem, g, h, o) && SinksKept(g, h, o)
  {
    assert RunEdges(g, run)[0] == Entry(g, run).weight;
    hide Replaced, Shape, SinglePath, Simulates, SameMeaning, SinksKept, OldNames;
    ShapeKept(g, h, names, run, [n], [Entry(g, run).weight], rules.can);
    ReplacementPreserves(sem, g, h, names, run, [n], [Entry(g, run).weight]);
    ReplacementKeepsSinks(g, h, names, run, [n], [Entry(g, run).weight]);
  }

  /** What becomes of a run: those of one node are not tried. */
  ghost function Tried<N(!new), E(!new)>(rules: Rules<N, E>, g: Graph<N, E>, run: seq<nat>): Attempt<N> {
    if |run| > 1 && SinglePath(g, run) then
      rules.fuse(Pairs(RunNodes(g, run), RunEdges(g, run)[1..] + [Exit(g, run).weight]))
    else Declined
  }

  /** All runs of the graph are paths, and none of them can be fused. */
  ghost predicate NothingToFuse<N(!new), E(!new)>(rules: Rules<N, E>, g: Graph<N, E>) {
    && Shape(g, rules.can) && AllGood(g, rules.forward, Runs(g, rules))
    && forall j :: 0 <= j < |Runs(g, rules)| ==> Tried(rules, g, Runs(g, rules)[j]).Declined?
  }

  /** Run k is the first that the rules do not decline. */
  ghost predicate FirstAt<N(!new), E(!new)>(rules: Rules<N, E>, g: Graph<N, E>, k: nat) {
    && Shape(g, rules.can) && k < |Runs(g, rules)| && !Tried(rules, g, Runs(g, rules)[k]).Declined?
    && forall j :: 0 <= j < k ==> Tried(rules, g, Runs(g, rules)[j]).Declined?
  }

  ghost predicate FirstTried<N(!new), E(!new)>(rules: Rules<N, E>, g: Graph<N, E>, run: seq<nat>) {
    exists k: nat :: FirstAt(rules, g, k) && Runs(g, rules)[k] == run
  }

  /** The first run that the rules do not decline makes them panic. */
  ghost predicate PanicsFirst<N(!new), E(!new)>(rules: Rules<N, E>, g: Graph<N, E>) {
    exists run :: FirstTried(rules, g, run) && Tried(rules, g, run).Panics?
  }

  /** h is g with the first run that the rules do not decline fused. */
  ghost predicate FusedAt<N(!new), E(!new)>(rules: Rules<N, E>, g: Graph<N, E>, h: Graph<N, E>, names: seq<nat>,
                                            run: seq<nat>, n: N) {
    && GoodRun(g, rules.forward, run) && Replaced(h, g, names, run, [n], [Entry(g, run).weight])
    && FusesTo(rules.fuse, RunNodes(g, run), RunEdges(g, run), Exit(g, run).weight, n)
    && FirstTried(rules, g, run)
  }

  ghost predicate FusionStep<N(!new), E(!new)>(rules: Rules<N, E>, g: Graph<N, E>, h: Graph<N, E>) {
    exists names, run, n :: FusedAt(rules, g, h, names, run, n)
  }

  /** h is what k fusions make of g. */
  ghost predicate FusionSteps<N(!new), E(!new)>(rules: Rules<N, E>, g: Graph<N, E>, h: Graph<N, E>, k: nat)
    decreases k
  {
    if k == 0 then h == g else exists m :: FusionSteps(rules, g, m, k - 1) && FusionStep(rules, m, h)
  }

  /**
   * Fuses the first run that the rules do not decline; every kept node keeps its streams, and
   * every sink is kept. The graph is unchanged exactly if there is no such run, or the rules
   * panic on it.
   */
  method OptimizeOnce<N(!new), E(!new), S(!new)>(graph: DiGraph<N, E>, rules: Rules<N, E>, ghost sem: Sem<N, E, S>)
      returns (outcome: Outcome, ghost names: seq<Name>)
    requires Shape(graph.View(), rules.can) && Faithful(sem, rules.fuse)
    modifies graph
    ensures outcome != Changed ==> graph.View() == old(graph.View())
    ensures outcome == Unchanged ==> NothingToFuse(rules, old(graph.View()))
    ensures outcome == Panicked ==> PanicsFirst(rules, old(graph.View()))
    ensures outcome == Changed ==>
              && |graph.nodes| < |old(graph.nodes)| && Shape(graph.View(), rules.can)
              && SameMeaning(sem, old(graph.View()), graph.View(), names) && SinksKept(old(graph.View()), graph.View(), names)
              && FusionStep(rules, old(graph.View()), graph.View())
  {
    ghost var g := graph.View();
    names := [];
    var toFuse := CollectRuns(graph.View(), rules);
    assert Valid(g) && OneOut(g);
    hide Shape, Valid, OneOut, Faithful, SameMeaning, SinksKept, FusionStep, Runs, Tried, GoodRun;
    var i := 0;
    while i < |toFuse|
      invariant 0 <= i <= |toFuse| && graph.View() == g
      invariant forall j :: 0 <= j < i ==> Tried(rules, g, toFuse[j]).Declined?
    {
      if |toFuse[i]| > 1 {
        outcome, names := TryFuse(graph, rules, sem, toFuse[i], i);
        if outcome != Unchanged {
          assert outcome == Panicked ==> FirstTried(rules, g, toFuse[i]);
          return;
        }
      } else {
        ShortIsDeclined(rules, g, toFuse[i]);
      }
      i := i + 1;
    }
    outcome := Unchanged;
  }

  lemma {:induction false} ShortIsDeclined<N(!new), E(!new)>(rules: Rules<N, E>, g: Graph<N, E>, run: seq<nat>)
    requires |run| <= 1
    ensures Tried(rules, g, run).Declined?
  {
  }

  method TryFuse<N(!new), E(!new), S(!new)>(graph: DiGraph<N, E>, rules: Rules<N, E>, ghost sem: Sem<N, E, S>,
                                            run: seq<nat>, ghost k: nat)
      returns (outcome: Outcome, ghost names: seq<Name>)
    requires Shape(graph.View(), rules.can) && Faithful(sem, rules.fuse)
    requires GoodRun(graph.View(), rules.forward, run) && |run| > 1
    requires k < |Runs(graph.View(), rules)| && Runs(graph.View(), rules)[k] == run
    requires forall j :: 0 <= j < k ==> Tried(rules, graph.View(), Runs(graph.View(), rules)[j]).Declined?
    modifies graph
    ensures outcome != Changed ==> graph.View() == old(graph.View())
    ensures outcome == Unchanged ==> Tried(rules, old(graph.View()), run).Declined?
    ensures outcome == Panicked ==> Tried(rules, old(graph.View()), run).Panics? && FirstTried(rules, old(graph.View()), run)
    ensures outcome == Changed ==>
              && |graph.nodes| < |old(graph.nodes)| && Shape(graph.View(), rules.can)
              && SameMeaning(sem, old(graph.View()), graph.View(), names) && SinksKept(old(graph.View()), graph.View(), names)
              && FusionStep(rules, old(graph.View()), graph.View())
  {
    ghost var g := graph.View();
    assert Valid(g) && OneOut(g) && SinglePath(g, run) && HasEnds(g, run);
    assert FirstAt(rules, g, k) <==> !Tried(rules, g, run).Declined?;
    hide HasEnds, Shape, Valid, OneOut, SinglePath, GoodRun, SamePath, Replaced, SameMeaning, SinksKept, RunNodes, RunEdges,
         Entry, Exit, OldNames, Pairs, Runs, FirstAt;
    names := [];
    var input := NodeEdgePairs(graph, run);
    var attempt := rules.fuse(input);
    assert attempt == Tried(rules, g, run);
    assert attempt.Declined? || FirstTried(rules, g, run);
    match attempt
    case Declined => outcome := Unchanged;
    case Panics => outcome := Panicked;
    case FusedInto(n) =>
      assert FusesTo(rules.fuse, RunNodes(g, run), RunEdges(g, run), Exit(g, run).weight, n);
      ghost var renamed := ReplaceRun(graph, run, n, []);
      assert NodesOf<N, E>(n, []) == [n] && WeightsOf<N, E>(Entry(g, run).weight, []) == [Entry(g, run).weight];
      FusionKeeps(sem, rules, g, graph.View(), renamed, run, n);
      assert FusedAt(rules, g, graph.View(), renamed, run, n);
      names := OldNames(renamed, |g.nodes|, 1, run[|run| - 1]);
      outcome := Changed;
  }

  /**
   * The fixpoint loop ends, and its result has the meaning of the graph it started from:
   * every node that is kept, and every sink is, receives and sends what it would have
   * received and sent. The graph has changed only by fusions, and it ends when nothing is
   * left to fuse or the next fusion panics.
   */
  method Optimize<N(!new), E(!new), S(!new)>(graph: DiGraph<N, E>, rules: Rules<N, E>, ghost sem: Sem<N, E, S>)
      returns (panicked: bool, ghost names: seq<Name>, ghost steps: nat)
    requires Shape(graph.View(), rules.can) && Faithful(sem, rules.fuse)
    modifies graph
    ensures Shape(graph.View(), rules.can) && |graph.nodes| <= |old(graph.nodes)|
    ensures FusionSteps(rules, old(graph.View()), graph.View(), steps)
    ensures if panicked then PanicsFirst(rules, graph.View()) else NothingToFuse(rules, graph.View())
    ensures SameMeaning(sem, old(graph.View()), graph.View(), names)
    ensures SinksKept(old(graph.View()), graph.View(), names)
  {
    ghost var g := graph.View();
    hide Shape, Faithful, SameMeaning, SinksKept, Composed, FusionStep, PanicsFirst, NothingToFuse;
    steps := 0;
    names := SameNames(|g.nodes|);
    SameMeaningRefl(sem, g);
    SinksRefl(g);
    panicked := false;
    var more := true;
    while more
      invariant Shape(graph.View(), rules.can) && |graph.nodes| <= |g.nodes|
      invariant SameMeaning(sem, g, graph.View(), names) && SinksKept(g, graph.View(), names)
      invariant FusionSteps(rules, g, graph.View(), steps)
      invariant more || if panicked then PanicsFirst(rules, graph.View()) else NothingToFuse(rules, graph.View())
      decreases |graph.nodes|, more
    {
      ghost var before := graph.View();
      var outcome, later := OptimizeOnce(graph, rules, sem);
      if outcome == Changed {
        SameMeaningComposes(sem, g, before, graph.View(), names, later);
        SinksCompose(g, before, graph.View(), names, later);
        names, steps := Composed(names, later), steps + 1;
      } else {
        more := false;
        panicked := outcome == Panicked;
      }
    }
  }
}
