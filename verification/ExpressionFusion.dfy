// Expression fusion as an instance of the graph optimizer: replacing a run of expression
// operators by the operator that the builder makes of them preserves every stream that
// leaves the run, whatever the other operators of the graph do.
module ExpressionFusion {
  import opened Messages
  import opened Digraphs
  import opened Fusion
  import opened Dataflow
  import opened PathReplacement
  import opened RunReplacement
  import opened Search
  import opened GraphOptimizer
  import opened MaximalRuns
  import opened RunHeads
  import opened Merging
  import opened Parallelism

  datatype Operator<!R> =
    | Expression(stage: Stage<R>, parallelism: nat)
    | Other(id: int, parallelism: nat)

  /** An expression operator reads some interleaving of its inputs and sends what the stage makes of it. */
  ghost predicate Sends<E(!new), R(!new)>(s: Stage<R>, ins: multiset<(E, seq<R>)>, out: seq<R>) {
    exists z :: Merges(ins, z) && out == Emitted(r => Through(s, r), z)
  }

  /** Streams are finite histories; operators other than expressions are arbitrary. */
  ghost function StreamSem<E(!new), R(!new)>(other: (int, multiset<(E, seq<R>)>, seq<R>) -> bool): Sem<Operator<R>, E, seq<R>> {
    (n: Operator<R>, ins: multiset<(E, seq<R>)>, out: seq<R>) =>
      match n
      case Expression(s, _) => Sends(s, ins, out)
      case Other(id, _) => other(id, ins, out)
  }

  ghost predicate HasAnswer<E(!new), R(!new)>(other: (int, multiset<(E, seq<R>)>, seq<R>) -> bool, id: int,
                                              ins: multiset<(E, seq<R>)>) {
    exists out :: other(id, ins, out)
  }

  lemma {:induction false} SendsOne<E(!new), R(!new)>(s: Stage<R>, ins: multiset<(E, seq<R>)>, z: seq<R>, out: seq<R>)
    requires Merges(ins, z) && out == Emitted(r => Through(s, r), z)
    ensures Sends(s, ins, out)
  {
  }

  /** If the other operators can answer every input, then so can all. */
  lemma {:induction false} StreamsAnswer<E(!new), R(!new)>(other: (int, multiset<(E, seq<R>)>, seq<R>) -> bool)
    requires forall id, ins :: HasAnswer(other, id, ins)
    ensures Answers(StreamSem(other))
  {
    var sem := StreamSem(other);
    forall n: Operator<R>, ins: multiset<(E, seq<R>)>
      ensures CanAnswer(sem, n, ins)
    {
      match n
      case Expression(s, _) =>
        var z := SomeMerge(ins);
        SendsOne(s, ins, z, Emitted(r => Through(s, r), z));
        assert NodeHolds(sem, n, ins, Emitted(r => Through(s, r), z));
      case Other(id, _) =>
        assert HasAnswer(other, id, ins);
        var out :| other(id, ins, out);
        assert NodeHolds(sem, n, ins, out);
    }
  }

  /** An acyclic plan has streams, however many inputs its expression operators have. */
  lemma {:induction false} PlanHasStreams<E(!new), R(!new)>(other: (int, multiset<(E, seq<R>)>, seq<R>) -> bool,
                                                           g: Graph<Operator<R>, E>,
                                                           rank: nat -> nat) returns (out: nat -> seq<R>)
    requires (forall id, ins :: HasAnswer(other, id, ins)) && Acyclic(g, rank)
    ensures Solution(StreamSem(other), g, out)
  {
    StreamsAnswer(other);
    out := HasSolution(StreamSem(other), g, rank, []);
  }

  // ---------- the fused operator as a stage ----------

  /** The expression operator that runs a fused body. */
  function FusedStage<R>(op: Fused<R>): Stage<R> {
    match op.returnType
    case Predicate => Filter("api_fused", r => RunFused(op, r).Sent? && RunFused(op, r).value.Some?)
    case RecordType =>
      Map("api_fused", r => if RunFused(op, r).Sent? && RunFused(op, r).value.Some? then RunFused(op, r).value.value else r)
    case OptionalRecord => OptionMap("api_fused", r => if RunFused(op, r).Sent? then RunFused(op, r).value else None)
  }

  lemma {:induction false} MapsAlwaysSend<R>(chain: seq<Stage<R>>, r: R)
    requires AllMaps(chain)
    ensures Sequential(chain, r).Some?
    decreases |chain|
  {
    if chain != [] {
      MapsAlwaysSend(chain[..|chain| - 1], r);
    }
  }

  lemma {:induction false} FusedStageIs<R(!new)>(chain: seq<Stage<R>>, op: Fused<R>, r: R)
    requires FusesRight(chain, op)
    ensures Through(FusedStage(op), r) == Sequential(chain, r)
  {
    assert RunFused(op, r) == Sent(Sequential(chain, r));
    match op.returnType
    case Predicate => FiltersPassUnchanged(chain, r);
    case RecordType => MapsAlwaysSend(chain, r);
    case OptionalRecord =>
  }

  // ---------- streams along a run ----------

  ghost predicate AreStages<R>(ws: seq<Operator<R>>, chain: seq<Stage<R>>) {
    |ws| == |chain| && forall j :: 0 <= j < |ws| ==> ws[j] == Expression(chain[j], ws[j].parallelism)
  }

  lemma {:induction false} SendsOn<E(!new), R(!new)>(s: Stage<R>, e: E, x: seq<R>, out: seq<R>)
    ensures Sends(s, multiset{(e, x)}, out) <==> out == Emitted(r => Through(s, r), x)
  {
    OneStream(e, x, x);
    if Sends(s, multiset{(e, x)}, out) {
      var z :| Merges(multiset{(e, x)}, z) && out == Emitted(r => Through(s, r), z);
      OneStream(e, x, z);
    }
  }

  lemma {:induction false} ChainStep<R>(chain: seq<Stage<R>>, x: seq<R>, j: nat)
    requires j < |chain|
    ensures ChainEmitted(chain[..j + 1], x) == Emitted(r => Through(chain[j], r), ChainEmitted(chain[..j], x))
  {
    var c := chain[..j + 1];
    assert c[..|c| - 1] == chain[..j] && c[|c| - 1] == chain[j];
  }

  /** Along a run of expression operators each node sends what the chain up to it sends. */
  lemma {:induction false} RunSends<E(!new), R(!new)>(other: (int, multiset<(E, seq<R>)>, seq<R>) -> bool,
                                                      ws: seq<Operator<R>>,
                                                     chain: seq<Stage<R>>, es: seq<E>, x: seq<R>, ys: seq<seq<R>>, j: nat)
    requires AreStages(ws, chain) && PathRuns(StreamSem(other), ws, es, x, ys) && j < |ws|
    ensures ys[j] == ChainEmitted(chain[..j + 1], x)
    decreases j
  {
    var before := if j == 0 then x else ys[j - 1];
    StageSends(other, ws, chain, es, x, ys, j);
    ChainStep(chain, x, j);
    if j == 0 {
      assert chain[..0] == [];
    } else {
      RunSends(other, ws, chain, es, x, ys, j - 1);
    }
  }

  lemma {:induction false} StageSends<E(!new), R(!new)>(other: (int, multiset<(E, seq<R>)>, seq<R>) -> bool,
                                                        ws: seq<Operator<R>>,
                                                       chain: seq<Stage<R>>, es: seq<E>, x: seq<R>, ys: seq<seq<R>>, j: nat)
    requires AreStages(ws, chain) && PathRuns(StreamSem(other), ws, es, x, ys) && j < |ws|
    ensures ys[j] == Emitted(r => Through(chain[j], r), if j == 0 then x else ys[j - 1])
  {
    hide Emitted, Through, ChainEmitted;
    assert StepHolds(StreamSem(other), ws, es, x, ys, j);
    SendsOn(chain[j], es[j], if j == 0 then x else ys[j - 1], ys[j]);
  }

  ghost function ChainStreams<R(!new)>(chain: seq<Stage<R>>, x: seq<R>): (ys: seq<seq<R>>)
    ensures |ys| == |chain| && forall j :: 0 <= j < |chain| ==> ys[j] == ChainEmitted(chain[..j + 1], x)
  {
    seq(|chain|, j requires 0 <= j < |chain| => ChainEmitted(chain[..j + 1], x))
  }

  lemma {:induction false} ChainRuns<E(!new), R(!new)>(other: (int, multiset<(E, seq<R>)>, seq<R>) -> bool,
                                                       ws: seq<Operator<R>>,
                                                      chain: seq<Stage<R>>, es: seq<E>, x: seq<R>)
    requires AreStages(ws, chain) && |es| == |ws|
    ensures PathRuns(StreamSem(other), ws, es, x, ChainStreams(chain, x))
  {
    var ys := ChainStreams(chain, x);
    forall j: nat | j < |ws|
      ensures StepHolds(StreamSem(other), ws, es, x, ys, j)
    {
      ChainStep(chain, x, j);
      if j == 0 {
        assert chain[..0] == [];
      } else {
        var k := j - 1;
        assert ys[k] == ChainEmitted(chain[..k + 1], x);
      }
      SendsOn(chain[j], es[j], if j == 0 then x else ys[j - 1], ys[j]);
    }
  }

  lemma {:induction false} FusedSends<E(!new), R(!new)>(other: (int, multiset<(E, seq<R>)>, seq<R>) -> bool,
                                                        chain: seq<Stage<R>>,
                                                       op: Fused<R>, par: nat, e: E, x: seq<R>, zs: seq<seq<R>>)
    requires FusesRight(chain, op)
    ensures PathRuns(StreamSem(other), [Expression(FusedStage(op), par)], [e], x, zs) <==> zs == [ChainEmitted(chain, x)]
  {
    var s := FusedStage(op);
    var h := r => Through(s, r);
    forall r | r in x
      ensures h(r) == Sequential(chain, r)
    {
      FusedStageIs(chain, op, r);
    }
    FusedStream(chain, h, x);
    if |zs| == 1 {
      SendsOn(s, e, x, zs[0]);
      assert StepHolds(StreamSem(other), [Expression(s, par)], [e], x, zs, 0) <==> zs[0] == ChainEmitted(chain, x);
    }
  }

  // ---------- the rule ----------

  /** Runs are fused only into what the builder makes of them. */
  ghost predicate FusesByBuilder<E(!new), R(!new)>(fuse: seq<(Operator<R>, E)> -> Attempt<Operator<R>>) {
    forall ws, es, w, n :: FusesTo(fuse, ws, es, w, n) ==> BuiltFrom(ws, n)
  }

  ghost predicate BuiltFrom<R(!new)>(ws: seq<Operator<R>>, n: Operator<R>) {
    exists chain, op :: AreStages(ws, chain) && FusesRight(chain, op) && n == Expression(FusedStage(op), n.parallelism)
  }

  lemma {:induction false} BuiltSame<E(!new), R(!new)>(other: (int, multiset<(E, seq<R>)>, seq<R>) -> bool,
                                                       ws: seq<Operator<R>>,
                                                      es: seq<E>, n: Operator<R>)
    requires BuiltFrom(ws, n) && |ws| == |es| > 0
    ensures SamePath(StreamSem(other), ws, es, n)
  {
    var chain, op :| AreStages(ws, chain) && FusesRight(chain, op) && n == Expression(FusedStage(op), n.parallelism);
    var sem := StreamSem(other);
    assert chain[..|chain|] == chain;
    forall x, ys | PathRuns(sem, ws, es, x, ys)
      ensures exists zs :: PathRuns(sem, [n], [es[0]], x, zs) && zs[|zs| - 1] == ys[|ys| - 1]
    {
      RunSends(other, ws, chain, es, x, ys, |ws| - 1);
      var zs := [ChainEmitted(chain, x)];
      FusedSends(other, chain, op, n.parallelism, es[0], x, zs);
      assert PathRuns(sem, [n], [es[0]], x, zs) && zs[|zs| - 1] == ys[|ys| - 1];
    }
    forall x, zs | PathRuns(sem, [n], [es[0]], x, zs)
      ensures exists ys :: PathRuns(sem, ws, es, x, ys) && ys[|ys| - 1] == zs[|zs| - 1]
    {
      FusedSends(other, chain, op, n.parallelism, es[0], x, zs);
      ChainRuns(other, ws, chain, es, x);
      var ys := ChainStreams(chain, x);
      assert PathRuns(sem, ws, es, x, ys) && ys[|ys| - 1] == zs[|zs| - 1];
    }
  }

  /** A rule that fuses by the builder preserves the meaning of every path that it replaces. */
  lemma {:induction false} FusionIsFaithful<E(!new), R(!new)>(other: (int, multiset<(E, seq<R>)>, seq<R>) -> bool,
                                                             fuse: seq<(Operator<R>, E)> -> Attempt<Operator<R>>)
    requires FusesByBuilder(fuse)
    ensures Faithful(StreamSem(other), fuse)
  {
    forall ws, es, w, n | FusesTo(fuse, ws, es, w, n)
      ensures SamePath(StreamSem(other), ws, es, n)
    {
      BuiltSame(other, ws, es, n);
    }
  }

  // ---------- the builder as the rule ----------

  predicate AllExpressions<R, E>(input: seq<(Operator<R>, E)>) {
    forall j :: 0 <= j < |input| ==> input[j].0.Expression?
  }

  function Stages<R, E>(input: seq<(Operator<R>, E)>): (chain: seq<Stage<R>>)
    requires AllExpressions(input)
    ensures |chain| == |input| && forall j :: 0 <= j < |input| ==> input[j].0 == Expression(chain[j], input[j].0.parallelism)
  {
    seq(|input|, j requires 0 <= j < |input| && input[j].0.Expression? => input[j].0.stage)
  }

  /** try_optimize: what the builder makes of a run of expression operators. */
  function ByBuilder<R, E>(input: seq<(Operator<R>, E)>): Attempt<Operator<R>> {
    if input == [] || !AllExpressions(input) then Declined
    else
      match Finish(Build(Stages(input)))
      case None => Panics
      case Some(op) => FusedInto(Expression(FusedStage(op), input[0].0.parallelism))
  }

  /** The rule fuses every run of expression operators but those that start with two filters, on which it panics. */
  lemma {:induction false} ByBuilderIs<R(!new), E(!new)>(input: seq<(Operator<R>, E)>)
    ensures ByBuilder(input).Declined? <==> input == [] || !AllExpressions(input)
    ensures ByBuilder(input).Panics? <==> input != [] && AllExpressions(input) && StartsWithTwoFilters(Stages(input))
    ensures ByBuilder(input).FusedInto? ==>
              AllExpressions(input) && BuiltFrom(seq(|input|, j requires 0 <= j < |input| => input[j].0), ByBuilder(input).node)
  {
    if input != [] && AllExpressions(input) {
      var chain := Stages(input);
      BuildRepresents(chain);
      FinishIsRight(Build(chain), chain);
      if Finish(Build(chain)).Some? {
        var ws := seq(|input|, j requires 0 <= j < |input| => input[j].0);
        assert AreStages(ws, chain);
      }
    }
  }

  lemma {:induction false} BuilderFuses<R(!new), E(!new)>()
    ensures FusesByBuilder<E, R>(ByBuilder)
  {
    forall ws: seq<Operator<R>>, es: seq<E>, w, n | FusesTo(ByBuilder, ws, es, w, n)
      ensures BuiltFrom(ws, n)
    {
      var input := Pairs(ws, es[1..] + [w]);
      ByBuilderIs(input);
      assert seq(|input|, j requires 0 <= j < |input| => input[j].0) == ws;
    }
  }

  /** The fused operator has the parallelism of the first one. */
  lemma {:induction false} BuilderTakesFirst<R(!new), E(!new)>()
    ensures TakesFirst<Operator<R>, E>(ByBuilder, (n: Operator<R>) => n.parallelism)
  {
    forall ws: seq<Operator<R>>, es: seq<E>, w, n | FusesTo(ByBuilder, ws, es, w, n)
      ensures n.parallelism == ws[0].parallelism
    {
      assert Pairs(ws, es[1..] + [w])[0].0 == ws[0];
    }
  }

  // ---------- what is fused, and when it panics ----------

  function ExpressionRules<R, E>(forward: E -> bool): Rules<Operator<R>, E> {
    Rules((n: Operator<R>, chain: seq<Operator<R>>) => n.Expression?, ByBuilder, forward)
  }

  predicate BothFilters<R>(m: Operator<R>, n: Operator<R>) {
    m.Expression? && n.Expression? && m.stage.Filter? && n.stage.Filter?
  }

  /** Runs of expression operators are never declined, and panic exactly if they start with two filters. */
  lemma {:induction false} TriedIs<R(!new), E(!new)>(g: Graph<Operator<R>, E>, forward: E -> bool, run: seq<nat>)
    requires SinglePath(g, run) && |run| > 1 && Maximal(g, ExpressionRules<R, E>(forward), run)
    ensures !Tried(ExpressionRules<R, E>(forward), g, run).Declined?
    ensures Tried(ExpressionRules<R, E>(forward), g, run).Panics? <==> BothFilters(g.nodes[run[0]], g.nodes[run[1]])
  {
    var rules := ExpressionRules<R, E>(forward);
    var input := Pairs(RunNodes(g, run), RunEdges(g, run)[1..] + [Exit(g, run).weight]);
    assert forall j :: 0 <= j < |run| ==> Fits(g, rules, run[j]);
    hide Maximal, Reachable, InEdges, OutEdges, Finish, Build;
    forall j | 0 <= j < |input|
      ensures input[j].0.Expression?
    {
      assert Fits(g, rules, run[j]);
    }
    ByBuilderIs(input);
    assert input[0].0 == g.nodes[run[0]] && input[1].0 == g.nodes[run[1]];
  }

  lemma {:induction false} TriedFirst<R(!new), E(!new)>(g: Graph<Operator<R>, E>, forward: E -> bool, run: seq<nat>)
    requires FirstTried(ExpressionRules<R, E>(forward), g, run)
    ensures Shape(g, ExpressionRules<R, E>(forward).can) && SinglePath(g, run) && |run| > 1
    ensures Maximal(g, ExpressionRules<R, E>(forward), run)
    ensures Tried(ExpressionRules<R, E>(forward), g, run).Panics? <==> BothFilters(g.nodes[run[0]], g.nodes[run[1]])
  {
    var rules := ExpressionRules<R, E>(forward);
    var k: nat :| FirstAt(rules, g, k) && Runs(g, rules)[k] == run;
    RunIsMaximal(g, rules, k);
    hide Runs, Maximal, ByBuilder;
    TriedIs(g, forward, run);
  }

  /** A fusion neither makes nor takes away a run that starts with two filters. */
  lemma {:induction false} StepKeepsHeads<R(!new), E(!new)>(g: Graph<Operator<R>, E>, h: Graph<Operator<R>, E>,
                                                           forward: E -> bool)
    requires FusionStep(ExpressionRules<R, E>(forward), g, h)
    ensures HasHead(g, ExpressionRules<R, E>(forward), BothFilters) <==> HasHead(h, ExpressionRules<R, E>(forward), BothFilters)
  {
    var rules := ExpressionRules<R, E>(forward);
    var names, run, n :| FusedAt(rules, g, h, names, run, n);
    TriedFirst(g, forward, run);
    assert Tried(rules, g, run) == FusedInto(n);
    hide Maximal, Reachable, ByBuilder, Replaced, Shape, SinglePath, FirstTried, Tried, HasHead, RunNodes, RunEdges;
    ShapeKept(g, h, names, run, [n], [Entry(g, run).weight], rules.can);
    assert Contracted(rules, g, h, names, run, n);
    InRun(g, run);
    HeadsAfter(rules, g, h, names, run, n, BothFilters);
  }

  lemma {:induction false} InRun<N(!new), E(!new)>(g: Graph<N, E>, run: seq<nat>)
    requires SinglePath(g, run)
    ensures forall j :: 0 <= j < |run| ==> run[j] < |g.nodes|
  {
  }

  lemma {:induction false} StepsKeepHeads<R(!new), E(!new)>(g: Graph<Operator<R>, E>, h: Graph<Operator<R>, E>,
                                                           forward: E -> bool, k: nat)
    requires FusionSteps(ExpressionRules<R, E>(forward), g, h, k)
    ensures HasHead(g, ExpressionRules<R, E>(forward), BothFilters) <==> HasHead(h, ExpressionRules<R, E>(forward), BothFilters)
    decreases k
  {
    hide *;
    var m := LastStep(ExpressionRules<R, E>(forward), g, h, k);
    if k > 0 {
      StepsKeepHeads(g, m, forward, k - 1);
      StepKeepsHeads(m, h, forward);
    }
  }

  /** x is an expression operator with one input, over a forward edge. */
  ghost predicate FedForward<R(!new), E(!new)>(g: Graph<Operator<R>, E>, forward: E -> bool, x: nat) {
    x < |g.nodes| && g.nodes[x].Expression? && |InEdges(g.edges, x)| == 1 && forward(InEdges(g.edges, x)[0].weight)
  }

  /** No reachable expression operator is fed by a single forward edge from another one that is so fed. */
  ghost predicate AllFused<R(!new), E(!new)>(g: Graph<Operator<R>, E>, forward: E -> bool) {
    forall p: nat, x: nat :: Reachable(g, x) && FedForward(g, forward, p) && FedForward(g, forward, x) ==>
      InEdges(g.edges, x)[0].src != p
  }

  /** Nodes a and b are filters so fed, one behind the other, and what feeds a is not so fed. */
  ghost predicate FiltersAt<R(!new), E(!new)>(g: Graph<Operator<R>, E>, forward: E -> bool, a: nat, b: nat) {
    && Reachable(g, b) && FedForward(g, forward, a) && FedForward(g, forward, b) && InEdges(g.edges, b)[0].src == a
    && !FedForward(g, forward, InEdges(g.edges, a)[0].src)
    && g.nodes[a].stage.Filter? && g.nodes[b].stage.Filter?
  }

  /** Some maximal run of expression operators starts with two filters. */
  ghost predicate TwoFiltersFirst<R(!new), E(!new)>(g: Graph<Operator<R>, E>, forward: E -> bool) {
    exists a: nat, b: nat :: FiltersAt(g, forward, a, b)
  }

  lemma {:induction false} FitsIffFed<R(!new), E(!new)>(g: Graph<Operator<R>, E>, forward: E -> bool, x: nat)
    requires Shape(g, ExpressionRules<R, E>(forward).can)
    ensures Fits(g, ExpressionRules<R, E>(forward), x) <==> FedForward(g, forward, x)
  {
    var can := ExpressionRules<R, E>(forward).can;
    if x < |g.nodes| && g.nodes[x].Expression? {
      assert can(g.nodes[x], []);
    }
  }

  lemma {:induction false} HeadIffFilters<R(!new), E(!new)>(g: Graph<Operator<R>, E>, forward: E -> bool, a: nat, b: nat)
    requires Shape(g, ExpressionRules<R, E>(forward).can)
    ensures HeadPasses(g, ExpressionRules<R, E>(forward), BothFilters, a, b) <==> FiltersAt(g, forward, a, b)
  {
    var rules := ExpressionRules<R, E>(forward);
    hide Fits, Reachable, Shape;
    FitsIffFed(g, forward, a);
    FitsIffFed(g, forward, b);
    if FedForward(g, forward, a) {
      var p := InEdges(g.edges, a)[0].src;
      FitsIffFed(g, forward, p);
      assert EnteredFrom(g, p, a);
    }
  }

  lemma {:induction false} HeadsAreFilters<R(!new), E(!new)>(g: Graph<Operator<R>, E>, forward: E -> bool)
    requires Shape(g, ExpressionRules<R, E>(forward).can)
    ensures HasHead(g, ExpressionRules<R, E>(forward), BothFilters) <==> TwoFiltersFirst(g, forward)
  {
    hide HeadPasses, FiltersAt, Shape;
    var rules := ExpressionRules<R, E>(forward);
    if HasHead(g, rules, BothFilters) {
      var a: nat, b: nat :| HeadPasses(g, rules, BothFilters, a, b);
      HeadIffFilters(g, forward, a, b);
    }
    if TwoFiltersFirst(g, forward) {
      var a: nat, b: nat :| FiltersAt(g, forward, a, b);
      HeadIffFilters(g, forward, a, b);
    }
  }

  lemma {:induction false} FixpointIsFused<R(!new), E(!new)>(g: Graph<Operator<R>, E>, forward: E -> bool)
    requires NothingToFuse(ExpressionRules<R, E>(forward), g)
    ensures AllFused(g, forward) && !HasHead(g, ExpressionRules<R, E>(forward), BothFilters)
  {
    var rules := ExpressionRules<R, E>(forward);
    hide Runs, Reachable, Fits, Adjacent, ByBuilder, GoodRun, Tried;
    forall p: nat, x: nat | Reachable(g, x)
      ensures !FittingPair(g, rules, p, x)
      ensures FedForward(g, forward, p) && FedForward(g, forward, x) ==> InEdges(g.edges, x)[0].src != p
    {
      FitsIffFed(g, forward, p);
      FitsIffFed(g, forward, x);
      if FittingPair(g, rules, p, x) {
        var m := PairIsCollected(g, rules, p, x);
        LongRun(Runs(g, rules)[m], p, x);
        RunIsMaximal(g, rules, m);
        GoodIsPath(g, forward, Runs(g, rules)[m]);
        TriedIs(g, forward, Runs(g, rules)[m]);
      }
    }
  }

  lemma {:induction false} LongRun(run: seq<nat>, p: nat, x: nat)
    requires Adjacent(run, p, x)
    ensures |run| > 1
  {
  }

  lemma {:induction false} GoodIsPath<N(!new), E(!new)>(g: Graph<N, E>, forward: E -> bool, run: seq<nat>)
    requires GoodRun(g, forward, run)
    ensures SinglePath(g, run)
  {
  }

  lemma {:induction false} PanicHasHead<R(!new), E(!new)>(g: Graph<Operator<R>, E>, forward: E -> bool)
    requires PanicsFirst(ExpressionRules<R, E>(forward), g)
    ensures HasHead(g, ExpressionRules<R, E>(forward), BothFilters)
  {
    var rules := ExpressionRules<R, E>(forward);
    var run :| FirstTried(rules, g, run) && Tried(rules, g, run).Panics?;
    TriedFirst(g, forward, run);
    hide FirstTried, Tried, Maximal, Head, ByBuilder;
    HeadOfRun(rules, g, run, run[0], run[1]);
    assert HeadPasses(g, rules, BothFilters, run[0], run[1]);
  }

  /**
   * Expression fusion of a plan graph, whatever its other operators do: the loop ends, and
   * every node that is kept, sinks included, receives and sends the streams it would have
   * received and sent. It panics if and only if some maximal run of the given graph starts with
   * two filters, and otherwise leaves no two operators that it could have fused. Forward
   * edges go on joining nodes of equal parallelism.
   */
  method FuseExpressions<E(==,!new), R(==,!new)>(graph: DiGraph<Operator<R>, E>, forward: E -> bool,
                                          ghost other: (int, multiset<(E, seq<R>)>, seq<R>) -> bool)
      returns (panicked: bool, ghost names: seq<Name>)
    requires Shape(graph.View(), ExpressionRules<R, E>(forward).can)
    modifies graph
    ensures Shape(graph.View(), ExpressionRules<R, E>(forward).can) && |graph.nodes| <= |old(graph.nodes)|
    ensures SameMeaning(StreamSem(other), old(graph.View()), graph.View(), names)
    ensures SinksKept(old(graph.View()), graph.View(), names)
    ensures panicked <==> TwoFiltersFirst(old(graph.View()), forward)
    ensures !panicked ==> AllFused(graph.View(), forward)
    ensures ForwardMatches(old(graph.View()), forward, (n: Operator<R>) => n.parallelism) ==>
              ForwardMatches(graph.View(), forward, (n: Operator<R>) => n.parallelism)
  {
    var rules := ExpressionRules<R, E>(forward);
    ghost var g := graph.View();
    assert Valid(g);
    BuilderFuses<R, E>();
    FusionIsFaithful(other, rules.fuse);
    BuilderTakesFirst<R, E>();
    hide *;
    HeadsAreFilters(g, forward);
    ghost var steps;
    panicked, names, steps := Optimize(graph, rules, StreamSem(other));
    ghost var h := graph.View();
    StepsKeepHeads(g, h, forward, steps);
    if panicked {
      PanicHasHead(h, forward);
    } else {
      FixpointIsFused(h, forward);
    }
    if ForwardMatches(g, forward, (n: Operator<R>) => n.parallelism) {
      FusionsKeepForward(rules, (n: Operator<R>) => n.parallelism, g, h, steps);
    }
  }
}
