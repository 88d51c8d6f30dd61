// Windows and aggregates on streams: a window sends the batch of each window that fires, or
// what its aggregate makes of the batch. Folding by the pass is right for them, whichever
// windows fire and whatever the other operators do.
module WindowAggregates {
  import opened Messages
  import opened Digraphs
  import opened Dataflow
  import opened PathReplacement
  import opened Search
  import opened EdgeArrays
  import opened Merging
  import opened Parallelism
  import opened WindowFusion
  import opened WindowPass

  datatype Value = Plain(number: int) | Batch(numbers: seq<int>) | Size(count: nat) | Maybe(result: Option<int>)

  datatype Item = Item(time: int, key: int, value: Value)

  datatype Kind = CountAll | Min | Max | Sum

  /** The window of a key that has come to its end, with its records. */
  datatype Firing = Firing(key: int, end: int, batch: seq<int>)

  datatype Operator =
    | Window(typ: int, agg: Option<Kind>, parallelism: nat)
    | Aggregator(kind: Kind, parallelism: nat)
    | Other(id: int, parallelism: nat)

  function Least(vs: seq<int>): Option<int> {
    if vs == [] then None
    else
      var last := vs[|vs| - 1];
      match Least(vs[..|vs| - 1])
      case None => Some(last)
      case Some(m) => Some(if last < m then last else m)
  }

  function Greatest(vs: seq<int>): Option<int> {
    if vs == [] then None
    else
      var last := vs[|vs| - 1];
      match Greatest(vs[..|vs| - 1])
      case None => Some(last)
      case Some(m) => Some(if last < m then m else last)
  }

  function Total(vs: seq<int>): Option<int> {
    if vs == [] then None
    else
      match Total(vs[..|vs| - 1])
      case None => Some(vs[|vs| - 1])
      case Some(s) => Some(s + vs[|vs| - 1])
  }

  function AggregateOf(kind: Kind, vs: seq<int>): Value {
    match kind
    case CountAll => Size(|vs|)
    case Min => Maybe(Least(vs))
    case Max => Maybe(Greatest(vs))
    case Sum => Maybe(Total(vs))
  }

  // ---------- what an aggregate is ----------

  ghost predicate IsLeast(m: int, vs: seq<int>) {
    m in vs && forall x :: x in vs ==> m <= x
  }

  ghost predicate IsGreatest(m: int, vs: seq<int>) {
    m in vs && forall x :: x in vs ==> x <= m
  }

  ghost function AddedUp(vs: seq<int>): int {
    if vs == [] then 0 else vs[0] + AddedUp(vs[1..])
  }

  /** The value is the aggregate of the batch, in terms of its members. */
  ghost predicate IsAggregate(kind: Kind, vs: seq<int>, value: Value) {
    match kind
    case CountAll => value == Size(|multiset(vs)|)
    case Min => value.Maybe? && (value.result.None? <==> vs == []) && (value.result.Some? ==> IsLeast(value.result.value, vs))
    case Max => value.Maybe? && (value.result.None? <==> vs == []) && (value.result.Some? ==> IsGreatest(value.result.value, vs))
    case Sum => value.Maybe? && (value.result.None? <==> vs == []) && (value.result.Some? ==> value.result.value == AddedUp(vs))
  }

  /** A batch has one aggregate only. */
  lemma {:induction false} AggregateIsUnique(kind: Kind, vs: seq<int>, v: Value, w: Value)
    requires IsAggregate(kind, vs, v) && IsAggregate(kind, vs, w)
    ensures v == w
  {
  }

  lemma {:induction false} LeastIs(vs: seq<int>)
    ensures Least(vs).None? <==> vs == []
    ensures Least(vs).Some? ==> IsLeast(Least(vs).value, vs)
  {
    if vs != [] {
      LeastIs(vs[..|vs| - 1]);
      assert vs == vs[..|vs| - 1] + [vs[|vs| - 1]];
    }
  }

  lemma {:induction false} GreatestIs(vs: seq<int>)
    ensures Greatest(vs).None? <==> vs == []
    ensures Greatest(vs).Some? ==> IsGreatest(Greatest(vs).value, vs)
  {
    if vs != [] {
      GreatestIs(vs[..|vs| - 1]);
      assert vs == vs[..|vs| - 1] + [vs[|vs| - 1]];
    }
  }

  lemma {:induction false} AddedUpParts(a: seq<int>, b: seq<int>)
    ensures AddedUp(a + b) == AddedUp(a) + AddedUp(b)
  {
    if a == [] {
      assert a + b == b;
    } else {
      AddedUpParts(a[1..], b);
      assert (a + b)[1..] == a[1..] + b;
    }
  }

  lemma {:induction false} TotalIs(vs: seq<int>)
    ensures Total(vs).None? <==> vs == []
    ensures Total(vs).Some? ==> Total(vs).value == AddedUp(vs)
  {
    if vs != [] {
      var front, last := vs[..|vs| - 1], vs[|vs| - 1];
      TotalIs(front);
      AddedUpParts(front, [last]);
      assert vs == front + [last];
      assert [last][1..] == [];
      assert AddedUp([last]) == last;
    }
  }

  lemma {:induction false} AggregateIs(kind: Kind, vs: seq<int>)
    ensures IsAggregate(kind, vs, AggregateOf(kind, vs))
  {
    LeastIs(vs);
    GreatestIs(vs);
    TotalIs(vs);
    assert |multiset(vs)| == |vs|;
  }

  /** The sum of a batch is the sum of its parts. */
  lemma {:induction false} SumOfParts(a: seq<int>, b: seq<int>)
    requires a != [] && b != []
    ensures AggregateOf(Sum, a).result.Some? && AggregateOf(Sum, b).result.Some?
    ensures AggregateOf(Sum, a + b)
         == Maybe(Some(AggregateOf(Sum, a).result.value + AggregateOf(Sum, b).result.value))
  {
    TotalIs(a);
    TotalIs(b);
    TotalIs(a + b);
    AddedUpParts(a, b);
  }

  // ---------- the operators ----------

  /** What a window sends: one record for each firing, a tick before the end of the window. */
  function Emissions(agg: Option<Kind>, firings: seq<Firing>): (r: seq<Item>)
    ensures |r| == |firings|
  {
    seq(|firings|, i requires 0 <= i < |firings| =>
      Item(firings[i].end - 1, firings[i].key, match agg case None => Batch(firings[i].batch) case Some(k) => AggregateOf(k, firings[i].batch)))
  }

  /** What an aggregate sends: batches become their aggregates, with their time and key. */
  function Applied(kind: Kind, items: seq<Item>): (r: seq<Item>)
    ensures |r| == |items|
  {
    seq(|items|, i requires 0 <= i < |items| =>
      Item(items[i].time, items[i].key, match items[i].value case Batch(vs) => AggregateOf(kind, vs) case v => v))
  }

  /** A window with an aggregate sends, a tick before the end of each window, the aggregate of its batch. */
  lemma {:induction false} WindowEmits(kind: Kind, firings: seq<Firing>, i: nat)
    requires i < |firings|
    ensures var e := Emissions(Some(kind), firings)[i];
            e.time + 1 == firings[i].end && e.key == firings[i].key && IsAggregate(kind, firings[i].batch, e.value)
    ensures var e := Emissions(None, firings)[i];
            e.time + 1 == firings[i].end && e.key == firings[i].key && e.value == Batch(firings[i].batch)
  {
    AggregateIs(kind, firings[i].batch);
  }

  /** An aggregate operator sends, for each batch, its aggregate, with the time and the key of the batch. */
  lemma {:induction false} AggregatorEmits(kind: Kind, items: seq<Item>, i: nat)
    requires i < |items| && items[i].value.Batch?
    ensures var e := Applied(kind, items)[i];
            e.time == items[i].time && e.key == items[i].key && IsAggregate(kind, items[i].value.numbers, e.value)
  {
    AggregateIs(kind, items[i].value.numbers);
  }

  ghost predicate WindowSends<E(!new)>(fires: (int, multiset<(E, seq<Item>)>, seq<Firing>) -> bool, typ: int,
                                       agg: Option<Kind>, ins: multiset<(E, seq<Item>)>, out: seq<Item>) {
    exists firings :: fires(typ, ins, firings) && out == Emissions(agg, firings)
  }

  ghost predicate AggregateSends<E(!new)>(kind: Kind, ins: multiset<(E, seq<Item>)>, out: seq<Item>) {
    exists z :: Merges(ins, z) && out == Applied(kind, z)
  }

  /** Which windows fire on which inputs, and what other operators do, is arbitrary. */
  ghost function WindowSem<E(!new)>(fires: (int, multiset<(E, seq<Item>)>, seq<Firing>) -> bool,
                                    other: (int, multiset<(E, seq<Item>)>, seq<Item>) -> bool): Sem<Operator, E, seq<Item>> {
    (n: Operator, ins: multiset<(E, seq<Item>)>, out: seq<Item>) =>
      match n
      case Window(typ, agg, _) => WindowSends(fires, typ, agg, ins, out)
      case Aggregator(kind, _) => AggregateSends(kind, ins, out)
      case Other(id, _) => other(id, ins, out)
  }

  /** fuse_window_aggregation's tests, and the window it makes. */
  function FoldRules<E>(forward: E -> bool): WindowRules<Operator, E> {
    WindowRules(
      (n: Operator) => n.Window? && n.agg.None?,
      (n: Operator) => n.Aggregator?,
      (n: Operator, a: Operator) => if n.Window? && a.Aggregator? then Window(n.typ, Some(a.kind), n.parallelism) else n,
      forward)
  }

  lemma {:induction false} AppliedEmissions(kind: Kind, firings: seq<Firing>)
    ensures Applied(kind, Emissions(None, firings)) == Emissions(Some(kind), firings)
  {
  }

  /** The window with the aggregate sends what the window and then the aggregate send. */
  lemma {:induction false} FoldIsRight<E(!new)>(fires: (int, multiset<(E, seq<Item>)>, seq<Firing>) -> bool, typ: int,
                                               kind: Kind, w: E, ins: multiset<(E, seq<Item>)>, y: seq<Item>)
    ensures WindowSends(fires, typ, Some(kind), ins, y)
       <==> exists s :: WindowSends(fires, typ, None, ins, s) && AggregateSends(kind, multiset{(w, s)}, y)
  {
    hide Emissions, Applied, Merges;
    if WindowSends(fires, typ, Some(kind), ins, y) {
      var firings :| fires(typ, ins, firings) && y == Emissions(Some(kind), firings);
      var s := Emissions(None, firings);
      AppliedEmissions(kind, firings);
      OneStream(w, s, s);
      assert WindowSends(fires, typ, None, ins, s) && AggregateSends(kind, multiset{(w, s)}, y);
    }
    if s :| WindowSends(fires, typ, None, ins, s) && AggregateSends(kind, multiset{(w, s)}, y) {
      var firings :| fires(typ, ins, firings) && s == Emissions(None, firings);
      var z :| Merges(multiset{(w, s)}, z) && y == Applied(kind, z);
      OneStream(w, s, z);
      AppliedEmissions(kind, firings);
    }
  }

  lemma {:induction false} FoldsWindows<E(!new)>(fires: (int, multiset<(E, seq<Item>)>, seq<Firing>) -> bool,
                                                other: (int, multiset<(E, seq<Item>)>, seq<Item>) -> bool,
                                                forward: E -> bool)
    ensures FusesWindows(WindowSem(fires, other), FoldRules(forward)) && Apart(FoldRules(forward))
    ensures KeepsParallelism(FoldRules(forward), (n: Operator) => n.parallelism)
  {
    var sem, rules := WindowSem(fires, other), FoldRules(forward);
    forall n, a, w | rules.window(n) && rules.aggregate(a) && rules.forward(w)
      ensures FusesPair(sem, n, w, a, rules.fuse(n, a))
    {
      forall ins, y
        ensures NodeHolds(sem, rules.fuse(n, a), ins, y) <==> PairHolds(sem, n, w, a, ins, y)
      {
        FoldIsRight(fires, n.typ, a.kind, w, ins, y);
        hide WindowSends, AggregateSends;
        if s :| WindowSends(fires, n.typ, None, ins, s) && AggregateSends(a.kind, multiset{(w, s)}, y) {
          assert NodeHolds(sem, n, ins, s) && NodeHolds(sem, a, multiset{(w, s)}, y);
        }
      }
    }
  }

  /** Node x is an aggregate whose only input is a window without one, over a forward edge. */
  ghost predicate FeedsAggregate<E(!new)>(g: Graph<Operator, E>, forward: E -> bool, x: nat) {
    && x < |g.nodes| && g.nodes[x].Aggregator? && |InEdges(g.edges, x)| == 1 && forward(InEdges(g.edges, x)[0].weight)
    && var p := InEdges(g.edges, x)[0].src; p < |g.nodes| && g.nodes[p].Window? && g.nodes[p].agg.None?
  }

  lemma {:induction false} FoldsThese<E(!new)>(g: Graph<Operator, E>, forward: E -> bool, x: nat)
    ensures Fusable(g, FoldRules(forward), x) <==> FeedsAggregate(g, forward, x)
    ensures FeedsAggregate(g, forward, x) ==>
              FoldRules(forward).fuse(g.nodes[InEdges(g.edges, x)[0].src], g.nodes[x])
              == g.nodes[InEdges(g.edges, x)[0].src].(agg := Some(g.nodes[x].kind))
  {
  }

  lemma {:induction false} NoneLeft<E(!new)>(g: Graph<Operator, E>, forward: E -> bool)
    requires NothingToFold(g, FoldRules(forward))
    ensures forall x: nat :: Reachable(g, x) ==> !FeedsAggregate(g, forward, x)
  {
    hide Reachable, Fusable, FeedsAggregate;
    forall x: nat | Reachable(g, x)
      ensures !FeedsAggregate(g, forward, x)
    {
      FoldsThese(g, forward, x);
    }
  }

  /**
   * The pass on plans of windows and aggregates: what is left means what was given, and forward
   * edges still join equal parallelisms, if every fold was harmless, as all are on plans with
   * at most one output per node.
   */
  method FuseWindows<E(==,!new)>(graph: EdgeGraph<Operator, E>, forward: E -> bool,
                             ghost fires: (int, multiset<(E, seq<Item>)>, seq<Firing>) -> bool,
                             ghost other: (int, multiset<(E, seq<Item>)>, seq<Item>) -> bool)
      returns (ghost run: seq<State<Operator, E>>, ghost xs: seq<nat>, ghost all: seq<Name>)
    requires graph.Good()
    modifies graph
    ensures graph.Good() && forall x: nat :: Reachable(graph.View(), x) ==> !FeedsAggregate(graph.View(), forward, x)
    ensures AllHarmless(FoldRules(forward), run, xs) ==>
              SameMeaning(WindowSem(fires, other), old(graph.View()), graph.View(), all)
    ensures AllHarmless(FoldRules(forward), run, xs) && ForwardMatches(old(graph.View()), forward, (n: Operator) => n.parallelism) ==>
              ForwardMatches(graph.View(), forward, (n: Operator) => n.parallelism)
    ensures OneOut(old(graph.View())) ==> AllHarmless(FoldRules(forward), run, xs) && OneOut(graph.View())
    ensures exists names :: FoldRun(FoldRules(forward), run, xs, names)
    ensures |run| == |xs| + 1 && run[0] == State(old(graph.View()), old(graph.slots))
    ensures run[|xs|] == State(graph.View(), graph.slots)
  {
    FoldsWindows(fires, other, forward);
    assert FoldRules(forward).forward == forward;
    hide *;
    ghost var g := graph.View();
    ghost var names;
    run, xs, names, all := FuseWindowAggregation(graph, FoldRules(forward), WindowSem(fires, other));
    RunLength(FoldRules(forward), run, xs, names);
    NoneLeft(graph.View(), forward);
    if AllHarmless(FoldRules(forward), run, xs) && ForwardMatches(g, forward, (n: Operator) => n.parallelism) {
      HarmlessForward(FoldRules(forward), (n: Operator) => n.parallelism, run, xs, names);
    }
  }

  lemma {:induction false} RunLength<N(!new), E(!new)>(rules: WindowRules<N, E>, run: seq<State<N, E>>, xs: seq<nat>,
                                                      names: seq<seq<nat>>)
    requires FoldRun(rules, run, xs, names)
    ensures |run| == |xs| + 1
  {
  }
}
