// The heads of the runs to come: fusing one maximal run leaves the first two nodes of every
// other run as they are and makes no new ones, so which runs will be tried is decided by the
// graph that the optimizer starts from.
module RunHeads {
  import opened Digraphs
  import opened Dataflow
  import opened PathReplacement
  import opened Shapes
  import opened Search
  import opened GraphOptimizer
  import opened MaximalRuns

  /** a and b are the first two nodes of a maximal run. */
  ghost predicate Head<N(!new), E(!new)>(g: Graph<N, E>, rules: Rules<N, E>, a: nat, b: nat) {
    && FittingPair(g, rules, a, b) && Reachable(g, b)
    && forall p: nat :: EnteredFrom(g, p, a) ==> !Fits(g, rules, p)
  }

  /** Some maximal run starts with two nodes that pass the test. */
  ghost predicate HasHead<N(!new), E(!new)>(g: Graph<N, E>, rules: Rules<N, E>, test: (N, N) -> bool) {
    exists a: nat, b: nat :: HeadPasses(g, rules, test, a, b)
  }

  ghost predicate HeadPasses<N(!new), E(!new)>(g: Graph<N, E>, rules: Rules<N, E>, test: (N, N) -> bool, a: nat, b: nat) {
    Head(g, rules, a, b) && a < |g.nodes| && b < |g.nodes| && test(g.nodes[a], g.nodes[b])
  }

  /** h is g with the maximal run replaced by one node. */
  ghost predicate Contracted<N(!new), E(!new)>(rules: Rules<N, E>, g: Graph<N, E>, h: Graph<N, E>, names: seq<nat>,
                                               run: seq<nat>, n: N) {
    && Shape(g, rules.can) && Shape(h, rules.can) && Local(rules)
    && GoodRun(g, rules.forward, run) && Replaced(h, g, names, run, [n], [Entry(g, run).weight]) && Maximal(g, rules, run)
  }

  // ---------- old and new nodes ----------

  /** The node of g whose output node i of h has. */
  ghost function Origin(names: seq<nat>, n: nat, run: seq<nat>, i: nat): nat
    requires run != [] && i < |names|
  {
    if names[i] == n then run[|run| - 1] else names[i]
  }

  /** The node of h that has taken the place of v. */
  ghost function Image(names: seq<nat>, n: nat, run: seq<nat>, v: nat): (i: nat)
    requires n in names && (v in run || v in names)
    ensures i < |names|
  {
    if v in run then IndexOf(names, n) else IndexOf(names, v)
  }

  lemma {:induction false} NamesAre<N(!new), E(!new)>(rules: Rules<N, E>, g: Graph<N, E>, h: Graph<N, E>, names: seq<nat>,
                                                      run: seq<nat>, n: N)
    requires Contracted(rules, g, h, names, run, n)
    ensures |names| == |h.nodes| && Injective(names) && |g.nodes| in names && run != [] && Valid(g) && Valid(h)
    ensures SinglePath(g, run)
    ensures forall i :: 0 <= i < |names| ==> names[i] <= |g.nodes| && names[i] !in run
    ensures forall i :: 0 <= i < |names| && names[i] < |g.nodes| ==> h.nodes[i] == g.nodes[names[i]]
    ensures forall v: nat :: v < |g.nodes| && v !in run ==> v in names
    ensures forall k :: 0 <= k < |run| ==> run[k] < |g.nodes|
  {
    hide InEdges, OutEdges, Kept, Mapped, NewEdges, Fits, Reachable;
    assert Extended(g, run, [n], [Entry(g, run).weight]).nodes == g.nodes + [n];
    assert |g.nodes| !in run;
  }

  ghost function Ids(): nat -> nat {
    (v: nat) => v
  }

  ghost function Mids(n: nat, last: nat): nat -> nat {
    (v: nat) => if v == n then last else v
  }

  ghost function Origins(names: seq<nat>, n: nat, run: seq<nat>): nat -> nat
    requires run != []
  {
    (i: nat) => if i < |names| then Origin(names, n, run, i) else 0
  }

  /** A kept node has the inputs it had, with the run's last node in place of the new one. */
  lemma {:induction false} KeptInputs<N(!new), E(!new)>(rules: Rules<N, E>, g: Graph<N, E>, h: Graph<N, E>, names: seq<nat>,
                                                       run: seq<nat>, n: N, i: nat)
    requires Contracted(rules, g, h, names, run, n) && i < |names| && names[i] < |g.nodes|
    ensures run != [] && |InEdges(h.edges, i)| == |InEdges(g.edges, names[i])|
    ensures Feeds(h.edges, i, Origins(names, |g.nodes|, run)) == Feeds(g.edges, names[i], Ids())
  {
    hide Feeds, Fits, Reachable, Kept, Mapped, InEdges, OutEdges;
    InDegreeOutside(g, h, names, run, [n], [Entry(g, run).weight], i);
    OutsideFed(g, h, names, run, [n], [Entry(g, run).weight], i, Ids(), Mids(|g.nodes|, run[|run| - 1]),
               Origins(names, |g.nodes|, run));
  }

  /** The new node is entered from where the run was entered. */
  lemma {:induction false} NewInput<N(!new), E(!new)>(rules: Rules<N, E>, g: Graph<N, E>, h: Graph<N, E>, names: seq<nat>,
                                                     run: seq<nat>, n: N, i: nat, q: nat)
    requires Contracted(rules, g, h, names, run, n) && i < |names| && names[i] == |g.nodes| && EnteredFrom(h, q, i)
    ensures q < |names| && names[q] == InEdges(g.edges, run[0])[0].src && EnteredFrom(g, names[q], run[0])
    ensures names[q] < |g.nodes|
  {
    NamesAre(rules, g, h, names, run, n);
    EntryAndExit(g, run);
    var e := EnteredBy(h, q, i);
    var mid, out := Mids(|g.nodes|, run[|run| - 1]), Origins(names, |g.nodes|, run);
    assert Entry(g, run).src !in run;
    assert Without(h, Extended(g, run, [n], [Entry(g, run).weight]), names, RunSet(run));
    hide Contracted, Feeds, Kept, Mapped, InEdges, OutEdges, Extended;
    FeedsMapped(h.edges, names, i, out, mid);
    NewPathFeeds(g, run, [n], [Entry(g, run).weight], |g.nodes|, mid);
    SingleFeed(h.edges, i, out, e);
    assert (e.weight, out(e.src)) in multiset{(Entry(g, run).weight, mid(Entry(g, run).src))};
  }

  /** The single input of a kept node. */
  lemma {:induction false} KeptInput<N(!new), E(!new)>(rules: Rules<N, E>, g: Graph<N, E>, h: Graph<N, E>, names: seq<nat>,
                                                      run: seq<nat>, n: N, i: nat, e: Edge<E>, f: Edge<E>)
    requires Contracted(rules, g, h, names, run, n) && i < |names| && names[i] < |g.nodes| && run != []
    requires InEdges(h.edges, i) == [e] && InEdges(g.edges, names[i]) == [f]
    ensures e.weight == f.weight && e.src < |names| && Origin(names, |g.nodes|, run, e.src) == f.src
  {
    NamesAre(rules, g, h, names, run, n);
    KeptInputs(rules, g, h, names, run, n, i);
    InEdgesAre(h.edges, i);
    InEdgesAre(g.edges, names[i]);
    assert e in InEdges(h.edges, i) && f in InEdges(g.edges, names[i]);
    hide Contracted, Feeds, InEdges;
    var out := Origins(names, |g.nodes|, run);
    SingleFeed(h.edges, i, out, e);
    SingleFeed(g.edges, names[i], Ids(), f);
    assert (e.weight, out(e.src)) in multiset{(f.weight, f.src)};
  }

  /** A kept node fits in the new graph exactly if it did in the old. */
  lemma {:induction false} FitsAsBefore<N(!new), E(!new)>(rules: Rules<N, E>, g: Graph<N, E>, h: Graph<N, E>,
                                                         names: seq<nat>, run: seq<nat>, n: N, i: nat)
    requires Contracted(rules, g, h, names, run, n) && i < |names| && names[i] < |g.nodes|
    ensures Fits(h, rules, i) <==> Fits(g, rules, names[i])
  {
    NamesAre(rules, g, h, names, run, n);
    KeptInputs(rules, g, h, names, run, n, i);
    var es, fs := InEdges(h.edges, i), InEdges(g.edges, names[i]);
    hide Contracted, Feeds, InEdges;
    if |es| == 1 {
      assert es == [es[0]] && fs == [fs[0]];
      KeptInput(rules, g, h, names, run, n, i, es[0], fs[0]);
    }
  }

  /** What a kept node is entered from. */
  lemma {:induction false} EnteredAsBefore<N(!new), E(!new)>(rules: Rules<N, E>, g: Graph<N, E>, h: Graph<N, E>,
                                                            names: seq<nat>, run: seq<nat>, n: N, i: nat, q: nat)
    requires Contracted(rules, g, h, names, run, n) && i < |names| && names[i] < |g.nodes| && EnteredFrom(h, q, i)
    ensures run != [] && q < |names| && EnteredFrom(g, Origin(names, |g.nodes|, run, q), names[i])
  {
    NamesAre(rules, g, h, names, run, n);
    KeptInputs(rules, g, h, names, run, n, i);
    var es, fs := InEdges(h.edges, i), InEdges(g.edges, names[i]);
    hide Contracted, Feeds, InEdges;
    assert es == [es[0]] && fs == [fs[0]];
    KeptInput(rules, g, h, names, run, n, i, es[0], fs[0]);
  }

  lemma {:induction false} EnteredOnce<N(!new), E(!new)>(g: Graph<N, E>, p: nat, q: nat, x: nat)
    requires EnteredFrom(g, p, x) && EnteredFrom(g, q, x)
    ensures p == q
  {
  }

  // ---------- the ends of the run ----------

  lemma {:induction false} BesideRun<N(!new), E(!new)>(rules: Rules<N, E>, g: Graph<N, E>, h: Graph<N, E>, names: seq<nat>,
                                                      run: seq<nat>, n: N, p: nat, x: nat)
    requires Contracted(rules, g, h, names, run, n) && EnteredFrom(g, p, x)
    ensures run != []
    ensures p == run[|run| - 1] ==> !Fits(g, rules, x)
    ensures x == run[0] ==> !Fits(g, rules, p)
  {
    var e := EnteredBy(g, p, x);
    hide InEdges, OutEdges, Fits, Reachable, Replaced;
  }

  /** Within the run each node is entered from the one before it. */
  lemma {:induction false} WithinRun<N(!new), E(!new)>(g: Graph<N, E>, run: seq<nat>, k: nat)
    requires SinglePath(g, run) && 0 < k < |run|
    ensures EnteredFrom(g, run[k - 1], run[k])
  {
    assert Linked(g.edges, run[k - 1], run[k]);
  }

  /** The successor of a node of the run before its last is the next one. */
  lemma {:induction false} NextInRun<N(!new), E(!new)>(g: Graph<N, E>, run: seq<nat>, k: nat, x: nat)
    requires SinglePath(g, run) && k + 1 < |run| && EnteredFrom(g, run[k], x)
    ensures x == run[k + 1]
  {
    var j := k + 1;
    assert Linked(g.edges, run[j - 1], run[j]);
    var e := EnteredBy(g, run[k], x);
    OutEdgesAre(g.edges, run[k]);
    assert e in OutEdges(g.edges, run[k]);
    Only(OutEdges(g.edges, run[k]), e);
  }

  // ---------- reachability ----------

  lemma {:induction false} NewEdge<N(!new), E(!new)>(rules: Rules<N, E>, g: Graph<N, E>, h: Graph<N, E>, names: seq<nat>,
                                                    run: seq<nat>, n: N, f: Edge<E>) returns (e: Edge<E>)
    requires Contracted(rules, g, h, names, run, n) && f.src !in run && f.tgt !in run
    requires f in Extended(g, run, [n], [Entry(g, run).weight]).edges
    ensures e in h.edges && e.src < |names| && e.tgt < |names| && names[e.src] == f.src && names[e.tgt] == f.tgt
  {
    var ext := Extended(g, run, [n], [Entry(g, run).weight]);
    assert Mapped(h.edges, names) == Kept(ext.edges, RunSet(run)) && Valid(h) && |names| == |h.nodes|;
    KeptAre(ext.edges, RunSet(run));
    hide Contracted, Kept, InEdges, OutEdges, Extended;
    assert f in Mapped(h.edges, names);
    var k :| 0 <= k < |h.edges| && Mapped(h.edges, names)[k] == f;
    e := h.edges[k];
  }

  /** The edges of the new node. */
  lemma {:induction false} PathIsThere<N(!new), E(!new)>(g: Graph<N, E>, run: seq<nat>, n: N)
    requires Valid(g) && SinglePath(g, run)
    ensures var ext := Extended(g, run, [n], [Entry(g, run).weight]);
            && Edge(Entry(g, run).src, |g.nodes|, Entry(g, run).weight) in ext.edges
            && Edge(|g.nodes|, Exit(g, run).tgt, Exit(g, run).weight) in ext.edges
            && forall e :: e in g.edges ==> e in ext.edges
  {
    var path := NewEdges(|g.nodes|, Entry(g, run).src, Exit(g, run).tgt, [Entry(g, run).weight], Exit(g, run).weight);
    assert path[0] == Edge(Entry(g, run).src, |g.nodes|, Entry(g, run).weight);
    assert path[1] == Edge(|g.nodes|, Exit(g, run).tgt, Exit(g, run).weight);
    hide InEdges, OutEdges;
    assert path[0] in path && path[1] in path;
  }

  /** An edge of the old graph has an image, unless it is within the run. */
  lemma {:induction false} EdgeImage<N(!new), E(!new)>(rules: Rules<N, E>, g: Graph<N, E>, h: Graph<N, E>, names: seq<nat>,
                                                      run: seq<nat>, n: N, f: Edge<E>, c: set<nat>)
    requires Contracted(rules, g, h, names, run, n) && f in g.edges && Closed(h, c)
    requires f.src < |g.nodes| && f.tgt < |g.nodes| && |g.nodes| in names
    requires f.src in run || f.src in names
    requires f.tgt in run || f.tgt in names
    requires Image(names, |g.nodes|, run, f.src) in c
    ensures Image(names, |g.nodes|, run, f.tgt) in c
  {
    NamesAre(rules, g, h, names, run, n);
    EntryAndExit(g, run);
    PathIsThere(g, run, n);
    assert Entry(g, run).src !in run && Exit(g, run).tgt !in run && |g.nodes| !in run;
    hide Contracted, InEdges, OutEdges, SinglePath, Extended, Injective;
    var e: Edge<E>;
    if f.src !in run && f.tgt !in run {
      e := NewEdge(rules, g, h, names, run, n, f);
      IndexIs(names, e.src);
      IndexIs(names, e.tgt);
    } else if f.src !in run {
      EntersAtEntry(g, run, f);
      InEdgesAre(g.edges, run[0]);
      assert f in InEdges(g.edges, run[0]);
      e := NewEdge(rules, g, h, names, run, n, Edge(f.src, |g.nodes|, f.weight));
      IndexIs(names, e.src);
      IndexIs(names, e.tgt);
    } else if f.tgt !in run {
      LeavesAtExit(g, run, f);
      OutEdgesAre(g.edges, run[|run| - 1]);
      assert f in OutEdges(g.edges, run[|run| - 1]);
      e := NewEdge(rules, g, h, names, run, n, Edge(|g.nodes|, f.tgt, f.weight));
      IndexIs(names, e.src);
      IndexIs(names, e.tgt);
    }
  }

  /** What is reachable in the old graph is in the new one. */
  lemma {:induction false} StillReachable<N(!new), E(!new)>(rules: Rules<N, E>, g: Graph<N, E>, h: Graph<N, E>,
                                                           names: seq<nat>, run: seq<nat>, n: N, i: nat)
    requires Contracted(rules, g, h, names, run, n) && i < |names| && names[i] < |g.nodes| && Reachable(g, names[i])
    ensures Reachable(h, i)
  {
    NamesAre(rules, g, h, names, run, n);
    forall c' | Closed(h, c') && HasSources(h, c')
      ensures i in c'
    {
      var c := set v | v in UpTo(|g.nodes|) && Image(names, |g.nodes|, run, v) in c';
      forall f | f in g.edges && f.src in c
        ensures f.tgt in c
      {
        EdgeImage(rules, g, h, names, run, n, f, c');
      }
      forall v: nat | v < |g.nodes| && InEdges(g.edges, v) == []
        ensures v in c
      {
        SourceImage(rules, g, h, names, run, n, v);
      }
      assert Closed(g, c) && HasSources(g, c);
      IndexIs(names, i);
    }
  }

  lemma {:induction false} SourceImage<N(!new), E(!new)>(rules: Rules<N, E>, g: Graph<N, E>, h: Graph<N, E>,
                                                        names: seq<nat>, run: seq<nat>, n: N, v: nat)
    requires Contracted(rules, g, h, names, run, n) && v < |g.nodes| && InEdges(g.edges, v) == []
    ensures v !in run && v in names && InEdges(h.edges, IndexOf(names, v)) == []
  {
    NamesAre(rules, g, h, names, run, n);
    KeptInputs(rules, g, h, names, run, n, IndexOf(names, v));
  }

  /** A closed set that has the start of the run has all of it. */
  lemma {:induction false} RunInClosed<N(!new), E(!new)>(g: Graph<N, E>, run: seq<nat>, c: set<nat>, k: nat)
    requires SinglePath(g, run) && Closed(g, c) && run[0] in c && k < |run|
    ensures run[k] in c
    decreases k
  {
    if k > 0 {
      RunInClosed(g, run, c, k - 1);
      WithinRun(g, run, k);
      var e := EnteredBy(g, run[k - 1], run[k]);
    }
  }

  /** An edge of the new graph keeps a closed set of the old one. */
  lemma {:induction false} EdgeOrigin<N(!new), E(!new)>(rules: Rules<N, E>, g: Graph<N, E>, h: Graph<N, E>, names: seq<nat>,
                                                       run: seq<nat>, n: N, e: Edge<E>, c: set<nat>)
    requires Contracted(rules, g, h, names, run, n) && e in h.edges && Closed(g, c) && run != []
    requires e.src < |names| && e.tgt < |names| && Origin(names, |g.nodes|, run, e.src) in c
    ensures Origin(names, |g.nodes|, run, e.tgt) in c
  {
    NamesAre(rules, g, h, names, run, n);
    EntryAndExit(g, run);
    var ext := Extended(g, run, [n], [Entry(g, run).weight]);
    var k :| 0 <= k < |h.edges| && h.edges[k] == e;
    var f := Mapped(h.edges, names)[k];
    KeptAre(ext.edges, RunSet(run));
    assert Mapped(h.edges, names) == Kept(ext.edges, RunSet(run));
    assert f in Kept(ext.edges, RunSet(run));
    hide Contracted, InEdges, OutEdges, Kept, Extended;
    FusedEdges(g, run, n, f);
    if f.tgt == |g.nodes| && f !in g.edges {
      RunInClosed(g, run, c, |run| - 1);
    }
  }

  /** A source of the new graph was one of the old. */
  lemma {:induction false} SourceOrigin<N(!new), E(!new)>(rules: Rules<N, E>, g: Graph<N, E>, h: Graph<N, E>,
                                                         names: seq<nat>, run: seq<nat>, n: N, j: nat)
    requires Contracted(rules, g, h, names, run, n) && j < |names| && InEdges(h.edges, j) == []
    ensures names[j] < |g.nodes| && InEdges(g.edges, names[j]) == []
  {
    hide *;
    NamesAre(rules, g, h, names, run, n);
    if names[j] == |g.nodes| {
      NewHasInput(rules, g, h, names, run, n, j);
    } else {
      KeptInputs(rules, g, h, names, run, n, j);
    }
  }

  lemma {:induction false} NewHasInput<N(!new), E(!new)>(rules: Rules<N, E>, g: Graph<N, E>, h: Graph<N, E>,
                                                        names: seq<nat>, run: seq<nat>, n: N, j: nat)
    requires Contracted(rules, g, h, names, run, n) && j < |names| && names[j] == |g.nodes|
    ensures |InEdges(h.edges, j)| == 1
  {
    hide InEdges, OutEdges, Fits, Reachable, Replaced;
    InDegreeInside(g, h, names, run, [n], [Entry(g, run).weight], j);
  }

  /** The nodes of h whose output is that of a node of c. */
  ghost function CopiesOf(names: seq<nat>, n: nat, run: seq<nat>, c: set<nat>): (r: set<nat>)
    requires run != []
    ensures forall j: nat :: j in r <==> j < |names| && Origin(names, n, run, j) in c
  {
    set j | j in UpTo(|names|) && Origin(names, n, run, j) in c
  }

  lemma {:induction false} OriginsClosed<N(!new), E(!new)>(rules: Rules<N, E>, g: Graph<N, E>, h: Graph<N, E>,
                                                          names: seq<nat>, run: seq<nat>, n: N, c: set<nat>)
    requires Contracted(rules, g, h, names, run, n) && Closed(g, c) && HasSources(g, c) && run != []
    ensures Closed(h, CopiesOf(names, |g.nodes|, run, c)) && HasSources(h, CopiesOf(names, |g.nodes|, run, c))
  {
    NamesAre(rules, g, h, names, run, n);
    var c' := CopiesOf(names, |g.nodes|, run, c);
    hide Contracted, InEdges, CopiesOf, SinglePath, Injective;
    forall e | e in h.edges && e.src in c'
      ensures e.tgt in c'
    {
      EdgeOrigin(rules, g, h, names, run, n, e, c);
    }
    forall j: nat | j < |h.nodes| && InEdges(h.edges, j) == []
      ensures j in c'
    {
      SourceOrigin(rules, g, h, names, run, n, j);
    }
  }

  /** What is reachable in the new graph was in the old one. */
  lemma {:induction false} WasReachable<N(!new), E(!new)>(rules: Rules<N, E>, g: Graph<N, E>, h: Graph<N, E>,
                                                         names: seq<nat>, run: seq<nat>, n: N, i: nat)
    requires Contracted(rules, g, h, names, run, n) && i < |names| && names[i] < |g.nodes| && Reachable(h, i)
    ensures Reachable(g, names[i])
  {
    NamesAre(rules, g, h, names, run, n);
    hide Contracted, InEdges, CopiesOf, SinglePath, Injective, Closed, HasSources, Valid;
    forall c | Closed(g, c) && HasSources(g, c)
      ensures names[i] in c
    {
      OriginsClosed(rules, g, h, names, run, n, c);
      assert i in CopiesOf(names, |g.nodes|, run, c);
    }
  }

  // ---------- heads ----------

  /** A head beside the run stays one. */
  lemma {:induction false} HeadStays<N(!new), E(!new)>(rules: Rules<N, E>, g: Graph<N, E>, h: Graph<N, E>, names: seq<nat>,
                                                      run: seq<nat>, n: N, a: nat, b: nat)
    requires Contracted(rules, g, h, names, run, n) && Head(g, rules, a, b) && a !in run
    ensures a in names && b in names && a < |g.nodes| && b < |g.nodes| && Head(h, rules, IndexOf(names, a), IndexOf(names, b))
  {
    NamesAre(rules, g, h, names, run, n);
    HeadOutside(rules, g, h, names, run, n, a, b);
    assert Fits(g, rules, a) && Fits(g, rules, b);
    assert a < |g.nodes| && b < |g.nodes|;
    var i, j := IndexOf(names, a), IndexOf(names, b);
    hide Contracted, Fits, Reachable, InEdges, Injective;
    FitsAsBefore(rules, g, h, names, run, n, i);
    FitsAsBefore(rules, g, h, names, run, n, j);
    StillReachable(rules, g, h, names, run, n, j);
    KeptInputs(rules, g, h, names, run, n, j);
    var q := InEdges(h.edges, j)[0].src;
    assert EnteredFrom(h, q, j);
    EnteredAsBefore(rules, g, h, names, run, n, j, q);
    EnteredOnce(g, a, Origin(names, |g.nodes|, run, q), b);
    assert run[|run| - 1] in run;
    IndexIs(names, q);
    forall p: nat | EnteredFrom(h, p, i)
      ensures !Fits(h, rules, p)
    {
      EnteredAsBefore(rules, g, h, names, run, n, i, p);
      BesideRun(rules, g, h, names, run, n, Origin(names, |g.nodes|, run, p), a);
      if names[p] < |g.nodes| {
        FitsAsBefore(rules, g, h, names, run, n, p);
      }
    }
  }

  /** The second node of a head beside the run is not in the run. */
  lemma {:induction false} HeadOutside<N(!new), E(!new)>(rules: Rules<N, E>, g: Graph<N, E>, h: Graph<N, E>,
                                                        names: seq<nat>, run: seq<nat>, n: N, a: nat, b: nat)
    requires Contracted(rules, g, h, names, run, n) && Head(g, rules, a, b) && a !in run
    ensures b !in run
  {
    if b in run {
      NamesAre(rules, g, h, names, run, n);
      var k :| 0 <= k < |run| && run[k] == b;
      hide Contracted, Fits, Reachable, InEdges;
      if k == 0 {
        BesideRun(rules, g, h, names, run, n, a, b);
      } else {
        WithinRun(g, run, k);
      }
      assert false;
    }
  }

  /** The new node is part of no head. */
  lemma {:induction false} NewIsNoHead<N(!new), E(!new)>(rules: Rules<N, E>, g: Graph<N, E>, h: Graph<N, E>,
                                                        names: seq<nat>, run: seq<nat>, n: N, i: nat, j: nat)
    requires Contracted(rules, g, h, names, run, n) && Head(h, rules, i, j)
    ensures i < |names| && j < |names| && names[i] < |g.nodes| && names[j] < |g.nodes|
  {
    NamesAre(rules, g, h, names, run, n);
    assert Fits(h, rules, i) && Fits(h, rules, j);
    assert i < |names| && j < |names|;
    hide Contracted, Fits, Reachable, InEdges;
    if names[j] == |g.nodes| {
      NewInput(rules, g, h, names, run, n, j, i);
      FitsAsBefore(rules, g, h, names, run, n, i);
      BesideRun(rules, g, h, names, run, n, names[i], run[0]);
    } else if names[i] == |g.nodes| {
      EnteredAsBefore(rules, g, h, names, run, n, j, i);
      FitsAsBefore(rules, g, h, names, run, n, j);
      BesideRun(rules, g, h, names, run, n, run[|run| - 1], names[j]);
    }
  }

  /** A head of the new graph was one of the old. */
  lemma {:induction false} HeadWas<N(!new), E(!new)>(rules: Rules<N, E>, g: Graph<N, E>, h: Graph<N, E>, names: seq<nat>,
                                                    run: seq<nat>, n: N, i: nat, j: nat)
    requires Contracted(rules, g, h, names, run, n) && Head(h, rules, i, j)
    ensures i < |names| && j < |names| && names[i] < |g.nodes| && names[j] < |g.nodes| && Head(g, rules, names[i], names[j])
  {
    NewIsNoHead(rules, g, h, names, run, n, i, j);
    hide Contracted, Fits, Reachable, InEdges;
    FitsAsBefore(rules, g, h, names, run, n, i);
    FitsAsBefore(rules, g, h, names, run, n, j);
    WasReachable(rules, g, h, names, run, n, j);
    EnteredAsBefore(rules, g, h, names, run, n, j, i);
    KeptInputs(rules, g, h, names, run, n, i);
    forall p: nat | EnteredFrom(g, p, names[i])
      ensures !Fits(g, rules, p)
    {
      var q := InEdges(h.edges, i)[0].src;
      assert EnteredFrom(h, q, i);
      EnteredAsBefore(rules, g, h, names, run, n, i, q);
      EnteredOnce(g, p, Origin(names, |g.nodes|, run, q), names[i]);
      if p == run[|run| - 1] {
        BesideRun(rules, g, h, names, run, n, p, names[i]);
      } else {
        FitsAsBefore(rules, g, h, names, run, n, q);
      }
    }
  }

  /** The only head within a maximal run is its start. */
  lemma {:induction false} HeadOfRun<N(!new), E(!new)>(rules: Rules<N, E>, g: Graph<N, E>, run: seq<nat>, a: nat, b: nat)
    requires SinglePath(g, run) && Maximal(g, rules, run) && |run| > 1
    ensures Head(g, rules, run[0], run[1])
    ensures Head(g, rules, a, b) && a in run ==> a == run[0] && b == run[1]
  {
    hide Reachable;
    WithinRun(g, run, 1);
    if Head(g, rules, a, b) && a in run {
      var k :| 0 <= k < |run| && run[k] == a;
      if k > 0 {
        WithinRun(g, run, k);
        assert false;
      }
      hide Fits, InEdges;
      NextInRun(g, run, 0, b);
    }
  }

  /** After a fusion the heads are those of before, without that of the run. */
  lemma {:induction false} HeadsAfter<N(!new), E(!new)>(rules: Rules<N, E>, g: Graph<N, E>, h: Graph<N, E>, names: seq<nat>,
                                                       run: seq<nat>, n: N, test: (N, N) -> bool)
    requires Contracted(rules, g, h, names, run, n) && |run| > 1 && run[0] < |g.nodes| && run[1] < |g.nodes|
    ensures HasHead(g, rules, test) <==> HasHead(h, rules, test) || test(g.nodes[run[0]], g.nodes[run[1]])
  {
    NamesAre(rules, g, h, names, run, n);
    assert Maximal(g, rules, run);
    hide Contracted, Fits, Reachable, Maximal, SinglePath, Injective, Head, Valid;
    HeadOfRun(rules, g, run, run[0], run[1]);
    if test(g.nodes[run[0]], g.nodes[run[1]]) {
      assert HeadPasses(g, rules, test, run[0], run[1]);
    }
    if HasHead(h, rules, test) {
      var i: nat, j: nat :| HeadPasses(h, rules, test, i, j);
      HeadWas(rules, g, h, names, run, n, i, j);
      assert HeadPasses(g, rules, test, names[i], names[j]);
    }
    if HasHead(g, rules, test) {
      var a: nat, b: nat :| HeadPasses(g, rules, test, a, b);
      if a in run {
        HeadOfRun(rules, g, run, a, b);
      } else {
        HeadStays(rules, g, h, names, run, n, a, b);
        assert HeadPasses(h, rules, test, IndexOf(names, a), IndexOf(names, b));
      }
    }
  }
}
