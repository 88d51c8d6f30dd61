// The meaning of a plan graph: an assignment of a stream to every node such that each node's
// stream is one that its operator may produce from the streams on its incoming edges.
// Replacing a path that is entered and left by single edges preserves that meaning.
module Dataflow {
  import opened Digraphs

  /** What an operator may output: the node, its (edge weight, stream) inputs, its output. */
  type Sem<!N(!new), !E(==, !new), !S(==, !new)> = (N, multiset<(E, S)>, S) -> bool

  /** The inputs of node i under the assignment out. */
  ghost function Feeds<E(!new), S(!new)>(es: seq<Edge<E>>, i: nat, out: nat -> S): multiset<(E, S)> {
    if es == [] then multiset{}
    else
      var last := es[|es| - 1];
      Feeds(es[..|es| - 1], i, out) + FeedOf(last, i, out)
  }

  ghost predicate NodeHolds<N(!new), E(!new), S(!new)>(sem: Sem<N, E, S>, n: N, ins: multiset<(E, S)>, s: S) {
    sem(n, ins, s)
  }

  ghost predicate Solution<N(!new), E(!new), S(!new)>(sem: Sem<N, E, S>, g: Graph<N, E>, out: nat -> S) {
    forall i: nat :: i < |g.nodes| ==> NodeHolds(sem, g.nodes[i], Feeds(g.edges, i, out), out(i))
  }

  // ---------- inputs ----------

  lemma {:induction false} SumAssociates<T(!new)>(a: multiset<T>, b: multiset<T>, c: multiset<T>)
    ensures a + (b + c) == a + b + c
  {
  }

  lemma {:induction false} SumEmpty<T(!new)>(a: multiset<T>)
    ensures a + multiset{} == a && multiset{} + a == a
  {
  }

  /** The input that edge e brings to node i. */
  ghost function FeedOf<E(!new), S(!new)>(e: Edge<E>, i: nat, out: nat -> S): multiset<(E, S)> {
    if e.tgt == i then multiset{(e.weight, out(e.src))} else multiset{}
  }

  lemma {:induction false} FeedsAppend<E(!new), S(!new)>(es: seq<Edge<E>>, e: Edge<E>, i: nat, out: nat -> S)
    ensures Feeds(es + [e], i, out) == Feeds(es, i, out) + FeedOf(e, i, out)
  {
    assert (es + [e])[..|es|] == es;
  }

  lemma {:induction false} FeedsConcat<E(!new), S(!new)>(es: seq<Edge<E>>, fs: seq<Edge<E>>, i: nat, out: nat -> S)
    ensures Feeds(es + fs, i, out) == Feeds(es, i, out) + Feeds(fs, i, out)
    decreases |fs|
  {
    if fs == [] {
      assert es + fs == es;
      SumEmpty(Feeds(es, i, out));
    } else {
      hide *;
      var front, last := fs[..|fs| - 1], fs[|fs| - 1];
      assert es + fs == es + front + [last];
      assert fs == front + [last];
      calc {
        Feeds(es + fs, i, out);
        { FeedsAppend(es + front, last, i, out); }
        Feeds(es + front, i, out) + FeedOf(last, i, out);
        { FeedsConcat(es, front, i, out); }
        Feeds(es, i, out) + Feeds(front, i, out) + FeedOf(last, i, out);
        { SumAssociates(Feeds(es, i, out), Feeds(front, i, out), FeedOf(last, i, out)); }
        Feeds(es, i, out) + (Feeds(front, i, out) + FeedOf(last, i, out));
        { FeedsAppend(front, last, i, out); }
        Feeds(es, i, out) + Feeds(fs, i, out);
      }
    }
  }

  lemma {:induction false} FeedsOne<E(!new), S(!new)>(e: Edge<E>, i: nat, out: nat -> S)
    ensures Feeds([e], i, out) == FeedOf(e, i, out)
  {
    assert [e][..0] == [];
  }

  /** Only the incoming edges matter. */
  lemma {:induction false} FeedsOfIn<E(!new), S(!new)>(es: seq<Edge<E>>, i: nat, out: nat -> S)
    ensures Feeds(es, i, out) == Feeds(InEdges(es, i), i, out)
    decreases |es|
  {
    if es != [] {
      var front, last := es[..|es| - 1], es[|es| - 1];
      FeedsOfIn(front, i, out);
      if last.tgt == i {
        FeedsAppend(InEdges(front, i), last, i, out);
        assert InEdges(es, i) == InEdges(front, i) + [last];
      } else {
        assert InEdges(es, i) == InEdges(front, i);
      }
    }
  }

  lemma {:induction false} FeedsCount<E(!new), S(!new)>(es: seq<Edge<E>>, i: nat, out: nat -> S)
    ensures |Feeds(es, i, out)| == |InEdges(es, i)|
    decreases |es|
  {
    if es != [] {
      FeedsCount(es[..|es| - 1], i, out);
    }
  }

  lemma {:induction false} SingleFeed<E(!new), S(!new)>(es: seq<Edge<E>>, i: nat, out: nat -> S, e: Edge<E>)
    requires InEdges(es, i) == [e] && e.tgt == i
    ensures Feeds(es, i, out) == multiset{(e.weight, out(e.src))}
  {
    FeedsOfIn(es, i, out);
    FeedsOne(e, i, out);
  }

  lemma {:induction false} FeedsAgree<E(!new), S(!new)>(es: seq<Edge<E>>, i: nat, out: nat -> S, mid: nat -> S)
    requires forall k :: 0 <= k < |es| && es[k].tgt == i ==> out(es[k].src) == mid(es[k].src)
    ensures Feeds(es, i, out) == Feeds(es, i, mid)
    decreases |es|
  {
    if es != [] {
      FeedsAgree(es[..|es| - 1], i, out, mid);
    }
  }

  lemma {:induction false} FeedOfMapped<E(!new), S(!new)>(e: Edge<E>, names: seq<nat>, i: nat, out: nat -> S, mid: nat -> S)
    requires Injective(names) && i < |names| && e.src < |names| && e.tgt < |names|
    requires out(e.src) == mid(names[e.src])
    ensures FeedOf(e, i, out) == FeedOf(Edge(names[e.src], names[e.tgt], e.weight), names[i], mid)
  {
    assert names[e.tgt] == names[i] <==> e.tgt == i;
  }

  lemma {:induction false} MappedAppend<E(!new)>(es: seq<Edge<E>>, e: Edge<E>, names: seq<nat>)
    requires e.src < |names| && e.tgt < |names|
    ensures Mapped(es + [e], names) == Mapped(es, names) + [Edge(names[e.src], names[e.tgt], e.weight)]
  {
  }

  /** Renaming nodes renames nothing in the inputs. */
  lemma {:induction false} FeedsMapped<E(!new), S(!new)>(es: seq<Edge<E>>, names: seq<nat>, i: nat, out: nat -> S,
                                                         mid: nat -> S)
    requires Injective(names) && i < |names|
    requires forall k :: 0 <= k < |es| ==> es[k].src < |names| && es[k].tgt < |names|
    requires forall j :: 0 <= j < |names| ==> out(j) == mid(names[j])
    ensures Feeds(es, i, out) == Feeds(Mapped(es, names), names[i], mid)
    decreases |es|
  {
    if es != [] {
      hide *;
      var front, last := es[..|es| - 1], es[|es| - 1];
      assert es == front + [last];
      FeedsMapped(front, names, i, out, mid);
      FeedOfMapped(last, names, i, out, mid);
      MappedAppend(front, last, names);
      FeedsAppend(front, last, i, out);
      FeedsAppend(Mapped(front, names), Edge(names[last.src], names[last.tgt], last.weight), names[i], mid);
    }
  }

  /** What a live node loses with the edges of dead nodes, if these reach it from r alone. */
  lemma {:induction false} FeedsKept<E(!new), S(!new)>(es: seq<Edge<E>>, dead: set<nat>, i: nat, r: nat, out: nat -> S)
    requires i !in dead && r in dead
    requires forall k :: 0 <= k < |es| && es[k].src in dead && es[k].tgt == i ==> es[k].src == r
    ensures Feeds(es, i, out) == Feeds(Kept(es, dead), i, out) + Feeds(OutEdges(es, r), i, out)
    decreases |es|
  {
    if es != [] {
      var front, last := es[..|es| - 1], es[|es| - 1];
      FeedsKept(front, dead, i, r, out);
      if last.src in dead || last.tgt in dead {
        assert Kept(es, dead) == Kept(front, dead);
        assert last.tgt == i ==> es[|es| - 1].src == r;
      } else {
        FeedsAppend(Kept(front, dead), last, i, out);
      }
      if last.src == r {
        FeedsAppend(OutEdges(front, r), last, i, out);
      } else {
        assert OutEdges(es, r) == OutEdges(front, r);
      }
    }
  }

  // ---------- paths ----------

  /** ys are outputs of the nodes ws in a row, the first fed with x. */
  ghost predicate PathRuns<N(!new), E(!new), S(!new)>(sem: Sem<N, E, S>, ws: seq<N>, es: seq<E>, x: S, ys: seq<S>) {
    && |ws| == |es| == |ys|
    && forall j: nat :: j < |ws| ==> StepHolds(sem, ws, es, x, ys, j)
  }

  ghost predicate StepHolds<N(!new), E(!new), S(!new)>(sem: Sem<N, E, S>, ws: seq<N>, es: seq<E>, x: S, ys: seq<S>, j: nat)
    requires |ws| == |es| == |ys| && j < |ws|
  {
    NodeHolds(sem, ws[j], multiset{(es[j], if j == 0 then x else ys[j - 1])}, ys[j])
  }

  /** Whatever the path ws can output on x, the path vs can output on x. */
  ghost predicate Simulates<N(!new), E(!new), S(!new)>(sem: Sem<N, E, S>, ws: seq<N>, es: seq<E>, vs: seq<N>, fs: seq<E>) {
    && |ws| == |es| > 0 && |vs| == |fs| > 0
    && forall x, ys :: PathRuns(sem, ws, es, x, ys) ==>
         exists zs :: PathRuns(sem, vs, fs, x, zs) && zs[|zs| - 1] == ys[|ys| - 1]
  }

  /** The only edge out of a is the only edge into b. */
  predicate Linked<E>(es: seq<Edge<E>>, a: nat, b: nat) {
    |OutEdges(es, a)| == 1 && |InEdges(es, b)| == 1 && OutEdges(es, a)[0].tgt == b && InEdges(es, b)[0].src == a
  }

  /** A path of distinct nodes that one edge enters, from outside, and one edge leaves. */
  predicate SinglePath<N, E>(g: Graph<N, E>, run: seq<nat>) {
    && |run| > 0 && Injective(run) && (forall j :: 0 <= j < |run| ==> run[j] < |g.nodes|)
    && |InEdges(g.edges, run[0])| == 1 && InEdges(g.edges, run[0])[0].src !in run
    && (forall j :: 0 < j < |run| ==> Linked(g.edges, run[j - 1], run[j]))
    && |OutEdges(g.edges, run[|run| - 1])| == 1 && OutEdges(g.edges, run[|run| - 1])[0].tgt !in run
  }

  function Entry<N, E>(g: Graph<N, E>, run: seq<nat>): Edge<E>
    requires SinglePath(g, run)
  {
    InEdges(g.edges, run[0])[0]
  }

  function Exit<N, E>(g: Graph<N, E>, run: seq<nat>): Edge<E>
    requires SinglePath(g, run)
  {
    OutEdges(g.edges, run[|run| - 1])[0]
  }

  function RunNodes<N, E>(g: Graph<N, E>, run: seq<nat>): (r: seq<N>)
    requires SinglePath(g, run)
    ensures |r| == |run|
  {
    seq(|run|, j requires 0 <= j < |run| => g.nodes[run[j]])
  }

  /** The weights of the edges into the nodes of the run. */
  function RunEdges<N, E>(g: Graph<N, E>, run: seq<nat>): (r: seq<E>)
    requires SinglePath(g, run)
    ensures |r| == |run|
  {
    seq(|run|, j requires 0 <= j < |run| => RunEdge(g, run, j))
  }

  function RunEdge<N, E>(g: Graph<N, E>, run: seq<nat>, j: nat): E
    requires SinglePath(g, run) && j < |run|
  {
    if j == 0 then Entry(g, run).weight
    else assert Linked(g.edges, run[j - 1], run[j]); InEdges(g.edges, run[j])[0].weight
  }

  function RunSet(run: seq<nat>): (r: set<nat>)
    ensures forall x: nat :: x in r <==> x in run
  {
    set x | x in run
  }

  /** The edges of a new path of |fs| nodes from index n on, between u and d. */
  function NewEdges<E>(n: nat, u: nat, d: nat, fs: seq<E>, w: E): (r: seq<Edge<E>>)
    requires |fs| > 0
    ensures |r| == |fs| + 1
  {
    seq(|fs| + 1, j requires 0 <= j < |fs| + 1 =>
      Edge(if j == 0 then u else n + j - 1, if j == |fs| then d else n + j, if j == |fs| then w else fs[j]))
  }

  function PathEdges<N, E>(g: Graph<N, E>, run: seq<nat>, fs: seq<E>): (r: seq<Edge<E>>)
    requires SinglePath(g, run) && |fs| > 0
  {
    NewEdges(|g.nodes|, Entry(g, run).src, Exit(g, run).tgt, fs, Exit(g, run).weight)
  }

  /** The graph with a new path from the source of entry to the target of exit. */
  function ExtendedBy<N, E>(g: Graph<N, E>, entry: Edge<E>, exit: Edge<E>, vs: seq<N>, fs: seq<E>): Graph<N, E>
    requires |fs| > 0
  {
    Graph(g.nodes + vs, g.edges + NewEdges(|g.nodes|, entry.src, exit.tgt, fs, exit.weight))
  }

  /** The graph with the new path beside the run. */
  function Extended<N, E>(g: Graph<N, E>, run: seq<nat>, vs: seq<N>, fs: seq<E>): Graph<N, E>
    requires SinglePath(g, run) && |fs| > 0
  {
    ExtendedBy(g, Entry(g, run), Exit(g, run), vs, fs)
  }

  /** h is g with the run replaced by the path vs, up to the renaming names. */
  ghost predicate Replaced<N(!new), E(!new)>(h: Graph<N, E>, g: Graph<N, E>, names: seq<nat>, run: seq<nat>, vs: seq<N>,
                                             fs: seq<E>) {
    && Valid(g) && SinglePath(g, run) && |vs| == |fs| > 0 && fs[0] == Entry(g, run).weight
    && Without(h, Extended(g, run, vs, fs), names, RunSet(run))
  }

  // ---------- the inputs of a replaced path ----------

  lemma {:induction false} EntryAndExit<N(!new), E(!new)>(g: Graph<N, E>, run: seq<nat>)
    requires Valid(g) && SinglePath(g, run)
    ensures InEdges(g.edges, run[0]) == [Entry(g, run)] && Entry(g, run).tgt == run[0] && Entry(g, run) in g.edges
    ensures OutEdges(g.edges, run[|run| - 1]) == [Exit(g, run)] && Exit(g, run).src == run[|run| - 1] && Exit(g, run) in g.edges
    ensures Entry(g, run).src < |g.nodes| && Exit(g, run).tgt < |g.nodes|
  {
    var e, f := Entry(g, run), Exit(g, run);
    InEdgesAre(g.edges, run[0]);
    OutEdgesAre(g.edges, run[|run| - 1]);
    assert e in InEdges(g.edges, run[0]);
    assert f in OutEdges(g.edges, run[|run| - 1]);
  }

  lemma {:induction false} Only<T>(s: seq<T>, x: T)
    requires |s| == 1 && x in s
    ensures s[0] == x
  {
  }

  /** An edge from the run to a node outside it is the exit. */
  lemma {:induction false} LeavesAtExit<N(!new), E(!new)>(g: Graph<N, E>, run: seq<nat>, e: Edge<E>)
    requires Valid(g) && SinglePath(g, run) && e in g.edges && e.src in run && e.tgt !in run
    ensures e.src == run[|run| - 1]
  {
    var j :| 0 <= j < |run| && run[j] == e.src;
    if j + 1 < |run| {
      assert run[j + 1] in run;
      OutEdgesAre(g.edges, run[j]);
      assert e in OutEdges(g.edges, run[j]);
      Only(OutEdges(g.edges, run[j]), e);
      assert false;
    }
  }

  /** The node before node x of a path that starts at index n and is entered from u. */
  function Before(n: nat, u: nat, x: nat): nat
    requires x >= n
  {
    if x == n then u else x - 1
  }

  ghost function FromNewEdges<E(!new), S(!new)>(n: nat, u: nat, exit: Edge<E>, fs: seq<E>, i: nat,
                                                mid: nat -> S): multiset<(E, S)>
    requires |fs| > 0
  {
    if n <= i < n + |fs| then multiset{(fs[i - n], mid(Before(n, u, i)))}
    else if i == exit.tgt then multiset{(exit.weight, mid(n + |fs| - 1))}
    else multiset{}
  }

  /** The inputs that the new edges bring to node i: at most one of them ends there. */
  lemma {:induction false} NewFeeds<E(!new), S(!new)>(n: nat, u: nat, exit: Edge<E>, fs: seq<E>, i: nat, mid: nat -> S)
    requires |fs| > 0 && exit.tgt < n
    ensures Feeds(NewEdges(n, u, exit.tgt, fs, exit.weight), i, mid) == FromNewEdges(n, u, exit, fs, i, mid)
  {
    hide Feeds;
    var es := NewEdges(n, u, exit.tgt, fs, exit.weight);
    if n <= i < n + |fs| {
      OneFeed(es, i - n, i, mid);
    } else if i == exit.tgt {
      OneFeed(es, |fs|, i, mid);
    } else {
      NoFeed(es, i, mid);
    }
  }

  lemma {:induction false} NoFeed<E(!new), S(!new)>(es: seq<Edge<E>>, i: nat, out: nat -> S)
    requires forall k :: 0 <= k < |es| ==> es[k].tgt != i
    ensures Feeds(es, i, out) == multiset{}
    decreases |es|
  {
    if es != [] {
      NoFeed(es[..|es| - 1], i, out);
    }
  }

  lemma {:induction false} OneFeed<E(!new), S(!new)>(es: seq<Edge<E>>, m: nat, i: nat, out: nat -> S)
    requires m < |es| && forall k :: 0 <= k < |es| ==> (es[k].tgt == i <==> k == m)
    ensures Feeds(es, i, out) == multiset{(es[m].weight, out(es[m].src))}
  {
    NoFeed(es[..m], i, out);
    NoFeed(es[m + 1..], i, out);
    FeedsAppend(es[..m], es[m], i, out);
    FeedsConcat(es[..m] + [es[m]], es[m + 1..], i, out);
    assert es == es[..m] + [es[m]] + es[m + 1..];
  }

  lemma {:induction false} KeptNew<N(!new), E(!new)>(g: Graph<N, E>, run: seq<nat>, fs: seq<E>)
    requires Valid(g) && SinglePath(g, run) && |fs| > 0
    ensures Kept(PathEdges(g, run, fs), RunSet(run)) == PathEdges(g, run, fs)
  {
    EntryAndExit(g, run);
    KeptUntouched(PathEdges(g, run, fs), RunSet(run));
  }

  lemma {:induction false} KeptUntouched<E(!new)>(es: seq<Edge<E>>, dead: set<nat>)
    requires forall k :: 0 <= k < |es| ==> es[k].src !in dead && es[k].tgt !in dead
    ensures Kept(es, dead) == es
    decreases |es|
  {
    if es != [] {
      KeptUntouched(es[..|es| - 1], dead);
      assert es == es[..|es| - 1] + [es[|es| - 1]];
    }
  }

  /** The surviving inputs of node i: those over kept old edges and those over new edges. */
  lemma {:induction false} ExtendedFeeds<N(!new), E(!new), S(!new)>(g: Graph<N, E>, run: seq<nat>, vs: seq<N>, fs: seq<E>,
                                                                   i: nat, mid: nat -> S)
    requires Valid(g) && SinglePath(g, run) && |fs| > 0
    ensures Feeds(Kept(Extended(g, run, vs, fs).edges, RunSet(run)), i, mid)
         == Feeds(Kept(g.edges, RunSet(run)), i, mid) + FromNewEdges(|g.nodes|, Entry(g, run).src, Exit(g, run), fs, i, mid)
  {
    EntryAndExit(g, run);
    NewFeeds(|g.nodes|, Entry(g, run).src, Exit(g, run), fs, i, mid);
    KeptConcat(g.edges, PathEdges(g, run, fs), RunSet(run));
    KeptNew(g, run, fs);
    FeedsConcat(Kept(g.edges, RunSet(run)), PathEdges(g, run, fs), i, mid);
  }

  /** A node outside the run is fed after the replacement as before. */
  lemma {:induction false} OutsideFeeds<N(!new), E(!new), S(!new)>(g: Graph<N, E>, run: seq<nat>, vs: seq<N>, fs: seq<E>,
                                                                   i: nat,
                                                                  out: nat -> S, mid: nat -> S)
    requires Valid(g) && SinglePath(g, run) && |fs| > 0
    requires i < |g.nodes| && i !in run
    requires forall x: nat :: x < |g.nodes| && x !in run ==> mid(x) == out(x)
    requires mid(|g.nodes| + |fs| - 1) == out(run[|run| - 1])
    ensures Feeds(Kept(Extended(g, run, vs, fs).edges, RunSet(run)), i, mid) == Feeds(g.edges, i, out)
  {
    var dead, r, exit := RunSet(run), run[|run| - 1], Exit(g, run);
    EntryAndExit(g, run);
    ExtendedFeeds(g, run, vs, fs, i, mid);
    forall k | 0 <= k < |g.edges| && g.edges[k].src in dead && g.edges[k].tgt == i
      ensures g.edges[k].src == r
    {
      LeavesAtExit(g, run, g.edges[k]);
    }
    FeedsKept(g.edges, dead, i, r, out);
    FeedsOne(exit, i, out);
    var kept := Kept(g.edges, dead);
    KeptAre(g.edges, dead);
    forall k | 0 <= k < |kept| && kept[k].tgt == i
      ensures mid(kept[k].src) == out(kept[k].src)
    {
      var e := kept[k];
      assert e in kept;
    }
    FeedsAgree(kept, i, mid, out);
  }

  /** A node of the new path is fed by the node before it, the first one by the entry. */
  lemma {:induction false} NewPathFeeds<N(!new), E(!new), S(!new)>(g: Graph<N, E>, run: seq<nat>, vs: seq<N>, fs: seq<E>,
                                                                   x: nat,
                                                                  mid: nat -> S)
    requires Valid(g) && SinglePath(g, run) && |g.nodes| <= x < |g.nodes| + |fs|
    ensures Feeds(Kept(Extended(g, run, vs, fs).edges, RunSet(run)), x, mid)
         == multiset{(fs[x - |g.nodes|], mid(Before(|g.nodes|, Entry(g, run).src, x)))}
  {
    hide *;
    var n, u, exit := |g.nodes|, Entry(g, run).src, Exit(g, run);
    ExtendedFeeds(g, run, vs, fs, x, mid);
    KeptFeedsNoNew(g, RunSet(run), x, mid);
    SumEmpty(FromNewEdges(n, u, exit, fs, x, mid));
    FromNewIs(n, u, exit, fs, x, mid);
  }

  lemma {:induction false} KeptFeedsNoNew<N(!new), E(!new), S(!new)>(g: Graph<N, E>, dead: set<nat>, i: nat, mid: nat -> S)
    requires Valid(g) && i >= |g.nodes|
    ensures Feeds(Kept(g.edges, dead), i, mid) == multiset{}
  {
    KeptBelow(g, dead);
    NoFeed(Kept(g.edges, dead), i, mid);
  }

  lemma {:induction false} FromNewIs<E(!new), S(!new)>(n: nat, u: nat, exit: Edge<E>, fs: seq<E>, x: nat, mid: nat -> S)
    requires n <= x < n + |fs|
    ensures FromNewEdges(n, u, exit, fs, x, mid) == multiset{(fs[x - n], mid(Before(n, u, x)))}
  {
  }

  ghost predicate Below<E(!new)>(es: seq<Edge<E>>, n: nat) {
    forall k :: 0 <= k < |es| ==> es[k].src < n && es[k].tgt < n
  }

  lemma {:induction false} KeptBelow<N(!new), E(!new)>(g: Graph<N, E>, dead: set<nat>)
    requires Valid(g)
    ensures Below(Kept(g.edges, dead), |g.nodes|)
  {
    var kept := Kept(g.edges, dead);
    KeptAre(g.edges, dead);
    forall k | 0 <= k < |kept|
      ensures kept[k].src < |g.nodes| && kept[k].tgt < |g.nodes|
    {
      var e := kept[k];
      assert e in kept;
      assert e in g.edges;
    }
  }

  /** A node of the run is fed by the node before it, the first one by the entry. */
  lemma {:induction false} RunFeeds<N(!new), E(!new), S(!new)>(g: Graph<N, E>, run: seq<nat>, j: nat, out: nat -> S)
    requires Valid(g) && SinglePath(g, run) && j < |run|
    ensures Feeds(g.edges, run[j], out)
         == multiset{(RunEdges(g, run)[j], if j == 0 then out(Entry(g, run).src) else out(run[j - 1]))}
  {
    if j == 0 {
      EntryAndExit(g, run);
      SingleFeed(g.edges, run[0], out, Entry(g, run));
    } else {
      assert Linked(g.edges, run[j - 1], run[j]);
      var e := InEdges(g.edges, run[j])[0];
      InEdgesAre(g.edges, run[j]);
      assert e in InEdges(g.edges, run[j]);
      assert InEdges(g.edges, run[j]) == [e];
      SingleFeed(g.edges, run[j], out, e);
    }
  }
}
