// Folding an aggregate into the window before it: the window takes the aggregate over, and the
// aggregate's node is removed in place. The pass does not ask whether the window has other
// consumers, nor whether the removal can lose one of the aggregate's own.
module WindowFusion {
  import opened Digraphs
  import opened Dataflow
  import opened PathReplacement
  import opened Shapes
  import opened EdgeArrays
  import opened NodeRemoval

  /** The graph in which p also has the edges out of x. */
  function Rewired<N, E>(g: Graph<N, E>, x: nat, p: nat): Graph<N, E> {
    Graph(g.nodes, g.edges + Moved(OutEdges(g.edges, x), p))
  }

  /** The graph in which p also has what it takes over from x. */
  ghost function Refed<N(!new), E(!new)>(g: Graph<N, E>, slots: seq<nat>, x: nat, p: nat): Graph<N, E>
    requires |slots| == |g.edges| && InEdges(g.edges, x) != []
  {
    Graph(g.nodes, g.edges + TakenOver(g.edges, slots, x, p))
  }

  lemma {:induction false} DropOther<E(!new)>(edges: seq<Edge<E>>, k: nat, x: nat)
    requires k < |edges| && edges[k].src != x
    ensures OutEdges(Dropped(edges, k), x) == OutEdges(edges, x)
  {
    var front, back := edges[..k], edges[k + 1..];
    assert edges == front + [edges[k]] + back;
    OutEdgesConcat(front, back, x);
    OutEdgesConcat(front + [edges[k]], back, x);
    OutAppend(front, edges[k], x);
  }

  /** What p takes over, in terms of the edges out of x. */
  lemma {:induction false} TakenIs<N(!new), E(!new)>(g: Graph<N, E>, slots: seq<nat>, p: nat, x: nat, e: Edge<E>)
    requires OnlyInput(g, p, x, e) && Slotted(g.edges, slots)
    ensures |slots| == |g.edges| && InEdges(g.edges, x) == [e] && Parent(g.edges, x) == p
    ensures StaleRound(g.edges, slots, x) == 0 || StaleRound(g.edges, slots, x) < |OutEdges(g.edges, x)|
    ensures var outs := OutEdges(g.edges, x);
            TakenOver(g.edges, slots, x, p) == Arrived(outs, p, StaleRound(g.edges, slots, x), |outs|)
  {
    var k := EntryAt(g.edges, slots, x);
    assert g.edges[k] == e;
    DropOther(g.edges, k, x);
    hide InEdges, OutEdges, OutSlots;
    OutSlotsAre(Dropped(g.edges, k), Reslotted(slots, k), x);
  }

  /** If no round goes wrong, p has all the edges out of x. */
  lemma {:induction false} RefedIsRewired<N(!new), E(!new)>(g: Graph<N, E>, slots: seq<nat>, p: nat, x: nat, e: Edge<E>)
    requires OnlyInput(g, p, x, e) && Slotted(g.edges, slots)
    ensures |slots| == |g.edges| && InEdges(g.edges, x) != []
    ensures StaleRound(g.edges, slots, x) == 0 ==> Refed(g, slots, x, p) == Rewired(g, x, p)
  {
    TakenIs(g, slots, p, x, e);
    var outs := OutEdges(g.edges, x);
    hide OutEdges, InEdges, StaleRound, TakenOver;
    assert Moved(outs, p)[..|outs|] == Moved(outs, p);
  }

  // ---------- inputs after the removal ----------

  /** The edge e from p is the only way into x. */
  ghost predicate OnlyInput<N(!new), E(!new)>(g: Graph<N, E>, p: nat, x: nat, e: Edge<E>) {
    p != x && p < |g.nodes| && x < |g.nodes| && InEdges(g.edges, x) == [e] && e.src == p && e.tgt == x
  }

  lemma {:induction false} MovedLast<E(!new)>(es: seq<Edge<E>>, p: nat)
    requires es != []
    ensures Moved(es, p) == [Edge(p, es[|es| - 1].tgt, es[|es| - 1].weight)] + Moved(es[..|es| - 1], p)
  {
  }

  /** What the moved edges bring is what the edges brought, if p now sends what their source sent. */
  lemma {:induction false} MovedFeeds<E(!new), S(!new)>(es: seq<Edge<E>>, p: nat, x: nat, i: nat, out: nat -> S,
                                                        mid: nat -> S)
    requires (forall k :: 0 <= k < |es| ==> es[k].src == x) && mid(p) == out(x)
    ensures Feeds(Moved(es, p), i, mid) == Feeds(es, i, out)
    decreases |es|
  {
    if es == [] {
      assert Moved(es, p) == [];
    } else {
      var front, last := es[..|es| - 1], es[|es| - 1];
      var first := Edge(p, last.tgt, last.weight);
      assert es == front + [last] && es[|es| - 1].src == x;
      assert FeedOf(first, i, mid) == FeedOf(last, i, out);
      MovedFeeds(front, p, x, i, out, mid);
      MovedLast(es, p);
      hide Feeds, FeedOf, Moved;
      FeedsConcat([first], Moved(front, p), i, mid);
      FeedsOne(first, i, mid);
      FeedsAppend(front, last, i, out);
    }
  }

  /** Edges that end in dead nodes do not feed live ones. */
  lemma {:induction false} KeptFeeds<E(!new), S(!new)>(es: seq<Edge<E>>, dead: set<nat>, i: nat, out: nat -> S)
    requires i !in dead && forall k :: 0 <= k < |es| ==> es[k].src !in dead
    ensures Feeds(Kept(es, dead), i, out) == Feeds(es, i, out)
    decreases |es|
  {
    if es != [] {
      var front, last := es[..|es| - 1], es[|es| - 1];
      KeptFeeds(front, dead, i, out);
      assert es[|es| - 1].src !in dead;
      if last.tgt in dead {
        assert Kept(es, dead) == Kept(front, dead);
      } else {
        FeedsAppend(Kept(front, dead), last, i, out);
      }
    }
  }

  /** The only edge out of p is the one into x. */
  lemma {:induction false} OnlyToX<N(!new), E(!new)>(g: Graph<N, E>, p: nat, e: Edge<E>, f: Edge<E>)
    requires OutEdges(g.edges, p) == [e] && f in g.edges && f.src == p
    ensures f == e
  {
    OutEdgesAre(g.edges, p);
    assert f in OutEdges(g.edges, p);
  }

  /** If x is the only consumer of p, every other node is fed as before once p sends what x sent. */
  lemma {:induction false} RewiredFeeds<N(!new), E(!new), S(!new)>(g: Graph<N, E>, p: nat, x: nat, e: Edge<E>, i: nat,
                                                                  out: nat -> S, mid: nat -> S)
    requires Valid(g) && OnlyInput(g, p, x, e) && OutEdges(g.edges, p) == [e] && i != x
    requires mid(p) == out(x) && forall v: nat :: v != p && v != x ==> mid(v) == out(v)
    ensures Feeds(Kept(Rewired(g, x, p).edges, {x}), i, mid) == Feeds(g.edges, i, out)
  {
    assert p != x;
    hide *;
    var kept, outs, moved := Kept(g.edges, {x}), OutEdges(g.edges, x), Moved(OutEdges(g.edges, x), p);
    OutSources(g.edges, x, p);
    KeptSources(g, p, x, e);
    RewiredKept(g, x, p);
    KeptFeeds(moved, {x}, i, mid);
    MovedFeeds(outs, p, x, i, out, mid);
    FeedsConcat(kept, Kept(moved, {x}), i, mid);
    FeedsAgree(kept, i, mid, out);
    FeedsKept(g.edges, {x}, i, x, out);
  }

  lemma {:induction false} OutSources<E(!new)>(es: seq<Edge<E>>, x: nat, p: nat)
    ensures forall k :: 0 <= k < |OutEdges(es, x)| ==> OutEdges(es, x)[k].src == x
    ensures forall k :: 0 <= k < |OutEdges(es, x)| ==> Moved(OutEdges(es, x), p)[k].src == p
  {
    var outs := OutEdges(es, x);
    OutEdgesAre(es, x);
    forall k | 0 <= k < |outs|
      ensures outs[k].src == x
    {
      var f := outs[k];
      assert f in outs;
    }
  }

  /** No edge out of p or x is left. */
  lemma {:induction false} KeptSources<N(!new), E(!new)>(g: Graph<N, E>, p: nat, x: nat, e: Edge<E>)
    requires OnlyInput(g, p, x, e) && OutEdges(g.edges, p) == [e]
    ensures forall k :: 0 <= k < |Kept(g.edges, {x})| ==> Kept(g.edges, {x})[k].src != p && Kept(g.edges, {x})[k].src != x
  {
    var kept := Kept(g.edges, {x});
    KeptAre(g.edges, {x});
    forall k | 0 <= k < |kept|
      ensures kept[k].src != p && kept[k].src != x
    {
      var f := kept[k];
      assert f in kept;
      if f.src == p {
        OnlyToX(g, p, e, f);
      }
    }
  }

  lemma {:induction false} RewiredKept<N(!new), E(!new)>(g: Graph<N, E>, x: nat, p: nat)
    ensures Kept(Rewired(g, x, p).edges, {x}) == Kept(g.edges, {x}) + Kept(Moved(OutEdges(g.edges, x), p), {x})
  {
    hide Kept, Moved, OutEdges;
    KeptConcat(g.edges, Moved(OutEdges(g.edges, x), p), {x});
  }

  // ---------- meaning ----------

  /** The fused node does what the window and then the aggregate do. */
  ghost predicate FusesPair<N(!new), E(!new), S(!new)>(sem: Sem<N, E, S>, window: N, w: E, aggregate: N, fused: N) {
    forall ins, y :: NodeHolds(sem, fused, ins, y) <==> PairHolds(sem, window, w, aggregate, ins, y)
  }

  ghost predicate PairHolds<N(!new), E(!new), S(!new)>(sem: Sem<N, E, S>, window: N, w: E, aggregate: N,
                                                       ins: multiset<(E, S)>, y: S) {
    exists s :: NodeHolds(sem, window, ins, s) && NodeHolds(sem, aggregate, multiset{(w, s)}, y)
  }

  /** The graph with the fused node in the place of p. */
  function WithNode<N, E>(g: Graph<N, E>, p: nat, n: N): Graph<N, E>
    requires p < |g.nodes|
  {
    Graph(g.nodes[p := n], g.edges)
  }

  /** Nodes keep their names, except that p now sends what x sent. */
  function FusedNames(names: seq<nat>, p: nat, x: nat): (r: seq<Name>)
    ensures |r| == |names|
    ensures forall i :: 0 <= i < |names| ==> r[i] == if names[i] == p then OutputOf(x) else Same(names[i])
  {
    seq(|names|, i requires 0 <= i < |names| => if names[i] == p then OutputOf(x) else Same(names[i]))
  }

  /** h is g with x fused into p as n. */
  ghost predicate Folded<N(!new), E(!new)>(g: Graph<N, E>, slots: seq<nat>, h: Graph<N, E>, names: seq<nat>, p: nat, x: nat,
                                           e: Edge<E>, n: N) {
    && Valid(g) && Slotted(g.edges, slots) && OnlyInput(g, p, x, e)
    && Without(h, Refed(WithNode(g, p, n), slots, x, p), names, {x})
  }

  /** h is g with x fused into p as n, and p has all the edges out of x. */
  ghost predicate FusedPair<N(!new), E(!new)>(g: Graph<N, E>, h: Graph<N, E>, names: seq<nat>, p: nat, x: nat, e: Edge<E>,
                                              n: N) {
    && Valid(g) && OnlyInput(g, p, x, e)
    && Without(h, Rewired(WithNode(g, p, n), x, p), names, {x})
  }

  /** No other consumer of p, and no edge out of x that goes missing. */
  ghost predicate Harmless<N(!new), E(!new)>(g: Graph<N, E>, slots: seq<nat>, p: nat, x: nat, e: Edge<E>)
    requires |slots| == |g.edges| && InEdges(g.edges, x) != []
  {
    OutEdges(g.edges, p) == [e] && StaleRound(g.edges, slots, x) == 0
  }

  lemma {:induction false} FoldedIsPair<N(!new), E(!new)>(g: Graph<N, E>, slots: seq<nat>, h: Graph<N, E>, names: seq<nat>,
                                                         p: nat, x: nat, e: Edge<E>, n: N)
    requires Folded(g, slots, h, names, p, x, e, n)
    ensures |slots| == |g.edges| && InEdges(g.edges, x) != [] && Valid(h)
    ensures StaleRound(g.edges, slots, x) == 0 ==> FusedPair(g, h, names, p, x, e, n)
  {
    assert OnlyInput(WithNode(g, p, n), p, x, e);
    RefedIsRewired(WithNode(g, p, n), slots, p, x, e);
  }

  /** The new graph is fed as the old one, node by node. */
  lemma {:induction false} PairFed<N(!new), E(!new), S(!new)>(g: Graph<N, E>, h: Graph<N, E>, names: seq<nat>, p: nat,
                                                              x: nat,
                                                             e: Edge<E>, n: N, i: nat, out: nat -> S, mid: nat -> S, out': nat -> S)
    requires FusedPair(g, h, names, p, x, e, n) && OutEdges(g.edges, p) == [e] && i < |names|
    requires forall j :: 0 <= j < |names| ==> out'(j) == mid(names[j])
    requires mid(p) == out(x) && forall v: nat :: v != p && v != x ==> mid(v) == out(v)
    ensures names[i] != x && Feeds(h.edges, i, out') == Feeds(g.edges, names[i], out)
  {
    var r := Rewired(WithNode(g, p, n), x, p);
    assert r.edges == Rewired(g, x, p).edges;
    assert Mapped(h.edges, names) == Kept(r.edges, {x}) && Injective(names) && names[i] !in {x};
    assert forall k :: 0 <= k < |h.edges| ==> h.edges[k].src < |names| && h.edges[k].tgt < |names|;
    hide *;
    FeedsMapped(h.edges, names, i, out', mid);
    RewiredFeeds(g, p, x, e, names[i], out, mid);
  }

  lemma {:induction false} PairAgrees<N(!new), E(!new), S(!new)>(g: Graph<N, E>, h: Graph<N, E>, names: seq<nat>, p: nat,
                                                                 x: nat,
                                                                e: Edge<E>, n: N, out: nat -> S, mid: nat -> S, out': nat -> S)
    requires FusedPair(g, h, names, p, x, e, n) && OutEdges(g.edges, p) == [e]
    requires forall j :: 0 <= j < |names| ==> out'(j) == mid(names[j])
    requires mid(p) == out(x) && forall v: nat :: v != p && v != x ==> mid(v) == out(v)
    ensures Agree(g, h, FusedNames(names, p, x), out, out')
  {
    var o := FusedNames(names, p, x);
    hide FusedPair, Feeds, FusedNames, OutEdges;
    forall i: nat | i < |o|
      ensures AgreeAt(g.edges, h.edges, o[i], i, out, out')
    {
      PairFed(g, h, names, p, x, e, n, i, out, mid, out');
    }
  }

  /** A node of the new graph is the old one, and the window's the fused one. */
  lemma {:induction false} PairNodes<N(!new), E(!new)>(g: Graph<N, E>, h: Graph<N, E>, names: seq<nat>, p: nat, x: nat,
                                                       e: Edge<E>, n: N)
    requires FusedPair(g, h, names, p, x, e, n)
    ensures |names| == |h.nodes| && p < |g.nodes| && x < |g.nodes| && Injective(names) && p in names && p != x
    ensures forall i :: 0 <= i < |names| ==>
              names[i] < |g.nodes| && names[i] != x && h.nodes[i] == if names[i] == p then n else g.nodes[names[i]]
    ensures forall v: nat :: v < |g.nodes| && v != x ==> v in names
  {
    hide Mapped, Kept, InEdges, Valid;
  }

  lemma {:induction false} FedByP<N(!new), E(!new), S(!new)>(g: Graph<N, E>, p: nat, x: nat, e: Edge<E>, out: nat -> S)
    requires OnlyInput(g, p, x, e)
    ensures Feeds(g.edges, x, out) == multiset{(e.weight, out(p))}
  {
    SingleFeed(g.edges, x, out, e);
  }

  ghost function Shortcut<S(!new)>(p: nat, x: nat, out: nat -> S): nat -> S {
    (v: nat) => if v == p then out(x) else out(v)
  }

  lemma {:induction false} PairForward<N(!new), E(!new), S(!new)>(sem: Sem<N, E, S>, g: Graph<N, E>, h: Graph<N, E>,
                                                                  names: seq<nat>,
                                                                 p: nat, x: nat, e: Edge<E>, n: N, out: nat -> S)
    requires FusedPair(g, h, names, p, x, e, n) && OutEdges(g.edges, p) == [e] && Solution(sem, g, out)
    requires p < |g.nodes| && x < |g.nodes| && FusesPair(sem, g.nodes[p], e.weight, g.nodes[x], n)
    ensures HasNew(sem, g, h, FusedNames(names, p, x), out)
  {
    var mid := Shortcut(p, x, out);
    var out' := PathReplacement.Renamed(names, mid);
    assert forall j :: 0 <= j < |names| ==> out'(j) == mid(names[j]);
    assert mid(p) == out(x) && forall v: nat :: v != p && v != x ==> mid(v) == out(v);
    PairNodes(g, h, names, p, x, e, n);
    assert OnlyInput(g, p, x, e);
    hide FusedPair, Feeds, OutEdges, OnlyInput, Shortcut, PathReplacement.Renamed, FusedNames, Agree;
    forall i: nat | i < |h.nodes|
      ensures NodeHolds(sem, h.nodes[i], Feeds(h.edges, i, out'), out'(i))
    {
      PairFed(g, h, names, p, x, e, n, i, out, mid, out');
      OldNodeHolds(sem, g, out, names[i]);
      if names[i] == p {
        FedByP(g, p, x, e, out);
        OldNodeHolds(sem, g, out, x);
        assert PairHolds(sem, g.nodes[p], e.weight, g.nodes[x], Feeds(g.edges, p, out), out(x));
      }
    }
    assert Solution(sem, h, out');
    PairAgrees(g, h, names, p, x, e, n, out, mid, out');
  }

  /** The old streams: x sends what p sends in the new graph, and p sends s. */
  ghost function Detour<S(!new)>(p: nat, x: nat, mid: nat -> S, s: S): nat -> S {
    (v: nat) => if v == p then s else if v == x then mid(p) else mid(v)
  }

  lemma {:induction false} PairBackward<N(!new), E(!new), S(!new)>(sem: Sem<N, E, S>, g: Graph<N, E>, h: Graph<N, E>,
                                                                   names: seq<nat>,
                                                                  p: nat, x: nat, e: Edge<E>, n: N, out': nat -> S)
    requires FusedPair(g, h, names, p, x, e, n) && OutEdges(g.edges, p) == [e] && Solution(sem, h, out')
    requires p < |g.nodes| && x < |g.nodes| && FusesPair(sem, g.nodes[p], e.weight, g.nodes[x], n)
    ensures HasOld(sem, g, h, FusedNames(names, p, x), out')
  {
    var mid := Unnamed(names, out');
    PairNodes(g, h, names, p, x, e, n);
    assert OnlyInput(g, p, x, e);
    forall j | 0 <= j < |names|
      ensures out'(j) == mid(names[j])
    {
      UnnamedAt(names, out', j);
    }
    hide FusedPair, Feeds, OutEdges, OnlyInput, Unnamed, FusedNames, Agree;
    var ip := IndexOf(names, p);
    OldNodeHolds(sem, h, out', ip);
    var s :| NodeHolds(sem, g.nodes[p], Feeds(h.edges, ip, out'), s) && NodeHolds(sem, g.nodes[x], multiset{(e.weight, s)}, out'(ip));
    var out := Detour(p, x, mid, s);
    assert mid(p) == out(x) && out(p) == s && forall v: nat :: v != p && v != x ==> mid(v) == out(v);
    hide Detour;
    PairFed(g, h, names, p, x, e, n, ip, out, mid, out');
    FedByP(g, p, x, e, out);
    forall v: nat | v < |g.nodes|
      ensures NodeHolds(sem, g.nodes[v], Feeds(g.edges, v, out), out(v))
    {
      if v != x && v != p {
        var i := IndexOf(names, v);
        PairFed(g, h, names, p, x, e, n, i, out, mid, out');
        OldNodeHolds(sem, h, out', i);
      }
    }
    assert Solution(sem, g, out);
    PairAgrees(g, h, names, p, x, e, n, out, mid, out');
  }

  lemma {:induction false} FusedPairPreserves<N(!new), E(!new), S(!new)>(sem: Sem<N, E, S>, g: Graph<N, E>,
                                                                        h: Graph<N, E>, names: seq<nat>, p: nat, x: nat,
                                                                        e: Edge<E>, n: N)
    requires FusedPair(g, h, names, p, x, e, n) && OutEdges(g.edges, p) == [e]
    requires p < |g.nodes| && x < |g.nodes| && FusesPair(sem, g.nodes[p], e.weight, g.nodes[x], n)
    ensures SameMeaning(sem, g, h, FusedNames(names, p, x))
  {
    hide FusedPair, FusesPair, Solution, HasNew, HasOld, FusedNames, OutEdges;
    forall out | Solution(sem, g, out)
      ensures HasNew(sem, g, h, FusedNames(names, p, x), out)
    {
      PairForward(sem, g, h, names, p, x, e, n, out);
    }
    forall out' | Solution(sem, h, out')
      ensures HasOld(sem, g, h, FusedNames(names, p, x), out')
    {
      PairBackward(sem, g, h, names, p, x, e, n, out');
    }
  }

  /** A harmless fold of the aggregate into the window preserves the meaning of the graph. */
  lemma {:induction false} PairPreserves<N(!new), E(!new), S(!new)>(sem: Sem<N, E, S>, g: Graph<N, E>, slots: seq<nat>,
                                                                    h: Graph<N, E>, names: seq<nat>, p: nat, x: nat,
                                                                    e: Edge<E>, n: N)
    requires Folded(g, slots, h, names, p, x, e, n) && |slots| == |g.edges| && InEdges(g.edges, x) != []
    requires Harmless(g, slots, p, x, e)
    requires p < |g.nodes| && x < |g.nodes| && FusesPair(sem, g.nodes[p], e.weight, g.nodes[x], n)
    ensures SameMeaning(sem, g, h, FusedNames(names, p, x))
  {
    hide Folded, FusedPair, FusesPair, SameMeaning, FusedNames, OutEdges, InEdges, StaleRound;
    FoldedIsPair(g, slots, h, names, p, x, e, n);
    FusedPairPreserves(sem, g, h, names, p, x, e, n);
  }

  // ---------- when a fold is harmless ----------

  /**
   * Whatever the streams are, every node other than x is fed as before if and only if x is the
   * only consumer of p and no edge out of x goes missing.
   */
  lemma {:induction false} FedAsBeforeIff<N(!new), E(!new)>(g: Graph<N, E>, slots: seq<nat>, p: nat, x: nat, e: Edge<E>)
    requires Valid(g) && Slotted(g.edges, slots) && OnlyInput(g, p, x, e)
    ensures |slots| == |g.edges| && InEdges(g.edges, x) != []
    ensures FedAsBefore(g, slots, p, x) <==> Harmless(g, slots, p, x, e)
  {
    RefedIsRewired(g, slots, p, x, e);
    if Harmless(g, slots, p, x, e) {
      hide OnlyInput, OutEdges, Feeds, Kept, InEdges, StaleRound;
      forall i: nat, out: nat -> nat | i != x
        ensures Feeds(Kept(Refed(g, slots, x, p).edges, {x}), i, Shortcut(p, x, out)) == Feeds(g.edges, i, out)
      {
        RewiredFeeds(g, p, x, e, i, out, Shortcut(p, x, out));
      }
    } else if OutEdges(g.edges, p) != [e] {
      var f := OtherConsumer(g, p, x, e);
      LosesInput(g, slots, p, x, f);
    } else {
      LosesEdge(g, slots, p, x, e);
    }
  }

  ghost predicate FedAsBefore<N(!new), E(!new)>(g: Graph<N, E>, slots: seq<nat>, p: nat, x: nat)
    requires |slots| == |g.edges| && InEdges(g.edges, x) != []
  {
    forall i: nat, out: nat -> nat :: i != x ==>
      Feeds(Kept(Refed(g, slots, x, p).edges, {x}), i, Shortcut(p, x, out)) == Feeds(g.edges, i, out)
  }

  /** An edge from p that does not lead to x. */
  lemma {:induction false} OtherConsumer<N(!new), E(!new)>(g: Graph<N, E>, p: nat, x: nat, e: Edge<E>) returns (f: Edge<E>)
    requires OnlyInput(g, p, x, e) && OutEdges(g.edges, p) != [e]
    ensures f in g.edges && f.src == p && f.tgt != x
  {
    InEdgesAre(g.edges, x);
    OutEdgesAre(g.edges, p);
    var outs := OutEdges(g.edges, p);
    assert e in InEdges(g.edges, x);
    assert e in outs;
    assert OutEdges([e], p) == [e] by {
      assert [e][..0] == [];
    }
    if forall k :: 0 <= k < |outs| ==> outs[k].tgt == x {
      AllToX(g.edges, p, x);
    }
    var k :| 0 <= k < |outs| && outs[k].tgt != x;
    f := outs[k];
    assert f in outs;
  }

  /** If all edges out of p lead to x, and x has one input, p has one output. */
  lemma {:induction false} AllToX<E(!new)>(es: seq<Edge<E>>, p: nat, x: nat)
    requires forall k :: 0 <= k < |OutEdges(es, p)| ==> OutEdges(es, p)[k].tgt == x
    ensures OutEdges(InEdges(es, x), p) == OutEdges(es, p)
    decreases |es|
  {
    if es != [] {
      var front, last := es[..|es| - 1], es[|es| - 1];
      assert last.src == p ==> OutEdges(es, p)[|OutEdges(es, p)| - 1] == last;
      assert forall k :: 0 <= k < |OutEdges(front, p)| ==> OutEdges(front, p)[k] == OutEdges(es, p)[k];
      AllToX(front, p, x);
      if last.tgt == x {
        OutAppend(InEdges(front, x), last, p);
      } else {
        assert InEdges(es, x) == InEdges(front, x);
      }
    }
  }

  lemma {:induction false} FeedsHas<E(!new)>(es: seq<Edge<E>>, f: Edge<E>, out: nat -> nat)
    requires f in es
    ensures (f.weight, out(f.src)) in Feeds(es, f.tgt, out)
    decreases |es|
  {
    var front, last := es[..|es| - 1], es[|es| - 1];
    assert es == front + [last];
    if f in front {
      FeedsHas(front, f, out);
    }
  }

  lemma {:induction false} FeedsZero<E(!new)>(es: seq<Edge<E>>, i: nat, out: nat -> nat)
    requires forall v: nat :: out(v) == 0
    ensures forall a :: a in Feeds(es, i, out) ==> a.1 == 0
    decreases |es|
  {
    if es != [] {
      FeedsZero(es[..|es| - 1], i, out);
    }
  }

  /** If only p sends 1, its other consumer no longer receives it. */
  lemma {:induction false} LosesInput<N(!new), E(!new)>(g: Graph<N, E>, slots: seq<nat>, p: nat, x: nat, f: Edge<E>)
    requires f in g.edges && f.src == p && f.tgt != x && p != x && |slots| == |g.edges| && InEdges(g.edges, x) != []
    ensures !FedAsBefore(g, slots, p, x)
  {
    hide Feeds, Kept, Refed, InEdges;
    var out: nat -> nat := (v: nat) => if v == p then 1 else 0;
    var left := Kept(Refed(g, slots, x, p).edges, {x});
    FeedsHas(g.edges, f, out);
    FeedsZero(left, f.tgt, Shortcut(p, x, out));
    assert (f.weight, 1) in Feeds(g.edges, f.tgt, out) && (f.weight, 1) !in Feeds(left, f.tgt, Shortcut(p, x, out));
  }

  // ---------- an edge that goes missing ----------

  lemma {:induction false} InOne<E(!new)>(e: Edge<E>, t: nat)
    ensures |InEdges([e], t)| == if e.tgt == t then 1 else 0
  {
    assert [e][..0] == [];
  }

  lemma {:induction false} InThree<E(!new)>(a: seq<Edge<E>>, e: Edge<E>, b: seq<Edge<E>>, t: nat)
    ensures |InEdges(a + [e] + b, t)| == |InEdges(a, t)| + (if e.tgt == t then 1 else 0) + |InEdges(b, t)|
  {
    InOne(e, t);
    InEdgesConcat(a + [e], b, t);
    InEdgesConcat(a, [e], t);
  }

  lemma {:induction false} ArrivedParts<E(!new)>(es: seq<Edge<E>>, p: nat, j: nat)
    requires 0 < j < |es|
    ensures var m := Moved(es, p);
            && |m| == |es| && m == m[..j - 1] + [m[j - 1]] + ([] + [m[j]] + m[j + 1..])
            && Arrived(es, p, j, |es|) == m[..j - 1] + [Edge(p, m[j].tgt, m[j - 1].weight)] + m[j + 1..]
  {
    var m := Moved(es, p);
    hide Moved;
    assert m[j + 1..|es|] == m[j + 1..];
    assert m == m[..j - 1] + [m[j - 1]] + [m[j]] + m[j + 1..];
  }

  /** The target of the edge added before the stale round is left with one edge less. */
  lemma {:induction false} OneFewer<E(!new)>(es: seq<Edge<E>>, p: nat, j: nat)
    requires 0 < j < |es|
    ensures var t := Moved(es, p)[j - 1].tgt;
            |InEdges(Arrived(es, p, j, |es|), t)| == |InEdges(Moved(es, p), t)| - 1
  {
    hide *;
    ArrivedParts(es, p, j);
    var m := Moved(es, p);
    var t, a, b := m[j - 1].tgt, m[..j - 1], m[j + 1..];
    InThree(a, Edge(p, m[j].tgt, m[j - 1].weight), b, t);
    InThree(a, m[j - 1], [] + [m[j]] + b, t);
    InThree([], m[j], b, t);
    NoIn<E>(t);
  }

  lemma {:induction false} NoIn<E(!new)>(t: nat)
    ensures InEdges<E>([], t) == []
  {
  }

  /** Moving the edges does not change how many lead to t. */
  lemma {:induction false} MovedIn<E(!new)>(es: seq<Edge<E>>, p: nat, t: nat)
    ensures |InEdges(Moved(es, p), t)| == |InEdges(es, t)|
    decreases |es|
  {
    if es == [] {
      assert Moved(es, p) == [];
    } else {
      var front, last := es[..|es| - 1], es[|es| - 1];
      MovedLast(es, p);
      MovedIn(front, p, t);
      var first := Edge(p, last.tgt, last.weight);
      InEdgesConcat([first], Moved(front, p), t);
      InOne(first, t);
    }
  }

  /** The target of an edge out of x is not x, whose only input is from p. */
  lemma {:induction false} LeavesX<N(!new), E(!new)>(g: Graph<N, E>, p: nat, x: nat, e: Edge<E>)
    requires OnlyInput(g, p, x, e)
    ensures forall k :: 0 <= k < |OutEdges(g.edges, x)| ==> OutEdges(g.edges, x)[k].tgt != x
  {
    OutEdgesAre(g.edges, x);
    InEdgesAre(g.edges, x);
    var outs := OutEdges(g.edges, x);
    forall k | 0 <= k < |outs|
      ensures outs[k].tgt != x
    {
      var f := outs[k];
      assert f in outs;
      assert f.tgt == x ==> f in InEdges(g.edges, x);
    }
  }

  lemma {:induction false} ArrivedEnds<E(!new)>(es: seq<Edge<E>>, p: nat, j: nat, x: nat)
    requires p != x && 0 < j < |es| && forall k :: 0 <= k < |es| ==> es[k].tgt != x
    ensures |Moved(es, p)| == |es| && Moved(es, p)[j - 1].tgt != x
    ensures Kept(Arrived(es, p, j, |es|), {x}) == Arrived(es, p, j, |es|)
  {
    KeptUntouched(Arrived(es, p, j, |es|), {x});
  }

  lemma {:induction false} RefedIs<N(!new), E(!new)>(g: Graph<N, E>, slots: seq<nat>, x: nat, p: nat)
    requires |slots| == |g.edges| && InEdges(g.edges, x) != []
    ensures Refed(g, slots, x, p).edges == g.edges + TakenOver(g.edges, slots, x, p)
  {
  }

  lemma {:induction false} InputCount<N(!new), E(!new)>(g: Graph<N, E>, p: nat, x: nat, j: nat, t: nat)
    requires p != x && 0 < j < |OutEdges(g.edges, x)|
    requires forall k :: 0 <= k < |OutEdges(g.edges, x)| ==> OutEdges(g.edges, x)[k].tgt != x
    requires |Moved(OutEdges(g.edges, x), p)| == |OutEdges(g.edges, x)| && t == Moved(OutEdges(g.edges, x), p)[j - 1].tgt
    ensures var taken := Arrived(OutEdges(g.edges, x), p, j, |OutEdges(g.edges, x)|);
            t != x && |InEdges(Kept(g.edges + taken, {x}), t)| < |InEdges(g.edges, t)|
  {
    hide *;
    var outs := OutEdges(g.edges, x);
    var taken := Arrived(outs, p, j, |outs|);
    ArrivedEnds(outs, p, j, x);
    KeptConcat(g.edges, taken, {x});
    InEdgesConcat(Kept(g.edges, {x}), taken, t);
    OneFewer(outs, p, j);
    MovedIn(outs, p, t);
    InFromX(g, x, t, (v: nat) => 0);
  }

  lemma {:induction false} NotItsInput<N(!new), E(!new)>(g: Graph<N, E>, p: nat, x: nat, e: Edge<E>)
    requires OnlyInput(g, p, x, e)
    ensures p != x
  {
  }

  lemma {:induction false} MovedSize<E(!new)>(es: seq<Edge<E>>, p: nat)
    ensures |Moved(es, p)| == |es|
  {
  }

  /** After a stale round some node has an input less. */
  lemma {:induction false} LosesEdge<N(!new), E(!new)>(g: Graph<N, E>, slots: seq<nat>, p: nat, x: nat, e: Edge<E>)
    requires Valid(g) && Slotted(g.edges, slots) && OnlyInput(g, p, x, e)
    requires |slots| == |g.edges| && InEdges(g.edges, x) != [] && StaleRound(g.edges, slots, x) > 0
    ensures !FedAsBefore(g, slots, p, x)
  {
    hide *;
    NotItsInput(g, p, x, e);
    TakenIs(g, slots, p, x, e);
    var outs, j := OutEdges(g.edges, x), StaleRound(g.edges, slots, x);
    LeavesX(g, p, x, e);
    MovedSize(outs, p);
    var taken, t := Arrived(outs, p, j, |outs|), Moved(outs, p)[j - 1].tgt;
    InputCount(g, p, x, j, t);
    RefedIs(g, slots, x, p);
    var out: nat -> nat := (v: nat) => 0;
    FeedsCount(Kept(g.edges + taken, {x}), t, Shortcut(p, x, out));
    FeedsCount(g.edges, t, out);
    NotFed(g, slots, p, x, t, out);
  }

  lemma {:induction false} InFromX<N(!new), E(!new)>(g: Graph<N, E>, x: nat, t: nat, out: nat -> nat)
    requires t != x
    ensures |InEdges(g.edges, t)| == |InEdges(Kept(g.edges, {x}), t)| + |InEdges(OutEdges(g.edges, x), t)|
  {
    FeedsKept(g.edges, {x}, t, x, out);
    FeedsCount(g.edges, t, out);
    FeedsCount(Kept(g.edges, {x}), t, out);
    FeedsCount(OutEdges(g.edges, x), t, out);
  }

  lemma {:induction false} NotFed<N(!new), E(!new)>(g: Graph<N, E>, slots: seq<nat>, p: nat, x: nat, t: nat,
                                                    out: nat -> nat)
    requires |slots| == |g.edges| && InEdges(g.edges, x) != [] && t != x
    requires |Feeds(Kept(Refed(g, slots, x, p).edges, {x}), t, Shortcut(p, x, out))| != |Feeds(g.edges, t, out)|
    ensures !FedAsBefore(g, slots, p, x)
  {
    hide Feeds, Kept, Refed, Shortcut, InEdges;
  }

}
