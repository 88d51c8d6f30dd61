// remove_in_place: the node's parent takes over its outgoing edges. The edges are removed one
// by one through indices that were taken before the first removal, and one of these indices
// may by then stand for an edge that has just been added.
module NodeRemoval {
  import opened Digraphs
  import opened EdgeArrays

  /** The edges es, from p instead, newest first. */
  function Moved<E>(es: seq<Edge<E>>, p: nat): (r: seq<Edge<E>>)
    ensures |r| == |es|
    ensures forall i :: 0 <= i < |es| ==> r[i] == Edge(p, es[|es| - 1 - i].tgt, es[|es| - 1 - i].weight)
  {
    seq(|es|, j requires 0 <= j < |es| => Edge(p, es[|es| - 1 - j].tgt, es[|es| - 1 - j].weight))
  }

  /** The i-th newest. */
  function Newest<T>(s: seq<T>, i: nat): T
    requires i < |s|
  {
    s[|s| - 1 - i]
  }

  /** The position, newest edge first, of the edge in slot m - 1, unless it is the newest or none of them. */
  ghost function Stale(slots: seq<nat>, m: nat): (j: nat)
    ensures j == 0 || (j < |slots| && Newest(slots, j) == m - 1)
    ensures j == 0 ==> forall i: nat :: 1 <= i < |slots| ==> Newest(slots, i) != m - 1
  {
    if i: nat :| 1 <= i < |slots| && Newest(slots, i) == m - 1 then i else 0
  }

  /**
   * The edges that p has got once the first i of the edges es have been moved. Edge j is the
   * stale one: for it the edge added just before is removed, and its weight is used.
   */
  function Arrived<E>(es: seq<Edge<E>>, p: nat, j: nat, i: nat): (r: seq<Edge<E>>)
    requires i <= |es|
    ensures |r| == if 0 < j < i then i - 1 else i
  {
    var m := Moved(es, p);
    if 0 < j < i then m[..j - 1] + [Edge(p, m[j].tgt, m[j - 1].weight)] + m[j + 1..i] else m[..i]
  }

  lemma {:induction false} ArrivedNext<E(!new)>(es: seq<Edge<E>>, p: nat, j: nat, i: nat)
    requires i < |es| && (i == 0 || i != j)
    ensures Arrived(es, p, j, i + 1) == Arrived(es, p, j, i) + [Moved(es, p)[i]]
  {
    var m := Moved(es, p);
    hide Moved;
    if 0 < j < i {
      assert m[j + 1..i + 1] == m[j + 1..i] + [m[i]];
    } else {
      assert m[..i + 1] == m[..i] + [m[i]];
    }
  }

  lemma {:induction false} ArrivedStale<E(!new)>(es: seq<Edge<E>>, p: nat, i: nat)
    requires 0 < i < |es|
    ensures Arrived(es, p, i, i)[i - 1] == Moved(es, p)[i - 1]
    ensures Arrived(es, p, i, i + 1)
         == Arrived(es, p, i, i)[..i - 1] + [Edge(p, Moved(es, p)[i].tgt, Moved(es, p)[i - 1].weight)]
  {
    var m := Moved(es, p);
    hide Moved;
    assert m[..i][..i - 1] == m[..i - 1];
  }

  // ---------- the loop ----------

  /** Edge e still sits in its slot, among the first n edges. */
  ghost predicate WaitsAt<E(!new)>(edges: seq<Edge<E>>, slots: seq<nat>, n: nat, e: Edge<E>, slot: nat, k: nat) {
    k < n && n <= |edges| == |slots| && edges[k] == e && slots[k] == slot
  }

  ghost predicate Waits<E(!new)>(edges: seq<Edge<E>>, slots: seq<nat>, n: nat, e: Edge<E>, slot: nat) {
    exists k: nat :: WaitsAt(edges, slots, n, e, slot, k)
  }

  /** The edges from i on, except the one in the last slot, are where they were. */
  ghost predicate AllWait<E(!new)>(edges: seq<Edge<E>>, slots: seq<nat>, n: nat, outs: seq<Edge<E>>, at: seq<nat>, i: nat)
    requires |at| == |outs|
  {
    forall q: nat :: i <= q < |outs| && (i == 0 || Newest(at, q) != |edges| - 1) ==>
      Waits(edges, slots, n, Newest(outs, q), Newest(at, q))
  }

  /** After i rounds: rest are the edges that were there before, without those removed. */
  ghost predicate Moving<E(!new)>(edges: seq<Edge<E>>, slots: seq<nat>, rest: seq<Edge<E>>, outs: seq<Edge<E>>,
                                  at: seq<nat>, p: nat, i: nat) {
    && |at| == |outs| && i <= |outs| && |slots| == |edges|
    && edges == rest + Arrived(outs, p, Stale(at, |edges|), i)
    && (i > 0 ==> |edges| > 0 && slots[|edges| - 1] == |edges| - 1)
    && AllWait(edges, slots, |rest|, outs, at, i)
  }

  /** A removal of another edge leaves e in its slot. */
  lemma {:induction false} StillWaits<E(!new)>(edges: seq<Edge<E>>, slots: seq<nat>, n: nat, e: Edge<E>, slot: nat, k: nat,
                                              added: Edge<E>)
    requires Slotted(edges, slots) && k < |edges| && slots[k] != slot && slot != |edges| - 1 && n <= |edges|
    requires Waits(edges, slots, n, e, slot)
    ensures Waits(Dropped(edges, k) + [added], Reslotted(slots, k) + [|edges| - 1], if k < n then n - 1 else n, e, slot)
  {
    var q: nat :| WaitsAt(edges, slots, n, e, slot, q);
    assert q != k;
    var es, ss := Dropped(edges, k) + [added], Reslotted(slots, k) + [|edges| - 1];
    var q' := if q < k then q else q - 1;
    assert es[q'] == e && ss[q'] == slot;
    assert WaitsAt(es, ss, if k < n then n - 1 else n, e, slot, q');
  }

  lemma {:induction false} AllStillWait<E(!new)>(edges: seq<Edge<E>>, slots: seq<nat>, n: nat, outs: seq<Edge<E>>,
                                                at: seq<nat>, i: nat, k: nat, added: Edge<E>)
    requires Slotted(edges, slots) && |at| == |outs| && Injective(at) && i < |outs| && n <= |edges|
    requires AllWait(edges, slots, n, outs, at, i) && k < |edges| && slots[k] == Newest(at, i)
    ensures AllWait(Dropped(edges, k) + [added], Reslotted(slots, k) + [|edges| - 1], if k < n then n - 1 else n, outs, at,
                    i + 1)
  {
    var es, ss := Dropped(edges, k) + [added], Reslotted(slots, k) + [|edges| - 1];
    forall q: nat | i + 1 <= q < |outs| && Newest(at, q) != |es| - 1
      ensures Waits(es, ss, if k < n then n - 1 else n, Newest(outs, q), Newest(at, q))
    {
      assert Newest(at, q) != Newest(at, i);
      assert Waits(edges, slots, n, Newest(outs, q), Newest(at, q));
      hide Slotted, Waits, Dropped, Reslotted;
      StillWaits(edges, slots, n, Newest(outs, q), Newest(at, q), k, added);
    }
  }

  lemma {:induction false} MovingAre<E(!new)>(edges: seq<Edge<E>>, slots: seq<nat>, rest: seq<Edge<E>>, outs: seq<Edge<E>>,
                                             at: seq<nat>, p: nat, i: nat)
    requires Moving(edges, slots, rest, outs, at, p, i)
    ensures |at| == |outs| && i <= |outs| && |slots| == |edges| && |rest| <= |edges| && edges[..|rest|] == rest
    ensures edges == rest + Arrived(outs, p, Stale(at, |edges|), i)
    ensures AllWait(edges, slots, |rest|, outs, at, i)
    ensures i > 0 ==> |edges| > 0 && slots[|edges| - 1] == |edges| - 1
  {
    hide AllWait, Arrived, Stale;
  }

  lemma {:induction false} MovingOn<E(!new)>(edges: seq<Edge<E>>, slots: seq<nat>, rest: seq<Edge<E>>, outs: seq<Edge<E>>,
                                            at: seq<nat>, p: nat, i: nat, e: Edge<E>)
    requires |at| == |outs| && i <= |outs| && |slots| == |edges|
    requires edges + [e] == rest + Arrived(outs, p, Stale(at, |edges| + 1), i)
    requires AllWait(edges + [e], slots + [|edges|], |rest|, outs, at, i)
    ensures Moving(edges + [e], slots + [|edges|], rest, outs, at, p, i)
  {
    hide AllWait, Arrived, Stale;
  }

  lemma {:induction false} FindWaiting<E(!new)>(edges: seq<Edge<E>>, slots: seq<nat>, n: nat, outs: seq<Edge<E>>,
                                               at: seq<nat>, i: nat) returns (k: nat)
    requires |at| == |outs| && AllWait(edges, slots, n, outs, at, i) && i < |outs|
    requires i == 0 || Newest(at, i) != |edges| - 1
    ensures k < n <= |edges| == |slots| && slots[k] == Newest(at, i) && edges[k] == Newest(outs, i)
  {
    assert Waits(edges, slots, n, Newest(outs, i), Newest(at, i));
    k :| WaitsAt(edges, slots, n, Newest(outs, i), Newest(at, i), k);
  }

  lemma {:induction false} DropFront<T(!new)>(a: seq<T>, b: seq<T>, k: nat, x: T)
    requires k < |a|
    ensures Dropped(a + b, k) + [x] == Dropped(a, k) + (b + [x]) && |Dropped(a, k)| == |a| - 1
  {
  }

  lemma {:induction false} NotStale(at: seq<nat>, m: nat, i: nat)
    requires i < |at| && (i == 0 || Newest(at, i) != m - 1)
    ensures i == 0 || i != Stale(at, m)
  {
  }

  lemma {:induction false} MovedAt<E(!new)>(es: seq<Edge<E>>, p: nat, i: nat)
    requires i < |es|
    ensures Moved(es, p)[i] == Edge(p, Newest(es, i).tgt, Newest(es, i).weight)
  {
  }

  /** A round whose index still stands for its edge. */
  lemma {:induction false} MoveFresh<E(!new)>(edges: seq<Edge<E>>, slots: seq<nat>, rest: seq<Edge<E>>, outs: seq<Edge<E>>,
                                             at: seq<nat>, p: nat, i: nat, x: nat) returns (k: nat)
    requires Slotted(edges, slots) && Moving(edges, slots, rest, outs, at, p, i) && i < |outs| == |at| && Injective(at)
    requires (i == 0 || Newest(at, i) != |edges| - 1) && Newest(outs, i).src == x && |slots| == |edges|
    ensures k < |rest| <= |edges| && slots[k] == Newest(at, i) && edges[k] == Newest(outs, i)
    ensures Moving(Dropped(edges, k) + [Edge(p, Newest(outs, i).tgt, edges[k].weight)], Reslotted(slots, k) + [|edges| - 1],
                   Dropped(rest, k), outs, at, p, i + 1)
    ensures Kept(Dropped(rest, k), {x}) == Kept(rest, {x})
  {
    hide *;
    MovingAre(edges, slots, rest, outs, at, p, i);
    k := FindWaiting(edges, slots, |rest|, outs, at, i);
    var j, added := Stale(at, |edges|), Edge(p, Newest(outs, i).tgt, edges[k].weight);
    assert rest[k] == edges[k];
    NotStale(at, |edges|, i);
    AllStillWait(edges, slots, |rest|, outs, at, i, k, added);
    DropEdge(rest, k, {x});
    ArrivedNext(outs, p, j, i);
    MovedAt(outs, p, i);
    DropFront(rest, Arrived(outs, p, j, i), k, added);
    MovingOn(Dropped(edges, k), Reslotted(slots, k), Dropped(rest, k), outs, at, p, i + 1, added);
  }

  /** The round whose index has come to stand for the edge just added. */
  lemma {:induction false} MoveStale<E(!new)>(edges: seq<Edge<E>>, slots: seq<nat>, rest: seq<Edge<E>>, outs: seq<Edge<E>>,
                                             at: seq<nat>, p: nat, i: nat) returns (k: nat)
    requires Slotted(edges, slots) && Moving(edges, slots, rest, outs, at, p, i) && 0 < i < |outs| == |at| && Injective(at)
    requires Newest(at, i) == |edges| - 1 && |slots| == |edges|
    ensures k == |edges| - 1 && slots[k] == Newest(at, i)
    ensures Moving(Dropped(edges, k) + [Edge(p, Newest(outs, i).tgt, edges[k].weight)], Reslotted(slots, k) + [|edges| - 1],
                   rest, outs, at, p, i + 1)
  {
    k := |edges| - 1;
    var j := Stale(at, |edges|);
    assert j == i by {
      assert at[|at| - 1 - j] == at[|at| - 1 - i];
    }
    var added := Edge(p, Newest(outs, i).tgt, edges[k].weight);
    ArrivedStale(outs, p, i);
    hide Slotted, Stale, Waits;
    assert |rest| < |edges| && edges[k] == Arrived(outs, p, i, i)[i - 1];
    AllStillWait(edges, slots, |rest|, outs, at, i, k, added);
    assert Dropped(edges, k) == rest + Arrived(outs, p, i, i)[..i - 1];
    assert Dropped(edges, k) + [added] == rest + Arrived(outs, p, i, i + 1);
  }

  lemma {:induction false} MoveStart<E(!new)>(edges: seq<Edge<E>>, slots: seq<nat>, p: nat, x: nat)
    requires Slotted(edges, slots)
    ensures |OutSlots(edges, slots, x)| == |OutEdges(edges, x)| && Injective(OutSlots(edges, slots, x))
    ensures Moving(edges, slots, edges, OutEdges(edges, x), OutSlots(edges, slots, x), p, 0)
    ensures forall i: nat :: i < |OutEdges(edges, x)| ==> Newest(OutEdges(edges, x), i).src == x
  {
    var outs, at := OutEdges(edges, x), OutSlots(edges, slots, x);
    OutSlotsAre(edges, slots, x);
    OutSlotsDiffer(edges, slots, x);
    forall q: nat | q < |outs|
      ensures Waits(edges, slots, |edges|, Newest(outs, q), Newest(at, q)) && Newest(outs, q).src == x
    {
      var k := OutPosition(edges, slots, x, |outs| - 1 - q);
      assert WaitsAt(edges, slots, |edges|, Newest(outs, q), Newest(at, q), k);
    }
    assert edges == edges + Arrived(outs, p, Stale(at, |edges|), 0);
  }

  lemma {:induction false} OutInside<N(!new), E(!new)>(g: Graph<N, E>, x: nat)
    requires Valid(g)
    ensures forall i: nat :: i < |OutEdges(g.edges, x)| ==> Newest(OutEdges(g.edges, x), i).tgt < |g.nodes|
  {
    OutEdgesAre(g.edges, x);
    forall i: nat | i < |OutEdges(g.edges, x)|
      ensures Newest(OutEdges(g.edges, x), i).tgt < |g.nodes|
    {
      var e := Newest(OutEdges(g.edges, x), i);
      assert e in OutEdges(g.edges, x);
      assert e in g.edges;
    }
  }

  /** One round: removes whatever sits in the slot of the i-th edge, and adds an edge to its target. */
  method MoveOne<N(!new), E(!new)>(graph: EdgeGraph<N, E>, x: nat, p: nat, outs: seq<Edge<E>>, at: seq<nat>, i: nat,
                                   ghost rest: seq<Edge<E>>) returns (ghost left: seq<Edge<E>>)
    requires graph.Good() && p < |graph.nodes| && i < |outs| == |at| && Injective(at)
    requires Newest(outs, i).src == x && Newest(outs, i).tgt < |graph.nodes|
    requires Moving(graph.edges, graph.slots, rest, outs, at, p, i)
    modifies graph
    ensures graph.Good() && graph.nodes == old(graph.nodes) && |graph.edges| == |old(graph.edges)|
    ensures Moving(graph.edges, graph.slots, left, outs, at, p, i + 1) && Kept(left, {x}) == Kept(rest, {x})
  {
    hide *;
    GoodIs(graph);
    ghost var k;
    if i == 0 || Newest(at, i) != |graph.edges| - 1 {
      k := MoveFresh(graph.edges, graph.slots, rest, outs, at, p, i, x);
      left := Dropped(rest, k);
    } else {
      k := MoveStale(graph.edges, graph.slots, rest, outs, at, p, i);
      left := rest;
    }
    var weight := graph.RemoveEdge(Newest(at, i), k);
    graph.AddEdge(p, Newest(outs, i).tgt, weight);
  }

  /** Moves the edges out of x to p; the edges are what is left of the old ones, then the new ones. */
  method MoveEdges<N(!new), E(!new)>(graph: EdgeGraph<N, E>, x: nat, p: nat) returns (ghost rest: seq<Edge<E>>)
    requires graph.Good() && p < |graph.nodes|
    modifies graph
    ensures graph.Good() && graph.nodes == old(graph.nodes) && Kept(rest, {x}) == Kept(old(graph.edges), {x})
    ensures |old(graph.slots)| == |old(graph.edges)|
    ensures var outs := OutEdges(old(graph.edges), x);
            var at := OutSlots(old(graph.edges), old(graph.slots), x);
            graph.edges == rest + Arrived(outs, p, Stale(at, |old(graph.edges)|), |outs|)
  {
    hide *;
    GoodIs(graph);
    MoveStart(graph.edges, graph.slots, p, x);
    OutInside(graph.View(), x);
    assert |graph.View().nodes| == |graph.nodes| && graph.View().edges == graph.edges by {
      ViewIs(graph);
    }
    var outs := OutEdges(graph.edges, x);
    var at := OutSlots(graph.edges, graph.slots, x);
    rest := graph.edges;
    var i := 0;
    while i < |outs|
      invariant graph.Good() && graph.nodes == old(graph.nodes) && |graph.edges| == |old(graph.edges)|
      invariant 0 <= i <= |outs| && Moving(graph.edges, graph.slots, rest, outs, at, p, i)
      invariant Kept(rest, {x}) == Kept(old(graph.edges), {x})
    {
      rest := MoveOne(graph, x, p, outs, at, i, rest);
      i := i + 1;
    }
    MoveEnd(graph.edges, graph.slots, rest, outs, at, p);
  }

  lemma {:induction false} MoveEnd<E(!new)>(edges: seq<Edge<E>>, slots: seq<nat>, rest: seq<Edge<E>>, outs: seq<Edge<E>>,
                                           at: seq<nat>, p: nat)
    requires Moving(edges, slots, rest, outs, at, p, |outs|)
    ensures edges == rest + Arrived(outs, p, Stale(at, |edges|), |outs|)
  {
  }

  // ---------- the whole removal ----------

  /** The newest edge into x. */
  ghost function EntryAt<E(!new)>(edges: seq<Edge<E>>, slots: seq<nat>, x: nat): (k: nat)
    requires |slots| == |edges| && InEdges(edges, x) != []
    ensures NewestIn(edges, slots, x, k)
  {
    InSlotsAre(edges, slots, x);
    var k: nat :| NewestIn(edges, slots, x, k);
    k
  }

  /** The source of the newest edge into x. */
  function Parent<E>(edges: seq<Edge<E>>, x: nat): nat
    requires InEdges(edges, x) != []
  {
    InEdges(edges, x)[|InEdges(edges, x)| - 1].src
  }

  /** The round that goes wrong, none if it is 0. */
  ghost function StaleRound<E(!new)>(edges: seq<Edge<E>>, slots: seq<nat>, x: nat): nat
    requires |slots| == |edges| && InEdges(edges, x) != []
  {
    var k := EntryAt(edges, slots, x);
    Stale(OutSlots(Dropped(edges, k), Reslotted(slots, k), x), |edges| - 1)
  }

  /** The edges that the parent of x takes over. */
  ghost function TakenOver<E(!new)>(edges: seq<Edge<E>>, slots: seq<nat>, x: nat, p: nat): seq<Edge<E>>
    requires |slots| == |edges| && InEdges(edges, x) != []
  {
    var outs := OutEdges(Dropped(edges, EntryAt(edges, slots, x)), x);
    Arrived(outs, p, StaleRound(edges, slots, x), |outs|)
  }

  lemma {:induction false} RemoveOnly<N(!new), E(!new)>(g: Graph<N, E>, x: nat)
    requires Valid(g) && x < |g.nodes|
    ensures Without(Digraphs.RemoveNode(g, x), g, SwapRemove(Identity(|g.nodes|), x), {x})
  {
    WithoutNothing(g);
    RemoveOneMore(g, g, Identity(|g.nodes|), {}, x);
    assert Identity(|g.nodes|)[x] == x;
    assert {} + {x} == {x};
  }

  /** What else was there among the edges of dead nodes does not matter. */
  lemma {:induction false} WithoutSame<N(!new), E(!new)>(h: Graph<N, E>, g: Graph<N, E>, f: Graph<N, E>, names: seq<nat>,
                                                        dead: set<nat>)
    requires Without(h, g, names, dead) && f.nodes == g.nodes && Kept(f.edges, dead) == Kept(g.edges, dead)
    ensures Without(h, f, names, dead)
  {
  }

  lemma {:induction false} KeptBefore<E(!new)>(a: seq<Edge<E>>, b: seq<Edge<E>>, c: seq<Edge<E>>, dead: set<nat>)
    requires Kept(a, dead) == Kept(b, dead)
    ensures Kept(a + c, dead) == Kept(b + c, dead)
  {
    KeptConcat(a, c, dead);
    KeptConcat(b, c, dead);
  }

  lemma {:induction false} ParentInside<N(!new), E(!new)>(g: Graph<N, E>, x: nat)
    requires Valid(g) && InEdges(g.edges, x) != []
    ensures Parent(g.edges, x) < |g.nodes|
  {
    var e := InEdges(g.edges, x)[|InEdges(g.edges, x)| - 1];
    InEdgesAre(g.edges, x);
    assert e in InEdges(g.edges, x);
    assert e in g.edges;
  }

  /** The newest edge into x, its slot, and what dropping it changes. */
  lemma {:induction false} EntryIs<E(!new)>(edges: seq<Edge<E>>, slots: seq<nat>, x: nat)
    requires |slots| == |edges| && InEdges(edges, x) != []
    ensures var k := EntryAt(edges, slots, x);
            && k < |edges| && |InSlots(edges, slots, x)| == |InEdges(edges, x)| > 0
            && slots[k] == InSlots(edges, slots, x)[|InEdges(edges, x)| - 1]
            && Kept(Dropped(edges, k), {x}) == Kept(edges, {x})
  {
    DropEdge(edges, EntryAt(edges, slots, x), {x});
  }

  /** Node x is gone, and its parent has got what it could take over; everything else is as before, up to renaming. */
  method RemoveInPlace<N(!new), E(!new)>(graph: EdgeGraph<N, E>, x: nat) returns (ghost names: seq<nat>)
    requires graph.Good() && x < |graph.nodes| && InEdges(graph.edges, x) != []
    modifies graph
    ensures graph.Good() && |graph.nodes| == |old(graph.nodes)| - 1 && |old(graph.slots)| == |old(graph.edges)|
    ensures var g := old(graph.View());
            var taken := TakenOver(g.edges, old(graph.slots), x, Parent(g.edges, x));
            Without(graph.View(), Graph(g.nodes, g.edges + taken), names, {x})
  {
    ghost var g, slots := graph.View(), graph.slots;
    ParentInside(g, x);
    var incoming := InEdges(graph.edges, x);
    var parent := incoming[|incoming| - 1].src;
    var at := InSlots(graph.edges, graph.slots, x);
    EntryIs(graph.edges, graph.slots, x);
    assert parent == Parent(g.edges, x);
    hide InEdges, InSlots, OutEdges, OutSlots, Slotted, Valid, Without, Kept, Dropped, Reslotted, Arrived, Parent, EntryAt;
    ghost var k := EntryAt(graph.edges, graph.slots, x);
    var weight := graph.RemoveEdge(at[|at| - 1], k);
    ghost var rest := MoveEdges(graph, x, parent);
    ghost var taken := TakenOver(g.edges, slots, x, parent);
    assert graph.edges == rest + taken;
    ghost var moved := graph.View();
    RemoveOnly(moved, x);
    names := SwapRemove(Identity(|g.nodes|), x);
    graph.RemoveNode(x);
    KeptBefore(rest, g.edges, taken, {x});
    WithoutSame(graph.View(), moved, Graph(g.nodes, g.edges + taken), names, {x});
  }

  // ---------- when an edge is lost ----------

  /** Among the edges out of x, one that is not the newest sits in slot s. */
  ghost predicate OlderOutAt<E(!new)>(edges: seq<Edge<E>>, slots: seq<nat>, x: nat, s: int) {
    exists q: nat, r: nat :: OlderOut(edges, slots, x, s, q, r)
  }

  ghost predicate OlderOut<E(!new)>(edges: seq<Edge<E>>, slots: seq<nat>, x: nat, s: int, q: nat, r: nat) {
    q < r < |edges| == |slots| && edges[q].src == x && edges[r].src == x && slots[q] == s
  }

  lemma {:induction false} StaleMeans<E(!new)>(edges: seq<Edge<E>>, slots: seq<nat>, x: nat, m: nat)
    requires Slotted(edges, slots)
    ensures |slots| == |edges| && (Stale(OutSlots(edges, slots, x), m) > 0 <==> OlderOutAt(edges, slots, x, m - 1))
  {
    var at := OutSlots(edges, slots, x);
    var j := Stale(at, m);
    OutSlotsAre(edges, slots, x);
    if j > 0 {
      var q := OutPosition(edges, slots, x, |at| - 1 - j);
      var r := OutPosition(edges, slots, x, |at| - 1);
      if r < q {
        OutOrder(edges, x, r, q);
      }
      assert OlderOut(edges, slots, x, m - 1, q, r);
    }
    if OlderOutAt(edges, slots, x, m - 1) {
      var q: nat, r: nat :| OlderOut(edges, slots, x, m - 1, q, r);
      OutRank(edges, slots, x, q);
      OutRank(edges, slots, x, r);
      OutOrder(edges, x, q, r);
      var o := |OutEdges(edges[..q], x)|;
      assert Newest(at, |at| - 1 - o) == m - 1;
    }
  }

  /** The slot whose edge sits at the end of the array once the edge into x is removed. */
  function LastSlot(n: nat, entry: nat): int {
    if entry == n - 2 then n - 1 else n - 2
  }

  /** Dropping edge k, which is not out of x, moves what sits at the end of the array. */
  lemma {:induction false} OlderOutDropped<E(!new)>(edges: seq<Edge<E>>, slots: seq<nat>, x: nat, k: nat)
    requires Slotted(edges, slots) && k < |edges| == |slots| && edges[k].src != x
    ensures OlderOutAt(Dropped(edges, k), Reslotted(slots, k), x, |edges| - 2)
       <==> OlderOutAt(edges, slots, x, LastSlot(|edges|, slots[k]))
  {
    var es, ss, s := Dropped(edges, k), Reslotted(slots, k), LastSlot(|edges|, slots[k]);
    hide Slotted, Reslotted, Dropped, LastSlot, OlderOut;
    if OlderOutAt(es, ss, x, |edges| - 2) {
      var q: nat, r: nat :| OlderOut(es, ss, x, |edges| - 2, q, r);
      OlderBefore(edges, slots, x, k, q, r);
    }
    if OlderOutAt(edges, slots, x, s) {
      var q: nat, r: nat :| OlderOut(edges, slots, x, s, q, r);
      OlderAfter(edges, slots, x, k, q, r);
    }
  }

  lemma {:induction false} OlderBefore<E(!new)>(edges: seq<Edge<E>>, slots: seq<nat>, x: nat, k: nat, q: nat, r: nat)
    requires Slotted(edges, slots) && k < |edges| == |slots|
    requires OlderOut(Dropped(edges, k), Reslotted(slots, k), x, |edges| - 2, q, r)
    ensures OlderOut(edges, slots, x, LastSlot(|edges|, slots[k]), if q < k then q else q + 1, if r < k then r else r + 1)
  {
    hide Slotted, Reslotted, Dropped, LastSlot;
    SlotBefore(edges, slots, k, q);
    SlotBefore(edges, slots, k, r);
  }

  lemma {:induction false} OlderAfter<E(!new)>(edges: seq<Edge<E>>, slots: seq<nat>, x: nat, k: nat, q: nat, r: nat)
    requires Slotted(edges, slots) && k < |edges| == |slots| && edges[k].src != x
    requires OlderOut(edges, slots, x, LastSlot(|edges|, slots[k]), q, r)
    ensures OlderOut(Dropped(edges, k), Reslotted(slots, k), x, |edges| - 2, if q < k then q else q - 1,
                     if r < k then r else r - 1)
  {
    hide Slotted, Reslotted, Dropped, LastSlot;
    SlotBefore(edges, slots, k, if q < k then q else q - 1);
    SlotBefore(edges, slots, k, if r < k then r else r - 1);
  }

  /**
   * An edge goes missing exactly if, once the edge into x is gone, an edge out of x other than
   * the newest is the last of the array.
   */
  lemma {:induction false} StaleIff<E(!new)>(edges: seq<Edge<E>>, slots: seq<nat>, x: nat)
    requires Slotted(edges, slots) && InEdges(edges, x) != [] && Parent(edges, x) != x
    ensures |slots| == |edges|
    ensures StaleRound(edges, slots, x) > 0
       <==> OlderOutAt(edges, slots, x, LastSlot(|edges|, slots[EntryAt(edges, slots, x)]))
  {
    var k := EntryAt(edges, slots, x);
    assert edges[k].src != x && |slots| == |edges|;
    hide Slotted, EntryAt, InEdges, OutEdges, InSlots, OutSlots, Stale, Reslotted, Dropped, OlderOutAt, LastSlot;
    RemovalSlots(edges, slots, k);
    StaleMeans(Dropped(edges, k), Reslotted(slots, k), x, |edges| - 1);
    OlderOutDropped(edges, slots, x, k);
  }

  lemma {:induction false} SlotBefore<E(!new)>(edges: seq<Edge<E>>, slots: seq<nat>, k: nat, q: nat)
    requires Slotted(edges, slots) && k < |edges| && q < |edges| - 1
    ensures |slots| == |edges| == |Dropped(edges, k)| + 1 == |Reslotted(slots, k)| + 1
    ensures var o := if q < k then q else q + 1;
            && Dropped(edges, k)[q] == edges[o]
            && (Reslotted(slots, k)[q] == |edges| - 2 <==> slots[o] == LastSlot(|edges|, slots[k]))
  {
  }
}
