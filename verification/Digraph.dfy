// Directed graphs as petgraph keeps them: nodes by index, edges in order of insertion, and a
// node removal that moves the last node into the freed index.
module Digraphs {
  datatype Edge<E> = Edge(src: nat, tgt: nat, weight: E)

  datatype Graph<N, E> = Graph(nodes: seq<N>, edges: seq<Edge<E>>)

  predicate Valid<N, E>(g: Graph<N, E>) {
    forall k :: 0 <= k < |g.edges| ==> g.edges[k].src < |g.nodes| && g.edges[k].tgt < |g.nodes|
  }

  /** Edges into i, oldest first. */
  function InEdges<E>(es: seq<Edge<E>>, i: nat): seq<Edge<E>> {
    if es == [] then []
    else
      var last := es[|es| - 1];
      InEdges(es[..|es| - 1], i) + (if last.tgt == i then [last] else [])
  }

  /** Edges out of i, oldest first. */
  function OutEdges<E>(es: seq<Edge<E>>, i: nat): seq<Edge<E>> {
    if es == [] then []
    else
      var last := es[|es| - 1];
      OutEdges(es[..|es| - 1], i) + (if last.src == i then [last] else [])
  }

  lemma {:induction false} InEdgesAre<E(!new)>(es: seq<Edge<E>>, i: nat)
    ensures forall e :: e in InEdges(es, i) <==> e in es && e.tgt == i
    decreases |es|
  {
    if es != [] {
      InEdgesAre(es[..|es| - 1], i);
      assert es == es[..|es| - 1] + [es[|es| - 1]];
    }
  }

  lemma {:induction false} OutEdgesAre<E(!new)>(es: seq<Edge<E>>, i: nat)
    ensures forall e :: e in OutEdges(es, i) <==> e in es && e.src == i
    decreases |es|
  {
    if es != [] {
      OutEdgesAre(es[..|es| - 1], i);
      assert es == es[..|es| - 1] + [es[|es| - 1]];
    }
  }

  lemma {:induction false} InEdgesConcat<E(!new)>(es: seq<Edge<E>>, fs: seq<Edge<E>>, i: nat)
    ensures InEdges(es + fs, i) == InEdges(es, i) + InEdges(fs, i)
    decreases |fs|
  {
    if fs == [] {
      assert es + fs == es;
    } else {
      var front, last := fs[..|fs| - 1], fs[|fs| - 1];
      InEdgesConcat(es, front, i);
      assert (es + fs)[..|es + fs| - 1] == es + front;
    }
  }

  lemma {:induction false} OutEdgesConcat<E(!new)>(es: seq<Edge<E>>, fs: seq<Edge<E>>, i: nat)
    ensures OutEdges(es + fs, i) == OutEdges(es, i) + OutEdges(fs, i)
    decreases |fs|
  {
    if fs == [] {
      assert es + fs == es;
    } else {
      var front, last := fs[..|fs| - 1], fs[|fs| - 1];
      OutEdgesConcat(es, front, i);
      assert (es + fs)[..|es + fs| - 1] == es + front;
    }
  }

  // ---------- removal and renaming ----------

  /** The edges that touch no node of dead. */
  function Kept<E>(es: seq<Edge<E>>, dead: set<nat>): seq<Edge<E>> {
    if es == [] then []
    else
      var last := es[|es| - 1];
      Kept(es[..|es| - 1], dead) + (if last.src in dead || last.tgt in dead then [] else [last])
  }

  /** The edges with endpoints renamed by names; endpoints without a name stay. */
  function Mapped<E>(es: seq<Edge<E>>, names: seq<nat>): (r: seq<Edge<E>>)
    ensures |r| == |es|
  {
    seq(|es|, k requires 0 <= k < |es| => Edge(NameOf(names, es[k].src), NameOf(names, es[k].tgt), es[k].weight))
  }

  function NameOf(names: seq<nat>, i: nat): nat {
    if i < |names| then names[i] else i
  }

  predicate Injective(names: seq<nat>) {
    forall i, j :: 0 <= i < j < |names| ==> names[i] != names[j]
  }

  /**
   * h is g without the nodes of dead, up to the renaming names: h's node i is g's node
   * names[i], every surviving node has exactly one name, and the edges are the surviving ones.
   */
  ghost predicate Without<N(!new), E(!new)>(h: Graph<N, E>, g: Graph<N, E>, names: seq<nat>, dead: set<nat>) {
    && Valid(h) && |names| == |h.nodes| && Injective(names)
    && (forall i :: 0 <= i < |names| ==> names[i] < |g.nodes| && names[i] !in dead && h.nodes[i] == g.nodes[names[i]])
    && (forall x: nat :: x < |g.nodes| && x !in dead ==> x in names)
    && Mapped(h.edges, names) == Kept(g.edges, dead)
  }

  function Identity(n: nat): (r: seq<nat>)
    ensures |r| == n && forall i :: 0 <= i < n ==> r[i] == i
  {
    seq(n, i requires 0 <= i < n => i)
  }

  lemma {:induction false} KeptAll<E(!new)>(es: seq<Edge<E>>)
    ensures Kept(es, {}) == es
    decreases |es|
  {
    if es != [] {
      KeptAll(es[..|es| - 1]);
      assert es == es[..|es| - 1] + [es[|es| - 1]];
    }
  }

  lemma {:induction false} MappedIdentity<E(!new)>(es: seq<Edge<E>>, n: nat)
    ensures Mapped(es, Identity(n)) == es
  {
    forall k | 0 <= k < |es|
      ensures Mapped(es, Identity(n))[k] == es[k]
    {
    }
  }

  lemma {:induction false} WithoutNothing<N(!new), E(!new)>(g: Graph<N, E>)
    requires Valid(g)
    ensures Without(g, g, Identity(|g.nodes|), {})
  {
    var names := Identity(|g.nodes|);
    KeptAll(g.edges);
    MappedIdentity(g.edges, |g.nodes|);
    hide Mapped, Kept, Identity;
    forall x: nat | x < |g.nodes|
      ensures x in names
    {
      assert names[x] == x;
    }
  }

  /** The last element moves to index a, as in Vec::swap_remove. */
  function SwapRemove<T>(s: seq<T>, a: nat): (r: seq<T>)
    requires a < |s|
    ensures |r| == |s| - 1
    ensures forall i :: 0 <= i < |r| ==> r[i] == if i == a then s[|s| - 1] else s[i]
  {
    s[a := s[|s| - 1]][..|s| - 1]
  }

  /** Graph::remove_node: drop the edges of a, then swap-remove the node and rename the moved one. */
  function RemoveNode<N, E>(g: Graph<N, E>, a: nat): Graph<N, E>
    requires Valid(g) && a < |g.nodes|
  {
    var last := |g.nodes| - 1;
    Graph(SwapRemove(g.nodes, a), Renamed(Kept(g.edges, {a}), last, a))
  }

  function Renamed<E>(es: seq<Edge<E>>, from: nat, to: nat): (r: seq<Edge<E>>)
    ensures |r| == |es|
  {
    seq(|es|, k requires 0 <= k < |es| =>
      Edge(if es[k].src == from then to else es[k].src, if es[k].tgt == from then to else es[k].tgt, es[k].weight))
  }

  lemma {:induction false} KeptAre<E(!new)>(es: seq<Edge<E>>, dead: set<nat>)
    ensures forall e :: e in Kept(es, dead) <==> e in es && e.src !in dead && e.tgt !in dead
    decreases |es|
  {
    if es != [] {
      KeptAre(es[..|es| - 1], dead);
      assert es == es[..|es| - 1] + [es[|es| - 1]];
    }
  }

  lemma {:induction false} KeptTwice<E(!new)>(es: seq<Edge<E>>, dead: set<nat>, more: set<nat>)
    ensures Kept(Kept(es, dead), more) == Kept(es, dead + more)
    decreases |es|
  {
    if es != [] {
      var front, last := es[..|es| - 1], es[|es| - 1];
      KeptTwice(front, dead, more);
      if last.src in dead || last.tgt in dead {
        assert Kept(es, dead) == Kept(front, dead);
      } else {
        assert Kept(es, dead) == Kept(front, dead) + [last];
        assert (Kept(front, dead) + [last])[..|Kept(front, dead)|] == Kept(front, dead);
      }
    }
  }

  lemma {:induction false} KeptConcat<E(!new)>(es: seq<Edge<E>>, fs: seq<Edge<E>>, dead: set<nat>)
    ensures Kept(es + fs, dead) == Kept(es, dead) + Kept(fs, dead)
    decreases |fs|
  {
    if fs == [] {
      assert es + fs == es;
    } else {
      var front, last := fs[..|fs| - 1], fs[|fs| - 1];
      KeptConcat(es, front, dead);
      assert (es + fs)[..|es + fs| - 1] == es + front;
    }
  }

  /** Dropping the edges of a before renaming is dropping the edges of its name after. */
  lemma {:induction false} KeptMapped<E(!new)>(es: seq<Edge<E>>, names: seq<nat>, a: nat)
    requires Injective(names) && a < |names|
    requires forall k :: 0 <= k < |es| ==> es[k].src < |names| && es[k].tgt < |names|
    ensures Mapped(Kept(es, {a}), names) == Kept(Mapped(es, names), {names[a]})
    decreases |es|
  {
    if es != [] {
      var front, last := es[..|es| - 1], es[|es| - 1];
      KeptMapped(front, names, a);
      assert Mapped(es, names)[..|es| - 1] == Mapped(front, names);
      assert es[|es| - 1].src < |names| && es[|es| - 1].tgt < |names|;
      assert names[last.src] == names[a] <==> last.src == a;
      assert names[last.tgt] == names[a] <==> last.tgt == a;
      var kept := Kept(front, {a});
      assert Mapped(kept + [last], names) == Mapped(kept, names) + [Mapped(es, names)[|es| - 1]];
    }
  }

  lemma {:induction false} RenamedMapped<E(!new)>(es: seq<Edge<E>>, names: seq<nat>, a: nat)
    requires a < |names|
    requires InBounds(es, |names|, a)
    ensures Mapped(Renamed(es, |names| - 1, a), SwapRemove(names, a)) == Mapped(es, names)
  {
    var last := |names| - 1;
    var r, small := Renamed(es, last, a), SwapRemove(names, a);
    forall k | 0 <= k < |es|
      ensures Mapped(r, small)[k] == Mapped(es, names)[k]
    {
      var e := es[k];
      assert e.src < |names| && e.tgt < |names| && e.src != a && e.tgt != a;
      assert NameOf(small, r[k].src) == NameOf(names, e.src);
      assert NameOf(small, r[k].tgt) == NameOf(names, e.tgt);
    }
  }

  lemma {:induction false} SwapRemoveNames(names: seq<nat>, a: nat)
    requires Injective(names) && a < |names|
    ensures Injective(SwapRemove(names, a))
    ensures forall x: nat :: x in SwapRemove(names, a) <==> x in names && x != names[a]
  {
    var small := SwapRemove(names, a);
    forall x: nat
      ensures x in small <==> x in names && x != names[a]
    {
      if x in small {
        var i :| 0 <= i < |small| && small[i] == x;
        assert x == names[if i == a then |names| - 1 else i];
      }
      if x in names && x != names[a] {
        var i :| 0 <= i < |names| && names[i] == x;
        assert small[if i == |names| - 1 then a else i] == x;
      }
    }
  }

  /** Endpoints below n, none of them a. */
  ghost predicate InBounds<E(!new)>(es: seq<Edge<E>>, n: nat, a: nat) {
    forall k :: 0 <= k < |es| ==> es[k].src < n && es[k].tgt < n && es[k].src != a && es[k].tgt != a
  }

  lemma {:induction false} KeptBounds<N(!new), E(!new)>(h: Graph<N, E>, a: nat)
    requires Valid(h)
    ensures InBounds(Kept(h.edges, {a}), |h.nodes|, a)
  {
    var kept := Kept(h.edges, {a});
    KeptAre(h.edges, {a});
    hide Kept;
    forall k | 0 <= k < |kept|
      ensures kept[k].src < |h.nodes| && kept[k].tgt < |h.nodes| && kept[k].src != a && kept[k].tgt != a
    {
      var e := kept[k];
      assert e in kept;
      assert e in h.edges;
    }
  }

  lemma {:induction false} RemoveNodeValid<N(!new), E(!new)>(h: Graph<N, E>, a: nat)
    requires Valid(h) && a < |h.nodes|
    ensures Valid(RemoveNode(h, a))
  {
    KeptBounds(h, a);
    var r, kept := RemoveNode(h, a), Kept(h.edges, {a});
    assert r.edges == Renamed(kept, |h.nodes| - 1, a);
    forall k | 0 <= k < |r.edges|
      ensures r.edges[k].src < |r.nodes| && r.edges[k].tgt < |r.nodes|
    {
      assert kept[k].src < |h.nodes| && kept[k].tgt < |h.nodes| && kept[k].src != a && kept[k].tgt != a;
    }
  }

  lemma {:induction false} RemoveNodeEdges<N(!new), E(!new)>(h: Graph<N, E>, g: Graph<N, E>, names: seq<nat>,
                                                             dead: set<nat>, a: nat)
    requires Without(h, g, names, dead) && a < |h.nodes|
    ensures Mapped(RemoveNode(h, a).edges, SwapRemove(names, a)) == Kept(g.edges, dead + {names[a]})
  {
    KeptBounds(h, a);
    var kept := Kept(h.edges, {a});
    RenamedMapped(kept, names, a);
    KeptMapped(h.edges, names, a);
    KeptTwice(g.edges, dead, {names[a]});
  }

  /** Removing one more node of h removes exactly the node of g that it stands for. */
  lemma {:induction false} RemoveOneMore<N(!new), E(!new)>(h: Graph<N, E>, g: Graph<N, E>, names: seq<nat>, dead: set<nat>,
                                                           a: nat)
    requires Without(h, g, names, dead) && a < |h.nodes|
    ensures Without(RemoveNode(h, a), g, SwapRemove(names, a), dead + {names[a]})
  {
    RemoveNodeValid(h, a);
    RemoveNodeEdges(h, g, names, dead, a);
    SwapRemoveNames(names, a);
    hide Mapped, Kept, Renamed, Valid;
    var small := SwapRemove(names, a);
    forall i | 0 <= i < |small|
      ensures small[i] < |g.nodes| && small[i] !in dead + {names[a]} && RemoveNode(h, a).nodes[i] == g.nodes[small[i]]
    {
      assert small[i] in small;
    }
  }
}
