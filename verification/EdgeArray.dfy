// petgraph's edges: adjacency lists, newest edge first, over an array of edges. Removing an
// edge moves the last edge of the array into its slot, so that indices taken before a removal
// may stand for other edges after it.
module EdgeArrays {
  import opened Digraphs
  import opened Dataflow
  import opened PathReplacement

  /** slots[k] is the index in the edge array of the k-th oldest edge; every index is that of one edge. */
  ghost predicate Slotted<E(!new)>(edges: seq<Edge<E>>, slots: seq<nat>) {
    && |slots| == |edges| && Injective(slots)
    && (forall k :: 0 <= k < |slots| ==> slots[k] < |edges|)
    && (forall i: nat :: i < |edges| ==> i in slots)
  }

  function Dropped<T>(s: seq<T>, k: nat): (r: seq<T>)
    requires k < |s|
    ensures |r| == |s| - 1 && forall j :: 0 <= j < |r| ==> r[j] == s[if j < k then j else j + 1]
  {
    s[..k] + s[k + 1..]
  }

  /** The slots after the removal of the k-th oldest edge: the last edge of the array has moved into its slot. */
  function Reslotted(slots: seq<nat>, k: nat): (r: seq<nat>)
    requires k < |slots|
    ensures |r| == |slots| - 1
    ensures forall j :: 0 <= j < |r| ==>
              r[j] == if Dropped(slots, k)[j] == |slots| - 1 then slots[k] else Dropped(slots, k)[j]
  {
    seq(|slots| - 1, j requires 0 <= j < |slots| - 1 =>
      if Dropped(slots, k)[j] == |slots| - 1 then slots[k] else Dropped(slots, k)[j])
  }

  lemma {:induction false} RemovalSlots<E(!new)>(edges: seq<Edge<E>>, slots: seq<nat>, k: nat)
    requires Slotted(edges, slots) && k < |edges|
    ensures Slotted(Dropped(edges, k), Reslotted(slots, k))
  {
    var n, r := |edges| - 1, Reslotted(slots, k);
    hide Reslotted;
    forall i: nat | i < n
      ensures i in r
    {
      assert i in slots && n in slots;
      var v := if i == slots[k] then n else i;
      var q :| 0 <= q < |slots| && slots[q] == v;
      assert q != k;
      assert r[if q < k then q else q - 1] == i;
    }
  }

  lemma {:induction false} AdditionSlots<E(!new)>(edges: seq<Edge<E>>, slots: seq<nat>, e: Edge<E>)
    requires Slotted(edges, slots)
    ensures Slotted(edges + [e], slots + [|edges|])
  {
    forall i: nat | i < |edges| + 1
      ensures i in slots + [|edges|]
    {
    }
  }

  // ---------- dropping an edge of a node ----------

  lemma {:induction false} DropEdge<E(!new)>(edges: seq<Edge<E>>, k: nat, dead: set<nat>)
    requires k < |edges| && (edges[k].src in dead || edges[k].tgt in dead)
    ensures Kept(Dropped(edges, k), dead) == Kept(edges, dead)
  {
    var front, back := edges[..k], edges[k + 1..];
    assert edges == front + [edges[k]] + back;
    assert Dropped(edges, k) == front + back;
    KeptConcat(front, back, dead);
    KeptConcat(front + [edges[k]], back, dead);
    KeptConcat(front, [edges[k]], dead);
    assert [edges[k]][..0] == [];
    assert Kept([edges[k]], dead) == [];
  }

  lemma {:induction false} DroppedValid<N(!new), E(!new)>(g: Graph<N, E>, k: nat)
    requires Valid(g) && k < |g.edges|
    ensures Valid(Graph(g.nodes, Dropped(g.edges, k)))
  {
  }

  // ---------- the slots of the edges of a node ----------

  /** The slots of the edges out of x, oldest first. */
  function OutSlots<E>(edges: seq<Edge<E>>, slots: seq<nat>, x: nat): seq<nat>
    requires |slots| == |edges|
    decreases |edges|
  {
    if edges == [] then []
    else
      var n := |edges| - 1;
      OutSlots(edges[..n], slots[..n], x) + if edges[n].src == x then [slots[n]] else []
  }

  function InSlots<E>(edges: seq<Edge<E>>, slots: seq<nat>, x: nat): seq<nat>
    requires |slots| == |edges|
    decreases |edges|
  {
    if edges == [] then []
    else
      var n := |edges| - 1;
      InSlots(edges[..n], slots[..n], x) + if edges[n].tgt == x then [slots[n]] else []
  }

  /** The j-th oldest edge out of x is somewhere among the edges, with its slot. */
  ghost predicate OutAt<E(!new)>(edges: seq<Edge<E>>, slots: seq<nat>, x: nat, j: nat, k: nat) {
    && |slots| == |edges| && k < |edges| && j < |OutEdges(edges, x)| == |OutSlots(edges, slots, x)|
    && edges[k] == OutEdges(edges, x)[j] && slots[k] == OutSlots(edges, slots, x)[j] && edges[k].src == x
    && j == |OutEdges(edges[..k], x)|
  }

  lemma {:induction false} OutSlotsAre<E(!new)>(edges: seq<Edge<E>>, slots: seq<nat>, x: nat)
    requires |slots| == |edges|
    ensures |OutSlots(edges, slots, x)| == |OutEdges(edges, x)|
    decreases |edges|
  {
    if edges != [] {
      var n := |edges| - 1;
      OutSlotsAre(edges[..n], slots[..n], x);
    }
  }

  lemma {:induction false} OutPosition<E(!new)>(edges: seq<Edge<E>>, slots: seq<nat>, x: nat, j: nat) returns (k: nat)
    requires |slots| == |edges| && j < |OutEdges(edges, x)|
    ensures OutAt(edges, slots, x, j, k)
    decreases |edges|
  {
    OutSlotsAre(edges, slots, x);
    var n := |edges| - 1;
    var front, low := edges[..n], slots[..n];
    OutSlotsAre(front, low, x);
    if j < |OutEdges(front, x)| {
      k := OutPosition(front, low, x, j);
      assert front[..k] == edges[..k];
    } else {
      k := n;
    }
  }

  /** Every edge out of x has its place among them. */
  lemma {:induction false} OutRank<E(!new)>(edges: seq<Edge<E>>, slots: seq<nat>, x: nat, k: nat)
    requires |slots| == |edges| && k < |edges| && edges[k].src == x
    ensures OutAt(edges, slots, x, |OutEdges(edges[..k], x)|, k)
    decreases |edges|
  {
    OutSlotsAre(edges, slots, x);
    var n := |edges| - 1;
    var front, low := edges[..n], slots[..n];
    OutSlotsAre(front, low, x);
    if k < n {
      OutRank(front, low, x, k);
      assert front[..k] == edges[..k];
    }
  }

  lemma {:induction false} OutOrder<E(!new)>(edges: seq<Edge<E>>, x: nat, q: nat, r: nat)
    requires q < r <= |edges| && edges[q].src == x
    ensures |OutEdges(edges[..q], x)| < |OutEdges(edges[..r], x)|
    decreases r
  {
    var front := edges[..r];
    assert front[..r - 1] == edges[..r - 1] && front[r - 1] == edges[r - 1];
    if q < r - 1 {
      OutOrder(edges, x, q, r - 1);
    }
  }

  lemma {:induction false} OutSlotsDiffer<E(!new)>(edges: seq<Edge<E>>, slots: seq<nat>, x: nat)
    requires |slots| == |edges| && Injective(slots)
    ensures Injective(OutSlots(edges, slots, x))
    decreases |edges|
  {
    if edges != [] {
      var n := |edges| - 1;
      var front, low := edges[..n], slots[..n];
      OutSlotsAre(front, low, x);
      OutSlotsDiffer(front, low, x);
      var outs := OutSlots(front, low, x);
      forall i | 0 <= i < |outs|
        ensures outs[i] != slots[n]
      {
        var k := OutPosition(front, low, x, i);
      }
    }
  }

  lemma {:induction false} InSlotsAre<E(!new)>(edges: seq<Edge<E>>, slots: seq<nat>, x: nat)
    requires |slots| == |edges|
    ensures |InSlots(edges, slots, x)| == |InEdges(edges, x)|
    ensures InEdges(edges, x) != [] ==> exists k: nat :: NewestIn(edges, slots, x, k)
    decreases |edges|
  {
    if edges != [] {
      var n := |edges| - 1;
      InSlotsAre(edges[..n], slots[..n], x);
      if edges[n].tgt == x {
        assert NewestIn(edges, slots, x, n);
      } else if InEdges(edges, x) != [] {
        var k: nat :| NewestIn(edges[..n], slots[..n], x, k);
        assert NewestIn(edges, slots, x, k);
      }
    }
  }

  /** Edge k is the newest into x. */
  ghost predicate NewestIn<E(!new)>(edges: seq<Edge<E>>, slots: seq<nat>, x: nat, k: nat) {
    && |slots| == |edges| && k < |edges| && |InEdges(edges, x)| == |InSlots(edges, slots, x)| > 0
    && edges[k] == InEdges(edges, x)[|InEdges(edges, x)| - 1] && edges[k].tgt == x
    && slots[k] == InSlots(edges, slots, x)[|InEdges(edges, x)| - 1]
  }

  // ---------- the graph ----------

  class EdgeGraph<N(!new), E(!new)> {
    var nodes: seq<N>
    var edges: seq<Edge<E>>
    var slots: seq<nat>

    function View(): Graph<N, E>
      reads this
    {
      Graph(nodes, edges)
    }

    ghost predicate Good()
      reads this
    {
      Valid(View()) && Slotted(edges, slots)
    }

    constructor (g: Graph<N, E>, at: seq<nat>)
      requires Valid(g) && Slotted(g.edges, at)
      ensures Good() && View() == g && slots == at
    {
      nodes, edges, slots := g.nodes, g.edges, at;
    }

    method AddEdge(src: nat, tgt: nat, weight: E)
      requires Good() && src < |nodes| && tgt < |nodes|
      modifies this
      ensures Good() && nodes == old(nodes)
      ensures edges == old(edges) + [Edge(src, tgt, weight)] && slots == old(slots) + [|old(edges)|]
    {
      AdditionSlots(edges, slots, Edge(src, tgt, weight));
      slots := slots + [|edges|];
      edges := edges + [Edge(src, tgt, weight)];
    }

    /** Removes the edge in the slot and returns its weight. */
    method RemoveEdge(slot: nat, ghost k: nat) returns (weight: E)
      requires Good() && k < |edges| && slots[k] == slot
      modifies this
      ensures Good() && nodes == old(nodes) && weight == old(edges)[k].weight && |slots| == |edges|
      ensures edges == Dropped(old(edges), k) && slots == Reslotted(old(slots), k)
    {
      RemovalSlots(edges, slots, k);
      DroppedValid(View(), k);
      assert slots[k] in slots;
      IndexIs(slots, k);
      var at := IndexOf(slots, slot);
      weight := edges[at].weight;
      edges, slots := Dropped(edges, at), Reslotted(slots, at);
    }

    method RemoveOutgoing(a: nat)
      requires Good()
      modifies this
      ensures Good() && nodes == old(nodes) && Kept(edges, {a}) == Kept(old(edges), {a}) && NoSource(edges, a)
    {
      ghost var es := edges;
      SlotsMatch(edges, slots);
      hide *;
      var out := OutSlots(edges, slots, a);
      while out != []
        invariant Good() && nodes == old(nodes) && Kept(edges, {a}) == Kept(es, {a})
        invariant |slots| == |edges| && out == OutSlots(edges, slots, a)
        decreases |edges|
      {
        ghost var k := OutAny(edges, slots, a);
        DropEdge(edges, k, {a});
        var weight := RemoveEdge(out[|out| - 1], k);
        out := OutSlots(edges, slots, a);
      }
      NoneOut(edges, slots, a);
    }

    method RemoveIncoming(a: nat)
      requires Good() && NoSource(edges, a)
      modifies this
      ensures Good() && nodes == old(nodes) && Kept(edges, {a}) == Kept(old(edges), {a})
      ensures NoSource(edges, a) && NoTarget(edges, a)
    {
      ghost var es := edges;
      SlotsMatch(edges, slots);
      hide *;
      var ins := InSlots(edges, slots, a);
      while ins != []
        invariant Good() && nodes == old(nodes) && Kept(edges, {a}) == Kept(es, {a})
        invariant |slots| == |edges| && ins == InSlots(edges, slots, a) && NoSource(edges, a)
        decreases |edges|
      {
        ghost var k := InAny(edges, slots, a);
        DropEdge(edges, k, {a});
        StillNoSource(edges, k, a);
        var weight := RemoveEdge(ins[|ins| - 1], k);
        ins := InSlots(edges, slots, a);
      }
      NoneIn(edges, slots, a);
    }

    /** Removes the edges of the node one by one, newest first, and then the node. */
    method RemoveNode(a: nat)
      requires Good() && a < |nodes|
      modifies this
      ensures Good() && View() == Digraphs.RemoveNode(old(View()), a)
    {
      ghost var g := View();
      hide Slotted, Valid, Kept;
      RemoveOutgoing(a);
      RemoveIncoming(a);
      KeptUntouched(edges, {a});
      RemoveNodeValid(g, a);
      ghost var h, left := Digraphs.RemoveNode(g, a), edges;
      nodes, edges := SwapRemove(nodes, a), Digraphs.Renamed(edges, |nodes| - 1, a);
      assert View() == h;
      SlotsCount(h.edges, left, slots);
    }
  }

  ghost predicate NoSource<E(!new)>(edges: seq<Edge<E>>, x: nat) {
    forall j :: 0 <= j < |edges| ==> edges[j].src != x
  }

  ghost predicate NoTarget<E(!new)>(edges: seq<Edge<E>>, x: nat) {
    forall j :: 0 <= j < |edges| ==> edges[j].tgt != x
  }

  lemma {:induction false} StillNoSource<E(!new)>(edges: seq<Edge<E>>, k: nat, x: nat)
    requires NoSource(edges, x) && k < |edges|
    ensures NoSource(Dropped(edges, k), x)
  {
  }

  lemma {:induction false} SlotsMatch<E(!new)>(edges: seq<Edge<E>>, slots: seq<nat>)
    requires Slotted(edges, slots)
    ensures |slots| == |edges|
  {
  }

  lemma {:induction false} GoodIs<N(!new), E(!new)>(graph: EdgeGraph<N, E>)
    requires graph.Good()
    ensures Valid(graph.View()) && Slotted(graph.edges, graph.slots) && |graph.slots| == |graph.edges|
  {
  }

  lemma {:induction false} ViewIs<N(!new), E(!new)>(graph: EdgeGraph<N, E>)
    ensures graph.View() == Graph(graph.nodes, graph.edges)
  {
  }

  lemma {:induction false} SlotsCount<E(!new)>(es: seq<Edge<E>>, fs: seq<Edge<E>>, slots: seq<nat>)
    requires |es| == |fs| && Slotted(fs, slots)
    ensures Slotted(es, slots)
  {
  }

  lemma {:induction false} OutAny<E(!new)>(edges: seq<Edge<E>>, slots: seq<nat>, x: nat) returns (k: nat)
    requires |slots| == |edges| && OutSlots(edges, slots, x) != []
    ensures k < |edges| && edges[k].src == x && slots[k] == OutSlots(edges, slots, x)[|OutSlots(edges, slots, x)| - 1]
  {
    OutSlotsAre(edges, slots, x);
    var j := |OutSlots(edges, slots, x)| - 1;
    k := OutPosition(edges, slots, x, j);
  }

  lemma {:induction false} InAny<E(!new)>(edges: seq<Edge<E>>, slots: seq<nat>, x: nat) returns (k: nat)
    requires |slots| == |edges| && InSlots(edges, slots, x) != []
    ensures k < |edges| && edges[k].tgt == x && slots[k] == InSlots(edges, slots, x)[|InSlots(edges, slots, x)| - 1]
  {
    InSlotsAre(edges, slots, x);
    k :| NewestIn(edges, slots, x, k);
  }

  lemma {:induction false} NoneOut<E(!new)>(edges: seq<Edge<E>>, slots: seq<nat>, x: nat)
    requires |slots| == |edges| && OutSlots(edges, slots, x) == []
    ensures NoSource(edges, x)
  {
    OutSlotsAre(edges, slots, x);
    OutEdgesAre(edges, x);
    forall j | 0 <= j < |edges|
      ensures edges[j].src != x
    {
      var e := edges[j];
      assert e in edges;
    }
  }

  lemma {:induction false} NoneIn<E(!new)>(edges: seq<Edge<E>>, slots: seq<nat>, x: nat)
    requires |slots| == |edges| && InSlots(edges, slots, x) == []
    ensures NoTarget(edges, x)
  {
    InSlotsAre(edges, slots, x);
    InEdgesAre(edges, x);
    forall j | 0 <= j < |edges|
      ensures edges[j].tgt != x
    {
      var e := edges[j];
      assert e in edges;
    }
  }
}
