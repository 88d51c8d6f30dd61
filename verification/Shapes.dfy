// What a replacement keeps of the shape of a graph: the in-degree and the out-degree of every
// node outside the path, so that sources stay sources and sinks stay sinks.
module Shapes {
  import opened Digraphs
  import opened Dataflow
  import opened PathReplacement

  // ---------- in-degrees ----------

  /** Nodes outside the run keep their in-degree. */
  lemma {:induction false} InDegreeOutside<N(!new), E(!new)>(g: Graph<N, E>, h: Graph<N, E>, names: seq<nat>, run: seq<nat>,
                                                            vs: seq<N>, fs: seq<E>, i: nat)
    requires Replaced(h, g, names, run, vs, fs) && i < |names| && names[i] < |g.nodes|
    ensures |InEdges(h.edges, i)| == |InEdges(g.edges, names[i])|
  {
    var ext, one := Extended(g, run, vs, fs), (x: nat) => true;
    assert names[i] !in run;
    FeedsMapped(h.edges, names, i, one, one);
    OutsideFeeds(g, run, vs, fs, names[i], one, one);
    FeedsCount(h.edges, i, one);
    FeedsCount(g.edges, names[i], one);
  }

  /** Nodes of the new path have one input each. */
  lemma {:induction false} InDegreeInside<N(!new), E(!new)>(g: Graph<N, E>, h: Graph<N, E>, names: seq<nat>, run: seq<nat>,
                                                           vs: seq<N>, fs: seq<E>, i: nat)
    requires Replaced(h, g, names, run, vs, fs) && i < |names| && names[i] >= |g.nodes|
    ensures |InEdges(h.edges, i)| == 1
  {
    var ext, one := Extended(g, run, vs, fs), (x: nat) => true;
    FeedsMapped(h.edges, names, i, one, one);
    assert |g.nodes| <= names[i] < |g.nodes| + |vs|;
    hide *;
    ReplacedFacts(h, g, names, run, vs, fs);
    NewPathFeeds(g, run, vs, fs, names[i], one);
    FeedsCount(h.edges, i, one);
  }

  // ---------- out-degrees ----------

  lemma {:induction false} OutMapped<E(!new)>(es: seq<Edge<E>>, names: seq<nat>, i: nat)
    requires Injective(names) && i < |names|
    requires forall k :: 0 <= k < |es| ==> es[k].src < |names| && es[k].tgt < |names|
    ensures |OutEdges(es, i)| == |OutEdges(Mapped(es, names), names[i])|
    decreases |es|
  {
    if es != [] {
      var front, last := es[..|es| - 1], es[|es| - 1];
      OutMapped(front, names, i);
      assert es == front + [last];
      assert es[|es| - 1].src < |names| && es[|es| - 1].tgt < |names|;
      MappedAppend(front, last, names);
      OutAppend(Mapped(front, names), Edge(names[last.src], names[last.tgt], last.weight), names[i]);
      assert names[last.src] == names[i] <==> last.src == i;
    }
  }

  lemma {:induction false} OutAppend<E(!new)>(es: seq<Edge<E>>, e: Edge<E>, i: nat)
    ensures OutEdges(es + [e], i) == OutEdges(es, i) + (if e.src == i then [e] else [])
  {
    assert (es + [e])[..|es|] == es;
  }

  /** What a live node loses with the edges into dead nodes, if it reaches only r of them. */
  lemma {:induction false} OutKept<E(!new)>(es: seq<Edge<E>>, dead: set<nat>, i: nat, r: nat)
    requires i !in dead && r in dead
    requires forall k :: 0 <= k < |es| && es[k].src == i && es[k].tgt in dead ==> es[k].tgt == r
    ensures |OutEdges(es, i)| == |OutEdges(Kept(es, dead), i)| + |OutEdges(InEdges(es, r), i)|
    decreases |es|
  {
    if es != [] {
      var front, last := es[..|es| - 1], es[|es| - 1];
      OutKept(front, dead, i, r);
      assert last.src == i && last.tgt in dead ==> es[|es| - 1].tgt == r;
      if last.src in dead || last.tgt in dead {
        assert Kept(es, dead) == Kept(front, dead);
      } else {
        OutAppend(Kept(front, dead), last, i);
      }
      if last.tgt == r {
        OutAppend(InEdges(front, r), last, i);
      } else {
        assert InEdges(es, r) == InEdges(front, r);
      }
    }
  }

  lemma {:induction false} OutOfNone<E(!new)>(es: seq<Edge<E>>, i: nat)
    requires forall k :: 0 <= k < |es| ==> es[k].src != i
    ensures OutEdges(es, i) == []
    decreases |es|
  {
    if es != [] {
      OutOfNone(es[..|es| - 1], i);
    }
  }

  lemma {:induction false} OutOfOne<E(!new)>(es: seq<Edge<E>>, m: nat, i: nat)
    requires m < |es| && forall k :: 0 <= k < |es| ==> (es[k].src == i <==> k == m)
    ensures |OutEdges(es, i)| == 1
  {
    OutOfNone(es[..m], i);
    OutOfNone(es[m + 1..], i);
    OutAppend(es[..m], es[m], i);
    OutEdgesConcat(es[..m] + [es[m]], es[m + 1..], i);
    assert es == es[..m] + [es[m]] + es[m + 1..];
  }

  /** An edge into the run from outside it is the entry. */
  lemma {:induction false} EntersAtEntry<N(!new), E(!new)>(g: Graph<N, E>, run: seq<nat>, e: Edge<E>)
    requires Valid(g) && SinglePath(g, run) && e in g.edges && e.src !in run && e.tgt in run
    ensures e.tgt == run[0]
  {
    var j :| 0 <= j < |run| && run[j] == e.tgt;
    if j > 0 {
      assert run[j - 1] in run;
      InEdgesAre(g.edges, run[j]);
      assert e in InEdges(g.edges, run[j]);
      Only(InEdges(g.edges, run[j]), e);
      assert false;
    }
  }

  lemma {:induction false} OutOfNewPath<E(!new)>(n: nat, u: nat, d: nat, fs: seq<E>, w: E, x: nat)
    requires |fs| > 0 && u < n
    ensures |OutEdges(NewEdges(n, u, d, fs, w), x)| == if x == u || n <= x < n + |fs| then 1 else 0
  {
    var es := NewEdges(n, u, d, fs, w);
    if x == u {
      OutOfOne(es, 0, x);
    } else if n <= x < n + |fs| {
      OutOfOne(es, x - n + 1, x);
    } else {
      OutOfNone(es, x);
    }
  }

  /** Nodes outside the run keep their out-degree, and nodes of the new path have one output. */
  lemma {:induction false} OutDegrees<N(!new), E(!new)>(g: Graph<N, E>, h: Graph<N, E>, names: seq<nat>, run: seq<nat>,
                                                       vs: seq<N>, fs: seq<E>, i: nat)
    requires Replaced(h, g, names, run, vs, fs) && i < |names|
    ensures |OutEdges(h.edges, i)| == if names[i] < |g.nodes| then |OutEdges(g.edges, names[i])| else 1
  {
    OutMapped(h.edges, names, i);
    ExtendedOut(g, run, vs, fs, names[i]);
  }

  lemma {:induction false} ExtendedOut<N(!new), E(!new)>(g: Graph<N, E>, run: seq<nat>, vs: seq<N>, fs: seq<E>, x: nat)
    requires Valid(g) && SinglePath(g, run) && |vs| == |fs| > 0 && x !in run && x < |g.nodes| + |vs|
    ensures |OutEdges(Kept(Extended(g, run, vs, fs).edges, RunSet(run)), x)|
         == if x < |g.nodes| then |OutEdges(g.edges, x)| else 1
  {
    var n, dead, entry, exit := |g.nodes|, RunSet(run), Entry(g, run), Exit(g, run);
    EntryAndExit(g, run);
    KeptConcat(g.edges, PathEdges(g, run, fs), dead);
    KeptNew(g, run, fs);
    OutEdgesConcat(Kept(g.edges, dead), PathEdges(g, run, fs), x);
    OutOfNewPath(n, entry.src, exit.tgt, fs, exit.weight, x);
    if x < n {
      forall k | 0 <= k < |g.edges| && g.edges[k].src == x && g.edges[k].tgt in dead
        ensures g.edges[k].tgt == run[0]
      {
        EntersAtEntry(g, run, g.edges[k]);
      }
      OutKept(g.edges, dead, x, run[0]);
      OutAppend([], entry, x);
      assert [entry] == [] + [entry];
    } else {
      KeptBelow(g, dead);
      OutOfNone(Kept(g.edges, dead), x);
    }
  }

  /** The two edges of the fused node. */
  lemma {:induction false} FusedEdges<N(!new), E(!new)>(g: Graph<N, E>, run: seq<nat>, n: N, e: Edge<E>)
    requires Valid(g) && SinglePath(g, run) && e in Extended(g, run, [n], [Entry(g, run).weight]).edges
    ensures || e in g.edges
            || e == Edge(Entry(g, run).src, |g.nodes|, Entry(g, run).weight)
            || e == Edge(|g.nodes|, Exit(g, run).tgt, Exit(g, run).weight)
  {
    var path := NewEdges(|g.nodes|, Entry(g, run).src, Exit(g, run).tgt, [Entry(g, run).weight], Exit(g, run).weight);
    assert e in g.edges || e in path;
  }
}
