// Rules that look at one node at a time: the runs that the walk collects are then exactly the
// maximal paths of fitting nodes, so that what is fused, and whether it panics, is a property
// of the graph and not of the order of visits.
module MaximalRuns {
  import opened Digraphs
  import opened Dataflow
  import opened Search
  import opened GraphOptimizer

  /** Whether a node can be part of a run does not depend on the nodes before it. */
  ghost predicate Local<N(!new), E(!new)>(rules: Rules<N, E>) {
    forall n, chain :: rules.can(n, chain) == rules.can(n, [])
  }

  /** x can be part of a run: the rules take it, and it has no input but one forward edge. */
  ghost predicate Fits<N(!new), E(!new)>(g: Graph<N, E>, rules: Rules<N, E>, x: nat) {
    Joins(g, rules, x, [])
  }

  lemma {:induction false} JoinsIffFits<N(!new), E(!new)>(g: Graph<N, E>, rules: Rules<N, E>, x: nat, chain: seq<N>)
    requires Local(rules)
    ensures Joins(g, rules, x, chain) <==> Fits(g, rules, x)
  {
    if x < |g.nodes| {
      assert rules.can(g.nodes[x], chain) == rules.can(g.nodes[x], []);
    }
  }

  // ---------- the order of visits ----------

  /** Visit q is to a source, or to the successor of the node visited before. */
  ghost predicate StepAt<N(!new), E(!new)>(g: Graph<N, E>, visits: seq<nat>, q: nat)
    requires q < |visits|
  {
    visits[q] < |g.nodes| && (InEdges(g.edges, visits[q]) == [] || (q > 0 && Follows(g, visits[q - 1], visits[q])))
  }

  /** The successor of the node of visit q is visited next, or was visited and has several inputs. */
  ghost predicate EndAt<N(!new), E(!new)>(g: Graph<N, E>, visits: seq<nat>, q: nat)
    requires q < |visits|
  {
    forall e :: e in g.edges && e.src == visits[q] ==>
      (q + 1 < |visits| && visits[q + 1] == e.tgt) || (e.tgt in visits && |InEdges(g.edges, e.tgt)| > 1)
  }

  ghost predicate Covers<N(!new), E(!new)>(g: Graph<N, E>, visits: seq<nat>) {
    forall q: nat :: q < |visits| ==> StepAt(g, visits, q) && EndAt(g, visits, q)
  }

  lemma {:induction false} SeveralInputs<N(!new), E(!new)>(g: Graph<N, E>, e: Edge<E>, f: Edge<E>)
    requires e in g.edges && f in g.edges && e.tgt == f.tgt && e.src != f.src
    ensures |InEdges(g.edges, e.tgt)| > 1
  {
    var ins := InEdges(g.edges, e.tgt);
    InEdgesAre(g.edges, e.tgt);
    assert e in ins && f in ins;
    if |ins| == 1 {
      Only(ins, e);
      Only(ins, f);
    }
  }

  /** The only edge out of a node. */
  lemma {:induction false} OnlyOut<N(!new), E(!new)>(g: Graph<N, E>, e: Edge<E>)
    requires OneOut(g) && e in g.edges && e.src < |g.nodes|
    ensures OutEdges(g.edges, e.src) == [e] && Follows(g, e.src, e.tgt)
  {
    var outs := OutEdges(g.edges, e.src);
    OutEdgesAre(g.edges, e.src);
    assert e in outs;
    assert |outs| <= 1;
    Only(outs, e);
  }

  lemma {:induction false} FollowsBy<N(!new), E(!new)>(g: Graph<N, E>, a: nat, b: nat) returns (e: Edge<E>)
    requires Follows(g, a, b)
    ensures e in g.edges && e.src == a && e.tgt == b && OutEdges(g.edges, a) == [e]
  {
    e := OutEdges(g.edges, a)[0];
    OutEdgesAre(g.edges, a);
    assert e in OutEdges(g.edges, a);
  }

  /** The end of a walk: its successor was visited before, from elsewhere. */
  lemma {:induction false} LastOfWalk<N(!new), E(!new)>(g: Graph<N, E>, source: nat, walk: seq<nat>, e: Edge<E>)
    requires Valid(g) && OneOut(g) && Trail(g, walk) && walk != [] && walk[0] == source && Next(g, source, walk) == []
    requires InEdges(g.edges, source) == [] && e in g.edges && e.src == walk[|walk| - 1]
    ensures e.tgt in walk && |InEdges(g.edges, e.tgt)| > 1
  {
    OnlyOut(g, e);
    var m :| 0 <= m < |walk| && walk[m] == e.tgt;
    InEdgesAre(g.edges, e.tgt);
    assert e in InEdges(g.edges, e.tgt);
    assert m > 0;
    var f := FollowsBy(g, walk[m - 1], walk[m]);
    SeveralInputs(g, e, f);
  }

  lemma {:induction false} WalkCovers<N(!new), E(!new)>(g: Graph<N, E>, source: nat)
    requires Valid(g) && OneOut(g) && source < |g.nodes| && InEdges(g.edges, source) == []
    ensures Covers(g, WalkFrom(g, source, []))
  {
    var walk := WalkFrom(g, source, []);
    hide WalkFrom, InEdges, OutEdges, Next;
    forall q: nat | q < |walk|
      ensures StepAt(g, walk, q) && EndAt(g, walk, q)
    {
      assert q > 0 ==> Follows(g, walk[q - 1], walk[q]);
      forall e | e in g.edges && e.src == walk[q]
        ensures (q + 1 < |walk| && walk[q + 1] == e.tgt) || (e.tgt in walk && |InEdges(g.edges, e.tgt)| > 1)
      {
        if q + 1 < |walk| {
          var k := q + 1;
          assert Follows(g, walk[k - 1], walk[k]);
          OnlyOut(g, e);
        } else {
          LastOfWalk(g, source, walk, e);
        }
      }
    }
  }

  lemma {:induction false} CoversConcat<N(!new), E(!new)>(g: Graph<N, E>, a: seq<nat>, b: seq<nat>)
    requires Covers(g, a) && Covers(g, b)
    ensures Covers(g, a + b)
  {
    hide InEdges, OutEdges, Follows;
    var c := a + b;
    forall q: nat | q < |c|
      ensures StepAt(g, c, q) && EndAt(g, c, q)
    {
      if q < |a| {
        assert StepAt(g, a, q) && EndAt(g, a, q);
      } else {
        var r := q - |a|;
        assert StepAt(g, b, r) && EndAt(g, b, r);
      }
    }
  }

  lemma {:induction false} VisitsCover<N(!new), E(!new)>(g: Graph<N, E>, sources: seq<nat>)
    requires Valid(g) && OneOut(g) && InGraph(g, sources)
    requires forall i: nat :: i in sources ==> InEdges(g.edges, i) == []
    ensures Covers(g, VisitsFrom(g, sources))
    ensures forall i: nat :: i in sources ==> i in VisitsFrom(g, sources)
    decreases |sources|
  {
    if sources != [] {
      var front, last := sources[..|sources| - 1], sources[|sources| - 1];
      assert sources == front + [last] && last in sources;
      VisitsCover(g, front);
      WalkCovers(g, last);
      CoversConcat(g, VisitsFrom(g, front), WalkFrom(g, last, []));
      assert WalkFrom(g, last, [])[0] == last;
    }
  }

  /** The visits of a whole collection. */
  ghost function Visits<N(!new), E(!new)>(g: Graph<N, E>): (v: seq<nat>)
    requires Valid(g) && OneOut(g)
  {
    SourcesInGraph(g);
    VisitsFrom(g, Externals(g, |g.nodes|))
  }

  /** They are to exactly the nodes that some source leads to. */
  lemma {:induction false} VisitsReach<N(!new), E(!new)>(g: Graph<N, E>)
    requires Valid(g) && OneOut(g)
    ensures Covers(g, Visits(g)) && forall v: nat :: v in Visits(g) <==> Reachable(g, v)
  {
    SourcesInGraph(g);
    ExternalsAre(g, |g.nodes|);
    VisitsCover(g, Externals(g, |g.nodes|));
    var visits := Visits(g);
    hide Visits, VisitsFrom, Externals, InEdges, OutEdges, Valid, OneOut;
    assert Closed(g, RunSet(visits)) by {
      forall e | e in g.edges && e.src in visits
        ensures e.tgt in visits
      {
        var q: nat :| q < |visits| && visits[q] == e.src;
        assert EndAt(g, visits, q);
      }
    }
    assert HasSources(g, RunSet(visits));
    forall v: nat | v in visits
      ensures Reachable(g, v)
    {
      var q: nat :| q < |visits| && visits[q] == v;
      VisitReached(g, visits, q);
    }
  }

  lemma {:induction false} VisitReached<N(!new), E(!new)>(g: Graph<N, E>, visits: seq<nat>, q: nat)
    requires Covers(g, visits) && q < |visits|
    ensures Reachable(g, visits[q])
    decreases q
  {
    assert StepAt(g, visits, q);
    if InEdges(g.edges, visits[q]) != [] {
      VisitReached(g, visits, q - 1);
      var e := FollowsBy(g, visits[q - 1], visits[q]);
    }
  }

  // ---------- runs as segments of the visits ----------

  /** run is visits i to j, all of them to fitting nodes, and the visit before to another. */
  ghost predicate Segment<N(!new), E(!new)>(g: Graph<N, E>, rules: Rules<N, E>, visits: seq<nat>, run: seq<nat>, i: nat,
                                            j: nat) {
    && i <= j <= |visits| && run == visits[i..j]
    && (forall q :: i <= q < j ==> Fits(g, rules, visits[q]))
    && (i > 0 ==> !Fits(g, rules, visits[i - 1]))
  }

  /** The run is over, as the visit after it is to a node that does not fit. */
  ghost predicate Ended<N(!new), E(!new)>(g: Graph<N, E>, rules: Rules<N, E>, visits: seq<nat>, run: seq<nat>) {
    exists i: nat, j: nat :: Segment(g, rules, visits, run, i, j) && j < |visits| && !Fits(g, rules, visits[j])
  }

  /** The run goes up to the last visit. */
  ghost predicate Open<N(!new), E(!new)>(g: Graph<N, E>, rules: Rules<N, E>, visits: seq<nat>, run: seq<nat>) {
    exists i: nat :: Segment(g, rules, visits, run, i, |visits|)
  }

  lemma {:induction false} SegmentLater<N(!new), E(!new)>(g: Graph<N, E>, rules: Rules<N, E>, visits: seq<nat>, x: nat,
                                                          run: seq<nat>, i: nat, j: nat)
    requires Segment(g, rules, visits, run, i, j)
    ensures Segment(g, rules, visits + [x], run, i, j)
  {
    hide Fits;
    assert (visits + [x])[i..j] == visits[i..j];
  }

  lemma {:induction false} EndedLater<N(!new), E(!new)>(g: Graph<N, E>, rules: Rules<N, E>, visits: seq<nat>, x: nat,
                                                        run: seq<nat>)
    requires Ended(g, rules, visits, run)
    ensures Ended(g, rules, visits + [x], run)
  {
    var i: nat, j: nat :| Segment(g, rules, visits, run, i, j) && j < |visits| && !Fits(g, rules, visits[j]);
    SegmentLater(g, rules, visits, x, run, i, j);
    assert (visits + [x])[j] == visits[j];
  }

  lemma {:induction false} OpenLater<N(!new), E(!new)>(g: Graph<N, E>, rules: Rules<N, E>, visits: seq<nat>, x: nat,
                                                       run: seq<nat>)
    requires Open(g, rules, visits, run)
    ensures Fits(g, rules, x) ==> Open(g, rules, visits + [x], run + [x])
    ensures !Fits(g, rules, x) ==> Ended(g, rules, visits + [x], run) && Open(g, rules, visits + [x], [])
  {
    hide Fits;
    var i: nat :| Segment(g, rules, visits, run, i, |visits|);
    var all := visits + [x];
    if Fits(g, rules, x) {
      assert all[i..|all|] == visits[i..|visits|] + [x];
      assert Segment(g, rules, all, run + [x], i, |all|);
    } else {
      SegmentLater(g, rules, visits, x, run, i, |visits|);
      assert Segment(g, rules, all, [], |all|, |all|);
    }
  }

  /** All runs but the last are over. */
  lemma {:induction false} RunsAreSegments<N(!new), E(!new)>(g: Graph<N, E>, rules: Rules<N, E>, visits: seq<nat>)
    requires Local(rules)
    ensures var runs := RunsAlong(g, rules, visits);
            && Open(g, rules, visits, runs[|runs| - 1])
            && forall k :: 0 <= k < |runs| - 1 ==> Ended(g, rules, visits, runs[k])
    decreases |visits|
  {
    var runs := RunsAlong(g, rules, visits);
    if visits == [] {
      assert Segment(g, rules, visits, [], 0, 0);
    } else {
      var front, x := visits[..|visits| - 1], visits[|visits| - 1];
      var before := RunsAlong(g, rules, front);
      var last := before[|before| - 1];
      assert visits == front + [x];
      OneMoreVisit(g, rules, front, x);
      JoinsIffFits(g, rules, x, ChainOf(g, last));
      RunsAreSegments(g, rules, front);
      hide RunsAlong, Fits, Joins, ChainOf, Open, Ended;
      OpenLater(g, rules, front, x, last);
      forall k | 0 <= k < |runs| - 1
        ensures Ended(g, rules, visits, runs[k])
      {
        if k < |before| - 1 {
          EndedLater(g, rules, front, x, before[k]);
        }
      }
    }
  }

  /** Every segment of fitting nodes, up to the last visit, is the end of the last run. */
  lemma {:induction false} SegmentIsCollected<N(!new), E(!new)>(g: Graph<N, E>, rules: Rules<N, E>, visits: seq<nat>,
                                                                p: nat,
                                                               x: nat)
    requires Local(rules) && Fits(g, rules, p) && Fits(g, rules, x)
    ensures var runs := RunsAlong(g, rules, visits + [p, x]);
            Adjacent(runs[|runs| - 1], p, x)
  {
    var one, two := RunsAlong(g, rules, visits), RunsAlong(g, rules, visits + [p]);
    assert visits + [p, x] == visits + [p] + [x];
    OneMoreVisit(g, rules, visits, p);
    OneMoreVisit(g, rules, visits + [p], x);
    JoinsIffFits(g, rules, p, ChainOf(g, one[|one| - 1]));
    JoinsIffFits(g, rules, x, ChainOf(g, two[|two| - 1]));
    hide RunsAlong, Fits, Joins, ChainOf;
    var run := one[|one| - 1] + [p] + [x];
    assert run[|run| - 2] == p && run[|run| - 1] == x;
  }

  ghost predicate Adjacent(run: seq<nat>, p: nat, x: nat) {
    exists k: nat :: k + 1 < |run| && run[k] == p && run[k + 1] == x
  }

  /** Later visits only lengthen runs. */
  lemma {:induction false} AdjacentLater<N(!new), E(!new)>(g: Graph<N, E>, rules: Rules<N, E>, visits: seq<nat>,
                                                          more: seq<nat>, p: nat, x: nat, m: nat)
    requires m < |RunsAlong(g, rules, visits)| && Adjacent(RunsAlong(g, rules, visits)[m], p, x)
    ensures m < |RunsAlong(g, rules, visits + more)| && Adjacent(RunsAlong(g, rules, visits + more)[m], p, x)
    decreases |more|
  {
    if more == [] {
      assert visits + more == visits;
    } else {
      var y, rest := more[0], more[1..];
      assert visits + more == visits + [y] + rest;
      OneMoreVisit(g, rules, visits, y);
      var runs := RunsAlong(g, rules, visits);
      var k: nat :| k + 1 < |runs[m]| && runs[m][k] == p && runs[m][k + 1] == x;
      var later := RunsAlong(g, rules, visits + [y])[m];
      assert later[k] == p && later[k + 1] == x;
      AdjacentLater(g, rules, visits + [y], rest, p, x, m);
    }
  }

  // ---------- maximal runs ----------

  /** x has one input, and it is from p. */
  ghost predicate EnteredFrom<N(!new), E(!new)>(g: Graph<N, E>, p: nat, x: nat) {
    |InEdges(g.edges, x)| == 1 && InEdges(g.edges, x)[0].src == p
  }

  /** Two fitting nodes in a row. */
  ghost predicate FittingPair<N(!new), E(!new)>(g: Graph<N, E>, rules: Rules<N, E>, p: nat, x: nat) {
    Fits(g, rules, p) && Fits(g, rules, x) && EnteredFrom(g, p, x)
  }

  lemma {:induction false} EnteredBy<N(!new), E(!new)>(g: Graph<N, E>, p: nat, x: nat) returns (e: Edge<E>)
    requires EnteredFrom(g, p, x)
    ensures e in g.edges && e.src == p && e.tgt == x && InEdges(g.edges, x) == [e]
  {
    e := InEdges(g.edges, x)[0];
    InEdgesAre(g.edges, x);
    assert e in InEdges(g.edges, x);
  }

  /** A fitting node that is visited is visited right after the node before it. */
  lemma {:induction false} VisitedAfter<N(!new), E(!new)>(g: Graph<N, E>, rules: Rules<N, E>, visits: seq<nat>, q: nat)
    requires Shape(g, rules.can) && Covers(g, visits) && q < |visits| && Fits(g, rules, visits[q])
    ensures q > 0 && EnteredFrom(g, visits[q - 1], visits[q])
  {
    assert StepAt(g, visits, q);
    var x := visits[q];
    assert InEdges(g.edges, x) != [];
    var e := FollowsBy(g, visits[q - 1], x);
    InEdgesAre(g.edges, x);
    assert e in InEdges(g.edges, x);
    Only(InEdges(g.edges, x), e);
  }

  /** Two fitting nodes in a row, the second reachable, are in one run. */
  lemma {:induction false} PairIsCollected<N(!new), E(!new)>(g: Graph<N, E>, rules: Rules<N, E>, p: nat,
                                                             x: nat) returns (m: nat)
    requires Shape(g, rules.can) && Local(rules) && FittingPair(g, rules, p, x) && Reachable(g, x)
    ensures m < |Runs(g, rules)| && Adjacent(Runs(g, rules)[m], p, x)
  {
    var visits := Visits(g);
    VisitsReach(g);
    assert x in visits;
    var q: nat :| q < |visits| && visits[q] == x;
    VisitedAfter(g, rules, visits, q);
    var front := visits[..q - 1];
    assert visits == front + [p, x] + visits[q + 1..];
    assert Runs(g, rules) == RunsAlong(g, rules, visits);
    hide Runs, Visits, Reachable, Covers, Shape, Fits, RunsAlong, Adjacent;
    SegmentIsCollected(g, rules, front, p, x);
    m := |RunsAlong(g, rules, front + [p, x])| - 1;
    AdjacentLater(g, rules, front + [p, x], visits[q + 1..], p, x, m);
  }

  /** Fitting nodes only, between nodes that do not fit. */
  ghost predicate Maximal<N(!new), E(!new)>(g: Graph<N, E>, rules: Rules<N, E>, run: seq<nat>) {
    && run != [] && (forall k :: 0 <= k < |run| ==> Fits(g, rules, run[k]) && Reachable(g, run[k]))
    && (forall p: nat :: EnteredFrom(g, p, run[0]) ==> !Fits(g, rules, p))
    && (forall e :: e in g.edges && e.src == run[|run| - 1] ==> !Fits(g, rules, e.tgt))
  }

  /** The nodes around a segment do not fit. */
  lemma {:induction false} SegmentIsMaximal<N(!new), E(!new)>(g: Graph<N, E>, rules: Rules<N, E>, visits: seq<nat>,
                                                             run: seq<nat>, i: nat, j: nat)
    requires Shape(g, rules.can) && Covers(g, visits) && forall v: nat :: v in visits ==> Reachable(g, v)
    requires Segment(g, rules, visits, run, i, j) && run != [] && (j < |visits| ==> !Fits(g, rules, visits[j]))
    ensures Maximal(g, rules, run)
  {
    hide Reachable, Shape, InEdges, Fits;
    assert run[0] == visits[i] && run[|run| - 1] == visits[j - 1];
    assert forall k :: 0 <= k < |run| ==> run[k] == visits[i + k];
    VisitedAfter(g, rules, visits, i);
    forall e | e in g.edges && e.src == run[|run| - 1]
      ensures !Fits(g, rules, e.tgt)
    {
      var q := j - 1;
      assert EndAt(g, visits, q);
      SeveralDoNotFit(g, rules, e.tgt);
    }
  }

  lemma {:induction false} SeveralDoNotFit<N(!new), E(!new)>(g: Graph<N, E>, rules: Rules<N, E>, x: nat)
    ensures |InEdges(g.edges, x)| > 1 ==> !Fits(g, rules, x)
  {
  }

  /** Every run that is collected is maximal. */
  lemma {:induction false} RunIsMaximal<N(!new), E(!new)>(g: Graph<N, E>, rules: Rules<N, E>, k: nat)
    requires Shape(g, rules.can) && Local(rules) && k < |Runs(g, rules)| && Runs(g, rules)[k] != []
    ensures Maximal(g, rules, Runs(g, rules)[k])
  {
    var visits, run := Visits(g), Runs(g, rules)[k];
    VisitsReach(g);
    RunsAreSegments(g, rules, visits);
    assert Runs(g, rules) == RunsAlong(g, rules, visits);
    hide Runs, RunsAlong, Visits, Reachable, Shape, Fits, Segment, Maximal, Covers;
    if k == |Runs(g, rules)| - 1 {
      var i: nat :| Segment(g, rules, visits, run, i, |visits|);
      SegmentIsMaximal(g, rules, visits, run, i, |visits|);
    } else {
      var i: nat, j: nat :| Segment(g, rules, visits, run, i, j) && j < |visits| && !Fits(g, rules, visits[j]);
      SegmentIsMaximal(g, rules, visits, run, i, j);
    }
  }
}
