// Depth-first search as petgraph does it, on any graph: it visits exactly the nodes that its
// source leads to. On graphs with at most one output per node it follows that output.
module Search {
  import opened Messages
  import opened Digraphs
  import opened Dataflow

  // ---------- reachability ----------

  ghost predicate Closed<N(!new), E(!new)>(g: Graph<N, E>, c: set<nat>) {
    forall e :: e in g.edges && e.src in c ==> e.tgt in c
  }

  ghost predicate HasSources<N(!new), E(!new)>(g: Graph<N, E>, c: set<nat>) {
    forall i: nat :: i < |g.nodes| && InEdges(g.edges, i) == [] ==> i in c
  }

  /** The source leads to v: no closed set has the one without the other. */
  ghost predicate LeadsTo<N(!new), E(!new)>(g: Graph<N, E>, source: nat, v: nat) {
    forall c :: Closed(g, c) && source in c ==> v in c
  }

  /** Some node without inputs leads to v. */
  ghost predicate Reachable<N(!new), E(!new)>(g: Graph<N, E>, v: nat) {
    forall c :: Closed(g, c) && HasSources(g, c) ==> v in c
  }

  lemma {:induction false} LeadsOn<N(!new), E(!new)>(g: Graph<N, E>, source: nat, e: Edge<E>)
    requires LeadsTo(g, source, e.src) && e in g.edges
    ensures LeadsTo(g, source, e.tgt)
  {
    forall c | Closed(g, c) && source in c
      ensures e.tgt in c
    {
      assert e.src in c;
    }
  }

  lemma {:induction false} SourceReaches<N(!new), E(!new)>(g: Graph<N, E>, source: nat, v: nat)
    requires source < |g.nodes| && InEdges(g.edges, source) == [] && LeadsTo(g, source, v)
    ensures Reachable(g, v)
  {
  }

  // ---------- the search ----------

  /**
   * Between visits: trail are the nodes visited so far, in order, and whatever an edge leads
   * to from there has been visited or is on the stack.
   */
  ghost predicate Searching<N(!new), E(!new)>(g: Graph<N, E>, source: nat, trail: seq<nat>, stack: seq<nat>) {
    && Injective(trail) && InGraph(g, trail) && InGraph(g, stack)
    && (source in trail || source in stack)
    && (forall e :: e in g.edges && e.src in trail ==> e.tgt in trail || e.tgt in stack)
    && (forall v: nat :: v in trail || v in stack ==> LeadsTo(g, source, v))
  }

  ghost predicate InGraph<N(!new), E(!new)>(g: Graph<N, E>, s: seq<nat>) {
    forall k :: 0 <= k < |s| ==> s[k] < |g.nodes|
  }

  /** The search is over: it has visited exactly the nodes that the source leads to. */
  lemma {:induction false} VisitedAll<N(!new), E(!new)>(g: Graph<N, E>, source: nat, trail: seq<nat>)
    requires Searching(g, source, trail, [])
    ensures Closed(g, RunSet(trail)) && source in trail
    ensures forall v: nat :: v in trail <==> LeadsTo(g, source, v)
  {
    assert Closed(g, RunSet(trail)) && source in RunSet(trail);
  }

  /** The stack with the undiscovered targets of the edges on it, the newest edge first. */
  function Pushed<E>(stack: seq<nat>, edges: seq<Edge<E>>, discovered: set<nat>): seq<nat>
    decreases |edges|
  {
    if edges == [] then stack
    else
      var last := edges[|edges| - 1];
      Pushed(if last.tgt in discovered then stack else stack + [last.tgt], edges[..|edges| - 1], discovered)
  }

  lemma {:induction false} PushedAre<E(!new)>(stack: seq<nat>, edges: seq<Edge<E>>, discovered: set<nat>)
    ensures forall v: nat :: v in stack ==> v in Pushed(stack, edges, discovered)
    ensures forall e :: e in edges ==> e.tgt in discovered || e.tgt in Pushed(stack, edges, discovered)
    ensures forall v: nat :: v in Pushed(stack, edges, discovered) ==> v in stack || TargetOf(edges, v)
    decreases |edges|
  {
    if edges != [] {
      var front, last := edges[..|edges| - 1], edges[|edges| - 1];
      var more := if last.tgt in discovered then stack else stack + [last.tgt];
      PushedAre(more, front, discovered);
      assert edges == front + [last];
      assert last in edges;
    }
  }

  ghost predicate TargetOf<E(!new)>(edges: seq<Edge<E>>, v: nat) {
    exists e :: e in edges && e.tgt == v
  }

  lemma {:induction false} PopSeen<N(!new), E(!new)>(g: Graph<N, E>, source: nat, trail: seq<nat>, stack: seq<nat>)
    requires Searching(g, source, trail, stack) && stack != [] && stack[|stack| - 1] in trail
    ensures Searching(g, source, trail, stack[..|stack| - 1])
  {
    var rest := stack[..|stack| - 1];
    assert stack == rest + [stack[|stack| - 1]];
    assert forall v: nat :: v in stack <==> v in rest || v == stack[|stack| - 1];
  }

  /** What is on the stack once the successors of x are pushed. */
  lemma {:induction false} PushedLeads<N(!new), E(!new)>(g: Graph<N, E>, source: nat, rest: seq<nat>, x: nat,
                                                        discovered: set<nat>)
    requires Valid(g) && LeadsTo(g, source, x) && InGraph(g, rest) && forall v: nat :: v in rest ==> LeadsTo(g, source, v)
    ensures var stack := Pushed(rest, OutEdges(g.edges, x), discovered);
            InGraph(g, stack) && forall v: nat :: v in stack ==> LeadsTo(g, source, v)
  {
    var outs := OutEdges(g.edges, x);
    var stack := Pushed(rest, outs, discovered);
    OutEdgesAre(g.edges, x);
    PushedAre(rest, outs, discovered);
    hide OutEdges, Pushed, LeadsTo;
    forall v: nat | v in stack
      ensures LeadsTo(g, source, v) && v < |g.nodes|
    {
      if v !in rest {
        var e :| e in outs && e.tgt == v;
        assert e in g.edges;
        LeadsOn(g, source, e);
      }
    }
    forall k | 0 <= k < |stack|
      ensures stack[k] < |g.nodes|
    {
      assert stack[k] in stack;
    }
  }

  /** Visiting the top of the stack pushes its undiscovered successors. */
  lemma {:induction false} Visit<N(!new), E(!new)>(g: Graph<N, E>, source: nat, trail: seq<nat>, stack: seq<nat>)
    requires Valid(g) && Searching(g, source, trail, stack) && stack != [] && stack[|stack| - 1] !in trail
    ensures var x := stack[|stack| - 1];
            x < |g.nodes|
            && Searching(g, source, trail + [x], Pushed(stack[..|stack| - 1], OutEdges(g.edges, x), RunSet(trail + [x])))
  {
    var x, rest := stack[|stack| - 1], stack[..|stack| - 1];
    var outs, trail' := OutEdges(g.edges, x), trail + [x];
    var stack' := Pushed(rest, outs, RunSet(trail'));
    assert stack == rest + [x] && x in stack && LeadsTo(g, source, x);
    hide OutEdges, Pushed, LeadsTo, Valid;
    PushedLeads(g, source, rest, x, RunSet(trail'));
    OutEdgesAre(g.edges, x);
    PushedAre(rest, outs, RunSet(trail'));
    forall e | e in g.edges && e.src in trail'
      ensures e.tgt in trail' || e.tgt in stack'
    {
      if e.src == x {
        assert e in outs;
      }
    }
  }

  // ---------- graphs with one output per node ----------

  predicate OneOut<N, E>(g: Graph<N, E>) {
    forall i: nat :: i < |g.nodes| ==> |OutEdges(g.edges, i)| <= 1
  }

  ghost predicate Follows<N(!new), E(!new)>(g: Graph<N, E>, a: nat, b: nat) {
    |OutEdges(g.edges, a)| == 1 && OutEdges(g.edges, a)[0].tgt == b
  }

  /** Distinct nodes, each the only successor of the one before. */
  ghost predicate Trail<N(!new), E(!new)>(g: Graph<N, E>, trail: seq<nat>) {
    && Injective(trail) && InGraph(g, trail)
    && forall k :: 0 < k < |trail| ==> Follows(g, trail[k - 1], trail[k])
  }

  /** What is on the stack, if anything, is the source or the successor of the last visited node. */
  ghost predicate Straight<N(!new), E(!new)>(g: Graph<N, E>, source: nat, trail: seq<nat>, stack: seq<nat>) {
    Trail(g, trail) && stack == Next(g, source, trail)
  }

  /** Where a walk that follows outputs goes on from the trail. */
  ghost function Next<N(!new), E(!new)>(g: Graph<N, E>, source: nat, trail: seq<nat>): seq<nat> {
    if trail == [] then [source]
    else
      var out := OutEdges(g.edges, trail[|trail| - 1]);
      if out == [] || out[0].tgt in trail then [] else [out[0].tgt]
  }

  lemma {:induction false} PushOne<E(!new)>(edges: seq<Edge<E>>, discovered: set<nat>)
    requires |edges| <= 1
    ensures Pushed([], edges, discovered) == if edges == [] || edges[0].tgt in discovered then [] else [edges[0].tgt]
  {
  }

  /** Where the walk goes on is a node that it has not visited. */
  lemma {:induction false} NextIs<N(!new), E(!new)>(g: Graph<N, E>, source: nat, trail: seq<nat>)
    requires Valid(g) && OneOut(g) && Trail(g, trail) && source < |g.nodes| && Next(g, source, trail) != []
    ensures var next := Next(g, source, trail);
            && next == [next[0]] && next[0] !in trail && next[0] < |g.nodes|
            && (trail != [] ==> Follows(g, trail[|trail| - 1], next[0]))
  {
    if trail != [] {
      var outs := OutEdges(g.edges, trail[|trail| - 1]);
      OutEdgesAre(g.edges, trail[|trail| - 1]);
      var e := outs[0];
      assert e in outs && e in g.edges;
      assert |outs| <= 1;
    }
  }

  lemma {:induction false} TrailOn<N(!new), E(!new)>(g: Graph<N, E>, trail: seq<nat>, x: nat)
    requires Trail(g, trail) && x !in trail && x < |g.nodes| && (trail != [] ==> Follows(g, trail[|trail| - 1], x))
    ensures Trail(g, trail + [x])
  {
    hide Follows;
    var trail' := trail + [x];
    forall k | 0 < k < |trail'|
      ensures Follows(g, trail'[k - 1], trail'[k])
    {
      if k < |trail| {
        assert Follows(g, trail[k - 1], trail[k]);
      }
    }
  }

  lemma {:induction false} StraightOn<N(!new), E(!new)>(g: Graph<N, E>, source: nat, trail: seq<nat>, stack: seq<nat>)
    requires Valid(g) && OneOut(g) && Straight(g, source, trail, stack) && stack != [] && source < |g.nodes|
    ensures stack == [stack[0]] && stack[0] !in trail && stack[0] < |g.nodes|
    ensures var x := stack[0];
            Straight(g, source, trail + [x], Pushed([], OutEdges(g.edges, x), RunSet(trail + [x])))
  {
    hide Trail, Follows, Pushed, OutEdges, Valid;
    NextIs(g, source, trail);
    var x := stack[0];
    TrailOn(g, trail, x);
    assert |OutEdges(g.edges, x)| <= 1;
    PushOne(OutEdges(g.edges, x), RunSet(trail + [x]));
  }

  class Dfs {
    var stack: seq<nat>
    var discovered: set<nat>

    constructor (source: nat)
      ensures stack == [source] && discovered == {}
    {
      stack, discovered := [source], {};
    }

    /** The next undiscovered node, or None when the stack is used up. */
    method Next<N(!new), E(!new)>(g: Graph<N, E>, ghost source: nat, ghost trail: seq<nat>) returns (next: Option<nat>)
      requires Valid(g) && Searching(g, source, trail, stack) && discovered == RunSet(trail)
      modifies this
      ensures next.None? ==> stack == [] && discovered == RunSet(trail) && Searching(g, source, trail, stack)
      ensures next.Some? ==> next.value !in trail && next.value < |g.nodes|
      ensures next.Some? ==> discovered == RunSet(trail + [next.value]) && Searching(g, source, trail + [next.value], stack)
      ensures OneOut(g) && source < |g.nodes| && Straight(g, source, trail, old(stack)) ==>
                if next.None? then old(stack) == []
                else old(stack) == [next.value] && Straight(g, source, trail + [next.value], stack)
    {
      hide Searching, Straight, Pushed, Valid, OneOut, OutEdges;
      while stack != []
        invariant Searching(g, source, trail, stack) && discovered == RunSet(trail)
        invariant OneOut(g) && source < |g.nodes| && Straight(g, source, trail, old(stack)) ==> stack == old(stack)
        decreases |stack|
      {
        ghost var before := stack;
        var x := stack[|stack| - 1];
        stack := stack[..|stack| - 1];
        if OneOut(g) && source < |g.nodes| && Straight(g, source, trail, old(stack)) {
          StraightOn(g, source, trail, before);
        }
        if x !in discovered {
          Visit(g, source, trail, before);
          discovered := discovered + {x};
          assert discovered == RunSet(trail + [x]);
          ghost var base := stack;
          var successors := OutEdges(g.edges, x);
          var k := |successors|;
          assert successors[..k] == successors;
          while k > 0
            invariant 0 <= k <= |successors| && discovered == RunSet(trail + [x])
            invariant Pushed(stack, successors[..k], discovered) == Pushed(base, successors, discovered)
          {
            PushStep(stack, successors[..k], discovered);
            k := k - 1;
            assert successors[..k + 1][..k] == successors[..k];
            if successors[k].tgt !in discovered {
              stack := stack + [successors[k].tgt];
            }
          }
          PushNone<E>(stack, discovered);
          return Some(x);
        }
        PopSeen(g, source, trail, before);
      }
      next := None;
    }
  }

  lemma {:induction false} PushStep<E(!new)>(stack: seq<nat>, edges: seq<Edge<E>>, discovered: set<nat>)
    requires edges != []
    ensures var last := edges[|edges| - 1];
            Pushed(stack, edges, discovered)
            == Pushed(if last.tgt in discovered then stack else stack + [last.tgt], edges[..|edges| - 1], discovered)
  {
  }

  lemma {:induction false} PushNone<E(!new)>(stack: seq<nat>, discovered: set<nat>)
    ensures Pushed<E>(stack, [], discovered) == stack
  {
  }

  lemma {:induction false} SearchStart<N(!new), E(!new)>(g: Graph<N, E>, source: nat)
    requires source < |g.nodes|
    ensures Searching(g, source, [], [source]) && Straight(g, source, [], [source])
  {
  }

  // ---------- how long a search can be ----------

  lemma {:induction false} SizeOf(s: seq<nat>)
    requires Injective(s)
    ensures |RunSet(s)| == |s|
    decreases |s|
  {
    if s != [] {
      var front, last := s[..|s| - 1], s[|s| - 1];
      SizeOf(front);
      assert s == front + [last];
      assert last !in front;
      assert RunSet(s) == RunSet(front) + {last};
    }
  }

  function UpTo(n: nat): (r: set<nat>)
    ensures |r| == n && forall x: nat :: x in r <==> x < n
  {
    if n == 0 then {} else UpTo(n - 1) + {n - 1}
  }

  /** A search visits no more nodes than there are. */
  lemma {:induction false} TrailIsShort<N(!new), E(!new)>(g: Graph<N, E>, trail: seq<nat>)
    requires Injective(trail) && InGraph(g, trail)
    ensures |trail| <= |g.nodes|
  {
    SizeOf(trail);
    var all := UpTo(|g.nodes|);
    assert RunSet(trail) <= all;
    assert all == RunSet(trail) + (all - RunSet(trail));
  }

  /** The walk that follows outputs from the source until there is none, or one already visited. */
  ghost function WalkFrom<N(!new), E(!new)>(g: Graph<N, E>, source: nat, trail: seq<nat>): (walk: seq<nat>)
    requires Valid(g) && OneOut(g) && source < |g.nodes| && Trail(g, trail)
    ensures Trail(g, walk) && Next(g, source, walk) == []
    ensures walk != [] && walk[0] == if trail == [] then source else trail[0]
    decreases |g.nodes| - |trail|
  {
    var next := Next(g, source, trail);
    if next == [] then trail
    else
      StraightOn(g, source, trail, next);
      TrailIsShort(g, trail + next);
      WalkFrom(g, source, trail + next)
  }

  lemma {:induction false} WalkOn<N(!new), E(!new)>(g: Graph<N, E>, source: nat, trail: seq<nat>, x: nat)
    requires Valid(g) && OneOut(g) && source < |g.nodes| && Straight(g, source, trail, [x])
    ensures Trail(g, trail + [x]) && WalkFrom(g, source, trail + [x]) == WalkFrom(g, source, trail)
  {
    StraightOn(g, source, trail, [x]);
  }

  lemma {:induction false} WalkEnds<N(!new), E(!new)>(g: Graph<N, E>, source: nat, trail: seq<nat>)
    requires Valid(g) && OneOut(g) && source < |g.nodes| && Straight(g, source, trail, [])
    ensures WalkFrom(g, source, trail) == trail
  {
  }

  // ---------- sources ----------

  /** The nodes below k without inputs, in order of index. */
  ghost function Externals<N(!new), E(!new)>(g: Graph<N, E>, k: nat): seq<nat> {
    if k == 0 then []
    else Externals(g, k - 1) + if InEdges(g.edges, k - 1) == [] then [k - 1] else []
  }

  lemma {:induction false} ExternalsAre<N(!new), E(!new)>(g: Graph<N, E>, k: nat)
    ensures forall i: nat :: i in Externals(g, k) <==> i < k && InEdges(g.edges, i) == []
  {
    if k > 0 {
      ExternalsAre(g, k - 1);
    }
  }

  method Sources<N(!new), E(!new)>(g: Graph<N, E>) returns (s: seq<nat>)
    ensures s == Externals(g, |g.nodes|)
    ensures forall i: nat :: i in s <==> i < |g.nodes| && InEdges(g.edges, i) == []
  {
    s := [];
    var k := 0;
    while k < |g.nodes|
      invariant 0 <= k <= |g.nodes| && s == Externals(g, k)
    {
      if |InEdges(g.edges, k)| == 0 {
        s := s + [k];
      }
      k := k + 1;
    }
    ExternalsAre(g, k);
  }

  // ---------- looking for a node ----------

  ghost predicate NonePass(seen: set<nat>, test: nat -> bool) {
    forall i: nat :: i in seen ==> !test(i)
  }

  lemma {:induction false} Leads<N(!new), E(!new)>(g: Graph<N, E>, source: nat, trail: seq<nat>, x: nat, stack: seq<nat>)
    requires Searching(g, source, trail + [x], stack)
    ensures LeadsTo(g, source, x) && |trail| < |g.nodes|
  {
    assert (trail + [x])[|trail|] == x;
    assert x in trail + [x];
    TrailIsShort(g, trail + [x]);
  }

  /** The first node along the search from the source that passes the test; if none, all that it has seen. */
  method FindFrom<N(!new), E(!new)>(g: Graph<N, E>, source: nat, test: nat -> bool)
      returns (x: Option<nat>, ghost seen: set<nat>)
    requires Valid(g) && source < |g.nodes|
    ensures x.Some? ==> test(x.value) && x.value < |g.nodes| && LeadsTo(g, source, x.value)
    ensures x.None? ==> Closed(g, seen) && source in seen && NonePass(seen, test)
  {
    SearchStart(g, source);
    hide Searching, Straight, OneOut, Valid, LeadsTo, Closed;
    seen := {};
    var dfs := new Dfs(source);
    ghost var trail: seq<nat> := [];
    var idx: Option<nat> := dfs.Next(g, source, trail);
    while idx.Some?
      invariant fresh(dfs) && NonePass(RunSet(trail), test)
      invariant idx.Some? ==> idx.value < |g.nodes| && dfs.discovered == RunSet(trail + [idx.value])
      invariant idx.Some? ==> Searching(g, source, trail + [idx.value], dfs.stack)
      invariant idx.None? ==> Searching(g, source, trail, [])
      decreases |g.nodes| - |trail|, idx.Some?
    {
      Leads(g, source, trail, idx.value, dfs.stack);
      if test(idx.value) {
        return idx, seen;
      }
      trail := trail + [idx.value];
      idx := dfs.Next(g, source, trail);
    }
    VisitedAll(g, source, trail);
    return None, RunSet(trail);
  }

  lemma {:induction false} ClosedUnion<N(!new), E(!new)>(g: Graph<N, E>, a: set<nat>, b: set<nat>)
    requires Closed(g, a) && Closed(g, b)
    ensures Closed(g, a + b)
  {
  }

  lemma {:induction false} NothingClosed<N(!new), E(!new)>(g: Graph<N, E>)
    ensures Closed(g, {})
  {
  }

  /** Searches from one source after the other for a node that passes the test. */
  method FindReachable<N(!new), E(!new)>(g: Graph<N, E>, test: nat -> bool) returns (x: Option<nat>)
    requires Valid(g)
    ensures x.Some? ==> test(x.value) && x.value < |g.nodes| && Reachable(g, x.value)
    ensures x.None? ==> forall i: nat :: Reachable(g, i) ==> !test(i)
  {
    var sources := Sources(g);
    hide Valid, LeadsTo, Closed, Externals, InEdges;
    ghost var all: set<nat> := {};
    NothingClosed(g);
    var i := 0;
    while i < |sources|
      invariant 0 <= i <= |sources| && Closed(g, all) && NonePass(all, test)
      invariant forall j :: 0 <= j < i ==> sources[j] in all
    {
      assert sources[i] in sources;
      ghost var seen;
      x, seen := FindFrom(g, sources[i], test);
      if x.Some? {
        SourceReaches(g, sources[i], x.value);
        return;
      }
      ClosedUnion(g, all, seen);
      all := all + seen;
      i := i + 1;
    }
    x := None;
    assert HasSources(g, all);
  }
}
