// Replacing a path by one that simulates it and is simulated by it: every solution of either
// graph has a solution of the other that agrees on every node outside the path and on the
// output of the path.
module PathReplacement {
  import opened Digraphs
  import opened Dataflow

  /** What a node of the new graph is in the old one: a node, the output of a node, or nothing. */
  datatype Name = Same(old_: nat) | OutputOf(old_: nat) | New

  /** The node with this name is fed and sends in h, which has the edges fs, what it is and does in g. */
  ghost predicate AgreeAt<E(!new), S(!new)>(es: seq<Edge<E>>, fs: seq<Edge<E>>, name: Name, i: nat, out: nat -> S,
                                            out': nat -> S) {
    match name
    case Same(v) => out'(i) == out(v) && Feeds(fs, i, out') == Feeds(es, v, out)
    case OutputOf(v) => out'(i) == out(v)
    case New => true
  }

  /** Streams of h against streams of g. */
  ghost predicate Agree<N(!new), E(!new), S(!new)>(g: Graph<N, E>, h: Graph<N, E>, names: seq<Name>, out: nat -> S,
                                                   out': nat -> S) {
    forall i: nat :: i < |names| ==> AgreeAt(g.edges, h.edges, names[i], i, out, out')
  }

  /** The streams out of the old graph have a counterpart in h. */
  ghost predicate HasNew<N(!new), E(!new), S(!new)>(sem: Sem<N, E, S>, g: Graph<N, E>, h: Graph<N, E>, names: seq<Name>,
                                                    out: nat -> S) {
    exists out' :: Solution(sem, h, out') && Agree(g, h, names, out, out')
  }

  /** The streams out' of the new graph have a counterpart in g. */
  ghost predicate HasOld<N(!new), E(!new), S(!new)>(sem: Sem<N, E, S>, g: Graph<N, E>, h: Graph<N, E>, names: seq<Name>,
                                                    out': nat -> S) {
    exists out :: Solution(sem, g, out) && Agree(g, h, names, out, out')
  }

  /** Each solution of g is, seen through names, a solution of h, and the other way round. */
  ghost predicate SameMeaning<N(!new), E(!new), S(!new)>(sem: Sem<N, E, S>, g: Graph<N, E>, h: Graph<N, E>,
                                                         names: seq<Name>) {
    && (forall out :: Solution(sem, g, out) ==> HasNew(sem, g, h, names, out))
    && (forall out' :: Solution(sem, h, out') ==> HasOld(sem, g, h, names, out'))
  }

  /** Old names for the nodes of the new graph; the end of the new path sends what the end of the run sent. */
  function OldNames(names: seq<nat>, n: nat, m: nat, end: nat): (r: seq<Name>)
    ensures |r| == |names|
    ensures forall i :: 0 <= i < |names| && names[i] < n ==> r[i] == Same(names[i])
  {
    seq(|names|, i requires 0 <= i < |names| =>
      if names[i] < n then Same(names[i]) else if names[i] == n + m - 1 then OutputOf(end) else New)
  }

  function SameNames(n: nat): (r: seq<Name>)
    ensures |r| == n && forall i :: 0 <= i < n ==> r[i] == Same(i)
  {
    seq(n, i requires 0 <= i < n => Same(i))
  }

  function IndexOf(s: seq<nat>, x: nat): (i: nat)
    requires x in s
    ensures i < |s| && s[i] == x
  {
    if s[|s| - 1] == x then |s| - 1 else IndexOf(s[..|s| - 1], x)
  }

  // ---------- from the old graph to the new one ----------

  ghost function Spliced<S(!new)>(n: nat, out: nat -> S, zs: seq<S>): nat -> S {
    (x: nat) => if x < n || x - n >= |zs| then out(x) else zs[x - n]
  }

  ghost function Renamed<S(!new)>(names: seq<nat>, mid: nat -> S): nat -> S {
    (i: nat) => if i < |names| then mid(names[i]) else mid(i)
  }

  ghost function OutputsOf<S(!new)>(run: seq<nat>, out: nat -> S): (ys: seq<S>)
    ensures |ys| == |run| && forall j :: 0 <= j < |run| ==> ys[j] == out(run[j])
  {
    seq(|run|, j requires 0 <= j < |run| => out(run[j]))
  }

  /** The old streams solve the nodes of the run, as a path. */
  lemma {:induction false} OldPathRuns<N(!new), E(!new), S(!new)>(sem: Sem<N, E, S>, g: Graph<N, E>, run: seq<nat>,
                                                                  out: nat -> S)
    requires Valid(g) && SinglePath(g, run) && Solution(sem, g, out)
    ensures PathRuns(sem, RunNodes(g, run), RunEdges(g, run), out(Entry(g, run).src), OutputsOf(run, out))
  {
    var ys := OutputsOf(run, out);
    hide Feeds, InEdges, OutEdges, NodeHolds, Solution;
    forall j: nat | j < |run|
      ensures StepHolds(sem, RunNodes(g, run), RunEdges(g, run), out(Entry(g, run).src), ys, j)
    {
      RunFeeds(g, run, j, out);
      OldNodeHolds(sem, g, out, run[j]);
    }
  }

  lemma {:induction false} SplicedIs<S(!new)>(n: nat, out: nat -> S, zs: seq<S>)
    ensures forall x: nat :: x < n ==> Spliced(n, out, zs)(x) == out(x)
    ensures forall j :: 0 <= j < |zs| ==> Spliced(n, out, zs)(n + j) == zs[j]
  {
  }

  lemma {:induction false} OldNodeHolds<N(!new), E(!new), S(!new)>(sem: Sem<N, E, S>, g: Graph<N, E>, out: nat -> S, x: nat)
    requires Solution(sem, g, out) && x < |g.nodes|
    ensures NodeHolds(sem, g.nodes[x], Feeds(g.edges, x, out), out(x))
  {
  }

  lemma {:induction false} PathNodeHolds<N(!new), E(!new), S(!new)>(sem: Sem<N, E, S>, ws: seq<N>, es: seq<E>, x: S,
                                                                    ys: seq<S>, j: nat)
    requires PathRuns(sem, ws, es, x, ys) && j < |ws|
    ensures |ws| == |es| == |ys|
    ensures NodeHolds(sem, ws[j], multiset{(es[j], if j == 0 then x else ys[j - 1])}, ys[j])
  {
    assert StepHolds(sem, ws, es, x, ys, j);
  }

  lemma {:induction false} SplicedOutside<N(!new), E(!new), S(!new)>(sem: Sem<N, E, S>, g: Graph<N, E>, run: seq<nat>,
                                                                     vs: seq<N>,
                                                                    fs: seq<E>, out: nat -> S, zs: seq<S>, x: nat)
    requires Valid(g) && SinglePath(g, run) && Solution(sem, g, out)
    requires |zs| == |fs| > 0 && zs[|zs| - 1] == out(run[|run| - 1])
    requires x < |g.nodes| && x !in run
    ensures NodeHolds(sem, g.nodes[x], Feeds(Kept(Extended(g, run, vs, fs).edges, RunSet(run)), x, Spliced(|g.nodes|, out, zs)),
                      Spliced(|g.nodes|, out, zs)(x))
  {
    hide *;
    var n, mid := |g.nodes|, Spliced(|g.nodes|, out, zs);
    SplicedIs(n, out, zs);
    assert mid(n + (|zs| - 1)) == zs[|zs| - 1];
    OutsideFeeds(g, run, vs, fs, x, out, mid);
    OldNodeHolds(sem, g, out, x);
  }

  lemma {:induction false} SplicedBefore<S(!new)>(n: nat, u: nat, out: nat -> S, zs: seq<S>, x: nat)
    requires n <= x < n + |zs| && u < n
    ensures Spliced(n, out, zs)(Before(n, u, x)) == if x == n then out(u) else zs[x - n - 1]
    ensures Spliced(n, out, zs)(x) == zs[x - n]
  {
  }

  lemma {:induction false} SplicedInside<N(!new), E(!new), S(!new)>(sem: Sem<N, E, S>, g: Graph<N, E>, run: seq<nat>,
                                                                    vs: seq<N>,
                                                                   fs: seq<E>, out: nat -> S, zs: seq<S>, x: nat)
    requires Valid(g) && SinglePath(g, run) && |g.nodes| <= x < |g.nodes| + |vs|
    requires PathRuns(sem, vs, fs, out(Entry(g, run).src), zs) && |vs| == |fs| == |zs| > 0
    ensures NodeHolds(sem, vs[x - |g.nodes|],
                      Feeds(Kept(Extended(g, run, vs, fs).edges, RunSet(run)), x, Spliced(|g.nodes|, out, zs)),
                      Spliced(|g.nodes|, out, zs)(x))
  {
    hide *;
    var n, u, mid := |g.nodes|, Entry(g, run).src, Spliced(|g.nodes|, out, zs);
    EntryAndExit(g, run);
    PathNodeHolds(sem, vs, fs, out(u), zs, x - n);
    SplicedBefore(n, u, out, zs, x);
    NewPathFeeds(g, run, vs, fs, x, mid);
  }

  /** A live node of the extended graph holds for the spliced streams. */
  lemma {:induction false} SplicedHolds<N(!new), E(!new), S(!new)>(sem: Sem<N, E, S>, g: Graph<N, E>, run: seq<nat>,
                                                                   vs: seq<N>,
                                                                  fs: seq<E>, out: nat -> S, zs: seq<S>, x: nat)
    requires Valid(g) && SinglePath(g, run) && Solution(sem, g, out)
    requires |vs| == |fs| == |zs| > 0 && PathRuns(sem, vs, fs, out(Entry(g, run).src), zs)
    requires zs[|zs| - 1] == out(run[|run| - 1])
    requires x < |g.nodes| + |vs| && x !in run
    ensures NodeHolds(sem, (g.nodes + vs)[x], Feeds(Kept(Extended(g, run, vs, fs).edges, RunSet(run)), x, Spliced(|g.nodes|, out, zs)),
                      Spliced(|g.nodes|, out, zs)(x))
  {
    hide *;
    if x < |g.nodes| {
      SplicedOutside(sem, g, run, vs, fs, out, zs, x);
    } else {
      SplicedInside(sem, g, run, vs, fs, out, zs, x);
    }
  }

  /** Solutions of the extended graph's live part are, renamed, solutions of the new graph. */
  lemma {:induction false} RenamedSolution<N(!new), E(!new), S(!new)>(sem: Sem<N, E, S>, h: Graph<N, E>, x: Graph<N, E>,
                                                                     names: seq<nat>, dead: set<nat>, mid: nat -> S)
    requires Without(h, x, names, dead)
    requires forall v: nat :: v < |x.nodes| && v !in dead ==> NodeHolds(sem, x.nodes[v], Feeds(Kept(x.edges, dead), v, mid), mid(v))
    ensures Solution(sem, h, Renamed(names, mid))
  {
    var out := Renamed(names, mid);
    forall i: nat | i < |h.nodes|
      ensures NodeHolds(sem, h.nodes[i], Feeds(h.edges, i, out), out(i))
    {
      FeedsMapped(h.edges, names, i, out, mid);
      assert NodeHolds(sem, x.nodes[names[i]], Feeds(Kept(x.edges, dead), names[i], mid), mid(names[i]));
    }
  }

  lemma {:induction false} RunOutput<N(!new), E(!new), S(!new)>(sem: Sem<N, E, S>, g: Graph<N, E>, run: seq<nat>,
                                                                vs: seq<N>,
                                                               fs: seq<E>, out: nat -> S) returns (zs: seq<S>)
    requires Valid(g) && SinglePath(g, run) && Solution(sem, g, out)
    requires Simulates(sem, RunNodes(g, run), RunEdges(g, run), vs, fs)
    ensures PathRuns(sem, vs, fs, out(Entry(g, run).src), zs) && |zs| == |vs| > 0 && zs[|zs| - 1] == out(run[|run| - 1])
  {
    hide Solution, SinglePath, RunNodes, RunEdges, Entry;
    var ys := OutputsOf(run, out);
    OldPathRuns(sem, g, run, out);
    zs :| PathRuns(sem, vs, fs, out(Entry(g, run).src), zs) && zs[|zs| - 1] == ys[|ys| - 1];
  }

  lemma {:induction false} ReplacedFacts<N(!new), E(!new)>(h: Graph<N, E>, g: Graph<N, E>, names: seq<nat>, run: seq<nat>,
                                                           vs: seq<N>, fs: seq<E>)
    requires Replaced(h, g, names, run, vs, fs)
    ensures Valid(g) && SinglePath(g, run) && |vs| == |fs| > 0
    ensures Without(h, Extended(g, run, vs, fs), names, RunSet(run))
    ensures Extended(g, run, vs, fs).nodes == g.nodes + vs
    ensures forall x: nat :: x >= |g.nodes| ==> x !in run
  {
  }

  /** A node outside the run is fed in the new graph as in the old one. */
  lemma {:induction false} OutsideFed<N(!new), E(!new), S(!new)>(g: Graph<N, E>, h: Graph<N, E>, names: seq<nat>,
                                                                 run: seq<nat>, vs: seq<N>,
                                                                fs: seq<E>, i: nat, out: nat -> S, mid: nat -> S, out': nat -> S)
    requires Replaced(h, g, names, run, vs, fs) && i < |names| && names[i] < |g.nodes|
    requires forall j :: 0 <= j < |names| ==> out'(j) == mid(names[j])
    requires forall x: nat :: x < |g.nodes| && x !in run ==> mid(x) == out(x)
    requires mid(|g.nodes| + |fs| - 1) == out(run[|run| - 1])
    ensures Feeds(h.edges, i, out') == Feeds(g.edges, names[i], out)
  {
    ReplacedFacts(h, g, names, run, vs, fs);
    var ext := Extended(g, run, vs, fs);
    assert Mapped(h.edges, names) == Kept(ext.edges, RunSet(run));
    assert names[i] !in run && Injective(names);
    assert forall k :: 0 <= k < |h.edges| ==> h.edges[k].src < |names| && h.edges[k].tgt < |names|;
    hide *;
    FeedsMapped(h.edges, names, i, out', mid);
    OutsideFeeds(g, run, vs, fs, names[i], out, mid);
  }

  lemma {:induction false} NameIs(names: seq<nat>, n: nat, m: nat, end: nat, i: nat)
    requires i < |names|
    ensures OldNames(names, n, m, end)[i]
         == if names[i] < n then Same(names[i]) else if names[i] == n + m - 1 then OutputOf(end) else New
  {
  }

  lemma {:induction false} SplicedAgrees<N(!new), E(!new), S(!new)>(g: Graph<N, E>, h: Graph<N, E>, names: seq<nat>,
                                                                    run: seq<nat>, vs: seq<N>,
                                                                   fs: seq<E>, out: nat -> S, zs: seq<S>)
    requires Replaced(h, g, names, run, vs, fs) && |zs| == |fs| > 0 && zs[|zs| - 1] == out(run[|run| - 1])
    ensures Agree(g, h, OldNames(names, |g.nodes|, |vs|, run[|run| - 1]), out, Renamed(names, Spliced(|g.nodes|, out, zs)))
  {
    var n, mid := |g.nodes|, Spliced(|g.nodes|, out, zs);
    var out' := Renamed(names, mid);
    var o := OldNames(names, n, |vs|, run[|run| - 1]);
    SplicedIs(n, out, zs);
    ReplacedFacts(h, g, names, run, vs, fs);
    assert mid(n + (|zs| - 1)) == zs[|zs| - 1];
    assert forall j :: 0 <= j < |names| ==> out'(j) == mid(names[j]);
    hide Replaced, Spliced, Renamed, OldNames, Feeds, SinglePath, Extended, Without;
    forall i: nat | i < |o|
      ensures AgreeAt(g.edges, h.edges, o[i], i, out, out')
    {
      NameIs(names, n, |vs|, run[|run| - 1], i);
      if names[i] < n {
        OutsideFed(g, h, names, run, vs, fs, i, out, mid, out');
      }
    }
  }

  lemma {:induction false} Forward<N(!new), E(!new), S(!new)>(sem: Sem<N, E, S>, g: Graph<N, E>, h: Graph<N, E>,
                                                              names: seq<nat>,
                                                             run: seq<nat>, vs: seq<N>, fs: seq<E>, out: nat -> S)
    requires Replaced(h, g, names, run, vs, fs) && Solution(sem, g, out)
    requires Simulates(sem, RunNodes(g, run), RunEdges(g, run), vs, fs)
    ensures HasNew(sem, g, h, OldNames(names, |g.nodes|, |vs|, run[|run| - 1]), out)
  {
    var ext := Extended(g, run, vs, fs);
    assert ext.nodes == g.nodes + vs;
    hide Solution, SinglePath, RunNodes, RunEdges, Entry, Simulates, Extended, Without, Feeds, Kept, PathRuns, Agree,
         NodeHolds,
         OldNames, Spliced, Renamed, Valid, InEdges, OutEdges;
    var zs := RunOutput(sem, g, run, vs, fs, out);
    var mid := Spliced(|g.nodes|, out, zs);
    forall v: nat | v < |ext.nodes| && v !in RunSet(run)
      ensures NodeHolds(sem, ext.nodes[v], Feeds(Kept(ext.edges, RunSet(run)), v, mid), mid(v))
    {
      SplicedHolds(sem, g, run, vs, fs, out, zs, v);
    }
    RenamedSolution(sem, h, ext, names, RunSet(run), mid);
    SplicedAgrees(g, h, names, run, vs, fs, out, zs);
  }

  // ---------- from the new graph to the old one ----------

  /** The stream that the new solution gives to each live node of the extended graph. */
  ghost function Unnamed<S(!new)>(names: seq<nat>, out': nat -> S): nat -> S {
    (x: nat) => if x in names then out'(IndexOf(names, x)) else out'(0)
  }

  ghost function Restored<S(!new)>(run: seq<nat>, mid: nat -> S, ys: seq<S>): nat -> S
    requires |ys| == |run|
  {
    (x: nat) => if x in run then ys[IndexOf(run, x)] else mid(x)
  }

  lemma {:induction false} UnnamedAt<S(!new)>(names: seq<nat>, out': nat -> S, i: nat)
    requires Injective(names) && i < |names|
    ensures Unnamed(names, out')(names[i]) == out'(i)
  {
    assert names[i] in names;
    IndexIs(names, i);
  }

  lemma {:induction false} IndexIs(names: seq<nat>, i: nat)
    requires Injective(names) && i < |names|
    ensures names[i] in names && IndexOf(names, names[i]) == i
  {
    var k := IndexOf(names, names[i]);
    assert names[k] == names[i];
  }

  lemma {:induction false} RestoredAt<S(!new)>(run: seq<nat>, mid: nat -> S, ys: seq<S>, j: nat)
    requires Injective(run) && |ys| == |run| && j < |run|
    ensures Restored(run, mid, ys)(run[j]) == ys[j]
  {
    IndexIs(run, j);
  }

  lemma {:induction false} UnnamedHolds<N(!new), E(!new), S(!new)>(sem: Sem<N, E, S>, h: Graph<N, E>, x: Graph<N, E>,
                                                                  names: seq<nat>, dead: set<nat>, out': nat -> S, v: nat)
    requires Without(h, x, names, dead) && Solution(sem, h, out')
    requires v < |x.nodes| && v !in dead
    ensures NodeHolds(sem, x.nodes[v], Feeds(Kept(x.edges, dead), v, Unnamed(names, out')), Unnamed(names, out')(v))
  {
    var mid := Unnamed(names, out');
    var i := IndexOf(names, v);
    forall j | 0 <= j < |names|
      ensures out'(j) == mid(names[j])
    {
      UnnamedAt(names, out', j);
    }
    FeedsMapped(h.edges, names, i, out', mid);
    assert NodeHolds(sem, h.nodes[i], Feeds(h.edges, i, out'), out'(i));
  }

  /** The streams of the new path, read off a solution of the new graph. */
  ghost function NewPathOutputs<S(!new)>(mid: nat -> S, n: nat, m: nat): (zs: seq<S>)
    ensures |zs| == m && forall j :: 0 <= j < m ==> zs[j] == mid(n + j)
  {
    seq(m, j requires 0 <= j < m => mid(n + j))
  }

  lemma {:induction false} NewStepHolds<N(!new), E(!new), S(!new)>(sem: Sem<N, E, S>, vs: seq<N>, fs: seq<E>, n: nat,
                                                                   u: nat, mid: nat -> S,
                                                                  x: nat)
    requires |vs| == |fs| && n <= x < n + |vs|
    requires NodeHolds(sem, vs[x - n], multiset{(fs[x - n], mid(Before(n, u, x)))}, mid(x))
    ensures StepHolds(sem, vs, fs, mid(u), NewPathOutputs(mid, n, |vs|), x - n)
  {
    var zs, j := NewPathOutputs(mid, n, |vs|), x - n;
    assert zs[j] == mid(n + j);
    if j > 0 {
      var k := j - 1;
      assert zs[k] == mid(n + k);
    }
  }

  lemma {:induction false} NewNodeHolds<N(!new), E(!new), S(!new)>(sem: Sem<N, E, S>, g: Graph<N, E>, h: Graph<N, E>,
                                                                   names: seq<nat>,
                                                                  run: seq<nat>, vs: seq<N>, fs: seq<E>, out': nat -> S, x: nat)
    requires Replaced(h, g, names, run, vs, fs) && Solution(sem, h, out') && |vs| == |fs| && |g.nodes| <= x < |g.nodes| + |vs|
    ensures StepHolds(sem, vs, fs, Unnamed(names, out')(Entry(g, run).src), NewPathOutputs(Unnamed(names, out'), |g.nodes|, |vs|),
                      x - |g.nodes|)
  {
    hide *;
    ReplacedFacts(h, g, names, run, vs, fs);
    var n, ext := |g.nodes|, Extended(g, run, vs, fs);
    NewPathFeeds(g, run, vs, fs, x, Unnamed(names, out'));
    UnnamedHolds(sem, h, ext, names, RunSet(run), out', x);
    NewStepHolds(sem, vs, fs, n, Entry(g, run).src, Unnamed(names, out'), x);
  }

  lemma {:induction false} NewPathHolds<N(!new), E(!new), S(!new)>(sem: Sem<N, E, S>, g: Graph<N, E>, h: Graph<N, E>,
                                                                   names: seq<nat>,
                                                                  run: seq<nat>, vs: seq<N>, fs: seq<E>, out': nat -> S)
    requires Replaced(h, g, names, run, vs, fs) && Solution(sem, h, out')
    ensures PathRuns(sem, vs, fs, Unnamed(names, out')(Entry(g, run).src), NewPathOutputs(Unnamed(names, out'), |g.nodes|, |vs|))
  {
    var zs, x := NewPathOutputs(Unnamed(names, out'), |g.nodes|, |vs|), Unnamed(names, out')(Entry(g, run).src);
    hide Solution, Unnamed, SinglePath, StepHolds, Without, Extended, NewPathOutputs, Valid, Entry;
    forall j: nat | j < |vs|
      ensures StepHolds(sem, vs, fs, x, zs, j)
    {
      NewNodeHolds(sem, g, h, names, run, vs, fs, out', |g.nodes| + j);
    }
  }

  lemma {:induction false} RestoredInside<N(!new), E(!new), S(!new)>(sem: Sem<N, E, S>, g: Graph<N, E>, run: seq<nat>,
                                                                     mid: nat -> S,
                                                                    ys: seq<S>, j: nat)
    requires Valid(g) && SinglePath(g, run) && j < |run| && |ys| == |run|
    requires PathRuns(sem, RunNodes(g, run), RunEdges(g, run), mid(Entry(g, run).src), ys)
    ensures var out := Restored(run, mid, ys);
            NodeHolds(sem, g.nodes[run[j]], Feeds(g.edges, run[j], out), out(run[j]))
  {
    var out, u := Restored(run, mid, ys), Entry(g, run).src;
    assert u !in run && Injective(run);
    assert out(u) == mid(u);
    assert RunNodes(g, run)[j] == g.nodes[run[j]];
    hide *;
    RunFeeds(g, run, j, out);
    RestoredAt(run, mid, ys, j);
    if j > 0 {
      RestoredAt(run, mid, ys, j - 1);
    }
    PathNodeHolds(sem, RunNodes(g, run), RunEdges(g, run), mid(u), ys, j);
  }

  lemma {:induction false} RestoredOutside<N(!new), E(!new), S(!new)>(sem: Sem<N, E, S>, g: Graph<N, E>, h: Graph<N, E>,
                                                                      names: seq<nat>,
                                                                     run: seq<nat>, vs: seq<N>, fs: seq<E>, out': nat -> S,
                                                                     ys: seq<S>, v: nat)
    requires Replaced(h, g, names, run, vs, fs) && Solution(sem, h, out') && v < |g.nodes| && v !in run
    requires |ys| == |run| && ys[|ys| - 1] == Unnamed(names, out')(|g.nodes| + |vs| - 1)
    ensures var out := Restored(run, Unnamed(names, out'), ys);
            NodeHolds(sem, g.nodes[v], Feeds(g.edges, v, out), out(v))
  {
    var mid, ext := Unnamed(names, out'), Extended(g, run, vs, fs);
    var out := Restored(run, mid, ys);
    assert forall x: nat :: x !in run ==> out(x) == mid(x);
    assert ext.nodes == g.nodes + vs && ext.nodes[v] == g.nodes[v];
    assert Injective(run) && |run| > 0;
    hide *;
    RestoredAt(run, mid, ys, |run| - 1);
    OutsideFeeds(g, run, vs, fs, v, out, mid);
    UnnamedHolds(sem, h, ext, names, RunSet(run), out', v);
  }

  lemma {:induction false} RestoredAgrees<N(!new), E(!new), S(!new)>(g: Graph<N, E>, h: Graph<N, E>, names: seq<nat>,
                                                                     run: seq<nat>, vs: seq<N>,
                                                                    fs: seq<E>, out': nat -> S, ys: seq<S>)
    requires Replaced(h, g, names, run, vs, fs) && |run| == |ys| > 0
    requires ys[|ys| - 1] == Unnamed(names, out')(|g.nodes| + |vs| - 1)
    ensures Agree(g, h, OldNames(names, |g.nodes|, |vs|, run[|run| - 1]), Restored(run, Unnamed(names, out'), ys), out')
  {
    var n, mid, o := |g.nodes|, Unnamed(names, out'), OldNames(names, |g.nodes|, |vs|, run[|run| - 1]);
    var out := Restored(run, mid, ys);
    ReplacedFacts(h, g, names, run, vs, fs);
    assert Injective(run) && Injective(names);
    assert forall i :: 0 <= i < |names| ==> names[i] !in run;
    assert forall x: nat :: x !in run ==> out(x) == mid(x);
    hide Replaced, Unnamed, Restored, OldNames, Feeds, SinglePath, Extended, Without;
    RestoredAt(run, mid, ys, |run| - 1);
    forall j | 0 <= j < |names|
      ensures out'(j) == mid(names[j])
    {
      UnnamedAt(names, out', j);
    }
    forall i: nat | i < |o|
      ensures AgreeAt(g.edges, h.edges, o[i], i, out, out')
    {
      NameIs(names, n, |vs|, run[|run| - 1], i);
      if names[i] < n {
        OutsideFed(g, h, names, run, vs, fs, i, out, mid, out');
      }
    }
  }

  lemma {:induction false} NewOutput<N(!new), E(!new), S(!new)>(sem: Sem<N, E, S>, g: Graph<N, E>, h: Graph<N, E>,
                                                                names: seq<nat>,
                                                               run: seq<nat>, vs: seq<N>, fs: seq<E>, out': nat -> S) returns (ys: seq<S>)
    requires Replaced(h, g, names, run, vs, fs) && Solution(sem, h, out')
    requires Simulates(sem, vs, fs, RunNodes(g, run), RunEdges(g, run))
    ensures PathRuns(sem, RunNodes(g, run), RunEdges(g, run), Unnamed(names, out')(Entry(g, run).src), ys)
    ensures |ys| == |run| > 0 && ys[|ys| - 1] == Unnamed(names, out')(|g.nodes| + |vs| - 1)
  {
    hide Solution, SinglePath, Entry, Without, Extended, Unnamed;
    var mid := Unnamed(names, out');
    var zs := NewPathOutputs(mid, |g.nodes|, |vs|);
    NewPathHolds(sem, g, h, names, run, vs, fs, out');
    ys :| PathRuns(sem, RunNodes(g, run), RunEdges(g, run), mid(Entry(g, run).src), ys) && ys[|ys| - 1] == zs[|zs| - 1];
  }

  lemma {:induction false} Backward<N(!new), E(!new), S(!new)>(sem: Sem<N, E, S>, g: Graph<N, E>, h: Graph<N, E>,
                                                               names: seq<nat>,
                                                              run: seq<nat>, vs: seq<N>, fs: seq<E>, out': nat -> S)
    requires Replaced(h, g, names, run, vs, fs) && Solution(sem, h, out')
    requires Simulates(sem, vs, fs, RunNodes(g, run), RunEdges(g, run))
    ensures HasOld(sem, g, h, OldNames(names, |g.nodes|, |vs|, run[|run| - 1]), out')
  {
    var ys := NewOutput(sem, g, h, names, run, vs, fs, out');
    var mid := Unnamed(names, out');
    var out := Restored(run, mid, ys);
    assert Injective(run) && Injective(names);
    assert forall i :: 0 <= i < |names| ==> names[i] !in run;
    hide SinglePath, RunNodes, RunEdges, Entry, Simulates, Extended, Without, Feeds, Kept, PathRuns, Agree, NodeHolds,
         OldNames, Unnamed, Restored, Valid, InEdges, OutEdges, Injective;
    forall v: nat | v < |g.nodes|
      ensures NodeHolds(sem, g.nodes[v], Feeds(g.edges, v, out), out(v))
    {
      if v in run {
        RestoredInside(sem, g, run, mid, ys, IndexOf(run, v));
      } else {
        RestoredOutside(sem, g, h, names, run, vs, fs, out', ys, v);
      }
    }
    assert Solution(sem, g, out);
    RestoredAgrees(g, h, names, run, vs, fs, out', ys);
  }

  /** A replacement by a path of the same meaning preserves the meaning of the graph. */
  lemma {:induction false} ReplacementPreserves<N(!new), E(!new), S(!new)>(sem: Sem<N, E, S>, g: Graph<N, E>,
        h: Graph<N, E>,
                                                                          names: seq<nat>, run: seq<nat>, vs: seq<N>, fs: seq<E>)
    requires Replaced(h, g, names, run, vs, fs)
    requires Simulates(sem, RunNodes(g, run), RunEdges(g, run), vs, fs)
    requires Simulates(sem, vs, fs, RunNodes(g, run), RunEdges(g, run))
    ensures SameMeaning(sem, g, h, OldNames(names, |g.nodes|, |vs|, run[|run| - 1]))
  {
    var o := OldNames(names, |g.nodes|, |vs|, run[|run| - 1]);
    hide Replaced, Simulates, Solution, HasNew, HasOld, OldNames;
    forall out | Solution(sem, g, out)
      ensures HasNew(sem, g, h, o, out)
    {
      Forward(sem, g, h, names, run, vs, fs, out);
    }
    forall out' | Solution(sem, h, out')
      ensures HasOld(sem, g, h, o, out')
    {
      Backward(sem, g, h, names, run, vs, fs, out');
    }
  }

  // ---------- composition ----------

  function Traced(names: seq<Name>, later: Name): Name {
    match later
    case Same(j) => if j < |names| then names[j] else New
    case OutputOf(j) => if j < |names| && !names[j].New? then OutputOf(names[j].old_) else New
    case New => New
  }

  function Composed(names: seq<Name>, later: seq<Name>): (r: seq<Name>)
    ensures |r| == |later| && forall i :: 0 <= i < |later| ==> r[i] == Traced(names, later[i])
  {
    seq(|later|, i requires 0 <= i < |later| => Traced(names, later[i]))
  }

  lemma {:induction false} AgreeComposed<N(!new), E(!new), S(!new)>(f: Graph<N, E>, g: Graph<N, E>, h: Graph<N, E>,
                                                                    names: seq<Name>,
                                                                   later: seq<Name>, a: nat -> S, b: nat -> S, c: nat -> S)
    requires Agree(f, g, names, a, b) && Agree(g, h, later, b, c)
    ensures Agree(f, h, Composed(names, later), a, c)
  {
    var both := Composed(names, later);
    hide Feeds, Composed;
    forall i: nat | i < |both|
      ensures AgreeAt(f.edges, h.edges, both[i], i, a, c)
    {
      assert AgreeAt(g.edges, h.edges, later[i], i, b, c);
      if !later[i].New? && later[i].old_ < |names| {
        assert AgreeAt(f.edges, g.edges, names[later[i].old_], later[i].old_, a, b);
      }
    }
  }

  lemma {:induction false} NewOf<N(!new), E(!new), S(!new)>(sem: Sem<N, E, S>, g: Graph<N, E>, h: Graph<N, E>,
                                                            names: seq<Name>,
                                                           out: nat -> S) returns (out': nat -> S)
    requires SameMeaning(sem, g, h, names) && Solution(sem, g, out)
    ensures Solution(sem, h, out') && Agree(g, h, names, out, out')
  {
    hide Solution, Agree;
    assert HasNew(sem, g, h, names, out);
    out' :| Solution(sem, h, out') && Agree(g, h, names, out, out');
  }

  lemma {:induction false} OldOf<N(!new), E(!new), S(!new)>(sem: Sem<N, E, S>, g: Graph<N, E>, h: Graph<N, E>,
                                                            names: seq<Name>,
                                                           out': nat -> S) returns (out: nat -> S)
    requires SameMeaning(sem, g, h, names) && Solution(sem, h, out')
    ensures Solution(sem, g, out) && Agree(g, h, names, out, out')
  {
    hide Solution, Agree;
    assert HasOld(sem, g, h, names, out');
    out :| Solution(sem, g, out) && Agree(g, h, names, out, out');
  }

  lemma {:induction false} ComposeForward<N(!new), E(!new), S(!new)>(sem: Sem<N, E, S>, f: Graph<N, E>, g: Graph<N, E>,
                                                                     h: Graph<N, E>,
                                                                    names: seq<Name>, later: seq<Name>, a: nat -> S)
    requires SameMeaning(sem, f, g, names) && SameMeaning(sem, g, h, later) && Solution(sem, f, a)
    ensures HasNew(sem, f, h, Composed(names, later), a)
  {
    hide Solution, Agree, Composed, SameMeaning;
    var b := NewOf(sem, f, g, names, a);
    var c := NewOf(sem, g, h, later, b);
    AgreeComposed(f, g, h, names, later, a, b, c);
  }

  lemma {:induction false} ComposeBackward<N(!new), E(!new), S(!new)>(sem: Sem<N, E, S>, f: Graph<N, E>, g: Graph<N, E>,
                                                                      h: Graph<N, E>,
                                                                     names: seq<Name>, later: seq<Name>, c: nat -> S)
    requires SameMeaning(sem, f, g, names) && SameMeaning(sem, g, h, later) && Solution(sem, h, c)
    ensures HasOld(sem, f, h, Composed(names, later), c)
  {
    hide Solution, Agree, Composed, SameMeaning;
    var b := OldOf(sem, g, h, later, c);
    var a := OldOf(sem, f, g, names, b);
    AgreeComposed(f, g, h, names, later, a, b, c);
  }

  lemma {:induction false} SameMeaningComposes<N(!new), E(!new), S(!new)>(sem: Sem<N, E, S>, f: Graph<N, E>, g: Graph<N, E>,
                                                                         h: Graph<N, E>, names: seq<Name>, later: seq<Name>)
    requires SameMeaning(sem, f, g, names) && SameMeaning(sem, g, h, later)
    ensures SameMeaning(sem, f, h, Composed(names, later))
  {
    hide Solution, HasNew, HasOld, Composed;
    forall a | Solution(sem, f, a)
      ensures HasNew(sem, f, h, Composed(names, later), a)
    {
      ComposeForward(sem, f, g, h, names, later, a);
    }
    forall c | Solution(sem, h, c)
      ensures HasOld(sem, f, h, Composed(names, later), c)
    {
      ComposeBackward(sem, f, g, h, names, later, c);
    }
  }

  lemma {:induction false} SameMeaningRefl<N(!new), E(!new), S(!new)>(sem: Sem<N, E, S>, g: Graph<N, E>)
    ensures SameMeaning(sem, g, g, SameNames(|g.nodes|))
  {
    hide Solution;
    forall out | Solution(sem, g, out)
      ensures HasNew(sem, g, g, SameNames(|g.nodes|), out) && HasOld(sem, g, g, SameNames(|g.nodes|), out)
    {
      assert Agree(g, g, SameNames(|g.nodes|), out, out);
    }
  }
}
