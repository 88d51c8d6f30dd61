// What an operator with several inputs reads: some interleaving of the streams on its incoming
// edges. With it, every acyclic plan whose operators can answer every input has streams.
module Merging {
  import opened Digraphs
  import opened Dataflow

  // ---------- interleavings ----------

  /** z takes the records of all of the streams, each stream in its order. */
  ghost predicate Interleaves<R(!new)>(xs: seq<seq<R>>, z: seq<R>)
    decreases |z|
  {
    if z == [] then forall i :: 0 <= i < |xs| ==> xs[i] == []
    else exists i :: 0 <= i < |xs| && TakesLast(xs[i], z) && Interleaves(xs[i := xs[i][..|xs[i]| - 1]], z[..|z| - 1])
  }

  ghost predicate TakesLast<R(!new)>(x: seq<R>, z: seq<R>) {
    x != [] && z != [] && x[|x| - 1] == z[|z| - 1]
  }

  function StreamsOf<E, R>(arms: seq<(E, seq<R>)>): (xs: seq<seq<R>>)
    ensures |xs| == |arms|
  {
    seq(|arms|, i requires 0 <= i < |arms| => arms[i].1)
  }

  /** z is an interleaving of the inputs, whatever edges they come over. */
  ghost predicate Merges<E(!new), R(!new)>(ins: multiset<(E, seq<R>)>, z: seq<R>) {
    exists arms :: multiset(arms) == ins && Interleaves(StreamsOf(arms), z)
  }

  lemma {:induction false} OneInterleaves<R(!new)>(x: seq<R>, z: seq<R>)
    ensures Interleaves([x], z) <==> z == x
    decreases |z|
  {
    if z == [] {
      assert Interleaves([x], z) ==> [x][0] == [];
    } else if x != [] {
      var x', z' := x[..|x| - 1], z[..|z| - 1];
      OneInterleaves(x', z');
      var xs := [x];
      assert xs[0 := xs[0][..|xs[0]| - 1]] == [x'];
      assert x == x' + [x[|x| - 1]] && z == z' + [z[|z| - 1]];
      if z == x {
        assert TakesLast(xs[0], z);
      }
    } else {
      assert forall i :: 0 <= i < |[x]| ==> !TakesLast([x][i], z);
    }
  }

  lemma {:induction false} OnlyArm<T(!new)>(arms: seq<T>, a: T)
    requires multiset(arms) == multiset{a}
    ensures arms == [a]
  {
    assert |multiset(arms)| == |arms|;
    assert arms[0] in multiset(arms);
  }

  /** A single input is read as it is. */
  lemma {:induction false} OneStream<E(!new), R(!new)>(e: E, x: seq<R>, z: seq<R>)
    ensures Merges(multiset{(e, x)}, z) <==> z == x
  {
    var arm := [(e, x)];
    OneInterleaves(x, z);
    assert StreamsOf(arm) == [x];
    assert multiset(arm) == multiset{(e, x)};
    if Merges(multiset{(e, x)}, z) {
      var arms :| multiset(arms) == multiset{(e, x)} && Interleaves(StreamsOf(arms), z);
      OnlyArm(arms, (e, x));
    }
  }

  /** One more record at the end of one of the streams. */
  lemma {:induction false} TakeNext<R(!new)>(xs: seq<seq<R>>, i: nat, r: R, z: seq<R>)
    requires i < |xs| && Interleaves(xs, z)
    ensures Interleaves(xs[i := xs[i] + [r]], z + [r])
  {
    var more, all := xs[i := xs[i] + [r]], z + [r];
    assert all[..|all| - 1] == z && TakesLast(more[i], all);
    assert more[i][..|more[i]| - 1] == xs[i];
    assert more[i := more[i][..|more[i]| - 1]] == xs;
  }

  ghost function AllRecords<R(!new)>(xs: seq<seq<R>>): multiset<R> {
    if xs == [] then multiset{} else AllRecords(xs[..|xs| - 1]) + multiset(xs[|xs| - 1])
  }

  lemma {:induction false} RecordsWithout<R(!new)>(xs: seq<seq<R>>, i: nat)
    requires i < |xs| && xs[i] != []
    ensures AllRecords(xs) == AllRecords(xs[i := xs[i][..|xs[i]| - 1]]) + multiset{xs[i][|xs[i]| - 1]}
    decreases |xs|
  {
    var x, front := xs[i], xs[..|xs| - 1];
    assert x == x[..|x| - 1] + [x[|x| - 1]];
    if i < |front| {
      RecordsWithout(front, i);
      assert xs[i := x[..|x| - 1]][..|xs| - 1] == front[i := x[..|x| - 1]];
    } else {
      assert xs[i := x[..|x| - 1]][..|xs| - 1] == front;
    }
  }

  lemma {:induction false} NoRecords<R(!new)>(xs: seq<seq<R>>)
    requires forall i :: 0 <= i < |xs| ==> xs[i] == []
    ensures AllRecords(xs) == multiset{}
  {
    if xs != [] {
      NoRecords(xs[..|xs| - 1]);
    }
  }

  /** An interleaving has the records of all of the streams, and no others. */
  lemma {:induction false} InterleavingConserves<R(!new)>(xs: seq<seq<R>>, z: seq<R>)
    requires Interleaves(xs, z)
    ensures multiset(z) == AllRecords(xs)
    decreases |z|
  {
    if z == [] {
      NoRecords(xs);
    } else {
      var i :| 0 <= i < |xs| && TakesLast(xs[i], z) && Interleaves(xs[i := xs[i][..|xs[i]| - 1]], z[..|z| - 1]);
      InterleavingConserves(xs[i := xs[i][..|xs[i]| - 1]], z[..|z| - 1]);
      RecordsWithout(xs, i);
      assert z == z[..|z| - 1] + [z[|z| - 1]];
    }
  }

  ghost function Total<R(!new)>(xs: seq<seq<R>>): nat {
    if xs == [] then 0 else Total(xs[..|xs| - 1]) + |xs[|xs| - 1]|
  }

  lemma {:induction false} TotalLess<R(!new)>(xs: seq<seq<R>>, i: nat, y: seq<R>)
    requires i < |xs| && |y| < |xs[i]|
    ensures Total(xs[i := y]) < Total(xs)
    decreases |xs|
  {
    var front := xs[..|xs| - 1];
    if i < |front| {
      TotalLess(front, i, y);
      assert xs[i := y][..|xs| - 1] == front[i := y];
    } else {
      assert xs[i := y][..|xs| - 1] == front;
    }
  }

  /** Streams can be interleaved. */
  lemma {:induction false} SomeInterleaving<R(!new)>(xs: seq<seq<R>>) returns (z: seq<R>)
    ensures Interleaves(xs, z)
    decreases Total(xs)
  {
    if i :| 0 <= i < |xs| && xs[i] != [] {
      var x := xs[i];
      TotalLess(xs, i, x[..|x| - 1]);
      var z' := SomeInterleaving(xs[i := x[..|x| - 1]]);
      z := z' + [x[|x| - 1]];
      assert z[..|z| - 1] == z' && TakesLast(xs[i], z);
    } else {
      z := [];
    }
  }

  lemma {:induction false} SomeOrder<T(!new)>(m: multiset<T>) returns (s: seq<T>)
    ensures multiset(s) == m
    decreases |m|
  {
    if a :| a in m {
      var s' := SomeOrder(m - multiset{a});
      s := s' + [a];
      assert multiset(s) == multiset(s') + multiset{a};
    } else {
      s := [];
    }
  }

  lemma {:induction false} SomeMerge<E(!new), R(!new)>(ins: multiset<(E, seq<R>)>) returns (z: seq<R>)
    ensures Merges(ins, z)
  {
    var arms := SomeOrder(ins);
    z := SomeInterleaving(StreamsOf(arms));
  }

  // ---------- plans have streams ----------

  /** Operators that can answer every input. */
  ghost predicate Answers<N(!new), E(!new), S(!new)>(sem: Sem<N, E, S>) {
    forall n, ins :: CanAnswer(sem, n, ins)
  }

  ghost predicate CanAnswer<N(!new), E(!new), S(!new)>(sem: Sem<N, E, S>, n: N, ins: multiset<(E, S)>) {
    exists y :: NodeHolds(sem, n, ins, y)
  }

  ghost predicate Acyclic<N(!new), E(!new)>(g: Graph<N, E>, rank: nat -> nat) {
    forall e :: e in g.edges ==> rank(e.src) < rank(e.tgt)
  }

  /** The nodes of rank below r send what their operators may send. */
  ghost predicate SolvedBelow<N(!new), E(!new), S(!new)>(sem: Sem<N, E, S>, g: Graph<N, E>, rank: nat -> nat, r: nat,
                                                         out: nat -> S) {
    forall i: nat :: i < |g.nodes| && rank(i) < r ==> NodeHolds(sem, g.nodes[i], Feeds(g.edges, i, out), out(i))
  }

  ghost function Answer<N(!new), E(!new), S(!new)>(sem: Sem<N, E, S>, n: N, ins: multiset<(E, S)>): (y: S)
    requires Answers(sem)
    ensures NodeHolds(sem, n, ins, y)
  {
    assert CanAnswer(sem, n, ins);
    var y :| NodeHolds(sem, n, ins, y);
    y
  }

  ghost function NextRank<N(!new), E(!new), S(!new)>(sem: Sem<N, E, S>, g: Graph<N, E>, rank: nat -> nat, r: nat,
                                                     out: nat -> S): nat -> S
    requires Answers(sem)
  {
    (i: nat) => if i < |g.nodes| && rank(i) == r then Answer(sem, g.nodes[i], Feeds(g.edges, i, out)) else out(i)
  }

  lemma {:induction false} SolveRank<N(!new), E(!new), S(!new)>(sem: Sem<N, E, S>, g: Graph<N, E>, rank: nat -> nat, r: nat,
                                                                out: nat -> S)
    requires Answers(sem) && Acyclic(g, rank) && SolvedBelow(sem, g, rank, r, out)
    ensures SolvedBelow(sem, g, rank, r + 1, NextRank(sem, g, rank, r, out))
  {
    var out' := NextRank(sem, g, rank, r, out);
    hide Feeds;
    forall i: nat | i < |g.nodes| && rank(i) < r + 1
      ensures NodeHolds(sem, g.nodes[i], Feeds(g.edges, i, out'), out'(i))
    {
      forall k | 0 <= k < |g.edges| && g.edges[k].tgt == i
        ensures out'(g.edges[k].src) == out(g.edges[k].src)
      {
        var e := g.edges[k];
        assert e in g.edges;
      }
      FeedsAgree(g.edges, i, out', out);
    }
  }

  lemma {:induction false} SolveUpTo<N(!new), E(!new), S(!new)>(sem: Sem<N, E, S>, g: Graph<N, E>, rank: nat -> nat, r: nat,
                                                                some: S) returns (out: nat -> S)
    requires Answers(sem) && Acyclic(g, rank)
    ensures SolvedBelow(sem, g, rank, r, out)
  {
    hide *;
    if r == 0 {
      out := (i: nat) => some;
      NothingBelow(sem, g, rank, out);
    } else {
      var out' := SolveUpTo(sem, g, rank, r - 1, some);
      SolveRank(sem, g, rank, r - 1, out');
      out := NextRank(sem, g, rank, r - 1, out');
    }
  }

  lemma {:induction false} NothingBelow<N(!new), E(!new), S(!new)>(sem: Sem<N, E, S>, g: Graph<N, E>, rank: nat -> nat,
                                                                   out: nat -> S)
    ensures SolvedBelow(sem, g, rank, 0, out)
  {
  }

  lemma {:induction false} HighestRank(rank: nat -> nat, n: nat) returns (r: nat)
    ensures forall i: nat :: i < n ==> rank(i) < r
  {
    if n == 0 {
      r := 0;
    } else {
      var r' := HighestRank(rank, n - 1);
      r := if rank(n - 1) < r' then r' else rank(n - 1) + 1;
    }
  }

  /** An acyclic plan has streams. */
  lemma {:induction false} HasSolution<N(!new), E(!new), S(!new)>(sem: Sem<N, E, S>, g: Graph<N, E>, rank: nat -> nat,
                                                                  some: S) returns (out: nat -> S)
    requires Answers(sem) && Acyclic(g, rank)
    ensures Solution(sem, g, out)
  {
    var r := HighestRank(rank, |g.nodes|);
    out := SolveUpTo(sem, g, rank, r, some);
  }
}
