// The first n rows by sort key. Rows may tie: a selection is any n rows such that no row left
// out sorts before one that was taken. Selecting from selections is selecting from all rows.
module TopN {

  /** A row with its sort key; payloads tell rows with equal keys apart. */
  datatype Row = Row(sort: int, payload: int)

  function Min(a: nat, b: nat): nat {
    if a <= b then a else b
  }

  /** h is a selection of the first n of all. */
  ghost predicate IsTopN(h: multiset<Row>, all: multiset<Row>, n: nat) {
    && h <= all && |h| == Min(n, |all|)
    && forall x, y :: x in h && y in all - h ==> x.sort <= y.sort
  }

  // ---------- the heap ----------

  /** x is one of the rows that sort last. */
  ghost predicate IsLast(h: multiset<Row>, x: Row) {
    x in h && forall y :: y in h ==> y.sort <= x.sort
  }

  lemma {:induction false} SubsetSize(a: multiset<Row>, b: multiset<Row>)
    requires a <= b
    ensures |a| <= |b| && (|a| == |b| ==> a == b) && |b - a| == |b| - |a|
  {
    assert b == a + (b - a);
    if |b - a| == 0 {
      assert b - a == multiset{};
    }
  }

  /** Pushing a row, within the bound. */
  lemma {:induction false} PushKeeps(h: multiset<Row>, all: multiset<Row>, n: nat, x: Row)
    requires IsTopN(h, all, n) && |h| < n
    ensures IsTopN(h + multiset{x}, all + multiset{x}, n)
  {
    SubsetSize(h, all);
    assert h == all;
    assert (all + multiset{x}) - (h + multiset{x}) == multiset{};
  }

  /** Pushing a row and popping a last one, beyond the bound. */
  lemma {:induction false} PushPopKeeps(h: multiset<Row>, all: multiset<Row>, n: nat, x: Row, z: Row)
    requires IsTopN(h, all, n) && |h| == n && IsLast(h + multiset{x}, z)
    ensures IsTopN(h + multiset{x} - multiset{z}, all + multiset{x}, n)
  {
    var h', all' := h + multiset{x} - multiset{z}, all + multiset{x};
    assert h' <= all';
    SubsetSize(h, all);
    forall a, b | a in h' && b in all' - h'
      ensures a.sort <= b.sort
    {
      assert a in h + multiset{x};
      assert all'[b] - h'[b] > 0;
      assert b == z || b in all - h;
      if b in all - h && a !in h {
        assert a == x;
        Popped(h, x, z, a);
        assert z in h;
      }
    }
  }

  /** If the pushed row stays, a row that was there before is popped. */
  lemma {:induction false} Popped(h: multiset<Row>, x: Row, z: Row, a: Row)
    requires IsLast(h + multiset{x}, z) && a in h + multiset{x} - multiset{z} && a == x && a !in h
    ensures z in h && x.sort <= z.sort
  {
    assert (h + multiset{x})[x] == 1;
    assert z != x;
  }

  // ---------- shards ----------

  /** A multiset that is not contained in another of the same size misses one of its elements. */
  lemma {:induction false} Missing(t: multiset<Row>, h: multiset<Row>, x: Row) returns (z: Row)
    requires |t| == |h| && x in t && x !in h
    ensures z in h && t[z] < h[z]
  {
    if h <= t {
      assert h + multiset{x} <= t;
      SubsetSize(h + multiset{x}, t);
      assert false;
    }
    z :| z in h && t[z] < h[z];
  }

  /** A row that the selection of a shard left out sorts after every row of the final selection. */
  lemma {:induction false} LeftOutOfShard(t: multiset<Row>, h: multiset<Row>, other: multiset<Row>, all: multiset<Row>,
                                          n: nat,
                                         x: Row, y: Row)
    requires IsTopN(h, all, n) && IsTopN(t, h + other, n) && x in t && y in all - h
    ensures x.sort <= y.sort
  {
    SubsetSize(h, all);
    assert |all - h| > 0;
    assert |h| == n && |t| == n;
    if x !in h {
      var z := Missing(t, h, x);
      assert z in (h + other) - t;
    }
  }

  function Sum(shards: seq<multiset<Row>>): multiset<Row> {
    if shards == [] then multiset{} else Sum(shards[..|shards| - 1]) + shards[|shards| - 1]
  }

  ghost predicate EachTopN(hs: seq<multiset<Row>>, shards: seq<multiset<Row>>, n: nat) {
    |hs| == |shards| && forall k :: 0 <= k < |hs| ==> IsTopN(hs[k], shards[k], n)
  }

  lemma {:induction false} SumSizes(hs: seq<multiset<Row>>, shards: seq<multiset<Row>>, n: nat)
    requires EachTopN(hs, shards, n)
    ensures Sum(hs) <= Sum(shards) && Min(n, |Sum(hs)|) == Min(n, |Sum(shards)|)
    decreases |hs|
  {
    if hs != [] {
      var last := |hs| - 1;
      assert IsTopN(hs[last], shards[last], n);
      SumSizes(hs[..last], shards[..last], n);
      SubsetSize(hs[last], shards[last]);
      SubsetSize(Sum(hs[..last]), Sum(shards[..last]));
    }
  }

  lemma {:induction false} InSum(hs: seq<multiset<Row>>, i: nat)
    requires i < |hs|
    ensures hs[i] <= Sum(hs)
    decreases |hs|
  {
    if i < |hs| - 1 {
      InSum(hs[..|hs| - 1], i);
    }
  }

  /** A row that selection leaves out is left out in some shard. */
  lemma {:induction false} LeftOutSomewhere(hs: seq<multiset<Row>>, shards: seq<multiset<Row>>, y: Row) returns (i: nat)
    requires |hs| == |shards| && Sum(hs)[y] < Sum(shards)[y]
    ensures i < |hs| && hs[i][y] < shards[i][y]
    decreases |hs|
  {
    var last := |hs| - 1;
    if hs[last][y] < shards[last][y] {
      i := last;
    } else {
      i := LeftOutSomewhere(hs[..last], shards[..last], y);
    }
  }

  /** For any sharding, selecting from the selections of the shards selects from all rows. */
  lemma {:induction false} ShardsTopN(t: multiset<Row>, hs: seq<multiset<Row>>, shards: seq<multiset<Row>>, n: nat)
    requires EachTopN(hs, shards, n) && IsTopN(t, Sum(hs), n)
    ensures IsTopN(t, Sum(shards), n)
  {
    SumSizes(hs, shards, n);
    var all := Sum(shards);
    forall x, y | x in t && y in all - t
      ensures x.sort <= y.sort
    {
      if y !in Sum(hs) - t {
        assert all[y] > t[y] >= Sum(hs)[y];
        var i := LeftOutSomewhere(hs, shards, y);
        InSum(hs, i);
        var other := Sum(hs) - hs[i];
        assert Sum(hs) == hs[i] + other;
        assert y in shards[i] - hs[i];
        LeftOutOfShard(t, hs[i], other, shards[i], n, x, y);
      }
    }
  }

  lemma {:induction false} Last(h: multiset<Row>) returns (z: Row)
    requires |h| > 0
    ensures IsLast(h, z)
    decreases |h|
  {
    var x :| x in h;
    var rest := h - multiset{x};
    assert h == rest + multiset{x};
    if |rest| == 0 {
      z := x;
      assert rest == multiset{};
    } else {
      var y := Last(rest);
      z := if x.sort <= y.sort then y else x;
      forall w | w in h
        ensures w.sort <= z.sort
      {
        assert w == x || w in rest;
      }
    }
  }

  // ---------- strict orders ----------

  /** No two rows tie, and no row occurs twice. */
  ghost predicate Strict(all: multiset<Row>) {
    && (forall x, y :: x in all && y in all && x.sort == y.sort ==> x == y)
    && (forall x :: x in all ==> all[x] == 1)
  }

  /** Rows of all that sort no later than x: the row number of x if x is one of them. */
  ghost function RowNumber(all: multiset<Row>, x: Row): nat {
    |set y | y in all && y.sort <= x.sort|
  }

  ghost function RowsOf(h: multiset<Row>): set<Row> {
    set y | y in h
  }

  lemma {:induction false} SizeOfRows(h: multiset<Row>)
    requires forall x :: x in h ==> h[x] == 1
    ensures |RowsOf(h)| == |h|
    decreases |h|
  {
    if |h| == 0 {
      assert h == multiset{};
      assert RowsOf(h) == {};
    } else {
      var x :| x in h;
      var rest := h - multiset{x};
      assert h == rest + multiset{x};
      SizeOfRows(rest);
      assert RowsOf(h) == RowsOf(rest) + {x};
    }
  }

  lemma {:induction false} SetSize<T>(a: set<T>, b: set<T>)
    requires a <= b
    ensures |a| <= |b| && (|a| == |b| ==> a == b)
  {
    assert b == a + (b - a);
  }

  /** A selected row has the same row number among the selected rows as among all rows. */
  lemma {:induction false} SelectedRank(h: multiset<Row>, all: multiset<Row>, n: nat, x: Row)
    requires Strict(all) && IsTopN(h, all, n) && x in h
    ensures RowNumber(h, x) == RowNumber(all, x)
  {
    forall y | y in all && y.sort <= x.sort
      ensures y in h
    {
      assert y in h || y in all - h;
    }
    assert (set y | y in h && y.sort <= x.sort) == (set y | y in all && y.sort <= x.sort);
  }

  /** The row number of a selected row is at most n. */
  lemma {:induction false} RankIsSmall(h: multiset<Row>, all: multiset<Row>, n: nat, x: Row)
    requires Strict(all) && IsTopN(h, all, n) && x in h
    ensures 1 <= RowNumber(h, x) <= n
  {
    assert forall y :: y in h ==> h[y] == 1;
    SizeOfRows(h);
    var low := set y | y in h && y.sort <= x.sort;
    SetSize(low, RowsOf(h));
    assert {x} <= low;
    SetSize({x}, low);
  }

  /** A row that is not selected has a row number above n. */
  lemma {:induction false} LeftOutRank(h: multiset<Row>, all: multiset<Row>, n: nat, x: Row)
    requires Strict(all) && IsTopN(h, all, n) && x in all && x !in h
    ensures RowNumber(all, x) > n
  {
    assert x in all - h;
    SubsetSize(h, all);
    assert |all - h| > 0;
    assert |h| == n;
    assert forall y :: y in h ==> h[y] == 1;
    SizeOfRows(h);
    var low := set y | y in all && y.sort <= x.sort;
    assert RowsOf(h) + {x} <= low;
    SetSize(RowsOf(h) + {x}, low);
  }

  /** Under a strict order there is one selection only. */
  lemma {:induction false} SelectionIsUnique(h: multiset<Row>, k: multiset<Row>, all: multiset<Row>, n: nat)
    requires Strict(all) && IsTopN(h, all, n) && IsTopN(k, all, n)
    ensures h == k
  {
    forall x: Row
      ensures h[x] == k[x]
    {
      if x in h && x !in k {
        LeftOutRank(k, all, n, x);
        SelectedRank(h, all, n, x);
        RankIsSmall(h, all, n, x);
        assert false;
      }
      if x in k && x !in h {
        LeftOutRank(h, all, n, x);
        SelectedRank(k, all, n, x);
        RankIsSmall(k, all, n, x);
        assert false;
      }
      if x in h {
        assert all[x] == 1;
      }
    }
  }

  /** A row is selected exactly if its row number is at most n. */
  lemma {:induction false} SelectedIff(h: multiset<Row>, all: multiset<Row>, n: nat, x: Row)
    requires Strict(all) && IsTopN(h, all, n) && x in all
    ensures x in h <==> RowNumber(all, x) <= n
  {
    if x in h {
      SelectedRank(h, all, n, x);
      RankIsSmall(h, all, n, x);
    } else {
      LeftOutRank(h, all, n, x);
    }
  }
}
