// The tumbling top-N operator: one bounded heap per bin and key, emptied when the watermark
// passes the bin, each row with its rank; and the rewrite that puts it before a filter on
// the row number.
module TopNWindow {
  import opened Messages
  import opened Expressions
  import opened MaxValue
  import opened Extremes
  import opened TopN
  import W = WindowSpec

  datatype Out = Out(bin: int, key: int, row: Row, rank: nat)

  /** Rows by key, and those by bin. */
  type Keyed = map<int, multiset<Row>>
  type Binned = map<int, Keyed>

  // ---------- emptying a heap ----------

  /** The rows popped so far, from the greatest rank down; the rows left sort before them. */
  ghost predicate Drained(heap: multiset<Row>, left: multiset<Row>, ranked: seq<(Row, nat)>) {
    && left <= heap && |ranked| == |heap| - |left|
    && (forall x, y :: x in left && y in heap - left ==> x.sort <= y.sort)
    && (forall x :: x in heap - left ==> IsRanked(ranked, x))
    && (forall i :: 0 <= i < |ranked| ==> RankIsRight(heap, ranked[i].0, ranked[i].1) && ranked[i].1 == |heap| - i)
  }

  ghost predicate IsRanked(ranked: seq<(Row, nat)>, x: Row) {
    exists i :: 0 <= i < |ranked| && ranked[i].0 == x
  }

  /** In a strict order, the rank of a row is its row number. */
  ghost predicate RankIsRight(heap: multiset<Row>, x: Row, rank: nat) {
    x in heap && (Strict(heap) ==> rank == RowNumber(heap, x))
  }

  /** In a strict order, the rank of the last row of what is left is the number of rows left. */
  lemma {:induction false} RankOfLast(heap: multiset<Row>, left: multiset<Row>, z: Row)
    requires Strict(heap) && left <= heap && IsLast(left, z)
    requires forall x, y :: x in left && y in heap - left ==> x.sort <= y.sort
    ensures RowNumber(heap, z) == |left|
  {
    assert forall y :: y in left ==> left[y] == 1;
    SizeOfRows(left);
    forall y | y in heap && y.sort <= z.sort
      ensures y in left
    {
      assert y in left || y in heap - left;
    }
    assert (set y | y in heap && y.sort <= z.sort) == RowsOf(left);
  }

  lemma {:induction false} DrainStep(heap: multiset<Row>, left: multiset<Row>, ranked: seq<(Row, nat)>, z: Row)
    requires Drained(heap, left, ranked) && IsLast(left, z)
    ensures Drained(heap, left - multiset{z}, ranked + [(z, |left|)])
  {
    var left', ranked' := left - multiset{z}, ranked + [(z, |left|)];
    if Strict(heap) {
      RankOfLast(heap, left, z);
    }
    forall x, y | x in left' && y in heap - left'
      ensures x.sort <= y.sort
    {
      assert y == z || y in heap - left;
    }
    forall x | x in heap - left'
      ensures IsRanked(ranked', x)
    {
      if x in heap - left {
        assert IsRanked(ranked, x);
        var i :| 0 <= i < |ranked| && ranked[i].0 == x;
        assert ranked'[i].0 == x;
      } else {
        assert ranked'[|ranked|].0 == x;
      }
    }
  }

  /** Pops the rows of a heap, last first, and numbers them downwards. */
  method Drain(heap: multiset<Row>) returns (ranked: seq<(Row, nat)>)
    ensures Drained(heap, multiset{}, ranked)
  {
    ranked := [];
    var left := heap;
    assert heap - heap == multiset{};
    while |left| > 0
      invariant Drained(heap, left, ranked)
      decreases |left|
    {
      ghost var last := Last(left);
      var z :| z in left && forall y <- left :: y.sort <= z.sort;
      DrainStep(heap, left, ranked, z);
      ranked := ranked + [(z, |left|)];
      left := left - multiset{z};
    }
    assert left == multiset{};
  }

  // ---------- the operator ----------

  function RowsAt(m: Keyed, key: int): multiset<Row> {
    if key in m then m[key] else multiset{}
  }

  function BinAt(m: Binned, bin: int): Keyed {
    if bin in m then m[bin] else map[]
  }

  function WithRow(m: Binned, bin: int, key: int, x: Row): Binned {
    m[bin := BinAt(m, bin)[key := RowsAt(BinAt(m, bin), key) + multiset{x}]]
  }

  /** Each heap holds the first n of the rows accepted for its key. */
  ghost predicate BinIsRight(n: nat, heaps: Keyed, rows: Keyed) {
    heaps.Keys == rows.Keys && forall k :: k in heaps ==> IsTopN(heaps[k], rows[k], n)
  }

  ghost predicate IsEarliest(heaps: Binned, earliest: Option<int>) {
    && (earliest.None? <==> heaps.Keys == {})
    && (earliest.Some? ==> earliest.value in heaps && forall b :: b in heaps ==> earliest.value <= b)
  }

  ghost predicate WindowInv(n: nat, width: nat, heaps: Binned, rows: Binned, earliest: Option<int>) {
    && heaps.Keys == rows.Keys && IsEarliest(heaps, earliest)
    && forall b :: b in heaps ==> BinHolds(n, width, heaps, rows, b)
  }

  ghost predicate BinHolds(n: nat, width: nat, heaps: Binned, rows: Binned, b: int)
    requires b in heaps && b in rows
  {
    b >= 0 && W.TumblingBin(width, b) == b && BinIsRight(n, heaps[b], rows[b])
  }

  /** A record of the output is right: among the rows of its key it has its row number, at most n. */
  ghost predicate OutIsRight(n: nat, rows: Keyed, o: Out) {
    && o.key in rows && o.row in rows[o.key]
    && (Strict(rows[o.key]) ==> o.rank == RowNumber(rows[o.key], o.row) && 1 <= o.rank <= n)
  }

  ghost predicate IsOut(out: seq<Out>, bin: int, key: int, x: Row) {
    exists i :: 0 <= i < |out| && out[i].bin == bin && out[i].key == key && out[i].row == x
  }

  /** Of a bin exactly the rows with row number at most n are emitted, each with its number. */
  ghost predicate BinEmitted(n: nat, bin: int, rows: Keyed, out: seq<Out>) {
    && (forall i :: 0 <= i < |out| && out[i].bin == bin ==> OutIsRight(n, rows, out[i]))
    && (forall k, x :: k in rows && x in rows[k] && Strict(rows[k]) && RowNumber(rows[k], x) <= n ==> IsOut(out, bin, k, x))
  }

  lemma {:induction false} InsertHeap(n: nat, h: multiset<Row>, all: multiset<Row>, x: Row, z: Row)
    requires IsTopN(h, all, n) && (|h| == n ==> IsLast(h + multiset{x}, z))
    ensures IsTopN(if |h| < n then h + multiset{x} else h + multiset{x} - multiset{z}, all + multiset{x}, n)
  {
    if |h| < n {
      PushKeeps(h, all, n, x);
    } else {
      PushPopKeeps(h, all, n, x, z);
    }
  }

  lemma {:induction false} InsertKeeps(n: nat, width: nat, heaps: Binned, rows: Binned, earliest: Option<int>, ts: nat,
                                       key: int, x: Row,
                                      h: multiset<Row>)
    requires WindowInv(n, width, heaps, rows, earliest)
    requires IsTopN(h, RowsAt(BinAt(rows, W.TumblingBin(width, ts)), key) + multiset{x}, n)
    ensures var bin := W.TumblingBin(width, ts);
            WindowInv(n, width, heaps[bin := BinAt(heaps, bin)[key := h]], WithRow(rows, bin, key, x),
                      Some(if earliest.Some? && earliest.value <= bin then earliest.value else bin))
  {
    var bin := W.TumblingBin(width, ts);
    W.TumblingBinOfBin(width, ts);
    hide IsTopN;
    var heaps', rows' := heaps[bin := BinAt(heaps, bin)[key := h]], WithRow(rows, bin, key, x);
    assert bin in heaps ==> BinHolds(n, width, heaps, rows, bin);
    assert BinIsRight(n, heaps'[bin], rows'[bin]);
    assert heaps'.Keys == rows'.Keys;
    forall b | b in heaps'
      ensures BinHolds(n, width, heaps', rows', b)
    {
      if b != bin {
        assert BinHolds(n, width, heaps, rows, b);
      }
    }
  }

  lemma {:induction false} AtIsTopN(n: nat, width: nat, heaps: Binned, rows: Binned, earliest: Option<int>, bin: int,
                                    key: int)
    requires WindowInv(n, width, heaps, rows, earliest)
    ensures IsTopN(RowsAt(BinAt(heaps, bin), key), RowsAt(BinAt(rows, bin), key), n)
  {
    if bin in heaps {
      assert BinHolds(n, width, heaps, rows, bin);
    }
  }

  // ---------- emission ----------

  lemma {:induction false} StrictPart(h: multiset<Row>, all: multiset<Row>)
    requires h <= all && Strict(all)
    ensures Strict(h)
  {
    forall x | x in h
      ensures h[x] == 1
    {
      assert all[x] == 1;
    }
  }

  /** A popped row has its row number among all rows of its key. */
  lemma {:induction false} PoppedIsRight(n: nat, rows: Keyed, heap: multiset<Row>, o: Out)
    requires o.key in rows && IsTopN(heap, rows[o.key], n) && RankIsRight(heap, o.row, o.rank)
    ensures OutIsRight(n, rows, o)
  {
    var all := rows[o.key];
    if Strict(all) {
      StrictPart(heap, all);
      SelectedRank(heap, all, n, o.row);
      RankIsSmall(heap, all, n, o.row);
    }
  }

  /** Everything in the heaps of the keys in done is in out, and nothing else is. */
  ghost predicate KeysEmitted(n: nat, bin: int, heaps: Keyed, rows: Keyed, done: set<int>, out: seq<Out>) {
    && (forall i :: 0 <= i < |out| ==> out[i].bin == bin && OutIsRight(n, rows, out[i]))
    && (forall k, x :: k in done && k in heaps && x in heaps[k] ==> IsOut(out, bin, k, x))
    && (forall k :: k in done && k in heaps && |heaps[k]| > 0 ==> FirstOut(out, bin, k, heaps[k]))
  }

  /** x is out with rank one. */
  ghost predicate RankOne(out: seq<Out>, bin: int, key: int, x: Row) {
    exists i :: 0 <= i < |out| && out[i] == Out(bin, key, x, 1)
  }

  ghost predicate FirstOut(out: seq<Out>, bin: int, key: int, rows: multiset<Row>) {
    exists x :: x in rows && RankOne(out, bin, key, x)
  }

  lemma {:induction false} RankOneMore(out: seq<Out>, more: seq<Out>, bin: int, key: int, x: Row)
    requires RankOne(out, bin, key, x) || RankOne(more, bin, key, x)
    ensures RankOne(out + more, bin, key, x)
  {
    if RankOne(out, bin, key, x) {
      var i :| 0 <= i < |out| && out[i] == Out(bin, key, x, 1);
      assert (out + more)[i] == out[i];
    } else {
      var i :| 0 <= i < |more| && more[i] == Out(bin, key, x, 1);
      assert (out + more)[|out| + i] == more[i];
    }
  }

  lemma {:induction false} FirstOutMore(out: seq<Out>, more: seq<Out>, bin: int, key: int, rows: multiset<Row>)
    requires FirstOut(out, bin, key, rows) || FirstOut(more, bin, key, rows)
    ensures FirstOut(out + more, bin, key, rows)
  {
    if FirstOut(out, bin, key, rows) {
      var x :| x in rows && RankOne(out, bin, key, x);
      RankOneMore(out, more, bin, key, x);
    } else {
      var x :| x in rows && RankOne(more, bin, key, x);
      RankOneMore(out, more, bin, key, x);
    }
  }

  /** The row popped last has rank one. */
  lemma {:induction false} LastPopped(heap: multiset<Row>, ranked: seq<(Row, nat)>, bin: int, key: int)
    requires Drained(heap, multiset{}, ranked) && |heap| > 0
    ensures FirstOut(Labelled(bin, key, ranked), bin, key, heap)
  {
    var i := |ranked| - 1;
    var more := Labelled(bin, key, ranked);
    assert RankIsRight(heap, ranked[i].0, ranked[i].1) && ranked[i].1 == 1;
    assert more[i] == Out(bin, key, ranked[i].0, 1);
    assert RankOne(more, bin, key, ranked[i].0);
  }

  function Labelled(bin: int, key: int, ranked: seq<(Row, nat)>): (r: seq<Out>)
    ensures |r| == |ranked| && forall i :: 0 <= i < |r| ==> r[i] == Out(bin, key, ranked[i].0, ranked[i].1)
  {
    seq(|ranked|, i requires 0 <= i < |ranked| => Out(bin, key, ranked[i].0, ranked[i].1))
  }

  lemma {:induction false} StillOut(out: seq<Out>, more: seq<Out>, bin: int, key: int, x: Row)
    requires IsOut(out, bin, key, x)
    ensures IsOut(out + more, bin, key, x)
  {
    var i :| 0 <= i < |out| && out[i].bin == bin && out[i].key == key && out[i].row == x;
    assert (out + more)[i] == out[i];
  }

  lemma {:induction false} NewlyOut(out: seq<Out>, ranked: seq<(Row, nat)>, bin: int, key: int, x: Row)
    requires IsRanked(ranked, x)
    ensures IsOut(out + Labelled(bin, key, ranked), bin, key, x)
  {
    var i :| 0 <= i < |ranked| && ranked[i].0 == x;
    assert (out + Labelled(bin, key, ranked))[|out| + i] == Labelled(bin, key, ranked)[i];
  }

  lemma {:induction false} KeyEmitted(n: nat, bin: int, heaps: Keyed, rows: Keyed, done: set<int>, out: seq<Out>, key: int,
                                     ranked: seq<(Row, nat)>)
    requires KeysEmitted(n, bin, heaps, rows, done, out) && BinIsRight(n, heaps, rows)
    requires key in heaps && Drained(heaps[key], multiset{}, ranked)
    ensures KeysEmitted(n, bin, heaps, rows, done + {key}, out + Labelled(bin, key, ranked))
  {
    var more := Labelled(bin, key, ranked);
    var out' := out + more;
    hide IsTopN, IsOut;
    forall i | 0 <= i < |out'|
      ensures out'[i].bin == bin && OutIsRight(n, rows, out'[i])
    {
      if i >= |out| {
        assert out'[i] == more[i - |out|];
        assert RankIsRight(heaps[key], ranked[i - |out|].0, ranked[i - |out|].1);
        PoppedIsRight(n, rows, heaps[key], out'[i]);
      }
    }
    forall k, x | k in done + {key} && k in heaps && x in heaps[k]
      ensures IsOut(out', bin, k, x)
    {
      if k in done {
        StillOut(out, more, bin, k, x);
      } else {
        assert x in heaps[key] - multiset{};
        NewlyOut(out, ranked, bin, key, x);
      }
    }
    forall k | k in done + {key} && k in heaps && |heaps[k]| > 0
      ensures FirstOut(out', bin, k, heaps[k])
    {
      if k !in done {
        LastPopped(heaps[key], ranked, bin, key);
      }
      FirstOutMore(out, more, bin, k, heaps[k]);
    }
  }

  /** Once all keys are emitted, exactly the rows with small row numbers are. */
  lemma {:induction false} AllKeysEmitted(n: nat, bin: int, heaps: Keyed, rows: Keyed, out: seq<Out>)
    requires KeysEmitted(n, bin, heaps, rows, heaps.Keys, out) && BinIsRight(n, heaps, rows)
    ensures BinEmitted(n, bin, rows, out) && (n > 0 ==> FirstsOut(bin, rows, out))
  {
    forall k, x | k in rows && x in rows[k] && Strict(rows[k]) && RowNumber(rows[k], x) <= n
      ensures IsOut(out, bin, k, x)
    {
      SelectedIff(heaps[k], rows[k], n, x);
    }
    if n > 0 {
      forall k | k in rows && |rows[k]| > 0
        ensures FirstOut(out, bin, k, rows[k])
      {
        assert IsTopN(heaps[k], rows[k], n);
        assert FirstOut(out, bin, k, heaps[k]);
        var x :| x in heaps[k] && RankOne(out, bin, k, x);
        assert x in rows[k];
      }
    }
  }

  /** Every key with rows has one of them out with rank one. */
  ghost predicate FirstsOut(bin: int, rows: Keyed, out: seq<Out>) {
    forall k :: k in rows && |rows[k]| > 0 ==> FirstOut(out, bin, k, rows[k])
  }

  /** The records of one bin: the rows of every key, popped from its heap. */
  method EmitBin(n: nat, bin: int, heaps: Keyed, ghost rows: Keyed) returns (out: seq<Out>)
    requires BinIsRight(n, heaps, rows)
    ensures BinEmitted(n, bin, rows, out) && forall i :: 0 <= i < |out| ==> out[i].bin == bin
    ensures n > 0 ==> FirstsOut(bin, rows, out)
  {
    hide BinIsRight, Drained;
    out := [];
    var rest := heaps.Keys;
    while rest != {}
      invariant rest <= heaps.Keys && KeysEmitted(n, bin, heaps, rows, heaps.Keys - rest, out)
      decreases |rest|
    {
      ghost var some := SomeElement(rest);
      var k :| k in rest;
      var ranked := Drain(heaps[k]);
      KeyEmitted(n, bin, heaps, rows, heaps.Keys - rest, out, k, ranked);
      assert heaps.Keys - rest + {k} == heaps.Keys - (rest - {k});
      out := out + Labelled(bin, k, ranked);
      rest := rest - {k};
    }
    assert heaps.Keys - rest == heaps.Keys;
    AllKeysEmitted(n, bin, heaps, rows, out);
  }

  /** The bins that are gone have been emitted, each once and with all its rows; the others are as before. */
  ghost predicate Progress(n: nat, before: Binned, after: Binned, out: seq<Out>) {
    && after.Keys <= before.Keys && (forall b :: b in after ==> after[b] == before[b])
    && (forall b :: b in before && b !in after ==> BinEmitted(n, b, before[b], out))
    && (forall i :: 0 <= i < |out| ==> out[i].bin in before && out[i].bin !in after)
  }

  lemma {:induction false} NoProgress(n: nat, before: Binned)
    ensures Progress(n, before, before, [])
  {
  }

  lemma {:induction false} OtherBin(n: nat, b: int, rows: Keyed, out: seq<Out>, more: seq<Out>)
    requires BinEmitted(n, b, rows, out) && forall i :: 0 <= i < |more| ==> more[i].bin != b
    ensures BinEmitted(n, b, rows, out + more)
  {
    hide OutIsRight, IsOut;
    forall k, x | k in rows && x in rows[k] && Strict(rows[k]) && RowNumber(rows[k], x) <= n
      ensures IsOut(out + more, b, k, x)
    {
      StillOut(out, more, b, k, x);
    }
  }

  lemma {:induction false} ThisBin(n: nat, b: int, rows: Keyed, out: seq<Out>, more: seq<Out>)
    requires BinEmitted(n, b, rows, more) && forall i :: 0 <= i < |out| ==> out[i].bin != b
    ensures BinEmitted(n, b, rows, out + more)
  {
    hide OutIsRight;
    forall k, x | k in rows && x in rows[k] && Strict(rows[k]) && RowNumber(rows[k], x) <= n
      ensures IsOut(out + more, b, k, x)
    {
      assert IsOut(more, b, k, x);
      var i :| 0 <= i < |more| && more[i].bin == b && more[i].key == k && more[i].row == x;
      assert (out + more)[|out| + i] == more[i];
    }
  }

  lemma {:induction false} ProgressStep(n: nat, before: Binned, after: Binned, out: seq<Out>, b: int, more: seq<Out>)
    requires Progress(n, before, after, out) && b in after
    requires BinEmitted(n, b, after[b], more) && forall i :: 0 <= i < |more| ==> more[i].bin == b
    ensures Progress(n, before, after - {b}, out + more)
  {
    hide BinEmitted;
    forall c | c in before && c !in after - {b}
      ensures BinEmitted(n, c, before[c], out + more)
    {
      if c == b {
        ThisBin(n, b, before[b], out, more);
      } else {
        OtherBin(n, c, before[c], out, more);
      }
    }
  }

  lemma {:induction false} RemoveKeeps(n: nat, width: nat, heaps: Binned, rows: Binned, earliest: Option<int>, b: int,
                                       next: Option<int>)
    requires WindowInv(n, width, heaps, rows, earliest) && b in heaps && IsEarliest(heaps - {b}, next)
    ensures b in rows && BinIsRight(n, heaps[b], rows[b])
    ensures WindowInv(n, width, heaps - {b}, rows - {b}, next)
  {
    assert BinHolds(n, width, heaps, rows, b);
    forall c | c in heaps - {b}
      ensures BinHolds(n, width, heaps - {b}, rows - {b}, c)
    {
      assert BinHolds(n, width, heaps, rows, c);
    }
  }

  lemma {:induction false} EarliestBin(n: nat, width: nat, heaps: Binned, rows: Binned, earliest: Option<int>)
    requires WindowInv(n, width, heaps, rows, earliest) && earliest.Some?
    ensures earliest.value in heaps && earliest.value >= 0 && W.TumblingBin(width, earliest.value) == earliest.value
  {
    assert BinHolds(n, width, heaps, rows, earliest.value);
  }

  // ---------- the whole history of a bin and a key ----------

  ghost function PairRows(m: Binned, b: int, k: int): multiset<Row> {
    RowsAt(BinAt(m, b), k)
  }

  ghost predicate PairOut(out: seq<Out>, b: int, k: int) {
    exists i :: 0 <= i < |out| && out[i].bin == b && out[i].key == k
  }

  /** Of the rows exactly those with row number at most n are out, each with its number. */
  ghost predicate PairEmitted(n: nat, b: int, k: int, rows: multiset<Row>, out: seq<Out>) {
    && (forall i :: 0 <= i < |out| && out[i].bin == b && out[i].key == k ==>
          && out[i].row in rows
          && (Strict(rows) ==> out[i].rank == RowNumber(rows, out[i].row) && 1 <= out[i].rank <= n))
    && (forall x :: x in rows && Strict(rows) && RowNumber(rows, x) <= n ==> IsOut(out, b, k, x))
  }

  /** Two of the rows are out with rank one. */
  ghost predicate TwoFirsts(out: seq<Out>, b: int, k: int, rows: multiset<Row>) {
    exists x, y :: multiset{x, y} <= rows && RankOne(out, b, k, x) && RankOne(out, b, k, y)
  }

  /** One of the rows that are not pending is out with rank one. */
  ghost predicate OneFirst(out: seq<Out>, b: int, k: int, pending: multiset<Row>, rows: multiset<Row>) {
    exists x :: pending + multiset{x} <= rows && RankOne(out, b, k, x)
  }

  /**
   * What is out of all the rows accepted for a bin and a key, when some are pending: as it
   * should be, or, if rows came again after the first were out, two rows of rank one sooner or later.
   */
  ghost predicate PairInv(n: nat, b: int, k: int, pending: multiset<Row>, rows: multiset<Row>, out: seq<Out>, again: bool) {
    && pending <= rows
    && (!again && pending == multiset{} ==> PairEmitted(n, b, k, rows, out))
    && (!again && pending != multiset{} ==> pending == rows && !PairOut(out, b, k))
    && (n > 0 && pending == multiset{} && rows != multiset{} ==> FirstOut(out, b, k, rows))
    && (n > 0 && again ==>
          TwoFirsts(out, b, k, rows) || (pending != multiset{} && OneFirst(out, b, k, pending, rows)))
  }

  ghost predicate HistoryInv(n: nat, pending: Binned, rows: Binned, out: seq<Out>, reopened: set<(int, int)>) {
    forall b, k :: PairInv(n, b, k, PairRows(pending, b, k), PairRows(rows, b, k), out, (b, k) in reopened)
  }

  /** A row comes for a bin and a key that are already out. */
  ghost predicate ComesAgain(pending: Binned, rows: Binned, b: int, k: int) {
    PairRows(pending, b, k) == multiset{} && PairRows(rows, b, k) != multiset{}
  }

  lemma {:induction false} PairAccepts(n: nat, b: int, k: int, pending: multiset<Row>, rows: multiset<Row>, out: seq<Out>,
                                       again: bool, x: Row)
    requires PairInv(n, b, k, pending, rows, out, again)
    ensures PairInv(n, b, k, pending + multiset{x}, rows + multiset{x}, out,
                    again || (pending == multiset{} && rows != multiset{}))
  {
    hide Strict, RowNumber;
    var pending', rows' := pending + multiset{x}, rows + multiset{x};
    assert x in pending';
    if n > 0 && pending == multiset{} && rows != multiset{} {
      var z :| z in rows && RankOne(out, b, k, z);
      assert pending' + multiset{z} <= rows';
    } else if n > 0 && again {
      if TwoFirsts(out, b, k, rows) {
        var y, z :| multiset{y, z} <= rows && RankOne(out, b, k, y) && RankOne(out, b, k, z);
        assert multiset{y, z} <= rows';
      } else {
        var z :| pending + multiset{z} <= rows && RankOne(out, b, k, z);
        assert pending' + multiset{z} <= rows';
      }
    }
  }

  lemma {:induction false} WithRowIs(m: Binned, b: int, k: int, x: Row, b': int, k': int)
    ensures PairRows(WithRow(m, b, k, x), b', k')
         == if b' == b && k' == k then PairRows(m, b, k) + multiset{x} else PairRows(m, b', k')
  {
  }

  lemma {:induction false} HistoryAccepts(n: nat, pending: Binned, rows: Binned, out: seq<Out>, reopened: set<(int, int)>,
                                          b: int, k: int, x: Row)
    requires HistoryInv(n, pending, rows, out, reopened)
    ensures HistoryInv(n, WithRow(pending, b, k, x), WithRow(rows, b, k, x), out,
                       if ComesAgain(pending, rows, b, k) then reopened + {(b, k)} else reopened)
  {
    assert ComesAgain(pending, rows, b, k) <==> PairRows(pending, b, k) == multiset{} && PairRows(rows, b, k) != multiset{};
    hide PairInv, PairRows, WithRow, ComesAgain;
    var reopened' := if ComesAgain(pending, rows, b, k) then reopened + {(b, k)} else reopened;
    forall b', k'
      ensures PairInv(n, b', k', PairRows(WithRow(pending, b, k, x), b', k'), PairRows(WithRow(rows, b, k, x), b', k'), out,
                      (b', k') in reopened')
    {
      assert PairInv(n, b', k', PairRows(pending, b', k'), PairRows(rows, b', k'), out, (b', k') in reopened);
      WithRowIs(pending, b, k, x, b', k');
      WithRowIs(rows, b, k, x, b', k');
      if b' == b && k' == k {
        PairAccepts(n, b, k, PairRows(pending, b, k), PairRows(rows, b, k), out, (b, k) in reopened, x);
      }
    }
  }

  /** What is out of a bin is out of each of its keys. */
  lemma {:induction false} PairOfBin(n: nat, b: int, k: int, rows: Keyed, more: seq<Out>)
    requires BinEmitted(n, b, rows, more)
    ensures PairEmitted(n, b, k, RowsAt(rows, k), more)
    ensures k !in rows ==> !PairOut(more, b, k)
  {
    hide Strict, RowNumber;
    forall i | 0 <= i < |more| && more[i].bin == b && more[i].key == k
      ensures k in rows && more[i].row in rows[k]
              && (Strict(rows[k]) ==> more[i].rank == RowNumber(rows[k], more[i].row) && 1 <= more[i].rank <= n)
    {
      assert OutIsRight(n, rows, more[i]);
    }
  }

  /** The rows of a pair are out for the first time. */
  lemma {:induction false} PairFirstTime(n: nat, b: int, k: int, rows: multiset<Row>, out: seq<Out>, more: seq<Out>)
    requires !PairOut(out, b, k) && PairEmitted(n, b, k, rows, more)
    ensures PairEmitted(n, b, k, rows, out + more)
  {
    hide Strict, RowNumber;
    var all := out + more;
    assert forall i :: 0 <= i < |out| ==> all[i] == out[i] && (out[i].bin != b || out[i].key != k);
    assert forall i :: |out| <= i < |all| ==> all[i] == more[i - |out|];
    forall x | x in rows && Strict(rows) && RowNumber(rows, x) <= n
      ensures IsOut(all, b, k, x)
    {
      assert IsOut(more, b, k, x);
      var i :| 0 <= i < |more| && more[i].bin == b && more[i].key == k && more[i].row == x;
      assert all[|out| + i] == more[i];
    }
  }

  /** Records of other pairs change nothing. */
  lemma {:induction false} PairUntouched(n: nat, b: int, k: int, pending: multiset<Row>, rows: multiset<Row>, out: seq<Out>,
                                         more: seq<Out>, again: bool)
    requires PairInv(n, b, k, pending, rows, out, again) && !PairOut(more, b, k)
    ensures PairInv(n, b, k, pending, rows, out + more, again)
  {
    hide Strict, RowNumber;
    var all := out + more;
    assert forall i :: 0 <= i < |all| ==> all[i] == if i < |out| then out[i] else more[i - |out|];
    if !again && pending == multiset{} {
      forall x | x in rows && Strict(rows) && RowNumber(rows, x) <= n
        ensures IsOut(all, b, k, x)
      {
        StillOut(out, more, b, k, x);
      }
    }
    if n > 0 && pending == multiset{} && rows != multiset{} {
      FirstOutMore(out, more, b, k, rows);
    }
    if n > 0 && again {
      FirstsStay(b, k, pending, rows, out, more);
    }
  }

  lemma {:induction false} FirstsStay(b: int, k: int, pending: multiset<Row>, rows: multiset<Row>, out: seq<Out>,
                                      more: seq<Out>)
    ensures TwoFirsts(out, b, k, rows) ==> TwoFirsts(out + more, b, k, rows)
    ensures OneFirst(out, b, k, pending, rows) ==> OneFirst(out + more, b, k, pending, rows)
  {
    hide RankOne;
    if TwoFirsts(out, b, k, rows) {
      var x, y :| multiset{x, y} <= rows && RankOne(out, b, k, x) && RankOne(out, b, k, y);
      RankOneMore(out, more, b, k, x);
      RankOneMore(out, more, b, k, y);
    }
    if OneFirst(out, b, k, pending, rows) {
      var x :| pending + multiset{x} <= rows && RankOne(out, b, k, x);
      RankOneMore(out, more, b, k, x);
    }
  }

  /** What is pending of a pair gets out. */
  lemma {:induction false} PairEmits(n: nat, b: int, k: int, pending: multiset<Row>, rows: multiset<Row>, out: seq<Out>,
                                     more: seq<Out>, again: bool)
    requires PairInv(n, b, k, pending, rows, out, again) && pending != multiset{}
    requires PairEmitted(n, b, k, pending, more) && (n > 0 ==> FirstOut(more, b, k, pending))
    ensures PairInv(n, b, k, multiset{}, rows, out + more, again)
  {
    hide PairEmitted, RankOne, PairOut;
    if !again {
      PairFirstTime(n, b, k, rows, out, more);
    }
    if n > 0 {
      var y :| y in pending && RankOne(more, b, k, y);
      assert y in rows;
      RankOneMore(out, more, b, k, y);
      if again {
        FirstsStay(b, k, pending, rows, out, more);
        if OneFirst(out, b, k, pending, rows) {
          var x :| pending + multiset{x} <= rows && RankOne(out, b, k, x);
          RankOneMore(out, more, b, k, x);
          assert multiset{x, y} <= rows;
        }
      }
    }
  }

  lemma {:induction false} HistoryEmits(n: nat, pending: Binned, rows: Binned, out: seq<Out>, reopened: set<(int, int)>,
                                        b: int, more: seq<Out>)
    requires HistoryInv(n, pending, rows, out, reopened) && b in pending
    requires BinEmitted(n, b, pending[b], more) && (n > 0 ==> FirstsOut(b, pending[b], more))
    requires forall i :: 0 <= i < |more| ==> more[i].bin == b
    ensures HistoryInv(n, pending - {b}, rows, out + more, reopened)
  {
    hide PairInv, BinEmitted, PairEmitted;
    forall b', k
      ensures PairInv(n, b', k, PairRows(pending - {b}, b', k), PairRows(rows, b', k), out + more, (b', k) in reopened)
    {
      var before, all, again := PairRows(pending, b', k), PairRows(rows, b', k), (b', k) in reopened;
      assert PairInv(n, b', k, before, all, out, again);
      if b' != b {
        PairUntouched(n, b', k, before, all, out, more, again);
      } else {
        PairOfBin(n, b, k, pending[b], more);
        if before == multiset{} {
          NoPending(n, b, k, more);
          PairUntouched(n, b, k, before, all, out, more, again);
        } else {
          assert k in pending[b] && |pending[b][k]| > 0;
          PairEmits(n, b, k, before, all, out, more, again);
        }
      }
    }
  }

  lemma {:induction false} NoPending(n: nat, b: int, k: int, more: seq<Out>)
    requires PairEmitted(n, b, k, multiset{}, more)
    ensures !PairOut(more, b, k)
  {
  }

  /** Two rows of rank one cannot both have their row number. */
  lemma {:induction false} TwoFirstsAreWrong(n: nat, b: int, k: int, rows: multiset<Row>, out: seq<Out>)
    requires Strict(rows) && TwoFirsts(out, b, k, rows)
    ensures !PairEmitted(n, b, k, rows, out)
  {
    var x, y :| multiset{x, y} <= rows && RankOne(out, b, k, x) && RankOne(out, b, k, y);
    assert x in multiset{x, y} && y in multiset{x, y};
    assert x != y by {
      assert multiset{x, x}[x] == 2;
      assert rows[x] == 1;
    }
    if RowNumber(rows, x) == 1 && RowNumber(rows, y) == 1 {
      FirstIsUnique(rows, x, y);
      FirstIsUnique(rows, y, x);
    }
  }

  lemma {:induction false} FirstIsUnique(rows: multiset<Row>, x: Row, y: Row)
    requires x in rows && y in rows && RowNumber(rows, x) == 1
    ensures y.sort <= x.sort ==> y == x
  {
    var low := set z | z in rows && z.sort <= x.sort;
    if y.sort <= x.sort {
      assert {x, y} <= low;
      SetSize({x, y}, low);
    }
  }

  class TumblingTopN {
    const width: nat
    const maxElements: nat
    var heaps: Binned
    var earliest: Option<int>
    ghost var rows: Binned                 // the rows accepted and not yet emitted
    ghost var all: Binned                  // all rows accepted
    ghost var output: seq<Out>             // all records emitted
    ghost var reopened: set<(int, int)>    // bins and keys that rows were accepted for once they were out

    ghost predicate Valid()
      reads this
    {
      WindowInv(maxElements, width, heaps, rows, earliest) && HistoryInv(maxElements, rows, all, output, reopened)
    }

    constructor (width: nat, maxElements: nat)
      ensures Valid() && this.width == width && this.maxElements == maxElements
      ensures rows == all == map[] && output == [] && reopened == {}
    {
      this.width, this.maxElements := width, maxElements;
      heaps, earliest, rows := map[], None, map[];
      all, output, reopened := map[], [], {};
    }

    /** Accepts a row unless its bin is before that of the watermark. */
    method Insert(key: int, timestamp: nat, x: Row, watermark: Option<nat>)
      requires Valid()
      modifies this
      ensures Valid()
      ensures var bin := W.TumblingBin(width, timestamp);
              if watermark.Some? && bin < W.TumblingBin(width, watermark.value) then
                rows == old(rows) && all == old(all) && reopened == old(reopened)
              else
                && rows == WithRow(old(rows), bin, key, x) && all == WithRow(old(all), bin, key, x)
                && reopened == old(reopened) + if ComesAgain(old(rows), old(all), bin, key) then {(bin, key)} else {}
      ensures output == old(output)
    {
      hide WindowInv, IsTopN, BinIsRight, HistoryInv, WithRow, ComesAgain;
      var bin := W.TumblingBin(width, timestamp);
      if watermark.Some? && bin < W.TumblingBin(width, watermark.value) {
        return;
      }
      AtIsTopN(maxElements, width, heaps, rows, earliest, bin, key);
      var heap := RowsAt(BinAt(heaps, bin), key);
      ghost var seen := RowsAt(BinAt(rows, bin), key);
      var pushed := heap + multiset{x};
      var kept := pushed;
      TopNSize(heap, seen, maxElements);
      if |pushed| > maxElements {
        ghost var last := Last(pushed);
        var z :| z in pushed && forall y <- pushed :: y.sort <= z.sort;
        InsertHeap(maxElements, heap, seen, x, z);
        kept := pushed - multiset{z};
      } else {
        InsertHeap(maxElements, heap, seen, x, x);
      }
      InsertKeeps(maxElements, width, heaps, rows, earliest, timestamp, key, x, kept);
      HistoryAccepts(maxElements, rows, all, output, reopened, bin, key, x);
      heaps := heaps[bin := BinAt(heaps, bin)[key := kept]];
      if ComesAgain(rows, all, bin, key) {
        reopened := reopened + {(bin, key)};
      }
      rows, all := WithRow(rows, bin, key, x), WithRow(all, bin, key, x);
      earliest := Some(if earliest.Some? && earliest.value <= bin then earliest.value else bin);
    }

    predicate ShouldAdvance(watermark: nat)
      reads this
    {
      earliest.Some? && earliest.value + width <= W.TumblingBin(width, watermark)
    }

    /** Emits and drops the earliest bin. */
    method Advance() returns (out: seq<Out>, ghost bin: int)
      requires Valid() && earliest.Some?
      modifies this
      ensures Valid() && bin == old(earliest).value && bin in old(rows) && rows == old(rows) - {bin}
      ensures BinEmitted(maxElements, bin, old(rows)[bin], out) && forall i :: 0 <= i < |out| ==> out[i].bin == bin
      ensures heaps == old(heaps) - {bin} && bin in old(heaps)
      ensures all == old(all) && reopened == old(reopened) && output == old(output) + out
    {
      hide HistoryInv;
      EarliestBin(maxElements, width, heaps, rows, earliest);
      var b := W.TumblingBin(width, earliest.value);
      bin := b;
      var results := heaps[b];
      var left := heaps - {b};
      var next := None;
      if left.Keys != {} {
        next := Some(LeastOf(left.Keys));
      }
      RemoveKeeps(maxElements, width, heaps, rows, earliest, b, next);
      hide WindowInv, BinEmitted, BinIsRight;
      out := EmitBin(maxElements, b, results, rows[b]);
      HistoryEmits(maxElements, rows, all, output, reopened, b, out);
      heaps, rows, earliest := left, rows - {b}, next;
      output := output + out;
    }

    /** Emits every bin that the watermark has passed, and no other. */
    method HandleWatermark(watermark: nat) returns (out: seq<Out>)
      requires Valid()
      modifies this
      ensures Valid() && Progress(maxElements, old(rows), rows, out)
      ensures forall b :: b in old(rows) ==> (b !in rows <==> b + width <= W.TumblingBin(width, watermark))
      ensures all == old(all) && reopened == old(reopened) && output == old(output) + out
    {
      hide HistoryInv, WindowInv, BinEmitted, Progress;
      ghost var before, n := rows, maxElements;
      out := [];
      NoProgress(n, before);
      while ShouldAdvance(watermark)
        invariant Valid() && Progress(n, before, rows, out)
        invariant forall b :: b in before && b !in rows ==> b + width <= W.TumblingBin(width, watermark)
        invariant all == old(all) && reopened == old(reopened) && output == old(output) + out
        decreases |heaps|
      {
        ghost var after := rows;
        ghost var was := heaps;
        var more, bin := Advance();
        ProgressStep(n, before, after, out, bin, more);
        Smaller(was, bin);
        out := out + more;
      }
      StopsAtEarliest(n, width, heaps, rows, earliest, watermark);
    }
  }

  lemma {:induction false} StopsAtEarliest(n: nat, width: nat, heaps: Binned, rows: Binned, earliest: Option<int>,
                                           watermark: nat)
    requires WindowInv(n, width, heaps, rows, earliest)
    requires !(earliest.Some? && earliest.value + width <= W.TumblingBin(width, watermark))
    ensures forall b :: b in rows ==> b + width > W.TumblingBin(width, watermark)
  {
  }

  // ---------- what a run guarantees ----------

  /**
   * After any run, for a bin and a key with nothing pending and rows that do not tie: exactly
   * the first n of all the rows accepted are out, each with its row number, if and only if no
   * row was accepted for them once they were out.
   */
  lemma {:induction false} FirstRowsIff(s: TumblingTopN, b: int, k: int)
    requires s.Valid() && s.maxElements > 0
    requires PairRows(s.rows, b, k) == multiset{} && Strict(PairRows(s.all, b, k))
    ensures PairEmitted(s.maxElements, b, k, PairRows(s.all, b, k), s.output) <==> (b, k) !in s.reopened
  {
    hide PairEmitted, Strict, WindowInv;
    assert PairInv(s.maxElements, b, k, PairRows(s.rows, b, k), PairRows(s.all, b, k), s.output, (b, k) in s.reopened);
    if (b, k) in s.reopened {
      TwoFirstsAreWrong(s.maxElements, b, k, PairRows(s.all, b, k), s.output);
    }
  }

  /**
   * A row whose bin a watermark has passed is accepted at a later watermark if and only if the
   * width is zero and both watermarks are the row's own timestamp.
   */
  lemma {:induction false} AcceptedAgainIff(width: nat, passed: nat, ts: nat, watermark: nat)
    requires W.TumblingBin(width, ts) + width <= W.TumblingBin(width, passed) && passed <= watermark
    ensures W.TumblingBin(width, watermark) <= W.TumblingBin(width, ts) <==> width == 0 && ts == passed == watermark
  {
    W.TumblingBinsOrdered(width, passed, watermark);
  }

  lemma {:induction false} OneRow(rows: multiset<Row>, x: Row)
    requires rows == multiset{x}
    ensures Strict(rows) && RowNumber(rows, x) == 1
  {
    var low := set y | y in rows && y.sort <= x.sort;
    assert low == {x};
    assert RowNumber(rows, x) == |low|;
  }

  /** A bin with one row of one key puts that row out with rank one. */
  lemma {:induction false} OneRowOut(n: nat, b: int, k: int, x: Row, rows: Keyed, out: seq<Out>)
    requires n > 0 && BinEmitted(n, b, rows, out) && k in rows && rows[k] == multiset{x}
    ensures Out(b, k, x, 1) in out
  {
    OneRow(rows[k], x);
    assert IsOut(out, b, k, x);
    var i :| 0 <= i < |out| && out[i].bin == b && out[i].key == k && out[i].row == x;
    assert OutIsRight(n, rows, out[i]);
    assert out[i] == Out(b, k, x, 1);
  }

  /** Width zero: a row at 10 is out at watermark 10, a second row at 10 is accepted, and it has rank one, too. */
  method EmittedTwice() returns (first: seq<Out>, second: seq<Out>)
    ensures Out(10, 0, Row(1, 1), 1) in first && Out(10, 0, Row(2, 2), 1) in second
  {
    var s := new TumblingTopN(0, 5);
    hide WindowInv, HistoryInv, BinEmitted;
    s.Insert(0, 10, Row(1, 1), None);
    assert s.rows[10][0] == multiset{Row(1, 1)};
    first := s.HandleWatermark(10);
    OneRowOut(5, 10, 0, Row(1, 1), map[0 := multiset{Row(1, 1)}], first);
    s.Insert(0, 10, Row(2, 2), Some(10));
    assert s.rows[10][0] == multiset{Row(2, 2)};
    second := s.HandleWatermark(10);
    OneRowOut(5, 10, 0, Row(2, 2), map[0 := multiset{Row(2, 2)}], second);
  }

  // ---------- the rewrite ----------

  /** The row on which the filter runs: the payload and the row number, in the columns that columns says. */
  ghost predicate Passes(p: Prims, s: Schema, filter: Expr, columns: (Row, nat) -> seq<Val>, x: Row, rank: nat) {
    Eval(p, s, filter, columns(x, rank)) == Value(VBool(true))
  }

  /**
   * The top-N rewrite: number all rows and filter, or select the first n of every shard,
   * select the first n of those, number them and filter. If n is the bound that the filter
   * puts on the row number, the same rows pass, with the same row numbers.
   */
  lemma {:induction false} TopNRewrite(p: Prims, s: Schema, filter: Expr, field: nat, columns: (Row, nat) -> seq<Val>,
                                       n: nat,
                                      shards: seq<multiset<Row>>, hs: seq<multiset<Row>>, t: multiset<Row>, x: Row, rank: nat)
    requires forall y, r: nat :: field < |columns(y, r)| && columns(y, r)[field] == VInt(r)
    requires HasMaxValue(filter, field) == Some(n) && NoWrap(filter, field)
    requires Strict(Sum(shards)) && |Sum(shards)| < U64
    requires EachTopN(hs, shards, n) && IsTopN(t, Sum(hs), n)
    ensures (x in Sum(shards) && rank == RowNumber(Sum(shards), x) && Passes(p, s, filter, columns, x, rank))
       <==> (x in t && rank == RowNumber(t, x) && Passes(p, s, filter, columns, x, rank))
  {
    var all := Sum(shards);
    ShardsTopN(t, hs, shards, n);
    if x in t {
      SelectedRank(t, all, n, x);
    } else if x in all && rank == RowNumber(all, x) && Passes(p, s, filter, columns, x, rank) {
      RankBelowSize(all, x);
      MaxValueIsSound(p, s, filter, field, columns(x, rank), rank);
      SelectedIff(t, all, n, x);
    }
  }

  lemma {:induction false} RankBelowSize(all: multiset<Row>, x: Row)
    requires Strict(all)
    ensures RowNumber(all, x) <= |all|
  {
    SizeOfRows(all);
    SetSize((set y | y in all && y.sort <= x.sort), RowsOf(all));
  }

  lemma {:induction false} TopNSize(h: multiset<Row>, all: multiset<Row>, n: nat)
    requires IsTopN(h, all, n)
    ensures |h| <= n
  {
  }
}
