// The keyed tumbling-window operator of a two-phase plan: records are merged into the bins of
// a table, and when the watermark passes a bin, its values are emitted and the bin is dropped.
// A width of zero makes every timestamp a window of its own.
module TumblingWindows {
  import opened Messages
  import opened Aggregates
  import opened SlidingRuns
  import opened TimeKeyMaps
  import opened WindowSpec
  import opened Grid
  import opened Extremes

  datatype Emission = Emission(key: int, start: int, end: int, timestamp: int, values: seq<Output>)

  /** The length of a bin in ticks. */
  function Span(width: nat): (d: nat)
    ensures d > 0
  {
    if width == 0 then 1 else width
  }

  lemma {:induction false} TumblingBinIs(width: nat, ts: nat)
    ensures TumblingBin(width, ts) == BinStart(ts, Span(width))
  {
  }

  // ---------- what is emitted ----------

  /** The records of key k in the window at t. */
  function InWindow(log: seq<Rec>, width: nat, k: int, t: int): seq<Rec> {
    BinRecs(log, k, t, Span(width))
  }

  /** The result of a window: the one-shot aggregates of its records. */
  ghost function Owed(cols: Columns, width: nat, k: int, t: int, recs: seq<Rec>): Emission
    requires RecsOk(cols, recs) && recs != []
  {
    Emission(k, t, t + width, if width == 0 then t else t + width - 1,
             seq(|cols|, i requires 0 <= i < |cols| => VecAggregate(cols[i], Inputs(cols, recs, i))))
  }

  ghost predicate Emits(emitted: seq<Emission>, k: int, t: int) {
    exists n :: 0 <= n < |emitted| && emitted[n].key == k && emitted[n].start == t
  }

  /** Each result is the one its records owe. */
  ghost predicate ResultsOwed(cols: Columns, width: nat, emitted: seq<Emission>, behind: seq<seq<Rec>>) {
    && |behind| == |emitted|
    && forall n :: 0 <= n < |emitted| ==>
         && behind[n] != [] && RecsOk(cols, behind[n])
         && emitted[n] == Owed(cols, width, emitted[n].key, emitted[n].start, behind[n])
  }

  /** The records behind the results of the window at t of key k. */
  ghost function Behind(emitted: seq<Emission>, behind: seq<seq<Rec>>, k: int, t: int): multiset<Rec>
    requires |behind| == |emitted|
  {
    if emitted == [] then multiset{}
    else
      var n := |emitted| - 1;
      Behind(emitted[..n], behind[..n], k, t)
      + if emitted[n].key == k && emitted[n].start == t then multiset(behind[n]) else multiset{}
  }

  /** Every record that counts is behind exactly one result, or still pending. */
  ghost predicate Conserved(width: nat, log: seq<Rec>, pending: seq<Rec>, emitted: seq<Emission>, behind: seq<seq<Rec>>)
    requires |behind| == |emitted|
  {
    forall k, t :: OnGrid(t, Span(width)) ==>
      multiset(InWindow(log, width, k, t)) == multiset(InWindow(pending, width, k, t)) + Behind(emitted, behind, k, t)
  }

  ghost predicate Distinct(emitted: seq<Emission>) {
    forall m, n :: 0 <= m < n < |emitted| ==> emitted[m].key != emitted[n].key || emitted[m].start != emitted[n].start
  }

  /** No window is emitted twice, now or with what is pending. */
  ghost predicate Once(width: nat, pending: seq<Rec>, emitted: seq<Emission>) {
    && Distinct(emitted)
    && forall n :: 0 <= n < |emitted| ==> InWindow(pending, width, emitted[n].key, emitted[n].start) == []
  }

  // ---------- one window, one result ----------

  lemma {:induction false} BehindNone(emitted: seq<Emission>, behind: seq<seq<Rec>>, k: int, t: int)
    requires |behind| == |emitted| && !Emits(emitted, k, t)
    ensures Behind(emitted, behind, k, t) == multiset{}
  {
    if emitted != [] {
      var n := |emitted| - 1;
      assert !Emits(emitted[..n], k, t) by {
        assert forall m :: 0 <= m < n ==> emitted[..n][m] == emitted[m];
      }
      BehindNone(emitted[..n], behind[..n], k, t);
      assert emitted[n] == emitted[|emitted| - 1];
    }
  }

  lemma {:induction false} BehindOne(emitted: seq<Emission>, behind: seq<seq<Rec>>, n: nat)
    requires |behind| == |emitted| && n < |emitted| && Distinct(emitted)
    ensures Behind(emitted, behind, emitted[n].key, emitted[n].start) == multiset(behind[n])
  {
    var last := |emitted| - 1;
    var front := emitted[..last];
    if n == last {
      assert forall m :: 0 <= m < |front| ==> front[m] == emitted[m];
      BehindNone(front, behind[..last], emitted[n].key, emitted[n].start);
    } else {
      assert front[n] == emitted[n] && behind[..last][n] == behind[n];
      BehindOne(front, behind[..last], n);
    }
  }

  lemma {:induction false} OwedPermuted(cols: Columns, width: nat, k: int, t: int, xs: seq<Rec>, ys: seq<Rec>)
    requires RecsOk(cols, xs) && RecsOk(cols, ys) && xs != [] && multiset(xs) == multiset(ys)
    ensures ys != [] && Owed(cols, width, k, t, xs) == Owed(cols, width, k, t, ys)
  {
    assert |ys| == |multiset(ys)| == |multiset(xs)| == |xs|;
    forall i | 0 <= i < |cols|
      ensures VecAggregate(cols[i], Inputs(cols, xs, i)) == VecAggregate(cols[i], Inputs(cols, ys, i))
    {
      InputsPermuted(cols, xs, ys, i);
      BinOfPermutation(cols[i], Inputs(cols, xs, i), Inputs(cols, ys, i));
      TwoPhaseIsOneShot(cols[i], Inputs(cols, xs, i));
      TwoPhaseIsOneShot(cols[i], Inputs(cols, ys, i));
    }
  }

  /** As long as no window is emitted twice, every result is that of all the records of its window. */
  lemma {:induction false} OnceIsAll(cols: Columns, width: nat, log: seq<Rec>, pending: seq<Rec>, emitted: seq<Emission>,
                                     behind: seq<seq<Rec>>, n: nat)
    requires RecsOk(cols, log) && ResultsOwed(cols, width, emitted, behind) && Conserved(width, log, pending, emitted, behind)
    requires Once(width, pending, emitted) && n < |emitted| && OnGrid(emitted[n].start, Span(width))
    ensures var recs := InWindow(log, width, emitted[n].key, emitted[n].start);
            recs != [] && RecsOk(cols, recs) && emitted[n] == Owed(cols, width, emitted[n].key, emitted[n].start, recs)
  {
    var k, t := emitted[n].key, emitted[n].start;
    var recs := InWindow(log, width, k, t);
    SelectOk(cols, log, k, t, t + Span(width));
    BehindOne(emitted, behind, n);
    assert multiset(recs) == multiset(behind[n]);
    OwedPermuted(cols, width, k, t, behind[n], recs);
  }

  // ---------- a record arrives ----------

  lemma {:induction false} InWindowAppend(log: seq<Rec>, r: Rec, width: nat, k: int, t: int)
    requires OnGrid(t, Span(width))
    ensures InWindow(log + [r], width, k, t)
         == InWindow(log, width, k, t) + if r.key == k && TumblingBin(width, r.ts) == t then [r] else []
  {
    SelectAppend(log, r, k, t, t + Span(width));
    TumblingBinIs(width, r.ts);
    var b := BinStart(r.ts, Span(width));
    if t < b {
      GridGap(t, b, Span(width));
    } else if b < t {
      GridGap(b, t, Span(width));
    }
  }

  ghost predicate OnGridAll(width: nat, emitted: seq<Emission>) {
    forall n :: 0 <= n < |emitted| ==> OnGrid(emitted[n].start, Span(width))
  }

  lemma {:induction false} CountKeeps(width: nat, log: seq<Rec>, pending: seq<Rec>, emitted: seq<Emission>,
                                      behind: seq<seq<Rec>>, r: Rec)
    requires |behind| == |emitted| && Conserved(width, log, pending, emitted, behind)
    ensures Conserved(width, log + [r], pending + [r], emitted, behind)
  {
    forall k, t | OnGrid(t, Span(width))
      ensures multiset(InWindow(log + [r], width, k, t))
           == multiset(InWindow(pending + [r], width, k, t)) + Behind(emitted, behind, k, t)
    {
      hide InWindow, Behind, OnGrid;
      InWindowAppend(log, r, width, k, t);
      InWindowAppend(pending, r, width, k, t);
    }
  }

  /** A record opens a window again exactly if that window has been emitted for its key. */
  lemma {:induction false} OnceAfterRecord(width: nat, pending: seq<Rec>, emitted: seq<Emission>, r: Rec)
    requires OnGridAll(width, emitted)
    ensures Once(width, pending + [r], emitted)
       <==> Once(width, pending, emitted) && !Emits(emitted, r.key, TumblingBin(width, r.ts))
  {
    hide InWindow, OnGrid, Distinct;
    forall n | 0 <= n < |emitted|
      ensures InWindow(pending + [r], width, emitted[n].key, emitted[n].start) == []
         <==> InWindow(pending, width, emitted[n].key, emitted[n].start) == []
              && !(emitted[n].key == r.key && emitted[n].start == TumblingBin(width, r.ts))
    {
      InWindowAppend(pending, r, width, emitted[n].key, emitted[n].start);
    }
  }

  // ---------- a bin is emitted ----------

  /** The pending records without those of the bin at t. */
  function Drop(pending: seq<Rec>, width: nat, t: int): seq<Rec> {
    if pending == [] then []
    else
      var last := pending[|pending| - 1];
      Drop(pending[..|pending| - 1], width, t) + if TumblingBin(width, last.ts) == t then [] else [last]
  }

  lemma {:induction false} DropOk(cols: Columns, pending: seq<Rec>, width: nat, t: int)
    requires RecsOk(cols, pending)
    ensures RecsOk(cols, Drop(pending, width, t))
  {
    if pending != [] {
      DropOk(cols, pending[..|pending| - 1], width, t);
    }
  }

  lemma {:induction false} DropIs(pending: seq<Rec>, width: nat, t: int, k: int, t': int)
    requires OnGrid(t', Span(width))
    ensures InWindow(Drop(pending, width, t), width, k, t') == if t' == t then [] else InWindow(pending, width, k, t')
  {
    if pending != [] {
      var front, last := pending[..|pending| - 1], pending[|pending| - 1];
      DropIs(front, width, t, k, t');
      assert pending == front + [last];
      hide OnGrid;
      InWindowAppend(front, last, width, k, t');
      if TumblingBin(width, last.ts) != t {
        InWindowAppend(Drop(front, width, t), last, width, k, t');
      } else {
        assert Drop(pending, width, t) == Drop(front, width, t);
      }
    }
  }

  /** The results of the keys in done, one each, for the bin at t. */
  ghost predicate BinResults(cols: Columns, width: nat, pending: seq<Rec>, t: int, done: set<int>, es: seq<Emission>,
                             bs: seq<seq<Rec>>) {
    && ResultsOwed(cols, width, es, bs)
    && (forall n :: 0 <= n < |es| ==> es[n].key in done && es[n].start == t && bs[n] == InWindow(pending, width, es[n].key, t))
    && (forall k :: k in done ==> Emits(es, k, t))
    && Distinct(es)
  }

  lemma {:induction false} EmitsMore(es: seq<Emission>, more: seq<Emission>, k: int, t: int)
    requires Emits(es, k, t) || Emits(more, k, t)
    ensures Emits(es + more, k, t)
  {
    var all := es + more;
    if Emits(es, k, t) {
      var n :| 0 <= n < |es| && es[n].key == k && es[n].start == t;
      assert all[n] == es[n];
    } else {
      var n :| 0 <= n < |more| && more[n].key == k && more[n].start == t;
      assert all[|es| + n] == more[n];
    }
  }

  lemma {:induction false} OneMore(cols: Columns, width: nat, pending: seq<Rec>, t: int, done: set<int>, es: seq<Emission>,
                                   bs: seq<seq<Rec>>, k: int)
    requires BinResults(cols, width, pending, t, done, es, bs) && k !in done
    requires RecsOk(cols, InWindow(pending, width, k, t)) && InWindow(pending, width, k, t) != []
    ensures var recs := InWindow(pending, width, k, t);
            BinResults(cols, width, pending, t, done + {k}, es + [Owed(cols, width, k, t, recs)], bs + [recs])
  {
    hide InWindow;
    var recs := InWindow(pending, width, k, t);
    var e := Owed(cols, width, k, t, recs);
    var es', bs' := es + [e], bs + [recs];
    forall k' | k' in done + {k}
      ensures Emits(es', k', t)
    {
      assert k' == k ==> [e][0].key == k';
      EmitsMore(es, [e], k', t);
    }
    forall n | 0 <= n < |es'|
      ensures es'[n] == Owed(cols, width, es'[n].key, es'[n].start, bs'[n]) && es'[n].key in done + {k} && es'[n].start == t
              && bs'[n] == InWindow(pending, width, es'[n].key, t)
    {
      assert es'[n] == if n < |es| then es[n] else e;
    }
  }

  lemma {:induction false} BehindAppend(emitted: seq<Emission>, behind: seq<seq<Rec>>, e: Emission, b: seq<Rec>, k: int,
                                        t: int)
    requires |behind| == |emitted|
    ensures Behind(emitted + [e], behind + [b], k, t)
         == Behind(emitted, behind, k, t) + if e.key == k && e.start == t then multiset(b) else multiset{}
  {
    assert (emitted + [e])[..|emitted|] == emitted && (behind + [b])[..|behind|] == behind;
  }

  lemma {:induction false} BehindNil(emitted: seq<Emission>, behind: seq<seq<Rec>>, k: int, t: int)
    requires |behind| == |emitted| == 0
    ensures Behind(emitted, behind, k, t) == multiset{}
  {
  }

  lemma {:induction false} BehindConcat(emitted: seq<Emission>, behind: seq<seq<Rec>>, es: seq<Emission>, bs: seq<seq<Rec>>,
                                        k: int, t: int)
    requires |behind| == |emitted| && |bs| == |es|
    ensures Behind(emitted + es, behind + bs, k, t) == Behind(emitted, behind, k, t) + Behind(es, bs, k, t)
    decreases |es|
  {
    hide *;
    if es == [] {
      assert emitted + es == emitted && behind + bs == behind;
      BehindNil(es, bs, k, t);
    } else {
      var n := |es| - 1;
      BehindConcat(emitted, behind, es[..n], bs[..n], k, t);
      BehindConcatStep(emitted, behind, es[..n], bs[..n], es[n], bs[n], k, t);
      assert es == es[..n] + [es[n]] && bs == bs[..n] + [bs[n]];
    }
  }

  lemma {:induction false} BehindConcatStep(emitted: seq<Emission>, behind: seq<seq<Rec>>, es: seq<Emission>,
                                            bs: seq<seq<Rec>>,
                                            e: Emission, b: seq<Rec>, k: int, t: int)
    requires |behind| == |emitted| && |bs| == |es|
    requires Behind(emitted + es, behind + bs, k, t) == Behind(emitted, behind, k, t) + Behind(es, bs, k, t)
    ensures Behind(emitted + (es + [e]), behind + (bs + [b]), k, t)
         == Behind(emitted, behind, k, t) + Behind(es + [e], bs + [b], k, t)
  {
    hide *;
    BehindAppend(es, bs, e, b, k, t);
    BehindAppend(emitted + es, behind + bs, e, b, k, t);
    assert emitted + (es + [e]) == (emitted + es) + [e];
    assert behind + (bs + [b]) == (behind + bs) + [b];
    Associates(Behind(emitted, behind, k, t), Behind(es, bs, k, t),
               if e.key == k && e.start == t then multiset(b) else multiset{});
  }

  lemma Associates(a: multiset<Rec>, b: multiset<Rec>, c: multiset<Rec>)
    ensures (a + b) + c == a + (b + c)
  {
  }

  /** What is behind the results of a bin is what was pending for it. */
  lemma {:induction false} BehindBin(cols: Columns, width: nat, pending: seq<Rec>, t: int, keys: set<int>,
                                     es: seq<Emission>,
                                     bs: seq<seq<Rec>>, k: int, t': int)
    requires BinResults(cols, width, pending, t, keys, es, bs)
    requires InWindow(pending, width, k, t) != [] ==> k in keys
    ensures Behind(es, bs, k, t') == if t' == t then multiset(InWindow(pending, width, k, t)) else multiset{}
  {
    hide InWindow, Owed;
    if t' == t && k in keys {
      var n :| 0 <= n < |es| && es[n].key == k && es[n].start == t;
      BehindOne(es, bs, n);
    } else {
      BehindNone(es, bs, k, t');
    }
  }

  lemma {:induction false} EmitConserves(cols: Columns, width: nat, log: seq<Rec>, pending: seq<Rec>,
                                         emitted: seq<Emission>,
                                         behind: seq<seq<Rec>>, t: int, keys: set<int>, es: seq<Emission>, bs: seq<seq<Rec>>)
    requires |behind| == |emitted| && Conserved(width, log, pending, emitted, behind) && OnGrid(t, Span(width))
    requires BinResults(cols, width, pending, t, keys, es, bs)
    requires forall k :: InWindow(pending, width, k, t) != [] ==> k in keys
    ensures Conserved(width, log, Drop(pending, width, t), emitted + es, behind + bs)
  {
    ResultLengths(cols, width, es, bs);
    hide InWindow, OnGrid, ResultsOwed, Drop;
    forall k, t' | OnGrid(t', Span(width))
      ensures multiset(InWindow(log, width, k, t'))
           == multiset(InWindow(Drop(pending, width, t), width, k, t')) + Behind(emitted + es, behind + bs, k, t')
    {
      DropIs(pending, width, t, k, t');
      BehindConcat(emitted, behind, es, bs, k, t');
      BehindBin(cols, width, pending, t, keys, es, bs, k, t');
    }
  }

  lemma {:induction false} ResultLengths(cols: Columns, width: nat, es: seq<Emission>, bs: seq<seq<Rec>>)
    requires ResultsOwed(cols, width, es, bs)
    ensures |bs| == |es|
  {
  }

  /** Some result of es is for a window that emitted has a result for. */
  ghost predicate Clash(emitted: seq<Emission>, es: seq<Emission>) {
    exists n :: 0 <= n < |es| && Emits(emitted, es[n].key, es[n].start)
  }

  lemma {:induction false} ClashAt(emitted: seq<Emission>, es: seq<Emission>, n: nat)
    requires n < |emitted| && Emits(es, emitted[n].key, emitted[n].start)
    ensures Clash(emitted, es)
  {
    var m :| 0 <= m < |es| && es[m].key == emitted[n].key && es[m].start == emitted[n].start;
    assert Emits(emitted, es[m].key, es[m].start);
  }

  lemma {:induction false} DistinctParts(emitted: seq<Emission>, es: seq<Emission>)
    requires Distinct(emitted + es)
    ensures Distinct(emitted) && Distinct(es) && !Clash(emitted, es)
  {
    var all := emitted + es;
    assert forall n :: 0 <= n < |emitted| ==> all[n] == emitted[n];
    forall m, n | 0 <= m < n < |es|
      ensures es[m].key != es[n].key || es[m].start != es[n].start
    {
      assert all[|emitted| + m] == es[m] && all[|emitted| + n] == es[n];
    }
    forall m, n | 0 <= m < |emitted| && 0 <= n < |es|
      ensures emitted[m].key != es[n].key || emitted[m].start != es[n].start
    {
      assert all[m] == emitted[m] && all[|emitted| + n] == es[n];
    }
  }

  lemma {:induction false} DistinctConcat(emitted: seq<Emission>, es: seq<Emission>)
    ensures Distinct(emitted + es) <==> Distinct(emitted) && Distinct(es) && !Clash(emitted, es)
  {
    var all := emitted + es;
    if Distinct(all) {
      DistinctParts(emitted, es);
    }
    if Distinct(emitted) && Distinct(es) && !Clash(emitted, es) {
      forall m, n | 0 <= m < n < |all|
        ensures all[m].key != all[n].key || all[m].start != all[n].start
      {
        if n < |emitted| {
          assert all[m] == emitted[m] && all[n] == emitted[n];
        } else if |emitted| <= m {
          assert all[m] == es[m - |emitted|] && all[n] == es[n - |emitted|];
        } else {
          assert !Emits(emitted, es[n - |emitted|].key, es[n - |emitted|].start);
        }
      }
    }
  }

  /** Emitting what is pending for a bin neither breaks nor repairs that windows are emitted once. */
  lemma {:induction false} OnceAfterEmit(cols: Columns, width: nat, pending: seq<Rec>, emitted: seq<Emission>, t: int,
                                         keys: set<int>,
                                         es: seq<Emission>, bs: seq<seq<Rec>>)
    requires OnGridAll(width, emitted) && OnGrid(t, Span(width)) && BinResults(cols, width, pending, t, keys, es, bs)
    requires forall k :: InWindow(pending, width, k, t) != [] <==> k in keys
    ensures Once(width, Drop(pending, width, t), emitted + es) <==> Once(width, pending, emitted)
  {
    hide InWindow, OnGrid, Drop, Distinct, Owed;
    var all, rest := emitted + es, Drop(pending, width, t);
    DistinctConcat(emitted, es);
    forall n | 0 <= n < |emitted|
      ensures InWindow(rest, width, emitted[n].key, emitted[n].start)
           == if emitted[n].start == t then [] else InWindow(pending, width, emitted[n].key, emitted[n].start)
    {
      DropIs(pending, width, t, emitted[n].key, emitted[n].start);
    }
    forall n | 0 <= n < |es|
      ensures InWindow(rest, width, es[n].key, es[n].start) == []
    {
      DropIs(pending, width, t, es[n].key, es[n].start);
    }
    if Once(width, pending, emitted) {
      assert !Clash(emitted, es) by {
        forall n | 0 <= n < |es|
          ensures !Emits(emitted, es[n].key, es[n].start)
        {
          assert InWindow(pending, width, es[n].key, t) != [];
        }
      }
      forall n | 0 <= n < |all|
        ensures InWindow(rest, width, all[n].key, all[n].start) == []
      {
        assert all[n] == if n < |emitted| then emitted[n] else es[n - |emitted|];
      }
    }
    if Once(width, rest, all) {
      forall n | 0 <= n < |emitted|
        ensures InWindow(pending, width, emitted[n].key, emitted[n].start) == []
      {
        assert all[n] == emitted[n];
        assert emitted[n].start == t && emitted[n].key in keys ==> Emits(es, emitted[n].key, t);
        if Emits(es, emitted[n].key, emitted[n].start) {
          ClashAt(emitted, es, n);
        }
      }
    }
  }

  // ---------- the table ----------

  lemma {:induction false} TableDrop(cols: Columns, width: nat, pending: seq<Rec>, table: Layer<Row>, t: int)
    requires TableInv(cols, Span(width), pending, table, 0)
    ensures TableInv(cols, Span(width), Drop(pending, width, t), table - {t}, 0)
  {
    DropOk(cols, pending, width, t);
    forall k, t' | OnGrid(t', Span(width))
      ensures BinRecs(Drop(pending, width, t), k, t', Span(width)) == if t' == t then [] else BinRecs(pending, k, t', Span(width))
    {
      DropIs(pending, width, t, k, t');
    }
    hide Drop, Select, OnGrid, BinRecs, RowOf;
    var pending', table' := Drop(pending, width, t), table - {t};
    forall t', k | OnGrid(t', Span(width)) && 0 <= t' && BinRecs(pending', k, t', Span(width)) != []
      ensures t' in table' && k in table'[t']
    {
      assert BinRecs(pending, k, t', Span(width)) != [];
    }
  }

  /** A bin of the table has the rows of the pending records of its keys, and the keys with records. */
  lemma {:induction false} TableBin(cols: Columns, width: nat, pending: seq<Rec>, table: Layer<Row>, t: int, k: int)
    requires TableInv(cols, Span(width), pending, table, 0) && t in table
    ensures OnGrid(t, Span(width)) && t >= 0
    ensures k in table[t] <==> InWindow(pending, width, k, t) != []
    ensures k in table[t] ==>
              RecsOk(cols, InWindow(pending, width, k, t)) && table[t][k] == RowOf(cols, InWindow(pending, width, k, t))
  {
  }

  /** The values of a row of records are the one-shot aggregates of the records. */
  lemma {:induction false} RowIsOwed(cols: Columns, recs: seq<Rec>, i: nat)
    requires RecsOk(cols, recs) && recs != [] && i < |cols|
    ensures RowOk(cols, RowOf(cols, recs))
    ensures BinAggregate(cols[i], RowOf(cols, recs)[i]) == VecAggregate(cols[i], Inputs(cols, recs, i))
  {
    TwoPhaseIsOneShot(cols[i], Inputs(cols, recs, i));
  }

  /** Merging a record into its bin keeps the table. */
  lemma {:induction false} TableMerges(cols: Columns, width: nat, pending: seq<Rec>, table: Layer<Row>, r: Rec)
    requires TableInv(cols, Span(width), pending, table, 0) && RecOk(cols, r)
    ensures var t := TumblingBin(width, r.ts);
            var slot := Slot(table, t);
            && (r.key in slot ==> RowOk(cols, slot[r.key]))
            && TableInv(cols, Span(width), pending + [r],
                        Put(table, t, r.key, ProjMerge(cols, if r.key in slot then Some(slot[r.key]) else None, r)), 0)
  {
    TumblingBinIs(width, r.ts);
    TableGrows(cols, Span(width), pending, table, 0, r);
  }

  // ---------- the operator ----------

  ghost predicate Inv(cols: Columns, width: nat, log: seq<Rec>, pending: seq<Rec>, table: Layer<Row>, earliest: Option<int>,
                      emitted: seq<Emission>, behind: seq<seq<Rec>>, clean: bool) {
    && RecsOk(cols, log) && TableInv(cols, Span(width), pending, table, 0)
    && (earliest.None? <==> table == map[])
    && (earliest.Some? ==> earliest.value in table && forall t :: t in table ==> earliest.value <= t)
    && ResultsOwed(cols, width, emitted, behind) && OnGridAll(width, emitted)
    && Conserved(width, log, pending, emitted, behind)
    && (clean <==> Once(width, pending, emitted))
  }

  /** The row that record r gives its bin. */
  ghost function NextRow(cols: Columns, width: nat, table: Layer<Row>, r: Rec): Row
    requires RecOk(cols, r)
  {
    var slot := Slot(table, TumblingBin(width, r.ts));
    ProjMerge(cols, if r.key in slot && RowOk(cols, slot[r.key]) then Some(slot[r.key]) else None, r)
  }

  lemma {:induction false} CountInv(cols: Columns, width: nat, log: seq<Rec>, pending: seq<Rec>, table: Layer<Row>,
                                    earliest: Option<int>,
                                    emitted: seq<Emission>, behind: seq<seq<Rec>>, clean: bool, r: Rec)
    requires Inv(cols, width, log, pending, table, earliest, emitted, behind, clean) && RecOk(cols, r)
    ensures var t := TumblingBin(width, r.ts);
            var slot := Slot(table, t);
            && (r.key in slot ==> RowOk(cols, slot[r.key]))
            && NextRow(cols, width, table, r) == ProjMerge(cols, if r.key in slot then Some(slot[r.key]) else None, r)
            && Inv(cols, width, log + [r], pending + [r], Put(table, t, r.key, NextRow(cols, width, table, r)),
                   Some(if earliest.Some? && earliest.value <= t then earliest.value else t),
                   emitted, behind, clean && !Emits(emitted, r.key, t))
  {
    hide TableInv, Conserved, Once, ResultsOwed, Emits, ProjMerge, TumblingBin;
    ResultLengths(cols, width, emitted, behind);
    TableMerges(cols, width, pending, table, r);
    CountKeeps(width, log, pending, emitted, behind, r);
    OnceAfterRecord(width, pending, emitted, r);
  }

  lemma {:induction false} EmitInv(cols: Columns, width: nat, log: seq<Rec>, pending: seq<Rec>, table: Layer<Row>,
                                   earliest: Option<int>,
                                   emitted: seq<Emission>, behind: seq<seq<Rec>>, clean: bool, t: int, es: seq<Emission>, bs: seq<seq<Rec>>,
                                   next: Option<int>)
    requires Inv(cols, width, log, pending, table, earliest, emitted, behind, clean) && t in table
    requires BinResults(cols, width, pending, t, table[t].Keys, es, bs)
    requires next.None? <==> table - {t} == map[]
    requires next.Some? ==> next.value in table - {t} && forall t' :: t' in table - {t} ==> next.value <= t'
    ensures Inv(cols, width, log, Drop(pending, width, t), table - {t}, next, emitted + es, behind + bs, clean)
  {
    hide TableInv, Conserved, Once, Emits, Owed, Drop, InWindow, Distinct, RecsOk;
    TableDrop(cols, width, pending, table, t);
    forall k: int
      ensures InWindow(pending, width, k, t) != [] <==> k in table[t].Keys
      ensures OnGrid(t, Span(width))
    {
      TableBin(cols, width, pending, table, t, k);
    }
    TableBin(cols, width, pending, table, t, 0);
    EmitConserves(cols, width, log, pending, emitted, behind, t, table[t].Keys, es, bs);
    OnceAfterEmit(cols, width, pending, emitted, t, table[t].Keys, es, bs);
  }

  lemma {:induction false} BinIsItself(cols: Columns, width: nat, pending: seq<Rec>, table: Layer<Row>, t: int)
    requires TableInv(cols, Span(width), pending, table, 0) && t in table
    ensures t >= 0 && TumblingBin(width, t) == t
  {
    assert t >= 0 && OnGrid(t, Span(width));
    if width > 0 && TumblingBin(width, t) < t {
      GridGap(TumblingBin(width, t), t, width);
      assert false;
    }
  }

  lemma {:induction false} SlotIs(m: Layer<Row>, t: int)
    requires t in m
    ensures Slot(m, t) == m[t]
  {
  }

  /** What an advance needs of the table. */
  lemma {:induction false} InvTable(cols: Columns, width: nat, log: seq<Rec>, pending: seq<Rec>, table: Layer<Row>,
                                    earliest: Option<int>,
                                    emitted: seq<Emission>, behind: seq<seq<Rec>>, clean: bool)
    requires Inv(cols, width, log, pending, table, earliest, emitted, behind, clean) && earliest.Some?
    ensures TableInv(cols, Span(width), pending, table, 0) && earliest.value in table
    ensures forall t: nat :: t in table ==> TumblingBin(width, t) == t
    ensures forall t :: t in table ==> t >= 0
  {
    hide Conserved, Once, ResultsOwed, Emits;
    forall t | t in table
      ensures t >= 0 && TumblingBin(width, t) == t
    {
      BinIsItself(cols, width, pending, table, t);
    }
  }

  lemma {:induction false} StartsAt(cols: Columns, width: nat, pending: seq<Rec>, t: int, keys: set<int>, es: seq<Emission>,
                                    bs: seq<seq<Rec>>)
    requires BinResults(cols, width, pending, t, keys, es, bs)
    ensures forall n :: 0 <= n < |es| ==> es[n].start == t
  {
  }

  lemma {:induction false} EarliestStays(cols: Columns, width: nat, log: seq<Rec>, pending: seq<Rec>, table: Layer<Row>,
                                         earliest: Option<int>,
                                         emitted: seq<Emission>, behind: seq<seq<Rec>>, clean: bool, t: int)
    requires Inv(cols, width, log, pending, table, earliest, emitted, behind, clean) && t in table
    ensures earliest.Some? && earliest.value <= t
  {
  }

  /** With an earliest bin that is not due, nothing that is due is pending. */
  lemma {:induction false} NothingDue(cols: Columns, width: nat, log: seq<Rec>, pending: seq<Rec>, table: Layer<Row>,
                                      earliest: Option<int>,
                                      emitted: seq<Emission>, behind: seq<seq<Rec>>, clean: bool, due: int)
    requires Inv(cols, width, log, pending, table, earliest, emitted, behind, clean)
    requires earliest.Some? ==> due < earliest.value + width
    ensures forall k, t :: OnGrid(t, Span(width)) && t + width <= due ==> InWindow(pending, width, k, t) == []
    ensures forall t :: t in table ==> due < t + width
  {
    forall k, t | OnGrid(t, Span(width)) && t + width <= due
      ensures InWindow(pending, width, k, t) == []
    {
      if 0 <= t {
        assert t in table ==> due < t + width;
        assert BinRecs(pending, k, t, Span(width)) != [] ==> t in table;
      } else {
        BeforeTime(pending, k, t, Span(width));
      }
    }
  }

  lemma {:induction false} BeforeTime(log: seq<Rec>, k: int, t: int, d: nat)
    requires t < 0 && d > 0 && OnGrid(t, d)
    ensures BinRecs(log, k, t, d) == []
  {
    GridZero(d);
    GridGap(t, 0, d);
    SelectBefore(log, k, t, t + d);
  }

  lemma {:induction false} SelectBefore(log: seq<Rec>, k: int, lo: int, hi: int)
    requires hi <= 0
    ensures Select(log, k, lo, hi) == []
  {
    if log != [] {
      SelectBefore(log[..|log| - 1], k, lo, hi);
    }
  }

  // ---------- restarting ----------

  /** Windows that are out start before this. */
  function EmittedBefore(watermark: Option<nat>, width: nat): int {
    if watermark.None? then 0 - width else TumblingBin(width, watermark.value) - width + 1
  }

  /** What is in the store are bins. */
  ghost predicate StoresBins(width: nat, store: Layer<Row>) {
    forall t :: t in store ==> IsBin(width, t)
  }

  ghost predicate IsBin(width: nat, t: int) {
    t >= 0 && TumblingBin(width, t) == t
  }

  /** The oldest time a restart reads back. */
  function OldestValid(watermark: Option<nat>, width: nat): int {
    if watermark.None? then 0 else watermark.value - width
  }

  /** A window that is out is in the store, and ends at the watermark itself. */
  ghost predicate Returns(width: nat, watermark: Option<nat>, persisted: Layer<Row>, store: Layer<Row>) {
    watermark.Some? && watermark.value - width in store && watermark.value - width !in persisted
  }

  ghost predicate ComesBack(s: TumblingWindow)
    reads s, s.table
  {
    Returns(s.width, s.watermark, s.table.persisted, s.table.store)
  }

  lemma {:induction false} InvBins(cols: Columns, width: nat, log: seq<Rec>, pending: seq<Rec>, table: Layer<Row>,
                                   earliest: Option<int>, emitted: seq<Emission>, behind: seq<seq<Rec>>, clean: bool)
    requires Inv(cols, width, log, pending, table, earliest, emitted, behind, clean)
    ensures StoresBins(width, table)
  {
    if earliest.Some? {
      InvTable(cols, width, log, pending, table, earliest, emitted, behind, clean);
    }
  }

  /** A bin before another ends by its start. */
  lemma {:induction false} BinsApart(width: nat, a: nat, b: nat)
    ensures width > 0 ==>
              (TumblingBin(width, a) < TumblingBin(width, b) <==> TumblingBin(width, a) + width <= TumblingBin(width, b))
    ensures width == 0 ==> (TumblingBin(width, a) < TumblingBin(width, b) <==> a < b)
  {
    if width > 0 && TumblingBin(width, a) < TumblingBin(width, b) {
      GridGap(TumblingBin(width, a), TumblingBin(width, b), width);
    }
  }

  lemma {:induction false} NextBin(width: nat, w: nat, t: nat)
    requires TumblingBin(width, t) == t && TumblingBin(width, w) < t + width
    ensures w - width <= t && TumblingBin(width, w) <= t
  {
    TumblingBinIs(width, t);
    TumblingBinIs(width, w);
    if t < TumblingBin(width, w) {
      GridGap(t, TumblingBin(width, w), Span(width));
    }
  }

  /** Everything that is pending is read back. */
  lemma {:induction false} PendingIsRead(s: TumblingWindow, t: int)
    requires s.Valid() && s.CaughtUp() && t in s.table.Merged()
    ensures t >= 0 && TumblingBin(s.width, t) == t && OldestValid(s.watermark, s.width) <= t
    ensures s.watermark.Some? ==> TumblingBin(s.width, s.watermark.value) < t + s.width
  {
    hide TumblingBin, MergeLayers;
    InvTable(s.cols, s.width, s.log, s.pending, s.table.Merged(), s.earliest, s.emitted, s.behind, s.clean);
    if s.watermark.Some? {
      NextBin(s.width, s.watermark.value, t);
    }
  }

  lemma {:induction false} RestoredBin(width: nat, store: Layer<Row>, oldest: int, t: int)
    requires StoresBins(width, store) && t in Restored(store, oldest)
    ensures t >= 0 && TumblingBin(width, t) == t
  {
    assert t in store;
    assert IsBin(width, t);
  }

  /** What a restart reads: all that is pending, and a window that returns. */
  lemma {:induction false} ReadBack(width: nat, watermark: Option<nat>, persisted: Layer<Row>, store: Layer<Row>)
    requires BackedBy(persisted, map[], store, EmittedBefore(watermark, width))
    requires forall t :: t in persisted ==> OldestValid(watermark, width) <= t
    ensures var read := Restored(store, OldestValid(watermark, width));
            && (!Returns(width, watermark, persisted, store) ==> read == persisted)
            && (Returns(width, watermark, persisted, store) ==>
                  && watermark.value == TumblingBin(width, watermark.value)
                  && read == persisted[watermark.value - width := store[watermark.value - width]])
  {
    var read := Restored(store, OldestValid(watermark, width));
    assert forall t :: t in persisted ==> t in read && read[t] == persisted[t];
    assert forall t :: t in read && t !in persisted ==> watermark.Some? && t == watermark.value - width;
  }

  lemma {:induction false} RestartReads(s: TumblingWindow)
    requires s.Valid() && s.Recoverable() && s.CaughtUp() && s.table.buffered == map[]
    ensures var read := Restored(s.table.store, OldestValid(s.watermark, s.width));
            && s.table.Merged() == s.table.persisted && StoresBins(s.width, s.table.store)
            && (!ComesBack(s) ==> read == s.table.Merged())
            && (ComesBack(s) ==>
                  && s.watermark.value == TumblingBin(s.width, s.watermark.value)
                  && read == s.table.Merged()[s.watermark.value - s.width := s.table.store[s.watermark.value - s.width]])
  {
    MergeNothing(s.table.persisted);
    hide TumblingBin, MergeLayers, Inv, Restored, Returns, BackedBy;
    forall t | t in s.table.persisted
      ensures OldestValid(s.watermark, s.width) <= t
    {
      PendingIsRead(s, t);
    }
    ReadBack(s.width, s.watermark, s.table.persisted, s.table.store);
  }

  /** A fresh history for what is pending. */
  lemma {:induction false} FreshStart(cols: Columns, width: nat, log: seq<Rec>, pending: seq<Rec>, table: Layer<Row>,
                                     earliest: Option<int>, emitted: seq<Emission>, behind: seq<seq<Rec>>, clean: bool,
                                     least: Option<int>)
    requires Inv(cols, width, log, pending, table, earliest, emitted, behind, clean) && (least.None? <==> table == map[])
    requires least.Some? ==> least.value in table && forall t :: t in table ==> least.value <= t
    ensures Inv(cols, width, pending, pending, table, least, [], [], true)
  {
    hide OnGrid, Select, TumblingBin;
  }

  /** The windows still to be emitted, at a restart. */
  lemma {:induction false} RestartKeeps(s: TumblingWindow, m: Layer<Row>, least: Option<int>)
    requires s.Valid() && s.CaughtUp() && (least.None? <==> m == map[])
    requires least.Some? ==> least.value in m && forall t :: t in m ==> least.value <= t
    ensures m == s.table.Merged() ==> Inv(s.cols, s.width, s.pending, s.pending, m, least, [], [], true)
    ensures m == s.table.Merged() && s.watermark.Some? && least.Some? ==>
              TumblingBin(s.width, s.watermark.value) < least.value + s.width
    ensures ComesBack(s) && s.watermark.value == TumblingBin(s.width, s.watermark.value)
            && m == s.table.Merged()[s.watermark.value - s.width := s.table.store[s.watermark.value - s.width]] ==>
              least == Some(s.watermark.value - s.width)
  {
    hide Inv, TumblingBin, MergeLayers;
    if m == s.table.Merged() {
      FreshStart(s.cols, s.width, s.log, s.pending, m, s.earliest, s.emitted, s.behind, s.clean, least);
    }
    if least.Some? && least.value in s.table.Merged() {
      PendingIsRead(s, least.value);
    }
    if ComesBack(s) && s.watermark.value == TumblingBin(s.width, s.watermark.value)
       && m == s.table.Merged()[s.watermark.value - s.width := s.table.store[s.watermark.value - s.width]] {
      assert s.watermark.value - s.width in m;
    }
  }

  class TumblingWindow {
    const cols: Columns
    const width: nat
    const table: TimeKeyMap<Row>
    var earliest: Option<int>
    var watermark: Option<nat>
    var emitted: seq<Emission>
    ghost var accepted: seq<Rec>       // the records that were not too late
    ghost var log: seq<Rec>            // those of them that count
    ghost var pending: seq<Rec>        // those that are not emitted yet
    ghost var behind: seq<seq<Rec>>    // the records behind each result
    ghost var clean: bool              // no record has opened an emitted window again

    ghost predicate Valid()
      reads this, table
    {
      Inv(cols, width, log, pending, table.Merged(), earliest, emitted, behind, clean)
    }

    /** The store holds what a restart needs; all else in it belongs to windows that are out. */
    ghost predicate Recoverable()
      reads this, table
    {
      table.Backed(EmittedBefore(watermark, width)) && StoresBins(width, table.store)
    }

    /** No window is left to emit. */
    ghost predicate CaughtUp()
      reads this
    {
      watermark.Some? ==> !ShouldAdvance(watermark.value)
    }

    constructor (cols: Columns, width: nat)
      ensures Valid() && clean && this.cols == cols && this.width == width && fresh(table) && table.persisted == map[]
      ensures Recoverable() && CaughtUp()
      ensures watermark == None && emitted == [] && log == accepted == pending == []
    {
      this.cols, this.width := cols, width;
      table := new TimeKeyMap<Row>();
      earliest, watermark, emitted := None, None, [];
      accepted, log, pending, behind, clean := [], [], [], [], true;
    }

    /** A record is dropped when its bin is before the watermark's bin. */
    predicate Accepts(r: Rec)
      reads this
    {
      watermark.None? || TumblingBin(width, watermark.value) <= TumblingBin(width, r.ts)
    }

    /** The table would drop the new row of r's bin: it equals the stored one but not the buffered one. */
    ghost predicate LosesWrite(r: Rec)
      requires RecOk(cols, r)
      reads this, table
    {
      table.Stale(TumblingBin(width, r.ts), r.key, NextRow(cols, width, table.Merged(), r))
    }

    /** A record counts if and only if it is not too late and its write is not lost. */
    ghost predicate Counts(r: Rec)
      requires RecOk(cols, r)
      reads this, table
    {
      Accepts(r) && !LosesWrite(r)
    }

    /** The window of r has been emitted for the key of r. */
    ghost predicate Reopens(r: Rec)
      reads this
    {
      Emits(emitted, r.key, TumblingBin(width, r.ts))
    }

    /**
     * A record is dropped if and only if its window is due. Windows stay emitted once if and
     * only if no record that counts opens one again.
     */
    method ProcessElement(r: Rec)
      requires Valid() && RecOk(cols, r)
      modifies this`earliest, this`accepted, this`log, this`pending, this`clean, table
      ensures Valid() && table.persisted == old(table.persisted) && table.store == old(table.store)
      ensures accepted == old(accepted) + if old(Accepts(r)) then [r] else []
      ensures log == old(log) + if old(Counts(r)) then [r] else []
      ensures pending == old(pending) + if old(Counts(r)) then [r] else []
      ensures accepted == old(accepted) <==>
                && watermark.Some?
                && if width == 0 then r.ts < watermark.value
                   else TumblingBin(width, r.ts) + width <= TumblingBin(width, watermark.value)
      ensures clean <==> old(clean) && !old(Counts(r) && Reopens(r))
      ensures width > 0 && old(Recoverable()) ==> Recoverable()
    {
      var t := TumblingBin(width, r.ts);
      if watermark.Some? {
        BinsApart(width, r.ts, watermark.value);
      }
      if watermark.Some? && t < TumblingBin(width, watermark.value) {
        return;
      }
      hide Inv, NextRow, TumblingBin, Emits, RowOk, BackedBy;
      ghost var lost := Merge(r, t);
    }

    /** Merges r into its bin. */
    method Merge(r: Rec, t: int) returns (ghost lost: bool)
      requires Valid() && RecOk(cols, r) && t == TumblingBin(width, r.ts)
      modifies this`earliest, this`accepted, this`log, this`pending, this`clean, table
      ensures Valid() && table.persisted == old(table.persisted) && table.store == old(table.store)
      ensures accepted == old(accepted) + [r]
      ensures lost == old(LosesWrite(r))
      ensures log == old(log) + (if lost then [] else [r]) && pending == old(pending) + (if lost then [] else [r])
      ensures clean <==> old(clean) && (lost || !Emits(emitted, r.key, t))
      ensures forall bound :: bound <= t && old(table.Backed(bound)) ==> table.Backed(bound)
    {
      hide Inv, Emits, ProjMerge, NextRow, Put, MergeLayers, TumblingBin, RowOk, Slot, BackedBy;
      CountInv(cols, width, log, pending, table.Merged(), earliest, emitted, behind, clean, r);
      ghost var m := table.Merged();
      lost := InsertRow(r, t);
      if lost {
        EarliestStays(cols, width, log, pending, m, earliest, emitted, behind, clean, t);
      }
      earliest := Some(if earliest.Some? && earliest.value <= t then earliest.value else t);
      accepted := accepted + [r];
      if !lost {
        clean := clean && !Emits(emitted, r.key, t);
        log, pending := log + [r], pending + [r];
      }
    }

    /** Writes the new row of r's bin to the table, which may lose it. */
    method InsertRow(r: Rec, t: int) returns (ghost lost: bool)
      requires RecOk(cols, r) && t == TumblingBin(width, r.ts)
      requires r.key in Slot(table.Merged(), t) ==> RowOk(cols, Slot(table.Merged(), t)[r.key])
      modifies table
      ensures table.persisted == old(table.persisted) && table.store == old(table.store) && lost == old(LosesWrite(r))
      ensures lost ==> t in old(table.Merged()) && table.Merged() == old(table.Merged())
      ensures !lost ==> table.Merged() == Put(old(table.Merged()), t, r.key, NextRow(cols, width, old(table.Merged()), r))
      ensures forall bound :: bound <= t && old(table.Backed(bound)) ==> table.Backed(bound)
    {
      ghost var m := table.Merged();
      ghost var row := NextRow(cols, width, m, r);
      lost := table.Stale(t, r.key, row);
      StaleIsThere(table, t, r.key, row);
      hide ProjMerge, Put, MergeLayers, BackedBy, TumblingBin, RowOk, Slot;
      var current := table.Get(t, r.key);
      table.Insert(t, r.key, ProjMerge(cols, current, r));
    }

    predicate ShouldAdvance(w: nat)
      reads this
    {
      earliest.Some? && earliest.value + width <= TumblingBin(width, w)
    }

    /** One result per key of the bin, each what the pending records of the window owe. */
    method EmitBin(t: int, values: map<int, Row>, ghost m: Layer<Row>) returns (es: seq<Emission>, ghost bs: seq<seq<Rec>>)
      requires TableInv(cols, Span(width), pending, m, 0) && t in m && values == m[t]
      ensures BinResults(cols, width, pending, t, values.Keys, es, bs)
      ensures (forall k :: k in values ==> Emits(es, k, t)) && forall n :: 0 <= n < |es| ==> es[n].key in values && es[n].start == t
    {
      es, bs := [], [];
      var rest := values.Keys;
      assert values.Keys - rest == {};
      while rest != {}
        invariant rest <= values.Keys
        invariant BinResults(cols, width, pending, t, values.Keys - rest, es, bs)
        decreases |rest|
      {
        ghost var _ := SomeElement(rest);
        var k :| k in rest;
        TableBin(cols, width, pending, m, t, k);
        ghost var recs := InWindow(pending, width, k, t);
        var e := EmitOne(t, k, values[k], recs);
        OneMore(cols, width, pending, t, values.Keys - rest, es, bs, k);
        hide *;
        assert values.Keys - (rest - {k}) == values.Keys - rest + {k};
        es, bs := es + [e], bs + [recs];
        rest := rest - {k};
      }
      assert values.Keys - rest == values.Keys;
    }

    method EmitOne(t: int, k: int, row: Row, ghost recs: seq<Rec>) returns (e: Emission)
      requires RecsOk(cols, recs) && recs != [] && row == RowOf(cols, recs)
      ensures e == Owed(cols, width, k, t, recs)
    {
      forall i | 0 <= i < |cols|
        ensures BinOk(cols[i], row[i]) && BinAggregate(cols[i], row[i]) == VecAggregate(cols[i], Inputs(cols, recs, i))
      {
        RowIsOwed(cols, recs, i);
      }
      var values := seq(|cols|, i requires 0 <= i < |cols| && BinOk(cols[i], row[i]) => BinAggregate(cols[i], row[i]));
      e := Emission(k, t, t + width, if width == 0 then t else t + width - 1, values);
    }

    /** The earliest bin is emitted and dropped. */
    method Advance()
      requires Valid() && earliest.Some?
      modifies this`earliest, this`emitted, this`pending, this`behind, table
      ensures Valid() && old(emitted) <= emitted && old(earliest).value in old(table.Merged()) && table.store == old(table.store)
      ensures table.Merged() == old(table.Merged()) - {old(earliest).value}
      ensures forall n :: |old(emitted)| <= n < |emitted| ==> emitted[n].start == old(earliest).value
      ensures forall bound :: old(earliest).value < bound && old(table.Backed(bound)) ==> table.Backed(bound)
    {
      hide Inv, TableInv, MergeLayers, BinResults, Drop, TumblingBin, Span, BackedBy;
      ghost var m := table.Merged();
      InvTable(cols, width, log, pending, m, earliest, emitted, behind, clean);
      var t, es, next;
      ghost var bs;
      t, es, next, bs := TakeEarliest();
      StartsAt(cols, width, pending, t, m[t].Keys, es, bs);
      EmitInv(cols, width, log, pending, m, earliest, emitted, behind, clean, t, es, bs, next);
      emitted, behind := emitted + es, behind + bs;
      pending := Drop(pending, width, t);
      earliest := next;
    }

    /** Takes the earliest bin out of the table: its results, and the bin that is then the earliest. */
    method TakeEarliest() returns (t: int, es: seq<Emission>, next: Option<int>, ghost bs: seq<seq<Rec>>)
      requires earliest.Some? && earliest.value in table.Merged() && TableInv(cols, Span(width), pending, table.Merged(), 0)
      requires forall t :: t in table.Merged() ==> t >= 0
      requires forall t: nat :: t in table.Merged() ==> TumblingBin(width, t) == t
      modifies table
      ensures t == earliest.value && table.Merged() == old(table.Merged()) - {t} && table.store == old(table.store)
      ensures BinResults(cols, width, pending, t, old(table.Merged())[t].Keys, es, bs)
      ensures next.None? <==> table.Merged() == map[]
      ensures next.Some? ==> next.value in table.Merged() && forall t' :: t' in table.Merged() ==> next.value <= t'
      ensures forall bound :: t < bound && old(table.Backed(bound)) ==> table.Backed(bound)
    {
      hide TableInv, MergeLayers, BinResults, TumblingBin, Span, BackedBy;
      ghost var m := table.Merged();
      t := TumblingBin(width, earliest.value);
      var values := table.EvictForTimestamp(t);
      SlotIs(m, t);
      es, bs := EmitBin(t, values, m);
      next := table.GetMinTime();
      if next.Some? {
        next := Some(TumblingBin(width, next.value));
      }
    }

    /** Every result is for a window that the watermark has passed. */
    ghost predicate Passed()
      reads this
    {
      forall n :: 0 <= n < |emitted| ==>
        watermark.Some? && emitted[n].start + width <= TumblingBin(width, watermark.value)
    }

    /** Exactly the windows that the watermark passes are emitted; no record that counts is left in one. */
    method HandleWatermark(w: nat)
      requires Valid()
      modifies this`earliest, this`watermark, this`emitted, this`pending, this`behind, table
      ensures Valid() && watermark == Some(w) && old(emitted) <= emitted && table.store == old(table.store)
      ensures forall n :: |old(emitted)| <= n < |emitted| ==> emitted[n].start + width <= TumblingBin(width, w)
      ensures forall k, t :: OnGrid(t, Span(width)) && t + width <= TumblingBin(width, w) ==> InWindow(pending, width, k, t) == []
      ensures forall t :: t in table.Merged() ==> TumblingBin(width, w) < t + width && t in old(table.Merged())
      ensures old(Passed()) && (old(watermark).Some? ==> old(watermark).value <= w) ==> Passed()
      ensures CaughtUp()
      ensures old(Recoverable()) && (old(watermark).Some? ==> old(watermark).value <= w) ==> Recoverable()
    {
      hide Inv, MergeLayers, TumblingBin, OnGrid, InWindow, Span, BackedBy, StoresBins;
      ghost var before := EmittedBefore(watermark, width);
      if watermark.Some? && watermark.value <= w {
        TumblingBinsOrdered(width, watermark.value, w);
      }
      LaterBound(table, before, EmittedBefore(Some(w), width));
      watermark := Some(w);
      EmitDue(w);
      NothingDue(cols, width, log, pending, table.Merged(), earliest, emitted, behind, clean, TumblingBin(width, w));
    }

    /** Emits the earliest bin as long as it is due. */
    method EmitDue(w: nat)
      requires Valid()
      modifies this`earliest, this`emitted, this`pending, this`behind, table
      ensures Valid() && !ShouldAdvance(w) && old(emitted) <= emitted && table.store == old(table.store)
      ensures forall n :: |old(emitted)| <= n < |emitted| ==> emitted[n].start + width <= TumblingBin(width, w)
      ensures forall t :: t in table.Merged() ==> t in old(table.Merged())
      ensures old(table.Backed(TumblingBin(width, w) - width + 1)) ==> table.Backed(TumblingBin(width, w) - width + 1)
    {
      hide Inv, MergeLayers, TumblingBin, BackedBy;
      while ShouldAdvance(w)
        invariant Valid() && old(emitted) <= emitted && table.store == old(table.store)
        invariant forall t :: t in table.Merged() ==> t in old(table.Merged())
        invariant old(table.Backed(TumblingBin(width, w) - width + 1)) ==> table.Backed(TumblingBin(width, w) - width + 1)
        invariant forall n :: |old(emitted)| <= n < |emitted| ==> emitted[n].start + width <= TumblingBin(width, w)
        decreases |table.Merged()|
      {
        Smaller(table.Merged(), earliest.value);
        Advance();
      }
    }

    method HandleCheckpoint()
      requires Valid()
      modifies table
      ensures Valid() && table.buffered == map[] && table.persisted == table.Merged() == old(table.Merged())
      ensures old(Recoverable()) ==> Recoverable()
      ensures old(table.buffered) == map[] ==> table.store == old(table.store)
    {
      InvBins(cols, width, log, pending, table.Merged(), earliest, emitted, behind, clean);
      hide Inv, BackedBy, TumblingBin;
      table.Flush();
    }

    /**
     * A restart from the checkpoint of prev. The table comes back as it was, and the windows
     * still to be emitted with it, unless a window that is out comes back: it was written to the
     * store before it was emitted, and ends exactly at the watermark. It is then the earliest,
     * and due again.
     */
    constructor OnStart(prev: TumblingWindow)
      requires prev.Valid() && prev.Recoverable() && prev.CaughtUp() && prev.table.buffered == map[]
      ensures fresh(table) && cols == prev.cols && width == prev.width && watermark == prev.watermark && emitted == []
      ensures !ComesBack(prev) ==>
                && table.Merged() == prev.table.Merged()
                && Valid() && clean && log == accepted == pending == prev.pending && CaughtUp()
      ensures ComesBack(prev) ==>
                && prev.watermark.value == TumblingBin(width, prev.watermark.value)
                && table.Merged() == prev.table.Merged()[prev.watermark.value - width := prev.table.store[prev.watermark.value - width]]
                && earliest == Some(prev.watermark.value - width) && ShouldAdvance(prev.watermark.value)
    {
      hide Inv, MergeLayers, BackedBy, TumblingBin, Restored, Returns, OldestValid, StoresBins, EmittedBefore;
      RestartReads(prev);
      var oldest := OldestValid(prev.watermark, prev.width);
      cols, width, watermark, emitted := prev.cols, prev.width, prev.watermark, [];
      table := new TimeKeyMap<Row>.FromCheckpoint(prev.table.store, oldest);
      accepted, log, pending, behind, clean := prev.pending, prev.pending, prev.pending, [], true;
      earliest := None;
      new;
      var first := table.GetMinTime();
      if first.Some? {
        RestoredBin(prev.width, prev.table.store, oldest, first.value);
        earliest := Some(TumblingBin(width, first.value));
      }
      RestartKeeps(prev, table.Merged(), earliest);
    }
  }

  // ---------- what a run guarantees ----------

  /** If no record has opened a window again, every result is that of all the records that count, and comes once. */
  lemma {:induction false} CleanResults(s: TumblingWindow, n: nat)
    requires s.Valid() && s.clean && n < |s.emitted|
    ensures var k, t := s.emitted[n].key, s.emitted[n].start;
            var recs := InWindow(s.log, s.width, k, t);
            && recs != [] && RecsOk(s.cols, recs) && s.emitted[n] == Owed(s.cols, s.width, k, t, recs)
            && forall m :: 0 <= m < |s.emitted| && m != n ==> s.emitted[m].key != k || s.emitted[m].start != t
  {
    hide TableInv, InWindow, Owed;
    OnceIsAll(s.cols, s.width, s.log, s.pending, s.emitted, s.behind, n);
  }

  /** If one has, then once nothing is pending for an emitted window, some window has two results. */
  lemma {:induction false} ReopenedTwice(s: TumblingWindow)
    requires s.Valid() && !s.clean
    requires forall n :: 0 <= n < |s.emitted| ==> InWindow(s.pending, s.width, s.emitted[n].key, s.emitted[n].start) == []
    ensures exists m, n :: 0 <= m < n < |s.emitted|
                           && s.emitted[m].key == s.emitted[n].key && s.emitted[m].start == s.emitted[n].start
  {
    hide TableInv, InWindow, Owed;
  }

  /** With watermarks that do not go back, only a record at the watermark itself opens a window again, and only at width zero. */
  lemma {:induction false} ReopensIff(s: TumblingWindow, r: Rec)
    requires s.Valid() && s.Passed() && s.Accepts(r)
    ensures s.Reopens(r) <==>
              s.width == 0 && s.watermark == Some(r.ts) && Emits(s.emitted, r.key, r.ts)
  {
  }

  // ---------- a window that is emitted twice ----------

  const COUNTS: Columns := [Column(Count, false)]

  function At(ts: nat): Rec {
    Rec(1, ts, [Some(0)])
  }

  lemma {:induction false} BehindHas(emitted: seq<Emission>, behind: seq<seq<Rec>>, n: nat)
    requires |behind| == |emitted| && n < |emitted|
    ensures multiset(behind[n]) <= Behind(emitted, behind, emitted[n].key, emitted[n].start)
  {
    var last := |emitted| - 1;
    if n < last {
      assert emitted[..last][n] == emitted[n] && behind[..last][n] == behind[n];
      BehindHas(emitted[..last], behind[..last], n);
    }
  }

  /** A result is for a window that has records. */
  lemma {:induction false} ResultHasRecords(s: TumblingWindow, n: nat)
    requires s.Valid() && n < |s.emitted|
    ensures InWindow(s.log, s.width, s.emitted[n].key, s.emitted[n].start) != []
  {
    hide TableInv, InWindow, Owed, Once;
    BehindHas(s.emitted, s.behind, n);
    assert s.behind[n][0] in multiset(s.behind[n]);
    assert s.behind[n][0] in multiset(InWindow(s.log, s.width, s.emitted[n].key, s.emitted[n].start));
  }

  /** With all records in the window at ts of key 1, nothing is emitted for another window. */
  lemma {:induction false} OnlyWindow(log: seq<Rec>, ts: nat, k: int, t: int)
    requires forall n :: 0 <= n < |log| ==> log[n] == At(ts)
    ensures InWindow(log, 0, k, t) != [] ==> k == 1 && t == ts
    ensures log != [] ==> InWindow(log, 0, 1, ts) != []
  {
    if log != [] {
      OnlyWindow(log[..|log| - 1], ts, k, t);
    }
  }

  lemma {:induction false} EveryTick(t: int)
    ensures OnGrid(t, 1)
    decreases if t < 0 then 1 - t else t
  {
    if t < 0 {
      EveryTick(t + 1);
    } else if t >= 1 {
      EveryTick(t - 1);
    }
  }

  /** Once nothing is pending for the only window, it has a result. */
  lemma {:induction false} PassedWindow(s: TumblingWindow, ts: nat)
    requires s.Valid() && s.width == 0 && s.log != [] && forall n :: 0 <= n < |s.log| ==> s.log[n] == At(ts)
    requires InWindow(s.pending, 0, 1, ts) == []
    ensures Emits(s.emitted, 1, ts)
  {
    OnlyWindow(s.log, ts, 1, ts);
    EveryTick(ts);
    IsOut(s, 1, ts);
  }

  method EmittedAtTen() returns (s: TumblingWindow)
    ensures fresh(s) && fresh(s.table) && s.Valid() && s.cols == COUNTS && s.width == 0 && s.log == [At(10)]
    ensures s.watermark == Some(10) && Emits(s.emitted, 1, 10) && s.Passed() && 10 !in s.table.Merged()
  {
    s := OneInstant();
    hide Inv, MergeLayers, NextRow, BackedBy, StoresBins;
    s.HandleWatermark(10);
    EveryTick(10);
    PassedWindow(s, 10);
  }

  method OneInstant() returns (s: TumblingWindow)
    ensures fresh(s) && fresh(s.table) && s.Valid() && s.cols == COUNTS && s.width == 0 && s.log == [At(10)]
    ensures s.watermark == None && s.Passed()
  {
    s := new TumblingWindow(COUNTS, 0);
    hide Inv, MergeLayers, NextRow, BackedBy, StoresBins;
    s.ProcessElement(At(10));
  }

  /** Width zero: a count is emitted for 10 at watermark 10, and again for a second record at 10. */
  method InstantTwice() returns (es: seq<Emission>)
    ensures exists m, n :: 0 <= m < n < |es| && es[m].key == es[n].key == 1 && es[m].start == es[n].start == 10
  {
    var s := EmittedAtTen();
    hide Inv, MergeLayers, NextRow;
    StaleIsThere(s.table, 10, 1, NextRow(COUNTS, 0, s.table.Merged(), At(10)));
    s.ProcessElement(At(10));
    assert s.log == [At(10), At(10)] && !s.clean;
    s.HandleWatermark(10);
    forall n | 0 <= n < |s.emitted|
      ensures s.emitted[n].key == 1 && s.emitted[n].start == 10 && InWindow(s.pending, 0, 1, 10) == []
    {
      ResultHasRecords(s, n);
      OnlyWindow(s.log, 10, s.emitted[n].key, s.emitted[n].start);
      EveryTick(10);
    }
    ReopenedTwice(s);
    es := s.emitted;
  }

  // ---------- a window that comes back ----------

  /** The row of one record. */
  lemma {:induction false} OneRow(cols: Columns, width: nat, log: seq<Rec>, table: Layer<Row>, r: Rec)
    requires width > 0 && log == [r] && TableInv(cols, Span(width), log, table, 0) && TumblingBin(width, r.ts) == 0
    ensures 0 in table && r.key in table[0]
    ensures forall t :: t in table ==> t == 0
  {
    SelectAppend([], r, r.key, 0, width);
    assert [] + [r] == [r];
    GridZero(width);
    assert BinRecs(log, r.key, 0, Span(width)) == [r];
    forall t | t in table
      ensures t == 0
    {
      OnlyBin(cols, width, log, table, r, t);
    }
  }

  lemma {:induction false} OnlyBin(cols: Columns, width: nat, log: seq<Rec>, table: Layer<Row>, r: Rec, t: int)
    requires width > 0 && log == [r] && TableInv(cols, Span(width), log, table, 0) && TumblingBin(width, r.ts) == 0 && t in table
    ensures t == 0
  {
    assert table[t] != map[];
    var k := SomeElement(table[t].Keys);
    assert BinRecs(log, k, t, width) != [];
    SelectAppend([], r, k, t, t + width);
    assert [] + [r] == [r];
    if t < 0 {
      GridZero(width);
      GridGap(t, 0, width);
    } else if t > 0 {
      GridZero(width);
      GridGap(0, t, width);
    }
  }

  /** A count over windows of ten, with one record, written to the store. */
  method OneStored() returns (s: TumblingWindow)
    ensures fresh(s) && fresh(s.table) && s.Valid() && s.Recoverable() && s.cols == COUNTS && s.width == 10
    ensures s.watermark.None? && s.log == s.pending == [At(3)] && s.emitted == []
    ensures 0 in s.table.store && 1 in s.table.store[0] && forall t :: t in s.table.Merged() ==> t == 0
  {
    s := new TumblingWindow(COUNTS, 10);
    hide MergeLayers, NextRow, TableInv, Conserved, Once, ResultsOwed, BackedBy, OnGridAll;
    s.ProcessElement(At(3));
    s.HandleCheckpoint();
    OneRow(COUNTS, 10, s.pending, s.table.Merged(), At(3));
    StoredToo(s.table, 0, 0);
  }

  lemma {:induction false} StoredToo(table: TimeKeyMap<Row>, bound: int, t: int)
    requires t in table.persisted
    ensures table.Backed(bound) ==> t in table.store && table.store[t] == table.persisted[t]
  {
  }

  lemma {:induction false} EmptyLayers(table: TimeKeyMap<Row>)
    requires forall t :: t !in table.Merged()
    ensures table.Merged() == map[] && table.persisted == map[] && table.buffered == map[]
  {
    assert forall t :: t in table.persisted || t in table.buffered ==> t in table.Merged();
  }

  /** A window with records, of which none is pending, is out. */
  lemma {:induction false} IsOut(s: TumblingWindow, k: int, t: int)
    requires s.Valid() && OnGrid(t, Span(s.width)) && InWindow(s.log, s.width, k, t) != []
    requires InWindow(s.pending, s.width, k, t) == []
    ensures Emits(s.emitted, k, t)
  {
    hide TableInv, Once, Owed, InWindow, OnGrid;
    assert InWindow(s.log, s.width, k, t)[0] in multiset(InWindow(s.log, s.width, k, t));
    assert Behind(s.emitted, s.behind, k, t) != multiset{};
    if !Emits(s.emitted, k, t) {
      BehindNone(s.emitted, s.behind, k, t);
    }
  }

  lemma {:induction false} RecordAtThree()
    ensures InWindow([At(3)], 10, 1, 0) != [] && OnGrid(0, 10) && TumblingBin(10, 10) == 10
  {
    SelectAppend([], At(3), 1, 0, 10);
    assert [] + [At(3)] == [At(3)];
    GridZero(10);
  }

  /** The window is out, and only the store still has it. */
  method StoredAndOut() returns (s: TumblingWindow)
    ensures fresh(s) && fresh(s.table) && s.Valid() && s.Recoverable() && s.CaughtUp() && s.cols == COUNTS && s.width == 10
    ensures s.watermark == Some(10) && Emits(s.emitted, 1, 0)
    ensures 0 in s.table.store && s.table.Merged() == map[] && s.table.buffered == map[]
  {
    s := OneStored();
    hide Inv, MergeLayers, BackedBy, Emits, InWindow, OnGrid, TumblingBin, StoresBins;
    RecordAtThree();
    s.HandleWatermark(10);
    IsOut(s, 1, 0);
    EmptyLayers(s.table);
  }

  /**
   * A record at 3 is checkpointed, and its window [0, 10) is emitted at the watermark 10. At
   * the next checkpoint nothing is pending, and yet a restart from it finds the window due again.
   */
  method RestartTwice() returns (es: seq<Emission>, again: Option<int>, due: bool)
    ensures Emits(es, 1, 0) && again == Some(0) && due
  {
    var s := StoredAndOut();
    hide Inv, MergeLayers, BackedBy, Emits, TumblingBin, StoresBins;
    s.HandleCheckpoint();
    es := s.emitted;
    var t := new TumblingWindow.OnStart(s);
    again, due := t.earliest, t.ShouldAdvance(10);
  }
}
