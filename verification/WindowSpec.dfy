// What a sliding window over keyed records means, independently of bins: for each key and
// each window the one-shot aggregate of the accepted records inside it. Bins of one slide
// partition every window whose width is a multiple of the slide.
module WindowSpec {
  import opened Messages
  import opened Aggregates
  import opened SlidingMemory
  import opened SlidingRuns
  import opened TimeKeyMaps
  import opened Grid

  /** A record: its key, its time in nanoseconds, and the inputs of the aggregates. */
  datatype Rec = Rec(key: int, ts: nat, inputs: seq<Input>)

  predicate RecOk(cols: Columns, r: Rec) {
    |r.inputs| == |cols| && forall i :: 0 <= i < |cols| ==> InputOk(cols[i], r.inputs[i])
  }

  predicate RecsOk(cols: Columns, recs: seq<Rec>) {
    forall n :: 0 <= n < |recs| ==> RecOk(cols, recs[n])
  }

  /** The records of key k with a time in [lo, hi), in order of arrival. */
  function Select(log: seq<Rec>, k: int, lo: int, hi: int): seq<Rec> {
    if log == [] then []
    else
      var last := log[|log| - 1];
      Select(log[..|log| - 1], k, lo, hi) + if last.key == k && lo <= last.ts < hi then [last] else []
  }

  function Inputs(cols: Columns, recs: seq<Rec>, i: nat): (xs: seq<Input>)
    requires RecsOk(cols, recs) && i < |cols|
    ensures |xs| == |recs| && InputsOk(cols[i], xs)
  {
    seq(|recs|, n requires 0 <= n < |recs| => recs[n].inputs[i])
  }

  /** The bins of all the aggregates over some records. */
  function RowOf(cols: Columns, recs: seq<Rec>): (row: Row)
    requires RecsOk(cols, recs) && recs != []
    ensures RowOk(cols, row)
  {
    seq(|cols|, i requires 0 <= i < |cols| => BinOf(cols[i], Inputs(cols, recs, i)))
  }

  /** The bin merger of a projection. */
  function ProjMerge(cols: Columns, current: Option<Row>, r: Rec): (row: Row)
    requires RecOk(cols, r) && (current.Some? ==> RowOk(cols, current.value))
    ensures RowOk(cols, row)
  {
    match current
    case Some(bins) =>
      seq(|cols|, i requires 0 <= i < |cols| => Merge(cols[i], Some(bins[i]), r.inputs[i]))
    case None =>
      seq(|cols|, i requires 0 <= i < |cols| => Merge(cols[i], None, r.inputs[i]))
  }

  lemma {:induction false} RowOfAppend(cols: Columns, recs: seq<Rec>, r: Rec)
    requires RecsOk(cols, recs) && RecOk(cols, r)
    ensures RecsOk(cols, recs + [r])
    ensures RowOf(cols, recs + [r]) == ProjMerge(cols, if recs == [] then None else Some(RowOf(cols, recs)), r)
  {
    forall i | 0 <= i < |cols|
      ensures BinOf(cols[i], Inputs(cols, recs + [r], i))
           == ProjMerge(cols, if recs == [] then None else Some(RowOf(cols, recs)), r)[i]
    {
      assert Inputs(cols, recs + [r], i) == Inputs(cols, recs, i) + [r.inputs[i]];
      BinOfAppend(cols[i], Inputs(cols, recs, i), r.inputs[i]);
    }
  }

  lemma {:induction false} SelectOk(cols: Columns, log: seq<Rec>, k: int, lo: int, hi: int)
    requires RecsOk(cols, log)
    ensures RecsOk(cols, Select(log, k, lo, hi))
  {
    if log != [] {
      SelectOk(cols, log[..|log| - 1], k, lo, hi);
    }
  }

  lemma {:induction false} SelectAppend(log: seq<Rec>, r: Rec, k: int, lo: int, hi: int)
    ensures Select(log + [r], k, lo, hi)
         == Select(log, k, lo, hi) + if r.key == k && lo <= r.ts < hi then [r] else []
  {
    assert (log + [r])[..|log|] == log;
  }

  lemma {:induction false} SelectEmpty(log: seq<Rec>, k: int, lo: int, hi: int)
    requires hi <= lo
    ensures Select(log, k, lo, hi) == []
  {
    if log != [] {
      SelectEmpty(log[..|log| - 1], k, lo, hi);
    }
  }

  /** Splitting a time range splits its records. */
  lemma {:induction false} SelectSplit(log: seq<Rec>, k: int, lo: int, mid: int, hi: int)
    requires lo <= mid <= hi
    ensures multiset(Select(log, k, lo, hi)) == multiset(Select(log, k, lo, mid) + Select(log, k, mid, hi))
    ensures Select(log, k, lo, hi) == [] <==> Select(log, k, lo, mid) == [] && Select(log, k, mid, hi) == []
  {
    if log != [] {
      SelectSplit(log[..|log| - 1], k, lo, mid, hi);
    }
  }

  lemma {:induction false} InputsFront(cols: Columns, front: seq<Rec>, x: Rec, i: nat)
    requires RecsOk(cols, front + [x]) && i < |cols|
    ensures RecsOk(cols, front) && RecOk(cols, x)
    ensures multiset(Inputs(cols, front + [x], i)) == multiset(Inputs(cols, front, i)) + multiset{x.inputs[i]}
  {
    assert (front + [x])[|front|] == x;
    assert forall k :: 0 <= k < |front| ==> (front + [x])[k] == front[k];
    assert Inputs(cols, front + [x], i) == Inputs(cols, front, i) + [x.inputs[i]];
  }

  lemma {:induction false} RecsOkWithout(cols: Columns, a: seq<Rec>, x: Rec, b: seq<Rec>)
    requires RecsOk(cols, a + [x] + b)
    ensures RecsOk(cols, a + b)
  {
    var all := a + [x] + b;
    assert forall k :: 0 <= k < |a| ==> (a + b)[k] == all[k];
    assert forall k :: |a| <= k < |a + b| ==> (a + b)[k] == all[k + 1];
  }

  lemma {:induction false} InputsPermuted(cols: Columns, xs: seq<Rec>, ys: seq<Rec>, i: nat)
    requires RecsOk(cols, xs) && RecsOk(cols, ys) && i < |cols| && multiset(xs) == multiset(ys)
    ensures multiset(Inputs(cols, xs, i)) == multiset(Inputs(cols, ys, i))
  {
    if xs == [] {
      assert |multiset(ys)| == 0;
      assert ys == [];
    } else {
      hide Inputs, RecsOk, RecOk;
      var front, x := xs[..|xs| - 1], xs[|xs| - 1];
      assert xs == front + [x];
      assert x in multiset(ys);
      var p :| 0 <= p < |ys| && ys[p] == x;
      var a, b := ys[..p], ys[p + 1..];
      assert ys == a + [x] + b;
      RemoveBoth(front, x, a, b);
      InputsFront(cols, front, x, i);
      RecsOkWithout(cols, a, x, b);
      InputsPermuted(cols, front, a + b, i);
      InputsInsert(cols, a, x, b, i);
    }
  }

  lemma {:induction false} InputsInsert(cols: Columns, a: seq<Rec>, x: Rec, b: seq<Rec>, i: nat)
    requires RecsOk(cols, a + [x] + b) && RecsOk(cols, a + b) && i < |cols|
    ensures RecOk(cols, x)
    ensures multiset(Inputs(cols, a + [x] + b, i)) == multiset(Inputs(cols, a + b, i)) + multiset{x.inputs[i]}
  {
    assert (a + [x] + b)[|a|] == x;
    var all, both := Inputs(cols, a + [x] + b, i), Inputs(cols, a + b, i);
    assert all == both[..|a|] + [x.inputs[i]] + both[|a|..];
    assert both == both[..|a|] + both[|a|..];
  }

  lemma {:induction false} RemoveBoth(front: seq<Rec>, x: Rec, a: seq<Rec>, b: seq<Rec>)
    requires multiset(front + [x]) == multiset(a + [x] + b)
    ensures multiset(front) == multiset(a + b)
  {
    assert multiset(front) == multiset(front + [x]) - multiset{x};
    assert multiset(a + b) == multiset(a + [x] + b) - multiset{x};
  }

  // ---------- bins and windows ----------

  function BinStart(ts: nat, slide: nat): (t: int)
    requires slide > 0
    ensures 0 <= t <= ts < t + slide && OnGrid(t, slide)
  {
    GridIsMod(ts, slide);
    ts - ts % slide
  }

  /** The bin of a tumbling window; a width of zero makes every timestamp its own bin. */
  function TumblingBin(width: nat, ts: nat): (b: int)
    ensures 0 <= b <= ts && (width > 0 ==> ts < b + width)
  {
    if width == 0 then ts else BinStart(ts, width)
  }

  lemma {:induction false} TumblingBinsOrdered(width: nat, a: nat, b: nat)
    requires a <= b
    ensures TumblingBin(width, a) <= TumblingBin(width, b)
  {
    if width > 0 && TumblingBin(width, b) < TumblingBin(width, a) {
      GridGap(TumblingBin(width, b), TumblingBin(width, a), width);
      assert false;
    }
  }

  /** The bin of a bin is that bin. */
  lemma {:induction false} TumblingBinOfBin(width: nat, ts: nat)
    ensures TumblingBin(width, TumblingBin(width, ts)) == TumblingBin(width, ts)
  {
    if width > 0 {
      var b := TumblingBin(width, ts);
      if TumblingBin(width, b) < b {
        GridGap(TumblingBin(width, b), b, width);
        assert false;
      }
    }
  }

  /** The records of key k in the bin that starts at t. */
  function BinRecs(log: seq<Rec>, k: int, t: int, slide: nat): seq<Rec> {
    Select(log, k, t, t + slide)
  }

  /** The table holds, for every bin from the horizon on, the row of that bin's records. */
  ghost predicate TableInv(cols: Columns, slide: nat, log: seq<Rec>, table: Layer<Row>, horizon: int)
    requires slide > 0
  {
    && RecsOk(cols, log)
    && (forall t :: t in table ==> 0 <= t && OnGrid(t, slide) && horizon <= t && table[t] != map[])
    && (forall t, k :: t in table && k in table[t] ==>
          BinRecs(log, k, t, slide) != [] && RecsOk(cols, BinRecs(log, k, t, slide))
          && table[t][k] == RowOf(cols, BinRecs(log, k, t, slide)))
    && (forall t, k :: OnGrid(t, slide) && horizon <= t && BinRecs(log, k, t, slide) != [] ==>
          t in table && k in table[t])
  }

  /** Merging an accepted record into its bin keeps the table. */
  lemma {:induction false} TableGrows(cols: Columns, slide: nat, log: seq<Rec>, table: Layer<Row>, horizon: int, r: Rec)
    requires slide > 0 && TableInv(cols, slide, log, table, horizon) && RecOk(cols, r)
    requires horizon <= BinStart(r.ts, slide)
    ensures var t := BinStart(r.ts, slide);
            var current := if r.key in Slot(table, t) then Some(Slot(table, t)[r.key]) else None;
            && (current.Some? ==> RowOk(cols, current.value))
            && TableInv(cols, slide, log + [r], Put(table, t, r.key, ProjMerge(cols, current, r)), horizon)
  {
    var t, k := BinStart(r.ts, slide), r.key;
    var current := if k in Slot(table, t) then Some(Slot(table, t)[k]) else None;
    var row := ProjMerge(cols, current, r);
    var table' := Put(table, t, k, row);
    forall t', k'
      ensures OnGrid(t', slide) && (t' != t || k' != k) ==> BinRecs(log + [r], k', t', slide) == BinRecs(log, k', t', slide)
    {
      SelectAppend(log, r, k', t', t' + slide);
      if OnGrid(t', slide) && t' < t {
        GridGap(t', t, slide);
      } else if OnGrid(t', slide) && t < t' {
        GridGap(t, t', slide);
      }
    }
    SelectOk(cols, log, k, t, t + slide);
    SelectAppend(log, r, k, t, t + slide);
    RowOfAppend(cols, BinRecs(log, k, t, slide), r);
    assert table'[t][k] == RowOf(cols, BinRecs(log + [r], k, t, slide));
    assert k in table'[t];
  }

  /** The row of key k in the bin at t, if the bin has records of k. */
  ghost function BinRow(cols: Columns, log: seq<Rec>, k: int, t: int, slide: nat): (row: seq<Row>)
    requires RecsOk(cols, log)
    ensures RowsOk(cols, row)
  {
    SelectOk(cols, log, k, t, t + slide);
    if BinRecs(log, k, t, slide) == [] then [] else [RowOf(cols, BinRecs(log, k, t, slide))]
  }

  /** The rows of key k in the bins of [lo, hi), oldest first. */
  ghost function BinRows(cols: Columns, log: seq<Rec>, k: int, lo: int, hi: int, slide: nat): (rows: seq<Row>)
    requires slide > 0 && RecsOk(cols, log)
    ensures RowsOk(cols, rows)
    decreases hi - lo
  {
    if hi <= lo then []
    else BinRows(cols, log, k, lo, hi - slide, slide) + BinRow(cols, log, k, hi - slide, slide)
  }

  lemma {:induction false} BinRowsStep(cols: Columns, log: seq<Rec>, k: int, lo: int, hi: int, slide: nat)
    requires slide > 0 && lo < hi && RecsOk(cols, log)
    ensures BinRows(cols, log, k, lo, hi, slide)
         == BinRows(cols, log, k, lo, hi - slide, slide) + BinRow(cols, log, k, hi - slide, slide)
    ensures RecsOk(cols, Select(log, k, hi - slide, hi))
    ensures BinRow(cols, log, k, hi - slide, slide)
         == if Select(log, k, hi - slide, hi) == [] then [] else [RowOf(cols, Select(log, k, hi - slide, hi))]
  {
    hide Select;
    SelectOk(cols, log, k, hi - slide, hi);
    assert hi - slide + slide == hi;
  }

  lemma {:induction false} BinRowsNone(cols: Columns, log: seq<Rec>, k: int, lo: int, hi: int, slide: nat)
    requires slide > 0 && hi <= lo && RecsOk(cols, log)
    ensures BinRows(cols, log, k, lo, hi, slide) == []
  {
  }

  lemma {:induction false} BinRowsFirst(cols: Columns, log: seq<Rec>, k: int, lo: int, hi: int, slide: nat)
    requires slide > 0 && lo < hi && OnGrid(hi - lo, slide) && RecsOk(cols, log)
    ensures BinRows(cols, log, k, lo, hi, slide)
         == BinRow(cols, log, k, lo, slide) + BinRows(cols, log, k, lo + slide, hi, slide)
    decreases hi - lo
  {
    var t := hi - slide;
    hide *;
    GridZero(slide);
    GridStep(hi - lo, slide);
    GridGap(0, hi - lo, slide);
    BinRowsStep(cols, log, k, lo, hi, slide);
    if lo < t {
      BinRowsFirst(cols, log, k, lo, t, slide);
      BinRowsStep(cols, log, k, lo + slide, hi, slide);
      var x, y, z := BinRow(cols, log, k, lo, slide), BinRows(cols, log, k, lo + slide, t, slide), BinRow(cols, log, k, t, slide);
      assert (x + y) + z == x + (y + z);
    } else {
      BinRowsNone(cols, log, k, lo, t, slide);
      BinRowsNone(cols, log, k, lo + slide, hi, slide);
    }
  }

  /** A record at or beyond the end of a range does not concern its bins. */
  lemma {:induction false} BinRowsGrow(cols: Columns, log: seq<Rec>, r: Rec, k: int, lo: int, hi: int, slide: nat)
    requires slide > 0 && RecsOk(cols, log) && RecOk(cols, r) && hi <= r.ts
    ensures RecsOk(cols, log + [r])
    ensures BinRows(cols, log + [r], k, lo, hi, slide) == BinRows(cols, log, k, lo, hi, slide)
    decreases hi - lo
  {
    assert RecsOk(cols, log + [r]);
    if lo < hi {
      BinRowsGrow(cols, log, r, k, lo, hi - slide, slide);
      SelectAppend(log, r, k, hi - slide, hi);
      assert BinRecs(log + [r], k, hi - slide, slide) == BinRecs(log, k, hi - slide, slide);
    }
  }

  /** A window has live bins exactly if it has records. */
  lemma {:induction false} BinRowsEmpty(cols: Columns, log: seq<Rec>, k: int, lo: int, hi: int, slide: nat)
    requires slide > 0 && RecsOk(cols, log) && lo <= hi && OnGrid(lo, slide) && OnGrid(hi, slide)
    ensures BinRows(cols, log, k, lo, hi, slide) == [] <==> Select(log, k, lo, hi) == []
    decreases hi - lo
  {
    if lo == hi {
      SelectEmpty(log, k, lo, hi);
    } else {
      hide *;
      GridGap(lo, hi, slide);
      GridStep(hi, slide);
      BinRowsEmpty(cols, log, k, lo, hi - slide, slide);
      BinRowsStep(cols, log, k, lo, hi, slide);
      SelectSplit(log, k, lo, hi - slide, hi);
    }
  }

  /**
   * A window whose ends are on the grid is the disjoint union of its bins: the rows of its
   * bins combine to the bin of all its records.
   */
  lemma {:induction false} WindowCombines(cols: Columns, log: seq<Rec>, k: int, lo: int, hi: int, slide: nat, i: nat)
    requires slide > 0 && RecsOk(cols, log) && lo <= hi && OnGrid(lo, slide) && OnGrid(hi, slide) && i < |cols|
    ensures RecsOk(cols, Select(log, k, lo, hi))
    ensures Combined(cols, BinRows(cols, log, k, lo, hi, slide), Select(log, k, lo, hi), i)
    decreases hi - lo
  {
    hide *;
    SelectOk(cols, log, k, lo, hi);
    if lo == hi {
      NothingCombines(cols, log, k, lo, slide, i);
    } else {
      var t := hi - slide;
      GridGap(lo, hi, slide);
      GridStep(hi, slide);
      WindowCombines(cols, log, k, lo, t, slide, i);
      SelectSplit(log, k, lo, t, hi);
      SelectOk(cols, log, k, t, hi);
      BinRowsStep(cols, log, k, lo, hi, slide);
      WindowStep(cols, Select(log, k, lo, hi), Select(log, k, lo, t), Select(log, k, t, hi),
                 BinRows(cols, log, k, lo, t, slide), i);
    }
  }

  lemma {:induction false} NothingCombines(cols: Columns, log: seq<Rec>, k: int, t: int, slide: nat, i: nat)
    requires slide > 0 && RecsOk(cols, log) && i < |cols|
    ensures RecsOk(cols, Select(log, k, t, t))
    ensures Combined(cols, BinRows(cols, log, k, t, t, slide), Select(log, k, t, t), i)
  {
    SelectEmpty(log, k, t, t);
  }

  /** The rows combine to the bin of all the records. */
  ghost predicate Combined(cols: Columns, rows: seq<Row>, recs: seq<Rec>, i: nat)
    requires RowsOk(cols, rows) && RecsOk(cols, recs) && i < |cols|
  {
    && (rows == [] <==> recs == [])
    && (rows != [] ==> CombineAll(cols[i], Bins(cols, rows, i)) == BinOf(cols[i], Inputs(cols, recs, i)))
  }

  /** Adding the youngest bin: front and bin are the records of the older bins and of this one. */
  lemma {:induction false} WindowStep(cols: Columns, all: seq<Rec>, front: seq<Rec>, bin: seq<Rec>, rows: seq<Row>, i: nat)
    requires RecsOk(cols, all) && RecsOk(cols, front) && RecsOk(cols, bin) && RowsOk(cols, rows) && i < |cols|
    requires multiset(all) == multiset(front + bin)
    requires Combined(cols, rows, front, i)
    ensures RowsOk(cols, rows + if bin == [] then [] else [RowOf(cols, bin)])
    ensures Combined(cols, rows + if bin == [] then [] else [RowOf(cols, bin)], all, i)
  {
    assert |all| == |multiset(all)| == |front + bin|;
    if all != [] {
      InputsPermuted(cols, all, front + bin, i);
      BinOfPermutation(cols[i], Inputs(cols, all, i), Inputs(cols, front + bin, i));
      assert Inputs(cols, front + bin, i) == Inputs(cols, front, i) + Inputs(cols, bin, i);
      if bin == [] {
        assert rows + [] == rows;
        assert Inputs(cols, front, i) + Inputs(cols, bin, i) == Inputs(cols, front, i);
      } else {
        AddBin(cols, front, bin, rows, i);
      }
    } else {
      assert rows + [] == rows;
    }
  }

  lemma {:induction false} AddBin(cols: Columns, front: seq<Rec>, bin: seq<Rec>, rows: seq<Row>, i: nat)
    requires RecsOk(cols, front) && RecsOk(cols, bin) && RowsOk(cols, rows) && i < |cols|
    requires bin != [] && Combined(cols, rows, front, i)
    ensures RowsOk(cols, rows + [RowOf(cols, bin)])
    ensures InputsOk(cols[i], Inputs(cols, front, i) + Inputs(cols, bin, i))
    ensures CombineAll(cols[i], Bins(cols, rows + [RowOf(cols, bin)], i))
         == BinOf(cols[i], Inputs(cols, front, i) + Inputs(cols, bin, i))
  {
    var c, b := cols[i], BinOf(cols[i], Inputs(cols, bin, i));
    assert Bins(cols, rows + [RowOf(cols, bin)], i) == Bins(cols, rows, i) + [b];
    if front == [] {
      assert Bins(cols, rows, i) + [b] == [b];
      assert Inputs(cols, front, i) + Inputs(cols, bin, i) == Inputs(cols, bin, i);
    } else {
      CombineAllAppend(c, Bins(cols, rows, i), b);
      BinOfConcat(c, Inputs(cols, front, i), Inputs(cols, bin, i));
    }
  }

  // ---------- the records a restart still knows ----------

  /** The records of the bins from h on. */
  function Recent(log: seq<Rec>, h: int, slide: nat): seq<Rec>
    requires slide > 0
  {
    if log == [] then []
    else
      var last := log[|log| - 1];
      Recent(log[..|log| - 1], h, slide) + if h <= BinStart(last.ts, slide) then [last] else []
  }

  lemma {:induction false} RecentOk(cols: Columns, log: seq<Rec>, h: int, slide: nat)
    requires slide > 0 && RecsOk(cols, log)
    ensures RecsOk(cols, Recent(log, h, slide))
  {
    if log != [] {
      RecentOk(cols, log[..|log| - 1], h, slide);
    }
  }

  /** A range that starts on the grid from h on has kept all its records. */
  lemma {:induction false} RecentKeeps(log: seq<Rec>, h: int, slide: nat, k: int, lo: int, hi: int)
    requires slide > 0 && OnGrid(lo, slide) && h <= lo
    ensures Select(Recent(log, h, slide), k, lo, hi) == Select(log, k, lo, hi)
  {
    if log != [] {
      var front, last := log[..|log| - 1], log[|log| - 1];
      RecentKeeps(front, h, slide, k, lo, hi);
      if h <= BinStart(last.ts, slide) {
        SelectAppend(Recent(front, h, slide), last, k, lo, hi);
      } else {
        assert Recent(log, h, slide) == Recent(front, h, slide);
        if lo <= last.ts {
          GridGap(BinStart(last.ts, slide), lo, slide);
          assert false;
        }
      }
    }
  }

  /** A bin before h has none left. */
  lemma {:induction false} RecentDrops(log: seq<Rec>, h: int, slide: nat, k: int, t: int)
    requires slide > 0 && OnGrid(t, slide) && t < h
    ensures BinRecs(Recent(log, h, slide), k, t, slide) == []
  {
    if log != [] {
      var front, last := log[..|log| - 1], log[|log| - 1];
      RecentDrops(front, h, slide, k, t);
      if h <= BinStart(last.ts, slide) {
        SelectAppend(Recent(front, h, slide), last, k, t, t + slide);
        GridGap(t, BinStart(last.ts, slide), slide);
      } else {
        assert Recent(log, h, slide) == Recent(front, h, slide);
      }
    }
  }
}
