// What a restarted sliding window emits, against what the operator before it would have
// emitted: the records of every open window are the same, so only the columns that depend on
// more than these records can differ.
module Restarts {
  import opened Messages
  import opened Aggregates
  import opened SlidingMemory
  import opened SlidingRuns
  import opened WindowSpec
  import opened SlidingSpec
  import opened SlidingWindows
  import opened Grid

  /** What a bin has kept. */
  lemma {:induction false} BinAfterRestart(cols: Columns, log: seq<Rec>, h: int, slide: nat, k: int, t: int)
    requires slide > 0 && RecsOk(cols, log) && OnGrid(t, slide)
    ensures RecsOk(cols, Recent(log, h, slide))
    ensures BinRow(cols, Recent(log, h, slide), k, t, slide) == if h <= t then BinRow(cols, log, k, t, slide) else []
  {
    RecentOk(cols, log, h, slide);
    if h <= t {
      RecentKeeps(log, h, slide, k, t, t + slide);
    } else {
      RecentDrops(log, h, slide, k, t);
    }
  }

  lemma {:induction false} RowsAfterRestart(cols: Columns, log: seq<Rec>, h: int, slide: nat, k: int, lo: int, hi: int)
    requires slide > 0 && RecsOk(cols, log) && OnGrid(lo, slide) && OnGrid(hi, slide) && h <= lo
    ensures RecsOk(cols, Recent(log, h, slide))
    ensures BinRows(cols, Recent(log, h, slide), k, lo, hi, slide) == BinRows(cols, log, k, lo, hi, slide)
    decreases hi - lo
  {
    hide OnGrid, Recent, BinRow;
    RecentOk(cols, log, h, slide);
    if lo < hi {
      GridStep(hi, slide);
      GridGap(lo, hi, slide);
      RowsAfterRestart(cols, log, h, slide, k, lo, hi - slide);
      BinAfterRestart(cols, log, h, slide, k, hi - slide);
    }
  }

  /** Evictions are unsafe for the columns that they were unsafe for; fewer columns stay spoiled. */
  lemma {:induction false} FewerSpoiled(cols: Columns, live: seq<Row>, a: map<nat, Debt>, b: map<nat, Debt>)
    requires RowsOk(cols, live) && a.Keys <= b.Keys
    ensures NextSpoiled(cols, live, a).Keys <= NextSpoiled(cols, live, b).Keys
  {
  }

  /** The window at b once the operator has been restarted at the watermark w. */
  lemma {:induction false} SameRows(cols: Columns, width: nat, slide: nat, log: seq<Rec>, w: nat, k: int, b: int)
    requires Configured(width, slide) && RecsOk(cols, log) && OnGrid(b, slide) && BinStart(w, slide) <= b
    ensures RecsOk(cols, Recent(log, w - width, slide))
    ensures WindowRows(cols, width, slide, Recent(log, w - width, slide), k, b) == WindowRows(cols, width, slide, log, k, b)
    ensures WindowRecs(Recent(log, w - width, slide), k, b, width, slide) == WindowRecs(log, k, b, width, slide)
  {
    hide *;
    ConfiguredIs(width, slide);
    GridStep(b, slide);
    GridSub(b + slide, width, slide);
    assert b + slide - width == b - width + slide;
    RowsAfterRestart(cols, log, w - width, slide, k, b - width + slide, b + slide);
    WindowRowsIs(cols, width, slide, log, k, b);
    WindowRowsIs(cols, width, slide, Recent(log, w - width, slide), k, b);
    RestartFrom(w, width, slide);
    RestartKeepsWindow(log, width, slide, Some(w), k, b);
  }

  lemma {:induction false} DoubtBefore(cols: Columns, width: nat, slide: nat, log: seq<Rec>, since: int, k: int, b: int)
    requires slide > 0 && RecsOk(cols, log) && b < since
    ensures Doubted(cols, width, slide, log, since, k, b) == map[]
  {
  }

  lemma {:induction false} NextDoubt(cols: Columns, width: nat, slide: nat, log: seq<Rec>, w: nat, since: int, k: int,
                                     b: int)
    requires Configured(width, slide) && RecsOk(cols, log) && RecsOk(cols, Recent(log, w - width, slide))
    requires OnGrid(b, slide) && since <= BinStart(w, slide) <= b
    requires WindowRows(cols, width, slide, Recent(log, w - width, slide), k, b) == WindowRows(cols, width, slide, log, k, b)
    requires Doubted(cols, width, slide, Recent(log, w - width, slide), BinStart(w, slide), k, b - slide).Keys
          <= Doubted(cols, width, slide, log, since, k, b - slide).Keys
    requires b == BinStart(w, slide) ==>
               Doubted(cols, width, slide, Recent(log, w - width, slide), BinStart(w, slide), k, b - slide) == map[]
    ensures Doubted(cols, width, slide, Recent(log, w - width, slide), BinStart(w, slide), k, b).Keys
         <= Doubted(cols, width, slide, log, since, k, b).Keys
  {
    hide *;
    ConfiguredIs(width, slide);
    var kept, resume := Recent(log, w - width, slide), BinStart(w, slide);
    assert resume <= w < resume + slide;
    GridSub(b, width, slide);
    GridStep(b, slide);
    DoubtedIs(cols, width, slide, kept, resume, k, b);
    DoubtedIs(cols, width, slide, log, since, k, b);
    BinAfterRestart(cols, log, w - width, slide, k, b - width);
    if w <= b {
      RowsAfterRestart(cols, log, w - width, slide, k, b - width, b + slide);
      FewerSpoiled(cols, BinRows(cols, log, k, b - width, b + slide, slide),
                   Doubted(cols, width, slide, kept, resume, k, b - slide), Doubted(cols, width, slide, log, since, k, b - slide));
    } else if resume < b {
      GridGap(resume, b, slide);
      assert false;
    }
  }

  /** What a restarted operator has in doubt the one before it would have had in doubt. */
  lemma {:induction false} LessDoubt(cols: Columns, width: nat, slide: nat, log: seq<Rec>, w: nat, since: int, k: int,
                                     b: int)
    requires Configured(width, slide) && RecsOk(cols, log) && OnGrid(b, slide) && since <= BinStart(w, slide) <= b
    ensures RecsOk(cols, Recent(log, w - width, slide))
    ensures Doubted(cols, width, slide, Recent(log, w - width, slide), BinStart(w, slide), k, b).Keys
         <= Doubted(cols, width, slide, log, since, k, b).Keys
    decreases b - BinStart(w, slide)
  {
    hide *;
    SameRows(cols, width, slide, log, w, k, b);
    var kept, resume := Recent(log, w - width, slide), BinStart(w, slide);
    ConfiguredIs(width, slide);
    if b == resume {
      DoubtBefore(cols, width, slide, kept, resume, k, b - slide);
    } else {
      GridGap(resume, b, slide);
      GridStep(b, slide);
      LessDoubt(cols, width, slide, log, w, since, k, b - slide);
    }
    NextDoubt(cols, width, slide, log, w, since, k, b);
  }

  lemma {:induction false} ConfiguredIs(width: nat, slide: nat)
    requires Configured(width, slide)
    ensures slide > 0 && width > 0 && OnGrid(width, slide)
  {
  }

  lemma {:induction false} RestartFrom(w: nat, width: nat, slide: nat)
    requires slide > 0
    ensures MinValid(Some(w), width) == w - width && Resume(Some(w), slide) == BinStart(w, slide)
  {
  }

  /** Two values that a column may read from the same bins. */
  lemma {:induction false} ReadsAgree(c: Column, live: seq<Bin>, owed: Output, v: Option<Output>, v': Option<Output>)
    requires live != [] && BinsOk(c, live) && ReadsAs(c, live, owed, v) && ReadsAs(c, live, owed, v')
    ensures v == v' || (c == SUM && owed == OptOut(None) && ReadsNullAs(v) && ReadsNullAs(v'))
  {
  }

  /** Null, or 0 in its place. */
  predicate ReadsNullAs(v: Option<Output>) {
    v == Some(OptOut(None)) || v == Some(OptOut(Some(0)))
  }

  /**
   * Of the same key and window, the emission e of an operator restarted at the watermark w and
   * the emission f that the one before it would have made agree in every column, unless f's is
   * a nullable Avg in doubt; and where a nullable Sum owes null, one of them may read 0.
   */
  lemma {:induction false} RestartEmits(cols: Columns, width: nat, slide: nat, log: seq<Rec>, w: nat, since: int,
                                        e: Emission,
                                        f: Emission, i: nat)
    requires Configured(width, slide) && RecsOk(cols, log) && since <= BinStart(w, slide) && i < |cols|
    requires RecsOk(cols, Recent(log, w - width, slide))
    requires Owed(cols, width, slide, Recent(log, w - width, slide), BinStart(w, slide), e)
    requires Owed(cols, width, slide, log, since, f)
    requires e.key == f.key && e.start == f.start && OnGrid(e.start, slide) && BinStart(w, slide) <= e.start
    ensures e.end == f.end && e.timestamp == f.timestamp && |e.values| == |f.values| == |cols|
    ensures || e.values[i] == f.values[i]
            || (cols[i] == AVG && i in Doubted(cols, width, slide, log, since, f.key, f.start))
            || (cols[i] == SUM && ReadsNullAs(e.values[i]) && ReadsNullAs(f.values[i]))
  {
    var kept, resume := Recent(log, w - width, slide), BinStart(w, slide);
    SameRows(cols, width, slide, log, w, e.key, e.start);
    LessDoubt(cols, width, slide, log, w, since, e.key, e.start);
    var recs, rows := WindowRecs(log, e.key, e.start, width, slide), WindowRows(cols, width, slide, log, e.key, e.start);
    hide Recent, OnGrid, BinStart, Doubted, WindowRecs, WindowRows, ReadsAs, OwingRead, OwesEvenly, VecAggregate;
    assert ColumnRight(cols, recs, rows, Doubted(cols, width, slide, kept, resume, e.key, e.start), i, e.values[i]);
    assert ColumnRight(cols, recs, rows, Doubted(cols, width, slide, log, since, e.key, e.start), i, f.values[i]);
    if i !in Doubted(cols, width, slide, log, since, e.key, e.start) {
      ReadsAgree(cols[i], Bins(cols, rows, i), VecAggregate(cols[i], Inputs(cols, recs, i)), e.values[i], f.values[i]);
    }
  }
}
