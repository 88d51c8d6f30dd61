// The keyed sliding-window operator of a two-phase plan: records are merged into bins of one
// slide, and as the watermark passes a bin it enters the memory view, the bin that is one
// width older leaves it, and one result per key is emitted. A restart rebuilds the memory
// view from the table.
module SlidingWindows {
  import opened Messages
  import opened Aggregates
  import opened SlidingMemory
  import opened SlidingRuns
  import opened TimeKeyMaps
  import opened WindowSpec
  import opened SlidingSpec
  import opened Grid
  import opened Extremes

  /** Everything the operator keeps, with the table read as its merged map. */
  datatype View = View(
    log: seq<Rec>,                 // the records counted so far
    table: Layer<Row>,
    memory: map<int, ProjMem>,
    state: SlidingState,
    watermark: Option<nat>,
    emitted: seq<Emission>,
    since: int,                    // windows that start here or later are this operator's
    frontier: int)                 // every one of them that ends by here has been emitted

  /** What holds whatever the watermark is. */
  ghost predicate Core(cols: Columns, width: nat, slide: nat, v: View)
    requires Configured(width, slide)
  {
    && OnGrid(v.frontier, slide) && v.since <= v.frontier
    && TableInv(cols, slide, v.log, v.table, v.frontier - width)
    && EmittedInv(cols, width, slide, v.log, v.since, v.emitted, v.frontier)
    && StateInv(cols, width, slide, v)
  }

  ghost predicate StateInv(cols: Columns, width: nat, slide: nat, v: View)
    requires Configured(width, slide)
  {
    match v.state
    case NoData => v.memory == map[] && v.table == map[]
    case OnlyBuffered(earliest) =>
      && v.memory == map[] && earliest in v.table && v.frontier <= earliest
      && (forall t :: t in v.table ==> earliest <= t)
    case InMemory(next) => next == v.frontier && MemoryInv(cols, width, slide, v.log, v.since, v.memory, v.frontier)
  }

  /** No window that has been emitted can still receive records. */
  ghost predicate Closed(slide: nat, v: View)
    requires slide > 0
  {
    v.frontier == 0 || (v.watermark.Some? && v.frontier <= BinStart(v.watermark.value, slide))
  }

  /** The row that record r gives its bin. */
  ghost function NextRow(cols: Columns, width: nat, slide: nat, v: View, r: Rec): (row: Row)
    requires Configured(width, slide) && Core(cols, width, slide, v) && RecOk(cols, r)
    ensures RowOk(cols, row)
  {
    var slot := Slot(v.table, BinStart(r.ts, slide));
    ProjMerge(cols, if r.key in slot then Some(slot[r.key]) else None, r)
  }

  function StateAfter(state: SlidingState, t: int): SlidingState {
    match state
    case NoData => OnlyBuffered(t)
    case OnlyBuffered(earliest) => OnlyBuffered(if t < earliest then t else earliest)
    case InMemory(next) => InMemory(next)
  }

  lemma {:induction false} AcceptState(cols: Columns, width: nat, slide: nat, v: View, t: int, row: Row, r: Rec)
    requires Configured(width, slide) && StateInv(cols, width, slide, v) && v.frontier <= t <= r.ts && RecOk(cols, r)
    ensures StateInv(cols, width, slide,
                     v.(log := v.log + [r], table := Put(v.table, t, r.key, row), state := StateAfter(v.state, t)))
  {
    hide MemoryInv;
    if v.state.InMemory? {
      MemoryGrows(cols, width, slide, v.log, v.since, v.memory, v.frontier, r);
    }
  }

  lemma {:induction false} AcceptKeeps(cols: Columns, width: nat, slide: nat, v: View, r: Rec)
    requires Configured(width, slide) && Core(cols, width, slide, v) && RecOk(cols, r)
    requires v.frontier <= BinStart(r.ts, slide)
    ensures var t := BinStart(r.ts, slide);
            Core(cols, width, slide, v.(log := v.log + [r],
                                        table := Put(v.table, t, r.key, NextRow(cols, width, slide, v, r)),
                                        state := StateAfter(v.state, t)))
  {
    var t, row := BinStart(r.ts, slide), NextRow(cols, width, slide, v, r);
    TableGrows(cols, slide, v.log, v.table, v.frontier - width, r);
    hide TableInv, EmittedInv, StateInv, OnGrid, Put, BinStart, NextRow, StateAfter, ProjMerge;
    EmittedGrows(cols, width, slide, v.log, v.since, v.emitted, v.frontier, r);
    AcceptState(cols, width, slide, v, t, row, r);
  }

  /** All that an accepted record needs of its bin. */
  lemma {:induction false} Accepting(cols: Columns, width: nat, slide: nat, v: View, r: Rec)
    requires Configured(width, slide) && Core(cols, width, slide, v) && Closed(slide, v) && RecOk(cols, r)
    requires v.watermark.Some? ==> BinStart(v.watermark.value, slide) <= BinStart(r.ts, slide)
    ensures var t := BinStart(r.ts, slide);
            var v' := v.(log := v.log + [r], table := Put(v.table, t, r.key, NextRow(cols, width, slide, v, r)),
                         state := StateAfter(v.state, t));
            && Core(cols, width, slide, v') && Closed(slide, v')
            && EvictedBefore(v.watermark, width) <= t
            && (v.watermark.Some? && !ShouldAdvance(v.state, v.watermark.value, slide) ==>
                  !ShouldAdvance(v'.state, v.watermark.value, slide))
  {
    WidthIsSlides(width, slide);
    assert v.frontier <= BinStart(r.ts, slide);
    hide TableInv, EmittedInv, StateInv, OnGrid, Put, NextRow;
    AcceptKeeps(cols, width, slide, v, r);
  }

  lemma {:induction false} NextRowIs(cols: Columns, width: nat, slide: nat, v: View, r: Rec)
    requires Configured(width, slide) && Core(cols, width, slide, v) && RecOk(cols, r)
    ensures var slot := Slot(v.table, BinStart(r.ts, slide));
            && (r.key in slot ==> RowOk(cols, slot[r.key]))
            && NextRow(cols, width, slide, v, r) == ProjMerge(cols, if r.key in slot then Some(slot[r.key]) else None, r)
  {
    hide TableInv, EmittedInv, StateInv, OnGrid, ProjMerge, RowOk;
    BinRowsOk(cols, slide, v.log, v.table, v.frontier - width, BinStart(r.ts, slide));
  }

  /** What the operator keeps at its core does not depend on the watermark. */
  lemma {:induction false} NewWatermark(cols: Columns, width: nat, slide: nat, v: View, w: nat)
    requires Configured(width, slide) && Core(cols, width, slide, v)
    ensures Core(cols, width, slide, v.(watermark := Some(w)))
  {
    hide TableInv, EmittedInv, MemoryInv;
  }

  /** A bin that is in the table already does not change the state. */
  lemma {:induction false} SameState(cols: Columns, width: nat, slide: nat, v: View, t: int)
    requires Configured(width, slide) && Core(cols, width, slide, v) && t in v.table
    ensures StateAfter(v.state, t) == v.state
  {
    hide MemoryInv;
  }

  // ---------- advancing the window ----------

  /** Where the next advance starts: the window at b is the first one to be completed. */
  ghost predicate Poised(cols: Columns, width: nat, slide: nat, v: View, b: int)
    requires Configured(width, slide)
  {
    && OnGrid(b, slide) && v.frontier <= b && v.since <= b
    && TableInv(cols, slide, v.log, v.table, b - width)
    && EmittedInv(cols, width, slide, v.log, v.since, v.emitted, b)
    && MemoryInv(cols, width, slide, v.log, v.since, v.memory, b)
  }

  lemma {:induction false} ReadyToAdvance(cols: Columns, width: nat, slide: nat, v: View)
    requires Configured(width, slide) && Core(cols, width, slide, v) && !v.state.NoData?
    ensures Poised(cols, width, slide, v, if v.state.InMemory? then v.state.next else v.state.earliest)
  {
    if v.state.OnlyBuffered? {
      var b := v.state.earliest;
      assert OnGrid(b, slide);
      SkipEmpty(cols, width, slide, v.log, v.since, v.table, v.emitted, v.frontier, b);
      NothingHeld(cols, width, slide, v.log, v.since, v.table, b);
    }
  }

  /** When the table starts at b, no window before holds anything. */
  lemma {:induction false} NothingHeld(cols: Columns, width: nat, slide: nat, log: seq<Rec>, since: int, table: Layer<Row>,
                                       b: int)
    requires Configured(width, slide) && OnGrid(b, slide) && TableInv(cols, slide, log, table, b - width)
    requires forall t :: t in table ==> b <= t
    ensures MemoryInv(cols, width, slide, log, since, map[], b)
  {
    assert RecsOk(cols, log) && slide > 0 && OnGrid(width, slide);
    forall k: int
      ensures KeyInv(cols, map[], k, Before(cols, width, slide, log, since, b)(k))
    {
      hide BinRows, Doubted, OnGrid, TableInv, Before, WindowRows, Select, BinRow, NextSpoiled;
      GridSub(b, width, slide);
      NoRows(cols, slide, log, table, b - width, k, b - width, b);
      BeforeIs(cols, width, slide, log, since, b, k);
      DoubtedIs(cols, width, slide, log, since, k, b - slide);
      WindowRowsIs(cols, width, slide, log, k, b - slide);
      assert b - slide - width + slide == b - width && b - slide + slide == b;
    }
  }

  lemma {:induction false} TableEvict(cols: Columns, slide: nat, log: seq<Rec>, table: Layer<Row>, horizon: int)
    requires slide > 0 && OnGrid(horizon, slide) && TableInv(cols, slide, log, table, horizon)
    ensures TableInv(cols, slide, log, table - {horizon}, horizon + slide)
  {
    forall t | OnGrid(t, slide) && horizon <= t && t != horizon
      ensures horizon + slide <= t
    {
      GridGap(horizon, t, slide);
    }
  }

  /** With nothing in the memory view, every bin left in the table is younger than the window. */
  lemma {:induction false} EmptyMemory(cols: Columns, width: nat, slide: nat, log: seq<Rec>, since: int, table: Layer<Row>,
                                       b: int)
    requires Configured(width, slide) && OnGrid(b, slide) && TableInv(cols, slide, log, table, b - width)
    requires MemoryInv(cols, width, slide, log, since, map[], b)
    ensures forall t :: t in table ==> b <= t
  {
    hide BinRows, Doubted, OnGrid, RowOf, Select, RecsOk, RowsOk;
    forall t | t in table
      ensures b <= t
    {
      if t < b {
        assert table[t].Keys != {};
        var k := SomeElement(table[t].Keys);
        assert KeyInv(cols, map[], k, Before(cols, width, slide, log, since, b)(k));
        RowsAt(cols, slide, log, table, b - width, k, b - width, b, t);
      }
    }
  }

  lemma {:induction false} RowsAt(cols: Columns, slide: nat, log: seq<Rec>, table: Layer<Row>, horizon: int, k: int,
                                  lo: int, hi: int, t: int)
    requires slide > 0 && TableInv(cols, slide, log, table, horizon) && t in table && k in table[t]
    requires horizon <= lo <= t < hi && OnGrid(hi, slide)
    ensures BinRows(cols, log, k, lo, hi, slide) != []
    decreases hi - lo
  {
    GridStep(hi, slide);
    GridGap(t, hi, slide);
    BinRowsStep(cols, log, k, lo, hi, slide);
    if t != hi - slide {
      RowsAt(cols, slide, log, table, horizon, k, lo, hi - slide, t);
    }
  }

  /** The window has moved on to b: everything the operator keeps holds again. */
  lemma {:induction false} AdvanceKeeps(cols: Columns, width: nat, slide: nat, v: View, b: int, emitted: seq<Emission>,
                                        es: seq<Emission>)
    requires Configured(width, slide) && OnGrid(b, slide) && v.since <= b && v.frontier == b + slide
    requires TableInv(cols, slide, v.log, v.table, b + slide - width)
    requires MemoryInv(cols, width, slide, v.log, v.since, v.memory, b + slide)
    requires EmittedInv(cols, width, slide, v.log, v.since, emitted, b)
    requires WindowResults(cols, width, slide, v.log, v.since, es, v.memory.Keys, b) && v.emitted == emitted + es
    requires v.memory == map[] && v.table == map[] ==> v.state == NoData
    requires v.memory == map[] && v.table != map[] ==>
               v.state.OnlyBuffered? && v.state.earliest in v.table && forall t :: t in v.table ==> v.state.earliest <= t
    requires v.memory != map[] ==> v.state == InMemory(b + slide)
    ensures Core(cols, width, slide, v)
  {
    hide TableInv, MemoryInv, EmittedInv, WindowResults, WindowRecs, OnGrid, Owed;
    GridStep(b, slide);
    forall k: int
      ensures WindowRecs(v.log, k, b, width, slide) != [] ==> k in v.memory.Keys
    {
      EmitKey(cols, width, slide, v.log, v.since, v.memory, b, k);
    }
    EmittedAdvances(cols, width, slide, v.log, v.since, emitted, es, v.memory.Keys, b);
    if v.memory == map[] {
      EmptyMemory(cols, width, slide, v.log, v.since, v.table, b + slide);
    }
  }

  lemma {:induction false} BinStartMonotone(a: nat, b: nat, slide: nat)
    requires slide > 0 && a <= b
    ensures BinStart(a, slide) <= BinStart(b, slide)
  {
    if BinStart(b, slide) < BinStart(a, slide) {
      GridGap(BinStart(b, slide), BinStart(a, slide), slide);
    }
  }

  lemma {:induction false} BinStartOnGrid(t: nat, slide: nat)
    requires slide > 0 && OnGrid(t, slide)
    ensures BinStart(t, slide) == t
  {
    GridIsMod(t, slide);
  }

  predicate ShouldAdvance(state: SlidingState, watermark: nat, slide: nat)
    requires slide > 0
  {
    match state
    case NoData => false
    case OnlyBuffered(earliest) => earliest + slide <= BinStart(watermark, slide)
    case InMemory(next) => next + slide <= BinStart(watermark, slide)
  }

  /** With nothing left to advance, every window that ends by the watermark's bin is done. */
  lemma {:induction false} AllClosed(cols: Columns, width: nat, slide: nat, v: View, w: nat)
    requires Configured(width, slide) && Core(cols, width, slide, v) && !ShouldAdvance(v.state, w, slide)
    ensures EmittedInv(cols, width, slide, v.log, v.since, v.emitted, Greatest(v.frontier, BinStart(w, slide)))
  {
    var end := BinStart(w, slide);
    if v.frontier < end {
      hide MemoryInv, EmittedInv;
      GridGap(v.frontier, end, slide);
      if v.state.OnlyBuffered? && v.state.earliest < end {
        GridGap(v.state.earliest, end, slide);
      }
      SkipEmpty(cols, width, slide, v.log, v.since, v.table, v.emitted, v.frontier, end);
    }
  }

  /** Some nullable average of some key is in doubt. */
  ghost predicate SomeDoubt(cols: Columns, width: nat, slide: nat, log: seq<Rec>, since: int)
    requires slide > 0 && RecsOk(cols, log)
  {
    exists k, b :: Doubted(cols, width, slide, log, since, k, b) != map[]
  }

  lemma {:induction false} DoubtNeedsAverage(cols: Columns, width: nat, slide: nat, log: seq<Rec>, since: int)
    requires slide > 0 && RecsOk(cols, log) && SomeDoubt(cols, width, slide, log, since)
    ensures exists i :: 0 <= i < |cols| && cols[i] == AVG
  {
    var k, b :| Doubted(cols, width, slide, log, since, k, b) != map[];
    DoubtedIsAverage(cols, width, slide, log, since, k, b);
    var i :| i in Doubted(cols, width, slide, log, since, k, b);
  }

  // ---------- restarting ----------

  /** The oldest time a restart reads back. */
  function MinValid(watermark: Option<nat>, width: nat): int {
    if watermark.None? then 0 else watermark.value - width
  }

  /** Evicted values are older than this, so that a restart does not see them. */
  function EvictedBefore(watermark: Option<nat>, width: nat): int {
    (if watermark.None? then 0 else watermark.value) - width
  }

  /** The first bin whose window a restarted operator completes. */
  function Resume(watermark: Option<nat>, slide: nat): int
    requires slide > 0
  {
    if watermark.None? then 0 else BinStart(watermark.value, slide)
  }

  /** What is left of the table holds the rows of the records that are left. */
  lemma {:induction false} RestoredTable(cols: Columns, width: nat, slide: nat, log: seq<Rec>, table: Layer<Row>,
                                         frontier: int, watermark: Option<nat>)
    requires Configured(width, slide) && OnGrid(frontier, slide) && TableInv(cols, slide, log, table, frontier - width)
    requires frontier <= Resume(watermark, slide)
    ensures TableInv(cols, slide, Recent(log, MinValid(watermark, width), slide), Restored(table, MinValid(watermark, width)),
                     Resume(watermark, slide) - width)
  {
    hide *;
    ConfiguredSlide(width, slide);
    var h, resume := MinValid(watermark, width), Resume(watermark, slide);
    ResumeBound(width, slide, watermark);
    RestoredRows(cols, slide, log, table, frontier - width, h, resume - width);
  }

  lemma {:induction false} ConfiguredSlide(width: nat, slide: nat)
    requires Configured(width, slide)
    ensures slide > 0
  {
  }

  lemma {:induction false} ResumeBound(width: nat, slide: nat, watermark: Option<nat>)
    requires Configured(width, slide)
    ensures Resume(watermark, slide) - width <= MinValid(watermark, width)
  {
  }

  lemma {:induction false} RecentBin(log: seq<Rec>, h: int, slide: nat, k: int, t: int)
    requires slide > 0 && OnGrid(t, slide)
    ensures BinRecs(Recent(log, h, slide), k, t, slide) == if h <= t then BinRecs(log, k, t, slide) else []
  {
    if h <= t {
      RecentKeeps(log, h, slide, k, t, t + slide);
    } else {
      RecentDrops(log, h, slide, k, t);
    }
  }

  lemma {:induction false} RestoredRows(cols: Columns, slide: nat, log: seq<Rec>, table: Layer<Row>, low: int, h: int,
                                        high: int)
    requires slide > 0 && TableInv(cols, slide, log, table, low) && low <= high <= h
    ensures TableInv(cols, slide, Recent(log, h, slide), Restored(table, h), high)
  {
    var log', table' := Recent(log, h, slide), Restored(table, h);
    hide Recent, Select, OnGrid, BinStart, BinRecs, RowOf;
    RecentOk(cols, log, h, slide);
    forall t, k | t in table' && k in table'[t]
      ensures BinRecs(log', k, t, slide) == BinRecs(log, k, t, slide)
    {
      RecentBin(log, h, slide, k, t);
    }
    forall t, k | OnGrid(t, slide) && high <= t && BinRecs(log', k, t, slide) != []
      ensures t in table' && k in table'[t]
    {
      RecentBin(log, h, slide, k, t);
    }
  }

  /** A restart loses no record of a window that it still has to complete. */
  lemma {:induction false} RestartKeepsWindow(log: seq<Rec>, width: nat, slide: nat, watermark: Option<nat>, k: int, b: int)
    requires Configured(width, slide) && OnGrid(b, slide) && Resume(watermark, slide) <= b
    ensures WindowRecs(Recent(log, MinValid(watermark, width), slide), k, b, width, slide) == WindowRecs(log, k, b, width, slide)
  {
    GridStep(b, slide);
    GridSub(b + slide, width, slide);
    var lo := b + slide - width;
    if watermark.None? {
      NothingBelowZero(log, 0, slide);
    } else {
      RecentKeeps(log, MinValid(watermark, width), slide, k, lo, b + slide);
    }
  }

  lemma {:induction false} NothingBelowZero(log: seq<Rec>, h: int, slide: nat)
    requires slide > 0 && h <= 0
    ensures Recent(log, h, slide) == log
  {
    if log != [] {
      NothingBelowZero(log[..|log| - 1], h, slide);
    }
  }

  /** What the rebuilt memory view holds once the bins up to bin are added. */
  ghost function Rebuilt(cols: Columns, slide: nat, log: seq<Rec>, lo: int, bin: int): int -> Held
    requires slide > 0 && RecsOk(cols, log)
  {
    k => Held(BinRows(cols, log, k, lo, bin, slide), map[])
  }

  lemma {:induction false} RebuiltNext(cols: Columns, slide: nat, log: seq<Rec>, table: Layer<Row>,
                                       memory: map<int, ProjMem>, lo: int, bin: int)
    requires slide > 0 && TableInv(cols, slide, log, table, lo) && lo <= bin && OnGrid(bin, slide)
    requires EntriesHold(cols, memory, With(Rebuilt(cols, slide, log, lo, bin), Slot(table, bin), Slot(table, bin).Keys))
    ensures EntriesHold(cols, memory, Rebuilt(cols, slide, log, lo, bin + slide))
  {
    var f := With(Rebuilt(cols, slide, log, lo, bin), Slot(table, bin), Slot(table, bin).Keys);
    var g := Rebuilt(cols, slide, log, lo, bin + slide);
    forall k: int
      ensures f(k) == g(k)
    {
      SlotIsBin(cols, slide, log, table, lo, bin, k);
      hide BinRow, BinRows, Slot, TableInv;
      BinRowsStep(cols, log, k, lo, bin + slide, slide);
      assert BinRows(cols, log, k, lo, bin, slide) + [] == BinRows(cols, log, k, lo, bin, slide);
    }
    SameEntries(cols, memory, f, g);
  }

  lemma {:induction false} RebuildStarts(cols: Columns, slide: nat, log: seq<Rec>, table: Layer<Row>, lo: int, bin: int)
    requires slide > 0 && TableInv(cols, slide, log, table, lo) && lo <= bin && OnGrid(lo, slide) && OnGrid(bin, slide)
    requires forall t :: t in table ==> bin <= t
    ensures EntriesHold(cols, map[], Rebuilt(cols, slide, log, lo, bin))
  {
    forall k: int
      ensures KeyInv(cols, map[], k, Rebuilt(cols, slide, log, lo, bin)(k))
    {
      NoRows(cols, slide, log, table, lo, k, lo, bin);
    }
  }

  /** The rebuilt memory view is the one the next window starts from. */
  lemma {:induction false} RebuildEnds(cols: Columns, width: nat, slide: nat, log: seq<Rec>, memory: map<int, ProjMem>,
                                       b: int)
    requires slide > 0 && RecsOk(cols, log) && EntriesHold(cols, memory, Rebuilt(cols, slide, log, b - width, b))
    ensures MemoryInv(cols, width, slide, log, b, memory, b)
  {
    hide BinRows, EntriesHold;
    SameEntries(cols, memory, Rebuilt(cols, slide, log, b - width, b), Before(cols, width, slide, log, b, b));
  }

  lemma {:induction false} NothingYet(cols: Columns, width: nat, slide: nat, log: seq<Rec>, table: Layer<Row>, since: int)
    requires slide > 0 && TableInv(cols, slide, log, table, since - width)
    ensures EmittedInv(cols, width, slide, log, since, [], since)
  {
  }

  // ---------- small facts the methods use ----------

  lemma {:induction false} TableTimes(cols: Columns, slide: nat, log: seq<Rec>, table: Layer<Row>, horizon: int)
    requires slide > 0 && TableInv(cols, slide, log, table, horizon)
    ensures RecsOk(cols, log) && forall t :: t in table ==> 0 <= t && horizon <= t && OnGrid(t, slide)
  {
  }

  lemma {:induction false} BinRowsOk(cols: Columns, slide: nat, log: seq<Rec>, table: Layer<Row>, horizon: int, t: int)
    requires slide > 0 && TableInv(cols, slide, log, table, horizon)
    ensures forall k :: k in Slot(table, t) ==> RowOk(cols, Slot(table, t)[k])
  {
  }

  lemma {:induction false} StateIsAhead(cols: Columns, width: nat, slide: nat, v: View)
    requires Configured(width, slide) && Core(cols, width, slide, v)
    ensures !v.state.NoData? ==> v.frontier <= if v.state.InMemory? then v.state.next else v.state.earliest
  {
  }

  /** A width is at least one slide. */
  lemma {:induction false} WidthIsSlides(width: nat, slide: nat)
    requires Configured(width, slide)
    ensures slide <= width
  {
    GridZero(slide);
    GridGap(0, width, slide);
  }

  lemma {:induction false} ResultIs(cols: Columns, slide: nat, m: ProjMem, k: int, b: int)
    requires MemsOk(cols, m)
    ensures Result(cols, slide, m, k, b).key == k && Result(cols, slide, m, k, b).start == b
  {
  }

  lemma {:induction false} NoResults(cols: Columns, width: nat, slide: nat, log: seq<Rec>, since: int, b: int)
    requires slide > 0 && RecsOk(cols, log)
    ensures WindowResults(cols, width, slide, log, since, [], {}, b)
  {
  }

  /** What a restarted operator takes over from the one before it. */
  lemma {:induction false} Handover(prev: SlidingWindow)
    requires prev.Valid() && prev.Recoverable()
    ensures Configured(prev.width, prev.slide) && prev.slide > 0 && OnGrid(Resume(prev.watermark, prev.slide), prev.slide)
    ensures forall t :: t in prev.table.store && t < MinValid(prev.watermark, prev.width) ==>
              t < EvictedBefore(prev.watermark, prev.width)
    ensures prev.table.Backed(MinValid(prev.watermark, prev.width))
    ensures TableInv(prev.cols, prev.slide, Recent(prev.log, MinValid(prev.watermark, prev.width), prev.slide),
                     Restored(prev.table.Merged(), MinValid(prev.watermark, prev.width)),
                     Resume(prev.watermark, prev.slide) - prev.width)
    ensures prev.CaughtUp() ==> EmittedInv(prev.cols, prev.width, prev.slide, prev.log, prev.since, prev.emitted,
                                           Resume(prev.watermark, prev.slide))
    ensures forall k, b :: OnGrid(b, prev.slide) && Resume(prev.watermark, prev.slide) <= b ==>
              WindowRecs(Recent(prev.log, MinValid(prev.watermark, prev.width), prev.slide), k, b, prev.width, prev.slide)
              == WindowRecs(prev.log, k, b, prev.width, prev.slide)
  {
    forall k, b | OnGrid(b, prev.slide) && Resume(prev.watermark, prev.slide) <= b
      ensures WindowRecs(Recent(prev.log, MinValid(prev.watermark, prev.width), prev.slide), k, b, prev.width, prev.slide)
              == WindowRecs(prev.log, k, b, prev.width, prev.slide)
    {
      RestartKeepsWindow(prev.log, prev.width, prev.slide, prev.watermark, k, b);
    }
    GridZero(prev.slide);
    hide TableInv, EmittedInv, StateInv, OnGrid, Recent;
    TableTimes(prev.cols, prev.slide, prev.log, prev.table.Merged(), prev.frontier - prev.width);
    forall t | t in prev.table.store && t < MinValid(prev.watermark, prev.width)
      ensures t < EvictedBefore(prev.watermark, prev.width)
    {
      if t in prev.table.persisted {
        assert t in prev.table.Merged();
      }
    }
    RestoredTable(prev.cols, prev.width, prev.slide, prev.log, prev.table.Merged(), prev.frontier, prev.watermark);
    if prev.CaughtUp() && prev.watermark.Some? {
      AllClosed(prev.cols, prev.width, prev.slide, prev.Now(), prev.watermark.value);
    }
  }

  class SlidingWindow {
    const cols: Columns
    const width: nat
    const slide: nat
    const table: TimeKeyMap<Row>
    var memory: map<int, ProjMem>
    var state: SlidingState
    var watermark: Option<nat>
    var emitted: seq<Emission>
    ghost const since: int
    ghost var accepted: seq<Rec>   // the records that were not too late
    ghost var log: seq<Rec>        // those of them that count
    ghost var frontier: int

    ghost function Now(): View
      reads this, table
    {
      View(log, table.Merged(), memory, state, watermark, emitted, since, frontier)
    }

    ghost predicate Running()
      reads this, table
    {
      Configured(width, slide) && Core(cols, width, slide, Now())
    }

    ghost predicate Valid()
      reads this, table
    {
      Running() && Closed(slide, Now())
    }

    /** No window is left to complete. */
    ghost predicate CaughtUp()
      requires slide > 0
      reads this
    {
      watermark.Some? ==> !ShouldAdvance(state, watermark.value, slide)
    }

    /** The store holds what a restart needs. */
    ghost predicate Recoverable()
      reads this, table
    {
      table.Backed(EvictedBefore(watermark, width))
    }

    /** The slide divides the width. */
    constructor (cols: Columns, width: nat, slide: nat)
      requires Configured(width, slide)
      ensures Valid() && CaughtUp() && Recoverable() && state == NoData && watermark == None && emitted == []
      ensures this.cols == cols && this.width == width && this.slide == slide && since == 0
      ensures fresh(table) && log == accepted == [] && table.persisted == map[]
    {
      this.cols, this.width, this.slide := cols, width, slide;
      table := new TimeKeyMap<Row>();
      memory, state, watermark, emitted := map[], NoData, None, [];
      since, accepted, log, frontier := 0, [], [], 0;
    }

    /** A record is dropped when its bin is before the watermark's bin. */
    predicate Accepts(r: Rec)
      requires slide > 0
      reads this
    {
      watermark.None? || BinStart(watermark.value, slide) <= BinStart(r.ts, slide)
    }

    /** The table would drop the new row of r's bin: it equals the stored one but not the buffered one. */
    ghost predicate LosesWrite(r: Rec)
      requires Valid() && RecOk(cols, r)
      reads this, table
    {
      table.Stale(BinStart(r.ts, slide), r.key, NextRow(cols, width, slide, Now(), r))
    }

    /**
     * A record is dropped if and only if its bin ends by the start of the watermark's, and one
     * that is not counts if and only if the table does not lose the write. A record whose write
     * is lost changes nothing, as if it were too late.
     */
    method ProcessElement(r: Rec)
      requires Valid() && RecOk(cols, r)
      modifies this`state, this`log, this`accepted, table
      ensures Valid() && table.persisted == old(table.persisted)
      ensures accepted == old(accepted) + if old(Accepts(r)) then [r] else []
      ensures accepted == old(accepted) <==>
                watermark.Some? && BinStart(r.ts, slide) + slide <= BinStart(watermark.value, slide)
      ensures log == old(log) + if old(Accepts(r) && !LosesWrite(r)) then [r] else []
      ensures old(Accepts(r) && LosesWrite(r)) ==> Now() == old(Now())
      ensures old(CaughtUp()) ==> CaughtUp()
      ensures old(Recoverable()) ==> Recoverable()
    {
      assert slide > 0;
      hide Core, Configured, Closed, BinStart, NextRow, MergeLayers, BackedBy, ShouldAdvance, RowOk, EvictedBefore;
      var t := BinStart(r.ts, slide);
      if watermark.Some? && t < BinStart(watermark.value, slide) {
        GridGap(t, BinStart(watermark.value, slide), slide);
        return;
      }
      ghost var lost := Merge(r, t);
    }

    /** Merges r into its bin. */
    method Merge(r: Rec, t: int) returns (ghost lost: bool)
      requires Valid() && RecOk(cols, r) && t == BinStart(r.ts, slide) && Accepts(r)
      modifies this`state, this`log, this`accepted, table
      ensures Valid() && table.persisted == old(table.persisted) && lost == old(LosesWrite(r))
      ensures accepted == old(accepted) + [r] && log == old(log) + if lost then [] else [r]
      ensures lost ==> Now() == old(Now())
      ensures old(CaughtUp()) ==> CaughtUp()
      ensures old(Recoverable()) ==> Recoverable()
    {
      hide Core, Configured, Closed, OnGrid, BinStart, NextRow, Put, MergeLayers, BackedBy, StateAfter, ShouldAdvance,
           RowOk, EvictedBefore;
      ghost var v, row := Now(), NextRow(cols, width, slide, Now(), r);
      Accepting(cols, width, slide, v, r);
      lost := InsertRow(r, t);
      if lost {
        SameState(cols, width, slide, v, t);
      }
      state := StateAfter(state, t);
      accepted := accepted + [r];
      if !lost {
        log := log + [r];
        assert Now() == v.(log := v.log + [r], table := Put(v.table, t, r.key, row), state := StateAfter(v.state, t));
      }
    }

    /** Writes the new row of r's bin to the table, which may lose it. */
    method InsertRow(r: Rec, t: int) returns (ghost lost: bool)
      requires Valid() && RecOk(cols, r) && t == BinStart(r.ts, slide)
      modifies table
      ensures lost == old(LosesWrite(r)) && table.persisted == old(table.persisted)
      ensures lost ==> t in old(table.Merged()) && table.Merged() == old(table.Merged())
      ensures !lost ==> table.Merged() == Put(old(table.Merged()), t, r.key, NextRow(cols, width, slide, old(Now()), r))
      ensures forall bound :: bound <= t && old(table.Backed(bound)) ==> table.Backed(bound)
    {
      hide Core, Closed, OnGrid, BinStart, ProjMerge, NextRow, Put, MergeLayers, BackedBy, RowOk, Slot;
      ghost var row := NextRow(cols, width, slide, Now(), r);
      NextRowIs(cols, width, slide, Now(), r);
      lost := table.Stale(t, r.key, row);
      if lost {
        StaleIsThere(table, t, r.key, row);
      }
      var current := table.Get(t, r.key);
      table.Insert(t, r.key, ProjMerge(cols, current, r));
    }

    /** The bin joins the rows that key k's entry holds; other entries stay. */
    method AddData(k: int, row: Row, ghost h: Held)
      requires RowOk(cols, row) && KeyInv(cols, memory, k, h)
      modifies this`memory
      ensures KeyInv(cols, memory, k, AfterEnter(h, row)) && memory - {k} == old(memory) - {k}
    {
      EnterKey(cols, memory, k, h, row);
      var current := if k in memory then Some(memory[k]) else None;
      memory := memory[k := ProjAdd(cols, current, row)];
      assert memory - {k} == old(memory) - {k};
    }

    /**
     * Key k's entry gives up its oldest row, and goes with the last one; other entries stay. An
     * unwrap fails exactly if a spoiled average is to give up a bin and knows of none. Without
     * an entry nothing happens.
     */
    method RemoveData(k: int, row: Row, ghost h: Held) returns (panicked: bool)
      requires KeyInv(cols, memory, k, h) && (h.rows != [] ==> h.rows[0] == row)
      modifies this`memory
      ensures panicked <==> old(LeaveFails(cols, memory, k, h))
      ensures panicked ==> h.spoiled != map[]
      ensures !panicked ==> KeyInv(cols, memory, k, AfterLeave(cols, h))
      ensures memory - {k} == old(memory) - {k}
    {
      panicked := false;
      if k !in memory {
        return;
      }
      LeaveKey(cols, memory, k, h);
      match ProjRemove(cols, memory[k], row) {
        case AllGone => memory := memory - {k};
        case Remaining(m) => memory := memory[k := m];
        case Failed => panicked := true;
      }
      assert memory - {k} == old(memory) - {k};
    }

    method AddEntries(entries: map<int, Row>, ghost f: int -> Held)
      requires EntriesHold(cols, memory, f)
      requires forall k :: k in entries ==> RowOk(cols, entries[k])
      modifies this`memory
      ensures EntriesHold(cols, memory, With(f, entries, entries.Keys))
    {
      hide KeyInv, RowOk;
      var rest := entries.Keys;
      SameEntries(cols, memory, f, With(f, entries, {}));
      assert entries.Keys - rest == {};
      while rest != {}
        invariant rest <= entries.Keys
        invariant EntriesHold(cols, memory, With(f, entries, entries.Keys - rest))
        decreases |rest|
      {
        ghost var _ := SomeElement(rest);
        var k :| k in rest;
        ghost var done, before := entries.Keys - rest, memory;
        assert KeyInv(cols, memory, k, With(f, entries, done)(k));
        AddData(k, entries[k], f(k));
        OtherKeys(cols, before, memory, With(f, entries, done), With(f, entries, done + {k}), k);
        assert entries.Keys - (rest - {k}) == done + {k};
        rest := rest - {k};
      }
      assert entries.Keys - rest == entries.Keys;
    }

    method RemoveEntries(entries: map<int, Row>, ghost f: int -> Held) returns (panicked: bool)
      requires EntriesHold(cols, memory, f)
      requires forall k :: k in entries ==> f(k).rows != [] && f(k).rows[0] == entries[k]
      modifies this`memory
      ensures !panicked ==> EntriesHold(cols, memory, Without(cols, f, entries, entries.Keys))
      ensures panicked ==> exists k :: f(k).spoiled != map[]
    {
      hide KeyInv, RowOk;
      panicked := false;
      var rest := entries.Keys;
      SameEntries(cols, memory, f, Without(cols, f, entries, {}));
      assert entries.Keys - rest == {};
      while rest != {}
        invariant rest <= entries.Keys
        invariant EntriesHold(cols, memory, Without(cols, f, entries, entries.Keys - rest))
        decreases |rest|
      {
        ghost var _ := SomeElement(rest);
        var k :| k in rest;
        ghost var done, before := entries.Keys - rest, memory;
        assert KeyInv(cols, memory, k, Without(cols, f, entries, done)(k));
        panicked := RemoveData(k, entries[k], f(k));
        if panicked {
          return;
        }
        OtherKeys(cols, before, memory, Without(cols, f, entries, done), Without(cols, f, entries, done + {k}), k);
        assert entries.Keys - (rest - {k}) == done + {k};
        rest := rest - {k};
      }
      assert entries.Keys - rest == entries.Keys;
    }

    method EmitOne(b: int, k: int) returns (e: Emission)
      requires Configured(width, slide) && OnGrid(b, slide) && k in memory && RecsOk(cols, log)
      requires MemoryInv(cols, width, slide, log, since, memory, b + slide)
      ensures e.key == k && e.start == b && Owed(cols, width, slide, log, since, e)
    {
      hide MemoryInv, Owed, Result, WindowRecs, OnGrid, RecsOk;
      EmitKey(cols, width, slide, log, since, memory, b, k);
      ResultIs(cols, slide, memory[k], k, b);
      e := Result(cols, slide, memory[k], k, b);
    }

    /** One result per key of the memory view, in any order, each the one its window owes. */
    method EmitAll(b: int) returns (ghost es: seq<Emission>)
      requires Configured(width, slide) && slide > 0 && OnGrid(b, slide) && RecsOk(cols, log)
      requires MemoryInv(cols, width, slide, log, since, memory, b + slide)
      modifies this`emitted
      ensures emitted == old(emitted) + es
      ensures WindowResults(cols, width, slide, log, since, es, memory.Keys, b)
      ensures forall k :: k in memory.Keys <==> WindowRecs(log, k, b, width, slide) != []
    {
      hide *;
      MemoryKeys(cols, width, slide, log, since, memory, b);
      es := [];
      var rest := memory.Keys;
      NoResults(cols, width, slide, log, since, b);
      assert memory.Keys - rest == {};
      while rest != {}
        invariant rest <= memory.Keys && emitted == old(emitted) + es
        invariant WindowResults(cols, width, slide, log, since, es, memory.Keys - rest, b)
        decreases |rest|
      {
        ghost var _ := SomeElement(rest);
        var k :| k in rest;
        var e := EmitOne(b, k);
        MoreResults(cols, width, slide, log, since, es, memory.Keys - rest, b, e);
        emitted, es := emitted + [e], es + [e];
        assert memory.Keys - (rest - {k}) == memory.Keys - rest + {k};
        rest := rest - {k};
      }
      assert memory.Keys - rest == memory.Keys;
    }

    /** The state that follows an advance to bin b. */
    method NextState(b: int) returns (r: SlidingState)
      requires slide > 0 && forall t :: t in table.Merged() ==> 0 <= t && OnGrid(t, slide)
      ensures memory == map[] && table.Merged() == map[] ==> r == NoData
      ensures memory == map[] && table.Merged() != map[] ==>
                r.OnlyBuffered? && r.earliest in table.Merged() && forall t :: t in table.Merged() ==> r.earliest <= t
      ensures memory != map[] ==> r == InMemory(b + slide)
    {
      if memory == map[] {
        var m := table.GetMinTime();
        match m {
          case None => r := NoData;
          case Some(t) =>
            BinStartOnGrid(t, slide);
            r := OnlyBuffered(BinStart(t, slide));
        }
      } else {
        r := InMemory(b + slide);
      }
    }

    /** One bin enters, one leaves, and the window that now ends is emitted. */
    method Advance() returns (panicked: bool)
      requires Running() && watermark.Some? && ShouldAdvance(state, watermark.value, slide)
      modifies this`memory, this`state, this`emitted, this`frontier, table
      ensures !panicked ==>
                && Valid() && old(emitted) <= emitted
                && frontier == (if old(state).InMemory? then old(state).next else old(state).earliest) + slide
                && (old(Recoverable()) ==> Recoverable())
      ensures panicked ==> RecsOk(cols, log) && SomeDoubt(cols, width, slide, log, since)
    {
      hide TableInv, EmittedInv, MemoryInv, WindowResults, StateInv, BackedBy, MergeLayers, OnGrid, RecsOk, SomeDoubt,
           WindowRecs, BinStart;
      var b := if state.InMemory? then state.next else state.earliest;
      ReadyToAdvance(cols, width, slide, Now());
      ghost var t := table.Merged();
      GridSub(b, width, slide);
      table.FlushAtWatermark(b + slide);
      panicked := SlideMemory(b);
      if panicked {
        return;
      }
      TableEvict(cols, slide, log, t, b - width);
      TableTimes(cols, slide, log, table.Merged(), b - width + slide);
      ghost var es := EmitAll(b);
      state := NextState(b);
      frontier := b + slide;
      AdvanceKeeps(cols, width, slide, Now(), b, old(emitted), es);
    }

    /** For every key, the memory view moves from the rows of one window to those of the next. */
    method SlideMemory(b: int) returns (panicked: bool)
      requires Configured(width, slide) && OnGrid(b, slide) && since <= b
      requires TableInv(cols, slide, log, table.Merged(), b - width)
      requires MemoryInv(cols, width, slide, log, since, memory, b)
      modifies this`memory, table
      ensures !panicked ==>
                && table.Merged() == old(table.Merged()) - {b - width}
                && MemoryInv(cols, width, slide, log, since, memory, b + slide)
                && (forall bound :: b - width < bound && old(table.Backed(bound)) ==> table.Backed(bound))
      ensures panicked ==> RecsOk(cols, log) && SomeDoubt(cols, width, slide, log, since)
    {
      hide TableInv, EntriesHold, Before, Entered, OnGrid, MergeLayers, BackedBy;
      EnterBin(b);
      ghost var t := table.Merged();
      var leaving := table.EvictForTimestamp(b - width);
      panicked := LeaveBin(b, leaving, t);
    }

    method EnterBin(b: int)
      requires Configured(width, slide) && OnGrid(b, slide)
      requires TableInv(cols, slide, log, table.Merged(), b - width)
      requires RecsOk(cols, log) && EntriesHold(cols, memory, Before(cols, width, slide, log, since, b))
      modifies this`memory
      ensures EntriesHold(cols, memory, Entered(cols, width, slide, log, since, b))
    {
      hide TableInv, EntriesHold, Before, Entered, OnGrid, MergeLayers, Slot, With, RowOk, RecsOk;
      var entering := table.GetAllForTime(b);
      EnteredRows(cols, width, slide, log, since, table.Merged(), b - width, b);
      AddEntries(entering, Before(cols, width, slide, log, since, b));
      HasEntered(cols, width, slide, log, since, table.Merged(), memory, b);
    }

    method LeaveBin(b: int, leaving: map<int, Row>, ghost t: Layer<Row>) returns (panicked: bool)
      requires Configured(width, slide) && OnGrid(b, slide) && since <= b && leaving == Slot(t, b - width)
      requires TableInv(cols, slide, log, t, b - width)
      requires RecsOk(cols, log) && EntriesHold(cols, memory, Entered(cols, width, slide, log, since, b))
      modifies this`memory
      ensures !panicked ==> MemoryInv(cols, width, slide, log, since, memory, b + slide)
      ensures panicked ==> SomeDoubt(cols, width, slide, log, since)
    {
      hide TableInv, EntriesHold, MemoryInv, OnGrid, Slot, Without, RecsOk, BinRows, Doubted;
      forall k | k in leaving
        ensures var rows := Entered(cols, width, slide, log, since, b)(k).rows; rows != [] && rows[0] == leaving[k]
      {
        LeftRows(cols, width, slide, log, since, t, b, k);
      }
      panicked := RemoveEntries(leaving, Entered(cols, width, slide, log, since, b));
      if panicked {
        ghost var k :| Entered(cols, width, slide, log, since, b)(k).spoiled != map[];
        assert Doubted(cols, width, slide, log, since, k, b - slide) != map[];
        return;
      }
      HasLeft(cols, width, slide, log, since, t, memory, b);
    }

    /**
     * Unless an unwrap fails, everything emitted is then what its window owes, and every
     * window that ends by the watermark's bin and has records has been emitted, once. A failed
     * unwrap needs a nullable average in doubt. The operator can go on if and only if the
     * watermark did not go back before the windows that were emitted.
     */
    method HandleWatermark(w: nat) returns (panicked: bool)
      requires Valid()
      modifies this`memory, this`state, this`emitted, this`frontier, this`watermark, table
      ensures watermark == Some(w)
      ensures !panicked ==>
                && Running() && CaughtUp() && old(emitted) <= emitted
                && EmittedInv(cols, width, slide, log, since, emitted, Greatest(frontier, BinStart(w, slide)))
      ensures !panicked ==> (Valid() <==> frontier == 0 || frontier <= BinStart(w, slide))
      ensures !panicked && (old(watermark).Some? ==> old(watermark).value <= w) ==>
                Valid() && (old(Recoverable()) ==> Recoverable())
      ensures panicked ==> exists i :: 0 <= i < |cols| && cols[i] == AVG
      ensures panicked ==> RecsOk(cols, log) && SomeDoubt(cols, width, slide, log, since)
    {
      assert slide > 0;
      hide Core, Configured, EmittedInv, SomeDoubt, BackedBy, MergeLayers, BinStart;
      NewWatermark(cols, width, slide, Now(), w);
      ghost var grows := old(watermark).Some? ==> old(watermark).value <= w;
      if watermark.Some? && watermark.value <= w {
        BinStartMonotone(watermark.value, w, slide);
      }
      watermark := Some(w);
      assert grows && old(Recoverable()) ==> Recoverable() by {
        LaterBound(table, EvictedBefore(old(watermark), width), EvictedBefore(watermark, width));
      }
      panicked := false;
      while ShouldAdvance(state, w, slide)
        invariant Running() && watermark == Some(w) && old(emitted) <= emitted
        invariant grows ==> Valid() && (old(Recoverable()) ==> Recoverable())
        decreases BinStart(w, slide)
                  - (if state.NoData? then BinStart(w, slide) else if state.InMemory? then state.next else state.earliest)
      {
        panicked := Advance();
        if panicked {
          DoubtNeedsAverage(cols, width, slide, log, since);
          return;
        }
        StateIsAhead(cols, width, slide, Now());
      }
      AllClosed(cols, width, slide, Now(), w);
    }

    method HandleCheckpoint()
      requires Valid()
      modifies table
      ensures Valid() && Now() == old(Now()) && table.buffered == map[] && table.persisted == table.Merged()
      ensures old(Recoverable()) ==> Recoverable()
    {
      hide BackedBy, Core;
      table.Flush();
    }

    /**
     * A restart from the checkpoint of prev: bins older than the watermark less the width are
     * not read back, and the memory view is rebuilt from the others. The new operator counts
     * the records of the bins it has read, which are all the records of the windows it has to
     * complete, and prev has completed the others.
     */
    constructor OnStart(prev: SlidingWindow)
      requires prev.Valid() && prev.Recoverable() && prev.table.buffered == map[]
      ensures Valid() && Recoverable() && CaughtUp() && fresh(table)
      ensures cols == prev.cols && width == prev.width && slide == prev.slide && watermark == prev.watermark && emitted == []
      ensures since == frontier == Resume(watermark, slide)
      ensures log == accepted == Recent(prev.log, MinValid(watermark, width), slide)
      ensures forall k, b :: OnGrid(b, slide) && since <= b ==>
                WindowRecs(log, k, b, width, slide) == WindowRecs(prev.log, k, b, width, slide)
      ensures prev.CaughtUp() ==> EmittedInv(cols, width, slide, prev.log, prev.since, prev.emitted, since)
    {
      hide TableInv, EmittedInv, Core, Closed, OnGrid, BackedBy, Recent, BinStart, WindowRecs, MergeLayers, Configured,
           MinValid, EvictedBefore, Resume, ShouldAdvance, Restored;
      Handover(prev);
      cols, width, slide := prev.cols, prev.width, prev.slide;
      table := new TimeKeyMap<Row>.FromCheckpoint(prev.table.store, MinValid(prev.watermark, prev.width));
      memory, state, watermark, emitted := map[], NoData, prev.watermark, [];
      ghost var kept := Recent(prev.log, MinValid(prev.watermark, prev.width), prev.slide);
      since, accepted, log, frontier := Resume(prev.watermark, prev.slide), kept, kept, Resume(prev.watermark, prev.slide);
      new;
      RestoresTable(prev.table, MinValid(prev.watermark, prev.width));
      Start();
    }

    /** Finds the earliest bin, and adds the bins before the watermark's to the memory view. */
    method Start()
      requires Configured(width, slide) && since == frontier == Resume(watermark, slide) && OnGrid(since, slide)
      requires memory == map[] && emitted == [] && TableInv(cols, slide, log, table.Merged(), since - width)
      modifies this`memory, this`state
      ensures Valid() && CaughtUp()
    {
      hide TableInv, MemoryInv, EntriesHold;
      NothingYet(cols, width, slide, log, table.Merged(), since);
      TableTimes(cols, slide, log, table.Merged(), since - width);
      var earliest := table.GetMinTime();
      if earliest.None? {
        state := NoData;
        return;
      }
      BinStartOnGrid(earliest.value, slide);
      var first := BinStart(earliest.value, slide);
      if watermark.None? || BinStart(watermark.value, slide) <= first {
        state := OnlyBuffered(first);
        return;
      }
      Rebuild(first, BinStart(watermark.value, slide));
      state := InMemory(BinStart(watermark.value, slide));
    }

    method RebuildBin(bin: int, ghost lo: int)
      requires slide > 0 && TableInv(cols, slide, log, table.Merged(), lo) && lo <= bin && OnGrid(bin, slide)
      requires RecsOk(cols, log) && EntriesHold(cols, memory, Rebuilt(cols, slide, log, lo, bin))
      modifies this`memory
      ensures EntriesHold(cols, memory, Rebuilt(cols, slide, log, lo, bin + slide))
    {
      hide *;
      var entries := table.GetAllForTime(bin);
      BinRowsOk(cols, slide, log, table.Merged(), lo, bin);
      AddEntries(entries, Rebuilt(cols, slide, log, lo, bin));
      RebuiltNext(cols, slide, log, table.Merged(), memory, lo, bin);
    }

    method Rebuild(first: int, end: int)
      requires slide > 0 && OnGrid(width, slide) && OnGrid(end, slide) && OnGrid(first, slide) && first < end
      requires memory == map[] && TableInv(cols, slide, log, table.Merged(), end - width)
      requires first in table.Merged() && forall t :: t in table.Merged() ==> first <= t
      modifies this`memory
      ensures MemoryInv(cols, width, slide, log, end, memory, end)
    {
      hide *;
      var bin := first;
      ghost var t, lo := table.Merged(), end - width;
      GridSub(end, width, slide);
      TableTimes(cols, slide, log, t, lo);
      RebuildStarts(cols, slide, log, t, lo, first);
      while bin < end
        invariant OnGrid(bin, slide) && lo <= bin <= end && table.Merged() == t
        invariant EntriesHold(cols, memory, Rebuilt(cols, slide, log, lo, bin))
      {
        RebuildBin(bin, lo);
        GridStep(bin, slide);
        GridGap(bin, end, slide);
        bin := bin + slide;
      }
      RebuildEnds(cols, width, slide, log, memory, end);
    }
  }

  // ---------- a record that is lost ----------

  const SUMS: Columns := [Column(Sum, false)]

  function At(n: nat, value: int): Rec {
    Rec(1, n, [Some(value)])
  }

  /** The row of some records of the bin at 0, and what they sum to. */
  lemma {:induction false} SumsOf(log: seq<Rec>, r: Rec, total: int, v: int)
    requires RecsOk(SUMS, log) && r == At(r.ts, v) && r.ts < 10 && Select(log, 1, 0, 10) == log
    requires log == [] ==> total == 0
    requires log != [] ==> RowOf(SUMS, log) == [IntBin(total)]
    ensures RecsOk(SUMS, log + [r]) && Select(log + [r], 1, 0, 10) == log + [r]
    ensures RowOf(SUMS, log + [r]) == [IntBin(total + v)]
    ensures VecAggregate(SUMS[0], Inputs(SUMS, log + [r], 0)) == IntOut(total + v)
  {
    hide *;
    SumRecOk(r, v);
    RecsOkMore(log, r);
    SelectAppend(log, r, 1, 0, 10);
    RowOfAppend(SUMS, log, r);
    MergesSum(if log == [] then None else Some(RowOf(SUMS, log)), r, total, v);
    SumRead(log + [r], total + v);
  }

  lemma {:induction false} SumRecOk(r: Rec, v: int)
    requires r == At(r.ts, v)
    ensures RecOk(SUMS, r) && r.key == 1
  {
  }

  lemma {:induction false} RecsOkMore(log: seq<Rec>, r: Rec)
    requires RecsOk(SUMS, log) && RecOk(SUMS, r)
    ensures RecsOk(SUMS, log + [r])
  {
  }

  lemma {:induction false} MergesSum(current: Option<Row>, r: Rec, total: int, v: int)
    requires r == At(r.ts, v) && RecOk(SUMS, r) && (current.None? ==> total == 0) && (current.Some? ==> current.value == [IntBin(total)])
    ensures current.Some? ==> RowOk(SUMS, current.value)
    ensures ProjMerge(SUMS, current, r) == [IntBin(total + v)]
  {
    if current.Some? {
      assert RowOk(SUMS, current.value);
    }
    var row := ProjMerge(SUMS, current, r);
    assert row == [row[0]];
  }

  lemma {:induction false} SumRead(log: seq<Rec>, total: int)
    requires RecsOk(SUMS, log) && log != [] && RowOf(SUMS, log) == [IntBin(total)]
    ensures VecAggregate(SUMS[0], Inputs(SUMS, log, 0)) == IntOut(total)
  {
    TwoPhaseIsOneShot(SUMS[0], Inputs(SUMS, log, 0));
  }

  lemma {:induction false} ThreeRecords()
    ensures var r1, r2, r3 := At(3, 5), At(4, 3), At(5, -3);
            && RecsOk(SUMS, [r1, r2, r3]) && WindowRecs([r1, r2, r3], 1, 0, 10, 10) == [r1, r2, r3]
            && BinRecs([r1], 1, 0, 10) == [r1] && WindowRecs([r1, r2], 1, 0, 10, 10) == [r1, r2] == BinRecs([r1, r2], 1, 0, 10)
            && RowOf(SUMS, [r1]) == [IntBin(5)] && RowOf(SUMS, [r1, r2]) == [IntBin(8)]
            && ProjMerge(SUMS, Some([IntBin(8)]), r3) == [IntBin(5)]
            && VecAggregate(SUMS[0], Inputs(SUMS, [r1, r2], 0)) == IntOut(8)
            && VecAggregate(SUMS[0], Inputs(SUMS, [r1, r2, r3], 0)) == IntOut(5)
  {
    var r1, r2, r3 := At(3, 5), At(4, 3), At(5, -3);
    SumsOf([], r1, 0, 5);
    assert [] + [r1] == [r1];
    SumsOf([r1], r2, 5, 3);
    assert [r1] + [r2] == [r1, r2];
    SumsOf([r1, r2], r3, 8, -3);
    assert [r1, r2] + [r3] == [r1, r2, r3];
    assert RowOk(SUMS, [IntBin(8)]);
    var row := ProjMerge(SUMS, Some([IntBin(8)]), r3);
    assert row == [row[0]];
  }

  /** After the two records and a checkpoint between them, the third one's write is lost. */
  lemma {:induction false} ThirdIsLost(s: SlidingWindow)
    requires s.Valid() && s.cols == SUMS && s.width == s.slide == 10 && s.watermark.None?
    requires s.log == [At(3, 5), At(4, 3)]
    requires 0 in s.table.persisted && 1 in s.table.persisted[0] && s.table.persisted[0][1] == [IntBin(5)]
    ensures RecOk(SUMS, At(5, -3)) && s.LosesWrite(At(5, -3))
  {
    ThreeRecords();
    var r := At(5, -3);
    assert BinStart(5, 10) == 0;
    TableHas(SUMS, 10, s.log, s.table.Merged(), s.frontier - 10, 1, 0);
    MergeSlot(s.table.persisted, s.table.buffered, 0);
  }

  lemma {:induction false} TableHas(cols: Columns, slide: nat, log: seq<Rec>, table: Layer<Row>, horizon: int, k: int,
                                    t: int)
    requires slide > 0 && TableInv(cols, slide, log, table, horizon) && horizon <= t && OnGrid(t, slide)
    requires BinRecs(log, k, t, slide) != []
    ensures RecsOk(cols, BinRecs(log, k, t, slide)) && t in table && k in table[t]
    ensures table[t][k] == RowOf(cols, BinRecs(log, k, t, slide))
  {
  }

  /** The window at 0 is emitted, with the sum of the two records that count. */
  lemma {:induction false} EmitsEight(emitted: seq<Emission>, frontier: int)
    requires 10 <= frontier && EmittedInv(SUMS, 10, 10, [At(3, 5), At(4, 3)], 0, emitted, frontier)
    ensures Emission(1, 0, 10, 9, [Some(IntOut(8))]) in emitted
  {
    ThreeRecords();
    var log := [At(3, 5), At(4, 3)];
    GridZero(10);
    hide Select, BinRows, OnGrid, Doubted, VecAggregate, Owed, RowOf, Inputs;
    assert Emits(emitted, 1, 0);
    var n :| 0 <= n < |emitted| && emitted[n].key == 1 && emitted[n].start == 0;
    OwedSum(log, emitted[n]);
  }

  /** A non-null sum is never in doubt: the window owes it. */
  lemma {:induction false} OwedSum(log: seq<Rec>, e: Emission)
    requires RecsOk(SUMS, log) && Owed(SUMS, 10, 10, log, 0, e)
    ensures var recs := WindowRecs(log, e.key, e.start, 10, 10);
            RecsOk(SUMS, recs) && recs != []
            && e == Emission(e.key, e.start, e.start + 10, e.start + 9, [Some(VecAggregate(SUMS[0], Inputs(SUMS, recs, 0)))])
  {
    hide Select, BinRows, Doubted, VecAggregate, WindowRecs, WindowRows, Inputs;
    DoubtedIsAverage(SUMS, 10, 10, log, 0, e.key, e.start);
    assert ColumnRight(SUMS, WindowRecs(log, e.key, e.start, 10, 10), WindowRows(SUMS, 10, 10, log, e.key, e.start),
                       Doubted(SUMS, 10, 10, log, 0, e.key, e.start), 0, e.values[0]);
    assert e.values == [e.values[0]];
  }

  /** A sum over tumbling windows of ten, with one record that has been checkpointed. */
  method OneCheckpointed() returns (s: SlidingWindow)
    ensures fresh(s) && fresh(s.table) && s.Valid() && s.cols == SUMS && s.width == s.slide == 10 && s.since == 0
    ensures s.watermark.None? && s.log == s.accepted == [At(3, 5)] && s.table.buffered == map[]
    ensures 0 in s.table.persisted && 1 in s.table.persisted[0] && s.table.persisted[0][1] == [IntBin(5)]
  {
    ThreeRecords();
    s := new SlidingWindow(SUMS, 10, 10);
    hide EmittedInv, StateInv, TableInv, Select, BinRows, MergeLayers, RowOf, OnGrid, BackedBy, NextRow;
    s.ProcessElement(At(3, 5));
    s.HandleCheckpoint();
    GridZero(10);
    TableHas(SUMS, 10, s.log, s.table.Merged(), s.frontier - 10, 1, 0);
  }

  method ThreeAccepted() returns (s: SlidingWindow)
    ensures fresh(s) && fresh(s.table) && s.Valid() && s.cols == SUMS && s.width == s.slide == 10 && s.since == 0
    ensures s.watermark.None? && s.log == [At(3, 5), At(4, 3)] && s.accepted == [At(3, 5), At(4, 3), At(5, -3)]
  {
    s := OneCheckpointed();
    hide Core, Configured, Closed, MergeLayers, BackedBy, NextRow, ShouldAdvance;
    s.ProcessElement(At(4, 3));
    assert s.log == s.accepted == [At(3, 5), At(4, 3)];
    ThirdIsLost(s);
    s.ProcessElement(At(5, -3));
    assert s.accepted == [At(3, 5), At(4, 3), At(5, -3)];
  }

  /**
   * 5 is checkpointed, 3 and -3 follow in the same bin: all three are accepted and sum to 5,
   * but the write of the last one is lost and the window is emitted as 8.
   */
  method LostRecord() returns (es: seq<Emission>, ghost accepted: seq<Rec>)
    ensures Emission(1, 0, 10, 9, [Some(IntOut(8))]) in es
    ensures RecsOk(SUMS, accepted) && RecsOk(SUMS, WindowRecs(accepted, 1, 0, 10, 10)) && WindowRecs(accepted, 1, 0, 10, 10) != []
    ensures VecAggregate(SUMS[0], Inputs(SUMS, WindowRecs(accepted, 1, 0, 10, 10), 0)) == IntOut(5)
  {
    var s := ThreeAccepted();
    hide Core, Configured, Closed, EmittedInv, ShouldAdvance, SomeDoubt, Select, VecAggregate, RowOf, BinStart, BackedBy,
         MergeLayers, OnGrid, RecsOk, Inputs;
    ThreeRecords();
    var panicked := s.HandleWatermark(19);
    assert !panicked;
    EmitsEight(s.emitted, Greatest(s.frontier, BinStart(19, 10)));
    es, accepted := s.emitted, s.accepted;
  }
}
