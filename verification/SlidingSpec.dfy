// What the keyed sliding-window operator keeps, as facts about values: which results every
// window owes, what the memory view holds for each key, and why a step keeps it.
module SlidingSpec {
  import opened Messages
  import opened Aggregates
  import opened SlidingMemory
  import opened SlidingRuns
  import opened TimeKeyMaps
  import opened WindowSpec
  import opened Grid

  datatype SlidingState = NoData | OnlyBuffered(earliest: int) | InMemory(next: int)

  /** A result; a value is None when a quotient has no value. */
  datatype Emission = Emission(key: int, start: int, end: int, timestamp: int, values: seq<Option<Output>>)

  ghost predicate Configured(width: nat, slide: nat) {
    slide > 0 && width > 0 && OnGrid(width, slide)
  }

  // ---------- what a window owes ----------

  /** The records of key k in the window whose last bin starts at b. */
  function WindowRecs(log: seq<Rec>, k: int, b: int, width: nat, slide: nat): seq<Rec> {
    Select(log, k, b + slide - width, b + slide)
  }

  /** The rows of key k in that window. */
  ghost function WindowRows(cols: Columns, width: nat, slide: nat, log: seq<Rec>, k: int, b: int): (rows: seq<Row>)
    requires slide > 0 && RecsOk(cols, log)
    ensures RowsOk(cols, rows)
  {
    BinRows(cols, log, k, b + slide - width, b + slide, slide)
  }

  /**
   * The nullable averages of key k with an unsafe eviction since its memory was last empty,
   * or since the operator started, once the window at b is complete, each with what it has
   * forgotten.
   */
  ghost function Doubted(cols: Columns, width: nat, slide: nat, log: seq<Rec>, since: int, k: int, b: int): map<nat, Debt>
    requires slide > 0 && RecsOk(cols, log)
    decreases b - since
  {
    if b < since || WindowRows(cols, width, slide, log, k, b) == [] then map[]
    else
      var before := Doubted(cols, width, slide, log, since, k, b - slide);
      if BinRow(cols, log, k, b - width, slide) == [] then before
      else NextSpoiled(cols, BinRows(cols, log, k, b - width, b + slide, slide), before)
  }

  /** Column i reads what the records owe, unless it is in doubt; then it reads what it has not forgotten. */
  ghost predicate ColumnRight(cols: Columns, recs: seq<Rec>, rows: seq<Row>, doubted: map<nat, Debt>, i: nat,
                              value: Option<Output>)
    requires RecsOk(cols, recs) && recs != [] && RowsOk(cols, rows) && rows != [] && i < |cols|
  {
    var owed := VecAggregate(cols[i], Inputs(cols, recs, i));
    if i in doubted then
      && cols[i] == AVG && value == OwingRead(Bins(cols, rows, i), doubted[i])
      && (value == Some(owed) <==> OwesEvenly(Bins(cols, rows, i), doubted[i]))
    else ReadsAs(cols[i], Bins(cols, rows, i), owed, value)
  }

  /** The emission is what the window at e.start owes to e.key. */
  ghost predicate Owed(cols: Columns, width: nat, slide: nat, log: seq<Rec>, since: int, e: Emission)
    requires slide > 0 && RecsOk(cols, log)
  {
    var recs, rows := WindowRecs(log, e.key, e.start, width, slide), WindowRows(cols, width, slide, log, e.key, e.start);
    && recs != [] && RecsOk(cols, recs) && rows != []
    && e.end == e.start + slide && e.timestamp == e.end - 1 && |e.values| == |cols|
    && (forall i :: 0 <= i < |cols| ==>
          ColumnRight(cols, recs, rows, Doubted(cols, width, slide, log, since, e.key, e.start), i, e.values[i]))
  }

  ghost predicate Emits(emitted: seq<Emission>, k: int, b: int) {
    exists n :: 0 <= n < |emitted| && emitted[n].key == k && emitted[n].start == b
  }

  /** Everything emitted is owed, and every closed window that has records is emitted, once. */
  ghost predicate EmittedInv(cols: Columns, width: nat, slide: nat, log: seq<Rec>, since: int,
                             emitted: seq<Emission>, frontier: int)
    requires slide > 0
  {
    && RecsOk(cols, log)
    && (forall n :: 0 <= n < |emitted| ==>
          && OnGrid(emitted[n].start, slide) && since <= emitted[n].start && emitted[n].start + slide <= frontier
          && Owed(cols, width, slide, log, since, emitted[n]))
    && (forall k, b :: OnGrid(b, slide) && since <= b && b + slide <= frontier && WindowRecs(log, k, b, width, slide) != [] ==>
          Emits(emitted, k, b))
    && (forall m, n :: 0 <= m < n < |emitted| ==> emitted[m].key != emitted[n].key || emitted[m].start != emitted[n].start)
  }

  /** Only nullable averages are ever in doubt. */
  lemma {:induction false} DoubtedIsAverage(cols: Columns, width: nat, slide: nat, log: seq<Rec>, since: int, k: int,
                                            b: int)
    requires slide > 0 && RecsOk(cols, log)
    ensures forall i :: i in Doubted(cols, width, slide, log, since, k, b) ==> i < |cols| && cols[i] == AVG
    decreases b - since
  {
    if since <= b {
      DoubtedIsAverage(cols, width, slide, log, since, k, b - slide);
    }
  }

  // ---------- the memory view ----------

  /** What one key's entry holds: its live rows, oldest first, and the columns that are spoiled. */
  datatype Held = Held(rows: seq<Row>, spoiled: map<nat, Debt>)

  function Entry(memory: map<int, ProjMem>, k: int): Option<ProjMem> {
    if k in memory then Some(memory[k]) else None
  }

  ghost predicate KeyInv(cols: Columns, memory: map<int, ProjMem>, k: int, h: Held) {
    RowsOk(cols, h.rows) && Follows(cols, Entry(memory, k), h.rows, h.spoiled)
  }

  ghost predicate EntriesHold(cols: Columns, memory: map<int, ProjMem>, f: int -> Held) {
    forall k :: KeyInv(cols, memory, k, f(k))
  }

  ghost function AfterEnter(h: Held, row: Row): Held {
    h.(rows := h.rows + [row])
  }

  ghost function AfterLeave(cols: Columns, h: Held): Held {
    if |h.rows| <= 1 || !RowsOk(cols, h.rows) then Held([], map[])
    else Held(h.rows[1..], NextSpoiled(cols, h.rows, h.spoiled))
  }

  /** What each key's entry holds before the bin at b enters. */
  ghost function Before(cols: Columns, width: nat, slide: nat, log: seq<Rec>, since: int, b: int): int -> Held
    requires slide > 0 && RecsOk(cols, log)
  {
    k => Held(BinRows(cols, log, k, b - width, b, slide), Doubted(cols, width, slide, log, since, k, b - slide))
  }

  /** The same once it has entered, and nothing has left. */
  ghost function Entered(cols: Columns, width: nat, slide: nat, log: seq<Rec>, since: int, b: int): int -> Held
    requires slide > 0 && RecsOk(cols, log)
  {
    k => Held(BinRows(cols, log, k, b - width, b + slide, slide), Doubted(cols, width, slide, log, since, k, b - slide))
  }

  ghost predicate MemoryInv(cols: Columns, width: nat, slide: nat, log: seq<Rec>, since: int, memory: map<int, ProjMem>,
                            b: int)
    requires slide > 0
  {
    RecsOk(cols, log) && EntriesHold(cols, memory, Before(cols, width, slide, log, since, b))
  }

  /** A bin enters key k's entry. */
  lemma {:induction false} EnterKey(cols: Columns, memory: map<int, ProjMem>, k: int, h: Held, row: Row)
    requires RowOk(cols, row) && KeyInv(cols, memory, k, h)
    ensures k in memory ==> MemsOk(cols, memory[k])
    ensures KeyInv(cols, memory[k := ProjAdd(cols, Entry(memory, k), row)], k, AfterEnter(h, row))
  {
    EnterFollows(cols, Entry(memory, k), h.rows, h.spoiled, row);
  }

  /** An unwrap fails when the oldest bin of key k leaves. */
  ghost predicate LeaveFails(cols: Columns, memory: map<int, ProjMem>, k: int, h: Held)
    requires KeyInv(cols, memory, k, h)
  {
    |h.rows| > 1 && exists i: nat :: FailsAt(cols, memory[k], h.rows, h.spoiled, i)
  }

  lemma {:induction false} LeaveKey(cols: Columns, memory: map<int, ProjMem>, k: int, h: Held)
    requires h.rows != [] && KeyInv(cols, memory, k, h)
    ensures RowOk(cols, h.rows[0]) && k in memory && MemsOk(cols, memory[k])
    ensures var r := ProjRemove(cols, memory[k], h.rows[0]);
            && (r.Failed? <==> LeaveFails(cols, memory, k, h))
            && (r.AllGone? ==> KeyInv(cols, memory - {k}, k, AfterLeave(cols, h)))
            && (r.Remaining? ==> KeyInv(cols, memory[k := r.mem], k, AfterLeave(cols, h)))
    ensures LeaveFails(cols, memory, k, h) ==> h.spoiled != map[]
  {
    hide NextSpoiled, FailsAt;
    ProjRemoveOldest(cols, memory[k], h.rows, h.spoiled);
    FailsInRange(cols, memory[k], h.rows, h.spoiled);
  }

  /** f once the keys in done have received their row. */
  ghost function With(f: int -> Held, entries: map<int, Row>, done: set<int>): int -> Held {
    k => if k in done && k in entries then AfterEnter(f(k), entries[k]) else f(k)
  }

  /** f once the keys in done have lost their oldest row. */
  ghost function Without(cols: Columns, f: int -> Held, entries: map<int, Row>, done: set<int>): int -> Held {
    k => if k in done && k in entries then AfterLeave(cols, f(k)) else f(k)
  }

  /** Changing key k's entry leaves the other keys alone. */
  lemma {:induction false} OtherKeys(cols: Columns, memory: map<int, ProjMem>, memory': map<int, ProjMem>, f: int -> Held,
                                     g: int -> Held, k: int)
    requires EntriesHold(cols, memory, f) && memory' - {k} == memory - {k} && KeyInv(cols, memory', k, g(k))
    requires forall k' :: k' != k ==> g(k') == f(k')
    ensures EntriesHold(cols, memory', g)
  {
    hide Follows;
    forall k': int
      ensures KeyInv(cols, memory', k', g(k'))
    {
      assert KeyInv(cols, memory, k', f(k'));
      if k' != k {
        assert k' in memory - {k} <==> k' in memory;
        assert k' in memory' - {k} <==> k' in memory';
        assert k' in memory ==> (memory - {k})[k'] == memory[k'];
        assert k' in memory' ==> (memory' - {k})[k'] == memory'[k'];
        assert Entry(memory', k') == Entry(memory, k');
      }
    }
  }

  lemma {:induction false} SameEntries(cols: Columns, memory: map<int, ProjMem>, f: int -> Held, g: int -> Held)
    requires EntriesHold(cols, memory, f) && forall k :: f(k) == g(k)
    ensures EntriesHold(cols, memory, g)
  {
    forall k: int
      ensures KeyInv(cols, memory, k, g(k))
    {
      assert KeyInv(cols, memory, k, f(k));
    }
  }

  // ---------- the table and the bins ----------

  /** What the table holds for key k at t is the row of its records. */
  lemma {:induction false} SlotIsBin(cols: Columns, slide: nat, log: seq<Rec>, table: Layer<Row>, horizon: int, t: int,
                                     k: int)
    requires slide > 0 && TableInv(cols, slide, log, table, horizon) && horizon <= t && OnGrid(t, slide)
    ensures BinRow(cols, log, k, t, slide) == if k in Slot(table, t) then [Slot(table, t)[k]] else []
    ensures k in Slot(table, t) ==> RowOk(cols, Slot(table, t)[k])
  {
    hide OnGrid, Select;
    assert BinRecs(log, k, t, slide) != [] ==> t in table && k in table[t];
    if k in Slot(table, t) {
      assert t in table && k in table[t];
    }
  }

  /** The bin at b extends every key's rows. */
  lemma {:induction false} EnteredRows(cols: Columns, width: nat, slide: nat, log: seq<Rec>, since: int, table: Layer<Row>,
                                       horizon: int, b: int)
    requires Configured(width, slide) && TableInv(cols, slide, log, table, horizon) && OnGrid(b, slide) && horizon <= b
    ensures forall k :: With(Before(cols, width, slide, log, since, b), Slot(table, b), Slot(table, b).Keys)(k)
                     == Entered(cols, width, slide, log, since, b)(k)
    ensures forall k :: k in Slot(table, b) ==> RowOk(cols, Slot(table, b)[k])
  {
    forall k: int
      ensures With(Before(cols, width, slide, log, since, b), Slot(table, b), Slot(table, b).Keys)(k)
           == Entered(cols, width, slide, log, since, b)(k)
      ensures k in Slot(table, b) ==> RowOk(cols, Slot(table, b)[k])
    {
      SlotIsBin(cols, slide, log, table, horizon, b, k);
      hide BinRow, BinRows, Doubted, Slot, TableInv;
      BinRowsStep(cols, log, k, b - width, b + slide, slide);
      assert BinRows(cols, log, k, b - width, b, slide) + [] == BinRows(cols, log, k, b - width, b, slide);
    }
  }

  /** The row at b - width is the oldest; without it every key is where the next window starts. */
  lemma {:induction false} LeftRows(cols: Columns, width: nat, slide: nat, log: seq<Rec>, since: int, table: Layer<Row>,
                                    b: int, k: int)
    requires slide > 0 && width > 0 && OnGrid(width, slide) && RecsOk(cols, log)
    requires TableInv(cols, slide, log, table, b - width) && OnGrid(b, slide) && since <= b
    ensures k in Slot(table, b - width) ==>
              var rows := Entered(cols, width, slide, log, since, b)(k).rows;
              rows != [] && rows[0] == Slot(table, b - width)[k]
    ensures Without(cols, Entered(cols, width, slide, log, since, b), Slot(table, b - width), Slot(table, b - width).Keys)(k)
         == Before(cols, width, slide, log, since, b + slide)(k)
  {
    hide *;
    assert b + slide - slide == b && b + slide - width == b - width + slide;
    EnteredIs(cols, width, slide, log, since, b, k);
    BeforeIs(cols, width, slide, log, since, b + slide, k);
    WithoutIs(cols, Entered(cols, width, slide, log, since, b), Slot(table, b - width), k);
    GridSub(b, width, slide);
    GridStep(width, slide);
    SlotIsBin(cols, slide, log, table, b - width, b - width, k);
    BinRowsFirst(cols, log, k, b - width, b + slide, slide);
    DoubtedStep(cols, width, slide, log, since, k, b);
    var rest := BinRows(cols, log, k, b - width + slide, b + slide, slide);
    var all := BinRows(cols, log, k, b - width, b + slide, slide);
    WindowRowsIs(cols, width, slide, log, k, b);
    AfterLeaveIs(cols, Entered(cols, width, slide, log, since, b)(k));
    if k in Slot(table, b - width) {
      assert all == [Slot(table, b - width)[k]] + rest;
      assert all[1..] == rest;
    } else {
      assert all == [] + rest == rest;
    }
  }

  lemma {:induction false} EnteredIs(cols: Columns, width: nat, slide: nat, log: seq<Rec>, since: int, b: int, k: int)
    requires slide > 0 && RecsOk(cols, log)
    ensures Entered(cols, width, slide, log, since, b)(k)
         == Held(BinRows(cols, log, k, b - width, b + slide, slide), Doubted(cols, width, slide, log, since, k, b - slide))
  {
  }

  lemma {:induction false} BeforeIs(cols: Columns, width: nat, slide: nat, log: seq<Rec>, since: int, b: int, k: int)
    requires slide > 0 && RecsOk(cols, log)
    ensures Before(cols, width, slide, log, since, b)(k)
         == Held(BinRows(cols, log, k, b - width, b, slide), Doubted(cols, width, slide, log, since, k, b - slide))
  {
  }

  lemma {:induction false} WithoutIs(cols: Columns, f: int -> Held, entries: map<int, Row>, k: int)
    ensures Without(cols, f, entries, entries.Keys)(k) == if k in entries then AfterLeave(cols, f(k)) else f(k)
  {
  }

  lemma {:induction false} AfterLeaveIs(cols: Columns, h: Held)
    requires RowsOk(cols, h.rows)
    ensures AfterLeave(cols, h) == if |h.rows| <= 1 then Held([], map[]) else Held(h.rows[1..], NextSpoiled(cols, h.rows, h.spoiled))
  {
  }

  lemma {:induction false} WindowRowsIs(cols: Columns, width: nat, slide: nat, log: seq<Rec>, k: int, b: int)
    requires slide > 0 && RecsOk(cols, log)
    ensures WindowRows(cols, width, slide, log, k, b) == BinRows(cols, log, k, b - width + slide, b + slide, slide)
  {
    assert b + slide - width == b - width + slide;
  }

  /** What is in doubt once the row at b - width has left the entered rows. */
  lemma {:induction false} DoubtedStep(cols: Columns, width: nat, slide: nat, log: seq<Rec>, since: int, k: int, b: int)
    requires slide > 0 && RecsOk(cols, log) && since <= b && width > 0
    ensures Doubted(cols, width, slide, log, since, k, b)
         == if WindowRows(cols, width, slide, log, k, b) == [] then map[]
            else if BinRow(cols, log, k, b - width, slide) == [] then Doubted(cols, width, slide, log, since, k, b - slide)
            else NextSpoiled(cols, BinRows(cols, log, k, b - width, b + slide, slide),
                             Doubted(cols, width, slide, log, since, k, b - slide))
    ensures BinRows(cols, log, k, b - width, b + slide, slide) == [] ==>
              Doubted(cols, width, slide, log, since, k, b - slide) == map[]
  {
    hide *;
    DoubtedIs(cols, width, slide, log, since, k, b);
    DoubtedIs(cols, width, slide, log, since, k, b - slide);
    WindowRowsIs(cols, width, slide, log, k, b - slide);
    assert b - slide - width + slide == b - width && b - slide + slide == b && b + slide - slide == b;
    BinRowsStep(cols, log, k, b - width, b + slide, slide);
  }

  lemma {:induction false} HasEntered(cols: Columns, width: nat, slide: nat, log: seq<Rec>, since: int, table: Layer<Row>,
                                      memory: map<int, ProjMem>, b: int)
    requires Configured(width, slide) && TableInv(cols, slide, log, table, b - width) && OnGrid(b, slide)
    requires EntriesHold(cols, memory, With(Before(cols, width, slide, log, since, b), Slot(table, b), Slot(table, b).Keys))
    ensures EntriesHold(cols, memory, Entered(cols, width, slide, log, since, b))
  {
    EnteredRows(cols, width, slide, log, since, table, b - width, b);
    SameEntries(cols, memory, With(Before(cols, width, slide, log, since, b), Slot(table, b), Slot(table, b).Keys),
                Entered(cols, width, slide, log, since, b));
  }

  lemma {:induction false} HasLeft(cols: Columns, width: nat, slide: nat, log: seq<Rec>, since: int, table: Layer<Row>,
                                   memory: map<int, ProjMem>, b: int)
    requires Configured(width, slide) && TableInv(cols, slide, log, table, b - width) && OnGrid(b, slide) && since <= b
    requires EntriesHold(cols, memory,
                         Without(cols, Entered(cols, width, slide, log, since, b), Slot(table, b - width),
                                 Slot(table, b - width).Keys))
    ensures MemoryInv(cols, width, slide, log, since, memory, b + slide)
  {
    var f := Without(cols, Entered(cols, width, slide, log, since, b), Slot(table, b - width), Slot(table, b - width).Keys);
    var g := Before(cols, width, slide, log, since, b + slide);
    forall k: int
      ensures f(k) == g(k)
    {
      LeftRows(cols, width, slide, log, since, table, b, k);
    }
    SameEntries(cols, memory, f, g);
  }

  // ---------- accepting a record ----------

  lemma {:induction false} DoubtedGrows(cols: Columns, width: nat, slide: nat, log: seq<Rec>, since: int, r: Rec, k: int,
                                        b: int)
    requires slide > 0 && width > 0 && RecsOk(cols, log) && RecOk(cols, r) && b + slide <= r.ts
    ensures RecsOk(cols, log + [r])
    ensures WindowRows(cols, width, slide, log + [r], k, b) == WindowRows(cols, width, slide, log, k, b)
    ensures Doubted(cols, width, slide, log + [r], since, k, b) == Doubted(cols, width, slide, log, since, k, b)
    decreases b - since
  {
    hide *;
    RecsGrow(cols, log, r);
    BinRowsGrow(cols, log, r, k, b - width + slide, b + slide, slide);
    WindowRowsIs(cols, width, slide, log, k, b);
    WindowRowsIs(cols, width, slide, log + [r], k, b);
    DoubtedIs(cols, width, slide, log, since, k, b);
    DoubtedIs(cols, width, slide, log + [r], since, k, b);
    if since <= b {
      DoubtedGrows(cols, width, slide, log, since, r, k, b - slide);
      BinRowsGrow(cols, log, r, k, b - width, b + slide, slide);
      BinRowGrows(cols, log, r, k, b - width, slide);
    }
  }

  lemma {:induction false} RecsGrow(cols: Columns, log: seq<Rec>, r: Rec)
    requires RecsOk(cols, log) && RecOk(cols, r)
    ensures RecsOk(cols, log + [r])
  {
  }

  lemma {:induction false} BinRowGrows(cols: Columns, log: seq<Rec>, r: Rec, k: int, t: int, slide: nat)
    requires RecsOk(cols, log) && RecsOk(cols, log + [r]) && t + slide <= r.ts
    ensures BinRow(cols, log + [r], k, t, slide) == BinRow(cols, log, k, t, slide)
  {
    SelectAppend(log, r, k, t, t + slide);
    assert BinRecs(log + [r], k, t, slide) == BinRecs(log, k, t, slide);
  }

  lemma {:induction false} DoubtedIs(cols: Columns, width: nat, slide: nat, log: seq<Rec>, since: int, k: int, b: int)
    requires slide > 0 && RecsOk(cols, log)
    ensures Doubted(cols, width, slide, log, since, k, b)
         == if b < since || WindowRows(cols, width, slide, log, k, b) == [] then map[]
            else if BinRow(cols, log, k, b - width, slide) == [] then Doubted(cols, width, slide, log, since, k, b - slide)
            else NextSpoiled(cols, BinRows(cols, log, k, b - width, b + slide, slide),
                             Doubted(cols, width, slide, log, since, k, b - slide))
  {
  }

  lemma {:induction false} WindowGrows(log: seq<Rec>, r: Rec, k: int, b: int, width: nat, slide: nat)
    requires b + slide <= r.ts
    ensures WindowRecs(log + [r], k, b, width, slide) == WindowRecs(log, k, b, width, slide)
  {
    SelectAppend(log, r, k, b + slide - width, b + slide);
  }

  /** A record in no window so far closed does not disturb what has been emitted. */
  lemma {:induction false} EmittedGrows(cols: Columns, width: nat, slide: nat, log: seq<Rec>, since: int,
                                        emitted: seq<Emission>, frontier: int, r: Rec)
    requires slide > 0 && width > 0 && EmittedInv(cols, width, slide, log, since, emitted, frontier)
    requires RecOk(cols, r) && frontier <= r.ts
    ensures EmittedInv(cols, width, slide, log + [r], since, emitted, frontier)
  {
    hide Select, Doubted, WindowRecs, WindowRows, ColumnRight, OnGrid;
    assert RecsOk(cols, log + [r]);
    forall n | 0 <= n < |emitted|
      ensures Owed(cols, width, slide, log + [r], since, emitted[n])
    {
      WindowGrows(log, r, emitted[n].key, emitted[n].start, width, slide);
      DoubtedGrows(cols, width, slide, log, since, r, emitted[n].key, emitted[n].start);
    }
    forall k, b | OnGrid(b, slide) && since <= b && b + slide <= frontier && WindowRecs(log + [r], k, b, width, slide) != []
      ensures Emits(emitted, k, b)
    {
      WindowGrows(log, r, k, b, width, slide);
    }
  }

  /** A record at or beyond the end of the window does not concern the memory view. */
  lemma {:induction false} MemoryGrows(cols: Columns, width: nat, slide: nat, log: seq<Rec>, since: int,
                                       memory: map<int, ProjMem>, b: int, r: Rec)
    requires slide > 0 && width > 0 && MemoryInv(cols, width, slide, log, since, memory, b) && RecOk(cols, r) && b <= r.ts
    ensures MemoryInv(cols, width, slide, log + [r], since, memory, b)
  {
    assert RecsOk(cols, log + [r]);
    hide Before, EntriesHold;
    forall k: int
      ensures Before(cols, width, slide, log, since, b)(k) == Before(cols, width, slide, log + [r], since, b)(k)
    {
      BeforeGrows(cols, width, slide, log, since, b, r, k);
    }
    SameEntries(cols, memory, Before(cols, width, slide, log, since, b), Before(cols, width, slide, log + [r], since, b));
  }

  lemma {:induction false} BeforeGrows(cols: Columns, width: nat, slide: nat, log: seq<Rec>, since: int, b: int, r: Rec,
                                       k: int)
    requires slide > 0 && width > 0 && RecsOk(cols, log) && RecOk(cols, r) && b <= r.ts
    ensures RecsOk(cols, log + [r])
    ensures Before(cols, width, slide, log, since, b)(k) == Before(cols, width, slide, log + [r], since, b)(k)
  {
    hide BinRows, Doubted, WindowRows;
    BinRowsGrow(cols, log, r, k, b - width, b, slide);
    DoubtedGrows(cols, width, slide, log, since, r, k, b - slide);
  }

  // ---------- windows without records ----------

  lemma {:induction false} NoRows(cols: Columns, slide: nat, log: seq<Rec>, table: Layer<Row>, horizon: int, k: int,
                                  lo: int, hi: int)
    requires slide > 0 && TableInv(cols, slide, log, table, horizon)
    requires horizon <= lo <= hi && OnGrid(lo, slide) && OnGrid(hi, slide)
    requires forall t :: t in table ==> hi <= t
    ensures BinRows(cols, log, k, lo, hi, slide) == [] && Select(log, k, lo, hi) == []
    decreases hi - lo
  {
    hide Select, OnGrid, BinRow, RecsOk, RowOf;
    BinRowsEmpty(cols, log, k, lo, hi, slide);
    if lo < hi {
      GridGap(lo, hi, slide);
      GridStep(hi, slide);
      NoRows(cols, slide, log, table, horizon, k, lo, hi - slide);
      SlotIsBin(cols, slide, log, table, horizon, hi - slide, k);
    } else {
      BinRowsNone(cols, log, k, lo, hi, slide);
    }
  }

  /** Windows that end before the earliest bin have no records. */
  lemma {:induction false} SkipEmpty(cols: Columns, width: nat, slide: nat, log: seq<Rec>, since: int, table: Layer<Row>,
                                     emitted: seq<Emission>, frontier: int, next: int)
    requires slide > 0 && OnGrid(width, slide) && TableInv(cols, slide, log, table, frontier - width)
    requires OnGrid(frontier, slide) && OnGrid(next, slide) && frontier <= next
    requires forall t :: t in table ==> next <= t
    requires EmittedInv(cols, width, slide, log, since, emitted, frontier)
    ensures EmittedInv(cols, width, slide, log, since, emitted, next)
    ensures TableInv(cols, slide, log, table, next - width)
  {
    hide Owed, Select, OnGrid;
    forall k, b | OnGrid(b, slide) && frontier < b + slide <= next
      ensures WindowRecs(log, k, b, width, slide) == []
    {
      GridStep(b, slide);
      GridGap(frontier, b + slide, slide);
      NoWindow(cols, width, slide, log, table, frontier, next, k, b);
    }
  }

  lemma {:induction false} NoWindow(cols: Columns, width: nat, slide: nat, log: seq<Rec>, table: Layer<Row>,
                                    frontier: int, next: int, k: int, b: int)
    requires slide > 0 && OnGrid(width, slide) && TableInv(cols, slide, log, table, frontier - width)
    requires OnGrid(b, slide) && frontier <= b && b + slide <= next
    requires forall t :: t in table ==> next <= t
    ensures WindowRecs(log, k, b, width, slide) == []
  {
    GridStep(b, slide);
    GridSub(b + slide, width, slide);
    NoRows(cols, slide, log, table, frontier - width, k, b + slide - width, b + slide);
  }

  // ---------- emitting a window ----------

  /** The rows of a window combine to the bin of its records, and are there exactly if the records are. */
  lemma {:induction false} WindowIsCombined(cols: Columns, width: nat, slide: nat, log: seq<Rec>, k: int, b: int)
    requires Configured(width, slide) && OnGrid(b, slide) && RecsOk(cols, log)
    ensures RecsOk(cols, WindowRecs(log, k, b, width, slide))
    ensures WindowRecs(log, k, b, width, slide) == [] <==> WindowRows(cols, width, slide, log, k, b) == []
    ensures forall i :: 0 <= i < |cols| ==>
              Combined(cols, WindowRows(cols, width, slide, log, k, b), WindowRecs(log, k, b, width, slide), i)
  {
    hide Select, BinRows, OnGrid, Combined, RecsOk;
    GridStep(b, slide);
    GridSub(b + slide, width, slide);
    SelectOk(cols, log, k, b + slide - width, b + slide);
    BinRowsEmpty(cols, log, k, b + slide - width, b + slide, slide);
    forall i | 0 <= i < |cols|
      ensures Combined(cols, WindowRows(cols, width, slide, log, k, b), WindowRecs(log, k, b, width, slide), i)
    {
      WindowCombines(cols, log, k, b + slide - width, b + slide, slide, i);
    }
  }

  /** What an entry that holds these rows reads, column by column. */
  lemma {:induction false} EntryReads(cols: Columns, m: ProjMem, rows: seq<Row>, spoiled: map<nat, Debt>, recs: seq<Rec>,
                                      i: nat)
    requires RowsOk(cols, rows) && rows != [] && RecsOk(cols, recs) && recs != [] && i < |cols|
    requires ProjHolds(cols, m, rows, spoiled) && Combined(cols, rows, recs, i)
    ensures ColumnRight(cols, recs, rows, spoiled, i, MemAggregate(cols[i], m.mems[i]))
  {
    hide AvgOwes, ColumnHolds, ReadsAs, OwesEvenly, OwingRead, MemAggregate, VecAggregate, BinOf, CombineAll, PresentBins;
    assert ColumnState(cols, m, rows, spoiled, i);
    var live, xs := Bins(cols, rows, i), Inputs(cols, recs, i);
    if i in spoiled {
      SpoiledReads(m.mems[i], live, spoiled[i], xs);
    } else {
      ReadsAsOneShot(cols[i], m.mems[i], live, xs);
    }
  }

  /** The result read from key k's entry is the one the window owes. */
  lemma {:induction false} EmitKey(cols: Columns, width: nat, slide: nat, log: seq<Rec>, since: int,
                                   memory: map<int, ProjMem>, b: int, k: int)
    requires Configured(width, slide) && OnGrid(b, slide)
    requires MemoryInv(cols, width, slide, log, since, memory, b + slide)
    ensures k in memory <==> WindowRecs(log, k, b, width, slide) != []
    ensures k in memory ==> MemsOk(cols, memory[k]) && Owed(cols, width, slide, log, since, Result(cols, slide, memory[k], k, b))
  {
    hide Doubted, Select, BinRows, Combined, ColumnRight, ProjHolds;
    assert KeyInv(cols, memory, k, Before(cols, width, slide, log, since, b + slide)(k));
    assert b + slide - slide == b;
    WindowIsCombined(cols, width, slide, log, k, b);
    if k in memory {
      HeldIsOk(cols, memory[k], WindowRows(cols, width, slide, log, k, b), Doubted(cols, width, slide, log, since, k, b));
      var e := Result(cols, slide, memory[k], k, b);
      forall i | 0 <= i < |cols|
        ensures ColumnRight(cols, WindowRecs(log, k, b, width, slide), WindowRows(cols, width, slide, log, k, b),
                            Doubted(cols, width, slide, log, since, k, b), i, e.values[i])
      {
        EntryReads(cols, memory[k], WindowRows(cols, width, slide, log, k, b), Doubted(cols, width, slide, log, since, k, b),
                   WindowRecs(log, k, b, width, slide), i);
      }
    }
  }

  /** The keys of the memory view are those with records in the window. */
  lemma {:induction false} MemoryKeys(cols: Columns, width: nat, slide: nat, log: seq<Rec>, since: int,
                                      memory: map<int, ProjMem>, b: int)
    requires Configured(width, slide) && OnGrid(b, slide)
    requires MemoryInv(cols, width, slide, log, since, memory, b + slide)
    ensures forall k :: k in memory.Keys <==> WindowRecs(log, k, b, width, slide) != []
  {
    hide *;
    forall k: int
      ensures k in memory.Keys <==> WindowRecs(log, k, b, width, slide) != []
    {
      EmitKey(cols, width, slide, log, since, memory, b, k);
    }
  }

  lemma {:induction false} HeldIsOk(cols: Columns, m: ProjMem, rows: seq<Row>, spoiled: map<nat, Debt>)
    requires RowsOk(cols, rows) && rows != [] && ProjHolds(cols, m, rows, spoiled)
    ensures MemsOk(cols, m)
  {
  }

  function Result(cols: Columns, slide: nat, m: ProjMem, k: int, b: int): Emission
    requires MemsOk(cols, m)
  {
    Emission(k, b, b + slide, b + slide - 1,
             seq(|cols|, i requires 0 <= i < |cols| && MemOk(cols[i], m.mems[i]) => MemAggregate(cols[i], m.mems[i])))
  }

  /** The results of one window, one per key. */
  ghost predicate WindowResults(cols: Columns, width: nat, slide: nat, log: seq<Rec>, since: int, es: seq<Emission>,
                                keys: set<int>, b: int)
    requires slide > 0 && RecsOk(cols, log)
  {
    && (forall k :: k in keys ==> Emits(es, k, b))
    && (forall n :: 0 <= n < |es| ==> es[n].key in keys && es[n].start == b && Owed(cols, width, slide, log, since, es[n]))
    && (forall m, n :: 0 <= m < n < |es| ==> es[m].key != es[n].key)
  }

  lemma {:induction false} MoreResults(cols: Columns, width: nat, slide: nat, log: seq<Rec>, since: int, es: seq<Emission>,
                                       keys: set<int>, b: int, e: Emission)
    requires slide > 0 && RecsOk(cols, log) && WindowResults(cols, width, slide, log, since, es, keys, b)
    requires e.key !in keys && e.start == b && Owed(cols, width, slide, log, since, e)
    ensures WindowResults(cols, width, slide, log, since, es + [e], keys + {e.key}, b)
  {
    hide Owed;
    forall k | k in keys + {e.key}
      ensures Emits(es + [e], k, b)
    {
      if k in keys {
        EmitsMore(es, [e], k, b);
      } else {
        assert (es + [e])[|es|] == e;
      }
    }
  }

  lemma {:induction false} EmitsMore(es: seq<Emission>, more: seq<Emission>, k: int, b: int)
    ensures Emits(es, k, b) ==> Emits(es + more, k, b)
    ensures Emits(more, k, b) ==> Emits(es + more, k, b)
  {
    if Emits(es, k, b) {
      var n :| 0 <= n < |es| && es[n].key == k && es[n].start == b;
      assert (es + more)[n] == es[n];
    }
    if Emits(more, k, b) {
      var n :| 0 <= n < |more| && more[n].key == k && more[n].start == b;
      assert (es + more)[|es| + n] == more[n];
    }
  }

  lemma {:induction false} EmittedAdvances(cols: Columns, width: nat, slide: nat, log: seq<Rec>, since: int,
                                           emitted: seq<Emission>,
                                           es: seq<Emission>, keys: set<int>, b: int)
    requires slide > 0 && OnGrid(b, slide) && since <= b && EmittedInv(cols, width, slide, log, since, emitted, b)
    requires WindowResults(cols, width, slide, log, since, es, keys, b)
    requires forall k :: WindowRecs(log, k, b, width, slide) != [] ==> k in keys
    ensures EmittedInv(cols, width, slide, log, since, emitted + es, b + slide)
  {
    hide Owed, OnGrid, WindowRecs;
    var all := emitted + es;
    forall k, b' | OnGrid(b', slide) && since <= b' && b' + slide <= b + slide && WindowRecs(log, k, b', width, slide) != []
      ensures Emits(all, k, b')
    {
      EmitsMore(emitted, es, k, b');
      if b' < b {
        GridGap(b', b, slide);
      }
    }
    forall n | 0 <= n < |all|
      ensures OnGrid(all[n].start, slide) && since <= all[n].start && all[n].start + slide <= b + slide
              && Owed(cols, width, slide, log, since, all[n])
    {
      assert all[n] == if n < |emitted| then emitted[n] else es[n - |emitted|];
    }
    forall m, n | 0 <= m < n < |all|
      ensures all[m].key != all[n].key || all[m].start != all[n].start
    {
      assert all[m] == if m < |emitted| then emitted[m] else es[m - |emitted|];
      assert all[n] == if n < |emitted| then emitted[n] else es[n - |emitted|];
    }
  }
}
