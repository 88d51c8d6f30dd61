// Whole runs of the sliding memory: any sequence of bins entering a window and of oldest
// bins leaving it. For every tuple of aggregates the memory follows the live bins, column by
// column; for the nullable Sum and the nullable Avg the exact conditions are given.
module SlidingRuns {
  import opened Messages
  import opened Aggregates
  import opened SlidingMemory

  type Columns = seq<Column>

  /** One bin per aggregate of the projection. */
  type Row = seq<Bin>

  datatype ProjMem = ProjMem(count: int, mems: seq<Mem>)

  datatype ProjRemoval = AllGone | Remaining(mem: ProjMem) | Failed

  predicate RowOk(cols: Columns, row: Row) {
    |row| == |cols| && forall i :: 0 <= i < |cols| ==> BinOk(cols[i], row[i])
  }

  predicate MemsOk(cols: Columns, m: ProjMem) {
    |m.mems| == |cols| && forall i :: 0 <= i < |cols| ==> MemOk(cols[i], m.mems[i])
  }

  function ProjAdd(cols: Columns, current: Option<ProjMem>, row: Row): (m: ProjMem)
    requires RowOk(cols, row) && (current.Some? ==> MemsOk(cols, current.value))
    ensures MemsOk(cols, m)
  {
    match current
    case Some(p) =>
      ProjMem(p.count + 1,
              seq(|cols|, i requires 0 <= i < |cols| => MemAdd(cols[i], Some(p.mems[i]), row[i])))
    case None =>
      ProjMem(1, seq(|cols|, i requires 0 <= i < |cols| => MemAdd(cols[i], None, row[i])))
  }

  /** The outer counter decides when the entry disappears; the inner removals are unwrapped. */
  function ProjRemove(cols: Columns, p: ProjMem, row: Row): (r: ProjRemoval)
    requires RowOk(cols, row) && MemsOk(cols, p)
    ensures r.Remaining? ==> MemsOk(cols, r.mem)
  {
    if p.count == 1 then AllGone
    else if exists i :: 0 <= i < |cols| && !MemRemove(cols[i], p.mems[i], row[i]).Left? then Failed
    else
      Remaining(ProjMem(p.count - 1,
                        seq(|cols|, i requires 0 <= i < |cols| => MemRemove(cols[i], p.mems[i], row[i]).mem)))
  }

  ghost predicate RowsOk(cols: Columns, live: seq<Row>) {
    forall k :: 0 <= k < |live| ==> RowOk(cols, live[k])
  }

  /** The bins of aggregate i. */
  ghost function Bins(cols: Columns, live: seq<Row>, i: nat): (bs: seq<Bin>)
    requires RowsOk(cols, live) && i < |cols|
    ensures |bs| == |live| && BinsOk(cols[i], bs)
  {
    seq(|live|, k requires 0 <= k < |live| => live[k][i])
  }

  /**
   * The memory of a projection that holds the live bins: the outer counter is their number,
   * and every column holds its bins, save the nullable averages that have been spoiled.
   */
  ghost predicate ProjHolds(cols: Columns, m: ProjMem, live: seq<Row>, spoiled: map<nat, Debt>)
    requires live != [] && RowsOk(cols, live)
  {
    MemsOk(cols, m) && m.count == |live| && forall i :: 0 <= i < |cols| ==> ColumnState(cols, m, live, spoiled, i)
  }

  ghost predicate ColumnState(cols: Columns, m: ProjMem, live: seq<Row>, spoiled: map<nat, Debt>, i: nat)
    requires live != [] && RowsOk(cols, live) && MemsOk(cols, m) && i < |cols|
  {
    if i in spoiled then cols[i] == AVG && AvgOwes(m.mems[i], Bins(cols, live, i), spoiled[i])
    else ColumnHolds(cols[i], m.mems[i], Bins(cols, live, i))
  }

  /** The columns spoiled once the oldest of the live bins has left, each with what it has forgotten. */
  ghost function NextSpoiled(cols: Columns, live: seq<Row>, spoiled: map<nat, Debt>): map<nat, Debt>
    requires RowsOk(cols, live)
  {
    map i: nat | i < |cols| && cols[i] == AVG && (i in spoiled || Unsafe(cols[i], Bins(cols, live, i))) ::
      if i in spoiled then NextDebt(Bins(cols, live, i), spoiled[i]) else AllOwed(Bins(cols, live, i)[1..])
  }

  lemma {:induction false} ProjAddFirst(cols: Columns, row: Row)
    requires RowOk(cols, row)
    ensures RowsOk(cols, [row]) && ProjHolds(cols, ProjAdd(cols, None, row), [row], map[])
  {
    var m := ProjAdd(cols, None, row);
    forall i | 0 <= i < |cols|
      ensures ColumnState(cols, m, [row], map[], i)
    {
      AddFirst(cols[i], row[i]);
      assert Bins(cols, [row], i) == [row[i]];
    }
  }

  lemma {:induction false} ProjAddNext(cols: Columns, m: ProjMem, live: seq<Row>, spoiled: map<nat, Debt>, row: Row)
    requires live != [] && RowsOk(cols, live) && RowOk(cols, row) && ProjHolds(cols, m, live, spoiled)
    ensures RowsOk(cols, live + [row]) && ProjHolds(cols, ProjAdd(cols, Some(m), row), live + [row], spoiled)
  {
    hide ColumnHolds, AvgOwes, MemAdd;
    var m' := ProjAdd(cols, Some(m), row);
    forall i | 0 <= i < |cols|
      ensures ColumnState(cols, m', live + [row], spoiled, i)
    {
      assert ColumnState(cols, m, live, spoiled, i);
      assert Bins(cols, live + [row], i) == Bins(cols, live, i) + [row[i]];
      if i in spoiled {
        SpoiledAdd(m.mems[i], Bins(cols, live, i), row[i], spoiled[i]);
      } else {
        AddNext(cols[i], m.mems[i], Bins(cols, live, i), row[i]);
      }
    }
  }

  /** A removal of the oldest bin fails an unwrap in column i. */
  ghost predicate FailsAt(cols: Columns, m: ProjMem, live: seq<Row>, spoiled: map<nat, Debt>, i: nat)
    requires live != [] && RowsOk(cols, live) && ProjHolds(cols, m, live, spoiled)
  {
    i in spoiled && i < |cols| && ColumnState(cols, m, live, spoiled, i) && FailsUnwrap(m.mems[i], Bins(cols, live, i))
  }

  lemma {:induction false} RemoveColumn(cols: Columns, m: ProjMem, live: seq<Row>, spoiled: map<nat, Debt>, i: nat)
    requires |live| > 1 && RowsOk(cols, live) && ProjHolds(cols, m, live, spoiled) && i < |cols|
    ensures RowsOk(cols, live[1..])
    ensures var r := MemRemove(cols[i], m.mems[i], live[0][i]);
            var bins := Bins(cols, live[1..], i);
            && (r.Left? <==> !FailsAt(cols, m, live, spoiled, i))
            && (r.Left? ==>
                  if i in NextSpoiled(cols, live, spoiled) then cols[i] == AVG && AvgOwes(r.mem, bins, NextSpoiled(cols, live, spoiled)[i])
                  else ColumnHolds(cols[i], r.mem, bins))
  {
    hide ColumnHolds, AvgOwes, MemRemove, Unsafe, FailsUnwrap;
    assert ColumnState(cols, m, live, spoiled, i);
    assert Bins(cols, live, i)[1..] == Bins(cols, live[1..], i);
    if i in spoiled {
      SpoiledRemove(m.mems[i], Bins(cols, live, i), spoiled[i]);
    } else {
      RemoveOldest(cols[i], m.mems[i], Bins(cols, live, i));
      if Unsafe(cols[i], Bins(cols, live, i)) {
        UnsafeIsAvg(cols[i], m.mems[i], Bins(cols, live, i));
        UnsafeSpoils(Bins(cols, live, i));
      }
    }
  }

  lemma {:induction false} UnsafeIsAvg(c: Column, m: Mem, live: seq<Bin>)
    requires live != [] && BinsOk(c, live) && Unsafe(c, live) && ColumnHolds(c, m, live)
    ensures c == AVG && m == MemOf(AVG, live)
  {
  }

  /**
   * The oldest bin leaves. The entry goes with the last bin. Otherwise the removal fails if
   * and only if some spoiled average is to give up a bin while it knows of none, and a
   * removal that does not fail leaves the memory of the other bins.
   */
  lemma {:induction false} ProjRemoveOldest(cols: Columns, m: ProjMem, live: seq<Row>, spoiled: map<nat, Debt>)
    requires live != [] && RowsOk(cols, live) && ProjHolds(cols, m, live, spoiled)
    ensures |live| == 1 ==> ProjRemove(cols, m, live[0]) == AllGone
    ensures |live| > 1 ==>
              var r := ProjRemove(cols, m, live[0]);
              && RowsOk(cols, live[1..]) && !r.AllGone?
              && (r.Failed? <==> exists i: nat :: FailsAt(cols, m, live, spoiled, i))
              && (r.Remaining? ==> ProjHolds(cols, r.mem, live[1..], NextSpoiled(cols, live, spoiled)))
  {
    if |live| > 1 {
      hide ColumnHolds, AvgOwes, MemRemove, FailsAt, NextSpoiled;
      forall i | 0 <= i < |cols|
        ensures var r := MemRemove(cols[i], m.mems[i], live[0][i]);
                var bins := Bins(cols, live[1..], i);
                && (r.Left? <==> !FailsAt(cols, m, live, spoiled, i))
                && (r.Left? ==>
                      if i in NextSpoiled(cols, live, spoiled) then cols[i] == AVG && AvgOwes(r.mem, bins, NextSpoiled(cols, live, spoiled)[i])
                      else ColumnHolds(cols[i], r.mem, bins))
      {
        RemoveColumn(cols, m, live, spoiled, i);
      }
      FailsInRange(cols, m, live, spoiled);
    }
  }

  lemma {:induction false} FailsInRange(cols: Columns, m: ProjMem, live: seq<Row>, spoiled: map<nat, Debt>)
    requires live != [] && RowsOk(cols, live) && ProjHolds(cols, m, live, spoiled)
    ensures forall i: nat :: FailsAt(cols, m, live, spoiled, i) ==> i < |cols| && i in spoiled
  {
  }

  // ---------- runs of a whole projection ----------

  datatype Op = Enter(row: Row) | Leave

  /** One key's entry in the memory view, or a failed unwrap. */
  datatype Outcome = Running(mem: Option<ProjMem>) | Crashed

  ghost predicate OpsOk(cols: Columns, ops: seq<Op>) {
    forall n :: 0 <= n < |ops| && ops[n].Enter? ==> RowOk(cols, ops[n].row)
  }

  /** The bins that are live after a run, oldest first. */
  ghost function LiveAfter(cols: Columns, ops: seq<Op>): (live: seq<Row>)
    requires OpsOk(cols, ops)
    ensures RowsOk(cols, live)
  {
    if ops == [] then []
    else
      var live := LiveAfter(cols, ops[..|ops| - 1]);
      match ops[|ops| - 1]
      case Enter(row) => live + [row]
      case Leave => if live == [] then [] else live[1..]
  }

  /** The columns with an unsafe eviction since the entry last appeared, each with what it has forgotten. */
  ghost function SpoiledAfter(cols: Columns, ops: seq<Op>): map<nat, Debt>
    requires OpsOk(cols, ops)
  {
    if ops == [] then map[]
    else
      var live, spoiled := LiveAfter(cols, ops[..|ops| - 1]), SpoiledAfter(cols, ops[..|ops| - 1]);
      if ops[|ops| - 1].Enter? then spoiled
      else if |live| <= 1 then map[]
      else NextSpoiled(cols, live, spoiled)
  }

  ghost function Play(cols: Columns, ops: seq<Op>): (o: Outcome)
    requires OpsOk(cols, ops)
    ensures o.Running? && o.mem.Some? ==> MemsOk(cols, o.mem.value)
  {
    if ops == [] then Running(None)
    else
      var o, live := Play(cols, ops[..|ops| - 1]), LiveAfter(cols, ops[..|ops| - 1]);
      if o.Crashed? then Crashed
      else
        match ops[|ops| - 1]
        case Enter(row) => Running(Some(ProjAdd(cols, o.mem, row)))
        case Leave =>
          if live == [] || o.mem.None? then o
          else
            match ProjRemove(cols, o.mem.value, live[0])
            case AllGone => Running(None)
            case Remaining(m) => Running(Some(m))
            case Failed => Crashed
  }

  ghost predicate EverSpoiled(cols: Columns, ops: seq<Op>)
    requires OpsOk(cols, ops)
  {
    SpoiledAfter(cols, ops) != map[] || (ops != [] && EverSpoiled(cols, ops[..|ops| - 1]))
  }

  ghost predicate Follows(cols: Columns, mem: Option<ProjMem>, live: seq<Row>, spoiled: map<nat, Debt>)
    requires RowsOk(cols, live)
  {
    && (mem.None? <==> live == [])
    && (mem.Some? ==> ProjHolds(cols, mem.value, live, spoiled))
    && (mem.None? ==> spoiled == map[])
  }

  lemma {:induction false} EnterFollows(cols: Columns, mem: Option<ProjMem>, live: seq<Row>, spoiled: map<nat, Debt>,
                                        row: Row)
    requires RowsOk(cols, live) && Follows(cols, mem, live, spoiled) && RowOk(cols, row)
    ensures RowsOk(cols, live + [row]) && (mem.Some? ==> MemsOk(cols, mem.value))
    ensures Follows(cols, Some(ProjAdd(cols, mem, row)), live + [row], spoiled)
  {
    if mem.None? {
      ProjAddFirst(cols, row);
      assert live + [row] == [row];
    } else {
      ProjAddNext(cols, mem.value, live, spoiled, row);
    }
  }

  /**
   * After any run of any projection that has not crashed: the entry is gone exactly when no
   * bin is live, and otherwise it holds the live bins, counter included, in every column
   * without an unsafe eviction, and in no other. A crash needs an unsafe eviction first.
   */
  lemma {:induction false} MemoryFollowsWindow(cols: Columns, ops: seq<Op>)
    requires OpsOk(cols, ops)
    ensures var o, live, spoiled := Play(cols, ops), LiveAfter(cols, ops), SpoiledAfter(cols, ops);
            && (o.Running? ==> Follows(cols, o.mem, live, spoiled))
            && (o.Crashed? ==> EverSpoiled(cols, ops))
  {
    if ops != [] {
      hide ProjHolds, NextSpoiled;
      var front := ops[..|ops| - 1];
      MemoryFollowsWindow(cols, front);
      var o, live, spoiled := Play(cols, front), LiveAfter(cols, front), SpoiledAfter(cols, front);
      if o.Running? {
        match ops[|ops| - 1] {
          case Enter(row) => EnterFollows(cols, o.mem, live, spoiled, row);
          case Leave =>
            if live != [] {
              ProjRemoveOldest(cols, o.mem.value, live, spoiled);
              FailsInRange(cols, o.mem.value, live, spoiled);
            }
        }
      }
    }
  }

  /** The column holds its live bins if and only if no eviction since the entry appeared was unsafe. */
  lemma {:induction false} HoldsIffSafe(cols: Columns, ops: seq<Op>, i: nat)
    requires OpsOk(cols, ops) && i < |cols| && Play(cols, ops).Running? && Play(cols, ops).mem.Some?
    ensures LiveAfter(cols, ops) != [] && Play(cols, ops).mem.value.count == |LiveAfter(cols, ops)|
    ensures ColumnHolds(cols[i], Play(cols, ops).mem.value.mems[i], Bins(cols, LiveAfter(cols, ops), i))
            <==> i !in SpoiledAfter(cols, ops)
  {
    MemoryFollowsWindow(cols, ops);
    assert ColumnState(cols, Play(cols, ops).mem.value, LiveAfter(cols, ops), SpoiledAfter(cols, ops), i);
  }

  /** Without a nullable average nothing is ever spoiled and no unwrap fails. */
  lemma {:induction false} NoAverageNoFailure(cols: Columns, ops: seq<Op>)
    requires OpsOk(cols, ops) && forall i :: 0 <= i < |cols| ==> cols[i] != AVG
    ensures SpoiledAfter(cols, ops) == map[] && !EverSpoiled(cols, ops) && Play(cols, ops).Running?
  {
    if ops != [] {
      NoAverageNoFailure(cols, ops[..|ops| - 1]);
    }
    MemoryFollowsWindow(cols, ops);
  }

  // ---------- from live bins back to records ----------

  /**
   * What a window reads is the one-shot aggregate of all the records in its live bins, for
   * the two columns that may misread under their exact condition.
   */
  lemma {:induction false} ReadIsOneShotIff(c: Column, m: Mem, live: seq<Bin>, xs: seq<Input>)
    requires live != [] && BinsOk(c, live) && ColumnHolds(c, m, live) && xs != [] && InputsOk(c, xs)
    requires CombineAll(c, live) == BinOf(c, xs)
    ensures MemAggregate(c, m).Some?
    ensures MemAggregate(c, m) == Some(VecAggregate(c, xs)) <==> ReadsTrue(c, m, live)
  {
    MemAggregateIsCombinedIff(c, m, live);
    TwoPhaseIsOneShot(c, xs);
  }

  /**
   * The value a column reads from a memory of its live bins, when their records owe another:
   * the nullable Sum may read 0 for null, and the non-null Min reads the greatest bin, which
   * is right if and only if all bins agree.
   */
  ghost predicate ReadsAs(c: Column, live: seq<Bin>, owed: Output, value: Option<Output>)
    requires live != [] && BinsOk(c, live)
  {
    if c == SUM then value == Some(owed) || (owed == OptOut(None) && value == Some(OptOut(Some(0))))
    else if c == Column(Min, false) then
      && value.Some? && value.value.IntOut? && IsExtreme(Max, value.value.i, Values(c, live))
      && (value == Some(owed) <==> forall k :: 0 <= k < |live| ==> live[k] == live[0])
    else value == Some(owed)
  }

  lemma {:induction false} ReadsAsOneShot(c: Column, m: Mem, live: seq<Bin>, xs: seq<Input>)
    requires live != [] && BinsOk(c, live) && ColumnHolds(c, m, live) && xs != [] && InputsOk(c, xs)
    requires CombineAll(c, live) == BinOf(c, xs)
    ensures ReadsAs(c, live, VecAggregate(c, xs), MemAggregate(c, m))
  {
    ReadIsOneShotIff(c, m, live, xs);
    if c == Column(Min, false) {
      NonNullMinReadsGreatest(live);
    } else if c == SUM {
      CombineAllPresent(c, live);
      TwoPhaseIsOneShot(c, xs);
    }
  }

  /**
   * What a spoiled average reads, and when it is what the records owe: it counts some bin, the
   * bins that it counts are not empty on balance, and what it has forgotten has the average of
   * all. With a single present bin it reads null.
   */
  lemma {:induction false} SpoiledReads(m: Mem, live: seq<Bin>, d: Debt, xs: seq<Input>)
    requires live != [] && BinsOk(AVG, live) && AvgOwes(m, live, d)
    requires xs != [] && InputsOk(AVG, xs) && CombineAll(AVG, live) == BinOf(AVG, xs)
    ensures MemAggregate(AVG, m) == OwingRead(live, d)
    ensures MemAggregate(AVG, m) == Some(VecAggregate(AVG, xs)) <==> OwesEvenly(live, d)
    ensures PresentBins(live) == 1 ==> MemAggregate(AVG, m) == Some(OptRealOut(None)) != Some(VecAggregate(AVG, xs))
  {
    hide CombineAll, BinOf, VecAggregate;
    OwingReads(m, live, d);
    PresentCounts(live);
    OwingReadsTrueIff(live, d);
    TwoPhaseIsOneShot(AVG, xs);
  }

  /** What is forgotten leaves something to count, and has the average of all. */
  ghost predicate OwesEvenly(live: seq<Bin>, d: Debt)
    requires BinsOk(AVG, live)
  {
    && PresentBins(live) > d.bins && AvgTotal(live).0 != d.count
    && AvgTotal(live).1 * d.count == AvgTotal(live).0 * d.sum
  }

  // ---------- one nullable aggregate, from one empty memory to the next ----------

  datatype Step = Add(bin: Bin) | Evict

  /** The bins added since the memory was last empty, how many have left, and the memory. */
  datatype Era = Era(bins: seq<Bin>, left: nat, mem: Option<Mem>, ok: bool) {
    ghost function Live(): seq<Bin>
      requires left <= |bins|
    {
      bins[left..]
    }
  }

  ghost predicate StepsOk(c: Column, steps: seq<Step>) {
    forall n :: 0 <= n < |steps| && steps[n].Add? ==> BinOk(c, steps[n].bin)
  }

  ghost predicate EraOk(c: Column, e: Era) {
    && BinsOk(c, e.bins)
    && (e.mem.Some? ==> MemOk(c, e.mem.value) && e.left < |e.bins|)
    && (e.mem.None? ==> e.bins == [] && e.left == 0)
  }

  ghost function Next(c: Column, e: Era, step: Step): (e': Era)
    requires EraOk(c, e) && (step.Add? ==> BinOk(c, step.bin))
    ensures EraOk(c, e')
  {
    match step
    case Add(b) => e.(bins := e.bins + [b], mem := Some(MemAdd(c, e.mem, b)))
    case Evict =>
      if e.mem.None? then e
      else if |e.Live()| == 1 then Era([], 0, None, e.ok)
      else
        match MemRemove(c, e.mem.value, e.Live()[0])
        case Left(m) => e.(left := e.left + 1, mem := Some(m))
        case _ => e.(left := e.left + 1, ok := false)
  }

  ghost function Replay(c: Column, steps: seq<Step>): (e: Era)
    requires StepsOk(c, steps)
    ensures EraOk(c, e)
  {
    if steps == [] then Era([], 0, None, true)
    else Next(c, Replay(c, steps[..|steps| - 1]), steps[|steps| - 1])
  }

  lemma {:induction false} ReplayAppend(c: Column, steps: seq<Step>, step: Step)
    requires StepsOk(c, steps) && (step.Add? ==> BinOk(c, step.bin))
    ensures StepsOk(c, steps + [step]) && Replay(c, steps + [step]) == Next(c, Replay(c, steps), step)
  {
    assert (steps + [step])[..|steps|] == steps;
  }

  /** The memory reads as the combination of the live bins. */
  ghost predicate ReadsRight(c: Column, e: Era)
    requires EraOk(c, e)
  {
    && e.ok
    && (e.mem.Some? ==> MemAggregate(c, e.mem.value) == Some(BinAggregate(c, CombineAll(c, e.Live()))))
  }

  lemma {:induction false} PresentBinsSuffix(bins: seq<Bin>, d: nat)
    requires d <= |bins|
    ensures PresentBins(bins[d..]) <= PresentBins(bins)
  {
    if d == 0 {
      assert bins[d..] == bins;
    } else {
      PresentBinsSuffix(bins[1..], d - 1);
      assert bins[d..] == bins[1..][d - 1..];
    }
  }

  /**
   * The nullable sum counts its first bin as present even when it is null, so it is off by
   * one from then on and keeps a zero after the last present bin has left.
   */
  ghost function SumMemory(bins: seq<Bin>, left: nat): Mem
    requires left < |bins| && BinsOk(SUM, bins)
  {
    var live := bins[left..];
    OptSumMem(|live|,
              PresentBins(live) + (if PresentBin(bins[0]) then 0 else 1),
              if StaleZero(bins, left) then Some(0) else CombineAll(SUM, live).opt)
  }

  /** The first bin of the era was null, a present bin has come and gone, none is live. */
  ghost predicate StaleZero(bins: seq<Bin>, left: nat)
    requires left < |bins|
  {
    !PresentBin(bins[0]) && PresentBins(bins[left..]) == 0 && PresentBins(bins) > 0
  }

  lemma {:induction false} SumFirst(b: Bin)
    requires BinOk(SUM, b)
    ensures BinsOk(SUM, [b]) && MemAdd(SUM, None, b) == SumMemory([b], 0)
  {
    assert [b][0..] == [b] && [b][1..] == [];
    assert PresentBins([b]) == if PresentBin(b) then 1 else 0;
    assert CombineAll(SUM, [b]) == b;
  }

  lemma {:induction false} SumAdd(bins: seq<Bin>, left: nat, b: Bin)
    requires left < |bins| && BinsOk(SUM, bins) && BinOk(SUM, b)
    ensures BinsOk(SUM, bins + [b])
    ensures MemAdd(SUM, Some(SumMemory(bins, left)), b) == SumMemory(bins + [b], left)
  {
    var live := bins[left..];
    assert (bins + [b])[left..] == live + [b];
    PresentBinsAppend(live, b);
    PresentBinsAppend(bins, b);
    CombineAllAppend(SUM, live, b);
    CombineAllPresent(SUM, live);
    PresentBinsSuffix(bins, left);
  }

  lemma {:induction false} SumRemove(bins: seq<Bin>, left: nat)
    requires left + 1 < |bins| && BinsOk(SUM, bins)
    ensures MemRemove(SUM, SumMemory(bins, left), bins[left]) == Left(SumMemory(bins, left + 1))
  {
    var live := bins[left..];
    assert live[1..] == bins[left + 1..];
    CombineAllFirst(SUM, live);
    CombineAllPresent(SUM, live);
    CombineAllPresent(SUM, live[1..]);
    PresentBinsSuffix(bins, left);
    PresentBinsSuffix(bins, left + 1);
  }

  lemma {:induction false} SumReplay(steps: seq<Step>)
    requires StepsOk(SUM, steps)
    ensures var e := Replay(SUM, steps);
            e.ok && (e.mem.Some? ==> e.mem.value == SumMemory(e.bins, e.left))
  {
    if steps != [] {
      SumReplay(steps[..|steps| - 1]);
      var e := Replay(SUM, steps[..|steps| - 1]);
      match steps[|steps| - 1] {
        case Add(b) =>
          if e.mem.Some? {
            SumAdd(e.bins, e.left, b);
          } else {
            SumFirst(b);
            assert e.bins + [b] == [b];
          }
        case Evict =>
          if e.mem.Some? && |e.Live()| > 1 {
            SumRemove(e.bins, e.left);
          }
      }
    }
  }

  /**
   * After any run of a nullable Sum, the memory reads as the sum of the live bins if and only
   * if it is not the case that its first bin was null, no live bin is present, and a present
   * one has been there before.
   */
  lemma {:induction false} NullableSumIsRightIff(steps: seq<Step>)
    requires StepsOk(SUM, steps)
    ensures var e := Replay(SUM, steps);
            ReadsRight(SUM, e) <==> (e.mem.Some? ==> !StaleZero(e.bins, e.left))
  {
    SumReplay(steps);
    var e := Replay(SUM, steps);
    if e.mem.Some? {
      CombineAllPresent(SUM, e.Live());
    }
  }

  /** A window that held null, 5, null and has lost the first two reads 0 instead of null. */
  lemma {:induction false} NullableSumCounterexample()
    ensures var none, five := OptBin(None), OptBin(Some(5));
            var steps := [Add(none)] + [Add(five)] + [Add(none)] + [Evict] + [Evict];
            StepsOk(SUM, steps) && !ReadsRight(SUM, Replay(SUM, steps))
  {
    var none, five := OptBin(None), OptBin(Some(5));
    ReplayAppend(SUM, [], Add(none));
    assert [] + [Add(none)] == [Add(none)];
    ReplayAppend(SUM, [Add(none)], Add(five));
    ReplayAppend(SUM, [Add(none)] + [Add(five)], Add(none));
    ReplayAppend(SUM, [Add(none)] + [Add(five)] + [Add(none)], Evict);
    ReplayAppend(SUM, [Add(none)] + [Add(five)] + [Add(none)] + [Evict], Evict);
    assert Replay(SUM, [Add(none)]) == Era([none], 0, Some(OptSumMem(1, 1, None)), true);
    assert Replay(SUM, [Add(none)] + [Add(five)] + [Add(none)])
        == Era([none, five, none], 0, Some(OptSumMem(3, 2, Some(5))), true);
    assert [none, five, none][2..] == [none];
  }

  // ---------- the nullable average ----------

  ghost predicate AvgFollows(e: Era)
    requires EraOk(AVG, e)
  {
    e.mem.Some? ==> ColumnHolds(AVG, e.mem.value, e.Live())
  }

  lemma {:induction false} AvgReads(e: Era)
    requires EraOk(AVG, e) && e.ok && AvgFollows(e)
    ensures ReadsRight(AVG, e)
  {
    if e.mem.Some? {
      MemAggregateIsCombinedIff(AVG, e.mem.value, e.Live());
    }
  }

  lemma {:induction false} AvgAdd(e: Era, b: Bin)
    requires EraOk(AVG, e) && AvgFollows(e) && BinOk(AVG, b)
    ensures AvgFollows(Next(AVG, e, Add(b)))
  {
    var e' := Next(AVG, e, Add(b));
    if e.mem.Some? {
      assert e'.Live() == e.Live() + [b];
      AddNext(AVG, e.mem.value, e.Live(), b);
    } else {
      assert e'.Live() == [b];
      AddFirst(AVG, b);
    }
  }

  lemma {:induction false} AvgEvict(e: Era)
    requires EraOk(AVG, e) && e.ok && AvgFollows(e)
    ensures !Unsafe(AVG, e.Live()) ==> Next(AVG, e, Evict).ok && AvgFollows(Next(AVG, e, Evict))
    ensures Unsafe(AVG, e.Live()) ==> !ReadsRight(AVG, Next(AVG, e, Evict))
  {
    if e.mem.Some? && |e.Live()| > 1 {
      RemoveOldestAvg(e.Live());
      assert Next(AVG, e, Evict).Live() == e.Live()[1..];
    }
  }

  /** Some eviction of the run is unsafe. */
  ghost predicate EverUnsafe(steps: seq<Step>)
    requires StepsOk(AVG, steps)
  {
    steps != [] &&
    (EverUnsafe(steps[..|steps| - 1])
     || (steps[|steps| - 1].Evict? && Unsafe(AVG, Replay(AVG, steps[..|steps| - 1]).Live())))
  }

  /** The memory reads right after every prefix of the run. */
  ghost predicate AlwaysRight(steps: seq<Step>)
    requires StepsOk(AVG, steps)
  {
    ReadsRight(AVG, Replay(AVG, steps)) && (steps == [] || AlwaysRight(steps[..|steps| - 1]))
  }

  /**
   * A run of a nullable Avg reads right at every point if and only if it never evicts a null
   * bin while exactly one live bin is present.
   */
  lemma {:induction false} NullableAvgIsRightIff(steps: seq<Step>)
    requires StepsOk(AVG, steps)
    ensures AlwaysRight(steps) <==> !EverUnsafe(steps)
    ensures !EverUnsafe(steps) ==> Replay(AVG, steps).ok && AvgFollows(Replay(AVG, steps))
  {
    if steps != [] {
      var front := steps[..|steps| - 1];
      NullableAvgIsRightIff(front);
      if !EverUnsafe(front) {
        var e := Replay(AVG, front);
        match steps[|steps| - 1] {
          case Add(b) => AvgAdd(e, b);
          case Evict => AvgEvict(e);
        }
        if !EverUnsafe(steps) {
          AvgReads(Replay(AVG, steps));
        }
      }
    }
  }

  /** Bins null, (1, 5), null: the first eviction drops the 5, the second one panics. */
  lemma {:induction false} NullableAvgCounterexample()
    ensures var none, five := OptAvgBin(None), OptAvgBin(Some((1, 5)));
            var steps := [Add(none)] + [Add(five)] + [Add(none)] + [Evict] + [Evict];
            StepsOk(AVG, steps) && !Replay(AVG, steps).ok
  {
    var none, five := OptAvgBin(None), OptAvgBin(Some((1, 5)));
    ReplayAppend(AVG, [], Add(none));
    assert [] + [Add(none)] == [Add(none)];
    ReplayAppend(AVG, [Add(none)], Add(five));
    ReplayAppend(AVG, [Add(none)] + [Add(five)], Add(none));
    ReplayAppend(AVG, [Add(none)] + [Add(five)] + [Add(none)], Evict);
    ReplayAppend(AVG, [Add(none)] + [Add(five)] + [Add(none)] + [Evict], Evict);
    assert Replay(AVG, [Add(none)] + [Add(five)] + [Add(none)])
        == Era([none, five, none], 0, Some(OptAvgMem(3, 1, Some((1, 5)))), true);
  }
}
