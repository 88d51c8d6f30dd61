// A watermark that goes back, as it does when an idle input wakes: records are then accepted
// into bins whose windows have been emitted. They change the bin in the table after it has
// entered the memory view, so that what leaves the memory later is not what had entered it.
module LateWatermarks {
  import opened Messages
  import opened Aggregates
  import opened SlidingMemory
  import opened SlidingRuns
  import opened TimeKeyMaps
  import opened WindowSpec
  import opened SlidingSpec
  import opened SlidingWindows
  import opened Grid

  const SUMS_ONLY := Column(Sum, false)

  /**
   * The oldest of several bins leaves a sum as another bin b: the sum of the others is then off
   * by the difference, and right if and only if b has the value that entered.
   */
  lemma {:induction false} LeavesAsAnother(live: seq<Bin>, b: Bin)
    requires |live| > 1 && BinsOk(SUMS_ONLY, live) && BinOk(SUMS_ONLY, b)
    ensures BinsOk(SUMS_ONLY, live[1..])
    ensures var r := MemRemove(SUMS_ONLY, MemOf(SUMS_ONLY, live), b);
            var owed := CombineAll(SUMS_ONLY, live[1..]).v;
            && r.Left? && MemAggregate(SUMS_ONLY, r.mem) == Some(IntOut(owed + live[0].v - b.v))
            && (MemAggregate(SUMS_ONLY, r.mem) == Some(IntOut(owed)) <==> b.v == live[0].v)
  {
    CombineAllFirst(SUMS_ONLY, live);
  }

  /** 5 and 1 have entered, and the bin of the 5 has become 12: when it leaves, 1 is owed and -6 is read. */
  lemma {:induction false} SevenTooMany()
    ensures var m := ProjAdd(SUMS, Some(ProjAdd(SUMS, None, [IntBin(5)])), [IntBin(1)]);
            var r := ProjRemove(SUMS, m, [IntBin(12)]);
            r.Remaining? && r.mem.mems == [SumMem(1, -6)] && MemAggregate(SUMS[0], r.mem.mems[0]) == Some(IntOut(-6))
  {
    var one := ProjAdd(SUMS, None, [IntBin(5)]);
    assert one.mems == [SumMem(1, 5)];
    var m := ProjAdd(SUMS, Some(one), [IntBin(1)]);
    assert m.mems == [SumMem(2, 6)];
    var r := ProjRemove(SUMS, m, [IntBin(12)]);
    assert MemRemove(SUMS[0], m.mems[0], IntBin(12)) == Left(SumMem(1, -6));
    assert r.mem.mems == [SumMem(1, -6)];
  }

  /** Records are accepted into a bin that has entered the memory view if and only if the watermark's bin has. */
  lemma {:induction false} EntersEmittedIff(s: SlidingWindow)
    requires s.Running() && s.slide > 0 && s.watermark.Some?
    ensures (exists r: Rec :: s.Accepts(r) && BinStart(r.ts, s.slide) < s.frontier)
       <==> BinStart(s.watermark.value, s.slide) < s.frontier
    ensures s.Valid() && s.frontier > 0 ==> s.frontier <= BinStart(s.watermark.value, s.slide)
  {
    hide Core;
    var r := Rec(0, s.watermark.value, []);
    if BinStart(s.watermark.value, s.slide) < s.frontier {
      assert s.Accepts(r) && BinStart(r.ts, s.slide) < s.frontier;
    }
  }

  lemma {:induction false} FirstRecord(r: Rec)
    requires r == At(3, 5)
    ensures RecsOk(SUMS, [r]) && WindowRecs([r], 1, 0, 20, 10) == [r]
  {
    hide OnGrid, VecAggregate, RowOf, Inputs, BinOf;
    SelectAppend([], r, 1, -10, 10);
    assert [] + [r] == [r];
  }

  lemma {:induction false} EmitsFive(emitted: seq<Emission>, frontier: int)
    requires 10 <= frontier && EmittedInv(SUMS, 20, 10, [At(3, 5)], 0, emitted, frontier)
    ensures exists n :: 0 <= n < |emitted| && emitted[n].key == 1 && emitted[n].start == 0
  {
    hide *;
    FirstRecord(At(3, 5));
    GridZero(10);
    IsEmitted(SUMS, 20, 10, [At(3, 5)], 0, emitted, frontier, 1, 0);
  }

  lemma {:induction false} IsEmitted(cols: Columns, width: nat, slide: nat, log: seq<Rec>, since: int,
                                     emitted: seq<Emission>, frontier: int, k: int, b: int)
    requires slide > 0 && EmittedInv(cols, width, slide, log, since, emitted, frontier) && OnGrid(b, slide) && since <= b
    requires b + slide <= frontier && WindowRecs(log, k, b, width, slide) != []
    ensures exists n :: 0 <= n < |emitted| && emitted[n].key == k && emitted[n].start == b
  {
    hide Select, BinRows, OnGrid, Doubted, VecAggregate, Owed, WindowRecs;
    assert Emits(emitted, k, b);
  }

  /** A sum over windows of twenty that slide by ten, with one record. */
  method OneRecord() returns (s: SlidingWindow)
    ensures fresh(s) && fresh(s.table) && s.Valid() && s.cols == SUMS && s.width == 20 && s.slide == 10 && s.since == 0
    ensures s.watermark.None? && s.log == [At(3, 5)]
  {
    var width, slide := 20, 10;
    TwoSlides(width, slide);
    s := new SlidingWindow(SUMS, width, slide);
    hide EmittedInv, StateInv, TableInv, Select, BinRows, MergeLayers, RowOf, OnGrid, BackedBy, NextRow, Configured, Core;
    OneIsOk(At(3, 5));
    s.ProcessElement(At(3, 5));
  }

  lemma {:induction false} TwoSlides(width: nat, slide: nat)
    requires slide > 0 && width == slide + slide
    ensures Configured(width, slide)
  {
    GridZero(slide);
    GridStep(0, slide);
    GridStep(slide, slide);
  }

  lemma {:induction false} OneIsOk(r: Rec)
    requires r == At(3, 5)
    ensures RecOk(SUMS, r)
  {
  }

  /**
   * A record at 3, the watermark 19, which emits the window of the bin at 0, and then the
   * watermark 5: a record at 4 is accepted into that bin.
   */
  method AcceptedLate() returns (es: seq<Emission>, accepted: bool)
    ensures exists n :: 0 <= n < |es| && es[n].key == 1 && es[n].start == 0
    ensures accepted
  {
    var s := OneRecord();
    assert BinStart(19, 10) == 10 && BinStart(5, 10) == 0 && BinStart(4, 10) == 0;
    hide Core, Configured, Closed, EmittedInv, SomeDoubt, Select, VecAggregate, RowOf, BackedBy, MergeLayers, OnGrid,
         RecsOk,
         Inputs, BinStart, NextRow, ShouldAdvance;
    var panicked := s.HandleWatermark(19);
    assert !panicked;
    assert s.Valid();
    EmitsFive(s.emitted, Greatest(s.frontier, BinStart(19, 10)));
    es := s.emitted;
    panicked := s.HandleWatermark(5);
    accepted := s.Accepts(At(4, 7));
  }

  lemma {:induction false} MergedRows()
    ensures ProjMerge(SUMS, None, At(3, 5)) == [IntBin(5)] && ProjMerge(SUMS, None, At(13, 1)) == [IntBin(1)]
    ensures RowOk(SUMS, [IntBin(5)]) && ProjMerge(SUMS, Some([IntBin(5)]), At(4, 7)) == [IntBin(12)]
    ensures RowOk(SUMS, [IntBin(1)]) && RowOk(SUMS, [IntBin(12)])
  {
    var a, b := ProjMerge(SUMS, None, At(3, 5)), ProjMerge(SUMS, None, At(13, 1));
    assert a == [a[0]] && b == [b[0]];
    assert RowOk(SUMS, [IntBin(5)]);
    var c := ProjMerge(SUMS, Some([IntBin(5)]), At(4, 7));
    assert c == [c[0]];
  }

  /**
   * The steps of the operator for one key: 5 in the bin at 0 and 1 in the bin at 10, the
   * watermark 19, back to 5, a 7 into the bin at 0, and the watermarks 29 and 39. The last
   * window has the 1 alone, and -6 is read for it.
   */
  method GoesBack() returns (read: seq<Option<Output>>)
    ensures read == [Some(IntOut(5)), Some(IntOut(6)), Some(IntOut(-6))]
  {
    MergedRows();
    SevenTooMany();
    hide ProjMerge, MergeLayers;
    var table := new TimeKeyMap<Row>();
    table.Insert(0, 1, ProjMerge(SUMS, None, At(3, 5)));
    table.Insert(10, 1, ProjMerge(SUMS, None, At(13, 1)));
    var first := table.GetAllForTime(0);                       // 19: the bin at 0 enters
    var memory := ProjAdd(SUMS, None, first[1]);
    read := [MemAggregate(SUMS[0], memory.mems[0])];
    var bin := table.Get(0, 1);                                // 5: the bin at 0 takes another record
    table.Insert(0, 1, ProjMerge(SUMS, bin, At(4, 7)));
    var second := table.GetAllForTime(10);                     // 29: the bin at 10 enters
    memory := ProjAdd(SUMS, Some(memory), second[1]);
    read := read + [MemAggregate(SUMS[0], memory.mems[0])];
    var leaving := table.EvictForTimestamp(0);                 // 39: the bin at 0 leaves
    var left := ProjRemove(SUMS, memory, leaving[1]);
    read := read + [MemAggregate(SUMS[0], left.mem.mems[0])];
  }
}
