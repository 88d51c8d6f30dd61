// The in-memory state of a sliding aggregate: whole bins enter at the front of the window
// and leave at its back. The reference is the combination of the bins that are live.
module SlidingMemory {
  import opened Messages
  import opened Aggregates
  import opened Extremes

  /** A BTreeMap from value to number of live bins holding it. */
  type Heap = map<int, nat>

  datatype Mem =
    | CountMem(bins: int, count: int)
    | SumMem(bins: int, sum: int)
    | OptSumMem(bins: int, presentBins: int, total: Option<int>)
    | HeapMem(heap: Heap)
    | OptHeapMem(bins: int, heap: Heap)
    | AvgMem(count: int, sum: int)
    | OptAvgMem(bins: int, presentBins: int, stats: Option<(int, int)>)

  /** in_memory_remove: None, a smaller memory, or a failed unwrap. */
  datatype Removal = Gone | Left(mem: Mem) | Panic

  predicate MemOk(c: Column, m: Mem) {
    match c.agg
    case Count => m.CountMem?
    case Sum => if c.nullable then m.OptSumMem? else m.SumMem?
    case Avg => if c.nullable then m.OptAvgMem? else m.AvgMem?
    case _ => if c.nullable then m.OptHeapMem? else m.HeapMem?
  }

  function HeapAdd(heap: Heap, v: int): Heap {
    heap[v := (if v in heap then heap[v] else 0) + 1]
  }

  /** None when the value is missing. */
  function HeapRemove(heap: Heap, v: int): Option<Heap> {
    if v !in heap || heap[v] == 0 then None
    else if heap[v] == 1 then Some(heap - {v})
    else Some(heap[v := heap[v] - 1])
  }

  function MemAdd(c: Column, current: Option<Mem>, b: Bin): (m: Mem)
    requires BinOk(c, b) && (current.Some? ==> MemOk(c, current.value))
    ensures MemOk(c, m)
  {
    match c.agg
    case Count =>
      if current.Some? then CountMem(current.value.bins + 1, current.value.count + b.v) else CountMem(1, b.v)
    case Sum =>
      if c.nullable then
        match (current, b.opt)
        case (None, opt) => OptSumMem(1, 1, opt)
        case (Some(m), None) => OptSumMem(m.bins + 1, m.presentBins, m.total)
        case (Some(m), Some(v)) =>
          OptSumMem(m.bins + 1, m.presentBins + 1, Some(if m.total.Some? then m.total.value + v else v))
      else if current.Some? then SumMem(current.value.bins + 1, current.value.sum + b.v)
      else SumMem(1, b.v)
    case Avg =>
      if c.nullable then
        var m := if current.Some? then current.value else OptAvgMem(0, 0, None);
        match (m.stats, b.avg)
        case (None, None) => OptAvgMem(m.bins + 1, m.presentBins, None)
        case (None, Some(v)) => OptAvgMem(m.bins + 1, m.presentBins + 1, Some(v))
        case (Some(s), None) => OptAvgMem(m.bins + 1, m.presentBins, Some(s))
        case (Some((mc, ms)), Some((bc, bs))) => OptAvgMem(m.bins + 1, m.presentBins + 1, Some((mc + bc, ms + bs)))
      else if current.Some? then AvgMem(current.value.count + b.count, current.value.sum + b.sum)
      else AvgMem(b.count, b.sum)
    case _ =>
      if c.nullable then
        var m := if current.Some? then current.value else OptHeapMem(0, map[]);
        OptHeapMem(m.bins + 1, if b.opt.Some? then HeapAdd(m.heap, b.opt.value) else m.heap)
      else HeapMem(HeapAdd(if current.Some? then current.value.heap else map[], b.v))
  }

  function MemRemove(c: Column, m: Mem, b: Bin): (r: Removal)
    requires BinOk(c, b) && MemOk(c, m)
    ensures r.Left? ==> MemOk(c, r.mem)
  {
    match c.agg
    case Count => if m.bins == 1 then Gone else Left(CountMem(m.bins - 1, m.count - b.v))
    case Sum =>
      if m.bins == 1 then Gone
      else if c.nullable then
        match b.opt
        case Some(v) =>
          if m.presentBins == 1 then Left(OptSumMem(m.bins - 1, 0, None))
          else Left(OptSumMem(m.bins - 1, m.presentBins - 1,
                              if m.total.Some? then Some(m.total.value - v) else None))
        case None => Left(OptSumMem(m.bins - 1, m.presentBins, m.total))
      else Left(SumMem(m.bins - 1, m.sum - b.v))
    case Avg =>
      if c.nullable then
        if m.bins == 1 then Gone
        else if m.presentBins == 1 then Left(OptAvgMem(m.bins - 1, 0, None))
        else
          match b.avg
          case Some((bc, bs)) =>
            if m.stats.None? then Panic
            else Left(OptAvgMem(m.bins - 1, m.presentBins - 1, Some((m.stats.value.0 - bc, m.stats.value.1 - bs))))
          case None => Left(OptAvgMem(m.bins - 1, m.presentBins, m.stats))
      else if m.count == b.count then Gone
      else Left(AvgMem(m.count - b.count, m.sum - b.sum))
    case _ =>
      if c.nullable then
        if m.bins == 1 then Gone
        else if b.opt.None? then Left(OptHeapMem(m.bins - 1, m.heap))
        else
          match HeapRemove(m.heap, b.opt.value)
          case None => Panic
          case Some(heap) => Left(OptHeapMem(m.bins - 1, heap))
      else
        match HeapRemove(m.heap, b.v)
        case None => Panic
        case Some(heap) => if heap == map[] then Gone else Left(HeapMem(heap))
  }

  /** The first (Min) or last (Max) key of a heap. */
  function Extreme(agg: Aggregator, keys: set<int>): (e: int)
    requires keys != {}
    ensures e in keys
    ensures agg.Min? ==> forall k :: k in keys ==> e <= k
    ensures !agg.Min? ==> forall k :: k in keys ==> k <= e
  {
    if agg.Min? then LeastOf(keys) else GreatestOf(keys)
  }

  /** The value read from the memory; None when an unwrap fails. */
  function MemAggregate(c: Column, m: Mem): Option<Output>
    requires MemOk(c, m)
  {
    match c.agg
    case Count => Some(IntOut(m.count))
    case Sum => Some(if c.nullable then OptOut(m.total) else IntOut(m.sum))
    case Avg =>
      if c.nullable then
        match m.stats
        case None => Some(OptRealOut(None))
        case Some((count, sum)) => if count == 0 then None else Some(OptRealOut(Some(sum as real / count as real)))
      else if m.count == 0 then None
      else Some(RealOut(m.sum as real / m.count as real))
    case _ =>
      if c.nullable then
        Some(OptOut(if m.heap.Keys == {} then None else Some(Extreme(c.agg, m.heap.Keys))))
      else if m.heap.Keys == {} then None
      else Some(IntOut(Extreme(Max, m.heap.Keys)))   // non-null Min also reads the last key
  }

  // ---------- what the live bins combine to ----------

  ghost predicate BinsOk(c: Column, live: seq<Bin>) {
    forall k :: 0 <= k < |live| ==> BinOk(c, live[k])
  }

  ghost function CombineAll(c: Column, live: seq<Bin>): (b: Bin)
    requires live != [] && BinsOk(c, live)
    ensures BinOk(c, b)
  {
    if |live| == 1 then live[0] else Combine(c, CombineAll(c, live[..|live| - 1]), live[|live| - 1])
  }

  lemma {:induction false} CombineAllAppend(c: Column, live: seq<Bin>, b: Bin)
    requires live != [] && BinsOk(c, live) && BinOk(c, b)
    ensures BinsOk(c, live + [b]) && CombineAll(c, live + [b]) == Combine(c, CombineAll(c, live), b)
  {
    assert (live + [b])[..|live|] == live;
  }

  lemma {:induction false} CombineAllFirst(c: Column, live: seq<Bin>)
    requires |live| > 1 && BinsOk(c, live)
    ensures BinsOk(c, live[1..]) && CombineAll(c, live) == Combine(c, live[0], CombineAll(c, live[1..]))
  {
    var front, last := live[..|live| - 1], live[|live| - 1];
    if |live| > 2 {
      CombineAllFirst(c, front);
      assert front[1..] == live[1..][..|live| - 2];
      CombineAssociates(c, live[0], CombineAll(c, front[1..]), last);
    }
  }

  /** The present values of Min and Max bins. */
  function Value(c: Column, b: Bin): Option<int>
    requires BinOk(c, b) && (c.agg.Min? || c.agg.Max?)
  {
    if c.nullable then b.opt else Some(b.v)
  }

  ghost function Values(c: Column, live: seq<Bin>): seq<int>
    requires BinsOk(c, live) && (c.agg.Min? || c.agg.Max?)
  {
    if live == [] then []
    else (if Value(c, live[0]).Some? then [Value(c, live[0]).value] else []) + Values(c, live[1..])
  }

  lemma {:induction false} ValuesAppend(c: Column, live: seq<Bin>, b: Bin)
    requires BinsOk(c, live) && BinOk(c, b) && (c.agg.Min? || c.agg.Max?)
    ensures BinsOk(c, live + [b])
    ensures Values(c, live + [b]) == Values(c, live) + if Value(c, b).Some? then [Value(c, b).value] else []
  {
    if live == [] {
      assert live + [b] == [b];
      assert [b][1..] == [];
    } else {
      ValuesAppend(c, live[1..], b);
      assert (live + [b])[1..] == live[1..] + [b];
    }
  }

  ghost function HeapOf(vals: seq<int>): Heap {
    map v | v in vals :: multiset(vals)[v]
  }

  lemma {:induction false} HeapAddOf(vals: seq<int>, v: int)
    ensures HeapAdd(HeapOf(vals), v) == HeapOf(vals + [v])
  {
    assert multiset(vals + [v]) == multiset(vals) + multiset{v};
    assert forall w :: w in vals <==> w in multiset(vals);
    assert forall w :: w in vals + [v] <==> w in vals || w == v;
  }

  lemma {:induction false} HeapRemoveOf(v: int, rest: seq<int>)
    ensures HeapRemove(HeapOf([v] + rest), v) == Some(HeapOf(rest))
  {
    var vals := [v] + rest;
    assert multiset(vals) == multiset{v} + multiset(rest);
    assert forall w :: w in rest <==> w in multiset(rest);
    assert forall w :: w in vals <==> w in rest || w == v;
    assert v in vals;
    var heap := HeapOf(vals);
    if heap[v] == 1 {
      assert v !in rest;
      assert heap - {v} == HeapOf(rest);
    } else {
      assert v in rest;
      assert heap[v := heap[v] - 1] == HeapOf(rest);
    }
  }

  // ---------- null bins ----------

  const SUM := Column(Sum, true)

  const AVG := Column(Avg, true)

  predicate PresentBin(b: Bin) {
    (b.OptBin? && b.opt.Some?) || (b.OptAvgBin? && b.avg.Some?)
  }

  function PresentBins(bins: seq<Bin>): nat {
    if bins == [] then 0 else (if PresentBin(bins[0]) then 1 else 0) + PresentBins(bins[1..])
  }

  lemma {:induction false} PresentBinsAppend(bins: seq<Bin>, b: Bin)
    ensures PresentBins(bins + [b]) == PresentBins(bins) + if PresentBin(b) then 1 else 0
  {
    if bins == [] {
      assert bins + [b] == [b];
      assert [b][1..] == [];
    } else {
      PresentBinsAppend(bins[1..], b);
      assert (bins + [b])[1..] == bins[1..] + [b];
    }
  }

  lemma {:induction false} CombineAllPresent(c: Column, live: seq<Bin>)
    requires (c == SUM || c == AVG) && live != [] && BinsOk(c, live)
    ensures PresentBin(CombineAll(c, live)) <==> PresentBins(live) > 0
  {
    if |live| == 1 {
      assert live[1..] == [];
    } else {
      var front, last := live[..|live| - 1], live[|live| - 1];
      CombineAllPresent(c, front);
      PresentBinsAppend(front, last);
      assert live == front + [last];
    }
  }

  // ---------- memories of the live bins ----------

  /** The memory that the live bins determine; a nullable Sum has several. */
  ghost function MemOf(c: Column, live: seq<Bin>): (m: Mem)
    requires c != SUM && live != [] && BinsOk(c, live)
    ensures MemOk(c, m)
  {
    match c.agg
    case Count => CountMem(|live|, CombineAll(c, live).v)
    case Sum => SumMem(|live|, CombineAll(c, live).v)
    case Avg =>
      if c.nullable then OptAvgMem(|live|, PresentBins(live), CombineAll(c, live).avg)
      else AvgMem(CombineAll(c, live).count, CombineAll(c, live).sum)
    case _ =>
      if c.nullable then OptHeapMem(|live|, HeapOf(Values(c, live))) else HeapMem(HeapOf(Values(c, live)))
  }

  /**
   * A nullable Sum counts its first bin as present even when it is null: it is then off by
   * one, and keeps a zero after the last present bin has left.
   */
  ghost predicate SumHolds(m: Mem, live: seq<Bin>)
    requires live != [] && BinsOk(SUM, live)
  {
    && m.OptSumMem? && m.bins == |live|
    && PresentBins(live) <= m.presentBins <= PresentBins(live) + 1
    && (if PresentBins(live) > 0 then m.total == CombineAll(SUM, live).opt
        else m.total == None || (m.total == Some(0) && m.presentBins == 1))
  }

  /** The memory holds exactly the live bins, as far as the column lets it. */
  ghost predicate ColumnHolds(c: Column, m: Mem, live: seq<Bin>)
    requires live != [] && BinsOk(c, live)
    ensures ColumnHolds(c, m, live) ==> MemOk(c, m)
  {
    if c == SUM then SumHolds(m, live) else m == MemOf(c, live)
  }

  /** Evicting a null bin of a nullable Avg while exactly one live bin is present. */
  ghost predicate Unsafe(c: Column, live: seq<Bin>) {
    c == AVG && |live| > 1 && !PresentBin(live[0]) && PresentBins(live) == 1
  }

  lemma {:induction false} AddFirst(c: Column, b: Bin)
    requires BinOk(c, b)
    ensures BinsOk(c, [b]) && ColumnHolds(c, MemAdd(c, None, b), [b])
  {
    assert [b][1..] == [];
    assert PresentBins([b]) == if PresentBin(b) then 1 else 0;
    assert CombineAll(c, [b]) == b;
    if c.agg.Min? || c.agg.Max? {
      assert Values(c, [b]) == if Value(c, b).Some? then [Value(c, b).value] else [];
      assert HeapOf([]) == map[];
      if Value(c, b).Some? {
        HeapAddOf([], Value(c, b).value);
        assert [] + [Value(c, b).value] == [Value(c, b).value];
      }
    }
  }

  lemma {:induction false} AddNextExtreme(c: Column, live: seq<Bin>, b: Bin)
    requires (c.agg.Min? || c.agg.Max?) && live != [] && BinsOk(c, live) && BinOk(c, b) && BinsOk(c, live + [b])
    ensures MemAdd(c, Some(MemOf(c, live)), b) == MemOf(c, live + [b])
  {
    hide HeapOf, HeapAdd, Values, CombineAll, PresentBins;
    ValuesAppend(c, live, b);
    if Value(c, b).Some? {
      HeapAddOf(Values(c, live), Value(c, b).value);
    } else {
      assert Values(c, live) + [] == Values(c, live);
    }
  }

  /** Adding a bin to a memory of the live bins gives a memory of the longer list. */
  lemma {:induction false} AddNext(c: Column, m: Mem, live: seq<Bin>, b: Bin)
    requires live != [] && BinsOk(c, live) && ColumnHolds(c, m, live) && BinOk(c, b)
    ensures BinsOk(c, live + [b]) && ColumnHolds(c, MemAdd(c, Some(m), b), live + [b])
  {
    CombineAllAppend(c, live, b);
    PresentBinsAppend(live, b);
    if c.agg.Min? || c.agg.Max? {
      AddNextExtreme(c, live, b);
    } else if c == SUM || c == AVG {
      CombineAllPresent(c, live);
    }
  }

  lemma {:induction false} RemoveOldestValue(c: Column, live: seq<Bin>)
    requires (c.agg.Min? || c.agg.Max?) && |live| > 1 && BinsOk(c, live) && BinsOk(c, live[1..])
    ensures Value(c, live[0]).None? ==> Values(c, live) == Values(c, live[1..])
    ensures Value(c, live[0]).Some? ==>
              HeapRemove(HeapOf(Values(c, live)), Value(c, live[0]).value) == Some(HeapOf(Values(c, live[1..])))
    ensures !c.nullable ==> HeapOf(Values(c, live[1..])) != map[]
  {
    var rest := Values(c, live[1..]);
    if Value(c, live[0]).Some? {
      HeapRemoveOf(Value(c, live[0]).value, rest);
    }
    if !c.nullable {
      assert rest[0] in HeapOf(rest);
    }
  }

  lemma {:induction false} RemoveOldestExtreme(c: Column, live: seq<Bin>)
    requires (c.agg.Min? || c.agg.Max?) && |live| > 1 && BinsOk(c, live) && BinsOk(c, live[1..])
    ensures MemRemove(c, MemOf(c, live), live[0]) == Left(MemOf(c, live[1..]))
  {
    RemoveOldestValue(c, live);
    hide HeapOf, HeapRemove, Values, CombineAll, PresentBins;
    if c.nullable {
      assert MemOf(c, live) == OptHeapMem(|live|, HeapOf(Values(c, live)));
    } else {
      assert MemOf(c, live) == HeapMem(HeapOf(Values(c, live)));
    }
  }

  lemma {:induction false} RemoveOldestTotal(c: Column, live: seq<Bin>)
    requires (c.agg.Count? || (!c.nullable && (c.agg.Sum? || c.agg.Avg?)))
    requires |live| > 1 && BinsOk(c, live) && BinsOk(c, live[1..])
    ensures MemRemove(c, MemOf(c, live), live[0]) == Left(MemOf(c, live[1..]))
  {
    CombineAllFirst(c, live);
  }

  lemma {:induction false} RemoveOldestSum(m: Mem, live: seq<Bin>)
    requires |live| > 1 && BinsOk(SUM, live) && BinsOk(SUM, live[1..]) && SumHolds(m, live)
    ensures var r := MemRemove(SUM, m, live[0]);
            r.Left? && SumHolds(r.mem, live[1..])
  {
    CombineAllFirst(SUM, live);
    CombineAllPresent(SUM, live);
    CombineAllPresent(SUM, live[1..]);
  }

  /** The average forgets the last present bin exactly if the eviction is unsafe, and then reads wrong. */
  lemma {:induction false} RemoveOldestAvg(live: seq<Bin>)
    requires |live| > 1 && BinsOk(AVG, live) && BinsOk(AVG, live[1..])
    ensures var r := MemRemove(AVG, MemOf(AVG, live), live[0]);
            && r.Left? && (r.mem == MemOf(AVG, live[1..]) <==> !Unsafe(AVG, live))
            && (Unsafe(AVG, live) ==>
                  MemAggregate(AVG, r.mem) != Some(BinAggregate(AVG, CombineAll(AVG, live[1..]))))
  {
    CombineAllFirst(AVG, live);
    CombineAllPresent(AVG, live);
    CombineAllPresent(AVG, live[1..]);
  }

  /** The counts and the sums of the present bins of a nullable Avg. */
  function AvgTotal(live: seq<Bin>): (int, int)
    requires BinsOk(AVG, live)
  {
    if live == [] then (0, 0)
    else
      var rest := AvgTotal(live[1..]);
      match live[0].avg
      case None => rest
      case Some((count, sum)) => (rest.0 + count, rest.1 + sum)
  }

  lemma {:induction false} AvgTotalAppend(live: seq<Bin>, b: Bin)
    requires BinsOk(AVG, live) && BinOk(AVG, b)
    ensures BinsOk(AVG, live + [b])
    ensures AvgTotal(live + [b])
         == match b.avg
            case None => AvgTotal(live)
            case Some((count, sum)) => (AvgTotal(live).0 + count, AvgTotal(live).1 + sum)
  {
    if live == [] {
      assert live + [b] == [b];
      assert [b][1..] == [];
    } else {
      AvgTotalAppend(live[1..], b);
      assert (live + [b])[1..] == live[1..] + [b];
    }
  }

  lemma {:induction false} CombineAllTotal(live: seq<Bin>)
    requires live != [] && BinsOk(AVG, live)
    ensures CombineAll(AVG, live).avg == if PresentBins(live) == 0 then None else Some(AvgTotal(live))
    ensures PresentBins(live) == 0 ==> AvgTotal(live) == (0, 0)
    decreases |live|
  {
    if |live| == 1 {
      assert live[1..] == [];
    } else {
      CombineAllFirst(AVG, live);
      CombineAllTotal(live[1..]);
    }
  }

  /** The present bins that a nullable Avg has forgotten: how many, and what they add up to. */
  datatype Debt = Debt(bins: nat, count: int, sum: int)

  /**
   * A nullable Avg after an unsafe eviction: it counts fewer bins than are present, and its
   * stats are short by what it has forgotten.
   */
  ghost predicate AvgOwes(m: Mem, live: seq<Bin>, d: Debt)
    requires BinsOk(AVG, live)
  {
    && m.OptAvgMem? && m.bins == |live| && 0 < d.bins <= PresentBins(live) && m.presentBins == PresentBins(live) - d.bins
    && if m.presentBins == 0 then m.stats.None? && AvgTotal(live) == (d.count, d.sum)
       else m.stats == Some((AvgTotal(live).0 - d.count, AvgTotal(live).1 - d.sum))
  }

  /** Everything present is forgotten. */
  ghost function AllOwed(live: seq<Bin>): Debt
    requires BinsOk(AVG, live)
  {
    Debt(PresentBins(live), AvgTotal(live).0, AvgTotal(live).1)
  }

  /** What is forgotten once the oldest bin has left: all of them if the memory counted just one. */
  ghost function NextDebt(live: seq<Bin>, d: Debt): Debt
    requires BinsOk(AVG, live)
  {
    if live != [] && PresentBins(live) == d.bins + 1 then AllOwed(live[1..]) else d
  }

  lemma {:induction false} SpoiledAdd(m: Mem, live: seq<Bin>, b: Bin, d: Debt)
    requires BinsOk(AVG, live) && AvgOwes(m, live, d) && BinOk(AVG, b)
    ensures BinsOk(AVG, live + [b]) && AvgOwes(MemAdd(AVG, Some(m), b), live + [b], d)
  {
    PresentBinsAppend(live, b);
    AvgTotalAppend(live, b);
  }

  /** A present bin is to leave a memory that knows of none. */
  ghost predicate FailsUnwrap(m: Mem, live: seq<Bin>)
    requires live != [] && m.OptAvgMem?
  {
    m.presentBins == 0 && PresentBin(live[0])
  }

  /** Until it holds no bin, a spoiled memory never recovers; what it may do is panic. */
  lemma {:induction false} SpoiledRemove(m: Mem, live: seq<Bin>, d: Debt)
    requires |live| > 1 && BinsOk(AVG, live) && AvgOwes(m, live, d)
    ensures var r := MemRemove(AVG, m, live[0]);
            if FailsUnwrap(m, live) then r == Panic else r.Left? && AvgOwes(r.mem, live[1..], NextDebt(live, d))
  {
  }

  /** What an unsafe eviction leaves behind. */
  lemma {:induction false} UnsafeSpoils(live: seq<Bin>)
    requires Unsafe(AVG, live) && BinsOk(AVG, live)
    ensures var r := MemRemove(AVG, MemOf(AVG, live), live[0]); r.Left? && AvgOwes(r.mem, live[1..], AllOwed(live[1..]))
  {
  }

  /** What a nullable Avg reads that has forgotten d; None where the quotient has no value. */
  ghost function OwingRead(live: seq<Bin>, d: Debt): Option<Output>
    requires BinsOk(AVG, live)
  {
    var count, sum := AvgTotal(live).0 - d.count, AvgTotal(live).1 - d.sum;
    if PresentBins(live) <= d.bins then Some(OptRealOut(None))
    else if count == 0 then None
    else Some(OptRealOut(Some(sum as real / count as real)))
  }

  lemma {:induction false} OwingReads(m: Mem, live: seq<Bin>, d: Debt)
    requires BinsOk(AVG, live) && AvgOwes(m, live, d)
    ensures MemAggregate(AVG, m) == OwingRead(live, d)
  {
  }

  lemma {:induction false} SameQuotient(s: int, c: int, s': int, c': int)
    requires c != 0 && c' != 0
    ensures s as real / c as real == s' as real / c' as real <==> s * c' == s' * c
  {
    var x, y := s as real / c as real, s' as real / c' as real;
    assert x * c as real == s as real && y * c' as real == s' as real;
    assert (s * c') as real == s as real * c' as real && (s' * c) as real == s' as real * c as real;
    assert (s * c') as real == x * (c as real * c' as real);
    assert (s' * c) as real == y * (c as real * c' as real);
    assert c as real * c' as real != 0.0;
  }

  lemma {:induction false} CrossTerms(s: int, c: int, ds: int, dc: int)
    ensures (s - ds) * c == s * (c - dc) <==> s * dc == c * ds
  {
    assert (s - ds) * c == s * c - ds * c;
    assert s * (c - dc) == s * c - s * dc;
  }

  /**
   * It reads the average of the live bins if and only if it counts some bin, the bins that it
   * counts are not empty on balance, and what it has forgotten has that average too.
   */
  lemma {:induction false} OwingReadsTrueIff(live: seq<Bin>, d: Debt)
    requires live != [] && BinsOk(AVG, live) && 0 < d.bins <= PresentBins(live) && AvgTotal(live).0 != 0
    ensures OwingRead(live, d) == Some(BinAggregate(AVG, CombineAll(AVG, live)))
       <==> && PresentBins(live) > d.bins && AvgTotal(live).0 != d.count
            && AvgTotal(live).1 * d.count == AvgTotal(live).0 * d.sum
  {
    CombineAllTotal(live);
    var c, s := AvgTotal(live).0, AvgTotal(live).1;
    if c != d.count {
      SameQuotient(s - d.sum, c - d.count, s, c);
      CrossTerms(s, c, d.sum, d.count);
    }
  }

  /** The counts of present bins add up to something. */
  lemma {:induction false} PresentCounts(live: seq<Bin>)
    requires BinsOk(AVG, live)
    ensures AvgTotal(live).0 >= PresentBins(live)
  {
    if live != [] {
      PresentCounts(live[1..]);
    }
  }

  /**
   * Removing the oldest bin of several never fails an unwrap, and leaves a memory of the
   * others if and only if the eviction is safe.
   */
  lemma {:induction false} RemoveOldest(c: Column, m: Mem, live: seq<Bin>)
    requires |live| > 1 && BinsOk(c, live) && ColumnHolds(c, m, live)
    ensures BinsOk(c, live[1..])
    ensures var r := MemRemove(c, m, live[0]);
            r.Left? && (ColumnHolds(c, r.mem, live[1..]) <==> !Unsafe(c, live))
  {
    if c.agg.Min? || c.agg.Max? {
      RemoveOldestExtreme(c, live);
    } else if c == SUM {
      RemoveOldestSum(m, live);
    } else if c == AVG {
      RemoveOldestAvg(live);
    } else {
      RemoveOldestTotal(c, live);
    }
  }

  // ---------- the value read from a memory ----------

  ghost predicate IsExtreme(agg: Aggregator, e: int, vals: seq<int>) {
    e in vals && forall v :: v in vals ==> Join(agg, e, v) == e
  }

  lemma {:induction false} CombineAllExtreme(c: Column, live: seq<Bin>)
    requires (c.agg.Min? || c.agg.Max?) && live != [] && BinsOk(c, live)
    ensures var e := Value(c, CombineAll(c, live));
            && (e.None? <==> Values(c, live) == [])
            && (e.Some? ==> IsExtreme(c.agg, e.value, Values(c, live)))
  {
    if |live| == 1 {
      assert live[1..] == [];
    } else {
      var front, last := live[..|live| - 1], live[|live| - 1];
      CombineAllExtreme(c, front);
      assert live == front + [last];
      ValuesAppend(c, front, last);
      CombineAllAppend(c, front, last);
    }
  }

  /** When a memory of the live bins reads as their combination. */
  ghost predicate ReadsTrue(c: Column, m: Mem, live: seq<Bin>)
    requires live != [] && MemOk(c, m)
  {
    if c == SUM then m.total.None? || PresentBins(live) > 0
    else if c == Column(Min, false) then forall k :: 0 <= k < |live| ==> live[k] == live[0]
    else true
  }

  lemma {:induction false} HeapExtreme(agg: Aggregator, e: int, vals: seq<int>)
    requires (agg.Min? || agg.Max?) && IsExtreme(agg, e, vals)
    ensures HeapOf(vals).Keys != {} && Extreme(agg, HeapOf(vals).Keys) == e
  {
    assert e in HeapOf(vals).Keys;
  }

  lemma {:induction false} ExtremeReads(c: Column, live: seq<Bin>)
    requires (c.agg.Max? || (c.agg.Min? && c.nullable)) && live != [] && BinsOk(c, live)
    ensures MemAggregate(c, MemOf(c, live)) == Some(BinAggregate(c, CombineAll(c, live)))
  {
    var e, vals := Value(c, CombineAll(c, live)), Values(c, live);
    CombineAllExtreme(c, live);
    if e.Some? {
      HeapExtreme(c.agg, e.value, vals);
    } else {
      assert HeapOf([]).Keys == {};
    }
  }

  /**
   * What a memory of the live bins reads is the aggregate of their combination: for every
   * column but two always, for a nullable Sum unless it kept a zero, and for a non-null Min
   * if and only if all live bins hold the same value.
   */
  lemma {:induction false} MemAggregateIsCombinedIff(c: Column, m: Mem, live: seq<Bin>)
    requires live != [] && BinsOk(c, live) && ColumnHolds(c, m, live)
    ensures MemAggregate(c, m).Some?
    ensures MemAggregate(c, m) == Some(BinAggregate(c, CombineAll(c, live))) <==> ReadsTrue(c, m, live)
  {
    if c == Column(Min, false) {
      NonNullMinIsRightIffConstant(live);
    } else if c.agg.Min? || c.agg.Max? {
      ExtremeReads(c, live);
    } else if c == SUM || c == AVG {
      CombineAllPresent(c, live);
    }
  }

  /**
   * The non-null Min reads the last key of its heap, so it returns the minimum of the live
   * bins if and only if they all hold the same value.
   */
  lemma {:induction false} NonNullMinIsRightIffConstant(live: seq<Bin>)
    requires live != [] && BinsOk(Column(Min, false), live)
    ensures MemAggregate(Column(Min, false), MemOf(Column(Min, false), live)).Some?
    ensures var c := Column(Min, false);
            MemAggregate(c, MemOf(c, live)) == Some(BinAggregate(c, CombineAll(c, live)))
            <==> forall k :: 0 <= k < |live| ==> live[k] == live[0]
  {
    var c := Column(Min, false);
    CombineAllExtreme(c, live);
    ValuesOfNonNull(c, live);
    var vals := Values(c, live);
    assert forall v :: v in HeapOf(vals).Keys <==> v in vals;
    assert vals[0] in HeapOf(vals).Keys;
    var top, low := Extreme(Max, HeapOf(vals).Keys), CombineAll(c, live).v;
    assert MemAggregate(c, MemOf(c, live)) == Some(IntOut(top));
    if top == low {
      forall k | 0 <= k < |live|
        ensures live[k] == live[0]
      {
        assert vals[k] in vals && vals[0] in vals;
      }
    }
  }

  lemma {:induction false} NonNullMinReadsGreatest(live: seq<Bin>)
    requires live != [] && BinsOk(Column(Min, false), live)
    ensures var c := Column(Min, false);
            var read := MemAggregate(c, MemOf(c, live));
            read.Some? && read.value.IntOut? && IsExtreme(Max, read.value.i, Values(c, live))
  {
    var c := Column(Min, false);
    var vals := Values(c, live);
    ValuesOfNonNull(c, live);
    assert vals[0] in HeapOf(vals).Keys;
    assert forall v :: v in HeapOf(vals).Keys <==> v in vals;
  }

  /** Bins 1 and 2: the minimum is read as 2. */
  lemma {:induction false} NonNullMinCounterexample()
    ensures var c, live := Column(Min, false), [IntBin(1), IntBin(2)];
            && BinsOk(c, live) && CombineAll(c, live) == IntBin(1)
            && MemAggregate(c, MemAdd(c, Some(MemAdd(c, None, IntBin(1))), IntBin(2))) == Some(IntOut(2))
  {
    var heap: Heap := map[1 := 1, 2 := 1];
    assert heap.Keys == {1, 2};
  }

  lemma {:induction false} ValuesOfNonNull(c: Column, live: seq<Bin>)
    requires (c.agg.Min? || c.agg.Max?) && !c.nullable && BinsOk(c, live)
    ensures |Values(c, live)| == |live| && forall k :: 0 <= k < |live| ==> Values(c, live)[k] == live[k].v
  {
    if live != [] {
      ValuesOfNonNull(c, live[1..]);
    }
  }
}
