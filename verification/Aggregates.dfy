// Two-phase aggregation: records are merged into bins, bins are combined, and a bin is
// turned into the value of an aggregate. Values are mathematical integers, averages are
// exact quotients. The one-shot aggregate over a vector of records is the reference.
module Aggregates {
  import opened Messages

  datatype Aggregator = Count | Sum | Min | Max | Avg

  /** One aggregate of a projection: the function and whether its input may be null. */
  datatype Column = Column(agg: Aggregator, nullable: bool)

  /** The value of the incoming expression on one record; None is null. */
  type Input = Option<int>

  datatype Bin =
    | IntBin(v: int)
    | OptBin(opt: Option<int>)
    | AvgBin(count: int, sum: int)
    | OptAvgBin(avg: Option<(int, int)>)

  datatype Output = IntOut(i: int) | OptOut(o: Option<int>) | RealOut(r: real) | OptRealOut(ro: Option<real>)

  predicate InputOk(c: Column, x: Input) {
    c.nullable || x.Some?
  }

  predicate InputsOk(c: Column, xs: seq<Input>) {
    forall i :: 0 <= i < |xs| ==> InputOk(c, xs[i])
  }

  /** The type of a column's bin; a bin of an average has seen at least one value. */
  predicate BinOk(c: Column, b: Bin) {
    if c.agg.Count? then b.IntBin?
    else if c.agg.Avg? then
      if c.nullable then b.OptAvgBin? && (b.avg.Some? ==> b.avg.value.0 >= 1)
      else b.AvgBin? && b.count >= 1
    else if c.nullable then b.OptBin?
    else b.IntBin?
  }

  function Least(a: int, b: int): int {
    if a <= b then a else b
  }

  function Greatest(a: int, b: int): int {
    if a >= b then a else b
  }

  /** The operation of Sum, Min and Max on present values. */
  function Join(agg: Aggregator, a: int, b: int): int {
    match agg
    case Min => Least(a, b)
    case Max => Greatest(a, b)
    case _ => a + b
  }

  /** Merging a record's value into the current bin, if there is one. */
  function Merge(c: Column, current: Option<Bin>, x: Input): (b: Bin)
    requires InputOk(c, x) && (current.Some? ==> BinOk(c, current.value))
    ensures BinOk(c, b)
  {
    if c.agg.Count? then
      var count := if current.Some? then current.value.v else 0;
      if c.nullable then IntBin(count + if x.Some? then 1 else 0) else IntBin(count + 1)
    else if c.agg.Avg? then
      if c.nullable then
        var flat := if current.Some? then current.value.avg else None;
        OptAvgBin(match (flat, x)
                  case (Some((count, sum)), Some(value)) => Some((count + 1, sum + value))
                  case (Some((count, sum)), None) => Some((count, sum))
                  case (None, Some(value)) => Some((1, value))
                  case (None, None) => None)
      else if current.Some? then AvgBin(current.value.count + 1, current.value.sum + x.value)
      else AvgBin(1, x.value)
    else if c.nullable then
      var flat := if current.Some? then current.value.opt else None;
      OptBin(match (flat, x)
             case (Some(value), Some(more)) => Some(Join(c.agg, value, more))
             case (Some(value), None) => Some(value)
             case (None, Some(more)) => Some(more)
             case (None, None) => None)
    else if current.Some? then IntBin(Join(c.agg, current.value.v, x.value))
    else IntBin(x.value)
  }

  /** Combining the current bin with another one. */
  function Combine(c: Column, current: Bin, other: Bin): (b: Bin)
    requires BinOk(c, current) && BinOk(c, other)
    ensures BinOk(c, b)
  {
    if c.agg.Count? then IntBin(current.v + other.v)
    else if c.agg.Avg? then
      if c.nullable then
        OptAvgBin(match (current.avg, other.avg)
                  case (Some((c0, s0)), Some((c1, s1))) => Some((c0 + c1, s0 + s1))
                  case (Some(a), None) => Some(a)
                  case (None, Some(a)) => Some(a)
                  case (None, None) => None)
      else AvgBin(current.count + other.count, current.sum + other.sum)
    else if c.nullable then
      OptBin(match (current.opt, other.opt)
             case (Some(a), Some(b)) => Some(Join(c.agg, a, b))
             case (Some(a), None) => Some(a)
             case (None, Some(b)) => Some(b)
             case (None, None) => None)
    else IntBin(Join(c.agg, current.v, other.v))
  }

  /** The value of the aggregate held by a bin. */
  function BinAggregate(c: Column, b: Bin): Output
    requires BinOk(c, b)
  {
    if c.agg.Count? then IntOut(b.v)
    else if c.agg.Avg? then
      if c.nullable then
        match b.avg
        case Some((count, sum)) => OptRealOut(Some(sum as real / count as real))
        case None => OptRealOut(None)
      else RealOut(b.sum as real / b.count as real)
    else if c.nullable then OptOut(b.opt)
    else IntOut(b.v)
  }

  // ---------- the one-shot aggregate over a vector of records ----------

  /** The present values, in order. */
  function Present(xs: seq<Input>): seq<int> {
    if xs == [] then []
    else
      var last := xs[|xs| - 1];
      Present(xs[..|xs| - 1]) + if last.Some? then [last.value] else []
  }

  /** The values of an input that is never null. */
  function Unwrapped(xs: seq<Input>): (s: seq<int>)
    requires forall i :: 0 <= i < |xs| ==> xs[i].Some?
    ensures |s| == |xs|
  {
    seq(|xs|, i requires 0 <= i < |xs| => xs[i].value)
  }

  /** reduce: the values joined from left to right. */
  function Reduce(agg: Aggregator, s: seq<int>): int
    requires s != []
  {
    if |s| == 1 then s[0] else Join(agg, Reduce(agg, s[..|s| - 1]), s[|s| - 1])
  }

  function VecAggregate(c: Column, xs: seq<Input>): Output
    requires InputsOk(c, xs)
    requires c.nullable || c.agg.Count? || xs != []   // reduce().unwrap() of a non-null input
  {
    var s := if c.nullable then Present(xs) else Unwrapped(xs);
    if c.agg.Count? then IntOut(|s|)
    else if c.agg.Avg? then
      if c.nullable then OptRealOut(if s == [] then None else Some(Reduce(Sum, s) as real / |s| as real))
      else RealOut(Reduce(Sum, s) as real / |s| as real)
    else if c.nullable then OptOut(if s == [] then None else Some(Reduce(c.agg, s)))
    else IntOut(Reduce(c.agg, s))
  }

  lemma {:induction false} PresentAll(xs: seq<Input>)
    requires forall i :: 0 <= i < |xs| ==> xs[i].Some?
    ensures Present(xs) == Unwrapped(xs)
  {
    if xs != [] {
      PresentAll(xs[..|xs| - 1]);
      assert Unwrapped(xs) == Unwrapped(xs[..|xs| - 1]) + [xs[|xs| - 1].value];
    }
  }

  // ---------- merging records one by one ----------

  /** The bin built from the records in order of arrival. */
  function BinOf(c: Column, xs: seq<Input>): (b: Bin)
    requires xs != [] && InputsOk(c, xs)
    ensures BinOk(c, b)
  {
    if |xs| == 1 then Merge(c, None, xs[0])
    else Merge(c, Some(BinOf(c, xs[..|xs| - 1])), xs[|xs| - 1])
  }

  lemma {:induction false} ReduceAppend(agg: Aggregator, s: seq<int>, x: int)
    requires s != []
    ensures Reduce(agg, s + [x]) == Join(agg, Reduce(agg, s), x)
  {
    assert (s + [x])[..|s|] == s;
  }

  /** What a bin holds after records with the present values s. */
  ghost predicate Holds(c: Column, s: seq<int>, b: Bin)
    requires BinOk(c, b)
  {
    if c.agg.Count? then b.v == |s|
    else if c.agg.Avg? then
      if c.nullable then b.avg == if s == [] then None else Some((|s|, Reduce(Sum, s)))
      else s != [] && b.count == |s| && b.sum == Reduce(Sum, s)
    else if c.nullable then b.opt == if s == [] then None else Some(Reduce(c.agg, s))
    else s != [] && b.v == Reduce(c.agg, s)
  }

  lemma {:induction false} MergeHolds(c: Column, s: seq<int>, b: Bin, x: Input)
    requires BinOk(c, b) && InputOk(c, x) && Holds(c, s, b)
    ensures Holds(c, if x.Some? then s + [x.value] else s, Merge(c, Some(b), x))
  {
    if x.Some? && s != [] {
      ReduceAppend(c.agg, s, x.value);
      ReduceAppend(Sum, s, x.value);
    }
  }

  lemma {:induction false} BinHolds(c: Column, xs: seq<Input>)
    requires xs != [] && InputsOk(c, xs)
    ensures Holds(c, Present(xs), BinOf(c, xs))
  {
    var front, last := xs[..|xs| - 1], xs[|xs| - 1];
    if |xs| == 1 {
      assert Present(front) == [];
    } else {
      BinHolds(c, front);
      MergeHolds(c, Present(front), BinOf(c, front), last);
    }
    assert Present(xs) == if last.Some? then Present(front) + [last.value] else Present(front);
  }

  /** Merging record by record and then aggregating the bin gives the one-shot aggregate. */
  lemma {:induction false} TwoPhaseIsOneShot(c: Column, xs: seq<Input>)
    requires xs != [] && InputsOk(c, xs)
    ensures BinAggregate(c, BinOf(c, xs)) == VecAggregate(c, xs)
  {
    if !c.nullable {
      PresentAll(xs);
    }
    BinHolds(c, xs);
  }

  // ---------- combining bins ----------

  lemma {:induction false} CombineCommutes(c: Column, a: Bin, b: Bin)
    requires BinOk(c, a) && BinOk(c, b)
    ensures Combine(c, a, b) == Combine(c, b, a)
  {
  }

  lemma {:induction false} CombineAssociates(c: Column, a: Bin, b: Bin, d: Bin)
    requires BinOk(c, a) && BinOk(c, b) && BinOk(c, d)
    ensures Combine(c, Combine(c, a, b), d) == Combine(c, a, Combine(c, b, d))
  {
  }

  lemma {:induction false} MergeIsCombine(c: Column, a: Bin, x: Input)
    requires BinOk(c, a) && InputOk(c, x)
    ensures Merge(c, Some(a), x) == Combine(c, a, Merge(c, None, x))
  {
  }

  lemma {:induction false} BinOfAppend(c: Column, xs: seq<Input>, x: Input)
    requires InputsOk(c, xs) && InputOk(c, x)
    ensures InputsOk(c, xs + [x])
    ensures BinOf(c, xs + [x]) == if xs == [] then Merge(c, None, x) else Merge(c, Some(BinOf(c, xs)), x)
  {
    assert (xs + [x])[..|xs|] == xs;
  }

  /** Building a bin is a homomorphism: a split of the records combines to the whole. */
  lemma {:induction false} BinOfConcat(c: Column, xs: seq<Input>, ys: seq<Input>)
    requires xs != [] && ys != [] && InputsOk(c, xs) && InputsOk(c, ys)
    ensures InputsOk(c, xs + ys)
    ensures BinOf(c, xs + ys) == Combine(c, BinOf(c, xs), BinOf(c, ys))
    decreases |ys|
  {
    var front, last := ys[..|ys| - 1], ys[|ys| - 1];
    assert xs + ys == (xs + front) + [last];
    BinOfAppend(c, xs + front, last);
    if front == [] {
      assert xs + front == xs;
      MergeIsCombine(c, BinOf(c, xs), last);
    } else {
      BinOfConcat(c, xs, front);
      MergeIsCombine(c, BinOf(c, xs + front), last);
      MergeIsCombine(c, BinOf(c, front), last);
      CombineAssociates(c, BinOf(c, xs), BinOf(c, front), Merge(c, None, last));
    }
  }

  /** Moving a record to the end does not change the bin. */
  lemma {:induction false} MoveLast(c: Column, a: seq<Input>, x: Input, b: seq<Input>)
    requires InputsOk(c, a + [x] + b)
    ensures InputsOk(c, a + b + [x])
    ensures BinOf(c, a + [x] + b) == BinOf(c, a + b + [x])
  {
    assert InputsOk(c, a) && InputsOk(c, b) && InputOk(c, x) by {
      assert forall i :: 0 <= i < |a| ==> a[i] == (a + [x] + b)[i];
      assert forall i :: 0 <= i < |b| ==> b[i] == (a + [x] + b)[|a| + 1 + i];
      assert x == (a + [x] + b)[|a|];
    }
    if b == [] {
      assert a + [x] + b == a + b + [x];
    } else {
      BinOfConcat(c, [x], b);
      BinOfConcat(c, b, [x]);
      CombineCommutes(c, BinOf(c, [x]), BinOf(c, b));
      if a == [] {
        assert a + [x] + b == [x] + b && a + b + [x] == b + [x];
      } else {
        BinOfConcat(c, a, [x] + b);
        BinOfConcat(c, a, b + [x]);
        assert a + [x] + b == a + ([x] + b) && a + b + [x] == a + (b + [x]);
      }
    }
  }

  lemma {:induction false} Cancel(m: multiset<Input>, n: multiset<Input>, x: Input)
    requires m + multiset{x} == n + multiset{x}
    ensures m == n
  {
    assert m == (m + multiset{x}) - multiset{x};
    assert n == (n + multiset{x}) - multiset{x};
  }

  /** A value of one sequence, found in a permutation of it. */
  lemma {:induction false} FindLast(front: seq<Input>, x: Input, ys: seq<Input>) returns (a: seq<Input>, b: seq<Input>)
    requires multiset(front + [x]) == multiset(ys)
    ensures ys == a + [x] + b && multiset(front) == multiset(a + b)
  {
    assert x in multiset(front + [x]);
    var p :| 0 <= p < |ys| && ys[p] == x;
    a, b := ys[..p], ys[p + 1..];
    assert ys == a + [x] + b;
    assert multiset(a + [x] + b) == multiset(a + b) + multiset{x};
    Cancel(multiset(front), multiset(a + b), x);
  }

  /** The order of the records does not matter. */
  lemma {:induction false} BinOfPermutation(c: Column, xs: seq<Input>, ys: seq<Input>)
    requires xs != [] && InputsOk(c, xs) && InputsOk(c, ys)
    requires multiset(xs) == multiset(ys)
    ensures ys != [] && BinOf(c, xs) == BinOf(c, ys)
    decreases |xs|
  {
    var front, x := xs[..|xs| - 1], xs[|xs| - 1];
    assert xs == front + [x];
    var a, b := FindLast(front, x, ys);
    MoveLast(c, a, x, b);
    assert |a + b| == |multiset(a + b)| == |multiset(front)| == |front|;
    assert InputsOk(c, a + b) by {
      assert forall i :: 0 <= i < |a + b| ==> (a + b)[i] == (a + b + [x])[i];
    }
    BinOfAppend(c, a + b, x);
    if front != [] {
      BinOfPermutation(c, front, a + b);
    }
  }

  // ---------- local bins of shards, combined in any order ----------

  function Flatten(shards: seq<seq<Input>>): seq<Input> {
    if shards == [] then [] else Flatten(shards[..|shards| - 1]) + shards[|shards| - 1]
  }

  ghost predicate ShardsOk(c: Column, shards: seq<seq<Input>>) {
    shards != [] && forall k :: 0 <= k < |shards| ==> shards[k] != [] && InputsOk(c, shards[k])
  }

  /** The local bins of the shards, combined from left to right. */
  ghost function CombineShards(c: Column, shards: seq<seq<Input>>): (b: Bin)
    requires ShardsOk(c, shards)
    ensures BinOk(c, b)
  {
    var last := BinOf(c, shards[|shards| - 1]);
    if |shards| == 1 then last else Combine(c, CombineShards(c, shards[..|shards| - 1]), last)
  }

  lemma {:induction false} CombineShardsIsBinOf(c: Column, shards: seq<seq<Input>>)
    requires ShardsOk(c, shards)
    ensures Flatten(shards) != [] && InputsOk(c, Flatten(shards))
    ensures CombineShards(c, shards) == BinOf(c, Flatten(shards))
  {
    var front, last := shards[..|shards| - 1], shards[|shards| - 1];
    if front == [] {
      assert Flatten(shards) == last;
    } else {
      CombineShardsIsBinOf(c, front);
      BinOfConcat(c, Flatten(front), last);
    }
  }

  /**
   * However the records are split into local bins and in whatever order these are combined,
   * the result is the bin built directly from all the records.
   */
  lemma {:induction false} AnySplitAnyOrder(c: Column, xs: seq<Input>, shards: seq<seq<Input>>)
    requires xs != [] && InputsOk(c, xs) && ShardsOk(c, shards)
    requires multiset(Flatten(shards)) == multiset(xs)
    ensures CombineShards(c, shards) == BinOf(c, xs)
  {
    CombineShardsIsBinOf(c, shards);
    BinOfPermutation(c, xs, Flatten(shards));
  }
}
