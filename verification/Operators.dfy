// One operator of the aligned checkpoint protocol, as a value: what it has taken
// from each input, what it has applied to its state, and what it has snapshotted.
// An input is parked exactly while it is one barrier ahead of the snapshots.
module Operators {
  import opened Messages

  /** A snapshot stands for the state reached by applying its log. */
  datatype Snapshot = Snapshot(epoch: nat, thenStop: bool, log: seq<(nat, Message)>)

  datatype Outcome = Running | Finished(final: Option<Message>)

  datatype Operator = Operator(
    taken: seq<nat>,              // messages taken from each input
    barriers: seq<nat>,           // barriers among them
    closed: set<nat>,             // inputs that delivered Stop or EndOfData
    log: seq<(nat, Message)>,     // records and watermarks applied, in processing order
    snapshots: seq<Snapshot>,
    outcome: Outcome)
  {
    predicate Shaped() {
      |barriers| == |taken|
    }

    predicate Parked(i: nat)
      requires Shaped() && i < |taken|
    {
      |snapshots| < barriers[i]
    }

    /** Taking message m from input i. */
    function Deliver(i: nat, m: Message): (o: Operator)
      requires Shaped() && i < |taken|
      ensures o.Shaped() && |o.taken| == |taken|
    {
      var o := this.(taken := taken[i := taken[i] + 1]);
      match m
      case Record(_) => o.(log := log + [(i, m)])
      case Watermark(_) => o.(log := log + [(i, m)])
      case Barrier(epoch, thenStop) =>
        var aligned := o.(barriers := barriers[i := barriers[i] + 1]);
        if forall j :: 0 <= j < |taken| ==> aligned.Parked(j) then
          aligned.(snapshots := snapshots + [Snapshot(epoch, thenStop, log)],
                   outcome := if thenStop then Finished(Some(Stop)) else outcome)
        else
          aligned
      case Stop => o.Close(i, m)
      case EndOfData => o.Close(i, m)
    }

    function Close(i: nat, m: Message): (o: Operator)
      ensures o.taken == taken && o.barriers == barriers
    {
      var closed' := closed + {i};
      this.(closed := closed',
            outcome := if |closed'| == |taken| then Finished(Some(m)) else outcome)
    }
  }

  function Start(inputs: nat): (o: Operator)
    ensures o.Shaped() && |o.taken| == inputs
  {
    Operator(seq(inputs, _ => 0), seq(inputs, _ => 0), {}, [], [], Running)
  }

  /** The part of a log that came from input i. */
  function Project(log: seq<(nat, Message)>, i: nat): seq<Message> {
    if log == [] then []
    else
      var last := log[|log| - 1];
      Project(log[..|log| - 1], i) + if last.0 == i then [last.1] else []
  }

  lemma ProjectAppend(log: seq<(nat, Message)>, i: nat, m: Message)
    ensures forall j: nat :: Project(log + [(i, m)], j) == Project(log, j) + if i == j then [m] else []
  {
    assert (log + [(i, m)])[..|log|] == log;
  }

  // ---------- what an operator keeps, against the histories of its inputs ----------

  /** Input i of o, whose channel has carried h so far. */
  ghost predicate InputInv(o: Operator, i: nat, h: seq<Message>)
    requires o.Shaped() && i < |o.taken|
  {
    && o.taken[i] <= |h|
    && o.barriers[i] == Barriers(h[..o.taken[i]])
    && |o.snapshots| <= o.barriers[i] <= |o.snapshots| + 1
    && Project(o.log, i) == DataOf(h[..o.taken[i]])
    && (forall k :: 0 <= k < |o.snapshots| ==> Project(o.snapshots[k].log, i) == DataBefore(h, k))
    && (i in o.closed <==> 0 < Ends(h[..o.taken[i]]))
  }

  ghost predicate OperatorInv(o: Operator, hs: seq<seq<Message>>) {
    && o.Shaped()
    && |hs| == |o.taken|
    && (forall i :: 0 <= i < |hs| ==> InputInv(o, i, hs[i]))
    && (|hs| > 0 ==> exists i :: 0 <= i < |hs| && !o.Parked(i))
    && (forall i :: i in o.closed ==> 0 <= i < |hs|)
  }

  lemma StartInv(hs: seq<seq<Message>>)
    ensures OperatorInv(Start(|hs|), hs)
  {
    var o := Start(|hs|);
    forall i | 0 <= i < |hs|
      ensures InputInv(o, i, hs[i])
    {
      assert hs[i][..0] == [];
    }
    if |hs| > 0 {
      assert !o.Parked(0);
    }
  }

  /** Channels may grow under a running operator. */
  lemma InputGrows(o: Operator, i: nat, h: seq<Message>, more: seq<Message>)
    requires o.Shaped() && i < |o.taken| && InputInv(o, i, h)
    ensures InputInv(o, i, h + more)
  {
    assert (h + more)[..o.taken[i]] == h[..o.taken[i]];
    PrefixCounts(h, o.taken[i]);
    forall k | 0 <= k < |o.snapshots|
      ensures DataBefore(h + more, k) == DataBefore(h, k)
    {
      DataBeforeStable(h, more, k);
    }
  }

  /** Facts about the prefix that a delivery takes. */
  lemma {:induction false} TakeOne(h: seq<Message>, t: nat)
    requires t < |h|
    ensures DataOf(h[..t + 1]) == DataOf(h[..t]) + if h[t].IsData() then [h[t]] else []
    ensures Barriers(h[..t + 1]) == Barriers(h[..t]) + if h[t].Barrier? then 1 else 0
    ensures Ends(h[..t + 1]) == Ends(h[..t]) + if h[t].IsEnd() then 1 else 0
  {
    assert h[..t + 1] == h[..t] + [h[t]];
    AppendOne(h[..t], h[t]);
  }

  lemma {:induction false} DataBeforeBarrier(h: seq<Message>, t: nat)
    requires t < |h| && h[t].Barrier?
    ensures DataBefore(h, Barriers(h[..t])) == DataOf(h[..t])
  {
    var front, k := h[..t], Barriers(h[..t]);
    DataBeforeOpen(front, k);
    AppendOne(front, h[t]);
    DataBeforeAppend(front, h[t], k);
    DataBeforeStable(front + [h[t]], h[t + 1..], k);
    assert h == (front + [h[t]]) + h[t + 1..];
  }

  /** At the moment all inputs are parked, each has applied exactly what precedes its barrier. */
  lemma AlignedData(o: Operator, i: nat, h: seq<Message>)
    requires o.Shaped() && i < |o.taken| && InputInv(o, i, h) && o.Parked(i)
    requires 0 < o.taken[i] && h[o.taken[i] - 1].Barrier?
    ensures Project(o.log, i) == DataBefore(h, |o.snapshots|)
  {
    TakeOne(h, o.taken[i] - 1);
    DataBeforeBarrier(h, o.taken[i] - 1);
  }

  /** A parked input stopped right behind its barrier. */
  ghost predicate ParkedAtBarrier(o: Operator, hs: seq<seq<Message>>)
    requires OperatorInv(o, hs)
  {
    forall i :: 0 <= i < |hs| && o.Parked(i) ==> 0 < o.taken[i] && hs[i][o.taken[i] - 1].Barrier?
  }

  lemma {:induction false} DeliverOther(o: Operator, i: nat, j: nat, m: Message, h: seq<Message>)
    requires o.Shaped() && i < |o.taken| && j < |o.taken| && i != j
    requires InputInv(o, j, h)
    requires o.Parked(j) ==> 0 < o.taken[j] && h[o.taken[j] - 1].Barrier?
    ensures InputInv(o.Deliver(i, m), j, h)
    ensures var o' := o.Deliver(i, m);
            o'.Parked(j) ==> 0 < o'.taken[j] && h[o'.taken[j] - 1].Barrier?
  {
    var o' := o.Deliver(i, m);
    ProjectAppend(o.log, i, m);
    if |o'.snapshots| > |o.snapshots| {
      var parked := o.(taken := o.taken[i := o.taken[i] + 1], barriers := o.barriers[i := o.barriers[i] + 1]);
      assert parked.Parked(j);
      AlignedData(o, j, h);
    }
  }

  lemma {:induction false} DeliverSame(o: Operator, i: nat, h: seq<Message>)
    requires o.Shaped() && i < |o.taken|
    requires InputInv(o, i, h) && !o.Parked(i) && o.taken[i] < |h|
    ensures InputInv(o.Deliver(i, h[o.taken[i]]), i, h)
    ensures var o' := o.Deliver(i, h[o.taken[i]]);
            o'.Parked(i) ==> h[o'.taken[i] - 1].Barrier?
  {
    hide DataOf, DataBefore, Barriers, Ends, Project;
    var m := h[o.taken[i]];
    TakeOne(h, o.taken[i]);
    if m.Barrier? {
      DataBeforeBarrier(h, o.taken[i]);
    }
    ProjectAppend(o.log, i, m);
  }

  /** Delivering the next message of an input that is not parked keeps the invariant. */
  lemma {:induction false} DeliverKeeps(o: Operator, hs: seq<seq<Message>>, i: nat)
    requires OperatorInv(o, hs) && ParkedAtBarrier(o, hs)
    requires i < |hs| && !o.Parked(i) && o.taken[i] < |hs[i]|
    ensures var o' := o.Deliver(i, hs[i][o.taken[i]]);
            OperatorInv(o', hs) && ParkedAtBarrier(o', hs)
  {
    var m := hs[i][o.taken[i]];
    var o' := o.Deliver(i, m);
    DeliverSame(o, i, hs[i]);
    forall j | 0 <= j < |hs| && j != i
      ensures InputInv(o', j, hs[j])
      ensures o'.Parked(j) ==> 0 < o'.taken[j] && hs[j][o'.taken[j] - 1].Barrier?
    {
      DeliverOther(o, i, j, m, hs[j]);
    }
    forall j | 0 <= j < |hs|
      ensures o.barriers[j] <= |o.snapshots| + 1
    {
      assert InputInv(o, j, hs[j]);
    }
    SomeInputFree(o, i, m);
  }

  lemma SomeInputFree(o: Operator, i: nat, m: Message)
    requires o.Shaped() && i < |o.taken| && !o.Parked(i)
    requires forall j :: 0 <= j < |o.taken| ==> o.barriers[j] <= |o.snapshots| + 1
    ensures var o' := o.Deliver(i, m);
            exists j :: 0 <= j < |o'.taken| && !o'.Parked(j)
  {
    var o' := o.Deliver(i, m);
    if m.Barrier? && |o'.snapshots| == |o.snapshots| {
      var aligned := o.(taken := o.taken[i := o.taken[i] + 1], barriers := o.barriers[i := o.barriers[i] + 1]);
      var j :| 0 <= j < |o.taken| && !aligned.Parked(j);
      assert !o'.Parked(j);
    } else {
      assert !o'.Parked(i);
    }
  }

  // ---------- every run of one operator ----------

  predicate Ready(o: Operator, hs: seq<seq<Message>>, i: nat)
    requires o.Shaped() && |hs| == |o.taken|
  {
    o.outcome.Running? && i < |hs| && !o.Parked(i) && o.taken[i] < |hs[i]|
  }

  function Advance(o: Operator, hs: seq<seq<Message>>, i: nat): (o': Operator)
    requires o.Shaped() && |hs| == |o.taken|
    ensures o'.Shaped() && |o'.taken| == |hs|
  {
    if Ready(o, hs, i) then o.Deliver(i, hs[i][o.taken[i]]) else o
  }

  /**
   * A run over complete input histories. The reader may poll the inputs in any order:
   * each choice names the input polled next, and one that is not ready is passed over.
   */
  function Feed(hs: seq<seq<Message>>, choices: seq<nat>): (o: Operator)
    ensures o.Shaped() && |o.taken| == |hs|
  {
    if choices == [] then Start(|hs|)
    else
      Advance(Feed(hs, choices[..|choices| - 1]), hs, choices[|choices| - 1])
  }

  /** How the loop ended, or that it has not. */
  ghost predicate OutcomeInv(o: Operator, n: nat) {
    match o.outcome
    case Running => n > 0 ==> exists i :: 0 <= i < n && i !in o.closed
    case Finished(None) => false
    case Finished(Some(f)) =>
      || (f.IsEnd() && forall i :: 0 <= i < n ==> i in o.closed)
      || (f == Stop && |o.snapshots| > 0 && o.snapshots[|o.snapshots| - 1].thenStop)
  }

  lemma {:induction false} FullSet(s: set<nat>, n: nat)
    requires forall i :: i in s ==> i < n
    ensures |s| <= n
    ensures |s| == n <==> forall i :: 0 <= i < n ==> i in s
  {
    if n == 0 {
      assert s == {};
    } else {
      var t := s - {n - 1};
      FullSet(t, n - 1);
      assert n - 1 in s ==> |t| == |s| - 1;
      assert n - 1 !in s ==> t == s;
      if |s| == n {
        assert forall i :: 0 <= i < n - 1 ==> i in t;
      }
    }
  }

  lemma DeliverOutcome(o: Operator, hs: seq<seq<Message>>, i: nat)
    requires OperatorInv(o, hs) && OutcomeInv(o, |hs|) && Ready(o, hs, i)
    ensures OutcomeInv(o.Deliver(i, hs[i][o.taken[i]]), |hs|)
  {
    FullSet(o.closed + {i}, |hs|);
  }

  lemma {:induction false} FeedInv(hs: seq<seq<Message>>, choices: seq<nat>)
    ensures var o := Feed(hs, choices);
            OperatorInv(o, hs) && ParkedAtBarrier(o, hs) && OutcomeInv(o, |hs|)
  {
    if choices == [] {
      StartInv(hs);
      if |hs| > 0 {
        assert 0 !in Start(|hs|).closed;
      }
    } else {
      var front := choices[..|choices| - 1];
      FeedInv(hs, front);
      var o, i := Feed(hs, front), choices[|choices| - 1];
      if Ready(o, hs, i) {
        DeliverKeeps(o, hs, i);
        DeliverOutcome(o, hs, i);
      }
    }
  }

  /**
   * For every interleaving of the inputs, what snapshot k has applied from input i is
   * exactly what precedes barrier k on that input.
   */
  lemma SnapshotsAreCuts(hs: seq<seq<Message>>, choices: seq<nat>, k: nat, i: nat)
    requires k < |Feed(hs, choices).snapshots| && i < |hs|
    ensures Project(Feed(hs, choices).snapshots[k].log, i) == DataBefore(hs[i], k)
  {
    FeedInv(hs, choices);
    assert InputInv(Feed(hs, choices), i, hs[i]);
  }

  /** The final message is chosen only after every input ended or a stop barrier completed. */
  lemma FinalMessageIsEarned(hs: seq<seq<Message>>, choices: seq<nat>)
    requires Feed(hs, choices).outcome.Finished?
    ensures var o := Feed(hs, choices);
            && o.outcome.final.Some?
            && (|| (forall i :: 0 <= i < |hs| ==> o.taken[i] <= |hs[i]| && 0 < Ends(hs[i][..o.taken[i]]))
                || (|o.snapshots| > 0 && o.snapshots[|o.snapshots| - 1].thenStop && o.outcome.final.value == Stop))
  {
    FeedInv(hs, choices);
    var o := Feed(hs, choices);
    forall i | 0 <= i < |hs| && i in o.closed
      ensures o.taken[i] <= |hs[i]| && 0 < Ends(hs[i][..o.taken[i]])
    {
      assert InputInv(o, i, hs[i]);
    }
  }

  /** Nothing is taken or applied once the final message is chosen. */
  lemma {:induction false} FinalMessageIsLast(hs: seq<seq<Message>>, choices: seq<nat>, more: seq<nat>)
    requires Feed(hs, choices).outcome.Finished?
    ensures Feed(hs, choices + more) == Feed(hs, choices)
    decreases |more|
  {
    if more == [] {
      assert choices + more == choices;
    } else {
      FinalMessageIsLast(hs, choices, more[..|more| - 1]);
      assert (choices + more)[..|choices + more| - 1] == choices + more[..|more| - 1];
    }
  }

  // ---------- when the loop ends without a final message ----------

  ghost predicate Complete(h: seq<Message>) {
    && h != []
    && h[|h| - 1].IsEnd()
    && Ends(h) == 1
    && forall p :: 0 <= p < |h| ==> !(h[p].Barrier? && h[p].thenStop)
  }

  /** No input can be polled: each is parked or used up, so the reader yields nothing more. */
  ghost predicate Exhausted(o: Operator, hs: seq<seq<Message>>)
    requires o.Shaped() && |hs| == |o.taken|
  {
    forall i :: 0 <= i < |hs| ==> o.Parked(i) || o.taken[i] == |hs[i]|
  }

  /** Of a complete input, only the last message closes it. */
  lemma ClosedIsUsedUp(h: seq<Message>, t: nat)
    requires Complete(h) && t <= |h|
    ensures 0 < Ends(h[..t]) <==> t == |h|
  {
    if t < |h| {
      PrefixCounts(h[..|h| - 1], t);
      assert h[..|h| - 1][..t] == h[..t];
    } else {
      assert h[..t] == h;
    }
  }

  lemma {:induction false} NoStopSnapshot(hs: seq<seq<Message>>, choices: seq<nat>)
    requires forall i :: 0 <= i < |hs| ==> Complete(hs[i])
    ensures forall k :: 0 <= k < |Feed(hs, choices).snapshots| ==> !Feed(hs, choices).snapshots[k].thenStop
  {
    if choices != [] {
      NoStopSnapshot(hs, choices[..|choices| - 1]);
    }
  }

  /**
   * A loop over complete inputs that can make no further step has chosen a final message
   * if and only if all inputs carry the same number of barriers. Otherwise it is left with
   * a parked input and ends silently, and what is queued behind that barrier is never read.
   */
  lemma FinishesIffBarriersAgree(hs: seq<seq<Message>>, choices: seq<nat>)
    requires |hs| > 0 && forall i :: 0 <= i < |hs| ==> Complete(hs[i])
    requires Feed(hs, choices).outcome.Running? ==> Exhausted(Feed(hs, choices), hs)
    ensures Feed(hs, choices).outcome.Finished?
            <==> forall i, j :: 0 <= i < |hs| && 0 <= j < |hs| ==> Barriers(hs[i]) == Barriers(hs[j])
  {
    FeedInv(hs, choices);
    NoStopSnapshot(hs, choices);
    var o := Feed(hs, choices);
    forall i | 0 <= i < |hs|
      ensures InputInv(o, i, hs[i])
      ensures i in o.closed <==> o.taken[i] == |hs[i]|
    {
      assert InputInv(o, i, hs[i]);
      ClosedIsUsedUp(hs[i], o.taken[i]);
    }
    if o.outcome.Finished? {
      forall i | 0 <= i < |hs|
        ensures Barriers(hs[i]) == |o.snapshots|
      {
        UsedUpIsFree(o, hs, i);
      }
    } else {
      SilentEnd(o, hs);
    }
  }

  /** An input that is used up is not parked, so it is level with the snapshots. */
  lemma UsedUpIsFree(o: Operator, hs: seq<seq<Message>>, i: nat)
    requires OperatorInv(o, hs) && ParkedAtBarrier(o, hs)
    requires i < |hs| && Complete(hs[i]) && o.taken[i] == |hs[i]|
    ensures !o.Parked(i) && Barriers(hs[i]) == |o.snapshots|
  {
    assert InputInv(o, i, hs[i]);
    assert hs[i][..|hs[i]|] == hs[i];
  }

  lemma SilentEnd(o: Operator, hs: seq<seq<Message>>)
    requires |hs| > 0 && forall i :: 0 <= i < |hs| ==> Complete(hs[i])
    requires OperatorInv(o, hs) && ParkedAtBarrier(o, hs)
    requires OutcomeInv(o, |hs|) && o.outcome.Running? && Exhausted(o, hs)
    ensures exists i, j :: 0 <= i < |hs| && 0 <= j < |hs| && Barriers(hs[i]) != Barriers(hs[j])
  {
    var j :| 0 <= j < |hs| && !o.Parked(j);
    UsedUpIsFree(o, hs, j);
    var i :| 0 <= i < |hs| && i !in o.closed;
    assert InputInv(o, i, hs[i]);
    ClosedIsUsedUp(hs[i], o.taken[i]);
    assert o.Parked(i);
    PrefixCounts(hs[i], o.taken[i]);
    assert Barriers(hs[i]) != Barriers(hs[j]);
  }

  /**
   * Input 0 has a barrier before its end, input 1 has none. Once both have been polled the
   * loop can make no step: it has no final message, and the end of input 0 is never read.
   */
  lemma {:induction false} SilentEndExample()
    ensures var hs := [[Barrier(1, false), EndOfData], [EndOfData]];
            var o := Feed(hs, [0, 1]);
            && Complete(hs[0]) && Complete(hs[1])
            && o.outcome.Running? && Exhausted(o, hs) && o.taken == [1, 1] && |hs[0]| == 2
  {
    SilentEndInputs();
    SilentEndRun([[Barrier(1, false), EndOfData], [EndOfData]], Barrier(1, false), EndOfData);
  }

  lemma {:induction false} SilentEndRun(hs: seq<seq<Message>>, b: Message, e: Message)
    requires hs == [[b, e], [e]] && b.Barrier? && !b.thenStop && e.EndOfData?
    ensures Feed(hs, [0, 1]) == Operator([1, 1], [1, 0], {1}, [], [], Running)
    ensures Exhausted(Feed(hs, [0, 1]), hs)
  {
    hide Feed, Complete, Barriers, Ends, DataOf;
    var start, first := Operator([0, 0], [0, 0], {}, [], [], Running), Operator([1, 0], [1, 0], {}, [], [], Running);
    NothingFed(hs);
    FeedOne(hs, [], 0);
    FeedOne(hs, [0], 1);
    assert [] + [0] == [0] && [0] + [1] == [0, 1];
    assert Feed(hs, []) == start;
    assert !first.Parked(1);
    assert start.taken[0 := 1] == first.taken && start.barriers[0 := 1] == first.barriers;
    assert start.Deliver(0, b) == first;
    assert Feed(hs, [0]) == first;
    assert first.Deliver(1, e) == Operator([1, 1], [1, 0], {1}, [], [], Running);
  }

  lemma {:induction false} NothingFed(hs: seq<seq<Message>>)
    ensures Feed(hs, []) == Start(|hs|)
  {
  }

  lemma {:induction false} FeedOne(hs: seq<seq<Message>>, choices: seq<nat>, i: nat)
    ensures Feed(hs, choices + [i]) == Advance(Feed(hs, choices), hs, i)
  {
    assert (choices + [i])[..|choices|] == choices;
  }

  lemma {:induction false} SilentEndInputs()
    ensures Complete([Barrier(1, false), EndOfData]) && Complete([EndOfData])
  {
    AppendOne([], EndOfData);
    AppendOne([], Barrier(1, false));
    AppendOne([Barrier(1, false)], EndOfData);
    assert [] + [EndOfData] == [EndOfData] && [] + [Barrier(1, false)] == [Barrier(1, false)];
    assert [Barrier(1, false)] + [EndOfData] == [Barrier(1, false), EndOfData];
  }
}
