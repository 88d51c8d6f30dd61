// The stop flag of a checkpoint on its way through a pipeline: every barrier carries the flag
// of the snapshot it belongs to, so that an operator stops at a checkpoint only if a source was
// told to.
module StopFlags {
  import opened Messages
  import opened Operators
  import opened Network

  /** The stop flags of the barriers of a history, in order. */
  function Flags(h: seq<Message>): (r: seq<bool>)
    ensures |r| == Barriers(h)
  {
    if h == [] then []
    else Flags(h[..|h| - 1]) + if h[|h| - 1].Barrier? then [h[|h| - 1].thenStop] else []
  }

  ghost function FlagsOf(snapshots: seq<Snapshot>): (r: seq<bool>)
    ensures |r| == |snapshots| && forall k :: 0 <= k < |r| ==> r[k] == snapshots[k].thenStop
  {
    seq(|snapshots|, k requires 0 <= k < |snapshots| => snapshots[k].thenStop)
  }

  lemma {:induction false} FlagsAppend(h: seq<Message>, m: Message)
    ensures Flags(h + [m]) == Flags(h) + if m.Barrier? then [m.thenStop] else []
  {
    assert (h + [m])[..|h|] == h;
  }

  lemma {:induction false} FlagsConcat(h: seq<Message>, more: seq<Message>)
    ensures Flags(h + more) == Flags(h) + Flags(more)
    decreases |more|
  {
    if more == [] {
      assert h + more == h;
    } else {
      var front, last := more[..|more| - 1], more[|more| - 1];
      FlagsConcat(h, front);
      assert h + more == h + front + [last];
      FlagsAppend(h + front, last);
      FlagsAppend(front, last);
      assert more == front + [last];
    }
  }

  lemma {:induction false} FlagsOfData(h: seq<Message>)
    requires OnlyData(h)
    ensures Flags(h) == []
  {
    DataOnly(h);
  }

  /** The flag of the barrier at position t. */
  lemma {:induction false} FlagAt(h: seq<Message>, t: nat)
    requires t < |h| && h[t].Barrier?
    ensures Barriers(h[..t]) < |Flags(h)| && Flags(h)[Barriers(h[..t])] == h[t].thenStop
  {
    FlagsAppend(h[..t], h[t]);
    assert h == (h[..t] + [h[t]]) + h[t + 1..];
    FlagsConcat(h[..t] + [h[t]], h[t + 1..]);
  }

  // ---------- what every step keeps ----------

  /** On every channel the barriers carry the flags of the sender's snapshots. */
  ghost predicate ChannelFlags(topo: Topology, net: Net) {
    && Shaped(topo, net)
    && forall v, i :: 0 <= v < |net.nodes| && 0 <= i < |topo.inputs[v]| ==> ChannelFlag(topo, net, v, i)
  }

  ghost predicate ChannelFlag(topo: Topology, net: Net, v: nat, i: nat)
    requires Shaped(topo, net) && v < |net.nodes| && i < |topo.inputs[v]|
  {
    && topo.inputs[v][i] < |net.nodes|
    && Flags(net.sent[v][i]) == FlagsOf(net.nodes[topo.inputs[v][i]].snapshots)
  }

  /** The messages that a move adds to a channel add the flag of a new snapshot, if there is one. */
  lemma {:induction false} MoveFlags(o: Operator, o': Operator, h: seq<Message>, outs: seq<Message>, closing: seq<Message>)
    requires OnlyData(outs) && OnlyData(closing) && Flags(h) == FlagsOf(o.snapshots)
    requires o'.outcome.Finished? && o'.outcome.final.Some? ==> o'.outcome.final.value.IsEnd()
    requires || o'.snapshots == o.snapshots
             || (|o'.snapshots| == |o.snapshots| + 1 && o'.snapshots[..|o.snapshots|] == o.snapshots)
    ensures Flags(h + outs + BarrierOf(o, o') + closing + FinalOf(o, o')) == FlagsOf(o'.snapshots)
  {
    hide *;
    var b, f := BarrierOf(o, o'), FinalOf(o, o');
    FlagsOfData(outs);
    FlagsOfData(closing);
    BarrierFlags(o, o');
    FlagsConcat(h, outs);
    FlagsConcat(h + outs, b);
    FlagsConcat(h + outs + b, closing);
    FlagsConcat(h + outs + b + closing, f);
    FlagsSplit(o.snapshots, o'.snapshots);
  }

  lemma {:induction false} FlagsSplit(a: seq<Snapshot>, b: seq<Snapshot>)
    requires |a| <= |b| && b[..|a|] == a
    ensures FlagsOf(b) == FlagsOf(a) + FlagsOf(b[|a|..])
  {
    assert b == a + b[|a|..];
  }

  lemma {:induction false} BarrierFlags(o: Operator, o': Operator)
    requires o'.outcome.Finished? && o'.outcome.final.Some? ==> o'.outcome.final.value.IsEnd()
    requires || o'.snapshots == o.snapshots
             || (|o'.snapshots| == |o.snapshots| + 1 && o'.snapshots[..|o.snapshots|] == o.snapshots)
    ensures |o.snapshots| <= |o'.snapshots| && o'.snapshots[..|o.snapshots|] == o.snapshots
    ensures Flags(BarrierOf(o, o')) == FlagsOf(o'.snapshots[|o.snapshots|..]) && Flags(FinalOf(o, o')) == []
  {
    if |o.snapshots| < |o'.snapshots| {
      FlagsAppend([], BarrierOf(o, o')[0]);
      assert [] + [BarrierOf(o, o')[0]] == BarrierOf(o, o');
    }
    if FinalOf(o, o') != [] {
      FlagsAppend([], FinalOf(o, o')[0]);
      assert [] + [FinalOf(o, o')[0]] == FinalOf(o, o');
    }
  }

  ghost function NoData(topo: Topology): (r: Channels)
    ensures DataChannels(topo, r)
  {
    seq(|topo.inputs|, v requires 0 <= v < |topo.inputs| => seq(|topo.inputs[v]|, _ => []))
  }

  ghost function Outs(topo: Topology, e: Event): Channels {
    if e.Conclude? || e.Silent? then NoData(topo) else e.outs
  }

  ghost function Closing(topo: Topology, e: Event, o': Operator): Channels {
    if e.Work? || o'.outcome.Running? then NoData(topo) else e.closing
  }

  /** A step is a move of one node. */
  lemma {:induction false} StepIsMove(topo: Topology, net: Net, e: Event)
    requires NetInv(topo, net) && Enabled(topo, net, e)
    ensures var o' := NextOperator(topo, net, e);
            && DataChannels(topo, Outs(topo, e)) && DataChannels(topo, Closing(topo, e, o'))
            && e.u < |net.nodes|
            && Apply(topo, net, e) == Move(topo, net, e.u, o', Outs(topo, e), Closing(topo, e, o'))
            && Apply(topo, net, e).nodes == net.nodes[e.u := o']
            && NodeInv(topo, o', net.sent[e.u])
            && (|| o'.snapshots == net.nodes[e.u].snapshots
                || (|o'.snapshots| == |net.nodes[e.u].snapshots| + 1
                    && o'.snapshots[..|net.nodes[e.u].snapshots|] == net.nodes[e.u].snapshots))
  {
    NextOperatorInv(topo, net, e);
  }

  lemma {:induction false} StepFlag(topo: Topology, net: Net, e: Event, v: nat, i: nat)
    requires NetInv(topo, net) && Enabled(topo, net, e) && ChannelFlags(topo, net)
    requires v < |net.nodes| && i < |topo.inputs[v]|
    ensures Shaped(topo, Apply(topo, net, e)) && ChannelFlag(topo, Apply(topo, net, e), v, i)
  {
    StepIsMove(topo, net, e);
    var u, o, o', w := e.u, net.nodes[e.u], NextOperator(topo, net, e), topo.inputs[v][i];
    var outs, closing := Outs(topo, e), Closing(topo, e, o');
    assert ChannelFlag(topo, net, v, i);
    assert o'.outcome.Finished? && o'.outcome.final.Some? ==> o'.outcome.final.value.IsEnd();
    hide NetInv, NodeInv, Enabled, NextOperator, Flags, Outs, Closing, Move, BarrierOf, FinalOf;
    MoveChannel(topo, net, u, o', outs, closing, v, i);
    if w == u {
      MoveFlags(o, o', net.sent[v][i], outs[v][i], closing[v][i]);
    }
  }

  /** A node with inputs has in each snapshot the flag of the barrier that completed the alignment. */
  ghost predicate AlignedFlag(topo: Topology, net: Net, v: nat, k: nat)
    requires Shaped(topo, net) && v < |net.nodes| && k < |net.nodes[v].snapshots|
  {
    exists i :: 0 <= i < |topo.inputs[v]| && CarriesFlag(net, v, i, k)
  }

  ghost predicate CarriesFlag(net: Net, v: nat, i: nat, k: nat)
    requires v < |net.nodes| && k < |net.nodes[v].snapshots| && v < |net.sent| && i < |net.sent[v]|
  {
    k < |Flags(net.sent[v][i])| && Flags(net.sent[v][i])[k] == net.nodes[v].snapshots[k].thenStop
  }

  ghost predicate AlignedFlags(topo: Topology, net: Net) {
    && Shaped(topo, net)
    && forall v, k :: 0 <= v < |net.nodes| && topo.inputs[v] != [] && 0 <= k < |net.nodes[v].snapshots| ==>
         AlignedFlag(topo, net, v, k)
  }

  /** Later messages leave the flags as they are. */
  lemma {:induction false} StillCarries(topo: Topology, net: Net, u: nat, o': Operator, outs: Channels, closing: Channels,
                                       v: nat, i: nat, k: nat)
    requires Shaped(topo, net) && u < |net.nodes| && Fits(topo, outs) && Fits(topo, closing)
    requires v < |net.nodes| && i < |topo.inputs[v]| && k < |Flags(net.sent[v][i])|
    ensures var net' := Move(topo, net, u, o', outs, closing);
            && v < |net'.sent| && i < |net'.sent[v]| && k < |Flags(net'.sent[v][i])|
            && Flags(net'.sent[v][i])[k] == Flags(net.sent[v][i])[k]
  {
    hide Move, Flags, BarrierOf, FinalOf;
    MoveChannel(topo, net, u, o', outs, closing, v, i);
    var h, h' := net.sent[v][i], Move(topo, net, u, o', outs, closing).sent[v][i];
    assert h <= h';
    FlagsConcat(h, h'[|h|..]);
    assert h' == h + h'[|h|..];
  }

  /** The barrier that completes an alignment is the barrier of that number on its input. */
  lemma {:induction false} CompletingFlag(topo: Topology, o: Operator, hs: seq<seq<Message>>, i: nat)
    requires NodeInv(topo, o, hs) && Ready(o, hs, i)
    ensures var o' := o.Deliver(i, hs[i][o.taken[i]]);
            |o'.snapshots| > |o.snapshots| ==>
              && |o.snapshots| < |Flags(hs[i])|
              && Flags(hs[i])[|o.snapshots|] == o'.snapshots[|o.snapshots|].thenStop
  {
    assert InputInv(o, i, hs[i]);
    if hs[i][o.taken[i]].Barrier? {
      FlagAt(hs[i], o.taken[i]);
    }
  }

  /** What a received message does to the flags of its node. */
  lemma {:induction false} NewSnapshotFlag(topo: Topology, net: Net, e: Event)
    requires NetInv(topo, net) && Enabled(topo, net, e) && topo.inputs[e.u] != []
    ensures var o, o' := net.nodes[e.u], NextOperator(topo, net, e);
            |o'.snapshots| > |o.snapshots| ==>
              && e.Receive? && e.i < |topo.inputs[e.u]|
              && |o.snapshots| < |Flags(net.sent[e.u][e.i])|
              && Flags(net.sent[e.u][e.i])[|o.snapshots|] == o'.snapshots[|o.snapshots|].thenStop
  {
    if e.Receive? {
      CompletingFlag(topo, net.nodes[e.u], net.sent[e.u], e.i);
    }
  }

  lemma {:induction false} StepAligned(topo: Topology, net: Net, e: Event, v: nat, k: nat)
    requires NetInv(topo, net) && Enabled(topo, net, e) && AlignedFlags(topo, net)
    requires Shaped(topo, Apply(topo, net, e)) && v < |net.nodes| && topo.inputs[v] != []
    requires k < |Apply(topo, net, e).nodes[v].snapshots|
    ensures AlignedFlag(topo, Apply(topo, net, e), v, k)
  {
    hide NetInv, NodeInv, Enabled, NextOperator, Flags, Outs, Closing, Move, Apply, DataChannels;
    StepIsMove(topo, net, e);
    var o' := NextOperator(topo, net, e);
    var i := CarryingInput(topo, net, e, v, k);
    StillCarries(topo, net, e.u, o', Outs(topo, e), Closing(topo, e, o'), v, i, k);
    assert CarriesFlag(Apply(topo, net, e), v, i, k);
  }

  /** The input whose barrier gave node v the flag that it has in snapshot k after the step. */
  lemma {:induction false} CarryingInput(topo: Topology, net: Net, e: Event, v: nat, k: nat) returns (i: nat)
    requires NetInv(topo, net) && Enabled(topo, net, e) && AlignedFlags(topo, net)
    requires v < |net.nodes| && topo.inputs[v] != [] && Shaped(topo, net)
    requires k < |Apply(topo, net, e).nodes[v].snapshots|
    ensures i < |topo.inputs[v]| && k < |Flags(net.sent[v][i])|
    ensures Flags(net.sent[v][i])[k] == Apply(topo, net, e).nodes[v].snapshots[k].thenStop
  {
    hide *;
    SnapshotAfter(topo, net, e, v, k);
    if k < |net.nodes[v].snapshots| {
      i := OldCarrier(topo, net, v, k);
    } else {
      InputsOf(topo, net, e);
      NewSnapshotFlag(topo, net, e);
      i := e.i;
    }
  }

  lemma {:induction false} InputsOf(topo: Topology, net: Net, e: Event)
    requires Shaped(topo, net) && Enabled(topo, net, e)
    ensures e.u < |net.nodes| == |topo.inputs| == |net.sent| && |net.sent[e.u]| == |topo.inputs[e.u]|
  {
  }

  /** A step adds at most one snapshot, to its own node. */
  lemma {:induction false} SnapshotAfter(topo: Topology, net: Net, e: Event, v: nat, k: nat)
    requires NetInv(topo, net) && Enabled(topo, net, e) && v < |net.nodes| && k < |Apply(topo, net, e).nodes[v].snapshots|
    ensures k < |net.nodes[v].snapshots| ==> Apply(topo, net, e).nodes[v].snapshots[k] == net.nodes[v].snapshots[k]
    ensures k >= |net.nodes[v].snapshots| ==>
              && v == e.u && k == |net.nodes[v].snapshots| && k < |NextOperator(topo, net, e).snapshots|
              && Apply(topo, net, e).nodes[v].snapshots[k] == NextOperator(topo, net, e).snapshots[k]
  {
    hide NetInv, NodeInv, Enabled, NextOperator, Move, Apply, DataChannels;
    StepIsMove(topo, net, e);
  }

  lemma {:induction false} OldCarrier(topo: Topology, net: Net, v: nat, k: nat) returns (i: nat)
    requires AlignedFlags(topo, net) && v < |net.nodes| && topo.inputs[v] != [] && k < |net.nodes[v].snapshots|
    ensures i < |topo.inputs[v]| && k < |Flags(net.sent[v][i])| && Flags(net.sent[v][i])[k] == net.nodes[v].snapshots[k].thenStop
  {
    hide Flags;
    assert AlignedFlag(topo, net, v, k);
    i :| 0 <= i < |topo.inputs[v]| && CarriesFlag(net, v, i, k);
  }

  ghost predicate FlagInv(topo: Topology, net: Net) {
    NetInv(topo, net) && ChannelFlags(topo, net) && AlignedFlags(topo, net)
  }

  lemma {:induction false} StepKeepsFlags(topo: Topology, net: Net, e: Event)
    requires FlagInv(topo, net) && Enabled(topo, net, e)
    ensures FlagInv(topo, Apply(topo, net, e))
  {
    hide NetInv, NodeInv, Enabled, NextOperator, Flags, Move, Apply, DataChannels, ChannelFlag, AlignedFlag;
    StepKeeps(topo, net, e);
    StepIsMove(topo, net, e);
    var net' := Apply(topo, net, e);
    assert Shaped(topo, net') && |net'.nodes| == |net.nodes|;
    forall v, i | 0 <= v < |net'.nodes| && 0 <= i < |topo.inputs[v]|
      ensures ChannelFlag(topo, net', v, i)
    {
      StepFlag(topo, net, e, v, i);
    }
    forall v, k | 0 <= v < |net'.nodes| && topo.inputs[v] != [] && 0 <= k < |net'.nodes[v].snapshots|
      ensures AlignedFlag(topo, net', v, k)
    {
      StepAligned(topo, net, e, v, k);
    }
  }

  lemma {:induction false} RunFlags(topo: Topology, states: seq<Net>, events: seq<Event>, n: nat)
    requires IsRun(topo, states, events) && n < |states|
    ensures FlagInv(topo, states[n])
  {
    hide *;
    RunLength(topo, states, events);
    if n == 0 {
      RunInv(topo, states, events, 0);
      FlagsAtStart(topo, states, events);
    } else {
      RunFlags(topo, states, events, n - 1);
      RunTakes(topo, states, events, n - 1);
      StepKeepsFlags(topo, states[n - 1], events[n - 1]);
    }
  }

  lemma {:induction false} RunLength(topo: Topology, states: seq<Net>, events: seq<Event>)
    requires IsRun(topo, states, events)
    ensures |states| == |events| + 1
  {
  }

  lemma {:induction false} RunTakes(topo: Topology, states: seq<Net>, events: seq<Event>, m: nat)
    requires IsRun(topo, states, events) && m < |events|
    ensures |states| == |events| + 1 && Shaped(topo, states[m]) && Enabled(topo, states[m], events[m])
    ensures states[m + 1] == Apply(topo, states[m], events[m])
  {
    hide Apply, Enabled, Shaped;
  }

  lemma {:induction false} FlagsAtStart(topo: Topology, states: seq<Net>, events: seq<Event>)
    requires IsRun(topo, states, events) && |states| > 0 && NetInv(topo, states[0])
    ensures FlagInv(topo, states[0])
  {
    hide NodeInv, SenderInv;
  }

  // ---------- the theorems ----------

  /** The snapshot of an input carries the same flag. */
  ghost predicate SameFlag(topo: Topology, net: Net, v: nat, i: nat, k: nat)
    requires v < |net.nodes| && v < |topo.inputs| && i < |topo.inputs[v]| && k < |net.nodes[v].snapshots|
  {
    var u := topo.inputs[v][i];
    u < |net.nodes| && k < |net.nodes[u].snapshots| && net.nodes[v].snapshots[k].thenStop == net.nodes[u].snapshots[k].thenStop
  }

  /** In every run, each snapshot of a node with inputs has the flag that some input's sender has in its own. */
  lemma {:induction false} FlagFromInput(topo: Topology, states: seq<Net>, events: seq<Event>, n: nat, v: nat, k: nat)
    requires IsRun(topo, states, events) && n < |states|
    requires Shaped(topo, states[n]) && v < |states[n].nodes| && topo.inputs[v] != [] && k < |states[n].nodes[v].snapshots|
    ensures exists i :: 0 <= i < |topo.inputs[v]| && SameFlag(topo, states[n], v, i, k)
  {
    RunFlags(topo, states, events, n);
    var net := states[n];
    assert AlignedFlag(topo, net, v, k);
    var i :| 0 <= i < |topo.inputs[v]| && CarriesFlag(net, v, i, k);
    assert ChannelFlag(topo, net, v, i);
    assert SameFlag(topo, net, v, i, k);
  }

  /** Event m tells a source to take snapshot k. */
  ghost predicate Told(states: seq<Net>, events: seq<Event>, m: nat, k: nat) {
    && m < |events| && m < |states| && events[m].Trigger?
    && events[m].u < |states[m].nodes| && |states[m].nodes[events[m].u].snapshots| == k
  }

  /** So far every source told to take snapshot k was told to stop at it if stop, and to go on if not. */
  ghost predicate ToldAlike(states: seq<Net>, events: seq<Event>, n: nat, k: nat, stop: bool) {
    forall m: nat :: m < n && Told(states, events, m, k) ==> events[m].thenStop == stop
  }

  /** Some source was told to stop at snapshot k. */
  ghost predicate ToldToStop(states: seq<Net>, events: seq<Event>, n: nat, k: nat) {
    exists m: nat :: m < n && Told(states, events, m, k) && events[m].thenStop
  }

  /** A source's snapshot carries the flag of its trigger, and the source ends with Stop if and only if it is set. */
  lemma {:induction false} TriggerCarries(topo: Topology, states: seq<Net>, events: seq<Event>, m: nat)
    requires IsRun(topo, states, events) && m < |events| && events[m].Trigger?
    ensures var u := events[m].u;
            && u < |states[m].nodes| && u < |states[m + 1].nodes|
            && var was, now := states[m].nodes[u].snapshots, states[m + 1].nodes[u].snapshots;
               && |now| == |was| + 1 && now[..|was|] == was
               && now[|was|] == Snapshot(topo.epochs(|was|), events[m].thenStop, states[m].nodes[u].log)
               && (events[m].thenStop ==> states[m + 1].nodes[u].outcome == Finished(Some(Stop)))
               && (!events[m].thenStop ==> states[m + 1].nodes[u].outcome.Running?)
  {
    RunInv(topo, states, events, m);
    StepIsMove(topo, states[m], events[m]);
  }

  /** All nodes that have snapshot k have the flag stop in it. */
  ghost predicate AllHave(net: Net, k: nat, stop: bool) {
    forall v :: 0 <= v < |net.nodes| && k < |net.nodes[v].snapshots| ==> net.nodes[v].snapshots[k].thenStop == stop
  }

  /** A step gives snapshot k no other flag, unless it is a trigger with another flag. */
  lemma {:induction false} StepAllHave(topo: Topology, net: Net, e: Event, k: nat, stop: bool)
    requires FlagInv(topo, net) && Enabled(topo, net, e) && AllHave(net, k, stop)
    requires e.Trigger? && |net.nodes[e.u].snapshots| == k ==> e.thenStop == stop
    ensures AllHave(Apply(topo, net, e), k, stop)
  {
    hide *;
    InvParts(topo, net, e);
    forall v: nat | v < |net.nodes| && k < |Apply(topo, net, e).nodes[v].snapshots|
      ensures Apply(topo, net, e).nodes[v].snapshots[k].thenStop == stop
    {
      SnapshotAfter(topo, net, e, v, k);
      if k < |net.nodes[v].snapshots| {
        HasFlag(net, v, k, stop);
      } else {
        NewFlag(topo, net, e, k, stop);
      }
    }
    AllHaveIs(topo, net, e, k, stop);
  }

  lemma {:induction false} InvParts(topo: Topology, net: Net, e: Event)
    requires FlagInv(topo, net) && Enabled(topo, net, e)
    ensures NetInv(topo, net) && ChannelFlags(topo, net) && Shaped(topo, net) && e.u < |net.nodes| == |topo.inputs|
    ensures |Apply(topo, net, e).nodes| == |net.nodes|
  {
    hide NetInv, AlignedFlags, Apply, NextOperator, Move;
    StepIsMove(topo, net, e);
  }

  lemma {:induction false} HasFlag(net: Net, v: nat, k: nat, stop: bool)
    requires AllHave(net, k, stop) && v < |net.nodes| && k < |net.nodes[v].snapshots|
    ensures net.nodes[v].snapshots[k].thenStop == stop
  {
  }

  lemma {:induction false} AllHaveIs(topo: Topology, net: Net, e: Event, k: nat, stop: bool)
    requires NetInv(topo, net) && Enabled(topo, net, e)
    requires |Apply(topo, net, e).nodes| == |net.nodes|
    requires forall v: nat :: v < |net.nodes| && k < |Apply(topo, net, e).nodes[v].snapshots| ==>
               Apply(topo, net, e).nodes[v].snapshots[k].thenStop == stop
    ensures AllHave(Apply(topo, net, e), k, stop)
  {
    hide NetInv, Enabled, Move, NextOperator;
    StepIsMove(topo, net, e);
  }

  /** The flag of a new snapshot, from a trigger or from the sender of the barrier. */
  lemma {:induction false} NewFlag(topo: Topology, net: Net, e: Event, k: nat, stop: bool)
    requires NetInv(topo, net) && ChannelFlags(topo, net) && Enabled(topo, net, e) && AllHave(net, k, stop)
    requires k == |net.nodes[e.u].snapshots| < |NextOperator(topo, net, e).snapshots|
    requires e.Trigger? ==> e.thenStop == stop
    ensures NextOperator(topo, net, e).snapshots[k].thenStop == stop
  {
    if topo.inputs[e.u] == [] {
      assert e.Trigger?;
    } else {
      NewSnapshotFlag(topo, net, e);
      hide NetInv, NextOperator, Enabled, Flags;
      assert ChannelFlag(topo, net, e.u, e.i);
    }
  }

  /** If no source is told otherwise for checkpoint k, every node has the flag stop in its snapshot k. */
  lemma {:induction false} FlagsAgree(topo: Topology, states: seq<Net>, events: seq<Event>, n: nat, k: nat, stop: bool)
    requires IsRun(topo, states, events) && n < |states|
    requires ToldAlike(states, events, n, k, stop)
    ensures AllHave(states[n], k, stop)
  {
    hide *;
    RunLength(topo, states, events);
    if n == 0 {
      NoneAtStart(topo, states, events, k, stop);
    } else {
      var m := n - 1;
      ToldBefore(states, events, m, k, stop);
      FlagsAgree(topo, states, events, m, k, stop);
      RunFlags(topo, states, events, m);
      RunStep(topo, states, events, m, k, stop);
      StepAllHave(topo, states[m], events[m], k, stop);
    }
  }

  lemma {:induction false} NoneAtStart(topo: Topology, states: seq<Net>, events: seq<Event>, k: nat, stop: bool)
    requires IsRun(topo, states, events)
    ensures |states| > 0 && AllHave(states[0], k, stop)
  {
  }

  lemma {:induction false} ToldBefore(states: seq<Net>, events: seq<Event>, m: nat, k: nat, stop: bool)
    requires ToldAlike(states, events, m + 1, k, stop)
    ensures ToldAlike(states, events, m, k, stop)
  {
    hide Told;
  }

  lemma {:induction false} RunStep(topo: Topology, states: seq<Net>, events: seq<Event>, m: nat, k: nat, stop: bool)
    requires IsRun(topo, states, events) && m < |events| && ToldAlike(states, events, m + 1, k, stop)
    ensures |states| == |events| + 1 && Shaped(topo, states[m]) && Enabled(topo, states[m], events[m])
    ensures states[m + 1] == Apply(topo, states[m], events[m]) && events[m].u < |states[m].nodes|
    ensures events[m].Trigger? && |states[m].nodes[events[m].u].snapshots| == k ==> events[m].thenStop == stop
  {
    hide Apply;
    assert Shaped(topo, states[m]) && Enabled(topo, states[m], events[m]);
    assert events[m].Trigger? && |states[m].nodes[events[m].u].snapshots| == k ==> Told(states, events, m, k);
  }

  /** A stop flag in any snapshot comes from a source that was told to stop at that checkpoint. */
  lemma {:induction false} StopIsTriggered(topo: Topology, states: seq<Net>, events: seq<Event>, n: nat, v: nat, k: nat)
    requires IsRun(topo, states, events) && n < |states| && v < |states[n].nodes|
    requires k < |states[n].nodes[v].snapshots| && states[n].nodes[v].snapshots[k].thenStop
    ensures ToldToStop(states, events, n, k)
  {
    if !ToldToStop(states, events, n, k) {
      FlagsAgree(topo, states, events, n, k, false);
    }
  }

  /** If the sources agree on every checkpoint, sender and receiver agree on every channel. */
  lemma {:induction false} ChannelsAgree(topo: Topology, states: seq<Net>, events: seq<Event>, n: nat, v: nat, i: nat,
                                         k: nat,
                                         stop: bool)
    requires IsRun(topo, states, events) && n < |states|
    requires ToldAlike(states, events, n, k, stop)
    requires Shaped(topo, states[n]) && v < |states[n].nodes| && i < |topo.inputs[v]| && k < |states[n].nodes[v].snapshots|
    ensures SameFlag(topo, states[n], v, i, k) && states[n].nodes[v].snapshots[k].thenStop == stop
  {
    ConsistentCut(topo, states, events, n, v, i, k);
    FlagsAgree(topo, states, events, n, k, stop);
  }

  /**
   * A node that finishes on receiving a barrier finishes with Stop, and some source was told to
   * stop at that checkpoint; at any other barrier it goes on.
   */
  lemma {:induction false} FinishesOnlyIfTold(topo: Topology, states: seq<Net>, events: seq<Event>, n: nat)
    requires IsRun(topo, states, events) && n < |events| && events[n].Receive?
    requires Shaped(topo, states[n]) && Enabled(topo, states[n], events[n])
    requires var o := states[n].nodes[events[n].u];
             states[n].sent[events[n].u][events[n].i][o.taken[events[n].i]].Barrier?
    ensures events[n].u < |states[n + 1].nodes|
    ensures states[n + 1].nodes[events[n].u].outcome.Running? || states[n + 1].nodes[events[n].u].outcome == Finished(Some(Stop))
    ensures states[n + 1].nodes[events[n].u].outcome.Finished? ==>
              ToldToStop(states, events, n, |states[n].nodes[events[n].u].snapshots|)
  {
    RunFlags(topo, states, events, n);
    StepIsMove(topo, states[n], events[n]);
    var u, net := events[n].u, states[n];
    var o, o' := net.nodes[u], NextOperator(topo, net, events[n]);
    if o'.outcome.Finished? {
      var k := |o.snapshots|;
      assert k < |o'.snapshots| && o'.snapshots[k].thenStop;
      NewSnapshotFlag(topo, net, events[n]);
      assert ChannelFlag(topo, net, u, events[n].i);
      var w := topo.inputs[u][events[n].i];
      assert net.nodes[w].snapshots[k].thenStop;
      StopIsTriggered(topo, states, events, n, w, k);
    }
  }
}
