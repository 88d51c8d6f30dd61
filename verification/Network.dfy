// A pipeline of operators over FIFO channels, as a state machine over its steps, and the
// theorem that the snapshots of one epoch form a consistent cut in every run. The graph
// is arbitrary: any number of inputs, parallel channels and shared upstreams.
module Network {
  import opened Messages
  import opened Operators

  /** One history per channel; channel (v, i) ends at input i of node v. */
  type Channels = seq<seq<seq<Message>>>

  /** inputs[v][i] is the node that feeds input i of v; epochs numbers the checkpoints. */
  datatype Topology = Topology(inputs: seq<seq<nat>>, epochs: nat -> nat)

  datatype Net = Net(
    nodes: seq<Operator>,
    sent: Channels,              // everything ever sent on each channel
    sentAt: seq<seq<Channels>>)  // what had been sent when a node took each of its snapshots

  /** Data messages a node emits in one step, by channel. */
  datatype Event =
    | Work(u: nat, outs: Channels)                                    // timers, ticks, source output
    | Receive(u: nat, i: nat, outs: Channels, closing: Channels)      // the next message of input i
    | Trigger(u: nat, thenStop: bool, outs: Channels, closing: Channels)  // a source checkpoints
    | Conclude(u: nat, final: Message, closing: Channels)             // a source ends
    | Silent(u: nat, closing: Channels)                               // the loop breaks with no final message

  ghost predicate Fits(topo: Topology, c: Channels) {
    |c| == |topo.inputs| && forall v :: 0 <= v < |c| ==> |c[v]| == |topo.inputs[v]|
  }

  ghost predicate OnlyData(h: seq<Message>) {
    forall p :: 0 <= p < |h| ==> h[p].IsData()
  }

  ghost predicate DataChannels(topo: Topology, c: Channels) {
    Fits(topo, c) && forall v, i :: 0 <= v < |c| && 0 <= i < |c[v]| ==> OnlyData(c[v][i])
  }

  /** Node u sends outs, and then the control messages ctrl to all its channels. */
  function Send(topo: Topology, c: Channels, u: nat, outs: Channels, ctrl: seq<Message>): (r: Channels)
    requires Fits(topo, c) && Fits(topo, outs)
    ensures Fits(topo, r)
    ensures forall v, i :: 0 <= v < |c| && 0 <= i < |c[v]| ==>
              r[v][i] == if topo.inputs[v][i] == u then c[v][i] + outs[v][i] + ctrl else c[v][i]
  {
    seq(|c|, v requires 0 <= v < |c| =>
      seq(|c[v]|, i requires 0 <= i < |c[v]| =>
        if topo.inputs[v][i] == u then c[v][i] + outs[v][i] + ctrl else c[v][i]))
  }

  ghost predicate Shaped(topo: Topology, net: Net) {
    && |net.nodes| == |topo.inputs| == |net.sentAt|
    && Fits(topo, net.sent)
    && (forall v :: 0 <= v < |net.nodes| ==>
          net.nodes[v].Shaped() && |net.nodes[v].taken| == |topo.inputs[v]|)
  }

  /** What u broadcasts when it moves from o to o': the barrier of a new snapshot. */
  function BarrierOf(o: Operator, o': Operator): seq<Message> {
    if |o.snapshots| < |o'.snapshots| then
      var s := o'.snapshots[|o'.snapshots| - 1];
      [Barrier(s.epoch, s.thenStop)]
    else []
  }

  function FinalOf(o: Operator, o': Operator): seq<Message> {
    if o.outcome.Running? && o'.outcome.Finished? && o'.outcome.final.Some? then [o'.outcome.final.value] else []
  }

  /** Node u becomes o', sending outs, the barrier, what it sends on closing, the final message. */
  ghost function Move(topo: Topology, net: Net, u: nat, o': Operator, outs: Channels, closing: Channels): (r: Net)
    requires Shaped(topo, net) && u < |net.nodes| && Fits(topo, outs) && Fits(topo, closing)
  {
    var o := net.nodes[u];
    var none := seq(|topo.inputs|, v requires 0 <= v < |topo.inputs| => seq(|topo.inputs[v]|, _ => []));
    var before := Send(topo, net.sent, u, outs, []);
    var marked := Send(topo, before, u, none, BarrierOf(o, o'));
    Net(net.nodes[u := o'],
        Send(topo, marked, u, closing, FinalOf(o, o')),
        if |o.snapshots| < |o'.snapshots| then net.sentAt[u := net.sentAt[u] + [before]] else net.sentAt)
  }

  function SourceSnapshot(topo: Topology, o: Operator, thenStop: bool): Operator {
    o.(snapshots := o.snapshots + [Snapshot(topo.epochs(|o.snapshots|), thenStop, o.log)],
       outcome := if thenStop then Finished(Some(Stop)) else o.outcome)
  }

  ghost predicate Enabled(topo: Topology, net: Net, e: Event)
    requires Shaped(topo, net)
  {
    && e.u < |net.nodes| && net.nodes[e.u].outcome.Running?
    && (!e.Conclude? && !e.Silent? ==> DataChannels(topo, e.outs))
    && (!e.Work? ==> DataChannels(topo, e.closing))
    && match e
       case Work(_, _) => true
       case Receive(u, i, _, _) => Ready(net.nodes[u], net.sent[u], i)
       case Trigger(u, _, _, _) => topo.inputs[u] == []
       case Conclude(u, final, _) => topo.inputs[u] == [] && final.IsEnd()
       case Silent(_, _) => true
  }

  /** The operator that e turns node e.u into. */
  ghost function NextOperator(topo: Topology, net: Net, e: Event): (o: Operator)
    requires Shaped(topo, net) && Enabled(topo, net, e)
    ensures o.Shaped() && |o.taken| == |topo.inputs[e.u]|
  {
    var o := net.nodes[e.u];
    match e
    case Work(_, _) => o
    case Receive(u, i, _, _) => o.Deliver(i, net.sent[u][i][o.taken[i]])
    case Trigger(_, thenStop, _, _) => SourceSnapshot(topo, o, thenStop)
    case Conclude(_, final, _) => o.(outcome := Finished(Some(final)))
    case Silent(_, _) => o.(outcome := Finished(None))
  }

  ghost function Apply(topo: Topology, net: Net, e: Event): (r: Net)
    requires Shaped(topo, net) && Enabled(topo, net, e)
    ensures Shaped(topo, r)
  {
    var none := seq(|topo.inputs|, v requires 0 <= v < |topo.inputs| => seq(|topo.inputs[v]|, _ => []));
    var o' := NextOperator(topo, net, e);
    Move(topo, net, e.u, o',
         if e.Conclude? || e.Silent? then none else e.outs,
         if e.Work? || o'.outcome.Running? then none else e.closing)
  }

  ghost function Initial(topo: Topology): (net: Net) {
    Net(seq(|topo.inputs|, v requires 0 <= v < |topo.inputs| => Start(|topo.inputs[v]|)),
        seq(|topo.inputs|, v requires 0 <= v < |topo.inputs| => seq(|topo.inputs[v]|, _ => [])),
        seq(|topo.inputs|, _ => []))
  }

  ghost predicate IsRun(topo: Topology, states: seq<Net>, events: seq<Event>) {
    && |states| == |events| + 1
    && states[0] == Initial(topo)
    && (forall v, i :: 0 <= v < |topo.inputs| && 0 <= i < |topo.inputs[v]| ==> topo.inputs[v][i] < |topo.inputs|)
    && forall n :: 0 <= n < |events| ==>
         Shaped(topo, states[n]) && Enabled(topo, states[n], events[n])
         && states[n + 1] == Apply(topo, states[n], events[n])
  }

  // ---------- the invariant ----------

  /** What channel (v, i) with history h says about the node o that feeds it. */
  ghost predicate SenderInv(topo: Topology, o: Operator, cuts: seq<Channels>, v: nat, i: nat, h: seq<Message>) {
    && Barriers(h) == |o.snapshots| == |cuts|
    && InSchedule(h, topo.epochs)
    && (forall k :: 0 <= k < |cuts| ==>
          v < |cuts[k]| && i < |cuts[k][v]| && DataOf(cuts[k][v][i]) == DataBefore(h, k))
    && Ends(h) == (if o.outcome.Finished? && o.outcome.final.Some? then 1 else 0)
    && (Ends(h) == 1 ==> h != [] && h[|h| - 1] == o.outcome.final.value)
  }

  ghost predicate NodeInv(topo: Topology, o: Operator, hs: seq<seq<Message>>) {
    && OperatorInv(o, hs) && ParkedAtBarrier(o, hs)
    && (forall k :: 0 <= k < |o.snapshots| ==> o.snapshots[k].epoch == topo.epochs(k))
    && (o.outcome.Finished? && o.outcome.final.Some? ==> o.outcome.final.value.IsEnd())
  }

  ghost predicate NetInv(topo: Topology, net: Net) {
    && Shaped(topo, net)
    && (forall v :: 0 <= v < |net.nodes| ==> NodeInv(topo, net.nodes[v], net.sent[v]))
    && (forall v, i :: 0 <= v < |net.nodes| && 0 <= i < |topo.inputs[v]| ==>
          topo.inputs[v][i] < |net.nodes|
          && SenderInv(topo, net.nodes[topo.inputs[v][i]], net.sentAt[topo.inputs[v][i]], v, i, net.sent[v][i]))
  }

  lemma {:induction false} DataOnly(h: seq<Message>)
    requires OnlyData(h)
    ensures Barriers(h) == 0 && Ends(h) == 0
  {
    if h != [] {
      DataOnly(h[..|h| - 1]);
    }
  }

  lemma {:induction false} ScheduleData(h: seq<Message>, more: seq<Message>, epochs: nat -> nat)
    requires InSchedule(h, epochs) && OnlyData(more)
    ensures InSchedule(h + more, epochs)
    decreases |more|
  {
    if more == [] {
      assert h + more == h;
    } else {
      var front, last := more[..|more| - 1], more[|more| - 1];
      ScheduleData(h, front, epochs);
      ScheduleAppend(h + front, last, epochs);
      assert h + more == (h + front) + [last];
    }
  }

  lemma {:induction false} ScheduleAt(h: seq<Message>, t: nat, epochs: nat -> nat)
    requires InSchedule(h, epochs) && t < |h| && h[t].Barrier?
    ensures h[t].epoch == epochs(Barriers(h[..t]))
  {
    if t < |h| - 1 {
      ScheduleAt(h[..|h| - 1], t, epochs);
      assert h[..|h| - 1][..t] == h[..t];
    }
  }

  /** Sending data before the final message keeps what a channel says about its sender. */
  lemma SenderData(topo: Topology, o: Operator, cuts: seq<Channels>, v: nat, i: nat, h: seq<Message>, more: seq<Message>)
    requires SenderInv(topo, o, cuts, v, i, h) && OnlyData(more)
    requires !(o.outcome.Finished? && o.outcome.final.Some?)
    ensures SenderInv(topo, o, cuts, v, i, h + more)
  {
    DataOnly(more);
    AppendCounts(h, more);
    ScheduleData(h, more, topo.epochs);
    forall k | 0 <= k < |cuts|
      ensures DataBefore(h + more, k) == DataBefore(h, k)
    {
      DataBeforeStable(h, more, k);
    }
  }

  /** The barrier follows the snapshot, so it separates what was sent before from what comes after. */
  lemma SenderBarrier(topo: Topology, o: Operator, o': Operator, cuts: seq<Channels>, cut: Channels,
                      v: nat, i: nat, h: seq<Message>)
    requires SenderInv(topo, o, cuts, v, i, h)
    requires |o'.snapshots| == |o.snapshots| + 1 && o'.outcome == o.outcome
    requires o'.snapshots[|o.snapshots|].epoch == topo.epochs(|o.snapshots|)
    requires v < |cut| && i < |cut[v]| && cut[v][i] == h
    requires Ends(h) == 0
    ensures SenderInv(topo, o', cuts + [cut], v, i, h + BarrierOf(o, o'))
  {
    var m := BarrierOf(o, o')[0];
    AppendOne(h, m);
    ScheduleAppend(h, m, topo.epochs);
    forall k | 0 <= k < |cuts| + 1
      ensures DataBefore(h + [m], k) == DataOf((cuts + [cut])[k][v][i])
    {
      DataBeforeAppend(h, m, k);
      if k == |cuts| {
        DataBeforeOpen(h, k);
      }
    }
    assert h + BarrierOf(o, o') == h + [m];
  }

  lemma SenderFinal(topo: Topology, o: Operator, o': Operator, cuts: seq<Channels>, v: nat, i: nat, h: seq<Message>)
    requires SenderInv(topo, o, cuts, v, i, h) && o.outcome.Running?
    requires o' == o.(outcome := o'.outcome)
    requires o'.outcome.Finished? && o'.outcome.final.Some? ==> o'.outcome.final.value.IsEnd()
    ensures SenderInv(topo, o', cuts, v, i, h + FinalOf(o, o'))
  {
    if FinalOf(o, o') == [] {
      assert h + FinalOf(o, o') == h;
    } else {
      var m := o'.outcome.final.value;
      AppendOne(h, m);
      ScheduleAppend(h, m, topo.epochs);
      forall k | 0 <= k < |cuts|
        ensures DataBefore(h + [m], k) == DataBefore(h, k)
      {
        DataBeforeAppend(h, m, k);
      }
      assert h + FinalOf(o, o') == h + [m];
    }
  }

  /** All stages of a move, on one channel of the moving node. */
  lemma SenderMove(topo: Topology, o: Operator, o': Operator, cuts: seq<Channels>, cut: Channels,
                   v: nat, i: nat, h: seq<Message>, outs: seq<Message>, closing: seq<Message>)
    requires SenderInv(topo, o, cuts, v, i, h) && o.outcome.Running?
    requires OnlyData(outs) && OnlyData(closing)
    requires o'.snapshots == o.snapshots
             || (&& |o'.snapshots| == |o.snapshots| + 1
                 && o'.snapshots[|o.snapshots|].epoch == topo.epochs(|o.snapshots|))
    requires v < |cut| && i < |cut[v]| && cut[v][i] == h + outs
    requires o'.outcome.Finished? && o'.outcome.final.Some? ==> o'.outcome.final.value.IsEnd()
    ensures SenderInv(topo, o', if |o.snapshots| < |o'.snapshots| then cuts + [cut] else cuts, v, i,
                      h + outs + BarrierOf(o, o') + closing + FinalOf(o, o'))
  {
    SenderData(topo, o, cuts, v, i, h, outs);
    var h1, o1 := h + outs, o'.(outcome := o.outcome);
    var cuts1 := if |o.snapshots| < |o'.snapshots| then cuts + [cut] else cuts;
    if |o.snapshots| < |o'.snapshots| {
      SenderBarrier(topo, o, o1, cuts, cut, v, i, h1);
    } else {
      assert h1 + BarrierOf(o, o') == h1;
    }
    var h2 := h1 + BarrierOf(o, o');
    assert SenderInv(topo, o1, cuts1, v, i, h2);
    SenderData(topo, o1, cuts1, v, i, h2, closing);
    SenderFinal(topo, o1, o', cuts1, v, i, h2 + closing);
  }

  lemma OperatorGrows(o: Operator, hs: seq<seq<Message>>, hs': seq<seq<Message>>)
    requires OperatorInv(o, hs) && ParkedAtBarrier(o, hs)
    requires |hs'| == |hs| && forall i :: 0 <= i < |hs| ==> hs[i] <= hs'[i]
    ensures OperatorInv(o, hs') && ParkedAtBarrier(o, hs')
  {
    forall i | 0 <= i < |hs|
      ensures InputInv(o, i, hs'[i])
      ensures o.Parked(i) ==> 0 < o.taken[i] && hs'[i][o.taken[i] - 1].Barrier?
    {
      assert InputInv(o, i, hs[i]);
      InputGrows(o, i, hs[i], hs'[i][|hs[i]|..]);
      assert hs'[i] == hs[i] + hs'[i][|hs[i]|..];
    }
  }

  lemma ReceiveInv(topo: Topology, o: Operator, hs: seq<seq<Message>>, i: nat)
    requires NodeInv(topo, o, hs) && Ready(o, hs, i) && InSchedule(hs[i], topo.epochs)
    ensures var o' := o.Deliver(i, hs[i][o.taken[i]]);
            && NodeInv(topo, o', hs)
            && (|| o'.snapshots == o.snapshots
                || (|o'.snapshots| == |o.snapshots| + 1 && o'.snapshots[..|o.snapshots|] == o.snapshots))
  {
    DeliverKeeps(o, hs, i);
    assert InputInv(o, i, hs[i]);
    if hs[i][o.taken[i]].Barrier? {
      ScheduleAt(hs[i], o.taken[i], topo.epochs);
    }
  }

  /** A node without inputs satisfies the input part of the invariant whatever it does. */
  lemma SourceInv(topo: Topology, o: Operator, o': Operator)
    requires NodeInv(topo, o, []) && o'.taken == o'.barriers == [] && o'.closed == o.closed
    requires forall k :: 0 <= k < |o'.snapshots| ==> o'.snapshots[k].epoch == topo.epochs(k)
    requires o'.outcome.Finished? && o'.outcome.final.Some? ==> o'.outcome.final.value.IsEnd()
    ensures NodeInv(topo, o', [])
  {
  }

  lemma SilentInv(topo: Topology, o: Operator, hs: seq<seq<Message>>)
    requires NodeInv(topo, o, hs)
    ensures NodeInv(topo, o.(outcome := Finished(None)), hs)
  {
    var o' := o.(outcome := Finished(None));
    forall i | 0 <= i < |hs|
      ensures InputInv(o', i, hs[i]) && (o'.Parked(i) <==> o.Parked(i))
    {
      assert InputInv(o, i, hs[i]);
    }
    if |hs| > 0 {
      var i :| 0 <= i < |hs| && !o.Parked(i);
      assert !o'.Parked(i);
    }
  }

  /** The moving node itself keeps its invariant against the histories it read from. */
  lemma NextOperatorInv(topo: Topology, net: Net, e: Event)
    requires NetInv(topo, net) && Enabled(topo, net, e)
    ensures var o, o' := net.nodes[e.u], NextOperator(topo, net, e);
            && NodeInv(topo, o', net.sent[e.u])
            && (|| o'.snapshots == o.snapshots
                || (|o'.snapshots| == |o.snapshots| + 1 && o'.snapshots[..|o.snapshots|] == o.snapshots))
  {
    var o, hs := net.nodes[e.u], net.sent[e.u];
    assert NodeInv(topo, o, hs);
    match e {
      case Work(_, _) =>
      case Receive(u, i, _, _) =>
        assert SenderInv(topo, net.nodes[topo.inputs[u][i]], net.sentAt[topo.inputs[u][i]], u, i, hs[i]);
        ReceiveInv(topo, o, hs, i);
      case Trigger(_, thenStop, _, _) =>
        SourceInv(topo, o, SourceSnapshot(topo, o, thenStop));
      case Conclude(_, final, _) =>
        SourceInv(topo, o, o.(outcome := Finished(Some(final))));
      case Silent(_, _) =>
        SilentInv(topo, o, hs);
    }
  }

  /** What a move leaves on channel (v, i). */
  lemma MoveChannel(topo: Topology, net: Net, u: nat, o': Operator, outs: Channels, closing: Channels, v: nat, i: nat)
    requires Shaped(topo, net) && u < |net.nodes| && Fits(topo, outs) && Fits(topo, closing)
    requires v < |net.nodes| && i < |topo.inputs[v]|
    ensures Fits(topo, Move(topo, net, u, o', outs, closing).sent)
    ensures Move(topo, net, u, o', outs, closing).sent[v][i] ==
              if topo.inputs[v][i] == u then
                net.sent[v][i] + outs[v][i] + BarrierOf(net.nodes[u], o') + closing[v][i] + FinalOf(net.nodes[u], o')
              else net.sent[v][i]
  {
  }

  lemma MoveSender(topo: Topology, net: Net, u: nat, o': Operator, outs: Channels, closing: Channels, v: nat, i: nat)
    requires NetInv(topo, net) && u < |net.nodes| && net.nodes[u].outcome.Running?
    requires DataChannels(topo, outs) && DataChannels(topo, closing)
    requires NodeInv(topo, o', net.sent[u])
    requires o'.snapshots == net.nodes[u].snapshots || |o'.snapshots| == |net.nodes[u].snapshots| + 1
    requires v < |net.nodes| && i < |topo.inputs[v]|
    ensures var net' := Move(topo, net, u, o', outs, closing);
            var w := topo.inputs[v][i];
            w < |net'.nodes| == |net'.sentAt| && v < |net'.sent| && i < |net'.sent[v]|
            && SenderInv(topo, net'.nodes[w], net'.sentAt[w], v, i, net'.sent[v][i])
  {
    var w := topo.inputs[v][i];
    assert SenderInv(topo, net.nodes[w], net.sentAt[w], v, i, net.sent[v][i]);
    MoveChannel(topo, net, u, o', outs, closing, v, i);
    if w == u {
      var before := Send(topo, net.sent, u, outs, []);
      assert before[v][i] == net.sent[v][i] + outs[v][i];
      SenderMove(topo, net.nodes[u], o', net.sentAt[u], before, v, i, net.sent[v][i], outs[v][i], closing[v][i]);
    }
  }

  lemma MoveNode(topo: Topology, net: Net, u: nat, o': Operator, outs: Channels, closing: Channels, v: nat)
    requires NetInv(topo, net) && u < |net.nodes| && Fits(topo, outs) && Fits(topo, closing)
    requires NodeInv(topo, o', net.sent[u]) && v < |net.nodes|
    ensures var net' := Move(topo, net, u, o', outs, closing);
            v < |net'.nodes| && v < |net'.sent| && NodeInv(topo, net'.nodes[v], net'.sent[v])
  {
    var net' := Move(topo, net, u, o', outs, closing);
    var o := if v == u then o' else net.nodes[v];
    assert NodeInv(topo, o, net.sent[v]);
    forall i | 0 <= i < |net.sent[v]|
      ensures i < |net'.sent[v]| && net.sent[v][i] <= net'.sent[v][i]
    {
      MoveChannel(topo, net, u, o', outs, closing, v, i);
    }
    OperatorGrows(o, net.sent[v], net'.sent[v]);
  }

  /** Every step of the pipeline keeps the invariant. */
  lemma StepKeeps(topo: Topology, net: Net, e: Event)
    requires NetInv(topo, net) && Enabled(topo, net, e)
    ensures NetInv(topo, Apply(topo, net, e))
  {
    var none := seq(|topo.inputs|, v requires 0 <= v < |topo.inputs| => seq(|topo.inputs[v]|, _ => []));
    var o' := NextOperator(topo, net, e);
    var outs := if e.Conclude? || e.Silent? then none else e.outs;
    var closing := if e.Work? || o'.outcome.Running? then none else e.closing;
    assert DataChannels(topo, none);
    assert DataChannels(topo, outs) && DataChannels(topo, closing);
    NextOperatorInv(topo, net, e);
    var net' := Move(topo, net, e.u, o', outs, closing);
    assert net' == Apply(topo, net, e);
    hide NodeInv, SenderInv, NextOperator, Enabled, Apply;
    forall v | 0 <= v < |net.nodes|
      ensures NodeInv(topo, net'.nodes[v], net'.sent[v])
    {
      MoveNode(topo, net, e.u, o', outs, closing, v);
    }
    forall v, i | 0 <= v < |net.nodes| && 0 <= i < |topo.inputs[v]|
      ensures topo.inputs[v][i] < |net'.nodes|
      ensures SenderInv(topo, net'.nodes[topo.inputs[v][i]], net'.sentAt[topo.inputs[v][i]], v, i, net'.sent[v][i])
    {
      MoveSender(topo, net, e.u, o', outs, closing, v, i);
    }
  }

  lemma {:induction false} RunInv(topo: Topology, states: seq<Net>, events: seq<Event>, n: nat)
    requires IsRun(topo, states, events) && n < |states|
    ensures NetInv(topo, states[n])
  {
    if n == 0 {
      var net := Initial(topo);
      forall v | 0 <= v < |net.nodes|
        ensures NodeInv(topo, net.nodes[v], net.sent[v])
      {
        StartInv(net.sent[v]);
      }
    } else {
      RunInv(topo, states, events, n - 1);
      StepKeeps(topo, states[n - 1], events[n - 1]);
    }
  }

  // ---------- the theorems ----------

  /**
   * In every run, whatever the graph and the interleaving: if a node has its snapshot k, so
   * has each node upstream of it, both for the same epoch, and on the channel between them
   * the data in the receiver's snapshot is exactly what the sender had sent at its snapshot.
   */
  lemma ConsistentCut(topo: Topology, states: seq<Net>, events: seq<Event>, n: nat, v: nat, i: nat, k: nat)
    requires IsRun(topo, states, events) && n < |states|
    requires Shaped(topo, states[n]) && v < |states[n].nodes| && i < |topo.inputs[v]|
    requires k < |states[n].nodes[v].snapshots|
    ensures var net, u := states[n], topo.inputs[v][i];
            && u < |net.nodes| && k < |net.nodes[u].snapshots| == |net.sentAt[u]|
            && net.nodes[v].snapshots[k].epoch == net.nodes[u].snapshots[k].epoch == topo.epochs(k)
            && v < |net.sentAt[u][k]| && i < |net.sentAt[u][k][v]|
            && Project(net.nodes[v].snapshots[k].log, i) == DataOf(net.sentAt[u][k][v][i])
  {
    RunInv(topo, states, events, n);
    var net, u := states[n], topo.inputs[v][i];
    assert NodeInv(topo, net.nodes[v], net.sent[v]);
    assert InputInv(net.nodes[v], i, net.sent[v][i]);
    assert SenderInv(topo, net.nodes[u], net.sentAt[u], v, i, net.sent[v][i]);
    PrefixCounts(net.sent[v][i], net.nodes[v].taken[i]);
    assert NodeInv(topo, net.nodes[u], net.sent[u]);
  }

  /** In every run a channel carries at most one final message, and nothing after it. */
  lemma OneFinalMessage(topo: Topology, states: seq<Net>, events: seq<Event>, n: nat, v: nat, i: nat)
    requires IsRun(topo, states, events) && n < |states|
    requires Shaped(topo, states[n]) && v < |states[n].nodes| && i < |topo.inputs[v]|
    ensures var h := states[n].sent[v][i];
            Ends(h) <= 1 && forall p :: 0 <= p < |h| && h[p].IsEnd() ==> p == |h| - 1
  {
    RunInv(topo, states, events, n);
    var net, u := states[n], topo.inputs[v][i];
    var h := net.sent[v][i];
    assert SenderInv(topo, net.nodes[u], net.sentAt[u], v, i, h);
    assert NodeInv(topo, net.nodes[u], net.sent[u]);
    forall p | 0 <= p < |h| - 1
      ensures !h[p].IsEnd()
    {
      if h[p].IsEnd() {
        assert h[..|h| - 1][..p + 1] == h[..p + 1];
        TakeOne(h, p);
        PrefixCounts(h[..|h| - 1], p + 1);
      }
    }
  }
}
