// The event loop that drives an operator: barrier counting, the set of streams being
// polled, the parked streams, and the shutdown path. Every method is proved against
// the operator of module Operators.
module EventLoops {
  import opened Messages
  import opened Operators

  /** How many inputs have no barrier outstanding. */
  function Unmarked(inputs: seq<Option<nat>>): nat {
    if inputs == [] then 0
    else (if inputs[0].None? then 1 else 0) + Unmarked(inputs[1..])
  }

  lemma {:induction false} UnmarkedBounds(inputs: seq<Option<nat>>)
    ensures Unmarked(inputs) <= |inputs|
    ensures Unmarked(inputs) == |inputs| <==> forall i :: 0 <= i < |inputs| ==> inputs[i].None?
    ensures Unmarked(inputs) == 0 <==> forall i :: 0 <= i < |inputs| ==> inputs[i].Some?
  {
    if inputs != [] {
      UnmarkedBounds(inputs[1..]);
      assert forall i :: 1 <= i < |inputs| ==> inputs[i] == inputs[1..][i - 1];
    }
  }

  lemma {:induction false} UnmarkedUpdate(inputs: seq<Option<nat>>, i: nat, epoch: nat)
    requires i < |inputs| && inputs[i].None?
    ensures Unmarked(inputs[i := Some(epoch)]) == Unmarked(inputs) - 1
  {
    if i == 0 {
      assert inputs[i := Some(epoch)][1..] == inputs[1..];
    } else {
      assert inputs[i := Some(epoch)][1..] == inputs[1..][i - 1 := Some(epoch)];
      UnmarkedUpdate(inputs[1..], i - 1, epoch);
    }
  }

  class CheckpointCounter {
    var inputs: seq<Option<nat>>
    var counter: Option<nat>

    /** The counter is the number of inputs still outstanding, absent when none is marked. */
    ghost predicate Valid()
      reads this
    {
      && (counter.None? <==> AllClear())
      && (counter.Some? ==> counter.value == Unmarked(inputs) && 0 < Unmarked(inputs))
      && (|inputs| == 1 ==> AllClear())
    }

    constructor (size: nat)
      ensures Valid() && |inputs| == size && AllClear()
    {
      inputs := seq(size, _ => None);
      counter := None;
    }

    predicate IsBlocked(idx: nat)
      requires idx < |inputs|
      reads this
    {
      inputs[idx].Some?
    }

    predicate AllClear()
      reads this
    {
      forall i :: 0 <= i < |inputs| ==> inputs[i].None?
    }

    /** True exactly when idx was the last input outstanding; all marks are then cleared. */
    method Mark(idx: nat, epoch: nat) returns (complete: bool)
      requires Valid() && idx < |inputs| && !IsBlocked(idx)
      modifies this
      ensures Valid() && |inputs| == old(|inputs|)
      ensures complete <==> forall i :: 0 <= i < |inputs| && i != idx ==> old(inputs[i].Some?)
      ensures complete ==> AllClear()
      ensures !complete ==> inputs == old(inputs)[idx := Some(epoch)]
    {
      UnmarkedBounds(inputs);
      if |inputs| == 1 {
        return true;
      }
      UnmarkedUpdate(inputs, idx, epoch);
      inputs := inputs[idx := Some(epoch)];
      UnmarkedBounds(inputs);
      assert forall i :: 0 <= i < |inputs| && i != idx ==> inputs[i] == old(inputs[i]);
      match counter {
        case None =>
          assert old(inputs[if idx == 0 then 1 else 0].None?);
          counter := Some(|inputs| - 1);
        case Some(n) =>
          if n == 1 {
            inputs := seq(|inputs|, _ => None);
            counter := None;
          } else {
            counter := Some(n - 1);
          }
      }
      complete := counter.None?;
    }
  }

  /** A message of one input parks or frees no other input, unless it completes a checkpoint and frees all. */
  lemma {:induction false} DeliverParks(o: Operator, idx: nat, m: Message)
    requires o.Shaped() && idx < |o.taken| && !o.Parked(idx)
    requires forall i :: 0 <= i < |o.taken| ==> |o.snapshots| <= o.barriers[i] <= |o.snapshots| + 1
    ensures var o' := o.Deliver(idx, m);
            || (forall i :: 0 <= i < |o.taken| ==> !o'.Parked(i))
            || (|o'.snapshots| == |o.snapshots|
                && forall i :: 0 <= i < |o.taken| && i != idx ==> (o'.Parked(i) <==> o.Parked(i)))
  {
  }

  lemma {:induction false} AdvanceTaken(o: Operator, hs: seq<seq<Message>>, i: nat)
    requires o.Shaped() && |hs| == |o.taken|
    ensures Advance(o, hs, i).taken == if Ready(o, hs, i) then o.taken[i := o.taken[i] + 1] else o.taken
  {
  }

  lemma {:induction false} ReadyInside(o: Operator, hs: seq<seq<Message>>, i: nat)
    requires o.Shaped() && |hs| == |o.taken| && Ready(o, hs, i)
    ensures i < |hs|
  {
  }

  /** Each stream that has not ended is polled or parked, never both and never twice. */
  ghost predicate Partitioned(o: Operator, sel: set<nat>, blocked: seq<nat>, ended: set<nat>)
    requires o.Shaped()
  {
    && (forall i, j :: 0 <= i < j < |blocked| ==> blocked[i] != blocked[j])
    && (forall i :: i in blocked <==> 0 <= i < |o.taken| && o.Parked(i))
    && (forall i :: i in sel <==> 0 <= i < |o.taken| && i !in blocked && i !in ended)
    && (forall i :: i in blocked ==> i !in ended)
  }

  /** The same, but for stream idx, which has just been read and belongs to neither. */
  ghost predicate Detached(o: Operator, idx: nat, sel: set<nat>, blocked: seq<nat>, ended: set<nat>)
    requires o.Shaped()
  {
    && idx < |o.taken| && idx !in ended && idx !in blocked
    && (forall i, j :: 0 <= i < j < |blocked| ==> blocked[i] != blocked[j])
    && (forall i :: i in blocked ==> 0 <= i < |o.taken| && i !in ended)
    && (forall i :: i in sel <==> 0 <= i < |o.taken| && i != idx && i !in blocked && i !in ended)
    && ((forall i :: 0 <= i < |o.taken| && i != idx ==> (o.Parked(i) <==> i in blocked))
        || (forall i :: 0 <= i < |o.taken| ==> !o.Parked(i)))
  }

  ghost predicate NoneParked(o: Operator)
    requires o.Shaped()
  {
    forall i :: 0 <= i < |o.taken| ==> !o.Parked(i)
  }

  lemma {:induction false} Detach(o: Operator, idx: nat, m: Message, sel: set<nat>, blocked: seq<nat>, ended: set<nat>)
    requires o.Shaped() && Partitioned(o, sel, blocked, ended) && idx in sel
    requires forall i :: 0 <= i < |o.taken| ==> |o.snapshots| <= o.barriers[i] <= |o.snapshots| + 1
    ensures Detached(o.Deliver(idx, m), idx, sel - {idx}, blocked, ended) && !o.Parked(idx)
    ensures |o.Deliver(idx, m).snapshots| > |o.snapshots| ==> NoneParked(o.Deliver(idx, m))
  {
    DeliverParks(o, idx, m);
  }

  /** Marks, closed streams and state are those of the operator o with n inputs. */
  ghost predicate Tracks(o: Operator, n: nat, marks: seq<Option<nat>>, closed: set<nat>, log: seq<(nat, Message)>,
                         snapshots: seq<Snapshot>)
  {
    && 0 < n && |marks| == n && o.Shaped() && |o.taken| == n
    && closed == o.closed && log == o.log && snapshots == o.snapshots
    && (forall i :: 0 <= i < n ==> |snapshots| <= o.barriers[i] <= |snapshots| + 1 && (marks[i].Some? <==> o.Parked(i)))
  }

  lemma {:induction false} TracksFields(o: Operator, n: nat, marks: seq<Option<nat>>, closed: set<nat>,
                                        log: seq<(nat, Message)>,
                                       snapshots: seq<Snapshot>)
    requires Tracks(o, n, marks, closed, log, snapshots)
    ensures closed == o.closed && log == o.log && snapshots == o.snapshots && o.Shaped() && |o.taken| == n
  {
  }

  lemma {:induction false} TracksLogged(o: Operator, n: nat, marks: seq<Option<nat>>, idx: nat, m: Message)
    requires Tracks(o, n, marks, o.closed, o.log, o.snapshots) && idx < n && (m.Record? || m.Watermark?)
    ensures Tracks(o.Deliver(idx, m), n, marks, o.closed, o.log + [(idx, m)], o.snapshots)
    ensures o.Deliver(idx, m).outcome == o.outcome
  {
  }

  lemma {:induction false} TracksClosed(o: Operator, n: nat, marks: seq<Option<nat>>, idx: nat, m: Message)
    requires Tracks(o, n, marks, o.closed, o.log, o.snapshots) && idx < n && (m.Stop? || m.EndOfData?)
    ensures Tracks(o.Deliver(idx, m), n, marks, o.closed + {idx}, o.log, o.snapshots)
    ensures o.Deliver(idx, m).outcome == if |o.closed + {idx}| == n then Finished(Some(m)) else o.outcome
  {
  }

  /** A barrier: the checkpoint is complete exactly if every other input is parked already. */
  lemma {:induction false} TracksBarrier(o: Operator, n: nat, marks: seq<Option<nat>>, idx: nat, m: Message,
                                         marks': seq<Option<nat>>,
                                        complete: bool)
    requires Tracks(o, n, marks, o.closed, o.log, o.snapshots) && idx < n && m.Barrier? && !o.Parked(idx)
    requires complete <==> forall i :: 0 <= i < n && i != idx ==> marks[i].Some?
    requires if complete then |marks'| == n && (forall i :: 0 <= i < n ==> marks'[i].None?) else marks' == marks[idx := Some(m.epoch)]
    ensures var snapshots := if complete then o.snapshots + [Snapshot(m.epoch, m.thenStop, o.log)] else o.snapshots;
            Tracks(o.Deliver(idx, m), n, marks', o.closed, o.log, snapshots)
    ensures o.Deliver(idx, m).outcome == if complete && m.thenStop then Finished(Some(Stop)) else o.outcome
  {
    var aligned := o.(taken := o.taken[idx := o.taken[idx] + 1]).(barriers := o.barriers[idx := o.barriers[idx] + 1]);
    assert forall j :: 0 <= j < n && j != idx ==> (aligned.Parked(j) <==> marks[j].Some?);
    assert aligned.Parked(idx);
    assert complete <==> forall j :: 0 <= j < n ==> aligned.Parked(j);
  }

  datatype ControlOutcome = Continue | Halt | Finish

  class EventLoop {
    const inPartitions: nat
    const counter: CheckpointCounter
    var closed: set<nat>
    var sel: set<nat>                // streams being polled
    var blocked: seq<nat>            // parked streams
    var finalMessage: Option<Message>
    var running: bool
    var log: seq<(nat, Message)>     // what the operator's state has absorbed
    var snapshots: seq<Snapshot>
    var broadcast: seq<Message>      // barriers and final message sent downstream
    ghost var model: Operator
    ghost var ended: set<nat>        // streams whose sender is gone

    /** Between two iterations of the loop. */
    ghost predicate Valid()
      reads this, counter
    {
      && Matches()
      && (running ==> Partitioned(model, sel, blocked, ended))
    }

    /** The loop's variables say what the model says. */
    ghost predicate Matches()
      reads this, counter
    {
      && counter.Valid() && Tracks(model, inPartitions, counter.inputs, closed, log, snapshots)
      && (running <==> model.outcome.Running?)
      && (!running ==> model.outcome == Finished(finalMessage))
    }

    constructor (partitions: nat)
      requires 0 < partitions
      ensures Valid() && running && inPartitions == partitions
      ensures model == Start(partitions) && broadcast == [] && ended == {}
      ensures fresh(counter)
    {
      inPartitions := partitions;
      counter := new CheckpointCounter(partitions);
      closed, blocked, log, snapshots, broadcast := {}, [], [], [], [];
      sel := {};
      finalMessage := None;
      running := true;
      model := Start(partitions);
      ended := {};
      new;
      for i := 0 to partitions
        invariant forall j :: j in sel <==> 0 <= j < i
        invariant Matches() && running && model == Start(partitions)
        invariant blocked == [] && broadcast == [] && ended == {} && fresh(counter)
      {
        sel := sel + {i};
      }
    }

    /** Barrier alignment and end-of-stream bookkeeping for everything but records. */
    method HandleControlMessage(idx: nat, m: Message) returns (r: ControlOutcome)
      requires Matches() && running && idx < inPartitions && !model.Parked(idx) && !m.Record?
      modifies this`closed, this`log, this`snapshots, this`broadcast, counter
      ensures counter.Valid() && Tracks(model.Deliver(idx, m), inPartitions, counter.inputs, closed, log, snapshots)
      ensures var o := model.Deliver(idx, m);
              && (r == Continue <==> o.outcome.Running?)
              && (r == Halt ==> o.outcome == Finished(Some(Stop)))
              && (r == Finish ==> o.outcome == Finished(Some(EndOfData)))
      ensures broadcast == old(broadcast) + if |snapshots| > |old(snapshots)| then [m] else []
    {
      hide Operator.Deliver;
      r := Continue;
      match m {
        case Barrier(epoch, thenStop) =>
          ghost var marks := counter.inputs;
          var complete := counter.Mark(idx, epoch);
          TracksBarrier(model, inPartitions, marks, idx, m, counter.inputs, complete);
          if complete {
            snapshots := snapshots + [Snapshot(epoch, thenStop, log)];
            broadcast := broadcast + [m];
            if thenStop {
              r := Halt;
            }
          }
        case Watermark(_) =>
          TracksLogged(model, inPartitions, counter.inputs, idx, m);
          log := log + [(idx, m)];
        case Stop =>
          TracksClosed(model, inPartitions, counter.inputs, idx, m);
          closed := closed + {idx};
          if |closed| == inPartitions {
            r := Halt;
          }
        case EndOfData =>
          TracksClosed(model, inPartitions, counter.inputs, idx, m);
          closed := closed + {idx};
          if |closed| == inPartitions {
            r := Finish;
          }
      }
    }

    /** Lets the operator take the message: a record is processed, anything else handled. */
    method Absorb(idx: nat, m: Message) returns (r: ControlOutcome)
      requires Matches() && running && idx < inPartitions && !model.Parked(idx)
      modifies this`closed, this`log, this`snapshots, this`broadcast, this`model, counter
      ensures model == old(model).Deliver(idx, m)
      ensures counter.Valid() && Tracks(model, inPartitions, counter.inputs, closed, log, snapshots)
      ensures && (r == Continue <==> model.outcome.Running?)
              && (r == Halt ==> model.outcome == Finished(Some(Stop)))
              && (r == Finish ==> model.outcome == Finished(Some(EndOfData)))
      ensures broadcast == old(broadcast) + if |snapshots| > |old(snapshots)| then [m] else []
    {
      hide Operator.Deliver;
      if m.Record? {
        TracksLogged(model, inPartitions, counter.inputs, idx, m);
        log := log + [(idx, m)];
        r := Continue;
      } else {
        r := HandleControlMessage(idx, m);
      }
      model := model.Deliver(idx, m);
    }

    /** The select arm for a polled stream that yielded a message. */
    method Receive(idx: nat, m: Message)
      requires Valid() && running && idx in sel
      modifies this`closed, this`log, this`snapshots, this`broadcast, counter
      modifies this`sel, this`blocked, this`finalMessage, this`running, this`model
      ensures Valid() && model == old(model).Deliver(idx, m)
      ensures |snapshots| > |old(snapshots)| && running ==> blocked == []
      ensures broadcast == old(broadcast) + if |snapshots| > |old(snapshots)| then [m] else []
    {
      Detach(model, idx, m, sel, blocked, ended);
      TracksFields(model, inPartitions, counter.inputs, closed, log, snapshots);
      assert idx < inPartitions;
      hide Operator.Deliver, Detached, Partitioned, Tracks;
      sel := sel - {idx};
      var r := Absorb(idx, m);
      TracksFields(model, inPartitions, counter.inputs, closed, log, snapshots);
      if r != Continue {
        finalMessage := Some(if r == Halt then Stop else EndOfData);
        running := false;
      } else {
        Requeue(idx);
      }
    }

    /** Puts the stream back: parked behind its barrier, or polled with everything released. */
    method Requeue(idx: nat)
      requires Matches() && running && Detached(model, idx, sel, blocked, ended)
      modifies this`sel, this`blocked
      ensures Valid()
      ensures NoneParked(model) ==> blocked == []
    {
      if counter.IsBlocked(idx) {
        blocked := blocked + [idx];
      } else {
        if counter.AllClear() && blocked != [] {
          while blocked != []
            invariant forall i, j :: 0 <= i < j < |blocked| ==> blocked[i] != blocked[j]
            invariant forall i :: i in blocked ==> 0 <= i < inPartitions && i !in ended && i != idx
            invariant forall i :: i in sel <==> 0 <= i < inPartitions && i != idx && i !in blocked && i !in ended
            decreases |blocked|
          {
            sel, blocked := sel + {blocked[0]}, blocked[1..];
          }
        }
        sel := sel + {idx};
      }
    }

    /** A polled stream whose sender is gone is dropped by the reader. */
    method Drop(idx: nat)
      requires Valid() && running && idx in sel
      modifies this`sel, this`ended
      ensures Valid() && model == old(model) && sel == old(sel) - {idx} && ended == old(ended) + {idx}
    {
      sel := sel - {idx};
      ended := ended + {idx};
    }

    /** The reader is empty: the loop breaks without a final message, whatever is parked. */
    method Complete()
      requires Valid() && running && sel == {}
      modifies this`running, this`finalMessage, this`model
      ensures Valid() && !running && finalMessage == None
    {
      running := false;
      finalMessage := None;
      model := model.(outcome := Finished(None));
    }

    /** Only streams that are used up have been dropped. */
    ghost predicate Reading(hs: seq<seq<Message>>)
      reads this
    {
      && |model.taken| == |hs|
      && (forall i :: 0 <= i < |hs| ==> model.taken[i] <= |hs[i]|)
      && (forall i :: i in ended ==> 0 <= i < |hs| && model.taken[i] == |hs[i]|)
    }

    /** One iteration that polls stream i, of which read messages have been taken. */
    method Poll(hs: seq<seq<Message>>, i: nat, read: nat) returns (took: bool)
      requires Valid() && |hs| == inPartitions && Reading(hs)
      requires i < inPartitions ==> read == model.taken[i]
      modifies this, counter
      ensures Valid() && Reading(hs) && model == Advance(old(model), hs, i)
      ensures took == Ready(old(model), hs, i)
    {
      took := false;
      AdvanceTaken(model, hs, i);
      if running && i in sel {
        if read < |hs[i]| {
          Receive(i, hs[i][read]);
          took := true;
        } else {
          Drop(i);
        }
      }
    }

    /** With nothing left to poll, every stream is parked or used up. */
    lemma NothingToPoll(hs: seq<seq<Message>>)
      requires Valid() && running && sel == {} && |hs| == inPartitions && Reading(hs)
      ensures Exhausted(model, hs)
    {
    }

    /**
     * The whole loop over given input histories, polled in the order of choices. It computes
     * the run of module Operators, and breaks silently only when that run is exhausted.
     */
    method Run(hs: seq<seq<Message>>, choices: seq<nat>)
      requires Valid() && running && |hs| == inPartitions
      requires model == Start(inPartitions) && ended == {}
      modifies this, counter
      ensures Valid()
      ensures snapshots == Feed(hs, choices).snapshots && log == Feed(hs, choices).log
      ensures Feed(hs, choices).outcome.Finished? ==> !running && finalMessage == Feed(hs, choices).outcome.final
      ensures Feed(hs, choices).outcome.Running? && !running ==>
                finalMessage == None && Exhausted(Feed(hs, choices), hs)
    {
      hide Feed, Advance, Ready, Exhausted, Operator.Deliver;
      var read := seq(inPartitions, _ => 0);
      NothingFed(hs);
      assert choices[..0] == [];
      for n := 0 to |choices|
        invariant Valid() && Reading(hs)
        invariant read == model.taken && model == Feed(hs, choices[..n])
      {
        var i := choices[n];
        FeedOne(hs, choices[..n], choices[n]);
        assert choices[..n + 1] == choices[..n] + [choices[n]];
        AdvanceTaken(model, hs, i);
        if Ready(model, hs, i) {
          ReadyInside(model, hs, i);
        }
        var took := Poll(hs, i, if i < inPartitions then read[i] else 0);
        if took {
          read := read[i := read[i] + 1];
        }
      }
      assert choices[..|choices|] == choices;
      if running && sel == {} {
        NothingToPoll(hs);
        Complete();
      }
    }

    /** After the loop: the final message, if one was chosen, is broadcast once. */
    method Shutdown()
      requires Valid() && !running
      modifies this`broadcast
      ensures Valid()
      ensures model.outcome == Finished(Some(Stop)) ==> broadcast == old(broadcast) + [Stop]
      ensures model.outcome == Finished(Some(EndOfData)) ==> broadcast == old(broadcast) + [EndOfData]
      ensures model.outcome == Finished(None) ==> broadcast == old(broadcast)
    {
      if finalMessage.Some? {
        broadcast := broadcast + [finalMessage.value];
      }
    }
  }
}
