// Messages that travel between the subtasks of a pipeline, and the parts of a
// channel's history that the checkpoint protocol talks about.
module Messages {

  datatype Option<+T> = None | Some(value: T)

  /** What a channel carries. The payload of a record is opaque to the protocol. */
  datatype Message =
    | Record(payload: int)
    | Watermark(time: int)
    | Barrier(epoch: nat, thenStop: bool)
    | Stop
    | EndOfData
  {
    predicate IsData() {
      Record? || Watermark?
    }

    predicate IsEnd() {
      Stop? || EndOfData?
    }
  }

  /** The records and watermarks of a history, in order. */
  function DataOf(h: seq<Message>): seq<Message> {
    if h == [] then []
    else
      var last := h[|h| - 1];
      DataOf(h[..|h| - 1]) + if last.IsData() then [last] else []
  }

  function Barriers(h: seq<Message>): nat {
    if h == [] then 0
    else Barriers(h[..|h| - 1]) + if h[|h| - 1].Barrier? then 1 else 0
  }

  function Ends(h: seq<Message>): nat {
    if h == [] then 0
    else Ends(h[..|h| - 1]) + if h[|h| - 1].IsEnd() then 1 else 0
  }

  /** The records and watermarks ahead of the barrier number k (counting from 0). */
  function DataBefore(h: seq<Message>, k: nat): seq<Message> {
    if h == [] then []
    else
      var rest, last := h[..|h| - 1], h[|h| - 1];
      DataBefore(rest, k) + if last.IsData() && Barriers(rest) <= k then [last] else []
  }

  /** Every barrier in h carries the epoch that the schedule gives to its position. */
  ghost predicate InSchedule(h: seq<Message>, epochs: nat -> nat) {
    h == [] ||
    (InSchedule(h[..|h| - 1], epochs) &&
     (h[|h| - 1].Barrier? ==> h[|h| - 1].epoch == epochs(Barriers(h[..|h| - 1]))))
  }

  lemma AppendOne(h: seq<Message>, m: Message)
    ensures DataOf(h + [m]) == DataOf(h) + if m.IsData() then [m] else []
    ensures Barriers(h + [m]) == Barriers(h) + if m.Barrier? then 1 else 0
    ensures Ends(h + [m]) == Ends(h) + if m.IsEnd() then 1 else 0
  {
    assert (h + [m])[..|h|] == h;
  }

  lemma DataBeforeAppend(h: seq<Message>, m: Message, k: nat)
    ensures DataBefore(h + [m], k) == DataBefore(h, k) + if m.IsData() && Barriers(h) <= k then [m] else []
  {
    assert (h + [m])[..|h|] == h;
  }

  lemma ScheduleAppend(h: seq<Message>, m: Message, epochs: nat -> nat)
    ensures InSchedule(h + [m], epochs)
            <==> InSchedule(h, epochs) && (m.Barrier? ==> m.epoch == epochs(Barriers(h)))
  {
    assert (h + [m])[..|h|] == h;
  }

  /** Until barrier k has arrived, everything is ahead of it. */
  lemma {:induction false} DataBeforeOpen(h: seq<Message>, k: nat)
    requires Barriers(h) <= k
    ensures DataBefore(h, k) == DataOf(h)
  {
    if h != [] {
      DataBeforeOpen(h[..|h| - 1], k);
    }
  }

  /** Once barrier k is in a history, later messages do not change what is ahead of it. */
  lemma {:induction false} DataBeforeStable(h: seq<Message>, more: seq<Message>, k: nat)
    requires k < Barriers(h)
    ensures DataBefore(h + more, k) == DataBefore(h, k)
    ensures Barriers(h) <= Barriers(h + more)
    decreases |more|
  {
    if more == [] {
      assert h + more == h;
    } else {
      var front, last := more[..|more| - 1], more[|more| - 1];
      DataBeforeStable(h, front, k);
      assert h + more == (h + front) + [last];
      AppendOne(h + front, last);
      DataBeforeAppend(h + front, last, k);
    }
  }

  lemma {:induction false} AppendCounts(h: seq<Message>, more: seq<Message>)
    ensures Barriers(h + more) == Barriers(h) + Barriers(more)
    ensures Ends(h + more) == Ends(h) + Ends(more)
    ensures DataOf(h + more) == DataOf(h) + DataOf(more)
    decreases |more|
  {
    if more == [] {
      assert h + more == h;
    } else {
      var front, last := more[..|more| - 1], more[|more| - 1];
      AppendCounts(h, front);
      assert h + more == (h + front) + [last];
      AppendOne(h + front, last);
    }
  }

  /** A prefix holds at most as many barriers and ends as the whole. */
  lemma PrefixCounts(h: seq<Message>, t: nat)
    requires t <= |h|
    ensures Barriers(h[..t]) <= Barriers(h)
    ensures Ends(h[..t]) <= Ends(h)
  {
    assert h == h[..t] + h[t..];
    AppendCounts(h[..t], h[t..]);
  }
}
