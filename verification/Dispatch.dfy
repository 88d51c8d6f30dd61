// Which handler a two-sided operator gives a message to. The inputs of both sides are
// flattened into one sequence of streams, and the side is computed back from the index.
module Dispatch {
  import opened Messages

  /** The index of the handler; None is a panic: a division by zero, or no such handler. */
  function HandlerOf(left: nat, right: nat, idx: nat): Option<nat> {
    var perHandler := (left + right) / 2;
    if perHandler == 0 then None
    else if idx / perHandler < 2 then Some(idx / perHandler)
    else None
  }

  /** Every stream of the left side goes to the first handler and every other to the second. */
  ghost predicate DispatchIsRight(left: nat, right: nat) {
    forall idx: nat :: idx < left + right ==> HandlerOf(left, right, idx) == Some(if idx < left then 0 else 1)
  }

  lemma {:induction false} Quotient(idx: nat, d: nat)
    requires d > 0
    ensures idx / d == 0 <==> idx < d
    ensures idx / d == 1 <==> d <= idx < 2 * d
  {
    var q, r := idx / d, idx % d;
    assert idx == d * q + r;
    if q >= 2 {
      assert d * (q - 2) >= 0;
    }
  }

  /** Messages reach the handler of their side exactly if both sides have as many streams. */
  lemma {:induction false} DispatchIsRightIff(left: nat, right: nat)
    requires left + right > 0
    ensures DispatchIsRight(left, right) <==> left == right
  {
    var d := (left + right) / 2;
    if d > 0 {
      forall idx: nat | idx < left + right
        ensures HandlerOf(left, right, idx)
             == if idx < d then Some(0) else if idx < 2 * d then Some(1) else None
      {
        Quotient(idx, d);
      }
      if left < right {
        // the first stream of the right side past the middle, or the last one if the total is odd
        var idx: nat := if left < d then left else left + right - 1;
        assert HandlerOf(left, right, idx) != Some(1);
      } else if right < left {
        var idx: nat := left - 1;
        assert HandlerOf(left, right, idx) != Some(0);
      }
    } else {
      assert HandlerOf(left, right, 0) == None;
    }
  }

  /** Of 1 and 2 streams the last has no handler; of 1 and 3 the first of the right side goes to the left. */
  lemma {:induction false} DispatchExample()
    ensures HandlerOf(1, 2, 2) == None && HandlerOf(1, 3, 1) == Some(0)
    ensures !DispatchIsRight(1, 2) && !DispatchIsRight(1, 3)
  {
    DispatchIsRightIff(1, 2);
    DispatchIsRightIff(1, 3);
  }
}
