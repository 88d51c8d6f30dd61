// The bound that a filter puts on a column: what the top-N rewrite reads off the filter that
// follows a row number, with the wrap-around of unsigned 64-bit arithmetic.
module MaxValue {
  import opened Messages
  import opened Expressions

  const U64: int := 0x1_0000_0000_0000_0000

  predicate IsU64(i: int) {
    0 <= i < U64
  }

  /** Addition and subtraction wrap around, as they do in a release build. */
  function Wrapped(i: int): int {
    if i < 0 then i + U64 else if i >= U64 then i - U64 else i
  }

  /** The bound that one comparison of the field with a literal gives. */
  function LeafBound(op: CompareOp, fieldOnLeft: bool, literal: int): Option<int> {
    if fieldOnLeft then
      match op
      case Lt => Some(Wrapped(literal - 1))
      case LtEq => Some(literal)
      case Eq => Some(literal)
      case _ => None
    else
      match op
      case Gt => Some(Wrapped(literal + 1))
      case GtEq => Some(literal)
      case Eq => Some(literal)
      case _ => None
  }

  /** An unsigned 64-bit literal. */
  predicate IsLiteral(e: Expr) {
    e.Literal? && e.base.TInt? && e.scalar.VInt? && IsU64(e.scalar.i)
  }

  predicate IsField(e: Expr, field: nat) {
    e.Column? && e.index == field
  }

  /** has_max_value: an upper bound for the field on the rows that pass the filter. */
  function HasMaxValue(e: Expr, field: nat): Option<int> {
    if !e.Compare? then None
    else
      var l, r := HasMaxValue(e.left, field), HasMaxValue(e.right, field);
      if e.cmp.And? && l.Some? && r.Some? then Some(if l.value <= r.value then l.value else r.value)
      else if e.cmp.And? && l.Some? then l
      else if e.cmp.And? && r.Some? then r
      else if e.cmp.Or? && l.Some? && r.Some? then Some(if l.value >= r.value then l.value else r.value)
      else if IsField(e.left, field) && IsLiteral(e.right) then LeafBound(e.cmp, true, e.right.scalar.i)
      else if IsLiteral(e.left) && IsField(e.right, field) then LeafBound(e.cmp, false, e.left.scalar.i)
      else None
  }

  /** No comparison says that the field is less than the greatest literal, with the literal on the left. */
  predicate NoWrap(e: Expr, field: nat) {
    if !e.Compare? then true
    else
      && NoWrap(e.left, field) && NoWrap(e.right, field)
      && !(IsLiteral(e.left) && IsField(e.right, field) && e.cmp.Gt? && e.left.scalar.i == U64 - 1)
  }

  /** A comparison of the field with a literal bounds the field, on every value of the field. */
  ghost predicate LeafIsSound(op: CompareOp, fieldOnLeft: bool, literal: int) {
    forall v: int ::
      IsU64(v) && LeafBound(op, fieldOnLeft, literal).Some?
      && Compared(op, if fieldOnLeft then VInt(v) else VInt(literal), if fieldOnLeft then VInt(literal) else VInt(v))
      ==> v <= LeafBound(op, fieldOnLeft, literal).value
  }

  /** The bound of a comparison is right unless it is literal > field with the greatest literal. */
  lemma {:induction false} LeafIsSoundIff(op: CompareOp, fieldOnLeft: bool, literal: int)
    requires IsU64(literal)
    ensures LeafIsSound(op, fieldOnLeft, literal) <==> !(op.Gt? && !fieldOnLeft && literal == U64 - 1)
  {
    if op.Gt? && !fieldOnLeft && literal == U64 - 1 {
      assert Compared(op, VInt(literal), VInt(1));
      assert IsU64(1) && LeafBound(op, fieldOnLeft, literal) == Some(0);
    }
  }

  /** The value v of the field passes the comparison. */
  predicate Passes(op: CompareOp, fieldOnLeft: bool, literal: int, v: int) {
    if fieldOnLeft then Compared(op, VInt(v), VInt(literal)) else Compared(op, VInt(literal), VInt(v))
  }

  predicate Ordering(op: CompareOp) {
    op.Eq? || op.NotEq? || op.Lt? || op.LtEq? || op.Gt? || op.GtEq?
  }

  /** Of the orderings, exactly those give a bound that never let a value above the literal pass. */
  lemma {:induction false} BoundsIff(op: CompareOp, fieldOnLeft: bool, literal: int)
    requires Ordering(op)
    ensures LeafBound(op, fieldOnLeft, literal).Some? <==>
              forall v: int, l: int :: Passes(op, fieldOnLeft, l, v) ==> v <= l
  {
    if LeafBound(op, fieldOnLeft, literal).None? {
      assert Passes(op, fieldOnLeft, 0, 1);
    }
  }

  /**
   * Whenever any value passes, the bound is the greatest that does, except for literal > field,
   * where it is two more, or has wrapped.
   */
  lemma {:induction false} BoundIsLeast(op: CompareOp, fieldOnLeft: bool, literal: int, v: int)
    requires IsU64(literal) && IsU64(v) && LeafBound(op, fieldOnLeft, literal).Some? && Passes(op, fieldOnLeft, literal, v)
    ensures var bound := LeafBound(op, fieldOnLeft, literal).value;
            if op.Gt? then
              Passes(op, fieldOnLeft, literal, literal - 1) && bound == (if literal == U64 - 1 then 0 else literal + 1)
            else IsU64(bound) && Passes(op, fieldOnLeft, literal, bound)
  {
  }

  /** A conjunction is bounded if a part is, by the smaller bound; a disjunction if both are, by the larger. */
  lemma {:induction false} BoundOfParts(left: Expr, right: Expr, field: nat, op: CompareOp)
    requires op.And? || op.Or?
    ensures var l, r, b := HasMaxValue(left, field), HasMaxValue(right, field), HasMaxValue(Compare(left, op, right), field);
            && (op.And? ==> (b.Some? <==> l.Some? || r.Some?))
            && (op.Or? ==> (b.Some? <==> l.Some? && r.Some?))
            && (b.Some? ==> b == l || b == r)
            && (b.Some? && op.And? ==> (l.Some? ==> b.value <= l.value) && (r.Some? ==> b.value <= r.value))
            && (b.Some? && op.Or? ==> b.value >= l.value && b.value >= r.value)
  {
  }

  /** Row 1 passes a filter whose bound has wrapped to 0. */
  lemma {:induction false} WrapCounterexample(p: Prims, s: Schema, row: seq<Val>)
    requires row == [VInt(1)]
    ensures var e := Compare(Literal(TInt, VInt(U64 - 1)), Gt, Column(0));
            Eval(p, s, e, row) == Value(VBool(true)) && HasMaxValue(e, 0) == Some(0)
  {
    var e := Compare(Literal(TInt, VInt(U64 - 1)), Gt, Column(0));
    assert Eval(p, s, e.left, row) == Value(VInt(U64 - 1));
    assert Eval(p, s, e.right, row) == Value(VInt(1));
    assert HasMaxValue(e.left, 0) == None && HasMaxValue(e.right, 0) == None;
  }

  /** The truth of a conjunction or disjunction, null-strict. */
  lemma {:induction false} TrueParts(p: Prims, s: Schema, e: Expr, row: seq<Val>)
    requires e.Compare? && Eval(p, s, e, row) == Value(VBool(true)) && (e.cmp.And? || e.cmp.Or?)
    ensures e.cmp.And? ==> Eval(p, s, e.left, row) == Value(VBool(true)) && Eval(p, s, e.right, row) == Value(VBool(true))
    ensures e.cmp.Or? ==> Eval(p, s, e.left, row) == Value(VBool(true)) || Eval(p, s, e.right, row) == Value(VBool(true))
  {
    assert Eval(p, s, e.left, row).Value? && Eval(p, s, e.right, row).Value?;
  }

  /** Every row that passes the filter has at most the bound in the field. */
  lemma {:induction false} MaxValueIsSound(p: Prims, s: Schema, e: Expr, field: nat, row: seq<Val>, v: int)
    requires Eval(p, s, e, row) == Value(VBool(true))
    requires field < |row| && row[field] == VInt(v) && IsU64(v)
    requires NoWrap(e, field) && HasMaxValue(e, field).Some?
    ensures v <= HasMaxValue(e, field).value
    decreases e
  {
    var l, r := HasMaxValue(e.left, field), HasMaxValue(e.right, field);
    if e.cmp.And? && (l.Some? || r.Some?) {
      TrueParts(p, s, e, row);
      if l.Some? {
        MaxValueIsSound(p, s, e.left, field, row, v);
      }
      if r.Some? {
        MaxValueIsSound(p, s, e.right, field, row, v);
      }
    } else if e.cmp.Or? && l.Some? && r.Some? {
      TrueParts(p, s, e, row);
      if Eval(p, s, e.left, row) == Value(VBool(true)) {
        MaxValueIsSound(p, s, e.left, field, row, v);
      } else {
        MaxValueIsSound(p, s, e.right, field, row, v);
      }
    } else if IsField(e.left, field) && IsLiteral(e.right) {
      assert Eval(p, s, e.left, row) == Value(VInt(v)) && Eval(p, s, e.right, row) == Value(e.right.scalar);
      LeafIsSoundIff(e.cmp, true, e.right.scalar.i);
    } else {
      assert Eval(p, s, e.left, row) == Value(e.left.scalar) && Eval(p, s, e.right, row) == Value(VInt(v));
      LeafIsSoundIff(e.cmp, false, e.left.scalar.i);
    }
  }
}
