// Fusing a chain of expression operators into one: a three-state builder emits statements
// that carry the current record, or the value of a predicate over it, from node to node.
module Fusion {
  import opened Messages

  datatype ReturnType = Predicate | RecordType | OptionalRecord

  /** An expression operator: what its expression computes from a record. */
  datatype Stage<!R> =
    | Filter(name: string, keep: R -> bool)
    | Map(name: string, map_: R -> R)
    | OptionMap(name: string, optionMap: R -> Option<R>)

  /** What one operator sends on for one record. */
  function Through<R>(s: Stage<R>, r: R): Option<R> {
    match s
    case Filter(_, keep) => if keep(r) then Some(r) else None
    case Map(_, f) => Some(f(r))
    case OptionMap(_, f) => f(r)
  }

  /** What the chain sends on for one record when its operators run one after the other. */
  function Sequential<R>(chain: seq<Stage<R>>, r: R): Option<R> {
    if chain == [] then Some(r)
    else
      match Sequential(chain[..|chain| - 1], r)
      case Some(x) => Through(chain[|chain| - 1], x)
      case None => None
  }

  // ---------- fused bodies ----------

  datatype Stmt<!R> =
    | LetPredicate(test: R -> bool)       // let predicate = e;
    | LetPredicateIf(test: R -> bool)     // let predicate = if predicate && (e);
    | ReturnUnlessPredicate               // if !predicate { return None; }
    | ReturnUnless(test: R -> bool)       // if !(e) { return None; }
    | LetRecord(map_: R -> R)             // let record = e;
    | LetRecordTry(optionMap: R -> Option<R>)  // let record = (e)?;

  /** An if without a block is not an expression. */
  predicate Parses<R>(body: seq<Stmt<R>>) {
    forall k :: 0 <= k < |body| ==> !body[k].LetPredicateIf?
  }

  /** The bindings of a body under execution. */
  datatype Frame<R> = Frame(record: R, predicate_: Option<bool>) | ReturnedNone | Unbound

  function ExecOne<R>(s: Stmt<R>, f: Frame<R>): Frame<R> {
    if !f.Frame? then f
    else
      match s
      case LetPredicate(e) => Frame(f.record, Some(e(f.record)))
      case LetPredicateIf(_) => Unbound
      case ReturnUnlessPredicate =>
        if f.predicate_.None? then Unbound else if f.predicate_.value then f else ReturnedNone
      case ReturnUnless(e) => if e(f.record) then f else ReturnedNone
      case LetRecord(e) => Frame(e(f.record), f.predicate_)
      case LetRecordTry(e) =>
        (match e(f.record)
         case Some(x) => Frame(x, f.predicate_)
         case None => ReturnedNone)
  }

  function Exec<R>(body: seq<Stmt<R>>, f: Frame<R>): Frame<R> {
    if body == [] then f else ExecOne(body[|body| - 1], Exec(body[..|body| - 1], f))
  }

  datatype Fused<!R> = Fused(names: seq<string>, body: seq<Stmt<R>>, returnType: ReturnType)

  /** What the operator made from a fused body sends on; Stuck if the body does not compile. */
  datatype Sent<R> = Sent(value: Option<R>) | Stuck

  function RunFused<R>(op: Fused<R>, r: R): Sent<R> {
    match Exec(op.body, Frame(r, None))
    case Unbound => Stuck
    case ReturnedNone => if op.returnType.OptionalRecord? then Sent(None) else Stuck
    case Frame(record, predicate_) =>
      match op.returnType
      case Predicate =>
        if predicate_.None? then Stuck else Sent(if predicate_.value then Some(r) else None)
      case RecordType => Sent(Some(record))
      case OptionalRecord => Sent(Some(record))
  }

  // ---------- what the builder keeps ----------

  predicate AllFilters<R>(chain: seq<Stage<R>>) {
    forall k :: 0 <= k < |chain| ==> chain[k].Filter?
  }

  predicate AllMaps<R>(chain: seq<Stage<R>>) {
    forall k :: 0 <= k < |chain| ==> chain[k].Map?
  }

  /** The chains on which the builder emits the ill-formed statement. */
  predicate StartsWithTwoFilters<R>(chain: seq<Stage<R>>) {
    |chain| >= 2 && chain[0].Filter? && chain[1].Filter?
  }

  predicate TypeIsRight<R>(chain: seq<Stage<R>>, t: Option<ReturnType>) {
    && (t.None? <==> chain == [])
    && (t == Some(Predicate) <==> chain != [] && AllFilters(chain))
    && (t == Some(RecordType) <==> chain != [] && AllMaps(chain))
  }

  /** The frame after the body built for chain, started on r. */
  predicate FrameIsRight<R(==)>(chain: seq<Stage<R>>, t: Option<ReturnType>, r: R, f: Frame<R>) {
    match t
    case None => f == Frame(r, None)
    case Some(Predicate) => f.Frame? && f.record == r && f.predicate_ == Some(Sequential(chain, r).Some?)
    case Some(RecordType) => f.Frame? && Sequential(chain, r) == Some(f.record)
    case Some(OptionalRecord) =>
      if Sequential(chain, r).None? then f.ReturnedNone? else f.Frame? && Sequential(chain, r) == Some(f.record)
  }

  /** While the chain holds only filters, what comes through is the record itself. */
  lemma {:induction false} FiltersPassUnchanged<R>(chain: seq<Stage<R>>, r: R)
    requires AllFilters(chain)
    ensures Sequential(chain, r).Some? ==> Sequential(chain, r).value == r
    decreases |chain|
  {
    if chain != [] {
      FiltersPassUnchanged(chain[..|chain| - 1], r);
    }
  }

  lemma {:induction false} SequentialAppend<R>(chain: seq<Stage<R>>, s: Stage<R>, r: R)
    ensures Sequential(chain + [s], r) == match Sequential(chain, r) case Some(x) => Through(s, x) case None => None
  {
    assert (chain + [s])[..|chain|] == chain;
  }

  lemma {:induction false} ExecAppend<R>(body: seq<Stmt<R>>, s: Stmt<R>, f: Frame<R>)
    ensures Exec(body + [s], f) == ExecOne(s, Exec(body, f))
  {
    assert (body + [s])[..|body|] == body;
  }

  lemma {:induction false} TypeAppend<R>(chain: seq<Stage<R>>, s: Stage<R>)
    ensures AllFilters(chain + [s]) <==> AllFilters(chain) && s.Filter?
    ensures AllMaps(chain + [s]) <==> AllMaps(chain) && s.Map?
  {
    assert (chain + [s])[|chain|] == s;
    assert forall k :: 0 <= k < |chain| ==> (chain + [s])[k] == chain[k];
  }

  /** The body built for chain parses unless chain starts with two filters, and then runs as chain does. */
  ghost predicate BodyIsRight<R(!new)>(chain: seq<Stage<R>>, t: Option<ReturnType>, body: seq<Stmt<R>>) {
    && (Parses(body) <==> !StartsWithTwoFilters(chain))
    && (Parses(body) ==> forall r :: FrameIsRight(chain, t, r, Exec(body, Frame(r, None))))
  }

  ghost predicate NamesAreRight<R>(chain: seq<Stage<R>>, names: seq<string>) {
    |names| == |chain| && forall k :: 0 <= k < |chain| ==> names[k] == chain[k].name
  }

  lemma {:induction false} ParsesAppend<R>(body: seq<Stmt<R>>, s: Stmt<R>)
    ensures Parses(body + [s]) <==> Parses(body) && !s.LetPredicateIf?
  {
    assert (body + [s])[|body|] == s;
    assert forall k :: 0 <= k < |body| ==> (body + [s])[k] == body[k];
  }

  lemma {:induction false} StartAppend<R>(chain: seq<Stage<R>>, s: Stage<R>)
    ensures StartsWithTwoFilters(chain + [s])
       <==> StartsWithTwoFilters(chain) || (|chain| == 1 && chain[0].Filter? && s.Filter?)
  {
  }

  /** One more stage whose code is a single statement over the current record. */
  lemma {:induction false} PlainStep<R(!new)>(chain: seq<Stage<R>>, t: Option<ReturnType>, body: seq<Stmt<R>>,
                                              s: Stage<R>, stmt: Stmt<R>, t': ReturnType)
    requires TypeIsRight(chain, t) && BodyIsRight(chain, t, body)
    requires if t.None? then
               match s
               case Filter(_, e) => stmt == LetPredicate(e) && t' == Predicate
               case Map(_, e) => stmt == LetRecord(e) && t' == RecordType
               case OptionMap(_, e) => stmt == LetRecordTry(e) && t' == OptionalRecord
             else
               && t != Some(Predicate)
               && match s
                  case Filter(_, e) => stmt == ReturnUnless(e) && t' == OptionalRecord
                  case Map(_, e) => stmt == LetRecord(e) && t' == t.value
                  case OptionMap(_, e) => stmt == LetRecordTry(e) && t' == OptionalRecord
    ensures TypeIsRight(chain + [s], Some(t')) && BodyIsRight(chain + [s], Some(t'), body + [stmt])
  {
    TypeAppend(chain, s);
    ParsesAppend(body, stmt);
    StartAppend(chain, s);
    assert t.Some? ==> !AllFilters(chain);
    hide Sequential, Exec, ExecOne, FrameIsRight, Parses;
    forall r | Parses(body)
      ensures FrameIsRight(chain + [s], Some(t'), r, Exec(body + [stmt], Frame(r, None)))
    {
      ExecAppend(body, stmt, Frame(r, None));
      PlainFrame(chain, t, s, stmt, t', r, Exec(body, Frame(r, None)));
    }
  }

  /** The frame after that statement. */
  lemma {:induction false} PlainFrame<R(!new)>(chain: seq<Stage<R>>, t: Option<ReturnType>, s: Stage<R>, stmt: Stmt<R>,
                                               t': ReturnType,
                                               r: R, f: Frame<R>)
    requires TypeIsRight(chain, t) && FrameIsRight(chain, t, r, f)
    requires if t.None? then
               match s
               case Filter(_, e) => stmt == LetPredicate(e) && t' == Predicate
               case Map(_, e) => stmt == LetRecord(e) && t' == RecordType
               case OptionMap(_, e) => stmt == LetRecordTry(e) && t' == OptionalRecord
             else
               && t != Some(Predicate)
               && match s
                  case Filter(_, e) => stmt == ReturnUnless(e) && t' == OptionalRecord
                  case Map(_, e) => stmt == LetRecord(e) && t' == t.value
                  case OptionMap(_, e) => stmt == LetRecordTry(e) && t' == OptionalRecord
    ensures FrameIsRight(chain + [s], Some(t'), r, ExecOne(stmt, f))
  {
    SequentialAppend(chain, s, r);
    if t.None? {
      assert chain == [] && Sequential(chain, r) == Some(r);
    }
    hide Sequential, AllFilters, AllMaps;
  }

  /** A stage that makes records, after nothing but predicates. */
  lemma {:induction false} RecordStep<R(!new)>(chain: seq<Stage<R>>, body: seq<Stmt<R>>, s: Stage<R>, stmt: Stmt<R>)
    requires TypeIsRight(chain, Some(Predicate)) && BodyIsRight(chain, Some(Predicate), body)
    requires match s
             case Filter(_, _) => false
             case Map(_, e) => stmt == LetRecord(e)
             case OptionMap(_, e) => stmt == LetRecordTry(e)
    ensures TypeIsRight(chain + [s], Some(OptionalRecord))
    ensures BodyIsRight(chain + [s], Some(OptionalRecord), body + [ReturnUnlessPredicate] + [stmt])
  {
    TypeAppend(chain, s);
    ParsesAppend(body, ReturnUnlessPredicate);
    ParsesAppend(body + [ReturnUnlessPredicate], stmt);
    StartAppend(chain, s);
    assert chain[0].Filter?;
    forall r | Parses(body)
      ensures FrameIsRight(chain + [s], Some(OptionalRecord), r,
                           Exec(body + [ReturnUnlessPredicate] + [stmt], Frame(r, None)))
    {
      SequentialAppend(chain, s, r);
      FiltersPassUnchanged(chain, r);
      ExecAppend(body, ReturnUnlessPredicate, Frame(r, None));
      ExecAppend(body + [ReturnUnlessPredicate], stmt, Frame(r, None));
      assert FrameIsRight(chain, Some(Predicate), r, Exec(body, Frame(r, None)));
    }
  }

  /** A predicate after a predicate: the chain starts with two, and the body cannot be parsed. */
  lemma {:induction false} SecondPredicate<R(!new)>(chain: seq<Stage<R>>, body: seq<Stmt<R>>, s: Stage<R>, e: R -> bool)
    requires TypeIsRight(chain, Some(Predicate)) && BodyIsRight(chain, Some(Predicate), body) && s.Filter?
    ensures TypeIsRight(chain + [s], Some(Predicate))
    ensures BodyIsRight(chain + [s], Some(Predicate), body + [LetPredicateIf(e)])
    ensures !Parses(body + [LetPredicateIf(e)])
  {
    TypeAppend(chain, s);
    ParsesAppend(body, LetPredicateIf(e));
    StartAppend(chain, s);
    assert chain[0].Filter?;
    assert |chain| >= 2 ==> chain[1].Filter?;
  }

  // ---------- the builder as a value ----------

  /** The statements emitted, the names of the nodes, and the return type so far. */
  datatype Building<!R> = Building(body: seq<Stmt<R>>, names: seq<string>, returnType: Option<ReturnType>)

  /** The state that represents a chain of nodes. */
  ghost predicate Represents<R(!new)>(b: Building<R>, chain: seq<Stage<R>>) {
    && TypeIsRight(chain, b.returnType)
    && NamesAreRight(chain, b.names)
    && BodyIsRight(chain, b.returnType, b.body)
  }

  /** The state after one more node. */
  function AddStage<R>(b: Building<R>, s: Stage<R>): Building<R> {
    var names := b.names + [s.name];
    match (s, b.returnType)
    case (Filter(_, e), None) => Building(b.body + [LetPredicate(e)], names, Some(Predicate))
    case (Filter(_, e), Some(Predicate)) => Building(b.body + [LetPredicateIf(e)], names, Some(Predicate))
    case (Filter(_, e), Some(_)) => Building(b.body + [ReturnUnless(e)], names, Some(OptionalRecord))
    case (Map(_, e), None) => Building(b.body + [LetRecord(e)], names, Some(RecordType))
    case (Map(_, e), Some(Predicate)) => Building(b.body + [ReturnUnlessPredicate] + [LetRecord(e)], names, Some(OptionalRecord))
    case (Map(_, e), Some(t)) => Building(b.body + [LetRecord(e)], names, Some(t))
    case (OptionMap(_, e), Some(Predicate)) =>
      Building(b.body + [ReturnUnlessPredicate] + [LetRecordTry(e)], names, Some(OptionalRecord))
    case (OptionMap(_, e), _) => Building(b.body + [LetRecordTry(e)], names, Some(OptionalRecord))
  }

  /** The state after the nodes of a chain. */
  function Build<R>(chain: seq<Stage<R>>): Building<R> {
    if chain == [] then Building([], [], None) else AddStage(Build(chain[..|chain| - 1]), chain[|chain| - 1])
  }

  /** The operator; None is a panic: the assembled text does not parse. */
  function Finish<R>(b: Building<R>): Option<Fused<R>> {
    if b.returnType.None? || exists k :: 0 <= k < |b.body| && b.body[k].LetPredicateIf? then None
    else Some(Fused(b.names, b.body, b.returnType.value))
  }

  /** One more node: the state represents the longer chain. */
  lemma {:induction false} AddStageRepresents<R(!new)>(b: Building<R>, chain: seq<Stage<R>>, s: Stage<R>)
    requires Represents(b, chain)
    ensures Represents(AddStage(b, s), chain + [s])
  {
    hide TypeIsRight, BodyIsRight;
    match (s, b.returnType) {
      case (Filter(_, e), None) => PlainStep(chain, None, b.body, s, LetPredicate(e), Predicate);
      case (Filter(_, e), Some(Predicate)) => SecondPredicate(chain, b.body, s, e);
      case (Filter(_, e), Some(_)) => PlainStep(chain, b.returnType, b.body, s, ReturnUnless(e), OptionalRecord);
      case (Map(_, e), None) => PlainStep(chain, None, b.body, s, LetRecord(e), RecordType);
      case (Map(_, e), Some(Predicate)) => RecordStep(chain, b.body, s, LetRecord(e));
      case (Map(_, e), Some(t)) => PlainStep(chain, b.returnType, b.body, s, LetRecord(e), t);
      case (OptionMap(_, e), Some(Predicate)) => RecordStep(chain, b.body, s, LetRecordTry(e));
      case (OptionMap(_, e), _) => PlainStep(chain, b.returnType, b.body, s, LetRecordTry(e), OptionalRecord);
    }
  }

  lemma {:induction false} BuildRepresents<R(!new)>(chain: seq<Stage<R>>)
    ensures Represents(Build(chain), chain)
  {
    if chain != [] {
      BuildRepresents(chain[..|chain| - 1]);
      AddStageRepresents(Build(chain[..|chain| - 1]), chain[..|chain| - 1], chain[|chain| - 1]);
      assert chain == chain[..|chain| - 1] + [chain[|chain| - 1]];
    }
  }

  /** The operator of a state that represents a chain: none exactly if the chain starts with two filters. */
  lemma {:induction false} FinishIsRight<R(!new)>(b: Building<R>, chain: seq<Stage<R>>)
    requires Represents(b, chain) && chain != []
    ensures Finish(b).None? <==> StartsWithTwoFilters(chain)
    ensures Finish(b).Some? ==> FusesRight(chain, Finish(b).value)
  {
    if Finish(b).Some? {
      var op := Finish(b).value;
      forall r
        ensures RunFused(op, r) == Sent(Sequential(chain, r))
      {
        assert FrameIsRight(chain, b.returnType, r, Exec(b.body, Frame(r, None)));
        if b.returnType == Some(Predicate) {
          FiltersPassUnchanged(chain, r);
        }
      }
    }
  }

  class FusedExpressionOperatorBuilder<R(!new)> {
    var body: seq<Stmt<R>>
    var names: seq<string>
    var currentReturnType: Option<ReturnType>

    function View(): Building<R>
      reads this
    {
      Building(body, names, currentReturnType)
    }

    constructor ()
      ensures View() == Build([]) && Represents(View(), [])
    {
      body, names, currentReturnType := [], [], None;
    }

    method FuseNode(node: Stage<R>, ghost chain: seq<Stage<R>>)
      requires Represents(View(), chain)
      modifies this
      ensures View() == AddStage(old(View()), node) && Represents(View(), chain + [node])
    {
      match node
      case Filter(name, keep) => FusePredicate(name, keep, chain);
      case Map(name, f) => FuseMap(name, f, chain);
      case OptionMap(name, f) => FuseOptionMap(name, f, chain);
    }

    method FusePredicate(name: string, keep: R -> bool, ghost chain: seq<Stage<R>>)
      requires Represents(View(), chain)
      modifies this
      ensures View() == AddStage(old(View()), Filter(name, keep)) && Represents(View(), chain + [Filter(name, keep)])
    {
      hide Represents;
      AddStageRepresents(View(), chain, Filter(name, keep));
      names := names + [name];
      match currentReturnType
      case None =>
        body := body + [LetPredicate(keep)];
        currentReturnType := Some(Predicate);
      case Some(Predicate) =>
        body := body + [LetPredicateIf(keep)];
      case Some(_) =>
        body := body + [ReturnUnless(keep)];
        currentReturnType := Some(OptionalRecord);
    }

    method FuseMap(name: string, f: R -> R, ghost chain: seq<Stage<R>>)
      requires Represents(View(), chain)
      modifies this
      ensures View() == AddStage(old(View()), Map(name, f)) && Represents(View(), chain + [Map(name, f)])
    {
      hide Represents;
      AddStageRepresents(View(), chain, Map(name, f));
      names := names + [name];
      match currentReturnType
      case None =>
        body := body + [LetRecord(f)];
        currentReturnType := Some(RecordType);
      case Some(Predicate) =>
        body := body + [ReturnUnlessPredicate] + [LetRecord(f)];
        currentReturnType := Some(OptionalRecord);
      case Some(RecordType) =>
        body := body + [LetRecord(f)];
      case Some(OptionalRecord) =>
        body := body + [LetRecord(f)];
        currentReturnType := Some(OptionalRecord);
    }

    method FuseOptionMap(name: string, f: R -> Option<R>, ghost chain: seq<Stage<R>>)
      requires Represents(View(), chain)
      modifies this
      ensures View() == AddStage(old(View()), OptionMap(name, f)) && Represents(View(), chain + [OptionMap(name, f)])
    {
      hide Represents;
      AddStageRepresents(View(), chain, OptionMap(name, f));
      names := names + [name];
      match currentReturnType
      case Some(Predicate) =>
        body := body + [ReturnUnlessPredicate] + [LetRecordTry(f)];
        currentReturnType := Some(OptionalRecord);
      case _ =>
        body := body + [LetRecordTry(f)];
        currentReturnType := Some(OptionalRecord);
    }

    /** None is a panic: the assembled text does not parse. */
    method GetOperator(ghost chain: seq<Stage<R>>) returns (op: Option<Fused<R>>)
      requires Represents(View(), chain) && chain != []
      ensures op == Finish(View())
      ensures op.None? <==> StartsWithTwoFilters(chain)
      ensures op.Some? ==> FusesRight(chain, op.value)
    {
      FinishIsRight(View(), chain);
      var bad := exists k :: 0 <= k < |body| && body[k].LetPredicateIf?;
      if bad {
        op := None;
      } else {
        op := Some(Fused(names, body, currentReturnType.value));
      }
    }
  }

  /** The fused operator sends on, for every record, what the chain would. */
  ghost predicate FusesRight<R(!new)>(chain: seq<Stage<R>>, op: Fused<R>) {
    && TypeIsRight(chain, Some(op.returnType))
    && NamesAreRight(chain, op.names)
    && forall r :: RunFused(op, r) == Sent(Sequential(chain, r))
  }

  /**
   * Fusing a whole chain: it panics exactly on the chains that start with two predicates;
   * otherwise the fused operator does what the chain does, record by record.
   */
  method TryOptimize<R(!new)>(chain: seq<Stage<R>>) returns (op: Option<Fused<R>>)
    requires chain != []
    ensures op == Finish(Build(chain))
    ensures op.None? <==> StartsWithTwoFilters(chain)
    ensures op.Some? ==> FusesRight(chain, op.value)
  {
    hide Represents, AddStage, FusesRight, Finish;
    var builder := new FusedExpressionOperatorBuilder();
    var i := 0;
    assert chain[..0] == [];
    while i < |chain|
      invariant 0 <= i <= |chain|
      invariant fresh(builder) && builder.View() == Build(chain[..i]) && Represents(builder.View(), chain[..i])
    {
      builder.FuseNode(chain[i], chain[..i]);
      BuildNext(chain, i);
      i := i + 1;
    }
    assert chain[..|chain|] == chain;
    op := builder.GetOperator(chain);
  }

  lemma {:induction false} BuildNext<R>(chain: seq<Stage<R>>, i: nat)
    requires i < |chain|
    ensures chain[..i] + [chain[i]] == chain[..i + 1]
    ensures Build(chain[..i + 1]) == AddStage(Build(chain[..i]), chain[i])
  {
    var c := chain[..i + 1];
    assert c[..|c| - 1] == chain[..i] && c[|c| - 1] == chain[i];
  }

  /** Two filters in a row, positive and even: the fused text does not parse. */
  method TwoFilters() returns (op: Option<Fused<int>>)
    ensures op == None
  {
    op := TryOptimize([Filter("positive", r => r > 0), Filter("even", r => r % 2 == 0)]);
  }

  // ---------- streams ----------

  /** What an operator that sends on at most one record per record makes of a stream. */
  function Emitted<R>(f: R -> Option<R>, rs: seq<R>): seq<R> {
    if rs == [] then []
    else
      Emitted(f, rs[..|rs| - 1]) + (match f(rs[|rs| - 1]) case Some(x) => [x] case None => [])
  }

  /** The chain on a stream: each operator reads what the one before it sent. */
  function ChainEmitted<R>(chain: seq<Stage<R>>, rs: seq<R>): seq<R> {
    if chain == [] then rs
    else Emitted(r => Through(chain[|chain| - 1], r), ChainEmitted(chain[..|chain| - 1], rs))
  }

  lemma {:induction false} EmittedAppend<R>(f: R -> Option<R>, rs: seq<R>, x: R)
    ensures Emitted(f, rs + [x]) == Emitted(f, rs) + (match f(x) case Some(y) => [y] case None => [])
  {
    assert (rs + [x])[..|rs|] == rs;
  }

  lemma {:induction false} EmittedCompose<R>(f: R -> Option<R>, g: R -> Option<R>, h: R -> Option<R>, rs: seq<R>)
    requires forall r <- rs :: h(r) == match f(r) case Some(x) => g(x) case None => None
    ensures Emitted(h, rs) == Emitted(g, Emitted(f, rs))
    decreases |rs|
  {
    if rs != [] {
      var front, last := rs[..|rs| - 1], rs[|rs| - 1];
      EmittedCompose(f, g, h, front);
      assert last in rs;
      match f(last)
      case Some(y) => EmittedAppend(g, Emitted(f, front), y);
      case None => assert Emitted(f, rs) == Emitted(f, front);
    }
  }

  lemma {:induction false} EmittedAll<R>(h: R -> Option<R>, rs: seq<R>)
    requires forall r <- rs :: h(r) == Some(r)
    ensures Emitted(h, rs) == rs
    decreases |rs|
  {
    if rs != [] {
      EmittedAll(h, rs[..|rs| - 1]);
      assert rs == rs[..|rs| - 1] + [rs[|rs| - 1]];
    }
  }

  /** On every stream, one pass of the fused operator sends what the chain of operators sends. */
  lemma {:induction false} FusedStream<R>(chain: seq<Stage<R>>, h: R -> Option<R>, rs: seq<R>)
    requires forall r <- rs :: h(r) == Sequential(chain, r)
    ensures Emitted(h, rs) == ChainEmitted(chain, rs)
    decreases |chain|
  {
    if chain == [] {
      EmittedAll(h, rs);
    } else {
      var front, last := chain[..|chain| - 1], chain[|chain| - 1];
      var f, g := r => Sequential(front, r), r => Through(last, r);
      FusedStream(front, f, rs);
      EmittedCompose(f, g, h, rs);
    }
  }

  // ---------- flattening ----------

  /** A flatten operator sends each element of each batch. */
  function Flattened<R>(batches: seq<seq<R>>): seq<R> {
    if batches == [] then [] else Flattened(batches[..|batches| - 1]) + batches[|batches| - 1]
  }

  /** The array-map operator: a loop over each batch, applying the expression to each element. */
  method ArrayMap<R>(s: Stage<R>, batches: seq<seq<R>>) returns (out: seq<R>)
    ensures out == Emitted(r => Through(s, r), Flattened(batches))
  {
    out := [];
    var i := 0;
    ghost var f := r => Through(s, r);
    while i < |batches|
      invariant 0 <= i <= |batches|
      invariant out == Emitted(f, Flattened(batches[..i]))
    {
      hide Emitted, Flattened;
      var sent := ArrayMapBatch(s, batches[i], Flattened(batches[..i]));
      FlattenedNext(batches, i);
      out := out + sent;
      i := i + 1;
    }
    assert batches[..i] == batches;
  }

  lemma {:induction false} FlattenedNext<R>(batches: seq<seq<R>>, i: nat)
    requires i < |batches|
    ensures Flattened(batches[..i + 1]) == Flattened(batches[..i]) + batches[i]
  {
    assert batches[..i + 1][..i] == batches[..i];
  }

  /** One batch, after the elements of the batches before it. */
  method ArrayMapBatch<R>(s: Stage<R>, batch: seq<R>, ghost done: seq<R>) returns (out: seq<R>)
    ensures Emitted(r => Through(s, r), done + batch) == Emitted(r => Through(s, r), done) + out
  {
    out := [];
    var j := 0;
    ghost var f := r => Through(s, r);
    assert done + batch[..0] == done;
    while j < |batch|
      invariant 0 <= j <= |batch|
      invariant Emitted(f, done + batch[..j]) == Emitted(f, done) + out
    {
      hide Emitted;
      EmittedAppend(f, done + batch[..j], batch[j]);
      assert done + batch[..j] + [batch[j]] == done + batch[..j + 1];
      match Through(s, batch[j]) {
        case Some(x) => out := out + [x];
        case None =>
      }
      j := j + 1;
    }
    assert batch[..j] == batch;
  }
}
