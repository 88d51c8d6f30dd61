// The loop that turns window aggregates into two-phase ones: search the plan from its sources,
// exchange the operator of the first node that can be, and start again.
module TwoPhaseRewrite {
  import opened Digraphs
  import opened RunReplacement
  import opened Search
  import opened Grid

  /** Durations in nanoseconds. */
  datatype Window = Tumbling(width: nat) | Sliding(width: nat, slide: nat) | Instant | Session(gap: nat)

  datatype Plan =
    | WindowAggregate(window: Window, twoPhase: bool)   // twoPhase: the projection has a two-phase form
    | TumblingTwoPhase(width: nat)
    | SlidingTwoPhase(width: nat, slide: nat)
    | Other(id: int)

  datatype Verdict = Keeps | Becomes(plan: Plan) | Panics

  function Micros(nanos: nat): nat {
    nanos / 1000
  }

  /** add_node: what becomes of the operator. The remainder panics for a slide under a microsecond. */
  function Rewrite(plan: Plan): Verdict {
    if !plan.WindowAggregate? || plan.window.Session? then Keeps
    else
      var (width, slide) :=
        match plan.window
        case Tumbling(w) => (w, w)
        case Sliding(w, s) => (w, s)
        case _ => (0, 0);
      if slide != 0 && Micros(slide) == 0 then Panics
      else if slide != 0 && Micros(width) % Micros(slide) != 0 then Keeps
      else if !plan.twoPhase then Keeps
      else if width == slide then Becomes(TumblingTwoPhase(width))
      else Becomes(SlidingTwoPhase(width, slide))
  }

  // ---------- the windows of a plan ----------

  function Width(window: Window): nat {
    match window
    case Tumbling(w) => w
    case Sliding(w, _) => w
    case _ => 0
  }

  function Slide(window: Window): nat {
    match window
    case Tumbling(w) => w
    case Sliding(_, s) => s
    case _ => 0
  }

  /** The windows [start, end) of a window type that does not depend on the records. */
  predicate Declares(window: Window, start: nat, end: nat) {
    match window
    case Tumbling(w) => w > 0 && start % w == 0 && end == start + w
    case Sliding(w, s) => s > 0 && start % s == 0 && end == start + w
    case Instant => end == start + 1
    case Session(_) => false
  }

  /**
   * The windows whose records a plan brings together. The two-phase operators work on bins: a
   * tumbling window is one bin, which is a single instant if the width is zero, and a sliding
   * window consists of whole bins of one slide, the last of which ends it.
   */
  predicate Completes(plan: Plan, start: nat, end: nat) {
    match plan
    case WindowAggregate(window, _) => Declares(window, start, end)
    case TumblingTwoPhase(w) => if w == 0 then end == start + 1 else start % w == 0 && end == start + w
    case SlidingTwoPhase(w, s) => s > 0 && end % s == 0 && start % s == 0 && start + w == end
    case Other(_) => false
  }

  ghost predicate SameWindows(p: Plan, q: Plan) {
    forall start: nat, end: nat :: Completes(p, start, end) <==> Completes(q, start, end)
  }

  /** The window consists of whole bins of one slide; a slide of zero fits only where there are no windows. */
  predicate WholeBins(window: Window) {
    window.Instant? || (if Slide(window) == 0 then Width(window) > 0 else Width(window) % Slide(window) == 0)
  }

  lemma {:induction false} RemainderOfSum(a: nat, b: nat, s: nat)
    requires s > 0 && a % s == 0
    ensures (a + b) % s == b % s
  {
    var q := a / s;
    assert a == q * s;
    Shift(b, q, s);
  }

  lemma {:induction false} Shift(b: nat, q: nat, s: nat)
    requires s > 0
    ensures (q * s + b) % s == b % s
  {
    if q > 0 {
      Shift(b, q - 1, s);
      assert q * s + b == ((q - 1) * s + b) + s;
      ModSub(q * s + b, s);
    }
  }

  /** What becomes of a window aggregate has its windows if and only if these consist of whole bins. */
  lemma {:induction false} RewriteKeepsWindowsIff(plan: Plan)
    requires Rewrite(plan).Becomes?
    ensures plan.WindowAggregate?
    ensures SameWindows(plan, Rewrite(plan).plan) <==> WholeBins(plan.window)
  {
    var window, new_ := plan.window, Rewrite(plan).plan;
    var w, s := Width(window), Slide(window);
    if window.Sliding? && s > 0 && w != s {
      assert new_ == SlidingTwoPhase(w, s);
      forall start: nat, end: nat
        ensures start % s == 0 && end == start + w ==> end % s == w % s
      {
        if start % s == 0 && end == start + w {
          RemainderOfSum(start, w, s);
        }
      }
      assert Completes(plan, 0, w);
      assert Completes(new_, 0, w) <==> w % s == 0;
    } else if w == s == 0 && !window.Instant? {
      assert Completes(new_, 0, 1) && !Completes(plan, 0, 1);
    } else if w == s {
      assert s > 0 ==> w % s == 0;
    }
  }

  /** A window aggregate is exchanged if and only if it has a two-phase form, is no session, and the slide fits the width. */
  lemma {:induction false} BecomesIff(plan: Plan)
    ensures Rewrite(plan).Becomes? <==>
              && plan.WindowAggregate? && plan.twoPhase && !plan.window.Session?
              && (Slide(plan.window) == 0
                  || (Micros(Slide(plan.window)) > 0 && Micros(Width(plan.window)) % Micros(Slide(plan.window)) == 0))
    ensures Rewrite(plan).Becomes? ==>
              if Width(plan.window) == Slide(plan.window) then Rewrite(plan).plan.TumblingTwoPhase?
              else Rewrite(plan).plan.SlidingTwoPhase?
  {
  }

  lemma {:induction false} Thousands(a: nat, b: nat)
    requires b > 0 && a % b == 0
    ensures (a * 1000) % (b * 1000) == 0
  {
    var q := a / b;
    assert a * 1000 == q * (b * 1000) + 0;
    Shift(0, q, b * 1000);
  }

  /** In whole microseconds the test of the code is the right one. */
  lemma {:induction false} WholeMicros(plan: Plan)
    requires Rewrite(plan).Becomes? && Slide(plan.window) > 0
    requires Width(plan.window) % 1000 == 0 && Slide(plan.window) % 1000 == 0
    ensures SameWindows(plan, Rewrite(plan).plan)
  {
    var w, s := Width(plan.window), Slide(plan.window);
    BecomesIff(plan);
    Thousands(Micros(w), Micros(s));
    assert w == Micros(w) * 1000 && s == Micros(s) * 1000;
    RewriteKeepsWindowsIff(plan);
  }

  /** Windows of one and a half microseconds that slide by one become ones that have no windows. */
  lemma {:induction false} HalfMicros(plan: Plan)
    requires plan == WindowAggregate(Sliding(1500, 1000), true)
    ensures Rewrite(plan) == Becomes(SlidingTwoPhase(1500, 1000)) && !SameWindows(plan, SlidingTwoPhase(1500, 1000))
  {
    RewriteKeepsWindowsIff(plan);
  }

  // ---------- the loop ----------

  /** The node is reached from a source and is not a sink. */
  ghost predicate Candidate<E(!new)>(g: Graph<Plan, E>, i: nat) {
    i < |g.nodes| && Reachable(g, i) && OutEdges(g.edges, i) != []
  }

  /** What the plan of node i is to become. */
  ghost function Target<E(!new)>(g: Graph<Plan, E>, i: nat): Plan
    requires i < |g.nodes|
  {
    if Candidate(g, i) && Rewrite(g.nodes[i]).Becomes? then Rewrite(g.nodes[i]).plan else g.nodes[i]
  }

  /** The edges are those of g, and each node is what it was or what it is to become. */
  ghost predicate OnTheWay<E(!new)>(g: Graph<Plan, E>, h: Graph<Plan, E>) {
    && h.edges == g.edges && |h.nodes| == |g.nodes|
    && forall i: nat :: i < |g.nodes| ==> h.nodes[i] == g.nodes[i] || h.nodes[i] == Target(g, i)
  }

  ghost predicate Done<E(!new)>(g: Graph<Plan, E>, h: Graph<Plan, E>) {
    h.edges == g.edges && |h.nodes| == |g.nodes| && forall i: nat :: i < |g.nodes| ==> h.nodes[i] == Target(g, i)
  }

  /** Some node that the pass comes to makes it panic. */
  ghost predicate HasTinySlide<E(!new)>(g: Graph<Plan, E>) {
    exists i: nat :: Candidate(g, i) && Rewrite(g.nodes[i]).Panics?
  }

  /** A rewritten plan is left alone. */
  lemma {:induction false} RewrittenOnce(plan: Plan)
    ensures Rewrite(plan).Becomes? ==> Rewrite(Rewrite(plan).plan).Keeps?
  {
  }

  /** Windows of a microsecond that slide by half of one. */
  lemma {:induction false} TinySlide(plan: Plan)
    requires plan == WindowAggregate(Sliding(1000, 500), true)
    ensures Rewrite(plan).Panics?
  {
  }

  /** Reachability is a matter of the edges. */
  lemma {:induction false} SameReach<E(!new)>(g: Graph<Plan, E>, h: Graph<Plan, E>, i: nat)
    requires h.edges == g.edges && |h.nodes| == |g.nodes|
    ensures Candidate(g, i) <==> Candidate(h, i)
  {
    assert forall c :: Closed(g, c) <==> Closed(h, c);
    assert forall c :: HasSources(g, c) <==> HasSources(h, c);
  }

  /** The nodes whose plan can still be rewritten. */
  ghost function Left<E(!new)>(g: Graph<Plan, E>): (r: set<nat>)
    ensures forall i: nat :: i in r <==> i < |g.nodes| && Rewrite(g.nodes[i]).Becomes?
  {
    set i | i in UpTo(|g.nodes|) && Rewrite(g.nodes[i]).Becomes?
  }

  /** Rewriting a candidate stays on the way, and leaves one less to rewrite. */
  lemma {:induction false} RewriteOne<E(!new)>(g: Graph<Plan, E>, h: Graph<Plan, E>, x: nat)
    requires OnTheWay(g, h) && Candidate(h, x) && Rewrite(h.nodes[x]).Becomes?
    ensures var h' := Graph(h.nodes[x := Rewrite(h.nodes[x]).plan], h.edges);
            OnTheWay(g, h') && |Left(h')| < |Left(h)|
  {
    var h' := Graph(h.nodes[x := Rewrite(h.nodes[x]).plan], h.edges);
    SameReach(g, h, x);
    RewrittenOnce(g.nodes[x]);
    RewrittenOnce(h.nodes[x]);
    hide Rewrite, Candidate, Left;
    assert Left(h') == Left(h) - {x};
    assert x in Left(h);
  }

  /** Where the search ends. */
  lemma {:induction false} SearchEnds<E(!new)>(g: Graph<Plan, E>, h: Graph<Plan, E>)
    requires OnTheWay(g, h) && forall i: nat :: Candidate(h, i) ==> Rewrite(h.nodes[i]).Keeps?
    ensures Done(g, h) && !HasTinySlide(g)
  {
    forall i: nat | i < |g.nodes|
      ensures h.nodes[i] == Target(g, i) && !(Candidate(g, i) && Rewrite(g.nodes[i]).Panics?)
    {
      SameReach(g, h, i);
    }
  }

  lemma {:induction false} SearchPanics<E(!new)>(g: Graph<Plan, E>, h: Graph<Plan, E>, x: nat)
    requires OnTheWay(g, h) && Candidate(h, x) && Rewrite(h.nodes[x]).Panics?
    ensures HasTinySlide(g)
  {
    SameReach(g, h, x);
    RewrittenOnce(g.nodes[x]);
  }

  /** Not a window aggregate, or one whose windows consist of whole bins. */
  ghost predicate KeepsBins(plan: Plan) {
    plan.WindowAggregate? ==> WholeBins(plan.window)
  }

  lemma {:induction false} WindowsKept<E(!new)>(g: Graph<Plan, E>, h: Graph<Plan, E>)
    requires OnTheWay(g, h)
    ensures forall i: nat :: i < |g.nodes| && KeepsBins(g.nodes[i]) ==> SameWindows(g.nodes[i], h.nodes[i])
  {
    hide Rewrite, Completes, WholeBins, Candidate;
    forall i: nat | i < |g.nodes| && KeepsBins(g.nodes[i])
      ensures SameWindows(g.nodes[i], h.nodes[i])
    {
      if h.nodes[i] != g.nodes[i] {
        RewriteKeepsWindowsIff(g.nodes[i]);
      }
    }
  }

  lemma {:induction false} SameValid<E(!new)>(g: Graph<Plan, E>, h: Graph<Plan, E>)
    requires Valid(g) && OnTheWay(g, h)
    ensures Valid(h)
  {
  }

  /**
   * The loop ends. It panics if and only if a window aggregate that it comes to slides by less
   * than a microsecond; otherwise exactly the window aggregates that are reached from a source,
   * are not sinks and have a two-phase form that fits have been exchanged for it.
   */
  method TwoPhase<E(!new)>(graph: DiGraph<Plan, E>) returns (panicked: bool)
    requires Valid(graph.View())
    modifies graph
    ensures panicked <==> HasTinySlide(old(graph.View()))
    ensures !panicked ==> Done(old(graph.View()), graph.View())
    ensures panicked ==> OnTheWay(old(graph.View()), graph.View())
    ensures |graph.nodes| == |old(graph.nodes)|
    ensures forall i: nat :: i < |graph.nodes| && KeepsBins(old(graph.nodes)[i]) ==> SameWindows(old(graph.nodes)[i], graph.nodes[i])
  {
    ghost var g := graph.View();
    hide Rewrite, Reachable, Left, Target, Valid, KeepsBins, SameWindows;
    while true
      invariant OnTheWay(g, graph.View())
      decreases |Left(graph.View())|
    {
      SameValid(g, graph.View());
      var h := graph.View();
      var x := FindReachable(h, (i: nat) => i < |h.nodes| && OutEdges(h.edges, i) != [] && !Rewrite(h.nodes[i]).Keeps?);
      WindowsKept(g, h);
      if x.None? {
        SearchEnds(g, h);
        return false;
      }
      match Rewrite(h.nodes[x.value])
      case Panics =>
        SearchPanics(g, h, x.value);
        return true;
      case Becomes(plan) =>
        RewriteOne(g, h, x.value);
        graph.nodes := graph.nodes[x.value := plan];
    }
  }
}
