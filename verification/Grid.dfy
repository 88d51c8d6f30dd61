// Multiples of a slide, without division: the recursive form is what the window proofs use,
// and it agrees with the remainder that the source computes.
module Grid {

  /** t is a multiple of d. */
  predicate OnGrid(t: int, d: nat)
    requires d > 0
    decreases if t < 0 then d - t else t
  {
    if t < 0 then OnGrid(t + d, d)
    else if t < d then t == 0
    else OnGrid(t - d, d)
  }

  lemma GridZero(d: nat)
    requires d > 0
    ensures OnGrid(0, d)
  {
  }

  lemma GridStep(t: int, d: nat)
    requires d > 0
    ensures OnGrid(t + d, d) <==> OnGrid(t, d)
    ensures OnGrid(t - d, d) <==> OnGrid(t, d)
  {
  }

  /** Different multiples are at least d apart, and their difference is a multiple. */
  lemma {:induction false} GridGap(a: int, b: int, d: nat)
    requires d > 0 && OnGrid(a, d) && OnGrid(b, d) && a < b
    ensures a + d <= b && OnGrid(b - a, d)
    decreases if a < 0 then d - a else a
  {
    if a < 0 {
      GridStep(b, d);
      GridGap(a + d, b + d, d);
      assert b + d - (a + d) == b - a;
    } else if a < d {
    } else {
      GridGap(a - d, b - d, d);
      assert b - d - (a - d) == b - a;
    }
  }

  lemma {:induction false} GridSub(a: int, w: int, d: nat)
    requires d > 0 && OnGrid(a, d) && OnGrid(w, d)
    ensures OnGrid(a - w, d)
    decreases if w < 0 then d - w else w
  {
    if w < 0 {
      GridSub(a, w + d, d);
      GridStep(a - w - d, d);
    } else if w >= d {
      GridSub(a, w - d, d);
      GridStep(a - w + d, d);
    }
  }

  lemma {:induction false} ModSub(n: nat, d: nat)
    requires 0 < d <= n
    ensures n % d == (n - d) % d
  {
    var q, r := n / d, n % d;
    var q', r' := (n - d) / d, (n - d) % d;
    assert n == d * q + r && n - d == d * q' + r';
    assert d * (q - q' - 1) == r' - r;
    MultipleBounds(d, q - q' - 1);
  }

  lemma {:induction false} MultipleBounds(d: int, k: int)
    requires d > 0
    ensures k >= 1 ==> d * k >= d
    ensures k <= -1 ==> d * k <= -d
  {
    if k >= 1 {
      assert d * (k - 1) >= 0;
    } else if k <= -1 {
      assert d * (-k - 1) >= 0;
    }
  }

  lemma {:induction false} GridIsMod(n: nat, d: nat)
    requires d > 0
    ensures OnGrid(n, d) <==> n % d == 0
    ensures n % d <= n && OnGrid(n - n % d, d)
    decreases n
  {
    if n >= d {
      GridIsMod(n - d, d);
      ModSub(n, d);
      GridStep(n - d - n % d, d);
    }
  }
}
