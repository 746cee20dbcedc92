/** Health hysteresis and smoothed latency of one upstream server (load-balancer/main.go). */
module Health {

  /** The consecutive failures that take an upstream out, and the consecutive successes that bring it back. */
  datatype Thresholds = Thresholds(unhealthyAfter: nat, healthyAfter: nat)

  const DEPLOYED := Thresholds(6, 2)

  datatype Status = Status(healthy: bool, failStreak: nat, successStreak: nat)

  function Check(t: Thresholds, s: Status, ok: bool): Status {
    if ok then
      var n := s.successStreak + 1;
      Status(s.healthy || n >= t.healthyAfter, 0, n)
    else
      var n := s.failStreak + 1;
      Status(s.healthy && n < t.unhealthyAfter, n, 0)
  }

  /** The status after a history of checks. */
  function After(t: Thresholds, h: seq<bool>): Status {
    if h == [] then Status(true, 0, 0) else Check(t, After(t, h[..|h| - 1]), h[|h| - 1])
  }

  // -------------------------------------------------------------------------
  // The same status, read off the history
  // -------------------------------------------------------------------------

  /** The n checks before position i all came out as `ok`. */
  ghost predicate RunEndsAt(h: seq<bool>, ok: bool, n: nat, i: nat) {
    n <= i <= |h| && forall k :: i - n <= k < i ==> h[k] == ok
  }

  /** n is the length of the trailing run of `ok`. */
  ghost predicate TrailingRun(h: seq<bool>, ok: bool, n: nat) {
    RunEndsAt(h, ok, n, |h|) && (n < |h| ==> h[|h| - 1 - n] != ok)
  }

  lemma {:induction false} StreaksAreTrailingRuns(t: Thresholds, h: seq<bool>)
    ensures TrailingRun(h, false, After(t, h).failStreak)
    ensures TrailingRun(h, true, After(t, h).successStreak)
  {
    if h == [] {
    } else {
      StreaksAreTrailingRuns(t, h[..|h| - 1]);
    }
  }

  /** There was never a long enough run of failures, or after the last one came a long enough run of successes. */
  ghost predicate HealthyByHistory(t: Thresholds, h: seq<bool>) {
    || (forall i: nat :: !RunEndsAt(h, false, t.unhealthyAfter, i))
    || (exists j: nat :: RunEndsAt(h, true, t.healthyAfter, j)
          && forall i: nat :: RunEndsAt(h, false, t.unhealthyAfter, i) ==> i + t.healthyAfter <= j)
  }

  lemma RunEndsEarlier(h: seq<bool>, x: bool, ok: bool, n: nat, i: nat)
    requires i <= |h|
    ensures RunEndsAt(h + [x], ok, n, i) <==> RunEndsAt(h, ok, n, i)
  {
    assert forall k :: 0 <= k < i ==> (h + [x])[k] == h[k];
  }

  /** A run of successes that ends later than a run of failures starts after it. */
  lemma RunsDoNotOverlap(h: seq<bool>, m: nat, i: nat, n: nat, j: nat)
    requires RunEndsAt(h, false, m, i) && RunEndsAt(h, true, n, j) && m >= 1 && i < j
    ensures i + n <= j
  {
    assert h[i - 1] == false;
  }

  lemma TrailingRunReaches(h: seq<bool>, ok: bool, run: nat, n: nat)
    requires TrailingRun(h, ok, run)
    ensures RunEndsAt(h, ok, n, |h|) <==> n <= run
  {
  }

  lemma {:induction false} HealthIsHistory(t: Thresholds, h: seq<bool>)
    requires t.unhealthyAfter >= 1 && t.healthyAfter >= 1
    ensures After(t, h).healthy <==> HealthyByHistory(t, h)
  {
    if h == [] {
    } else {
      var init, ok := h[..|h| - 1], h[|h| - 1];
      assert h == init + [ok];
      HealthIsHistory(t, init);
      StreaksAreTrailingRuns(t, h);
      TrailingRunReaches(h, false, After(t, h).failStreak, t.unhealthyAfter);
      TrailingRunReaches(h, true, After(t, h).successStreak, t.healthyAfter);
      forall n: nat, i: nat, b: bool | i <= |init|
        ensures RunEndsAt(h, b, n, i) <==> RunEndsAt(init, b, n, i)
      {
        RunEndsEarlier(init, ok, b, n, i);
      }
      if ok {
        SuccessStep(t, init, h);
      } else {
        FailureStep(t, init, h);
      }
    }
  }

  /** As deployed: six failures in a row take an upstream out, two successes in a row bring it back. */
  lemma DeployedHealth(h: seq<bool>)
    ensures After(DEPLOYED, h).healthy
      <==> (forall i: nat :: !RunEndsAt(h, false, 6, i))
           || (exists j: nat :: RunEndsAt(h, true, 2, j)
                && forall i: nat :: RunEndsAt(h, false, 6, i) ==> i + 2 <= j)
  {
    HealthIsHistory(DEPLOYED, h);
  }

  lemma SuccessStep(t: Thresholds, init: seq<bool>, h: seq<bool>)
    requires t.unhealthyAfter >= 1 && t.healthyAfter >= 1 && h == init + [true]
    requires forall n: nat, i: nat, b: bool :: i <= |init| ==> (RunEndsAt(h, b, n, i) <==> RunEndsAt(init, b, n, i))
    ensures HealthyByHistory(t, h) <==> HealthyByHistory(t, init) || RunEndsAt(h, true, t.healthyAfter, |h|)
  {
    assert !RunEndsAt(h, false, t.unhealthyAfter, |h|) by {
      assert h[|h| - 1] == true;
    }
    if RunEndsAt(h, true, t.healthyAfter, |h|) {
      forall i: nat | RunEndsAt(h, false, t.unhealthyAfter, i)
        ensures i + t.healthyAfter <= |h|
      {
        RunsDoNotOverlap(h, t.unhealthyAfter, i, t.healthyAfter, |h|);
      }
    }
    if HealthyByHistory(t, init) && !(forall i: nat :: !RunEndsAt(init, false, t.unhealthyAfter, i)) {
      var j: nat :| RunEndsAt(init, true, t.healthyAfter, j)
        && forall i: nat :: RunEndsAt(init, false, t.unhealthyAfter, i) ==> i + t.healthyAfter <= j;
      assert RunEndsAt(h, true, t.healthyAfter, j);
    }
    if HealthyByHistory(t, h) && !(forall i: nat :: !RunEndsAt(h, false, t.unhealthyAfter, i)) {
      var j: nat :| RunEndsAt(h, true, t.healthyAfter, j)
        && forall i: nat :: RunEndsAt(h, false, t.unhealthyAfter, i) ==> i + t.healthyAfter <= j;
      assert j < |h| ==> RunEndsAt(init, true, t.healthyAfter, j);
    }
  }

  lemma FailureStep(t: Thresholds, init: seq<bool>, h: seq<bool>)
    requires t.unhealthyAfter >= 1 && t.healthyAfter >= 1 && h == init + [false]
    requires forall n: nat, i: nat, b: bool :: i <= |init| ==> (RunEndsAt(h, b, n, i) <==> RunEndsAt(init, b, n, i))
    ensures HealthyByHistory(t, h) <==> HealthyByHistory(t, init) && !RunEndsAt(h, false, t.unhealthyAfter, |h|)
  {
    assert !RunEndsAt(h, true, t.healthyAfter, |h|) by {
      assert h[|h| - 1] == false;
    }
    if HealthyByHistory(t, init) && !RunEndsAt(h, false, t.unhealthyAfter, |h|)
      && !(forall i: nat :: !RunEndsAt(init, false, t.unhealthyAfter, i)) {
      var j: nat :| RunEndsAt(init, true, t.healthyAfter, j)
        && forall i: nat :: RunEndsAt(init, false, t.unhealthyAfter, i) ==> i + t.healthyAfter <= j;
      assert RunEndsAt(h, true, t.healthyAfter, j);
    }
    if HealthyByHistory(t, h) && !(forall i: nat :: !RunEndsAt(h, false, t.unhealthyAfter, i)) {
      var j: nat :| RunEndsAt(h, true, t.healthyAfter, j)
        && forall i: nat :: RunEndsAt(h, false, t.unhealthyAfter, i) ==> i + t.healthyAfter <= j;
      assert RunEndsAt(init, true, t.healthyAfter, j);
    }
  }

  // -------------------------------------------------------------------------
  // Smoothed latency
  // -------------------------------------------------------------------------

  const INITIAL_LATENCY := 10.0
  const ALPHA := 0.4

  function Smooth(alpha: real, latency: real, sample: real): real {
    alpha * sample + (1.0 - alpha) * latency
  }

  function Latency(alpha: real, xs: seq<real>): real {
    if xs == [] then INITIAL_LATENCY else Smooth(alpha, Latency(alpha, xs[..|xs| - 1]), xs[|xs| - 1])
  }

  function Power(x: real, n: nat): real {
    if n == 0 then 1.0 else x * Power(x, n - 1)
  }

  /** The sum of beta^(n-1-i) * xs[i] over the n samples, oldest first. */
  function WeightedSum(beta: real, xs: seq<real>): real {
    if xs == [] then 0.0 else Power(beta, |xs| - 1) * xs[0] + WeightedSum(beta, xs[1..])
  }

  lemma MulNonNegative(x: real, y: real)
    requires x >= 0.0 && y >= 0.0
    ensures x * y >= 0.0
  {
  }

  lemma Spread(a: real, b: real, c: real)
    ensures a * (b + c) == a * b + a * c
  {
  }

  lemma Scale(beta: real, p: real, h: real, w: real, x: real)
    ensures (beta * p) * h + (beta * w + x) == beta * (p * h + w) + x
  {
  }

  lemma {:induction false} WeightedSumSnoc(beta: real, xs: seq<real>, x: real)
    ensures WeightedSum(beta, xs + [x]) == beta * WeightedSum(beta, xs) + x
  {
    var ys := xs + [x];
    if xs == [] {
      assert WeightedSum(beta, ys) == x by {
        assert ys[1..] == [] && Power(beta, 0) == 1.0;
      }
      assert beta * WeightedSum(beta, xs) == 0.0;
    } else {
      WeightedSumSnoc(beta, xs[1..], x);
      assert ys[1..] == xs[1..] + [x];
      Scale(beta, Power(beta, |xs| - 1), xs[0], WeightedSum(beta, xs[1..]), x);
    }
  }

  lemma Swap(a: real, b: real, c: real)
    ensures a * (b * c) == b * (a * c)
  {
  }

  /** The closed form from a power and a weighted sum. */
  function Closed(alpha: real, p: real, w: real): real {
    p * INITIAL_LATENCY + alpha * w
  }

  function Decayed(alpha: real, y: real): real {
    (1.0 - alpha) * y
  }

  /** One blended sample, as an equation between plain numbers. */
  lemma ClosedFormStep(alpha: real, p: real, w: real, x: real)
    ensures Smooth(alpha, Closed(alpha, p, w), x) == Closed(alpha, Decayed(alpha, p), Decayed(alpha, w) + x)
  {
    var beta := 1.0 - alpha;
    Spread(beta, p * INITIAL_LATENCY, alpha * w);
    Swap(beta, p, INITIAL_LATENCY);
    Swap(beta, alpha, w);
    Spread(alpha, beta * w, x);
  }

  /** The same sum by Horner's rule, newest sample last. */
  function Horner(beta: real, xs: seq<real>): real {
    if xs == [] then 0.0 else beta * Horner(beta, xs[..|xs| - 1]) + xs[|xs| - 1]
  }

  lemma {:induction false} HornerIsWeightedSum(beta: real, xs: seq<real>)
    ensures Horner(beta, xs) == WeightedSum(beta, xs)
  {
    if xs == [] {
    } else {
      var init, x := xs[..|xs| - 1], xs[|xs| - 1];
      HornerIsWeightedSum(beta, init);
      assert xs == init + [x];
      WeightedSumSnoc(beta, init, x);
    }
  }

  lemma {:induction false} LatencyByHorner(alpha: real, xs: seq<real>)
    ensures Latency(alpha, xs) == Closed(alpha, Power(1.0 - alpha, |xs|), Horner(1.0 - alpha, xs))
  {
    if xs == [] {
    } else {
      var init, x := xs[..|xs| - 1], xs[|xs| - 1];
      LatencyByHorner(alpha, init);
      ClosedFormStep(alpha, Power(1.0 - alpha, |init|), Horner(1.0 - alpha, init), x);
    }
  }

  /** Closed form: the initial value decays geometrically, and each sample counts by its age. */
  lemma LatencyClosedForm(alpha: real, xs: seq<real>)
    ensures Latency(alpha, xs) == Power(1.0 - alpha, |xs|) * INITIAL_LATENCY + alpha * WeightedSum(1.0 - alpha, xs)
  {
    LatencyByHorner(alpha, xs);
    HornerIsWeightedSum(1.0 - alpha, xs);
  }

  /** As deployed: 0.6^n times 10, plus 0.4 times the samples weighted by age. */
  lemma DeployedLatency(xs: seq<real>)
    ensures Latency(ALPHA, xs) == Power(0.6, |xs|) * 10.0 + 0.4 * WeightedSum(0.6, xs)
  {
    LatencyClosedForm(ALPHA, xs);
  }

  /** The estimate never leaves the range of the initial value and the samples. */
  lemma {:induction false} LatencyInRange(alpha: real, xs: seq<real>, lo: real, hi: real)
    requires 0.0 <= alpha <= 1.0 && lo <= INITIAL_LATENCY <= hi
    requires forall i :: 0 <= i < |xs| ==> lo <= xs[i] <= hi
    ensures lo <= Latency(alpha, xs) <= hi
  {
    if xs == [] {
    } else {
      LatencyInRange(alpha, xs[..|xs| - 1], lo, hi);
      var y, x := Latency(alpha, xs[..|xs| - 1]), xs[|xs| - 1];
      BlendInRange(alpha, x, y, lo, hi);
    }
  }

  lemma BlendInRange(alpha: real, x: real, y: real, lo: real, hi: real)
    requires 0.0 <= alpha <= 1.0 && lo <= x <= hi && lo <= y <= hi
    ensures lo <= alpha * x + (1.0 - alpha) * y <= hi
  {
    MulNonNegative(alpha, x - lo);
    MulNonNegative(1.0 - alpha, y - lo);
    MulNonNegative(alpha, hi - x);
    MulNonNegative(1.0 - alpha, hi - y);
    Spread(alpha, x, -lo);
    Spread(1.0 - alpha, y, -lo);
    Spread(alpha, hi, -x);
    Spread(1.0 - alpha, hi, -y);
  }

  /** On constant samples the error shrinks by exactly 1 - alpha a sample. */
  lemma {:induction false} LatencyConverges(alpha: real, c: real, n: nat)
    ensures Latency(alpha, seq(n, _ => c)) - c == Power(1.0 - alpha, n) * (INITIAL_LATENCY - c)
  {
    if n == 0 {
    } else {
      LatencyConverges(alpha, c, n - 1);
      assert seq(n, _ => c)[..n - 1] == seq(n - 1, _ => c);
      var y, p := Latency(alpha, seq(n - 1, _ => c)), Power(1.0 - alpha, n - 1);
      assert Smooth(alpha, y, c) - c == (1.0 - alpha) * (y - c);
      assert (1.0 - alpha) * (p * (INITIAL_LATENCY - c)) == ((1.0 - alpha) * p) * (INITIAL_LATENCY - c);
    }
  }

  // -------------------------------------------------------------------------
  // The object
  // -------------------------------------------------------------------------

  class Upstream {
    var healthy: bool
    var failStreak: nat
    var successStreak: nat
    var latency: real

    ghost function View(): Status
      reads this
    {
      Status(healthy, failStreak, successStreak)
    }

    constructor ()
      ensures View() == After(DEPLOYED, []) && latency == Latency(ALPHA, [])
    {
      healthy, failStreak, successStreak, latency := true, 0, 0, INITIAL_LATENCY;
    }

    method CheckHealth(t: Thresholds, ok: bool)
      modifies this
      ensures View() == Check(t, old(View()), ok) && latency == old(latency)
    {
      if ok {
        failStreak := 0;
        successStreak := successStreak + 1;
        if !healthy && successStreak >= t.healthyAfter {
          healthy := true;
        }
      } else {
        successStreak := 0;
        failStreak := failStreak + 1;
        if healthy && failStreak >= t.unhealthyAfter {
          healthy := false;
        }
      }
    }

    method UpdateLatency(ms: real, alpha: real)
      modifies this
      ensures latency == Smooth(alpha, old(latency), ms) && View() == old(View())
    {
      latency := alpha * ms + (1.0 - alpha) * latency;
    }
  }
}
