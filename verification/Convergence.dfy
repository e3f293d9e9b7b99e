/** When the iteration loop counts as converged, and what that bounds. */
module Convergence {
  import opened Option

  /** The measured image size of each iteration, oldest first; None when not measured. */
  type History = seq<Option<nat>>

  function Abs(x: real): real { if x < 0.0 then -x else x }

  /** One step stays within the threshold (given as a fraction, not as a percentage). */
  predicate SmallStep(prev: nat, cur: nat, d: real) {
    prev != 0 && Abs(cur as real - prev as real) / (prev as real) <= d
  }

  /** The last window + 1 sizes are all known and step by at most d each. */
  predicate Converged(h: History, window: nat, d: real) {
    && |h| >= window + 1
    && (forall i :: |h| - window - 1 <= i < |h| ==> h[i].Some?)
    && (forall i :: |h| - window - 1 <= i < |h| - 1 ==> SmallStep(h[i].value, h[i + 1].value, d))
  }

  /** `has_converged`.  A negative window never arises from the callers. */
  method HasConverged(h: History, window: nat, sizeDeltaPct: real) returns (b: bool)
    ensures b <==> Converged(h, window, sizeDeltaPct / 100.0)
  {
    if |h| < window + 1 {
      return false;
    }
    var last := h[|h| - (window + 1)..];
    for i := 0 to |last|
      invariant forall k :: 0 <= k < i ==> last[k].Some?
    {
      if last[i].None? {
        assert h[|h| - window - 1 + i].None?;
        return false;
      }
    }
    for i := 0 to |last| - 1
      invariant forall k :: 0 <= k < i ==> SmallStep(last[k].value, last[k + 1].value, sizeDeltaPct / 100.0)
    {
      var prev, cur := last[i].value, last[i + 1].value;
      if !SmallStep(prev, cur, sizeDeltaPct / 100.0) {
        assert h[|h| - window - 1 + i] == last[i] && h[|h| - window + i] == last[i + 1];
        return false;
      }
    }
    forall i | |h| - window - 1 <= i < |h| ensures h[i].Some? {
      assert last[i - (|h| - window - 1)] == h[i];
    }
    forall i | |h| - window - 1 <= i < |h| - 1 ensures SmallStep(h[i].value, h[i + 1].value, sizeDeltaPct / 100.0) {
      assert last[i - (|h| - window - 1)] == h[i] && last[i - (|h| - window - 1) + 1] == h[i + 1];
    }
    return true;
  }

  /** The size of one step, as a fraction of the size before it. */
  function Step(h: History, i: nat): real
    requires i + 1 < |h| && h[i].Some? && h[i + 1].Some? && h[i].value != 0
  {
    Abs(h[i + 1].value as real - h[i].value as real) / (h[i].value as real)
  }

  /** Converged in the words of the documentation: every step is less than the threshold. */
  predicate StrictlyConverged(h: History, window: nat, d: real) {
    && |h| >= window + 1
    && (forall i :: |h| - window - 1 <= i < |h| ==> h[i].Some?)
    && (forall i :: |h| - window - 1 <= i < |h| - 1 ==> h[i].value != 0 && Step(h, i) < d)
  }

  /** The code and its documentation disagree exactly when no step passes the threshold and
      some step meets it. */
  lemma StrictReadingExactly(h: History, window: nat, d: real)
    ensures StrictlyConverged(h, window, d) ==> Converged(h, window, d)
    ensures Converged(h, window, d) ==>
      (StrictlyConverged(h, window, d) <==> forall i :: |h| - window - 1 <= i < |h| - 1 ==> Step(h, i) != d)
  {
    if StrictlyConverged(h, window, d) {
      forall i | |h| - window - 1 <= i < |h| - 1 ensures SmallStep(h[i].value, h[i + 1].value, d) {
        assert Step(h, i) < d;
      }
    }
    if Converged(h, window, d) {
      forall i | |h| - window - 1 <= i < |h| - 1 ensures h[i].value != 0 && Step(h, i) <= d {
        assert SmallStep(h[i].value, h[i + 1].value, d);
      }
      if forall i :: |h| - window - 1 <= i < |h| - 1 ==> Step(h, i) != d {
        forall i | |h| - window - 1 <= i < |h| - 1 ensures h[i].value != 0 && Step(h, i) < d {
          assert Step(h, i) <= d && Step(h, i) != d;
        }
      }
    }
  }

  /** From 100 bytes to 101 is a step of one per cent, and counts as converged at one per cent. */
  lemma StepAtThreshold()
    ensures Converged([Some(100), Some(101)], 1, 1.0 / 100.0)
    ensures !StrictlyConverged([Some(100), Some(101)], 1, 1.0 / 100.0)
  {
    var h: History := [Some(100), Some(101)];
    assert Step(h, 0) == 1.0 / 100.0;
    assert !(Step(h, 0) < 1.0 / 100.0);
    assert SmallStep(100, 101, 1.0 / 100.0);
    forall i | 0 <= i < 1 ensures SmallStep(h[i].value, h[i + 1].value, 1.0 / 100.0) {
    }
  }

  function Power(x: real, n: nat): real { if n == 0 then 1.0 else x * Power(x, n - 1) }

  lemma StepBounds(prev: nat, cur: nat, d: real)
    requires SmallStep(prev, cur, d)
    ensures prev as real * (1.0 - d) <= cur as real <= prev as real * (1.0 + d)
  {
    var p, c := prev as real, cur as real;
    var q := Abs(c - p) / p;
    assert Abs(c - p) == q * p;
    assert q * p <= d * p;
  }

  lemma LowerStep(s0: real, p: real, prev: real, cur: real, m: real)
    requires s0 * p <= prev && prev * m <= cur && m >= 0.0
    ensures s0 * (m * p) <= cur
  {
    assert (s0 * p) * m <= prev * m;
    assert (s0 * p) * m == s0 * (m * p);
  }

  lemma UpperStep(s0: real, p: real, prev: real, cur: real, m: real)
    requires prev <= s0 * p && cur <= prev * m && m >= 0.0
    ensures cur <= s0 * (m * p)
  {
    assert prev * m <= (s0 * p) * m;
    assert (s0 * p) * m == s0 * (m * p);
  }

  /** cur lies between base lo^n and base hi^n. */
  predicate Between(base: real, cur: real, lo: real, hi: real, n: nat) {
    base * Power(lo, n) <= cur <= base * Power(hi, n)
  }

  lemma BetweenStep(base: real, prev: real, cur: real, lo: real, hi: real, n: nat)
    requires Between(base, prev, lo, hi, n) && prev * lo <= cur <= prev * hi
    requires lo >= 0.0 && hi >= 0.0
    ensures Between(base, cur, lo, hi, n + 1)
  {
    LowerStep(base, Power(lo, n), prev, cur, lo);
    UpperStep(base, Power(hi, n), prev, cur, hi);
  }

  lemma StepFrom(base: real, prev: nat, cur: nat, d: real, n: nat)
    requires SmallStep(prev, cur, d) && 0.0 <= d < 1.0
    requires Between(base, prev as real, 1.0 - d, 1.0 + d, n)
    ensures Between(base, cur as real, 1.0 - d, 1.0 + d, n + 1)
  {
    StepBounds(prev, cur, d);
    BetweenStep(base, prev as real, cur as real, 1.0 - d, 1.0 + d, n);
  }

  /** Over the window the size drifts at most geometrically: after n of the steps it is
      between s0 (1-d)^n and s0 (1+d)^n. */
  lemma {:induction false} DriftIsBounded(h: History, window: nat, d: real, n: nat)
    requires Converged(h, window, d) && 0.0 <= d < 1.0 && n <= window
    ensures
      var first := |h| - window - 1;
      Between(h[first].value as real, h[first + n].value as real, 1.0 - d, 1.0 + d, n)
  {
    if n > 0 {
      var first := |h| - window - 1;
      DriftIsBounded(h, window, d, n - 1);
      StepFrom(h[first].value as real, h[first + n - 1].value, h[first + n].value, d, n - 1);
    }
  }
}
