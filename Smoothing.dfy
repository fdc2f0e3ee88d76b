/**
 * The smoothing law every animated quantity of the script follows:
 * each frame a value moves a fixed fifth of the way to its target,
 * `v += (target - v) * 0.2`, so its distance to the target shrinks by 0.8.
 */
module Smoothing {

  function Abs(x: real): (a: real)
    ensures a >= 0.0 && (a == x || a == -x)
  {
    if x < 0.0 then -x else x
  }

  /** One frame of smoothing of `v` toward `target`. */
  function Smooth(v: real, target: real): (r: real)
    ensures r - target == 0.8 * (v - target)
    ensures v <= target ==> v <= r <= target
    ensures target <= v ==> target <= r <= v
  {
    v + (target - v) * 0.2
  }

  /** Each frame brings a value that is off its target strictly closer to it. */
  lemma SmoothApproaches(v: real, target: real)
    ensures v != target ==> Abs(Smooth(v, target) - target) < Abs(v - target)
  {
  }

  /** `n` frames of smoothing toward a fixed target. */
  function SmoothN(v: real, target: real, n: nat): real
    decreases n
  {
    if n == 0 then v else SmoothN(Smooth(v, target), target, n - 1)
  }

  function Pow(b: real, n: nat): real
  {
    if n == 0 then 1.0 else b * Pow(b, n - 1)
  }

  /** The decay factor after `n` frames is positive and at most 1. */
  lemma {:induction false} DecayBounds(n: nat)
    ensures 0.0 < Pow(0.8, n) <= 1.0
  {
    if n > 0 {
      DecayBounds(n - 1);
    }
  }

  /**
   * The decay factor vanishes: 0.8^n <= 1 / (1 + n/4), because 1.25^n is at
   * least 1 + n/4 (Bernoulli's inequality).
   */
  lemma {:induction false} DecayVanishes(n: nat)
    ensures Pow(0.8, n) * (1.0 + 0.25 * n as real) <= 1.0
  {
    if n > 0 {
      DecayVanishes(n - 1);
      DecayBounds(n - 1);
      var p := Pow(0.8, n - 1);
      var m := (n - 1) as real;
      calc {
        Pow(0.8, n) * (1.0 + 0.25 * n as real);
        0.8 * p * (1.0 + 0.25 * m + 0.25);
        0.8 * (p * (1.0 + 0.25 * m)) + 0.2 * p;
      <= 0.8 * 1.0 + 0.2 * 1.0;
        1.0;
      }
    }
  }

  /** Closed form of repeated smoothing: the error is 0.8^n times the initial error. */
  lemma {:induction false} SmoothNClosedForm(v: real, target: real, n: nat)
    ensures SmoothN(v, target, n) - target == Pow(0.8, n) * (v - target)
    decreases n
  {
    if n > 0 {
      var v' := Smooth(v, target);
      calc {
        SmoothN(v, target, n) - target;
        SmoothN(v', target, n - 1) - target;
        { SmoothNClosedForm(v', target, n - 1); }
        Pow(0.8, n - 1) * (v' - target);
        Pow(0.8, n - 1) * (0.8 * (v - target));
        (0.8 * Pow(0.8, n - 1)) * (v - target);
        Pow(0.8, n) * (v - target);
      }
    }
  }

  /** Repeated smoothing stays between the start value and the target. */
  lemma {:induction false} SmoothNBetween(v: real, target: real, n: nat)
    ensures v <= target ==> v <= SmoothN(v, target, n) <= target
    ensures target <= v ==> target <= SmoothN(v, target, n) <= v
    decreases n
  {
    if n > 0 {
      SmoothNBetween(Smooth(v, target), target, n - 1);
    }
  }

}
