/**
 * The rate controller of the replay loop: every hundredth rate-limited record the pacing
 * multiplier `mult` moves by the difference between the measured and the requested rate,
 * and is never allowed below zero. Doubles are modelled as reals.
 */
module RateControl {

  /** The multiplier is adjusted once every this many rate-limited records. */
  const ADJUST_PERIOD: nat := 100

  /** `mult = mult + (real_rate - rate); if (mult < 0) mult = 0;` */
  function Adjust(mult: real, measured: real, target: real): (m: real)
    ensures m >= 0.0
    ensures mult + (measured - target) >= 0.0 ==> m == mult + (measured - target)
    ensures mult + (measured - target) < 0.0 ==> m == 0.0
  {
    var next := mult + (measured - target);
    if next < 0.0 then 0.0 else next
  }

  /**
   * The control law pushes the multiplier the right way: a replay that runs faster than
   * requested waits longer per byte, a slower one waits less (down to no wait at all).
   */
  lemma AdjustDirection(mult: real, measured: real, target: real)
    requires mult >= 0.0
    ensures measured >= target ==> Adjust(mult, measured, target) >= mult
    ensures measured <= target ==> Adjust(mult, measured, target) <= mult
    ensures measured == target ==> Adjust(mult, measured, target) == mult
  {
  }

  /** The rate-limited record whose counter reads `ix` before `ix++` adjusts the multiplier. */
  predicate AdjustsAt(ix: nat) {
    ix % ADJUST_PERIOD == 0
  }

  /** Adjustments made while the first `n` rate-limited records are paced. */
  function Adjustments(n: nat): (c: nat)
    ensures c <= n
  {
    if n == 0 then 0 else Adjustments(n - 1) + (if AdjustsAt(n - 1) then 1 else 0)
  }

  /**
   * The post-increment test `ix++ % 100 == 0` adjusts on records 0, 100, 200, ...: after `n`
   * rate-limited records, `ceil(n / 100)` adjustments have been made, the first one at once.
   */
  lemma {:induction false} AdjustmentsClosed(n: nat)
    ensures Adjustments(n) == (n + ADJUST_PERIOD - 1) / ADJUST_PERIOD
  {
    if n > 0 {
      AdjustmentsClosed(n - 1);
    }
  }

  /** The multiplier after a series of adjustments against the measured rates `measured`. */
  function MultAfter(start: real, measured: seq<real>, target: real): (m: real)
    requires start >= 0.0
    ensures m >= 0.0
  {
    if measured == [] then start
    else Adjust(MultAfter(start, measured[..|measured| - 1], target), measured[|measured| - 1], target)
  }

  /**
   * While every measurement is at most the requested rate the multiplier never grows: a
   * replay that never runs ahead of its target only ever shortens its waits.
   */
  lemma {:induction false} MultNeverGrowsWhenSlow(start: real, measured: seq<real>, target: real)
    requires start >= 0.0
    requires forall i :: 0 <= i < |measured| ==> measured[i] <= target
    ensures MultAfter(start, measured, target) <= start
  {
    if measured != [] {
      var init := measured[..|measured| - 1];
      assert forall i :: 0 <= i < |init| ==> init[i] == measured[i];
      MultNeverGrowsWhenSlow(start, init, target);
      AdjustDirection(MultAfter(start, init, target), measured[|measured| - 1], target);
    }
  }
}
