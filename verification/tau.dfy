/**
 * The burst-time estimate of sim_sjf.h and sim_srt.h. The C code computes
 * `ceil(alpha * actual + (1 - alpha) * tau)` in double precision; the model
 * uses exact reals.
 */
module Tau {

  /** `ceil` on reals. */
  function Ceil(x: real): (r: int)
    ensures x <= r as real < x + 1.0
  {
    -((-x).Floor)
  }

  /** `calculate_tau`: exponential averaging of the last burst into the estimate. */
  function CalculateTau(alpha: real, previousTau: int, actualBurst: int): int {
    Ceil(alpha * actualBurst as real + (1.0 - alpha) * previousTau as real)
  }

  /**
   * For a smoothing factor in [0, 1] the new estimate lies between the old
   * estimate and the observed burst; in particular it stays positive when
   * both are.
   */
  lemma TauBetween(alpha: real, previousTau: int, actualBurst: int)
    requires 0.0 <= alpha <= 1.0
    ensures var t := CalculateTau(alpha, previousTau, actualBurst);
      (if previousTau < actualBurst then previousTau else actualBurst) <= t
      && t <= (if previousTau < actualBurst then actualBurst else previousTau)
  {
    var a := actualBurst as real;
    var p := previousTau as real;
    var x := alpha * a + (1.0 - alpha) * p;
    var lo := if p < a then p else a;
    var hi := if p < a then a else p;
    assert x - lo == alpha * (a - lo) + (1.0 - alpha) * (p - lo);
    MulNonNegative(alpha, a - lo);
    MulNonNegative(1.0 - alpha, p - lo);
    assert hi - x == alpha * (hi - a) + (1.0 - alpha) * (hi - p);
    MulNonNegative(alpha, hi - a);
    MulNonNegative(1.0 - alpha, hi - p);
  }

  lemma MulNonNegative(x: real, y: real)
    requires x >= 0.0 && y >= 0.0
    ensures x * y >= 0.0
  {
  }

  /** With alpha = 1 the estimate becomes the observed burst exactly. */
  lemma TauAlphaOne(previousTau: int, actualBurst: int)
    ensures CalculateTau(1.0, previousTau, actualBurst) == actualBurst
  {
    assert 1.0 * actualBurst as real + (1.0 - 1.0) * previousTau as real == actualBurst as real;
  }

  /** With alpha = 0 the estimate never moves. */
  lemma TauAlphaZero(previousTau: int, actualBurst: int)
    ensures CalculateTau(0.0, previousTau, actualBurst) == previousTau
  {
    assert 0.0 * actualBurst as real + (1.0 - 0.0) * previousTau as real == previousTau as real;
  }

  /**
   * `calculate_tau2`: the sentinel alpha = -1 switches estimation off and
   * the observed burst is used as is.
   */
  function CalculateTau2(alpha: real, previousTau: int, actualBurst: int): (r: int)
    ensures alpha == -1.0 ==> r == actualBurst
    ensures 0.0 <= alpha <= 1.0 ==>
      (if previousTau < actualBurst then previousTau else actualBurst) <= r
      && r <= (if previousTau < actualBurst then actualBurst else previousTau)
  {
    if alpha == -1.0 then actualBurst
    else
      TauBetweenIfInRange(alpha, previousTau, actualBurst);
      CalculateTau(alpha, previousTau, actualBurst)
  }

  lemma TauBetweenIfInRange(alpha: real, previousTau: int, actualBurst: int)
    ensures 0.0 <= alpha <= 1.0 ==>
      var t := CalculateTau(alpha, previousTau, actualBurst);
      (if previousTau < actualBurst then previousTau else actualBurst) <= t
      && t <= (if previousTau < actualBurst then actualBurst else previousTau)
  {
    if 0.0 <= alpha <= 1.0 {
      TauBetween(alpha, previousTau, actualBurst);
    }
  }

  /** The initial estimate `ceil(1.0 / lambda)`. */
  function InitialTau(lambda: real): (r: int)
    requires lambda > 0.0
    ensures r >= 1
    ensures (r - 1) as real < 1.0 / lambda <= r as real
  {
    Ceil(1.0 / lambda)
  }

  /** The check at the top of `simulate_sjf`: alpha is -1 or lies in [0, 1]. */
  function SjfAlphaAccepted(alpha: real): (ok: bool)
    // The positive form of the rejection test at sim_sjf.h:79-82.
    ensures ok <==> alpha == -1.0 || 0.0 <= alpha <= 1.0
  {
    !(alpha != -1.0 && (alpha < 0.0 || alpha > 1.0))
  }

  /**
   * What the SJF check guarantees: with any alpha it accepts, the
   * re-estimate lies between the previous tau and the observed burst (the
   * sentinel -1 gives the burst itself).
   */
  lemma AcceptedAlphaKeepsTauInRange(alpha: real, previousTau: int, actualBurst: int)
    requires SjfAlphaAccepted(alpha)
    ensures var t := CalculateTau2(alpha, previousTau, actualBurst);
      && (if previousTau < actualBurst then previousTau else actualBurst) <= t
      && t <= (if previousTau < actualBurst then actualBurst else previousTau)
      && (alpha == -1.0 ==> t == actualBurst)
  {
  }
}
