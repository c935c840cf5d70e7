/** The deterministic disturbance penalty δ(t) of the fatigue driver, as a
    function of the integer tick. */
module Schedule {
  import opened Floats

  /** The waveforms modelled: square, ramp and constant (the else branch of
      the mode test). The fourth mode, sine_abs, is not modelled. */
  datatype Mode = Square | Ramp | Constant

  /** Where tick `t` falls within its period, as a fraction in [0, 1). */
  function Phase(t: int, period: int): (p: real)
    requires period >= 1
    ensures 0.0 <= p < 1.0
    ensures p * (period as real) == (t % period) as real
  {
    (t % period) as real / period as real
  }

  /** `schedule_delta(t, mode, amp, period, duty)` for a period of at least one tick. */
  function ScheduleDelta(t: int, mode: Mode, amp: Num, period: int, duty: real): (d: Num)
    requires period >= 1
    // A finite amplitude gives a finite penalty between 0 and amp.
    ensures amp.Fin? ==> d.Fin? && Min(0.0, amp.v) <= d.v <= Max(0.0, amp.v)
    ensures amp.Fin? && amp.v >= 0.0 ==> d.v >= 0.0
    // The square wave is either amp or 0, the ramp a fraction of amp.
    ensures mode == Square ==> d == amp || d == Fin(0.0)
    ensures mode == Constant ==> d == amp
  {
    match mode
    case Square => if Phase(t, period) < duty then amp else Fin(0.0)
    case Ramp =>
      var p := Phase(t, period);
      assert amp.Fin? ==> Min(0.0, amp.v) <= amp.v * p <= Max(0.0, amp.v) by {
        if amp.Fin? { ScaleBounds(amp.v, p); }
      }
      Mul(amp, Fin(p))
    case Constant => amp
  }

  /** The square wave is on exactly for the first `duty` fraction of each period. */
  lemma SquareOnIff(t: int, amp: Num, period: int, duty: real)
    requires period >= 1
    requires amp != Fin(0.0)
    ensures ScheduleDelta(t, Square, amp, period, duty) == amp <==> (t % period) as real < duty * period as real
  {
    var p := Phase(t, period);
    var P := period as real;
    if p < duty {
      assert p * P < duty * P;
    } else {
      assert p * P >= duty * P;
    }
  }

  /** Every schedule repeats with the period: δ(t + P) = δ(t). */
  lemma {:induction false} Periodic(t: int, mode: Mode, amp: Num, period: int, duty: real)
    requires period >= 1
    ensures ScheduleDelta(t + period, mode, amp, period, duty) == ScheduleDelta(t, mode, amp, period, duty)
  {
    ModShift(t, period);
  }

  lemma ModShift(t: int, period: int)
    requires period >= 1
    ensures (t + period) % period == t % period
  {
    var q, r := t / period, t % period;
    var q1, r1 := (t + period) / period, (t + period) % period;
    var k := q1 - q - 1;
    assert k * period == q1 * period - q * period - period;
    assert k * period == r - r1;
    if k >= 1 {
      TimesAtLeast(k, period);
    } else if k <= -1 {
      TimesAtLeast(-k, period);
    }
  }

  lemma TimesAtLeast(k: int, period: int)
    requires k >= 1 && period >= 1
    ensures k * period >= period
  {
    assert k * period == (k - 1) * period + period;
    assert (k - 1) * period >= 0;
  }

  /** A fraction in [0, 1) of x lies between 0 and x. */
  lemma ScaleBounds(x: real, p: real)
    requires 0.0 <= p < 1.0
    ensures Min(0.0, x) <= x * p <= Max(0.0, x)
  {
    var y := x * p;
    if x >= 0.0 {
      ScaleBelow(x, p, y);
      assert Min(0.0, x) == 0.0 && Max(0.0, x) == x;
    } else {
      ScaleAbove(x, p, y);
      assert Min(0.0, x) == x && Max(0.0, x) == 0.0;
    }
  }

  lemma ScaleBelow(x: real, p: real, y: real)
    requires 0.0 <= p < 1.0 && x >= 0.0 && y == x * p
    ensures 0.0 <= y <= x
  {
    var q := 1.0 - p;
    assert x - y == x * q;
    NonNegProduct(x, q);
    NonNegProduct(x, p);
  }

  lemma ScaleAbove(x: real, p: real, y: real)
    requires 0.0 <= p < 1.0 && x < 0.0 && y == x * p
    ensures x <= y <= 0.0
  {
    var q := 1.0 - p;
    assert y - x == (-x) * q;
    NonNegProduct(-x, q);
    assert -y == (-x) * p;
    NonNegProduct(-x, p);
  }

  lemma NonNegProduct(x: real, y: real)
    requires x >= 0.0 && y >= 0.0
    ensures x * y >= 0.0
  {
  }

  /** The worked example: a square wave of amplitude 0.06, period 20 and
      duty 0.35 is on at t = 5 (phase 0.25) and off at t = 15 (phase 0.75). */
  lemma SquareExample()
    ensures ScheduleDelta(5, Square, Fin(0.06), 20, 0.35) == Fin(0.06)
    ensures ScheduleDelta(15, Square, Fin(0.06), 20, 0.35) == Fin(0.0)
  {
  }

  /** The ramp rises linearly within a period: amp · (t mod P) / P. */
  lemma RampExact(t: int, amp: real, period: int, duty: real)
    requires period >= 1
    ensures ScheduleDelta(t, Ramp, Fin(amp), period, duty).v * period as real == amp * (t % period) as real
  {
    var p := Phase(t, period);
    assert (amp * p) * period as real == amp * (p * period as real);
  }
}
