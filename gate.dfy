/** The Structural Safety Boundary gate: a one-step transition whose only
    carried datum is the resistance `s`. From GM_eff and the thresholds it
    derives the permission `a`, the risk `r` and the accumulated `s`, then
    decides ABSTAIN, DENY or ALLOW by first-match precedence. */
module Gate {
  import opened Floats
  import opened Physics

  datatype Status = Allow | Deny | Abstain

  /** GM_safe, a_min, r_safe and s_max of one run. */
  datatype Thresholds = Thresholds(gmSafe: real, aMin: real, rSafe: real, sMax: real)

  /** The gate's four outputs: permission, risk, resistance after the step, status. */
  datatype Decision = Decision(a: Num, r: Num, s: Num, status: Status)

  /** Guards a degenerate GM_safe in the margin's denominator. */
  const EPS: real := 1e-12

  /** `clamp01`: the nearest point of [0, 1]. */
  function Clamp01(x: real): (c: real)
    ensures 0.0 <= c <= 1.0
    ensures 0.0 <= x <= 1.0 ==> c == x
    ensures x < 0.0 ==> c == 0.0
    ensures x > 1.0 ==> c == 1.0
  {
    if x < 0.0 then 0.0 else if x > 1.0 then 1.0 else x
  }

  /** GM_eff measured in units of GM_safe (floored at EPS): the margin times
      the denominator gives GM_eff back, and it has GM_eff's sign. */
  function Margin(gmEff: real, gmSafe: real): (m: real)
    ensures Max(gmSafe, EPS) > 0.0
    ensures m * Max(gmSafe, EPS) == gmEff
    ensures m > 0.0 <==> gmEff > 0.0
  {
    gmEff / Max(gmSafe, EPS)
  }

  /** `ssb_gate(GM_eff, GM_safe, a_min, s_old, r_safe, s_max)`. */
  function SsbGate(gmEff: Num, th: Thresholds, sOld: Num): (d: Decision)
    // 1. A non-finite GM_eff abstains, and reports a, r and s as non-finite.
    ensures d.status == Abstain <==> !gmEff.Fin?
    ensures !gmEff.Fin? ==> d.a == NonFinite && d.r == NonFinite && d.s == NonFinite
    // Otherwise a is the margin clamped into [0, 1], r is the margin's
    // shortfall below 1, and s grows by the risk in excess of r_safe.
    ensures gmEff.Fin? ==>
      var m := Margin(gmEff.v, th.gmSafe);
      d.a == Fin(Clamp01(m)) && d.r.Fin? &&
      (m <= 1.0 ==> d.r.v == 1.0 - m) && (m >= 1.0 ==> d.r.v == 0.0)
    ensures gmEff.Fin? ==> 0.0 <= d.a.v <= 1.0 && d.r.v >= 0.0
    ensures gmEff.Fin? ==> (d.s.Fin? <==> sOld.Fin?)
    ensures gmEff.Fin? && sOld.Fin? ==> d.s.v == sOld.v + Max(0.0, d.r.v - th.rSafe)
    ensures gmEff.Fin? && sOld.Fin? ==> d.s.v >= sOld.v
    // 2. Classical instability overrides every governance margin.
    ensures gmEff.Fin? && gmEff.v <= 0.0 ==> d.status == Deny
    // 3. and 4. Otherwise DENY on low permission or excess resistance, else ALLOW.
    ensures d.status == Allow <==>
      gmEff.Fin? && gmEff.v > 0.0 && d.a.v >= th.aMin && !Exceeds(d.s, th.sMax)
  {
    if !IsFinite(gmEff) then Decision(NonFinite, NonFinite, NonFinite, Abstain)
    else
      var margin := Margin(gmEff.v, th.gmSafe);
      var a := Clamp01(margin);
      var r := Max(0.0, 1.0 - margin);
      var s := Add(sOld, Fin(Max(0.0, r - th.rSafe)));
      if gmEff.v <= 0.0 then Decision(Fin(a), Fin(r), s, Deny)
      else if a < th.aMin || Exceeds(s, th.sMax) then Decision(Fin(a), Fin(r), s, Deny)
      else Decision(Fin(a), Fin(r), s, Allow)
  }

  /** A gate that ALLOWs has a classically STABLE GM_eff: an UNSTABLE row is
      never ALLOW. */
  lemma AllowIsStable(gmEff: Num, th: Thresholds, sOld: Num)
    ensures SsbGate(gmEff, th, sOld).status == Allow ==> ClassicalSign(gmEff) == Stable
  {
  }

  /** The worked example: GM_eff = 0.06 against GM_safe = 0.15 gives margin 0.4,
      a = 0.4, r = 0.6, and with r_safe = 0.10 the resistance grows by 0.5;
      a_min = 0.70 then DENYs. */
  lemma GateExample()
    ensures SsbGate(Fin(0.06), Thresholds(0.15, 0.70, 0.10, 1.00), Fin(0.0))
         == Decision(Fin(0.4), Fin(0.6), Fin(0.5), Deny)
  {
    assert Margin(0.06, 0.15) == 0.4;
  }

  /** Less stability and more carried resistance never turn a DENY into an
      ALLOW: the gate is monotone in both of its changing inputs. */
  lemma DenyMonotone(g1: real, g2: real, s1: real, s2: real, th: Thresholds)
    requires g1 <= g2 && s1 >= s2
    requires SsbGate(Fin(g2), th, Fin(s2)).status == Deny
    ensures SsbGate(Fin(g1), th, Fin(s1)).status == Deny
    ensures SsbGate(Fin(g1), th, Fin(s1)).s.v >= SsbGate(Fin(g2), th, Fin(s2)).s.v
  {
    var den := Max(th.gmSafe, EPS);
    var m1, m2 := Margin(g1, th.gmSafe), Margin(g2, th.gmSafe);
    MarginMonotone(g1, g2, den, m1, m2);
  }

  lemma MarginMonotone(g1: real, g2: real, den: real, m1: real, m2: real)
    requires g1 <= g2 && den > 0.0
    requires m1 * den == g1 && m2 * den == g2
    ensures m1 <= m2
  {
    DivideOut(m1, m2, den);
  }
}
