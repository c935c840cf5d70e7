/** The hydrostatic stability relations shared by every driver:
    BM = I_T / ∇, KM = KB + BM, GM = KM − KG and GM_eff = GM − penalty. */
module Physics {
  import opened Prelude
  import opened Floats

  /** What `compute_base` returns: BM, KM and GM. */
  datatype Base = Base(bm: real, km: real, gm: real)

  /** What `compute_case` returns: BM, KM, GM and GM_eff. */
  datatype Case = Case(bm: real, km: real, gm: real, gmEff: real)

  /** The classical stability sign written beside every row. */
  datatype Classical = Stable | Unstable

  /** `compute_base(I_T, disp_vol, KB, KG)`: `None` on a non-finite input or a
      non-positive displaced volume or second moment; otherwise BM is the
      quotient I_T / ∇ (BM · ∇ = I_T), KM rises over KB by BM and GM is KM
      less KG. */
  function ComputeBase(iT: Num, dispVol: Num, kb: Num, kg: Num): (r: Option<Base>)
    ensures r.None? <==>
      !(iT.Fin? && dispVol.Fin? && kb.Fin? && kg.Fin?) || dispVol.v <= 0.0 || iT.v <= 0.0
    ensures r.Some? ==>
      r.value.bm * dispVol.v == iT.v && r.value.bm > 0.0 &&
      r.value.km == kb.v + r.value.bm &&
      r.value.gm == r.value.km - kg.v
  {
    if !(IsFinite(iT) && IsFinite(dispVol) && IsFinite(kb) && IsFinite(kg)) then None
    else if dispVol.v <= 0.0 || iT.v <= 0.0 then None
    else
      var bm := iT.v / dispVol.v;
      var km := kb.v + bm;
      var gm := km - kg.v;
      Some(Base(bm, km, gm))
  }

  /** `compute_case(I_T, disp_vol, KB, KG, FSC)`: the base relations with the
      free-surface correction also required finite; it agrees with
      `compute_base` on BM, KM and GM and takes FSC off GM to give GM_eff. */
  function ComputeCase(iT: Num, dispVol: Num, kb: Num, kg: Num, fsc: Num): (r: Option<Case>)
    ensures r.None? <==> ComputeBase(iT, dispVol, kb, kg).None? || !fsc.Fin?
    ensures r.Some? ==>
      var b := ComputeBase(iT, dispVol, kb, kg).value;
      r.value.bm == b.bm && r.value.km == b.km && r.value.gm == b.gm &&
      r.value.gmEff == b.gm - fsc.v
  {
    if !(IsFinite(iT) && IsFinite(dispVol) && IsFinite(kb) && IsFinite(kg) && IsFinite(fsc)) then None
    else if dispVol.v <= 0.0 || iT.v <= 0.0 then None
    else
      var bm := iT.v / dispVol.v;
      var km := kb.v + bm;
      var gm := km - kg.v;
      Some(Case(bm, km, gm, gm - fsc.v))
  }

  /** "STABLE" exactly when GM_eff is finite and positive. */
  function ClassicalSign(gmEff: Num): Classical {
    if IsFinite(gmEff) && gmEff.v > 0.0 then Stable else Unstable
  }

  /** The worked example of the fatigue driver's defaults:
      I_T = 3.60, ∇ = 8.00, KB = 0.55, KG = 0.88 give BM = 0.45, KM = 1.00, GM = 0.12. */
  lemma BaseExample()
    ensures ComputeBase(Fin(3.60), Fin(8.00), Fin(0.55), Fin(0.88)) == Some(Base(0.45, 1.00, 0.12))
  {
  }

  /** More displaced volume means a smaller metacentric radius, hence a lower
      GM_eff, all else equal: the displacement sweep is a descent in GM_eff. */
  lemma GmEffFallsWithDisplacement(iT: Num, d1: real, d2: real, kb: Num, kg: Num, fsc: Num)
    requires ComputeCase(iT, Fin(d1), kb, kg, fsc).Some?
    requires d1 <= d2
    ensures ComputeCase(iT, Fin(d2), kb, kg, fsc).Some?
    ensures ComputeCase(iT, Fin(d2), kb, kg, fsc).value.gmEff <= ComputeCase(iT, Fin(d1), kb, kg, fsc).value.gmEff
  {
    var c1 := ComputeCase(iT, Fin(d1), kb, kg, fsc).value;
    var c2 := ComputeCase(iT, Fin(d2), kb, kg, fsc).value;
    QuotientFalls(iT.v, d1, d2, c1.bm, c2.bm);
  }

  /** For a positive numerator, a larger denominator gives a smaller quotient. */
  lemma QuotientFalls(n: real, d1: real, d2: real, q1: real, q2: real)
    requires n > 0.0 && 0.0 < d1 <= d2
    requires q1 * d1 == n && q2 * d2 == n
    ensures q2 <= q1
  {
    assert q2 > 0.0;
    assert q2 * d1 <= q2 * d2 by { MulMono(d1, d2, q2); }
    assert q2 * d1 <= q1 * d1;
    DivideOut(q2, q1, d1);
  }

  lemma DivideOut(x: real, y: real, c: real)
    requires c > 0.0 && x * c <= y * c
    ensures x <= y
  {
  }

  lemma MulMono(x: real, y: real, c: real)
    requires x <= y && c >= 0.0
    ensures c * x <= c * y
  {
  }
}
