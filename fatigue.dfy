/** The cyclic-fatigue driver: a fixed hull, a base free-surface correction
    and a periodic disturbance δ(t), gated once per tick for T ticks with the
    resistance carried from each tick into the next. */
module CyclicFatigue {
  import opened Prelude
  import opened Floats
  import opened Physics
  import opened Gate
  import opened Schedule

  /** The run's command-line configuration (file locations and labels aside). */
  datatype Config = Config(
    iT: Num, dispVol: Num, kb: Num, kg: Num, fsc: Num,
    ticks: int, mode: Mode, amp: Num, period: int, duty: real,
    th: Thresholds)

  /** The fields of one CSV row that vary with the tick; the configuration
      columns and the constant BM, KM, GM are the run's own. */
  datatype Row = Row(t: nat, delta: Num, gmEff: Num, classical: Classical,
                     a: Num, r: Num, s: Num, status: Status)

  /** The report's first DENY: tick, GM_eff, a, r, s and δ. */
  datatype FirstDeny = FirstDeny(t: nat, gmEff: Num, a: Num, r: Num, s: Num, delta: Num)

  datatype Run = Run(base: Base, rows: seq<Row>, firstDeny: Option<FirstDeny>)

  /** The run aborts before any row exists when the base case is undefined. */
  datatype Error = InvalidBaseInputs

  /** The number of ticks: T, or none when T ≤ 0. */
  function TickCount(cfg: Config): nat { if cfg.ticks > 0 then cfg.ticks else 0 }

  /** δ(t) as the driver asks for it: the period raised to at least one tick
      and the duty cycle clamped into [0, 1]. */
  function Delta(cfg: Config, t: int): Num {
    ScheduleDelta(t, cfg.mode, cfg.amp, IntMax(1, cfg.period), Max(0.0, Min(1.0, cfg.duty)))
  }

  /** One tick: GM_eff(t) = GM − FSC − δ(t), its classical sign, and the gate
      applied with the resistance carried in. */
  function Tick(cfg: Config, gm: real, t: nat, sOld: Num): Row {
    var delta := Delta(cfg, t);
    var gmEff := Sub(Sub(Fin(gm), cfg.fsc), delta);
    var d := SsbGate(gmEff, cfg.th, sOld);
    Row(t, delta, gmEff, ClassicalSign(gmEff), d.a, d.r, d.s, d.status)
  }

  /** The resistance handed to the next tick: 0 at the start of the run,
      afterwards whatever the last tick's gate returned. */
  function CarriedS(rows: seq<Row>): Num {
    if rows == [] then Fin(0.0) else rows[|rows| - 1].s
  }

  /** The first n rows of a run whose base GM is `gm`. */
  function Trace(cfg: Config, gm: real, n: nat): (rows: seq<Row>)
    ensures |rows| == n
    ensures forall t :: 0 <= t < n ==> rows[t].t == t
  {
    if n == 0 then []
    else
      var prev := Trace(cfg, gm, n - 1);
      prev + [Tick(cfg, gm, n - 1, CarriedS(prev))]
  }

  predicate IsDeny(row: Row) { row.status == Deny }

  /** The report's first DENY, taken from the first row whose status is DENY. */
  function FirstDenyOf(rows: seq<Row>): Option<FirstDeny> {
    match FirstWhere(rows, IsDeny)
    case None => None
    case Some(k) =>
      var row := rows[k];
      Some(FirstDeny(row.t, row.gmEff, row.a, row.r, row.s, row.delta))
  }

  /** `main` from the base computation to the last row. */
  method RunFatigue(cfg: Config) returns (res: Result<Run, Error>)
    ensures res.Failure? <==> ComputeBase(cfg.iT, cfg.dispVol, cfg.kb, cfg.kg).None?
    ensures res.Success? ==>
      var base := ComputeBase(cfg.iT, cfg.dispVol, cfg.kb, cfg.kg).value;
      res.value.base == base &&
      res.value.rows == Trace(cfg, base.gm, TickCount(cfg)) &&
      res.value.firstDeny == FirstDenyOf(res.value.rows)
  {
    var base := ComputeBase(cfg.iT, cfg.dispVol, cfg.kb, cfg.kg);
    if base.None? {
      return Failure(InvalidBaseInputs);
    }
    var gm := base.value.gm;
    var s := Fin(0.0);
    var firstDeny: Option<FirstDeny> := None;
    var rows: seq<Row> := [];
    var n := TickCount(cfg);
    for t := 0 to n
      invariant rows == Trace(cfg, gm, t)
      invariant s == CarriedS(rows)
      invariant firstDeny == FirstDenyOf(rows)
    {
      var delta := ScheduleDelta(t, cfg.mode, cfg.amp, IntMax(1, cfg.period), Max(0.0, Min(1.0, cfg.duty)));
      var gmEff := Sub(Sub(Fin(gm), cfg.fsc), delta);
      var classical := ClassicalSign(gmEff);
      var d := SsbGate(gmEff, cfg.th, s);
      s := d.s;
      if firstDeny.None? && d.status == Deny {
        firstDeny := Some(FirstDeny(t, gmEff, d.a, d.r, d.s, delta));
      }
      var row := Row(t, delta, gmEff, classical, d.a, d.r, d.s, d.status);
      FirstWhereSnoc(rows, row, IsDeny);
      rows := rows + [row];
    }
    return Success(Run(base.value, rows, firstDeny));
  }

  /** A longer run begins with a shorter one: rows never depend on later ticks. */
  lemma {:induction false} TracePrefix(cfg: Config, gm: real, n: nat, m: nat)
    requires m <= n
    ensures Trace(cfg, gm, n)[..m] == Trace(cfg, gm, m)
  {
    if m < n {
      TracePrefix(cfg, gm, n - 1, m);
      assert Trace(cfg, gm, n)[..n - 1] == Trace(cfg, gm, n - 1);
    }
  }

  /** Row t is the gate applied to tick t with the resistance of row t − 1
      (0 for the first row): each step's s is fed into the next call. */
  lemma TraceThreadsS(cfg: Config, gm: real, n: nat, t: nat)
    requires t < n
    ensures t == 0 ==> Trace(cfg, gm, n)[t] == Tick(cfg, gm, 0, Fin(0.0))
    ensures t > 0 ==> Trace(cfg, gm, n)[t] == Tick(cfg, gm, t, Trace(cfg, gm, n)[t - 1].s)
  {
    TracePrefix(cfg, gm, n, t + 1);
    assert Trace(cfg, gm, n)[t] == Trace(cfg, gm, t + 1)[t];
    if t > 0 {
      TracePrefix(cfg, gm, n, t);
      assert Trace(cfg, gm, n)[t - 1] == Trace(cfg, gm, t)[t - 1];
    }
  }

  /** With a finite FSC and amplitude every s is finite, and s never
      decreases from one tick to a later one. */
  lemma {:induction false} ResistanceNonDecreasing(cfg: Config, gm: real, n: nat)
    requires cfg.fsc.Fin? && cfg.amp.Fin?
    ensures forall i, j :: 0 <= i <= j < n ==>
      Trace(cfg, gm, n)[i].s.Fin? && Trace(cfg, gm, n)[j].s.Fin? &&
      Trace(cfg, gm, n)[i].s.v <= Trace(cfg, gm, n)[j].s.v
  {
    if n > 0 {
      ResistanceNonDecreasing(cfg, gm, n - 1);
      var prev := Trace(cfg, gm, n - 1);
      var rows := Trace(cfg, gm, n);
      assert rows == prev + [Tick(cfg, gm, n - 1, CarriedS(prev))];
      var last := rows[n - 1];
      assert Delta(cfg, n - 1).Fin?;
      assert CarriedS(prev).Fin?;
      assert last.s.v >= CarriedS(prev).v;
      forall i, j | 0 <= i <= j < n
        ensures rows[i].s.Fin? && rows[j].s.Fin? && rows[i].s.v <= rows[j].s.v
      {
        if j < n - 1 {
          assert rows[i] == prev[i] && rows[j] == prev[j];
        } else if i < n - 1 {
          assert rows[i] == prev[i];
          assert prev[i].s.v <= prev[n - 2].s.v;
        }
      }
    }
  }

  /** An ABSTAIN reports s as non-finite, and the loop carries that value
      forward: from then on every row's s is non-finite. */
  lemma {:induction false} AbstainPoisonsResistance(cfg: Config, gm: real, n: nat)
    ensures forall k, j :: 0 <= k <= j < n && Trace(cfg, gm, n)[k].status == Abstain ==>
      !Trace(cfg, gm, n)[j].s.Fin?
  {
    if n > 0 {
      AbstainPoisonsResistance(cfg, gm, n - 1);
      var prev := Trace(cfg, gm, n - 1);
      var rows := Trace(cfg, gm, n);
      assert rows == prev + [Tick(cfg, gm, n - 1, CarriedS(prev))];
      forall k, j | 0 <= k <= j < n && rows[k].status == Abstain
        ensures !rows[j].s.Fin?
      {
        if j < n - 1 {
          assert rows[k] == prev[k] && rows[j] == prev[j];
        } else if k < n - 1 {
          assert rows[k] == prev[k];
          assert !prev[n - 2].s.Fin?;
        }
      }
    }
  }

  /** The classical sign is STABLE exactly when GM_eff is finite and positive,
      and a row marked UNSTABLE is never ALLOW. */
  lemma UnstableNeverAllowed(cfg: Config, gm: real, n: nat)
    ensures forall t :: 0 <= t < n ==>
      (Trace(cfg, gm, n)[t].classical == Stable <==>
         Trace(cfg, gm, n)[t].gmEff.Fin? && Trace(cfg, gm, n)[t].gmEff.v > 0.0)
    ensures forall t :: 0 <= t < n && Trace(cfg, gm, n)[t].classical == Unstable ==>
      Trace(cfg, gm, n)[t].status != Allow
  {
    forall t | 0 <= t < n
      ensures Trace(cfg, gm, n)[t].classical == Stable <==>
         Trace(cfg, gm, n)[t].gmEff.Fin? && Trace(cfg, gm, n)[t].gmEff.v > 0.0
      ensures Trace(cfg, gm, n)[t].classical == Unstable ==> Trace(cfg, gm, n)[t].status != Allow
    {
      TraceThreadsS(cfg, gm, n, t);
    }
  }

  /** The disturbance, and with it GM_eff, repeats every period of ticks. */
  lemma GmEffPeriodic(cfg: Config, gm: real, n: nat, t: nat)
    requires t + IntMax(1, cfg.period) < n
    ensures Trace(cfg, gm, n)[t + IntMax(1, cfg.period)].delta == Trace(cfg, gm, n)[t].delta
    ensures Trace(cfg, gm, n)[t + IntMax(1, cfg.period)].gmEff == Trace(cfg, gm, n)[t].gmEff
  {
    var p := IntMax(1, cfg.period);
    TraceThreadsS(cfg, gm, n, t);
    TraceThreadsS(cfg, gm, n, t + p);
    Periodic(t, cfg.mode, cfg.amp, p, Max(0.0, Min(1.0, cfg.duty)));
  }
}
