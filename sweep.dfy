/** The displacement sweep: the displaced volume ∇ walks from a start value in
    fixed steps up to the end value (with half a step of tolerance), and each
    point is gated with the resistance carried over from the previous point. */
module DispSweep {
  import opened Prelude
  import opened Floats
  import opened Physics
  import opened Gate

  /** The run's command-line configuration (file locations and labels aside). */
  datatype Config = Config(
    iT: Num, kb: Num, kg: Num, fsc: Num,
    start: real, end: real, step: real,
    th: Thresholds)

  /** One CSV row: index, ∇, BM, KM, GM, GM_eff, classical sign, a, r, s, status. */
  datatype Row = Row(j: nat, dispVol: real, bm: Num, km: Num, gm: Num, gmEff: Num,
                     classical: Classical, a: Num, r: Num, s: Num, status: Status)

  /** A reported marker: the ∇ at which it was reached and GM_eff there. */
  datatype Hit = Hit(dispVol: real, gmEff: Num)

  /** What the report states besides the rows: the three status counts and
      the three first markers. */
  datatype Tally = Tally(nAllow: nat, nDeny: nat, nAbstain: nat,
                         firstBelowSafe: Option<Hit>, firstDeny: Option<Hit>,
                         firstUnstable: Option<Hit>)

  datatype Sweep = Sweep(rows: seq<Row>, tally: Tally)

  /** The last admissible ∇: the end value plus half a step. */
  function Limit(cfg: Config): real { cfg.end + 0.5 * cfg.step }

  /** The j-th point of the sweep: the start value plus j steps. */
  function Point(cfg: Config, j: nat): real { cfg.start + (j as real) * cfg.step }

  /** The loop terminates exactly when the step is positive or the first
      point is already past the limit; otherwise the script never stops. */
  predicate Terminates(cfg: Config) { cfg.step > 0.0 || cfg.start > Limit(cfg) }

  /** How many points the sweep visits: ⌊(limit − start) / step⌋ + 1, or none. */
  function RowCount(cfg: Config): nat {
    if cfg.step <= 0.0 || cfg.start > Limit(cfg) then 0
    else ((Limit(cfg) - cfg.start) / cfg.step).Floor + 1
  }

  /** One point: a row of `nan`s that ABSTAINs and keeps s when `compute_case`
      fails, otherwise the case's values and the gate fed the carried s. */
  function Step(cfg: Config, j: nat, sOld: Num): Row {
    var dv := Point(cfg, j);
    match ComputeCase(cfg.iT, Fin(dv), cfg.kb, cfg.kg, cfg.fsc)
    case None =>
      Row(j, dv, NonFinite, NonFinite, NonFinite, NonFinite, Unstable, NonFinite, NonFinite, sOld, Abstain)
    case Some(c) =>
      var gmEff := Fin(c.gmEff);
      var d := SsbGate(gmEff, cfg.th, sOld);
      Row(j, dv, Fin(c.bm), Fin(c.km), Fin(c.gm), gmEff, ClassicalSign(gmEff), d.a, d.r, d.s, d.status)
  }

  /** The resistance carried into the next point: 0 first, then the last row's. */
  function CarriedS(rows: seq<Row>): Num {
    if rows == [] then Fin(0.0) else rows[|rows| - 1].s
  }

  /** The first n rows of the sweep. */
  function Trace(cfg: Config, n: nat): (rows: seq<Row>)
    ensures |rows| == n
    ensures forall j :: 0 <= j < n ==> rows[j].j == j
  {
    if n == 0 then []
    else
      var prev := Trace(cfg, n - 1);
      prev + [Step(cfg, n - 1, CarriedS(prev))]
  }

  predicate IsAllow(row: Row) { row.status == Allow }
  predicate IsDeny(row: Row) { row.status == Deny }
  predicate IsAbstain(row: Row) { row.status == Abstain }

  /** "First GM_eff < GM_safe": a computed, finite GM_eff below the threshold. */
  function BelowSafe(gmSafe: real): Row -> bool {
    (row: Row) => row.gmEff.Fin? && row.gmEff.v < gmSafe
  }

  /** "First Classical UNSTABLE": only points where `compute_case` succeeded
      are considered, although failed points are also written as UNSTABLE. */
  predicate ComputedUnstable(row: Row) { row.gmEff.Fin? && row.classical == Unstable }

  function FirstHit(rows: seq<Row>, p: Row -> bool): Option<Hit> {
    match FirstWhere(rows, p)
    case None => None
    case Some(k) => Some(Hit(rows[k].dispVol, rows[k].gmEff))
  }

  lemma FirstHitSnoc(rows: seq<Row>, row: Row, p: Row -> bool)
    ensures FirstHit(rows + [row], p) ==
            if FirstHit(rows, p).Some? then FirstHit(rows, p)
            else if p(row) then Some(Hit(row.dispVol, row.gmEff)) else None
  {
    FirstWhereSnoc(rows, row, p);
    if FirstWhere(rows, p).Some? {
      assert (rows + [row])[FirstWhere(rows, p).value] == rows[FirstWhere(rows, p).value];
    }
  }

  /** `main` from the first point to the report's counts and markers. */
  method RunSweep(cfg: Config) returns (out: Sweep)
    requires Terminates(cfg)
    ensures out.rows == Trace(cfg, RowCount(cfg))
    // The sweep visits exactly the points up to the limit.
    ensures forall j :: 0 <= j < |out.rows| ==> Point(cfg, j) <= Limit(cfg)
    ensures Point(cfg, |out.rows|) > Limit(cfg)
    ensures out.tally == TallyOf(out.rows, cfg.th.gmSafe)
    ensures out.tally.nAllow + out.tally.nDeny + out.tally.nAbstain == |out.rows|
  {
    var rows, tally, j := Walk(cfg);
    AtRowCount(cfg, j);
    PointsWithinLimit(cfg);
    StatusCountsCoverRows(rows);
    out := Sweep(rows, tally);
  }

  /** The `while` loop: rows are produced until the next point passes the limit. */
  method Walk(cfg: Config) returns (rows: seq<Row>, tally: Tally, j: nat)
    requires Terminates(cfg)
    ensures rows == Trace(cfg, j) && tally == TallyOf(rows, cfg.th.gmSafe)
    ensures j <= RowCount(cfg) && (cfg.step <= 0.0 ==> j == 0)
    ensures Point(cfg, j) > Limit(cfg)
  {
    rows := [];
    var s := Fin(0.0);
    tally := Tally(0, 0, 0, None, None, None);
    j := 0;
    var dispVol := cfg.start;
    while dispVol <= Limit(cfg)
      invariant dispVol == Point(cfg, j)
      invariant cfg.step <= 0.0 ==> j == 0
      invariant j <= RowCount(cfg)
      invariant rows == Trace(cfg, j)
      invariant s == CarriedS(rows)
      invariant tally == TallyOf(rows, cfg.th.gmSafe)
      decreases RowCount(cfg) - j
    {
      BelowRowCount(cfg, j);
      var row := EvaluatePoint(cfg, j, dispVol, s);
      s := row.s;
      tally := Record(tally, rows, row, cfg.th.gmSafe);
      assert row == Step(cfg, j, CarriedS(rows));
      rows := rows + [row];
      j := j + 1;
      assert rows == Trace(cfg, j);
      dispVol := Point(cfg, j);
    }
  }

  /** Every row has exactly one of the three statuses, so the report's three
      counts add up to the number of rows. */
  lemma StatusCountsCoverRows(rows: seq<Row>)
    ensures CountWhere(rows, IsAllow) + CountWhere(rows, IsDeny) + CountWhere(rows, IsAbstain) == |rows|
  {
    CountPartition(rows, IsAllow, IsDeny, IsAbstain);
  }

  /** The report's counts and markers over the rows so far. */
  function TallyOf(rows: seq<Row>, gmSafe: real): Tally {
    Tally(CountWhere(rows, IsAllow), CountWhere(rows, IsDeny), CountWhere(rows, IsAbstain),
          FirstHit(rows, BelowSafe(gmSafe)), FirstHit(rows, IsDeny), FirstHit(rows, ComputedUnstable))
  }

  /** The loop's bookkeeping for one row: the counter of its status goes up
      by one, and each marker not yet set is set if the row meets its test. */
  method Record(t: Tally, rows: seq<Row>, row: Row, gmSafe: real) returns (t': Tally)
    requires t == TallyOf(rows, gmSafe)
    ensures t' == TallyOf(rows + [row], gmSafe)
  {
    var nAllow, nDeny, nAbstain := CountRow(t, rows, row, gmSafe);
    var firstBelowSafe, firstDeny, firstUnstable := MarkRow(t, rows, row, gmSafe);
    t' := Tally(nAllow, nDeny, nAbstain, firstBelowSafe, firstDeny, firstUnstable);
  }

  /** The counter of the row's status goes up by one. */
  method CountRow(t: Tally, rows: seq<Row>, row: Row, gmSafe: real) returns (nAllow: nat, nDeny: nat, nAbstain: nat)
    requires t == TallyOf(rows, gmSafe)
    ensures nAllow == CountWhere(rows + [row], IsAllow)
    ensures nDeny == CountWhere(rows + [row], IsDeny)
    ensures nAbstain == CountWhere(rows + [row], IsAbstain)
  {
    CountWhereSnoc(rows, row, IsAllow);
    CountWhereSnoc(rows, row, IsDeny);
    CountWhereSnoc(rows, row, IsAbstain);
    nAllow, nDeny, nAbstain := t.nAllow, t.nDeny, t.nAbstain;
    if row.status == Allow {
      nAllow := nAllow + 1;
    } else if row.status == Deny {
      nDeny := nDeny + 1;
    } else {
      nAbstain := nAbstain + 1;
    }
  }

  /** Each marker not yet set is set if the row meets its test. */
  method MarkRow(t: Tally, rows: seq<Row>, row: Row, gmSafe: real)
    returns (firstBelowSafe: Option<Hit>, firstDeny: Option<Hit>, firstUnstable: Option<Hit>)
    requires t == TallyOf(rows, gmSafe)
    ensures firstBelowSafe == FirstHit(rows + [row], BelowSafe(gmSafe))
    ensures firstDeny == FirstHit(rows + [row], IsDeny)
    ensures firstUnstable == FirstHit(rows + [row], ComputedUnstable)
  {
    FirstHitSnoc(rows, row, BelowSafe(gmSafe));
    FirstHitSnoc(rows, row, IsDeny);
    FirstHitSnoc(rows, row, ComputedUnstable);
    firstBelowSafe, firstDeny, firstUnstable := t.firstBelowSafe, t.firstDeny, t.firstUnstable;
    if firstBelowSafe.None? && IsFinite(row.gmEff) && row.gmEff.v < gmSafe {
      firstBelowSafe := Some(Hit(row.dispVol, row.gmEff));
    }
    if firstDeny.None? && row.status == Deny {
      firstDeny := Some(Hit(row.dispVol, row.gmEff));
    }
    if firstUnstable.None? && IsFinite(row.gmEff) && row.classical == Unstable {
      firstUnstable := Some(Hit(row.dispVol, row.gmEff));
    }
  }

  /** The loop body up to the row: `compute_case` at the point, and either
      the failure row or the gate's outputs for the carried s. */
  method EvaluatePoint(cfg: Config, j: nat, dispVol: real, s: Num) returns (row: Row)
    requires dispVol == Point(cfg, j)
    ensures row == Step(cfg, j, s)
  {
    var comp := ComputeCase(cfg.iT, Fin(dispVol), cfg.kb, cfg.kg, cfg.fsc);
    if comp.None? {
      row := Row(j, dispVol, NonFinite, NonFinite, NonFinite, NonFinite, Unstable, NonFinite, NonFinite, s, Abstain);
    } else {
      var c := comp.value;
      var gmEff := Fin(c.gmEff);
      var classical := ClassicalSign(gmEff);
      var d := SsbGate(gmEff, cfg.th, s);
      row := Row(j, dispVol, Fin(c.bm), Fin(c.km), Fin(c.gm), gmEff, classical, d.a, d.r, d.s, d.status);
    }
  }

  /** A point the loop visits lies below the row count. */
  lemma BelowRowCount(cfg: Config, j: nat)
    requires cfg.step > 0.0 && Point(cfg, j) <= Limit(cfg)
    ensures j < RowCount(cfg)
  {
    var x := (Limit(cfg) - cfg.start) / cfg.step;
    assert (j as real) * cfg.step >= 0.0;
    assert x * cfg.step == Limit(cfg) - cfg.start;
    DivideOut(j as real, x, cfg.step);
  }

  /** The first point past the limit is the row count. */
  lemma AtRowCount(cfg: Config, j: nat)
    requires Terminates(cfg) && j <= RowCount(cfg)
    requires cfg.step <= 0.0 ==> j == 0
    requires Point(cfg, j) > Limit(cfg)
    ensures j == RowCount(cfg)
  {
    if cfg.step > 0.0 && cfg.start <= Limit(cfg) {
      var x := (Limit(cfg) - cfg.start) / cfg.step;
      assert x * cfg.step == Limit(cfg) - cfg.start;
      assert x * cfg.step < (j as real) * cfg.step;
      StrictDivideOut(x, j as real, cfg.step);
    }
  }

  /** Every point before the row count lies within the limit. */
  lemma PointsWithinLimit(cfg: Config)
    ensures forall j :: 0 <= j < RowCount(cfg) ==> Point(cfg, j) <= Limit(cfg)
  {
    forall j | 0 <= j < RowCount(cfg)
      ensures Point(cfg, j) <= Limit(cfg)
    {
      var x := (Limit(cfg) - cfg.start) / cfg.step;
      assert (j as real) <= x;
      assert x * cfg.step == Limit(cfg) - cfg.start;
      MulMono(j as real, x, cfg.step);
    }
  }

  lemma StrictDivideOut(x: real, y: real, c: real)
    requires c > 0.0 && x * c < y * c
    ensures x < y
  {
  }

  /** A longer sweep begins with a shorter one. */
  lemma {:induction false} TracePrefix(cfg: Config, n: nat, m: nat)
    requires m <= n
    ensures Trace(cfg, n)[..m] == Trace(cfg, m)
  {
    if m < n {
      TracePrefix(cfg, n - 1, m);
      assert Trace(cfg, n)[..n - 1] == Trace(cfg, n - 1);
    }
  }

  /** Row j is point j with the resistance of row j − 1 carried in (0 first). */
  lemma TraceThreadsS(cfg: Config, n: nat, j: nat)
    requires j < n
    ensures j == 0 ==> Trace(cfg, n)[j] == Step(cfg, 0, Fin(0.0))
    ensures j > 0 ==> Trace(cfg, n)[j] == Step(cfg, j, Trace(cfg, n)[j - 1].s)
  {
    TracePrefix(cfg, n, j + 1);
    assert Trace(cfg, n)[j] == Trace(cfg, j + 1)[j];
    if j > 0 {
      TracePrefix(cfg, n, j);
      assert Trace(cfg, n)[j - 1] == Trace(cfg, j)[j - 1];
    }
  }

  /** ABSTAIN marks exactly the points where `compute_case` fails. Such a row
      reports GM_eff, a and r as `nan` and the sign as UNSTABLE, and passes the
      resistance through unchanged (0 on the first row). A computed point is
      STABLE exactly when its GM_eff is positive. */
  lemma {:induction false} AbstainIffInvalidCase(cfg: Config, n: nat, j: nat)
    requires j < n
    ensures Trace(cfg, n)[j].status == Abstain <==>
            ComputeCase(cfg.iT, Fin(Point(cfg, j)), cfg.kb, cfg.kg, cfg.fsc).None?
    ensures Trace(cfg, n)[j].status == Abstain ==>
            Trace(cfg, n)[j].gmEff == NonFinite && Trace(cfg, n)[j].a == NonFinite &&
            Trace(cfg, n)[j].r == NonFinite && Trace(cfg, n)[j].classical == Unstable
    ensures Trace(cfg, n)[j].status == Abstain && j == 0 ==> Trace(cfg, n)[j].s == Fin(0.0)
    ensures Trace(cfg, n)[j].status == Abstain && j > 0 ==> Trace(cfg, n)[j].s == Trace(cfg, n)[j - 1].s
    ensures Trace(cfg, n)[j].classical == Stable <==> Trace(cfg, n)[j].gmEff.Fin? && Trace(cfg, n)[j].gmEff.v > 0.0
  {
    TraceThreadsS(cfg, n, j);
  }

  /** The resistance of every row is finite, and it never decreases along the sweep. */
  lemma {:induction false} ResistanceNonDecreasing(cfg: Config, n: nat)
    ensures forall i, j :: 0 <= i <= j < n ==>
      Trace(cfg, n)[i].s.Fin? && Trace(cfg, n)[j].s.Fin? &&
      Trace(cfg, n)[i].s.v <= Trace(cfg, n)[j].s.v
  {
    if n > 0 {
      ResistanceNonDecreasing(cfg, n - 1);
      var prev := Trace(cfg, n - 1);
      var rows := Trace(cfg, n);
      assert rows == prev + [Step(cfg, n - 1, CarriedS(prev))];
      assert CarriedS(prev).Fin?;
      assert rows[n - 1].s.Fin? && rows[n - 1].s.v >= CarriedS(prev).v;
      forall i, j | 0 <= i <= j < n
        ensures rows[i].s.Fin? && rows[j].s.Fin? && rows[i].s.v <= rows[j].s.v
      {
        if j < n - 1 {
          assert rows[i] == prev[i] && rows[j] == prev[j];
        } else if i < n - 1 {
          assert rows[i] == prev[i];
          assert prev[i].s.v <= prev[n - 2].s.v;
        }
      }
    }
  }

  /** With a positive step the sweep only loads the hull further: once a
      point is DENIED every later point is DENIED too. */
  lemma DenyAbsorbing(cfg: Config, n: nat, i: nat, j: nat)
    requires cfg.step > 0.0
    requires i <= j < n
    requires Trace(cfg, n)[i].status == Deny
    ensures Trace(cfg, n)[j].status == Deny
  {
    if i < j {
      var rows := Trace(cfg, n);
      var ci := ComputeCase(cfg.iT, Fin(Point(cfg, i)), cfg.kb, cfg.kg, cfg.fsc);
      var cj := ComputeCase(cfg.iT, Fin(Point(cfg, j)), cfg.kb, cfg.kg, cfg.fsc);
      TraceThreadsS(cfg, n, i);
      TraceThreadsS(cfg, n, j);
      assert ci.Some?;
      PointRises(cfg, i, j);
      GmEffFallsWithDisplacement(cfg.iT, Point(cfg, i), Point(cfg, j), cfg.kb, cfg.kg, cfg.fsc);
      ResistanceNonDecreasing(cfg, n);
      var sIn := if i == 0 then Fin(0.0) else rows[i - 1].s;
      var sInJ := rows[j - 1].s;
      assert sIn.Fin? && sInJ.Fin?;
      assert rows[i].s.v <= sInJ.v;
      assert SsbGate(Fin(ci.value.gmEff), cfg.th, sIn).status == Deny;
      DenyMonotone(cj.value.gmEff, ci.value.gmEff, sInJ.v, sIn.v, cfg.th);
    }
  }

  lemma PointRises(cfg: Config, i: nat, j: nat)
    requires cfg.step > 0.0 && i <= j
    ensures Point(cfg, i) <= Point(cfg, j)
  {
    MulMono(i as real, j as real, cfg.step);
  }

  /** Classical instability forces DENY, so the first DENY comes no later
      than the first computed UNSTABLE point. */
  lemma DenyNoLaterThanUnstable(cfg: Config, n: nat)
    ensures FirstWhere(Trace(cfg, n), ComputedUnstable).Some? ==>
      FirstWhere(Trace(cfg, n), IsDeny).Some? &&
      FirstWhere(Trace(cfg, n), IsDeny).value <= FirstWhere(Trace(cfg, n), ComputedUnstable).value
  {
    var rows := Trace(cfg, n);
    forall j | 0 <= j < n && ComputedUnstable(rows[j])
      ensures IsDeny(rows[j])
    {
      TraceThreadsS(cfg, n, j);
    }
    FirstWhereNoLater(rows, IsDeny, ComputedUnstable);
  }

}
