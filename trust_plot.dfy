/** The physics-versus-trust figure's data preparation: which columns it
    reads, which rows it plots, and where it puts the first-RESTRICTED and
    first-DENY markers. The drawing itself is not modelled. */
module PhysicsTrustPlot {
  import opened Prelude
  import opened Floats
  import opened Text

  const EnvCandidates: seq<string> :=
    ["PHASE3_envelope", "phase3_envelope", "envelope_class", "phase3_status", "phase2_status"]
  const GmCandidates: seq<string> := ["GM_eff", "GM_EFF", "gm_eff"]
  const SCandidates: seq<string> := ["s", "S", "s_t", "S_t", "structural_resistance"]

  const RestrictState: string := "ALLOW_RESTRICTED_MONITOR"
  const DenyState: string := "DENY_FINAL"

  /** `pick_column(fieldnames, candidates)`: the first candidate, in candidate
      order, that the header has. */
  function PickColumn(fieldnames: seq<string>, candidates: seq<string>): (r: Option<string>)
    ensures r.Some? ==> r.value in fieldnames && r.value in candidates
    ensures r.None? <==> forall c :: c in candidates ==> c !in fieldnames
  {
    if candidates == [] then None
    else if candidates[0] in fieldnames then Some(candidates[0])
    else PickColumn(fieldnames, candidates[1..])
  }

  function InHeader(fieldnames: seq<string>): string -> bool {
    (c: string) => c in fieldnames
  }

  /** The column picked is the earliest candidate the header has: every
      candidate before it is absent. */
  lemma {:induction false} PickColumnIsFirst(fieldnames: seq<string>, candidates: seq<string>)
    ensures match FirstWhere(candidates, InHeader(fieldnames))
      case None => PickColumn(fieldnames, candidates).None?
      case Some(k) => PickColumn(fieldnames, candidates) == Some(candidates[k])
  {
    if candidates != [] {
      PickColumnIsFirst(fieldnames, candidates[1..]);
      var f := FirstWhere(candidates, InHeader(fieldnames));
      var g := FirstWhere(candidates[1..], InHeader(fieldnames));
      if candidates[0] !in fieldnames {
        if g.Some? {
          assert candidates[1..][g.value] == candidates[g.value + 1];
          forall j | 0 <= j < g.value + 1
            ensures candidates[j] !in fieldnames
          {
            if j > 0 { assert candidates[1..][j - 1] == candidates[j]; }
          }
        } else {
          forall j | 0 <= j < |candidates|
            ensures candidates[j] !in fieldnames
          {
            if j > 0 { assert candidates[1..][j - 1] == candidates[j]; }
          }
        }
      }
    }
  }

  /** `parse_float(x)` of a cell: nothing for an absent cell, a blank one or
      text `float` rejects; otherwise the number, which may be `nan`. */
  function PlotParseFloat(cell: Option<string>, floatOf: string -> Option<Num>): (r: Option<Num>)
    ensures cell.None? ==> r.None?
    ensures cell.Some? && AllSpace(cell.value) ==> r.None?
    ensures cell.Some? && !AllSpace(cell.value) ==> r == floatOf(Strip(cell.value))
  {
    match cell
    case None => None
    case Some(t) =>
      StripEnds(t);
      if Strip(t) == "" then None else floatOf(Strip(t))
  }

  /** The three columns the figure reads. */
  datatype Schema = Schema(envCol: string, gmCol: string, sCol: string)

  /** The three column kinds, for the missing-column report. */
  datatype Column = EnvelopeColumn | GmColumn | SColumn

  datatype Error =
    | NoHeader
      /** One entry per unresolved column, in this order, and the header found. */
    | MissingColumns(missing: seq<Column>, found: seq<string>)
    | NoUsableRows

  /** The missing-column check over a non-empty header. */
  function ResolveSchema(fieldnames: seq<string>): (r: Result<Schema, Error>)
    ensures r.Success? <==>
      PickColumn(fieldnames, EnvCandidates).Some? && PickColumn(fieldnames, GmCandidates).Some? &&
      PickColumn(fieldnames, SCandidates).Some?
    ensures r.Success? ==>
      r.value == Schema(PickColumn(fieldnames, EnvCandidates).value,
                        PickColumn(fieldnames, GmCandidates).value, PickColumn(fieldnames, SCandidates).value)
    ensures r.Failure? ==> r.error.MissingColumns? && r.error.found == fieldnames && r.error.missing != []
    ensures r.Failure? ==>
      (EnvelopeColumn in r.error.missing <==> PickColumn(fieldnames, EnvCandidates).None?) &&
      (GmColumn in r.error.missing <==> PickColumn(fieldnames, GmCandidates).None?) &&
      (SColumn in r.error.missing <==> PickColumn(fieldnames, SCandidates).None?)
  {
    var env := PickColumn(fieldnames, EnvCandidates);
    var gm := PickColumn(fieldnames, GmCandidates);
    var s := PickColumn(fieldnames, SCandidates);
    var missing := (if env.None? then [EnvelopeColumn] else []) + (if gm.None? then [GmColumn] else []) +
                   (if s.None? then [SColumn] else []);
    if missing == [] then Success(Schema(env.value, gm.value, s.value))
    else Failure(MissingColumns(missing, fieldnames))
  }

  /** The plotted series: the original index of every kept row, with its
      GM_eff, s and stripped envelope tier. */
  datatype Series = Series(steps: seq<nat>, gm: seq<Num>, s: seq<Num>, env: seq<string>)

  function GmOf(row: CsvRow, sc: Schema, floatOf: string -> Option<Num>): Option<Num> {
    PlotParseFloat(Cell(row, sc.gmCol), floatOf)
  }

  function SOf(row: CsvRow, sc: Schema, floatOf: string -> Option<Num>): Option<Num> {
    PlotParseFloat(Cell(row, sc.sCol), floatOf)
  }

  /** The row's cell in the resolved envelope column with surrounding blanks
      removed; an absent cell reads as the empty string. */
  function EnvOf(row: CsvRow, sc: Schema): string {
    Strip(if sc.envCol in row then row[sc.envCol] else "")
  }

  /** A row is plotted when both its GM_eff and its s parse. */
  predicate Usable(row: CsvRow, sc: Schema, floatOf: string -> Option<Num>) {
    GmOf(row, sc, floatOf).Some? && SOf(row, sc, floatOf).Some?
  }

  /** The series the row loop builds from the first n rows. */
  function SeriesOf(rows: seq<CsvRow>, sc: Schema, floatOf: string -> Option<Num>): (out: Series)
    ensures |out.gm| == |out.steps| && |out.s| == |out.steps| && |out.env| == |out.steps|
    ensures |out.steps| <= |rows|
  {
    if rows == [] then Series([], [], [], [])
    else
      var prev := SeriesOf(rows[..|rows| - 1], sc, floatOf);
      var row := rows[|rows| - 1];
      if !Usable(row, sc, floatOf) then prev
      else Series(prev.steps + [|rows| - 1], prev.gm + [GmOf(row, sc, floatOf).value],
                  prev.s + [SOf(row, sc, floatOf).value], prev.env + [EnvOf(row, sc)])
  }

  /** `steps` holds original row indices in strictly increasing order. */
  lemma {:induction false} StepsIncreasing(rows: seq<CsvRow>, sc: Schema, floatOf: string -> Option<Num>)
    ensures forall k :: 0 <= k < |SeriesOf(rows, sc, floatOf).steps| ==>
      SeriesOf(rows, sc, floatOf).steps[k] < |rows|
    ensures forall k1, k2 :: 0 <= k1 < k2 < |SeriesOf(rows, sc, floatOf).steps| ==>
      SeriesOf(rows, sc, floatOf).steps[k1] < SeriesOf(rows, sc, floatOf).steps[k2]
  {
    if rows != [] {
      StepsIncreasing(rows[..|rows| - 1], sc, floatOf);
    }
  }

  /** Each plotted value is its own row's: the row is usable, and GM_eff, s
      and the envelope are read from it. */
  lemma {:induction false} SeriesValues(rows: seq<CsvRow>, sc: Schema, floatOf: string -> Option<Num>, k: nat)
    requires k < |SeriesOf(rows, sc, floatOf).steps|
    ensures var out := SeriesOf(rows, sc, floatOf);
      out.steps[k] < |rows| && Usable(rows[out.steps[k]], sc, floatOf) &&
      out.gm[k] == GmOf(rows[out.steps[k]], sc, floatOf).value &&
      out.s[k] == SOf(rows[out.steps[k]], sc, floatOf).value &&
      out.env[k] == EnvOf(rows[out.steps[k]], sc)
  {
    var init := rows[..|rows| - 1];
    var prev := SeriesOf(init, sc, floatOf);
    StepsIncreasing(init, sc, floatOf);
    if k < |prev.steps| {
      SeriesValues(init, sc, floatOf, k);
      assert rows[prev.steps[k]] == init[prev.steps[k]];
    }
  }

  /** Every usable row is plotted. */
  lemma {:induction false} UsableIsKept(rows: seq<CsvRow>, sc: Schema, floatOf: string -> Option<Num>, i: nat)
    requires i < |rows| && Usable(rows[i], sc, floatOf)
    ensures i in SeriesOf(rows, sc, floatOf).steps
  {
    var init := rows[..|rows| - 1];
    if i < |init| {
      assert init[i] == rows[i];
      UsableIsKept(init, sc, floatOf, i);
    }
  }

  /** The marker tier at `k`, as a step index. */
  function StepAt(steps: seq<nat>, k: Option<nat>): Option<nat> {
    if k.Some? && k.value < |steps| then Some(steps[k.value]) else None
  }

  /** The first plotted step whose envelope is `tier`. */
  function FirstStep(series: Series, tier: string): Option<nat> {
    StepAt(series.steps, FirstWhere(series.env, Equals(tier)))
  }

  /** A marker sits at the smallest plotted row index whose envelope is the
      tier, and there is none when no plotted row has it. */
  lemma FirstStepIsEarliestRow(rows: seq<CsvRow>, sc: Schema, floatOf: string -> Option<Num>, tier: string)
    ensures var t := FirstStep(SeriesOf(rows, sc, floatOf), tier);
      (t.Some? ==> t.value < |rows| && Usable(rows[t.value], sc, floatOf) && EnvOf(rows[t.value], sc) == tier) &&
      (t.Some? ==> forall i :: 0 <= i < t.value && Usable(rows[i], sc, floatOf) ==> EnvOf(rows[i], sc) != tier) &&
      (t.None? ==> forall i :: 0 <= i < |rows| && Usable(rows[i], sc, floatOf) ==> EnvOf(rows[i], sc) != tier)
  {
    var out := SeriesOf(rows, sc, floatOf);
    StepsIncreasing(rows, sc, floatOf);
    var f := FirstWhere(out.env, Equals(tier));
    if f.Some? {
      SeriesValues(rows, sc, floatOf, f.value);
    }
    forall i | 0 <= i < |rows| && Usable(rows[i], sc, floatOf) && EnvOf(rows[i], sc) == tier
      ensures f.Some? && out.steps[f.value] <= i
    {
      UsableIsKept(rows, sc, floatOf, i);
      var k :| 0 <= k < |out.steps| && out.steps[k] == i;
      SeriesValues(rows, sc, floatOf, k);
      assert Equals(tier)(out.env[k]);
      assert f.Some? && f.value <= k;
      if f.value < k {
        assert out.steps[f.value] < out.steps[k];
      }
    }
  }

  /** The row loop: every row enumerated, the ones without a numeric GM_eff
      or s skipped. */
  method CollectSeries(rows: seq<CsvRow>, sc: Schema, floatOf: string -> Option<Num>) returns (out: Series)
    ensures out == SeriesOf(rows, sc, floatOf)
  {
    var steps: seq<nat> := [];
    var gmVals: seq<Num> := [];
    var sVals: seq<Num> := [];
    var envVals: seq<string> := [];
    for i := 0 to |rows|
      invariant Series(steps, gmVals, sVals, envVals) == SeriesOf(rows[..i], sc, floatOf)
    {
      assert rows[..i + 1][..i] == rows[..i];
      var row := rows[i];
      var gm := PlotParseFloat(Cell(row, sc.gmCol), floatOf);
      var ss := PlotParseFloat(Cell(row, sc.sCol), floatOf);
      var env := EnvOf(row, sc);
      if gm.None? || ss.None? {
        continue;
      }
      steps := steps + [i];
      gmVals := gmVals + [gm.value];
      sVals := sVals + [ss.value];
      envVals := envVals + [env];
    }
    assert rows[..|rows|] == rows;
    out := Series(steps, gmVals, sVals, envVals);
  }

  /** The marker scan, which stops as soon as both markers are found. */
  method FirstMarkers(series: Series) returns (firstRestrict: Option<nat>, firstDeny: Option<nat>)
    requires |series.env| == |series.steps|
    ensures firstRestrict == FirstStep(series, RestrictState)
    ensures firstDeny == FirstStep(series, DenyState)
  {
    firstRestrict, firstDeny := None, None;
    var i := 0;
    while i < |series.env|
      invariant i <= |series.env|
      invariant firstRestrict == StepAt(series.steps, FirstWhere(series.env[..i], Equals(RestrictState)))
      invariant firstDeny == StepAt(series.steps, FirstWhere(series.env[..i], Equals(DenyState)))
    {
      firstRestrict, firstDeny := ScanRow(series, i, firstRestrict, firstDeny);
      if firstRestrict.Some? && firstDeny.Some? {
        StopEarly(series, i + 1);
        break;
      }
      i := i + 1;
    }
    if i == |series.env| {
      assert series.env[..i] == series.env;
    }
  }

  /** One entry of the scan: each marker not yet set is set if the entry has its tier. */
  method ScanRow(series: Series, i: nat, firstRestrict: Option<nat>, firstDeny: Option<nat>)
    returns (firstRestrict': Option<nat>, firstDeny': Option<nat>)
    requires |series.env| == |series.steps| && i < |series.env|
    requires firstRestrict == StepAt(series.steps, FirstWhere(series.env[..i], Equals(RestrictState)))
    requires firstDeny == StepAt(series.steps, FirstWhere(series.env[..i], Equals(DenyState)))
    ensures firstRestrict' == StepAt(series.steps, FirstWhere(series.env[..i + 1], Equals(RestrictState)))
    ensures firstDeny' == StepAt(series.steps, FirstWhere(series.env[..i + 1], Equals(DenyState)))
  {
    var env := series.env;
    assert env[..i + 1] == env[..i] + [env[i]];
    FirstWhereSnoc(env[..i], env[i], Equals(RestrictState));
    FirstWhereSnoc(env[..i], env[i], Equals(DenyState));
    firstRestrict', firstDeny' := firstRestrict, firstDeny;
    if firstRestrict.None? && env[i] == RestrictState {
      firstRestrict' := Some(series.steps[i]);
    }
    if firstDeny.None? && env[i] == DenyState {
      firstDeny' := Some(series.steps[i]);
    }
  }

  /** Once both markers are found in a prefix, the rest of the series cannot
      move them. */
  lemma StopEarly(series: Series, i: nat)
    requires i <= |series.env|
    requires StepAt(series.steps, FirstWhere(series.env[..i], Equals(RestrictState))).Some?
    requires StepAt(series.steps, FirstWhere(series.env[..i], Equals(DenyState))).Some?
    ensures FirstWhere(series.env, Equals(RestrictState)) == FirstWhere(series.env[..i], Equals(RestrictState))
    ensures FirstWhere(series.env, Equals(DenyState)) == FirstWhere(series.env[..i], Equals(DenyState))
  {
    FirstWhereOfPrefix(series.env, i, Equals(RestrictState));
    FirstWhereOfPrefix(series.env, i, Equals(DenyState));
  }

  /** What the figure is drawn from. */
  datatype Plot = Plot(schema: Schema, series: Series, firstRestrict: Option<nat>, firstDeny: Option<nat>)

  /** `main` once the file is open: the header check, the column check, the
      row loop, the empty check and the marker scan. */
  method PrepareFigure(fieldnames: seq<string>, rows: seq<CsvRow>, floatOf: string -> Option<Num>)
    returns (res: Result<Plot, Error>)
    ensures fieldnames == [] ==> res == Failure(NoHeader)
    ensures fieldnames != [] && ResolveSchema(fieldnames).Failure? ==> res == Failure(ResolveSchema(fieldnames).error)
    ensures fieldnames != [] && ResolveSchema(fieldnames).Success? ==>
      var sc := ResolveSchema(fieldnames).value;
      var series := SeriesOf(rows, sc, floatOf);
      (series.steps == [] ==> res == Failure(NoUsableRows)) &&
      (series.steps != [] ==>
         res == Success(Plot(sc, series, FirstStep(series, RestrictState), FirstStep(series, DenyState))))
  {
    if fieldnames == [] {
      return Failure(NoHeader);
    }
    var schema := ResolveSchema(fieldnames);
    if schema.Failure? {
      return Failure(schema.error);
    }
    var series := CollectSeries(rows, schema.value, floatOf);
    if series.steps == [] {
      return Failure(NoUsableRows);
    }
    var firstRestrict, firstDeny := FirstMarkers(series);
    return Success(Plot(schema.value, series, firstRestrict, firstDeny));
  }

  /** The figure is drawn exactly when some row has both a numeric GM_eff and
      a numeric s. */
  lemma NoUsableRowsIff(rows: seq<CsvRow>, sc: Schema, floatOf: string -> Option<Num>)
    ensures SeriesOf(rows, sc, floatOf).steps == [] <==>
      forall i :: 0 <= i < |rows| ==> !Usable(rows[i], sc, floatOf)
  {
    if SeriesOf(rows, sc, floatOf).steps != [] {
      SeriesValues(rows, sc, floatOf, 0);
    }
    forall i | 0 <= i < |rows| && Usable(rows[i], sc, floatOf)
      ensures SeriesOf(rows, sc, floatOf).steps != []
    {
      UsableIsKept(rows, sc, floatOf, i);
    }
  }
}
