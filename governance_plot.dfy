/** The governance figure's data preparation: each row's envelope tier
    mapped onto a symbolic level, rows with an unknown tier skipped. The
    drawing itself is not modelled. */
module GovernancePlot {
  import opened Prelude
  import opened Text
  import Floats
  import Phase3Envelope

  /** `LEVEL_MAP`: the envelope tiers onto symbolic levels. */
  const LevelMap: map<string, nat> := map[
    "ALLOW_NORMAL" := 2,
    "ALLOW_RESTRICTED_MONITOR" := 1,
    "DENY_FINAL" := 0,
    "ABSTAIN_HUMAN_REVIEW" := 0]

  /** `LABEL_MAP`: the tick labels of the levels. */
  const LabelMap: map<nat, string> := map[2 := "ALLOW", 1 := "RESTRICTED", 0 := "DENY / ABSTAIN"]

  const EnvelopeColumn: string := "PHASE3_envelope"

  /** Every tier the classifier writes has a level, ALLOW_NORMAL alone the
      top one and the two non-allow tiers the bottom one; every level has a
      tick label. */
  lemma LevelsOfTiers(e: Phase3Envelope.Envelope)
    ensures e.Name() in LevelMap && LevelMap[e.Name()] in LabelMap
    ensures LevelMap[e.Name()] == 2 <==> e == Phase3Envelope.AllowNormal
    ensures LevelMap[e.Name()] == 1 <==> e == Phase3Envelope.AllowRestrictedMonitor
    ensures LevelMap[e.Name()] == 0 <==> !e.IsAllow()
  {
  }

  /** Every level is a key of `LABEL_MAP`, and those keys are exactly 0, 1 and 2. */
  lemma LevelsAreLabelled()
    ensures forall t :: t in LevelMap ==> LevelMap[t] in LabelMap
    ensures LabelMap.Keys == {0, 1, 2}
  {
  }

  datatype Error =
    /** `reader.fieldnames` is `None` for an empty file, and the membership
        test raises before any message is printed. */
    | NoHeader
    | MissingEnvelopeColumn(found: seq<string>)
    | NoGovernanceStates

  /** The step plot's points: original row index and level. */
  datatype Levels = Levels(steps: seq<nat>, levels: seq<nat>)

  /** The row's envelope cell with surrounding blanks removed; an absent
      cell reads as the empty string. */
  function TierOf(row: CsvRow): string {
    Strip(if EnvelopeColumn in row then row[EnvelopeColumn] else "")
  }

  /** The points the row loop collects from the rows. */
  function LevelsOf(rows: seq<CsvRow>): (out: Levels)
    ensures |out.levels| == |out.steps| <= |rows|
  {
    if rows == [] then Levels([], [])
    else
      var prev := LevelsOf(rows[..|rows| - 1]);
      var tier := TierOf(rows[|rows| - 1]);
      if tier in LevelMap then Levels(prev.steps + [|rows| - 1], prev.levels + [LevelMap[tier]]) else prev
  }

  /** The steps are original row indices, strictly increasing. */
  lemma {:induction false} StepsIncreasing(rows: seq<CsvRow>)
    ensures forall k :: 0 <= k < |LevelsOf(rows).steps| ==> LevelsOf(rows).steps[k] < |rows|
    ensures forall k1, k2 :: 0 <= k1 < k2 < |LevelsOf(rows).steps| ==>
      LevelsOf(rows).steps[k1] < LevelsOf(rows).steps[k2]
  {
    if rows != [] {
      StepsIncreasing(rows[..|rows| - 1]);
    }
  }

  /** Each point's level is its own row's tier's level, and so has a tick label. */
  lemma {:induction false} LevelValues(rows: seq<CsvRow>, k: nat)
    requires k < |LevelsOf(rows).steps|
    ensures var out := LevelsOf(rows);
      out.steps[k] < |rows| && TierOf(rows[out.steps[k]]) in LevelMap &&
      out.levels[k] == LevelMap[TierOf(rows[out.steps[k]])] && out.levels[k] in LabelMap
  {
    var init := rows[..|rows| - 1];
    var prev := LevelsOf(init);
    StepsIncreasing(init);
    if k < |prev.steps| {
      LevelValues(init, k);
      assert rows[prev.steps[k]] == init[prev.steps[k]];
    }
  }

  /** A row is plotted exactly when its stripped tier is a key of `LEVEL_MAP`. */
  lemma {:induction false} KeptIffKnownTier(rows: seq<CsvRow>, i: nat)
    requires i < |rows|
    ensures i in LevelsOf(rows).steps <==> TierOf(rows[i]) in LevelMap
  {
    var init := rows[..|rows| - 1];
    StepsIncreasing(init);
    if i < |init| {
      assert init[i] == rows[i];
      KeptIffKnownTier(init, i);
    }
  }

  /** `main` once the file is open. */
  method CollectLevels(fieldnames: Option<seq<string>>, rows: seq<CsvRow>) returns (res: Result<Levels, Error>)
    ensures fieldnames.None? ==> res == Failure(NoHeader)
    ensures fieldnames.Some? && EnvelopeColumn !in fieldnames.value ==>
      res == Failure(MissingEnvelopeColumn(fieldnames.value))
    ensures fieldnames.Some? && EnvelopeColumn in fieldnames.value ==>
      (LevelsOf(rows).steps == [] ==> res == Failure(NoGovernanceStates)) &&
      (LevelsOf(rows).steps != [] ==> res == Success(LevelsOf(rows)))
  {
    if fieldnames.None? {
      return Failure(NoHeader);
    }
    if EnvelopeColumn !in fieldnames.value {
      return Failure(MissingEnvelopeColumn(fieldnames.value));
    }
    var steps: seq<nat> := [];
    var levels: seq<nat> := [];
    for i := 0 to |rows|
      invariant Levels(steps, levels) == LevelsOf(rows[..i])
    {
      assert rows[..i + 1][..i] == rows[..i];
      var tier := TierOf(rows[i]);
      if tier in LevelMap {
        steps := steps + [i];
        levels := levels + [LevelMap[tier]];
      }
    }
    assert rows[..|rows|] == rows;
    if steps == [] {
      return Failure(NoGovernanceStates);
    }
    return Success(Levels(steps, levels));
  }

  /** The classifier's own output plots every row: each row's envelope cell
      is a tier name, which has no surrounding blanks. */
  lemma ClassifiedRowsAllPlotted(rows: seq<CsvRow>, p: Phase3Envelope.Params, floatOf: string -> Option<Floats.Num>)
    ensures var out := Phase3Envelope.Output(rows, p, floatOf);
      forall i :: 0 <= i < |out| ==> i in LevelsOf(out).steps
  {
    var out := Phase3Envelope.Output(rows, p, floatOf);
    forall i | 0 <= i < |out|
      ensures i in LevelsOf(out).steps
    {
      ClassifiedTierIsKnown(rows[i], p, floatOf);
      KeptIffKnownTier(out, i);
    }
  }

  lemma ClassifiedTierIsKnown(row: CsvRow, p: Phase3Envelope.Params, floatOf: string -> Option<Floats.Num>)
    ensures TierOf(Phase3Envelope.Classified(row, p, floatOf)) in LevelMap
  {
    var e := Phase3Envelope.RowLabel(row, p, floatOf);
    StripUnchanged(e.Name());
  }
}
