# Structural Safety Boundary governance pipeline — a Dafny model

This project models the decision core of the Structural-Buoyancy
scripts and proves properties about it. That core is:

- a hydrostatic stability computation (BM, KM, GM, GM_eff);
- the deterministic disturbance schedules;
- the Structural Safety Boundary (SSB) gate. It turns GM_eff and the
  resistance `s` carried in from the previous step into a
  permission `a`, a risk `r`, an updated `s` and an
  ALLOW / DENY / ABSTAIN status;
- the three run drivers that thread `s` through a sequence of steps:
  the cyclic-fatigue simulation, the displacement sweep and the
  multi-tank free-surface ladder;
- the Phase III envelope classifier. It relabels every row of a finished
  run as ALLOW_NORMAL, ALLOW_RESTRICTED_MONITOR, DENY_FINAL or
  ABSTAIN_HUMAN_REVIEW;
- the data preparation of the two illustrative figures, which read the
  classified dataset back.

Modules, leaves first:

- `Prelude`: Option/Result, a CSV row as a map from column name to cell,
  and the "first index where" / "count where" scans used by the drivers'
  report markers and counters.
- `Floats`: a Python float as `Fin(v)` or `NonFinite`. Every ordered
  comparison with `NonFinite` is false, as it is for NaN.
- `Text`: `str.strip`, `str.upper`, `str.split` and `",".join` on ASCII
  text.
- `Physics` and `Gate`: `compute_base`, `compute_case`, `clamp01` and
  `ssb_gate`.
- `Schedule`: `schedule_delta`.
- `CyclicFatigue`, `DispSweep` and `MultiFscLadder`: the three drivers.
  Each is a loop method proved equal to a recursive trace function. The
  lemmas about that function state what the run promises: `s` is
  threaded from row to row, resistance never decreases, ABSTAIN
  behaviour, the report's markers and counters.
- `Phase3Envelope`: `envelope_label` and the classification pass.
- `PhysicsTrustPlot` and `GovernancePlot`: column resolution, row
  filtering and the marker scans of the two figures.

Float parsing (`float(str)`) cannot be seen from the model. It is the
parameter `floatOf: string -> Option<Num>`, where `None` means that
`float` raises. Thresholds and configuration arrive from the command line
as values.

## Behaviour of the scripts worth noting

- The Phase III classifier reads the fixed keys `a`, `s` and `SSB_status`
  (scripts/ssb_phase3_envelope.py:98-100), and it does not abort when one
  of them is missing. A missing `a` or `s` reads as NaN, and a missing
  status as the empty string. So a row without a status goes to
  ABSTAIN_HUMAN_REVIEW (`MissingStatusIsReviewed`). An ALLOW row without a
  finite `a` or `s` goes to review too, while a DENY row stays DENY_FINAL
  whatever its `a` and `s` are (`UnparsableAllowIsReviewed`).
- For an empty file the governance figure does not report a missing
  column. `reader.fieldnames` is `None`, and the membership test at
  scripts/illustrative/ssb_illustrative_governance_plot.py:81 raises
  `TypeError`. The model returns a distinct `NoHeader` error for this
  case.
- The ABSTAIN policy differs between drivers, and each is modelled as
  written.
  - Fatigue run: the gate's NaN resistance is carried forward, so every
    later row reports a non-finite `s` (`AbstainPoisonsResistance`).
  - Sweep and ladder: ABSTAIN comes only from a failed `compute_case`.
    The gate is not called and the last `s` is kept
    (`DispSweep.AbstainIffInvalidCase`,
    `MultiFscLadder.AbstainIffInvalidCase`).

## Model

| member | source | states |
|---|---|---|
| Physics.ComputeBase | scripts/ssb_cyclic_fatigue.py:35-46 | undefined exactly when an input is non-finite or ∇ ≤ 0 or I_T ≤ 0; otherwise BM·∇ = I_T with BM > 0, KM = KB + BM, GM = KM − KG |
| Physics.ComputeCase | scripts/ssb_disp_sweep.py:35-48 | undefined exactly when the base is undefined or FSC is non-finite; otherwise it agrees with the base on BM, KM and GM, and GM_eff = GM − FSC |
| Physics.BaseExample | scripts/ssb_cyclic_fatigue.py:35-46 | I_T=3.60, ∇=8.00, KB=0.55, KG=0.88 give BM=0.45, KM=1.00, GM=0.12 |
| Physics.GmEffFallsWithDisplacement | scripts/ssb_disp_sweep.py:44-47 | with the other inputs fixed, a larger ∇ keeps the case defined and never raises GM_eff |
| Gate.Clamp01 | scripts/ssb_cyclic_fatigue.py:21-26 | the result lies in [0, 1]: inputs in [0, 1] unchanged, below 0 gives 0, above 1 gives 1 |
| Gate.Margin | scripts/ssb_cyclic_fatigue.py:53 | the denominator max(GM_safe, 1e-12) is positive, margin × denominator = GM_eff, and margin > 0 iff GM_eff > 0 |
| Gate.SsbGate | scripts/ssb_cyclic_fatigue.py:48-67 | ABSTAIN iff GM_eff is non-finite, with a, r, s all non-finite; otherwise a = clamp of the margin, r = max(0, 1 − margin), s_new = s_old + max(0, r − r_safe) ≥ s_old (finite iff s_old is); GM_eff ≤ 0 gives DENY; ALLOW iff GM_eff > 0, a ≥ a_min and s_new is not above s_max |
| Gate.AllowIsStable | scripts/ssb_cyclic_fatigue.py:61-67 | an ALLOW is always classically STABLE |
| Gate.GateExample | scripts/ssb_cyclic_fatigue.py:53-65 | GM_eff=0.06 with GM_safe=0.15, a_min=0.70, r_safe=0.10, s_max=1 and s=0 gives a=0.4, r=0.6, s=0.5 and DENY |
| Gate.DenyMonotone | scripts/ssb_cyclic_fatigue.py:53-65 | if a point is DENIED, a point with lower GM_eff and higher carried s is DENIED too, with a new s no smaller |
| Schedule.Phase | scripts/ssb_cyclic_fatigue.py:73 | (t mod P)/P lies in [0, 1) and times P gives t mod P (Python's non-negative modulo) |
| Schedule.ScheduleDelta | scripts/ssb_cyclic_fatigue.py:69-81 | a finite amplitude gives a finite δ between 0 and amp (non-negative when amp ≥ 0); square returns amp or 0; constant returns amp |
| Schedule.SquareOnIff | scripts/ssb_cyclic_fatigue.py:72-74 | for a non-zero amplitude the square wave is on iff t mod P < duty·P |
| Schedule.Periodic | scripts/ssb_cyclic_fatigue.py:69-81 | δ(t + P) = δ(t) for every mode |
| Schedule.SquareExample | scripts/ssb_cyclic_fatigue.py:72-74 | square, amp=0.06, P=20, duty=0.35: δ(5)=0.06 and δ(15)=0 |
| Schedule.RampExact | scripts/ssb_cyclic_fatigue.py:77-79 | for every duty cycle, ramp δ(t)·P = amp·(t mod P) |
| CyclicFatigue.Trace | scripts/ssb_cyclic_fatigue.py:121-143 | the first n ticks give n rows indexed 0..n−1 |
| CyclicFatigue.RunFatigue | scripts/ssb_cyclic_fatigue.py:116-143 | fails iff the base is undefined; otherwise the rows are the trace of max(T, 0) ticks and the first DENY is the first DENY row |
| CyclicFatigue.TracePrefix | scripts/ssb_cyclic_fatigue.py:125-143 | a longer run begins with the shorter one |
| CyclicFatigue.TraceThreadsS | scripts/ssb_cyclic_fatigue.py:121-130 | tick 0 is gated with s = 0 and tick t with the s of row t − 1 |
| CyclicFatigue.ResistanceNonDecreasing | scripts/ssb_cyclic_fatigue.py:126-130 | with finite FSC and amplitude, every s is finite and s never decreases along the run |
| CyclicFatigue.AbstainPoisonsResistance | scripts/ssb_cyclic_fatigue.py:130 | after an ABSTAIN every later row's s is non-finite |
| CyclicFatigue.UnstableNeverAllowed | scripts/ssb_cyclic_fatigue.py:128-130 | the classical sign is STABLE iff GM_eff is finite and positive, and an UNSTABLE tick is never ALLOWed |
| CyclicFatigue.GmEffPeriodic | scripts/ssb_cyclic_fatigue.py:126-127 | δ and GM_eff repeat after max(1, period) ticks |
| DispSweep.Trace | scripts/ssb_disp_sweep.py:108-146 | the first n points give n rows indexed 0..n−1 |
| DispSweep.RunSweep | scripts/ssb_disp_sweep.py:100-146 | for a terminating configuration: the rows are the trace of ⌊(limit − start)/step⌋ + 1 points (none if start > limit), every visited point is ≤ disp_end + step/2 and the next is beyond it, the counts and markers are those of the rows, and the three counts add up to the row count |
| DispSweep.Walk | scripts/ssb_disp_sweep.py:108-146 | the loop stops at the first point beyond the limit, with the trace and tally of the points before it |
| DispSweep.PointsWithinLimit | scripts/ssb_disp_sweep.py:110 | every point before the row count passes the loop test |
| DispSweep.StatusCountsCoverRows | scripts/ssb_disp_sweep.py:117-128 | each row is counted exactly once among ALLOW, DENY and ABSTAIN |
| DispSweep.Record | scripts/ssb_disp_sweep.py:117-135 | one row's bookkeeping turns the tally of the earlier rows into the tally with this row |
| DispSweep.CountRow | scripts/ssb_disp_sweep.py:117-128 | each counter becomes the number of rows with its status |
| DispSweep.MarkRow | scripts/ssb_disp_sweep.py:130-135 | each marker becomes the first row that is finite and below GM_safe, DENY, or computed and UNSTABLE |
| DispSweep.EvaluatePoint | scripts/ssb_disp_sweep.py:111-122 | the loop body's row is the trace's step at this point with the carried s |
| DispSweep.TracePrefix | scripts/ssb_disp_sweep.py:108-146 | a longer sweep begins with the shorter one |
| DispSweep.TraceThreadsS | scripts/ssb_disp_sweep.py:101-122 | point 0 is gated with s = 0 and point j with the s of row j − 1 |
| DispSweep.AbstainIffInvalidCase | scripts/ssb_disp_sweep.py:111-122 | on every row: ABSTAIN iff compute_case fails at that point; such a row has GM_eff, a and r non-finite, sign UNSTABLE, and s equal to the previous row's (0 on the first row); the sign is STABLE iff GM_eff is finite and positive |
| DispSweep.ResistanceNonDecreasing | scripts/ssb_disp_sweep.py:101-122 | every s is finite and s never decreases along the sweep |
| DispSweep.DenyAbsorbing | scripts/ssb_disp_sweep.py:109-146 | with a positive step, once a point is DENIED every later point is DENIED |
| DispSweep.DenyNoLaterThanUnstable | scripts/ssb_disp_sweep.py:130-135 | the first DENY comes no later than the first computed UNSTABLE point |
| MultiFscLadder.Kept | scripts/ssb_multifsc_ladder.py:73 | no more pieces are kept than split out |
| MultiFscLadder.ParsedValues | scripts/ssb_multifsc_ladder.py:76-79 | one value per piece, each the value `float` gives that piece |
| MultiFscLadder.ParseLadder | scripts/ssb_multifsc_ladder.py:71-79 | succeeds iff `float` accepts every stripped non-blank piece, with those values in order; otherwise fails on the first piece it rejects |
| MultiFscLadder.ParsePieces | scripts/ssb_multifsc_ladder.py:76-79 | succeeds iff every piece parses, with the parsed values; otherwise fails on the first unparsable piece |
| MultiFscLadder.KeptClean | scripts/ssb_multifsc_ladder.py:73 | pieces that are already stripped and non-blank are all kept, unchanged |
| MultiFscLadder.KeptBlank | scripts/ssb_multifsc_ladder.py:73 | all-blank pieces are all dropped |
| MultiFscLadder.KeptAppend | scripts/ssb_multifsc_ladder.py:73 | the pieces kept from a concatenation are those kept from each part, in order |
| MultiFscLadder.KeptCharacterised | scripts/ssb_multifsc_ladder.py:73 | as many pieces are kept as there are non-blank parts, each non-empty with no blank at either end |
| MultiFscLadder.LadderTextRoundTrip | scripts/ssb_multifsc_ladder.py:73 | splitting a comma-join of clean comma-free texts gives those texts back |
| MultiFscLadder.BlankLadderIsEmpty | scripts/ssb_multifsc_ladder.py:73-75 | text of commas and blanks only yields no pieces |
| MultiFscLadder.Trace | scripts/ssb_multifsc_ladder.py:120-142 | the first n rungs give n rows indexed 0..n−1 |
| MultiFscLadder.RunLadder | scripts/ssb_multifsc_ladder.py:107-148 | fails with an invalid number iff some piece does not parse, with an empty ladder iff there are no pieces; otherwise the run over the parsed values |
| MultiFscLadder.Climb | scripts/ssb_multifsc_ladder.py:114-148 | the rows are the trace of the rungs visited, the first DENY is that of the rows; without stop_on_deny every rung is visited, with it the run stops just after the first DENY |
| MultiFscLadder.EvaluateRung | scripts/ssb_multifsc_ladder.py:123-132 | the loop body's row is the trace's step at this rung with the carried s |
| MultiFscLadder.RunningTotalIsSum | scripts/ssb_multifsc_ladder.py:116-121 | accumulating finite contributions from 0 gives their sum |
| MultiFscLadder.NonFiniteTotalPersists | scripts/ssb_multifsc_ladder.py:121 | one non-finite contribution makes the running total non-finite |
| MultiFscLadder.AbstainIffInvalidCase | scripts/ssb_multifsc_ladder.py:121-132 | on every row: ABSTAIN iff compute_case fails at the running total; such a row has GM_eff, a and r non-finite, sign UNSTABLE, and s equal to the previous row's (0 on the first row); the sign is STABLE iff GM_eff is finite and positive |
| MultiFscLadder.NonFiniteContributionAbstains | scripts/ssb_multifsc_ladder.py:121-128 | every rung from a non-finite contribution on ABSTAINs |
| MultiFscLadder.TotalNonDecreasing | scripts/ssb_multifsc_ladder.py:121 | with finite non-negative contributions the total of a prefix never exceeds the total |
| MultiFscLadder.TracePrefix | scripts/ssb_multifsc_ladder.py:120-142 | a longer climb begins with the shorter one |
| MultiFscLadder.TraceThreadsS | scripts/ssb_multifsc_ladder.py:115-132 | row j sits at the running total of contributions 0..j and is gated with the s of row j − 1 (0 first) |
| MultiFscLadder.ResistanceNonDecreasing | scripts/ssb_multifsc_ladder.py:124-132 | every s is finite and never decreases; an ABSTAIN row keeps the previous s |
| MultiFscLadder.LadderDescends | scripts/ssb_multifsc_ladder.py:121-132 | with finite non-negative contributions GM_eff never rises, and a DENY stays a DENY on later rungs |
| Phase3Envelope.EnvelopeTiers | scripts/ssb_phase3_envelope.py:28-55 | DENY_FINAL iff status DENY; ABSTAIN_HUMAN_REVIEW iff status is not DENY or ALLOW, or it is ALLOW with a or s non-finite; ALLOW_RESTRICTED_MONITOR iff ALLOW, both finite and s ≥ frac·s_max or a ≤ a_min + 0.05; ALLOW_NORMAL otherwise |
| Phase3Envelope.NeverUpgrades | scripts/ssb_phase3_envelope.py:34-39 | a status other than ALLOW never gets an allow tier |
| Phase3Envelope.RestrictedExample | scripts/ssb_phase3_envelope.py:46-48 | ALLOW, a=0.9, s=0.82, s_max=1, frac=0.8 gives ALLOW_RESTRICTED_MONITOR |
| Phase3Envelope.ParseFloat | scripts/ssb_phase3_envelope.py:21-26 | a finite result always comes from a present cell that `float` read as exactly that value; any value `float` accepts is passed on unchanged, and otherwise the result is NaN |
| Phase3Envelope.NormalizeExample | scripts/ssb_phase3_envelope.py:100 | " allow\n" normalises to "ALLOW", and a missing status to "" |
| Phase3Envelope.UnparsableAllowIsReviewed | scripts/ssb_phase3_envelope.py:98-102 | a row whose a or s is missing or unparsable is never given an allow tier |
| Phase3Envelope.MissingStatusIsReviewed | scripts/ssb_phase3_envelope.py:100-102 | a row without an SSB_status goes to human review |
| Phase3Envelope.Classified | scripts/ssb_phase3_envelope.py:102-103 | the row gains (or overwrites) only PHASE3_envelope, set to the row's tier name; every other cell is unchanged |
| Phase3Envelope.ClassifiedIdempotent | scripts/ssb_phase3_envelope.py:102-103 | classifying a classified row gives the same tier and the same row |
| Phase3Envelope.WithEnvelopeColumn | scripts/ssb_phase3_envelope.py:84-87 | the header contains PHASE3_envelope: unchanged if present, appended otherwise |
| Phase3Envelope.Labels | scripts/ssb_phase3_envelope.py:97-102 | one tier per row, each that row's tier |
| Phase3Envelope.Counts.Bump | scripts/ssb_phase3_envelope.py:106 | the count of that tier goes up by one and no other count changes |
| Phase3Envelope.CountsCoverRows | scripts/ssb_phase3_envelope.py:90-106 | the four tier counts add up to the number of rows |
| Phase3Envelope.Output | scripts/ssb_phase3_envelope.py:97-104 | row i of the output is input row i classified |
| Phase3Envelope.ClassifyRows | scripts/ssb_phase3_envelope.py:78-115 | output header with the envelope column; rows classified in order; counts of each tier; first restricted, deny and abstain indices are the first rows with those tiers |
| Phase3Envelope.Pass | scripts/ssb_phase3_envelope.py:96-115 | the row loop gives the classified rows, the tier counts and the three first indices |
| Phase3Envelope.CountsSnoc | scripts/ssb_phase3_envelope.py:106 | counting one more row bumps exactly its tier's count |
| Phase3Envelope.EvaluateRow | scripts/ssb_phase3_envelope.py:98-103 | the loop body computes the row's tier and its classified row |
| Phase3Envelope.Tally | scripts/ssb_phase3_envelope.py:106-113 | one row's counting and marker updates give the counts and first indices of the rows so far |
| Phase3Envelope.RerunIsIdentity | scripts/ssb_phase3_envelope.py:84-104 | re-running the pass on its own output gives the same tiers, rows and header |
| Phase3Envelope.GateThenEnvelope | scripts/ssb_phase3_envelope.py:34-55 | a gate DENY becomes DENY_FINAL and an ABSTAIN human review; a row gets an allow tier iff the gate ALLOWed with a finite carried s |
| PhysicsTrustPlot.PickColumn | scripts/illustrative/ssb_illustrative_physics_vs_trust_plot.py:53-57 | a result is both a candidate and a header name; none iff no candidate is in the header |
| PhysicsTrustPlot.PickColumnIsFirst | scripts/illustrative/ssb_illustrative_physics_vs_trust_plot.py:53-57 | the result is the earliest candidate present in the header |
| PhysicsTrustPlot.PlotParseFloat | scripts/illustrative/ssb_illustrative_physics_vs_trust_plot.py:60-69 | a missing or blank cell has no value; otherwise `float` of the stripped text |
| PhysicsTrustPlot.ResolveSchema | scripts/illustrative/ssb_illustrative_physics_vs_trust_plot.py:88-107 | succeeds iff all three columns resolve, with the picked names; otherwise it reports the found header and exactly the unresolved columns |
| PhysicsTrustPlot.SeriesOf | scripts/illustrative/ssb_illustrative_physics_vs_trust_plot.py:109-126 | the four series have equal lengths, at most the row count |
| PhysicsTrustPlot.StepsIncreasing | scripts/illustrative/ssb_illustrative_physics_vs_trust_plot.py:114-123 | the plotted steps are row indices, strictly increasing |
| PhysicsTrustPlot.SeriesValues | scripts/illustrative/ssb_illustrative_physics_vs_trust_plot.py:114-126 | each plotted point is a usable row with its own GM_eff, s and stripped envelope |
| PhysicsTrustPlot.UsableIsKept | scripts/illustrative/ssb_illustrative_physics_vs_trust_plot.py:119-123 | every row with numeric GM_eff and s is plotted |
| PhysicsTrustPlot.FirstStepIsEarliestRow | scripts/illustrative/ssb_illustrative_physics_vs_trust_plot.py:133-140 | a marker is the earliest usable row with that tier; there is none iff no usable row has it |
| PhysicsTrustPlot.CollectSeries | scripts/illustrative/ssb_illustrative_physics_vs_trust_plot.py:109-126 | the row loop produces the series of the rows |
| PhysicsTrustPlot.FirstMarkers | scripts/illustrative/ssb_illustrative_physics_vs_trust_plot.py:133-142 | the scan, early exit included, finds the first restricted and first deny plotted steps |
| PhysicsTrustPlot.ScanRow | scripts/illustrative/ssb_illustrative_physics_vs_trust_plot.py:137-140 | one scan step extends both markers to one more plotted row |
| PhysicsTrustPlot.StopEarly | scripts/illustrative/ssb_illustrative_physics_vs_trust_plot.py:141-142 | once both markers are set, the rest of the series cannot change them |
| PhysicsTrustPlot.PrepareFigure | scripts/illustrative/ssb_illustrative_physics_vs_trust_plot.py:84-142 | no header, missing columns, no usable rows, or the figure's schema, series and both markers |
| PhysicsTrustPlot.NoUsableRowsIff | scripts/illustrative/ssb_illustrative_physics_vs_trust_plot.py:128-130 | the no-usable-rows abort happens iff no row has numeric GM_eff and s |
| GovernancePlot.LevelsOfTiers | scripts/illustrative/ssb_illustrative_governance_plot.py:32-43 | every tier has a labelled level: 2 iff ALLOW_NORMAL, 1 iff ALLOW_RESTRICTED_MONITOR, 0 iff not an allow tier |
| GovernancePlot.LevelsAreLabelled | scripts/illustrative/ssb_illustrative_governance_plot.py:32-43 | every level has a tick label; the labelled levels are exactly 0, 1, 2 |
| GovernancePlot.LevelsOf | scripts/illustrative/ssb_illustrative_governance_plot.py:86-90 | one level per kept step, at most one per row |
| GovernancePlot.StepsIncreasing | scripts/illustrative/ssb_illustrative_governance_plot.py:86-90 | the steps are row indices, strictly increasing |
| GovernancePlot.LevelValues | scripts/illustrative/ssb_illustrative_governance_plot.py:86-90 | each point's level is the LEVEL_MAP value of its row's stripped tier |
| GovernancePlot.KeptIffKnownTier | scripts/illustrative/ssb_illustrative_governance_plot.py:87-88 | a row is plotted iff its stripped tier is a key of LEVEL_MAP |
| GovernancePlot.CollectLevels | scripts/illustrative/ssb_illustrative_governance_plot.py:78-94 | no header, missing PHASE3_envelope (with the found columns), no governance states, or the collected points |
| GovernancePlot.ClassifiedRowsAllPlotted | scripts/illustrative/ssb_illustrative_governance_plot.py:86-90 | every row written by the Phase III pass is plotted |
| GovernancePlot.ClassifiedTierIsKnown | scripts/illustrative/ssb_illustrative_governance_plot.py:87-88 | the envelope cell of a classified row, stripped, is a LEVEL_MAP key |
| Text.StripEnds | scripts/ssb_phase3_envelope.py:100 | `strip` leaves no blank at either end, and gives "" iff the text is all blank |
| Text.StripIdempotent | scripts/ssb_phase3_envelope.py:100 | stripping twice is stripping once |
| Text.UpperChars | scripts/ssb_phase3_envelope.py:100 | `upper` keeps the length and maps each character with the ASCII upper-casing |
| Text.SplitJoin | scripts/ssb_multifsc_ladder.py:73 | `split` undoes `join` on pieces free of the separator |

## Left out

- Command-line parsing, output-directory naming, CSV and report writing,
  console messages and `sys.exit` codes are not modelled. Each driver's
  arguments arrive as a configuration value, and each error exit is an
  `Error` value.
- `resolve_csv_path` in both figure scripts is not modelled, because it
  only tests the file system. The matplotlib drawing is not modelled
  either: the models stop at the data handed to the plot.
- Schedule.ScheduleDelta: the `sine_abs` mode is not modelled, because
  Dafny's reals have no sine. `Mode` covers square, ramp and constant.
- Floats: IEEE rounding, overflow to infinity and the NaN/infinity
  distinction are not modelled. Arithmetic on finite values is exact
  over the reals, and a non-finite value stays non-finite.
- Thresholds (GM_safe, a_min, r_safe, s_max, s_warn_frac), the fatigue
  run's duty cycle and the sweep's start, end and step are finite reals.
  A NaN or infinite value for any of them given on the command line is
  not modelled.
- Float parsing is the `floatOf` parameter, and Python's float `repr` in
  the cells the drivers write is not modelled.
- Phase3Envelope.RerunIsIdentity: stated on row maps, because the
  `DictWriter`/`DictReader` round trip between two passes is not modelled.
  The pass writes its input cells back unchanged, so no float `repr` is
  involved. On that round trip a short row's missing cell (an absent key
  here) is written as `""` and read back as a present empty cell, quoting
  is not modelled, and `DictWriter` raises on the extra cells of an
  over-long row.
- DispSweep.RunSweep: requires that the loop terminates, that is, a
  positive step or a start already past the limit. With a non-positive
  step and a start within the limit the source loops forever.
- Text: `strip` and `upper` act on ASCII whitespace and ASCII letters only.
  Python's Unicode whitespace and case mapping are not modelled.
- CSV parsing is not modelled: quoting, extra cells beyond the header,
  `DictReader` itself. A row is a map from column name to cell. A
  missing column and the `None` of a short row are both an absent key,
  and the model treats them the same.
