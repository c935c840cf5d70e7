/** The Phase III envelope classifier: a stateless pass over a finished run's
    rows that refines each ALLOW into a normal or a restricted tier, and
    appends that label as one extra column. */
module Phase3Envelope {
  import opened Prelude
  import opened Floats
  import opened Text
  import Gate

  /** The four envelope tiers, in their CSV spelling. */
  datatype Envelope = AllowNormal | AllowRestrictedMonitor | DenyFinal | AbstainHumanReview
  {
    function Name(): string {
      match this
      case AllowNormal => "ALLOW_NORMAL"
      case AllowRestrictedMonitor => "ALLOW_RESTRICTED_MONITOR"
      case DenyFinal => "DENY_FINAL"
      case AbstainHumanReview => "ABSTAIN_HUMAN_REVIEW"
    }

    predicate IsAllow() { this == AllowNormal || this == AllowRestrictedMonitor }
  }

  /** The column the classifier appends. */
  const EnvelopeColumn: string := "PHASE3_envelope"

  /** `a_min`, `s_max` and `s_warn_frac` as given on the command line. */
  datatype Params = Params(aMin: real, sMax: real, sWarnFrac: real)

  /** `envelope_label(ssb_status, a, s, a_min, s_max, s_warn_frac)`. */
  function EnvelopeLabel(status: string, a: Num, s: Num, p: Params): Envelope {
    if status == "DENY" then DenyFinal
    else if status == "ABSTAIN" then AbstainHumanReview
    else if status != "ALLOW" then AbstainHumanReview
    else if !IsFinite(a) || !IsFinite(s) then AbstainHumanReview
    else if s.v >= p.sWarnFrac * p.sMax then AllowRestrictedMonitor
    else if a.v <= p.aMin + 0.05 then AllowRestrictedMonitor
    else AllowNormal
  }

  /** Each tier exactly characterised by the status, the finiteness of a and
      s, and the two warning bands. */
  lemma EnvelopeTiers(status: string, a: Num, s: Num, p: Params)
    ensures var e := EnvelopeLabel(status, a, s, p);
      // DENY is final whatever a and s say.
      (e == DenyFinal <==> status == "DENY") &&
      // Any other status than ALLOW, or an ALLOW with a non-finite a or s, is referred to review.
      (e == AbstainHumanReview <==> status != "DENY" && (status != "ALLOW" || !a.Fin? || !s.Fin?)) &&
      // An ALLOW close to the resistance limit, or barely above a_min, is restricted.
      (e == AllowRestrictedMonitor <==>
         status == "ALLOW" && a.Fin? && s.Fin? && (s.v >= p.sWarnFrac * p.sMax || a.v <= p.aMin + 0.05)) &&
      (e == AllowNormal <==>
         status == "ALLOW" && a.Fin? && s.Fin? && s.v < p.sWarnFrac * p.sMax && a.v > p.aMin + 0.05)
  {
  }

  /** The classifier never upgrades: an allow tier needs an ALLOW status. */
  lemma NeverUpgrades(status: string, a: Num, s: Num, p: Params)
    requires status != "ALLOW"
    ensures !EnvelopeLabel(status, a, s, p).IsAllow()
  {
  }

  /** The worked example: s = 0.82 against 0.8 · 1.0 is restricted even with a = 0.9. */
  lemma RestrictedExample()
    ensures EnvelopeLabel("ALLOW", Fin(0.9), Fin(0.82), Params(0.70, 1.0, 0.8)) == AllowRestrictedMonitor
  {
  }

  /** `parse_float` of a cell: `nan` when the cell is absent (the `"nan"`
      default, or `float(None)` failing) or `float` rejects it. A finite
      value therefore always comes from a present cell that `float` read as
      exactly that value, and whatever `float` accepts is passed on as is. */
  function ParseFloat(cell: Option<string>, floatOf: string -> Option<Num>): (x: Num)
    ensures x.Fin? ==> cell.Some? && floatOf(cell.value) == Some(x)
    ensures (cell.Some? && floatOf(cell.value).Some?) <==> (cell.Some? && floatOf(cell.value) == Some(x))
  {
    match cell
    case None => NonFinite
    case Some(t) => if floatOf(t).Some? then floatOf(t).value else NonFinite
  }

  /** The status cell with surrounding blanks removed and letters upper-cased;
      an absent cell reads as the empty string. */
  function NormalizeStatus(cell: Option<string>): string
  {
    Upper(Strip(if cell.Some? then cell.value else ""))
  }

  /** Surrounding blanks and letter case do not matter. */
  lemma NormalizeExample()
    ensures NormalizeStatus(Some(" allow\n")) == "ALLOW"
    ensures NormalizeStatus(None) == ""
  {
    assert TrimStart(" allow\n") == TrimStart("allow\n") == "allow\n";
    assert TrimEnd("allow\n") == TrimEnd("allow") == "allow";
  }

  /** The label of one input row, read from its `a`, `s` and `SSB_status` cells. */
  function RowLabel(row: CsvRow, p: Params, floatOf: string -> Option<Num>): Envelope {
    EnvelopeLabel(NormalizeStatus(Cell(row, "SSB_status")),
                  ParseFloat(Cell(row, "a"), floatOf), ParseFloat(Cell(row, "s"), floatOf), p)
  }

  /** A row whose `a` or `s` is missing or unparsable is sent to review
      unless it is a DENY. */
  lemma UnparsableAllowIsReviewed(row: CsvRow, p: Params, floatOf: string -> Option<Num>)
    requires !ParseFloat(Cell(row, "a"), floatOf).Fin? || !ParseFloat(Cell(row, "s"), floatOf).Fin?
    ensures RowLabel(row, p, floatOf) == DenyFinal || RowLabel(row, p, floatOf) == AbstainHumanReview
  {
  }

  /** A row without an `SSB_status` cell is referred to review. */
  lemma MissingStatusIsReviewed(row: CsvRow, p: Params, floatOf: string -> Option<Num>)
    requires "SSB_status" !in row
    ensures RowLabel(row, p, floatOf) == AbstainHumanReview
  {
  }

  /** The output row: the input row with only the envelope cell set. */
  function Classified(row: CsvRow, p: Params, floatOf: string -> Option<Num>): (out: CsvRow)
    ensures out.Keys == row.Keys + {EnvelopeColumn}
    ensures out[EnvelopeColumn] == RowLabel(row, p, floatOf).Name()
    ensures forall k :: k in row && k != EnvelopeColumn ==> out[k] == row[k]
  {
    row[EnvelopeColumn := RowLabel(row, p, floatOf).Name()]
  }

  /** Classifying an already classified row changes nothing: the label reads
      only the `a`, `s` and `SSB_status` cells, never the one it writes. */
  lemma ClassifiedIdempotent(row: CsvRow, p: Params, floatOf: string -> Option<Num>)
    ensures RowLabel(Classified(row, p, floatOf), p, floatOf) == RowLabel(row, p, floatOf)
    ensures Classified(Classified(row, p, floatOf), p, floatOf) == Classified(row, p, floatOf)
  {
    var out := Classified(row, p, floatOf);
    assert Cell(out, "a") == Cell(row, "a");
    assert Cell(out, "s") == Cell(row, "s");
    assert Cell(out, "SSB_status") == Cell(row, "SSB_status");
  }

  /** The header with the envelope column appended if it is absent. */
  function WithEnvelopeColumn(header: seq<string>): (h: seq<string>)
    ensures EnvelopeColumn in h
    ensures EnvelopeColumn in header ==> h == header
    ensures EnvelopeColumn !in header ==> h == header + [EnvelopeColumn]
  {
    if EnvelopeColumn in header then header else header + [EnvelopeColumn]
  }

  /** The labels of the rows, in order. */
  function Labels(rows: seq<CsvRow>, p: Params, floatOf: string -> Option<Num>): (ls: seq<Envelope>)
    ensures |ls| == |rows|
    ensures forall i :: 0 <= i < |rows| ==> ls[i] == RowLabel(rows[i], p, floatOf)
  {
    if rows == [] then [] else Labels(rows[..|rows| - 1], p, floatOf) + [RowLabel(rows[|rows| - 1], p, floatOf)]
  }

  /** The report's `counts` dictionary, one entry per tier. */
  datatype Counts = Counts(normal: nat, restricted: nat, deny: nat, abstain: nat)
  {
    function Get(e: Envelope): nat {
      match e
      case AllowNormal => normal
      case AllowRestrictedMonitor => restricted
      case DenyFinal => deny
      case AbstainHumanReview => abstain
    }

    /** The counter of tier `e` raised by one. */
    function Bump(e: Envelope): (c: Counts)
      ensures c.Get(e) == Get(e) + 1
      ensures forall f :: f != e ==> c.Get(f) == Get(f)
    {
      match e
      case AllowNormal => this.(normal := normal + 1)
      case AllowRestrictedMonitor => this.(restricted := restricted + 1)
      case DenyFinal => this.(deny := deny + 1)
      case AbstainHumanReview => this.(abstain := abstain + 1)
    }
  }

  /** The counts of some labels. */
  function CountsOf(ls: seq<Envelope>): Counts {
    Counts(CountWhere(ls, Equals(AllowNormal)), CountWhere(ls, Equals(AllowRestrictedMonitor)),
           CountWhere(ls, Equals(DenyFinal)), CountWhere(ls, Equals(AbstainHumanReview)))
  }

  /** Each label is counted once: the four counts add up to the row count. */
  lemma {:induction false} CountsCoverRows(ls: seq<Envelope>)
    ensures CountsOf(ls).normal + CountsOf(ls).restricted + CountsOf(ls).deny + CountsOf(ls).abstain == |ls|
  {
    if ls != [] {
      var init := ls[..|ls| - 1];
      CountsCoverRows(init);
      var x := ls[|ls| - 1];
      assert init + [x] == ls;
      CountWhereSnoc(init, x, Equals(AllowNormal));
      CountWhereSnoc(init, x, Equals(AllowRestrictedMonitor));
      CountWhereSnoc(init, x, Equals(DenyFinal));
      CountWhereSnoc(init, x, Equals(AbstainHumanReview));
      match x
      case AllowNormal =>
      case AllowRestrictedMonitor =>
      case DenyFinal =>
      case AbstainHumanReview =>
    }
  }

  /** What the classifier writes and reports. */
  datatype Phase3 = Phase3(header: seq<string>, rows: seq<CsvRow>, counts: Counts,
                           firstRestricted: Option<nat>, firstDeny: Option<nat>,
                           firstAbstain: Option<nat>)

  /** The rows written out, in order. */
  function Output(rows: seq<CsvRow>, p: Params, floatOf: string -> Option<Num>): (out: seq<CsvRow>)
    ensures |out| == |rows|
    ensures forall i :: 0 <= i < |rows| ==> out[i] == Classified(rows[i], p, floatOf)
  {
    if rows == [] then [] else Output(rows[..|rows| - 1], p, floatOf) + [Classified(rows[|rows| - 1], p, floatOf)]
  }

  /** `main` from the header to the report. */
  method ClassifyRows(header: seq<string>, rows: seq<CsvRow>, p: Params, floatOf: string -> Option<Num>)
    returns (out: Phase3)
    ensures out.header == WithEnvelopeColumn(header)
    ensures out.rows == Output(rows, p, floatOf)
    ensures out.counts == CountsOf(Labels(rows, p, floatOf))
    ensures out.firstRestricted == FirstWhere(Labels(rows, p, floatOf), Equals(AllowRestrictedMonitor))
    ensures out.firstDeny == FirstWhere(Labels(rows, p, floatOf), Equals(DenyFinal))
    ensures out.firstAbstain == FirstWhere(Labels(rows, p, floatOf), Equals(AbstainHumanReview))
  {
    var fieldnames := header;
    if EnvelopeColumn !in fieldnames {
      fieldnames := fieldnames + [EnvelopeColumn];
    }
    var written, counts, firstRestricted, firstDeny, firstAbstain := Pass(rows, p, floatOf);
    out := Phase3(fieldnames, written, counts, firstRestricted, firstDeny, firstAbstain);
  }

  /** The loop over the input rows. */
  method Pass(rows: seq<CsvRow>, p: Params, floatOf: string -> Option<Num>)
    returns (written: seq<CsvRow>, counts: Counts, firstRestricted: Option<nat>,
             firstDeny: Option<nat>, firstAbstain: Option<nat>)
    ensures written == Output(rows, p, floatOf)
    ensures counts == CountsOf(Labels(rows, p, floatOf))
    ensures firstRestricted == FirstWhere(Labels(rows, p, floatOf), Equals(AllowRestrictedMonitor))
    ensures firstDeny == FirstWhere(Labels(rows, p, floatOf), Equals(DenyFinal))
    ensures firstAbstain == FirstWhere(Labels(rows, p, floatOf), Equals(AbstainHumanReview))
  {
    written := [];
    counts := Counts(0, 0, 0, 0);
    firstRestricted, firstDeny, firstAbstain := None, None, None;
    var idx := 0;
    while idx < |rows|
      invariant idx <= |rows|
      invariant written == Output(rows[..idx], p, floatOf)
      invariant counts == CountsOf(Labels(rows[..idx], p, floatOf))
      invariant firstRestricted == FirstWhere(Labels(rows[..idx], p, floatOf), Equals(AllowRestrictedMonitor))
      invariant firstDeny == FirstWhere(Labels(rows[..idx], p, floatOf), Equals(DenyFinal))
      invariant firstAbstain == FirstWhere(Labels(rows[..idx], p, floatOf), Equals(AbstainHumanReview))
    {
      var env, row := EvaluateRow(rows[idx], p, floatOf);
      var before := Labels(rows[..idx], p, floatOf);
      PassStep(rows, idx, p, floatOf);
      written := written + [row];
      counts, firstRestricted, firstDeny, firstAbstain :=
        Tally(before, env, idx, counts, firstRestricted, firstDeny, firstAbstain);
      idx := idx + 1;
    }
    assert rows[..idx] == rows;
  }

  /** One more row extends the labels and the output by that row's own. */
  lemma PassStep(rows: seq<CsvRow>, idx: nat, p: Params, floatOf: string -> Option<Num>)
    requires idx < |rows|
    ensures Labels(rows[..idx + 1], p, floatOf) == Labels(rows[..idx], p, floatOf) + [RowLabel(rows[idx], p, floatOf)]
    ensures Output(rows[..idx + 1], p, floatOf) == Output(rows[..idx], p, floatOf) + [Classified(rows[idx], p, floatOf)]
  {
    assert rows[..idx + 1][..idx] == rows[..idx];
  }

  /** Counting one more label bumps that label's count. */
  lemma CountsSnoc(ls: seq<Envelope>, e: Envelope)
    ensures CountsOf(ls + [e]) == CountsOf(ls).Bump(e)
  {
    CountWhereSnoc(ls, e, Equals(AllowNormal));
    CountWhereSnoc(ls, e, Equals(AllowRestrictedMonitor));
    CountWhereSnoc(ls, e, Equals(DenyFinal));
    CountWhereSnoc(ls, e, Equals(AbstainHumanReview));
  }

  /** One row: its cells read, its tier found and written into it. */
  method EvaluateRow(row: CsvRow, p: Params, floatOf: string -> Option<Num>) returns (env: Envelope, out: CsvRow)
    ensures env == RowLabel(row, p, floatOf)
    ensures out == Classified(row, p, floatOf)
  {
    var a := ParseFloat(Cell(row, "a"), floatOf);
    var s := ParseFloat(Cell(row, "s"), floatOf);
    var status := NormalizeStatus(Cell(row, "SSB_status"));
    env := EnvelopeLabel(status, a, s, p);
    out := row[EnvelopeColumn := env.Name()];
  }

  /** One row's bookkeeping: its label's count goes up by one, and each
      first index not yet set is set if the row has that label. */
  method Tally(ls: seq<Envelope>, env: Envelope, idx: nat, counts: Counts,
               firstRestricted: Option<nat>, firstDeny: Option<nat>, firstAbstain: Option<nat>)
    returns (counts': Counts, firstRestricted': Option<nat>,
             firstDeny': Option<nat>, firstAbstain': Option<nat>)
    requires idx == |ls| && counts == CountsOf(ls)
    requires firstRestricted == FirstWhere(ls, Equals(AllowRestrictedMonitor))
    requires firstDeny == FirstWhere(ls, Equals(DenyFinal))
    requires firstAbstain == FirstWhere(ls, Equals(AbstainHumanReview))
    ensures counts' == CountsOf(ls + [env])
    ensures firstRestricted' == FirstWhere(ls + [env], Equals(AllowRestrictedMonitor))
    ensures firstDeny' == FirstWhere(ls + [env], Equals(DenyFinal))
    ensures firstAbstain' == FirstWhere(ls + [env], Equals(AbstainHumanReview))
  {
    CountsSnoc(ls, env);
    FirstWhereSnoc(ls, env, Equals(AllowRestrictedMonitor));
    FirstWhereSnoc(ls, env, Equals(DenyFinal));
    FirstWhereSnoc(ls, env, Equals(AbstainHumanReview));
    counts' := counts.Bump(env);
    firstRestricted', firstDeny', firstAbstain' := firstRestricted, firstDeny, firstAbstain;
    if firstRestricted.None? && env == AllowRestrictedMonitor {
      firstRestricted' := Some(idx);
    }
    if firstDeny.None? && env == DenyFinal {
      firstDeny' := Some(idx);
    }
    if firstAbstain.None? && env == AbstainHumanReview {
      firstAbstain' := Some(idx);
    }
  }

  /** Re-running the classifier on its own output gives the same labels, the
      same rows and the same header. */
  lemma RerunIsIdentity(header: seq<string>, rows: seq<CsvRow>, p: Params, floatOf: string -> Option<Num>)
    ensures Labels(Output(rows, p, floatOf), p, floatOf) == Labels(rows, p, floatOf)
    ensures Output(Output(rows, p, floatOf), p, floatOf) == Output(rows, p, floatOf)
    ensures WithEnvelopeColumn(WithEnvelopeColumn(header)) == WithEnvelopeColumn(header)
  {
    var out := Output(rows, p, floatOf);
    forall i | 0 <= i < |rows|
      ensures RowLabel(out[i], p, floatOf) == RowLabel(rows[i], p, floatOf)
      ensures Classified(out[i], p, floatOf) == out[i]
    {
      ClassifiedIdempotent(rows[i], p, floatOf);
    }
  }

  /** The status names the drivers write. */
  function StatusName(st: Gate.Status): string {
    match st
    case Allow => "ALLOW"
    case Deny => "DENY"
    case Abstain => "ABSTAIN"
  }

  /** A gate decision read back by the classifier: DENY stays final, ABSTAIN
      goes to review, and an ALLOW keeps an allow tier exactly when the
      resistance it carried in was finite; after the fatigue run's first
      ABSTAIN every later ALLOW is therefore referred to review. */
  lemma GateThenEnvelope(gmEff: Num, th: Gate.Thresholds, sOld: Num, p: Params)
    ensures var d := Gate.SsbGate(gmEff, th, sOld);
      (d.status == Gate.Deny ==> EnvelopeLabel(StatusName(d.status), d.a, d.s, p) == DenyFinal) &&
      (d.status == Gate.Abstain ==> EnvelopeLabel(StatusName(d.status), d.a, d.s, p) == AbstainHumanReview) &&
      (EnvelopeLabel(StatusName(d.status), d.a, d.s, p).IsAllow() <==> d.status == Gate.Allow && sOld.Fin?)
  {
  }
}
