/** The multi-tank free-surface ladder: a fixed hull to which tank FSC
    contributions are added one at a time; each rung is gated at the running
    FSC total with the accumulated resistance, optionally stopping at the
    first DENY. */
module MultiFscLadder {
  import opened Prelude
  import opened Floats
  import opened Text
  import opened Physics
  import opened Gate

  /** The run's command-line configuration (file locations and labels aside). */
  datatype Config = Config(iT: Num, dispVol: Num, kb: Num, kg: Num,
                           th: Thresholds, stopOnDeny: bool)

  /** One CSV row: index, contribution, running total, BM, KM, GM, GM_eff,
      classical sign, a, r, s, status. */
  datatype Row = Row(i: nat, add: Num, total: Num, bm: Num, km: Num, gm: Num, gmEff: Num,
                     classical: Classical, a: Num, r: Num, s: Num, status: Status)

  /** The report's first DENY: step, FSC total, GM_eff, a, r and s. */
  datatype FirstDeny = FirstDeny(i: nat, total: Num, gmEff: Num, a: Num, r: Num, s: Num)

  datatype Run = Run(rows: seq<Row>, firstDeny: Option<FirstDeny>)

  /** A piece `float` rejects (an uncaught `ValueError`), or a ladder with no
      non-blank piece (the run aborts before any row). */
  datatype Error = InvalidNumber(piece: string) | EmptyLadder

  // ---------------------------------------------------------------- parsing

  /** The stripped pieces that are not blank, in order. */
  function Kept(parts: seq<string>): (ps: seq<string>)
    ensures |ps| <= |parts|
  {
    if parts == [] then []
    else (if Strip(parts[0]) != [] then [Strip(parts[0])] else []) + Kept(parts[1..])
  }

  /** The comma-separated pieces of the ladder text, stripped, with the
      blank ones dropped. */
  function Pieces(text: string): seq<string> {
    Kept(Split(text, ','))
  }

  /** The values `float` gives the pieces, when it accepts every one. */
  function ParsedValues(ps: seq<string>, floatOf: string -> Option<Num>): (xs: seq<Num>)
    requires forall k :: 0 <= k < |ps| ==> floatOf(ps[k]).Some?
    ensures |xs| == |ps|
    ensures forall k :: 0 <= k < |ps| ==> floatOf(ps[k]) == Some(xs[k])
  {
    if ps == [] then [] else ParsedValues(ps[..|ps| - 1], floatOf) + [floatOf(ps[|ps| - 1]).value]
  }

  function Unparsable(floatOf: string -> Option<Num>): string -> bool {
    (p: string) => floatOf(p).None?
  }

  /** `parse_ladder`: one value per non-blank piece, in order; the first piece
      `float` rejects ends the parse with that piece. */
  method ParseLadder(text: string, floatOf: string -> Option<Num>) returns (r: Result<seq<Num>, string>)
    ensures var ps := Pieces(text);
      (r.Success? <==> forall k :: 0 <= k < |ps| ==> floatOf(ps[k]).Some?) &&
      (r.Success? ==> r.value == ParsedValues(ps, floatOf)) &&
      (r.Failure? ==> FirstWhere(ps, Unparsable(floatOf)).Some? &&
                      r.error == ps[FirstWhere(ps, Unparsable(floatOf)).value])
  {
    var parts := Pieces(text);
    if parts == [] {
      return Success([]);
    }
    r := ParsePieces(parts, floatOf);
  }

  /** The parsing loop: each piece in turn converted by `float`. */
  method ParsePieces(parts: seq<string>, floatOf: string -> Option<Num>) returns (r: Result<seq<Num>, string>)
    ensures r.Success? <==> forall k :: 0 <= k < |parts| ==> floatOf(parts[k]).Some?
    ensures r.Success? ==> r.value == ParsedValues(parts, floatOf)
    ensures r.Failure? ==> FirstWhere(parts, Unparsable(floatOf)).Some? &&
                           r.error == parts[FirstWhere(parts, Unparsable(floatOf)).value]
  {
    var out: seq<Num> := [];
    for k := 0 to |parts|
      invariant forall m :: 0 <= m < k ==> floatOf(parts[m]).Some?
      invariant out == ParsedValues(parts[..k], floatOf)
    {
      var x := floatOf(parts[k]);
      if x.None? {
        assert Unparsable(floatOf)(parts[k]);
        return Failure(parts[k]);
      }
      assert parts[..k + 1][..k] == parts[..k];
      out := out + [x.value];
    }
    assert parts[..|parts|] == parts;
    return Success(out);
  }

  /** Pieces stripped and non-blank already are kept as they are. */
  lemma {:induction false} KeptClean(parts: seq<string>)
    requires forall k :: 0 <= k < |parts| ==> parts[k] != [] && !IsSpace(parts[k][0]) && !IsSpace(parts[k][|parts[k]| - 1])
    ensures Kept(parts) == parts
  {
    if parts != [] {
      StripUnchanged(parts[0]);
      KeptClean(parts[1..]);
      assert [parts[0]] + parts[1..] == parts;
    }
  }

  /** Pieces that are all whitespace are all dropped. */
  lemma {:induction false} KeptBlank(parts: seq<string>)
    requires forall k :: 0 <= k < |parts| ==> AllSpace(parts[k])
    ensures Kept(parts) == []
  {
    if parts != [] {
      StripEnds(parts[0]);
      KeptBlank(parts[1..]);
    }
  }

  /** Keeping works piece by piece: the pieces kept from a concatenation are
      those kept from each part, in order. With the one-piece case (a
      non-blank piece is kept stripped, a blank one dropped) this fixes
      `Kept` on every input. */
  lemma {:induction false} KeptAppend(a: seq<string>, b: seq<string>)
    ensures Kept(a + b) == Kept(a) + Kept(b)
  {
    if a == [] {
      assert a + b == b;
    } else {
      assert (a + b)[0] == a[0];
      assert (a + b)[1..] == a[1..] + b;
      KeptAppend(a[1..], b);
    }
  }

  /** The test "is not blank once stripped". */
  function NonBlank(): string -> bool {
    (p: string) => Strip(p) != []
  }

  /** One kept piece per non-blank part, each non-empty with no blank at
      either end. */
  lemma {:induction false} KeptCharacterised(parts: seq<string>)
    ensures |Kept(parts)| == CountWhere(parts, NonBlank())
    ensures forall k :: 0 <= k < |Kept(parts)| ==>
      Kept(parts)[k] != [] && !IsSpace(Kept(parts)[k][0]) && !IsSpace(Kept(parts)[k][|Kept(parts)[k]| - 1])
  {
    if parts != [] {
      var init := parts[..|parts| - 1];
      var x := parts[|parts| - 1];
      assert parts == init + [x];
      KeptAppend(init, [x]);
      KeptCharacterised(init);
      StripEnds(x);
      assert [x][1..] == [];
      assert Kept([x]) == (if Strip(x) != [] then [Strip(x)] else []);
    }
  }

  /** Numbers written without commas or surrounding blanks and joined with
      commas are recovered piece for piece. */
  lemma LadderTextRoundTrip(texts: seq<string>)
    requires |texts| >= 1
    requires forall k :: 0 <= k < |texts| ==> ',' !in texts[k]
    requires forall k :: 0 <= k < |texts| ==> texts[k] != [] && !IsSpace(texts[k][0]) && !IsSpace(texts[k][|texts[k]| - 1])
    ensures Pieces(Join(texts, ',')) == texts
  {
    SplitJoin(texts, ',');
    KeptClean(texts);
  }

  /** A ladder text of blanks and commas only has no pieces, so the run
      stops with `EmptyLadder`. */
  lemma BlankLadderIsEmpty(text: string)
    requires forall c :: c in text ==> c == ',' || IsSpace(c)
    ensures Pieces(text) == []
  {
    var parts := Split(text, ',');
    SplitCharsFrom(text, ',');
    forall k | 0 <= k < |parts|
      ensures AllSpace(parts[k])
    {
      forall m | 0 <= m < |parts[k]|
        ensures IsSpace(parts[k][m])
      {
        assert parts[k][m] in parts[k];
      }
    }
    KeptBlank(parts);
  }

  // ---------------------------------------------------------------- the run

  /** `FSC_total` after adding the contributions in order, starting from 0. */
  function RunningTotal(xs: seq<Num>): Num {
    if xs == [] then Fin(0.0) else Add(RunningTotal(xs[..|xs| - 1]), xs[|xs| - 1])
  }

  /** The ordinary sum of finite contributions, taken from the front. */
  function Sum(xs: seq<Num>): real {
    if xs == [] then 0.0 else (if xs[0].Fin? then xs[0].v else 0.0) + Sum(xs[1..])
  }

  predicate AllFinite(xs: seq<Num>) { forall k :: 0 <= k < |xs| ==> xs[k].Fin? }

  /** One rung: the case at the running total, a row of `nan`s that ABSTAINs
      and keeps s when `compute_case` fails, otherwise the gate fed s. */
  function Step(cfg: Config, ladder: seq<Num>, i: nat, sOld: Num): Row
    requires i < |ladder|
  {
    var total := RunningTotal(ladder[..i + 1]);
    match ComputeCase(cfg.iT, cfg.dispVol, cfg.kb, cfg.kg, total)
    case None =>
      Row(i, ladder[i], total, NonFinite, NonFinite, NonFinite, NonFinite, Unstable,
          NonFinite, NonFinite, sOld, Abstain)
    case Some(c) =>
      var gmEff := Fin(c.gmEff);
      var d := SsbGate(gmEff, cfg.th, sOld);
      Row(i, ladder[i], total, Fin(c.bm), Fin(c.km), Fin(c.gm), gmEff, ClassicalSign(gmEff),
          d.a, d.r, d.s, d.status)
  }

  function CarriedS(rows: seq<Row>): Num {
    if rows == [] then Fin(0.0) else rows[|rows| - 1].s
  }

  /** The rows of the first n rungs. */
  function Trace(cfg: Config, ladder: seq<Num>, n: nat): (rows: seq<Row>)
    requires n <= |ladder|
    ensures |rows| == n
    ensures forall k :: 0 <= k < n ==> rows[k].i == k
  {
    if n == 0 then []
    else
      var prev := Trace(cfg, ladder, n - 1);
      prev + [Step(cfg, ladder, n - 1, CarriedS(prev))]
  }

  predicate IsDeny(row: Row) { row.status == Deny }

  function FirstDenyOf(rows: seq<Row>): Option<FirstDeny> {
    match FirstWhere(rows, IsDeny)
    case None => None
    case Some(k) =>
      var row := rows[k];
      Some(FirstDeny(row.i, row.total, row.gmEff, row.a, row.r, row.s))
  }

  /** `main` from parsing the ladder to the last row. */
  method RunLadder(cfg: Config, text: string, floatOf: string -> Option<Num>)
    returns (res: Result<Run, Error>)
    ensures res.Failure? && res.error.InvalidNumber? <==>
      exists k :: 0 <= k < |Pieces(text)| && floatOf(Pieces(text)[k]).None?
    ensures res.Failure? && res.error == EmptyLadder <==> Pieces(text) == []
    ensures res.Success? ==>
      (forall k :: 0 <= k < |Pieces(text)| ==> floatOf(Pieces(text)[k]).Some?) &&
      Ran(cfg, ParsedValues(Pieces(text), floatOf), res.value)
  {
    var parsed := ParseLadder(text, floatOf);
    if parsed.Failure? {
      return Failure(InvalidNumber(parsed.error));
    }
    var ladder := parsed.value;
    if ladder == [] {
      return Failure(EmptyLadder);
    }
    var run := Climb(cfg, ladder);
    return Success(run);
  }

  /** What a run over a parsed ladder produces: the trace of the rungs
      visited, the first DENY among them, every rung without `stop_on_deny`,
      and with it the rungs up to and including the first DENY. */
  predicate Ran(cfg: Config, ladder: seq<Num>, run: Run) {
    |run.rows| <= |ladder| &&
    run.rows == Trace(cfg, ladder, |run.rows|) &&
    run.firstDeny == FirstDenyOf(run.rows) &&
    (!cfg.stopOnDeny ==> |run.rows| == |ladder|) &&
    (cfg.stopOnDeny ==>
       (forall k :: 0 <= k < |run.rows| - 1 ==> run.rows[k].status != Deny) &&
       (|run.rows| < |ladder| ==> run.rows != [] && run.rows[|run.rows| - 1].status == Deny))
  }

  /** The rung loop: each contribution in turn, with its index. */
  method Climb(cfg: Config, ladder: seq<Num>) returns (run: Run)
    ensures Ran(cfg, ladder, run)
  {
    var rows: seq<Row> := [];
    var sAcc := Fin(0.0);
    var total := Fin(0.0);
    var firstDeny: Option<FirstDeny> := None;
    for i := 0 to |ladder|
      invariant rows == Trace(cfg, ladder, i)
      invariant sAcc == CarriedS(rows)
      invariant total == RunningTotal(ladder[..i])
      invariant firstDeny == FirstDenyOf(rows)
      invariant cfg.stopOnDeny ==> forall k :: 0 <= k < i ==> rows[k].status != Deny
    {
      total := Add(total, ladder[i]);
      assert ladder[..i + 1][..i] == ladder[..i];
      var row := EvaluateRung(cfg, ladder, i, total, sAcc);
      sAcc := row.s;
      FirstWhereSnoc(rows, row, IsDeny);
      rows := rows + [row];
      assert rows == Trace(cfg, ladder, i + 1);
      if firstDeny.None? && row.status == Deny {
        firstDeny := Some(FirstDeny(i, total, row.gmEff, row.a, row.r, sAcc));
      }
      if cfg.stopOnDeny && row.status == Deny {
        return Run(rows, firstDeny);
      }
    }
    return Run(rows, firstDeny);
  }

  /** The loop body up to the row: `compute_case` at the running total, and
      either the failure row or the gate's outputs for the carried s. */
  method EvaluateRung(cfg: Config, ladder: seq<Num>, i: nat, total: Num, sAcc: Num) returns (row: Row)
    requires i < |ladder| && total == RunningTotal(ladder[..i + 1])
    ensures row == Step(cfg, ladder, i, sAcc)
  {
    var comp := ComputeCase(cfg.iT, cfg.dispVol, cfg.kb, cfg.kg, total);
    if comp.None? {
      row := Row(i, ladder[i], total, NonFinite, NonFinite, NonFinite, NonFinite, Unstable,
                 NonFinite, NonFinite, sAcc, Abstain);
    } else {
      var c := comp.value;
      var gmEff := Fin(c.gmEff);
      var classical := ClassicalSign(gmEff);
      var d := SsbGate(gmEff, cfg.th, sAcc);
      row := Row(i, ladder[i], total, Fin(c.bm), Fin(c.km), Fin(c.gm), gmEff, classical, d.a, d.r, d.s, d.status);
    }
  }

  // ---------------------------------------------------------------- properties

  /** Adding the finite contributions one by one to the running total gives
      their ordinary sum. */
  lemma {:induction false} RunningTotalIsSum(xs: seq<Num>)
    requires AllFinite(xs)
    ensures RunningTotal(xs) == Fin(Sum(xs))
  {
    if xs != [] {
      var init := xs[..|xs| - 1];
      RunningTotalIsSum(init);
      SumSnoc(init, xs[|xs| - 1]);
      assert init + [xs[|xs| - 1]] == xs;
    }
  }

  lemma {:induction false} SumSnoc(xs: seq<Num>, x: Num)
    requires x.Fin?
    ensures Sum(xs + [x]) == Sum(xs) + x.v
  {
    if xs == [] {
      assert [x][1..] == [];
    } else {
      SumSnoc(xs[1..], x);
      assert (xs + [x])[1..] == xs[1..] + [x];
    }
  }

  /** A non-finite contribution makes every later total non-finite, so
      `compute_case` fails and every row from there on ABSTAINs. */
  lemma {:induction false} NonFiniteTotalPersists(xs: seq<Num>, k: nat)
    requires k < |xs| && !xs[k].Fin?
    ensures !RunningTotal(xs).Fin?
  {
    if k < |xs| - 1 {
      NonFiniteTotalPersists(xs[..|xs| - 1], k);
    }
  }

  lemma NonFiniteContributionAbstains(cfg: Config, ladder: seq<Num>, n: nat, k: nat, j: nat)
    requires n <= |ladder| && k <= j < n && !ladder[k].Fin?
    ensures Trace(cfg, ladder, n)[j].status == Abstain
  {
    TraceThreadsS(cfg, ladder, n, j);
    assert ladder[..j + 1][k] == ladder[k];
    NonFiniteTotalPersists(ladder[..j + 1], k);
  }

  /** With finite, non-negative contributions the total never decreases. */
  lemma {:induction false} TotalNonDecreasing(xs: seq<Num>, m: nat)
    requires AllFinite(xs) && forall k :: 0 <= k < |xs| ==> xs[k].v >= 0.0
    requires m <= |xs|
    ensures AllFinite(xs[..m])
    ensures RunningTotal(xs[..m]).Fin? && RunningTotal(xs).Fin?
    ensures RunningTotal(xs[..m]).v <= RunningTotal(xs).v
  {
    if m < |xs| {
      var init := xs[..|xs| - 1];
      assert xs[..m] == init[..m];
      TotalNonDecreasing(init, m);
    } else {
      assert xs[..m] == xs;
      RunningTotalIsSum(xs);
    }
  }

  lemma {:induction false} TracePrefix(cfg: Config, ladder: seq<Num>, n: nat, m: nat)
    requires m <= n <= |ladder|
    ensures Trace(cfg, ladder, n)[..m] == Trace(cfg, ladder, m)
  {
    if m < n {
      TracePrefix(cfg, ladder, n - 1, m);
      assert Trace(cfg, ladder, n)[..n - 1] == Trace(cfg, ladder, n - 1);
    }
  }

  /** Row j is rung j at the running total of contributions 0..j, with the
      resistance of row j − 1 carried in (0 for the first row). */
  lemma TraceThreadsS(cfg: Config, ladder: seq<Num>, n: nat, j: nat)
    requires j < n <= |ladder|
    ensures Trace(cfg, ladder, n)[j].total == RunningTotal(ladder[..j + 1])
    ensures j == 0 ==> Trace(cfg, ladder, n)[j] == Step(cfg, ladder, 0, Fin(0.0))
    ensures j > 0 ==> Trace(cfg, ladder, n)[j] == Step(cfg, ladder, j, Trace(cfg, ladder, n)[j - 1].s)
  {
    TracePrefix(cfg, ladder, n, j + 1);
    assert Trace(cfg, ladder, n)[j] == Trace(cfg, ladder, j + 1)[j];
    if j > 0 {
      TracePrefix(cfg, ladder, n, j);
      assert Trace(cfg, ladder, n)[j - 1] == Trace(cfg, ladder, j)[j - 1];
    }
  }

  /** ABSTAIN marks exactly the rungs where `compute_case` fails at the
      running total. Such a row reports GM_eff, a and r as `nan` and the sign
      as UNSTABLE, and passes the resistance through unchanged (0 on the
      first row). A computed rung is STABLE exactly when its GM_eff is positive. */
  lemma {:induction false} AbstainIffInvalidCase(cfg: Config, ladder: seq<Num>, n: nat, j: nat)
    requires j < n <= |ladder|
    ensures Trace(cfg, ladder, n)[j].status == Abstain <==>
            ComputeCase(cfg.iT, cfg.dispVol, cfg.kb, cfg.kg, RunningTotal(ladder[..j + 1])).None?
    ensures Trace(cfg, ladder, n)[j].status == Abstain ==>
            Trace(cfg, ladder, n)[j].gmEff == NonFinite && Trace(cfg, ladder, n)[j].a == NonFinite &&
            Trace(cfg, ladder, n)[j].r == NonFinite && Trace(cfg, ladder, n)[j].classical == Unstable
    ensures Trace(cfg, ladder, n)[j].status == Abstain && j == 0 ==> Trace(cfg, ladder, n)[j].s == Fin(0.0)
    ensures Trace(cfg, ladder, n)[j].status == Abstain && j > 0 ==>
            Trace(cfg, ladder, n)[j].s == Trace(cfg, ladder, n)[j - 1].s
    ensures Trace(cfg, ladder, n)[j].classical == Stable <==>
            Trace(cfg, ladder, n)[j].gmEff.Fin? && Trace(cfg, ladder, n)[j].gmEff.v > 0.0
  {
    TraceThreadsS(cfg, ladder, n, j);
  }

  /** `s_acc` is finite on every row and never decreases: an ABSTAIN from a
      failed case leaves it as it was. */
  lemma {:induction false} ResistanceNonDecreasing(cfg: Config, ladder: seq<Num>, n: nat)
    requires n <= |ladder|
    ensures forall i, j :: 0 <= i <= j < n ==>
      Trace(cfg, ladder, n)[i].s.Fin? && Trace(cfg, ladder, n)[j].s.Fin? &&
      Trace(cfg, ladder, n)[i].s.v <= Trace(cfg, ladder, n)[j].s.v
    ensures forall j :: 0 < j < n && Trace(cfg, ladder, n)[j].status == Abstain ==>
      Trace(cfg, ladder, n)[j].s == Trace(cfg, ladder, n)[j - 1].s
  {
    if n > 0 {
      ResistanceNonDecreasing(cfg, ladder, n - 1);
      var prev := Trace(cfg, ladder, n - 1);
      var rows := Trace(cfg, ladder, n);
      assert rows == prev + [Step(cfg, ladder, n - 1, CarriedS(prev))];
      assert CarriedS(prev).Fin?;
      assert rows[n - 1].s.Fin? && rows[n - 1].s.v >= CarriedS(prev).v;
      forall i, j | 0 <= i <= j < n
        ensures rows[i].s.Fin? && rows[j].s.Fin? && rows[i].s.v <= rows[j].s.v
      {
        if j < n - 1 {
          assert rows[i] == prev[i] && rows[j] == prev[j];
        } else if i < n - 1 {
          assert rows[i] == prev[i];
          assert prev[i].s.v <= prev[n - 2].s.v;
        }
      }
      forall j | 0 < j < n && rows[j].status == Abstain
        ensures rows[j].s == rows[j - 1].s
      {
        if j < n - 1 {
          assert rows[j] == prev[j] && rows[j - 1] == prev[j - 1];
        }
      }
    }
  }

  /** With finite, non-negative contributions GM_eff never rises along the
      ladder, and once a rung is DENIED every later rung is DENIED too. */
  lemma LadderDescends(cfg: Config, ladder: seq<Num>, n: nat, i: nat, j: nat)
    requires AllFinite(ladder) && forall k :: 0 <= k < |ladder| ==> ladder[k].v >= 0.0
    requires n <= |ladder| && i <= j < n
    requires Trace(cfg, ladder, n)[i].gmEff.Fin?
    ensures Trace(cfg, ladder, n)[j].gmEff.Fin?
    ensures Trace(cfg, ladder, n)[j].gmEff.v <= Trace(cfg, ladder, n)[i].gmEff.v
    ensures Trace(cfg, ladder, n)[i].status == Deny ==> Trace(cfg, ladder, n)[j].status == Deny
  {
    var rows := Trace(cfg, ladder, n);
    TraceThreadsS(cfg, ladder, n, i);
    TraceThreadsS(cfg, ladder, n, j);
    assert ladder[..j + 1][..i + 1] == ladder[..i + 1];
    TotalNonDecreasing(ladder[..j + 1], i + 1);
    if i < j {
      ResistanceNonDecreasing(cfg, ladder, n);
      var sIn := if i == 0 then Fin(0.0) else rows[i - 1].s;
      var sInJ := rows[j - 1].s;
      assert sIn.Fin? && sInJ.Fin?;
      assert rows[i].s.v <= sInJ.v;
      if rows[i].status == Deny {
        DenyMonotone(rows[j].gmEff.v, rows[i].gmEff.v, sInJ.v, sIn.v, cfg.th);
      }
    }
  }
}
