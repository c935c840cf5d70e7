/** Small generic vocabulary shared by the whole model: optional values,
    results with an error, and the "first hit" and "how many" scans that the
    drivers and post-processing scripts run over the rows they produce. */
module Prelude {

  /** Python's `None` or a value. */
  datatype Option<T> = None | Some(value: T)

  /** A computation that either yields a value or stops with an error
      (the scripts' `raise SystemExit(...)` and `sys.exit(1)` paths). */
  datatype Result<T, E> = Success(value: T) | Failure(error: E)

  function IntMax(x: int, y: int): int { if y > x then y else x }

  /** A CSV row as `csv.DictReader` yields it: a missing column and a short
      row's `None` are both an absent key, and `row.get(key)` is `Cell`. */
  type CsvRow = map<string, string>

  function Cell(row: CsvRow, key: string): Option<string> {
    if key in row then Some(row[key]) else None
  }

  /** The test "is equal to `t`", for the label scans. */
  function Equals<T(==)>(t: T): T -> bool {
    (x: T) => x == t
  }

  /** The index of the first element that satisfies `p`. Defined from the back,
      the way a loop that records a hit only while nothing was recorded yet
      builds it one appended row at a time. */
  function FirstWhere<T>(s: seq<T>, p: T -> bool): (r: Option<nat>)
    ensures r.Some? ==> r.value < |s| && p(s[r.value])
    ensures r.Some? ==> forall j :: 0 <= j < r.value ==> !p(s[j])
    ensures r.None? <==> forall j :: 0 <= j < |s| ==> !p(s[j])
  {
    if |s| == 0 then None
    else
      var f := FirstWhere(s[..|s| - 1], p);
      if f.Some? then f
      else if p(s[|s| - 1]) then Some(|s| - 1)
      else None
  }

  /** The number of elements that satisfy `p`. */
  function CountWhere<T>(s: seq<T>, p: T -> bool): (n: nat)
    ensures n <= |s|
    ensures n == 0 <==> forall j :: 0 <= j < |s| ==> !p(s[j])
  {
    if |s| == 0 then 0
    else CountWhere(s[..|s| - 1], p) + (if p(s[|s| - 1]) then 1 else 0)
  }

  /** Appending one element extends a first-hit scan: the earlier hit is kept. */
  lemma FirstWhereSnoc<T>(s: seq<T>, x: T, p: T -> bool)
    ensures FirstWhere(s + [x], p) ==
            if FirstWhere(s, p).Some? then FirstWhere(s, p)
            else if p(x) then Some(|s|) else None
  {
    assert (s + [x])[..|s|] == s;
  }

  lemma CountWhereSnoc<T>(s: seq<T>, x: T, p: T -> bool)
    ensures CountWhere(s + [x], p) == CountWhere(s, p) + (if p(x) then 1 else 0)
  {
    assert (s + [x])[..|s|] == s;
  }

  /** Elements that satisfy exactly one of three exhaustive, exclusive tests
      are counted exactly once: the three counts add up to the length. */
  lemma {:induction false} CountPartition<T>(s: seq<T>, p: T -> bool, q: T -> bool, u: T -> bool)
    requires forall x :: (p(x) || q(x) || u(x)) && !(p(x) && q(x)) && !(p(x) && u(x)) && !(q(x) && u(x))
    ensures CountWhere(s, p) + CountWhere(s, q) + CountWhere(s, u) == |s|
  {
    if |s| > 0 {
      CountPartition(s[..|s| - 1], p, q, u);
    }
  }

  /** When every element that passes `q` also passes `p`, a hit of `q`
      implies a hit of `p` no later. */
  lemma FirstWhereNoLater<T>(s: seq<T>, p: T -> bool, q: T -> bool)
    requires forall j :: 0 <= j < |s| && q(s[j]) ==> p(s[j])
    ensures FirstWhere(s, q).Some? ==>
      FirstWhere(s, p).Some? && FirstWhere(s, p).value <= FirstWhere(s, q).value
  {
    if FirstWhere(s, q).Some? {
      var k := FirstWhere(s, q).value;
      assert p(s[k]);
    }
  }

  /** Once a prefix has a hit, the whole sequence has the same first hit:
      a scan may stop there without changing its answer. */
  lemma {:induction false} FirstWhereOfPrefix<T>(s: seq<T>, i: nat, p: T -> bool)
    requires i <= |s| && FirstWhere(s[..i], p).Some?
    ensures FirstWhere(s, p) == FirstWhere(s[..i], p)
  {
    if i < |s| {
      var init := s[..|s| - 1];
      assert init[..i] == s[..i];
      FirstWhereOfPrefix(init, i, p);
    } else {
      assert s[..i] == s;
    }
  }
}
