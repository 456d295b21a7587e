/**
 * Dataset statistics (app.js:156-189): one pass over the normalised records
 * keeping running minima and maxima of rank, year and percent, and the set
 * of sex codes, which is returned sorted.
 */
module Stats {
  import opened Wrappers
  import opened Records

  datatype DatasetStats = DatasetStats(
    rankMin: Option<real>, rankMax: Option<real>,
    yearMin: Option<real>, yearMax: Option<real>,
    percentMin: Option<real>, percentMax: Option<real>,
    sexes: seq<char>)

  datatype NumField = Rank | Year | Percent

  function FieldOf(rec: Record, f: NumField): Option<real> {
    match f
    case Rank => rec.rank
    case Year => rec.year
    case Percent => rec.percent
  }

  predicate NoValue(rs: seq<Record>, f: NumField) {
    forall i :: 0 <= i < |rs| ==> FieldOf(rs[i], f).None?
  }

  /** `v` occurs as field `f` of some record and no record has a smaller one. */
  predicate IsLeast(rs: seq<Record>, f: NumField, v: real) {
    (exists i :: 0 <= i < |rs| && FieldOf(rs[i], f) == Some(v))
    && forall i :: 0 <= i < |rs| && FieldOf(rs[i], f).Some? ==> v <= FieldOf(rs[i], f).value
  }

  /** `v` occurs as field `f` of some record and no record has a larger one. */
  predicate IsGreatest(rs: seq<Record>, f: NumField, v: real) {
    (exists i :: 0 <= i < |rs| && FieldOf(rs[i], f) == Some(v))
    && forall i :: 0 <= i < |rs| && FieldOf(rs[i], f).Some? ==> FieldOf(rs[i], f).value <= v
  }

  /**
   * The published bounds of field `f`: null exactly when no record has the
   * field, otherwise the least and the greatest value present.
   */
  predicate RangeOf(rs: seq<Record>, f: NumField, lo: Option<real>, hi: Option<real>) {
    (lo.None? <==> NoValue(rs, f)) && (hi.None? <==> NoValue(rs, f))
    && (lo.Some? ==> IsLeast(rs, f, lo.value))
    && (hi.Some? ==> IsGreatest(rs, f, hi.value))
  }

  /** Published bounds are ordered: the minimum never exceeds the maximum. */
  lemma RangeOrdered(rs: seq<Record>, f: NumField, lo: Option<real>, hi: Option<real>)
    requires RangeOf(rs, f, lo, hi)
    ensures lo.Some? <==> hi.Some?
    ensures lo.Some? ==> lo.value <= hi.value
  {
    if lo.Some? {
      var i :| 0 <= i < |rs| && FieldOf(rs[i], f) == Some(lo.value);
    }
  }

  /** A running minimum and maximum, which start at Infinity and -Infinity. */
  datatype Bounds = Bounds(lo: Ext, hi: Ext)

  const Unbounded := Bounds(PosInf, NegInf)

  /** The running accumulators: (Infinity, -Infinity) until a value is seen, then the extremes so far. */
  predicate AccOk(rs: seq<Record>, f: NumField, b: Bounds) {
    if NoValue(rs, f) then b == Unbounded
    else b.lo.Fin? && b.hi.Fin? && IsLeast(rs, f, b.lo.r) && IsGreatest(rs, f, b.hi.r)
  }

  /** `Math.min(acc, x)` with the accumulator possibly infinite. */
  function ExtMin(acc: Ext, x: real): Ext {
    match acc
    case NegInf => NegInf
    case Fin(y) => Fin(if x < y then x else y)
    case PosInf => Fin(x)
  }

  /** `Math.max(acc, x)` with the accumulator possibly infinite. */
  function ExtMax(acc: Ext, x: real): Ext {
    match acc
    case NegInf => Fin(x)
    case Fin(y) => Fin(if x > y then x else y)
    case PosInf => PosInf
  }

  /** One field's update in the loop body: a non-null value widens both bounds. */
  function Widen(b: Bounds, v: Option<real>): Bounds {
    if v.Some? then Bounds(ExtMin(b.lo, v.value), ExtMax(b.hi, v.value)) else b
  }

  /** One step of the loop of app.js:166-180 for one field keeps the accumulators right. */
  lemma StepKeepsAcc(rs: seq<Record>, f: NumField, b: Bounds, rec: Record)
    requires AccOk(rs, f, b)
    ensures AccOk(rs + [rec], f, Widen(b, FieldOf(rec, f)))
  {
    var lo, hi := b.lo, b.hi;
    var rs' := rs + [rec];
    assert forall i :: 0 <= i < |rs| ==> rs'[i] == rs[i];
    var v := FieldOf(rec, f);
    if v.Some? {
      assert FieldOf(rs'[|rs|], f) == v;
      if NoValue(rs, f) {
        assert forall i :: 0 <= i < |rs'| && FieldOf(rs'[i], f).Some? ==> i == |rs|;
      } else {
        var i :| 0 <= i < |rs| && FieldOf(rs[i], f) == Some(lo.r);
        var j :| 0 <= j < |rs| && FieldOf(rs[j], f) == Some(hi.r);
        assert FieldOf(rs'[i], f) == Some(lo.r);
        assert FieldOf(rs'[j], f) == Some(hi.r);
      }
    } else {
      if !NoValue(rs, f) {
        var i :| 0 <= i < |rs| && FieldOf(rs[i], f) == Some(lo.r);
        var j :| 0 <= j < |rs| && FieldOf(rs[j], f) == Some(hi.r);
        assert FieldOf(rs'[i], f) == Some(lo.r);
        assert FieldOf(rs'[j], f) == Some(hi.r);
      }
    }
  }

  /** app.js:181-186: an accumulator still infinite becomes null. */
  function FiniteOrNull(e: Ext): Option<real> {
    if e.Fin? then Some(e.r) else None
  }

  lemma AccGivesRange(rs: seq<Record>, f: NumField, b: Bounds)
    requires AccOk(rs, f, b)
    ensures RangeOf(rs, f, FiniteOrNull(b.lo), FiniteOrNull(b.hi))
  {
  }

  predicate StrictlySorted(s: seq<char>) {
    forall i, j :: 0 <= i < j < |s| ==> s[i] < s[j]
  }

  predicate Distinct(s: seq<char>) {
    forall i, j :: 0 <= i < j < |s| ==> s[i] != s[j]
  }

  /** Insert `c` into its place in a strictly sorted sequence that lacks it. */
  function InsertChar(c: char, s: seq<char>): (r: seq<char>)
    requires StrictlySorted(s) && c !in s
    ensures StrictlySorted(r) && |r| == |s| + 1
    ensures forall x :: x in r <==> x == c || x in s
  {
    if s == [] then [c]
    else if c < s[0] then [c] + s
    else
      var rest := InsertChar(c, s[1..]);
      assert forall x :: x in s <==> x == s[0] || x in s[1..];
      assert forall k :: 0 <= k < |rest| ==> s[0] < rest[k] by {
        forall k | 0 <= k < |rest| ensures s[0] < rest[k] {
          assert rest[k] in rest;
          if rest[k] != c {
            var m :| 0 <= m < |s[1..]| && s[1..][m] == rest[k];
            assert s[m + 1] == rest[k];
          }
        }
      }
      [s[0]] + rest
  }

  /** `Array.from(set).sort()` on single-character codes: the same codes in ascending order. */
  function SortChars(s: seq<char>): (r: seq<char>)
    requires Distinct(s)
    ensures StrictlySorted(r) && |r| == |s|
    ensures forall x :: x in r <==> x in s
  {
    if s == [] then []
    else
      var init := s[..|s| - 1];
      assert forall x :: x in s <==> x == s[|s| - 1] || x in init;
      InsertChar(s[|s| - 1], SortChars(init))
  }

  /** Some record carries sex code `c`. */
  predicate HasSex(rs: seq<Record>, c: char) {
    exists j :: 0 <= j < |rs| && rs[j].sex == Some(c)
  }

  /** Adding a record's sex code to the set of codes seen so far (`Set.prototype.add`). */
  lemma SexStep(rs: seq<Record>, seen: seq<char>, rec: Record)
    requires Distinct(seen)
    requires forall c :: c in seen <==> HasSex(rs, c)
    ensures var seen' := if rec.sex.Some? && rec.sex.value !in seen then seen + [rec.sex.value] else seen;
            && Distinct(seen')
            && forall c :: c in seen' <==> HasSex(rs + [rec], c)
  {
    var rs' := rs + [rec];
    assert forall j :: 0 <= j < |rs| ==> rs'[j] == rs[j];
    assert rs'[|rs|] == rec;
    forall c | HasSex(rs', c) && rec.sex != Some(c) ensures HasSex(rs, c) {
      var j :| 0 <= j < |rs'| && rs'[j].sex == Some(c);
    }
  }

  /** computeDatasetStats (app.js:156-189). */
  method ComputeDatasetStats(records: seq<Record>) returns (stats: DatasetStats)
    ensures RangeOf(records, Rank, stats.rankMin, stats.rankMax)
    ensures RangeOf(records, Year, stats.yearMin, stats.yearMax)
    ensures RangeOf(records, Percent, stats.percentMin, stats.percentMax)
    ensures StrictlySorted(stats.sexes)
    ensures forall c :: c in stats.sexes <==> HasSex(records, c)
  {
    var rank, year, percent := Unbounded, Unbounded, Unbounded;
    var sexes: seq<char> := [];
    for i := 0 to |records|
      invariant AccOk(records[..i], Rank, rank)
      invariant AccOk(records[..i], Year, year)
      invariant AccOk(records[..i], Percent, percent)
      invariant Distinct(sexes)
      invariant forall c :: c in sexes <==> HasSex(records[..i], c)
    {
      var rec := records[i];
      assert records[..i + 1] == records[..i] + [rec];
      StepKeepsAcc(records[..i], Rank, rank, rec);
      StepKeepsAcc(records[..i], Year, year, rec);
      StepKeepsAcc(records[..i], Percent, percent, rec);
      SexStep(records[..i], sexes, rec);
      rank := Widen(rank, rec.rank);
      year := Widen(year, rec.year);
      percent := Widen(percent, rec.percent);
      if rec.sex.Some? && rec.sex.value !in sexes {
        sexes := sexes + [rec.sex.value];
      }
    }
    assert records[..|records|] == records;
    AccGivesRange(records, Rank, rank);
    AccGivesRange(records, Year, year);
    AccGivesRange(records, Percent, percent);
    stats := DatasetStats(
      FiniteOrNull(rank.lo), FiniteOrNull(rank.hi),
      FiniteOrNull(year.lo), FiniteOrNull(year.hi),
      FiniteOrNull(percent.lo), FiniteOrNull(percent.hi),
      SortChars(sexes));
  }
}
