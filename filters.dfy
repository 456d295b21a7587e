/**
 * The filter engine (app.js:338-347) and the one-line description of a
 * filter shown in the dataset label (app.js:643-659).
 */
module Filters {
  import opened Wrappers
  import opened Text
  import opened Records

  /**
   * A filter as `readFilterValues` builds it: a sex code or "any" (an empty
   * choice is read as "any"), and optional inclusive rank and year bounds.
   */
  datatype Filter = Filter(
    sex: string,
    rankMin: Option<real>, rankMax: Option<real>,
    yearMin: Option<real>, yearMax: Option<real>)

  const NoFilter := Filter("any", None, None, None, None)

  predicate SexOk(rec: Record, f: Filter) {
    f.sex == "any" || (rec.sex.Some? && f.sex == [rec.sex.value])
  }

  /** A set lower bound is met only by a present value that is at least the bound. */
  predicate AtLeast(v: Option<real>, bound: Option<real>) {
    bound.None? || (v.Some? && v.value >= bound.value)
  }

  /** A set upper bound is met only by a present value that is at most the bound. */
  predicate AtMost(v: Option<real>, bound: Option<real>) {
    bound.None? || (v.Some? && v.value <= bound.value)
  }

  /** The predicate of app.js:339-346: every constraint of the filter holds on its own. */
  predicate Passes(rec: Record, f: Filter) {
    SexOk(rec, f)
    && AtLeast(rec.rank, f.rankMin) && AtMost(rec.rank, f.rankMax)
    && AtLeast(rec.year, f.yearMin) && AtMost(rec.year, f.yearMax)
  }

  /**
   * filterRecords (app.js:338-347): the records that pass, in their original
   * order; every record kept passes.
   */
  function FilterRecords(rs: seq<Record>, f: Filter): (r: seq<Record>)
    ensures |r| <= |rs|
    ensures forall i :: 0 <= i < |r| ==> Passes(r[i], f)
  {
    if rs == [] then []
    else if Passes(rs[0], f) then [rs[0]] + FilterRecords(rs[1..], f)
    else FilterRecords(rs[1..], f)
  }

  /** The records kept appear in the input in the same order. */
  lemma {:induction false} FilterRecordsIsSubseq(rs: seq<Record>, f: Filter)
    ensures IsSubseq(FilterRecords(rs, f), rs)
  {
    if rs != [] {
      var rest := FilterRecords(rs[1..], f);
      FilterRecordsIsSubseq(rs[1..], f);
      if Passes(rs[0], f) {
        assert ([rs[0]] + rest)[1..] == rest;
      } else {
        assert rest == [] || rest[0] != rs[0];
      }
    }
  }

  /** Every record that passes is kept as often as it occurs; every other record is dropped. */
  lemma {:induction false} FilterRecordsCounts(rs: seq<Record>, f: Filter)
    ensures forall x :: multiset(FilterRecords(rs, f))[x] == if Passes(x, f) then multiset(rs)[x] else 0
  {
    if rs != [] {
      FilterRecordsCounts(rs[1..], f);
      assert rs == [rs[0]] + rs[1..];
    }
  }

  /** With every bound unset and sex "any", every record passes. */
  lemma {:induction false} NoFilterKeepsAll(rs: seq<Record>)
    ensures FilterRecords(rs, NoFilter) == rs
  {
    if rs != [] {
      NoFilterKeepsAll(rs[1..]);
    }
  }

  /** Filtering twice with the same filter changes nothing the second time. */
  lemma {:induction false} FilterIdempotent(rs: seq<Record>, f: Filter)
    ensures FilterRecords(FilterRecords(rs, f), f) == FilterRecords(rs, f)
  {
    if rs != [] {
      FilterIdempotent(rs[1..], f);
    }
  }

  /** `fmt` of app.js:648-651 with no decimals: "any" for an unset bound, else `String(val)`. */
  function Fmt(v: Option<real>, show: real -> string): string {
    if v.None? then "any" else show(v.value)
  }

  /** `addRange` of app.js:652-655: nothing when both bounds are unset. */
  function RangePart(title: string, lo: Option<real>, hi: Option<real>, show: real -> string): (r: seq<string>)
    ensures r == [] <==> lo.None? && hi.None?
    ensures r != [] ==> |r| == 1 && |r[0]| > |title| && r[0][..|title|] == title
  {
    if lo.None? && hi.None? then []
    else [title + " " + Fmt(lo, show) + "\U{2013}" + Fmt(hi, show)]
  }

  function SexPart(sex: string): (r: seq<string>)
    ensures r == [] <==> sex != "F" && sex != "M"
  {
    if sex == "F" then ["Female"] else if sex == "M" then ["Male"] else []
  }

  /** The pieces of the description: sex, then rank range, then year range, each only when set. */
  function Parts(f: Filter, show: real -> string): (r: seq<string>)
    ensures |r| <= 3
  {
    SexPart(f.sex) + RangePart("Rank", f.rankMin, f.rankMax, show) + RangePart("Year", f.yearMin, f.yearMax, show)
  }

  /**
   * describeFilters (app.js:643-659): "filtered" when there is no filter,
   * "All names" exactly when the filter constrains nothing the label shows,
   * and otherwise the parts joined by ", ".
   */
  function DescribeFilters(f: Option<Filter>, show: real -> string): (r: string)
    ensures f.None? ==> r == "filtered"
    ensures f.Some? ==> (r == "All names" <==> (f.value.sex != "F" && f.value.sex != "M"
                                               && f.value.rankMin.None? && f.value.rankMax.None?
                                               && f.value.yearMin.None? && f.value.yearMax.None?))
  {
    if f.None? then "filtered"
    else
      var parts := Parts(f.value, show);
      if parts != [] then
        var p := parts[0];
        assert p[0] in "FMRY" by {
          if SexPart(f.value.sex) != [] {
          } else if RangePart("Rank", f.value.rankMin, f.value.rankMax, show) != [] {
            assert p[..4] == "Rank";
          } else {
            assert p[..4] == "Year";
          }
        }
        var r := Join(parts, ", ");
        assert r[0] == p[0];
        r
      else "All names"
  }
}
