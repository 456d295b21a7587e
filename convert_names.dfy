/**
 * The per-cell coercion of scripts/convert_names.py (lines 34-54), which
 * turns the rows of the names CSV into the JSON records the app loads:
 * blank cells become null, rank and year cells integers where they parse,
 * percent cells rounded numbers where they parse, every other cell its
 * stripped text.
 */
module ConvertNames {
  import opened Wrappers
  import opened Text

  /** The Python values a cell can become. */
  datatype PyValue = PyNone | PyInt(i: int) | PyFloat(x: real) | PyStr(s: string)

  /** A digit string with single underscores between digits, as `int()` accepts (ASCII digits only). */
  predicate Grouped(s: string) {
    && |s| > 0 && IsDigit(s[0]) && IsDigit(s[|s| - 1])
    && (forall k :: 0 <= k < |s| ==> IsDigit(s[k]) || s[k] == '_')
    && (forall k :: 0 <= k < |s| - 1 && s[k] == '_' ==> IsDigit(s[k + 1]))
  }

  /** The digits of `s` with its underscores removed. */
  function DropUnderscores(s: string): (r: string)
    requires forall k :: 0 <= k < |s| ==> IsDigit(s[k]) || s[k] == '_'
    ensures AllDigits(r) && |r| <= |s|
    ensures AllDigits(s) ==> r == s
  {
    if s == [] then []
    else (if s[0] == '_' then [] else [s[0]]) + DropUnderscores(s[1..])
  }

  /** `s` with its sign, if any, removed. */
  function Unsigned(s: string): string {
    if |s| > 0 && (s[0] == '-' || s[0] == '+') then s[1..] else s
  }

  /**
   * `int(text)` on stripped text: an optional sign, then digits grouped by
   * single underscores, leading zeros allowed; `None` for the ValueError.
   */
  function ParseInt(text: string): (r: Option<int>)
    ensures r.Some? <==> Grouped(Unsigned(text))
    ensures r.Some? && |text| > 0 && text[0] == '-' ==> r.value <= 0
    ensures r.Some? && !(|text| > 0 && text[0] == '-') ==> r.value >= 0
  {
    var body := Unsigned(text);
    if !Grouped(body) then None
    else
      var magnitude: int := DigitsValue(DropUnderscores(body));
      Some(if |text| > 0 && text[0] == '-' then -magnitude else magnitude)
  }

  /** `str(n)` for an int: a minus sign for a negative value, then the decimal digits. */
  function ShowInt(n: int): (s: string)
    ensures s != [] && (n < 0 <==> s[0] == '-')
  {
    if n < 0 then "-" + ShowNat(-n) else ShowNat(n)
  }

  /** Every integer printed in decimal parses back to itself. */
  lemma ParseIntRoundTrip(n: int)
    ensures ParseInt(ShowInt(n)) == Some(n)
  {
    var m: nat := if n < 0 then -n else n;
    var digits := ShowNat(m);
    assert Unsigned(ShowInt(n)) == digits by {
      if n >= 0 {
        assert IsDigit(digits[0]);
      }
    }
    ShowNatRoundTrip(m);
  }

  /** A text with a character that is neither a sign, a digit nor an underscore does not parse. */
  lemma ParseIntRejectsOthers(text: string, k: nat)
    requires k < |text| && !IsDigit(text[k]) && text[k] != '_' && text[k] != '-' && text[k] != '+'
    ensures ParseInt(text) == None
  {
    var body := Unsigned(text);
    if |text| > 0 && (text[0] == '-' || text[0] == '+') {
      assert body[k - 1] == text[k];
    } else {
      assert body[k] == text[k];
    }
  }

  /** Underscores between digits group them without changing the value. */
  lemma ParseIntGroupsDigits()
    ensures ParseInt("1_000") == Some(1000)
  {
    ThousandIsGrouped();
    ThousandDigits();
    assert Unsigned("1_000") == "1_000";
    ThousandValue();
  }

  /** "1_000" is a digit string with one underscore between digits. */
  lemma ThousandIsGrouped()
    ensures Grouped("1_000")
  {
    var body := "1_000";
    assert forall k :: 0 <= k < |body| ==> IsDigit(body[k]) || body[k] == '_';
  }

  /** Dropping the underscore of "1_000" leaves "1000". */
  lemma ThousandDigits()
    ensures DropUnderscores("1_000") == "1000"
  {
    calc {
      DropUnderscores("1_000");
      { assert "1_000"[0] == '1' && "1_000"[1..] == "_000"; }
      ['1'] + DropUnderscores("_000");
      { assert "_000"[0] == '_' && "_000"[1..] == "000"; }
      ['1'] + DropUnderscores("000");
      { assert AllDigits("000"); }
      "1000";
    }
  }

  /** The digits "1000" are worth a thousand. */
  lemma ThousandValue()
    ensures DigitsValue("1000") == 1000
  {
    calc {
      DigitsValue("1000");
      { assert "1000"[..3] == "100"; }
      DigitsValue("100") * 10;
      { assert "100"[..2] == "10"; }
      DigitsValue("10") * 100;
      { assert "10"[..1] == "1"; assert "1"[..0] == ""; }
      1000;
    }
  }

  /** An underscore that does not sit between two digits makes the text refused. */
  lemma ParseIntRefusesStrayUnderscores()
    ensures ParseInt("1__000") == None
    ensures ParseInt("_1") == None
  {
    assert "1__000"[1] == '_' && !IsDigit("1__000"[2]);
  }

  /** The columns `int()` is tried on, in any letter case. */
  predicate IsIntColumn(column: string) {
    LowerAscii(column) == "rank" || LowerAscii(column) == "year"
  }

  predicate IsPercentColumn(column: string) {
    LowerAscii(column) == "percent"
  }

  /**
   * coerce_value (scripts/convert_names.py:34-49). `percentOf` stands for
   * `round(float(text), 1)`, `None` for its ValueError.
   */
  function CoerceValue(column: string, value: string, percentOf: string -> Option<real>): (r: PyValue)
    ensures r.PyStr? ==> r.s == Trim(value, IsPySpace) && r.s != ""
    ensures r.PyInt? ==> IsIntColumn(column) && ParseInt(Trim(value, IsPySpace)) == Some(r.i)
    ensures r.PyFloat? ==> IsPercentColumn(column) && percentOf(Trim(value, IsPySpace)) == Some(r.x)
    ensures IsIntColumn(column) && ParseInt(Trim(value, IsPySpace)).Some? ==> r.PyInt?
    ensures IsPercentColumn(column) && Trim(value, IsPySpace) != "" && percentOf(Trim(value, IsPySpace)).Some? ==> r.PyFloat?
  {
    var text := Trim(value, IsPySpace);
    if text == "" then PyNone
    else if IsIntColumn(column) then
      match ParseInt(text)
      case Some(n) => PyInt(n)
      case None => PyStr(text)
    else if IsPercentColumn(column) then
      match percentOf(text)
      case Some(x) => PyFloat(x)
      case None => PyStr(text)
    else PyStr(text)
  }

  /** A cell becomes None exactly when it is empty or whitespace only. */
  lemma CoerceBlankIsNone(column: string, value: string, percentOf: string -> Option<real>)
    ensures CoerceValue(column, value, percentOf) == PyNone <==> forall k :: 0 <= k < |value| ==> IsPySpace(value[k])
  {
    TrimEmptyIffAllSpace(value, IsPySpace);
  }

  /** A rank or year written in decimal, with any surrounding whitespace, comes back as that int. */
  lemma CoerceIntRoundTrip(column: string, n: int, percentOf: string -> Option<real>)
    requires IsIntColumn(column)
    ensures CoerceValue(column, " " + ShowInt(n) + "\n", percentOf) == PyInt(n)
  {
    var s := ShowInt(n);
    var padded := " " + s + "\n";
    assert !IsPySpace(s[0]) && !IsPySpace(s[|s| - 1]) by {
      if n < 0 {
        assert s[|s| - 1] == ShowNat(-n)[|ShowNat(-n)| - 1];
      }
    }
    assert Trim(padded, IsPySpace) == s by {
      assert LeadCount(padded, IsPySpace) == 1 by {
        assert padded[1] == s[0];
      }
      assert TrailCount(padded, IsPySpace) == 1 by {
        assert padded[|padded| - 2] == s[|s| - 1];
      }
      assert padded[1..|padded| - 1] == s;
    }
    ParseIntRoundTrip(n);
  }

  /** Only the stripped text matters: coercing it again gives the same value. */
  lemma CoerceDependsOnStripped(column: string, value: string, percentOf: string -> Option<real>)
    ensures CoerceValue(column, Trim(value, IsPySpace), percentOf) == CoerceValue(column, value, percentOf)
  {
    TrimIdempotent(value, IsPySpace);
  }

  /** A CSV row as DictReader yields it: its columns in order, a missing cell as `None`. */
  type Row = seq<(string, Option<string>)>

  /** One output dict of convert_rows (scripts/convert_names.py:54): each cell coerced, `None` read as "". */
  function ConvertRow(row: Row, percentOf: string -> Option<real>): (r: seq<(string, PyValue)>)
    ensures |r| == |row|
    ensures forall i :: 0 <= i < |row| ==> r[i].0 == row[i].0
    ensures forall i :: 0 <= i < |row| ==> r[i].1 == CoerceValue(row[i].0, row[i].1.GetOr(""), percentOf)
  {
    seq(|row|, i requires 0 <= i < |row| => (row[i].0, CoerceValue(row[i].0, row[i].1.GetOr(""), percentOf)))
  }

  /** convert_rows (scripts/convert_names.py:52-54): one dict per row, in order, with the row's columns in order. */
  function ConvertRows(rows: seq<Row>, percentOf: string -> Option<real>): (r: seq<seq<(string, PyValue)>>)
    ensures |r| == |rows|
    ensures forall j :: 0 <= j < |rows| ==> |r[j]| == |rows[j]|
    ensures forall j, i :: 0 <= j < |rows| && 0 <= i < |rows[j]| ==> r[j][i].0 == rows[j][i].0
    ensures forall j, i :: 0 <= j < |rows| && 0 <= i < |rows[j]| ==>
              r[j][i].1 == CoerceValue(rows[j][i].0, rows[j][i].1.GetOr(""), percentOf)
  {
    seq(|rows|, j requires 0 <= j < |rows| => ConvertRow(rows[j], percentOf))
  }

  /** A missing cell comes out as None, and so does a blank one. */
  lemma MissingCellIsNone(rows: seq<Row>, percentOf: string -> Option<real>, j: nat, i: nat)
    requires j < |rows| && i < |rows[j]|
    requires rows[j][i].1.None? || forall k :: 0 <= k < |rows[j][i].1.value| ==> IsPySpace(rows[j][i].1.value[k])
    ensures ConvertRows(rows, percentOf)[j][i].1 == PyNone
  {
    CoerceBlankIsNone(rows[j][i].0, rows[j][i].1.GetOr(""), percentOf);
  }
}
