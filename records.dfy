/**
 * Record normalisation (app.js:128-154, 625): raw dataset rows with loosely
 * named, loosely typed fields become canonical records.
 */
module Records {
  import opened Wrappers
  import opened Text

  /** A field value of a parsed JSON row; `Undefined` is what a missing key reads as. */
  datatype JsValue = Undefined | Null | Bool(b: bool) | Num(x: real) | Str(s: string)

  /** A raw row: property name to value (a key that is absent reads as `Undefined`). */
  type RawRecord = map<string, JsValue>

  /** The result of JavaScript's `Number(string)`: a finite number, or NaN/±Infinity. */
  datatype NumberResult = Finite(x: real) | NotFinite

  /**
   * The two conversions of the JavaScript runtime the normaliser calls:
   * `Number(s)` on a string and `String(x)` on a number.
   */
  datatype JsConv = JsConv(numberOf: string -> NumberResult, stringOf: real -> string)

  /** A normalised record; numeric fields are finite or absent, never NaN. */
  datatype Record = Record(
    name: string,
    rank: Option<real>,
    percent: Option<real>,
    year: Option<real>,
    sex: Option<char>)

  function Get(obj: RawRecord, key: string): JsValue {
    if key in obj then obj[key] else Undefined
  }

  /** The test `pickField` applies to one key: not undefined, not null, not the empty string. */
  predicate Usable(obj: RawRecord, key: string) {
    var v := Get(obj, key);
    v != Undefined && v != Null && v != Str("")
  }

  /** JavaScript truthiness (values of a JSON row are always finite numbers). */
  predicate Truthy(v: JsValue) {
    match v
    case Undefined => false
    case Null => false
    case Bool(b) => b
    case Num(x) => x != 0.0
    case Str(s) => s != ""
  }

  /** `String(v)`. */
  function JsString(v: JsValue, conv: JsConv): string {
    match v
    case Undefined => "undefined"
    case Null => "null"
    case Bool(b) => if b then "true" else "false"
    case Num(x) => conv.stringOf(x)
    case Str(s) => s
  }

  /** The keys `pickField` tries, in order: each alias as given, lower-cased, upper-cased. */
  function Aliases(keys: seq<string>): (r: seq<string>)
    ensures |r| == 3 * |keys|
  {
    if keys == [] then []
    else [keys[0], LowerAscii(keys[0]), UpperAscii(keys[0])] + Aliases(keys[1..])
  }

  /**
   * pickField (app.js:128-137): the value under the first usable alias, or
   * `Null` when there is none; a non-null result is always a usable value.
   */
  function PickField(obj: RawRecord, keys: seq<string>): (r: JsValue)
    ensures r != Undefined && r != Str("")
  {
    if keys == [] then Null
    else if Usable(obj, keys[0]) then Get(obj, keys[0])
    else if Usable(obj, LowerAscii(keys[0])) then Get(obj, LowerAscii(keys[0]))
    else if Usable(obj, UpperAscii(keys[0])) then Get(obj, UpperAscii(keys[0]))
    else PickField(obj, keys[1..])
  }

  /**
   * `r` is what a scan of `ks` for the first usable key yields: null exactly
   * when no key is usable, and otherwise the value under the first usable key.
   */
  predicate IsFirstUsable(obj: RawRecord, ks: seq<string>, r: JsValue) {
    && (r == Null <==> forall i :: 0 <= i < |ks| ==> !Usable(obj, ks[i]))
    && (r != Null ==> exists i :: 0 <= i < |ks| && Usable(obj, ks[i]) && r == Get(obj, ks[i])
                                  && forall j :: 0 <= j < i ==> !Usable(obj, ks[j]))
  }

  /** When the first `n` keys are unusable and key `n` is usable, the scan yields its value. */
  lemma FirstUsableAt(obj: RawRecord, ks: seq<string>, n: nat)
    requires n < |ks| && Usable(obj, ks[n])
    requires forall j :: 0 <= j < n ==> !Usable(obj, ks[j])
    ensures IsFirstUsable(obj, ks, Get(obj, ks[n]))
  {
  }

  /** pickField scans the alias list in order for the first usable key. */
  lemma {:induction false} PickFieldIsFirstUsable(obj: RawRecord, keys: seq<string>)
    ensures IsFirstUsable(obj, Aliases(keys), PickField(obj, keys))
  {
    if keys != [] {
      var ks := Aliases(keys);
      var tail := Aliases(keys[1..]);
      assert ks == [keys[0], LowerAscii(keys[0]), UpperAscii(keys[0])] + tail;
      assert ks[0] == keys[0] && ks[1] == LowerAscii(keys[0]) && ks[2] == UpperAscii(keys[0]);
      var r := PickField(obj, keys);
      if Usable(obj, ks[0]) {
        FirstUsableAt(obj, ks, 0);
      } else if Usable(obj, ks[1]) {
        FirstUsableAt(obj, ks, 1);
      } else if Usable(obj, ks[2]) {
        FirstUsableAt(obj, ks, 2);
      } else {
        PickFieldIsFirstUsable(obj, keys[1..]);
        assert r == PickField(obj, keys[1..]);
        if r != Null {
          var i :| 0 <= i < |tail| && Usable(obj, tail[i]) && r == Get(obj, tail[i])
                   && forall j :: 0 <= j < i ==> !Usable(obj, tail[j]);
          assert ks[i + 3] == tail[i];
          forall j | 0 <= j < i + 3 ensures !Usable(obj, ks[j]) {
            if j >= 3 { assert ks[j] == tail[j - 3]; }
          }
          FirstUsableAt(obj, ks, i + 3);
        } else {
          forall i | 0 <= i < |ks| ensures !Usable(obj, ks[i]) {
            if i >= 3 { assert ks[i] == tail[i - 3]; }
          }
        }
      }
    }
  }

  /**
   * toNumber (app.js:139-143): missing, null and empty input give null;
   * anything else is converted and kept only when finite.
   */
  function ToNumber(v: JsValue, conv: JsConv): (r: Option<real>)
    ensures v == Undefined || v == Null || v == Str("") ==> r == None
    ensures v.Num? ==> r == Some(v.x)
    ensures v.Str? && v.s != "" ==> (r.Some? <==> conv.numberOf(v.s).Finite?)
  {
    match v
    case Undefined => None
    case Null => None
    case Bool(b) => Some(if b then 1.0 else 0.0)
    case Num(x) => Some(x)
    case Str(s) =>
      if s == "" then None
      else match conv.numberOf(s)
        case Finite(x) => Some(x)
        case NotFinite => None
  }

  /**
   * The sex code exactly as app.js:151-152 computes it: falsy input gives
   * null, anything else the upper-cased first character of the trimmed
   * string, which is the empty string when that trimmed string is empty.
   */
  function NormalizeSexAsWritten(v: JsValue, conv: JsConv): (r: Option<string>)
    ensures r.Some? ==> |r.value| <= 1
    ensures r.Some? <==> Truthy(v)
  {
    if Truthy(v) then
      var t := Trim(JsString(v, conv), IsJsSpace);
      Some(if t == "" then "" else [AsciiUpper(t[0])])
    else None
  }

  /** A truthy sex value that trims to nothing gives the empty string, not null. */
  lemma BlankSexGivesEmptyCode(conv: JsConv)
    ensures NormalizeSexAsWritten(Str(" "), conv) == Some("")
  {
    assert LeadCount(" ", IsJsSpace) == 1;
  }

  /**
   * The sex code as the engine means it: null, or one upper-cased character
   * that is not whitespace.
   */
  function NormalizeSex(v: JsValue, conv: JsConv): (r: Option<char>)
    ensures r.Some? ==> !IsJsSpace(r.value) && !('a' <= r.value <= 'z')
  {
    if Truthy(v) then
      var t := Trim(JsString(v, conv), IsJsSpace);
      if t == "" then None else Some(AsciiUpper(t[0]))
    else None
  }

  /** The corrected code differs from the written one only where that one yields "". */
  lemma NormalizeSexCorrects(v: JsValue, conv: JsConv)
    ensures NormalizeSexAsWritten(v, conv) == Some("") ==> NormalizeSex(v, conv) == None
    ensures NormalizeSexAsWritten(v, conv) != Some("") ==>
              NormalizeSexAsWritten(v, conv) == (if NormalizeSex(v, conv).Some? then Some([NormalizeSex(v, conv).value]) else None)
  {
  }

  /** app.js:147: a falsy name reads as empty, anything else as its trimmed string form. */
  function NormalizeName(v: JsValue, conv: JsConv): (r: string)
    ensures r == "" || (!IsJsSpace(r[0]) && !IsJsSpace(r[|r| - 1]))
    ensures !Truthy(v) ==> r == ""
  {
    if Truthy(v) then Trim(JsString(v, conv), IsJsSpace) else ""
  }

  /** normalizeRecord (app.js:145-154). */
  function NormalizeRecord(obj: RawRecord, conv: JsConv): (r: Record)
    ensures r.name == "" || (!IsJsSpace(r.name[0]) && !IsJsSpace(r.name[|r.name| - 1]))
    ensures r.sex.Some? ==> !IsJsSpace(r.sex.value) && !('a' <= r.sex.value <= 'z')
  {
    Record(
      NormalizeName(PickField(obj, ["Name"]), conv),
      ToNumber(PickField(obj, ["Rank"]), conv),
      ToNumber(PickField(obj, ["Percent", "Percentile"]), conv),
      ToNumber(PickField(obj, ["Year"]), conv),
      NormalizeSex(PickField(obj, ["Sex"]), conv))
  }

  /** What a normalised record looks like: trimmed name, canonical sex code. */
  predicate IsNormal(r: Record) {
    Trim(r.name, IsJsSpace) == r.name
    && (r.sex.Some? ==> !IsJsSpace(r.sex.value) && AsciiUpper(r.sex.value) == r.sex.value)
  }

  lemma NormalizeRecordIsNormal(obj: RawRecord, conv: JsConv)
    ensures IsNormal(NormalizeRecord(obj, conv))
  {
    var nameRaw := PickField(obj, ["Name"]);
    if Truthy(nameRaw) {
      TrimIdempotent(JsString(nameRaw, conv), IsJsSpace);
    }
  }

  function OptNum(x: Option<real>): JsValue {
    if x.Some? then Num(x.value) else Null
  }

  /** A normalised record fed back in as a raw row, under its own lower-case field names. */
  function ToRaw(r: Record): RawRecord {
    map["name" := Str(r.name), "rank" := OptNum(r.rank), "percent" := OptNum(r.percent),
        "year" := OptNum(r.year), "sex" := if r.sex.Some? then Str([r.sex.value]) else Null]
  }

  /** Every field name of `ToRaw(r)` starts with a lower-case letter. */
  lemma UpperNotRawKey(r: Record, k: string)
    requires |k| > 0 && 'A' <= k[0] <= 'Z'
    ensures k !in ToRaw(r)
  {
  }

  /** `pickField` with one capitalised alias on a row that holds only lower-case field names. */
  lemma PickLowerOnly(r: Record, key: string, lower: string)
    requires |key| > 0 && 'A' <= key[0] <= 'Z'
    requires LowerAscii(key) == lower
    ensures PickField(ToRaw(r), [key]) == if Usable(ToRaw(r), lower) then Get(ToRaw(r), lower) else Null
  {
    UpperNotRawKey(r, key);
    UpperNotRawKey(r, UpperAscii(key));
    assert [key][1..] == [];
  }

  /** What each lower-case field of `ToRaw(r)` holds. */
  lemma RawLookups(r: Record)
    ensures Get(ToRaw(r), "name") == Str(r.name)
    ensures Get(ToRaw(r), "rank") == OptNum(r.rank)
    ensures Get(ToRaw(r), "percent") == OptNum(r.percent)
    ensures Get(ToRaw(r), "year") == OptNum(r.year)
    ensures Get(ToRaw(r), "sex") == if r.sex.Some? then Str([r.sex.value]) else Null
  {
  }

  lemma NameField(r: Record)
    ensures PickField(ToRaw(r), ["Name"]) == if r.name != "" then Str(r.name) else Null
  {
    assert LowerAscii("Name") == "name";
    PickLowerOnly(r, "Name", "name");
    RawLookups(r);
  }

  lemma RankField(r: Record)
    ensures PickField(ToRaw(r), ["Rank"]) == OptNum(r.rank)
  {
    assert LowerAscii("Rank") == "rank";
    PickLowerOnly(r, "Rank", "rank");
    RawLookups(r);
  }

  lemma YearField(r: Record)
    ensures PickField(ToRaw(r), ["Year"]) == OptNum(r.year)
  {
    assert LowerAscii("Year") == "year";
    PickLowerOnly(r, "Year", "year");
    RawLookups(r);
  }

  lemma SexField(r: Record)
    ensures PickField(ToRaw(r), ["Sex"]) == if r.sex.Some? then Str([r.sex.value]) else Null
  {
    assert LowerAscii("Sex") == "sex";
    PickLowerOnly(r, "Sex", "sex");
    RawLookups(r);
  }

  /** A missing percent falls through "Percent" to "Percentile", which is absent too. */
  lemma PercentField(r: Record)
    ensures PickField(ToRaw(r), ["Percent", "Percentile"]) == OptNum(r.percent)
  {
    var obj := ToRaw(r);
    assert LowerAscii("Percent") == "percent";
    UpperNotRawKey(r, "Percent");
    UpperNotRawKey(r, UpperAscii("Percent"));
    RawLookups(r);
    if r.percent.None? {
      assert ["Percent", "Percentile"][1..] == ["Percentile"];
      assert LowerAscii("Percentile") == "percentile";
      PickLowerOnly(r, "Percentile", "percentile");
      assert "percentile" !in obj;
    }
  }

  lemma OptNumRoundTrip(x: Option<real>, conv: JsConv)
    ensures ToNumber(OptNum(x), conv) == x
  {
  }

  /** A trimmed name reads back as itself; an empty one reads back as empty. */
  lemma NameRoundTrip(name: string, conv: JsConv)
    requires Trim(name, IsJsSpace) == name
    ensures NormalizeName(if name != "" then Str(name) else Null, conv) == name
  {
  }

  /** A canonical sex code reads back as itself. */
  lemma SexRoundTrip(sex: Option<char>, conv: JsConv)
    requires sex.Some? ==> !IsJsSpace(sex.value) && AsciiUpper(sex.value) == sex.value
    ensures NormalizeSex(if sex.Some? then Str([sex.value]) else Null, conv) == sex
  {
    if sex.Some? {
      TrimUntouched([sex.value], IsJsSpace);
    }
  }

  /** Normalising an already normalised record gives it back unchanged. */
  lemma NormalizeIdempotent(r: Record, conv: JsConv)
    requires IsNormal(r)
    ensures NormalizeRecord(ToRaw(r), conv) == r
  {
    NameField(r);
    RankField(r);
    YearField(r);
    SexField(r);
    PercentField(r);
    OptNumRoundTrip(r.rank, conv);
    OptNumRoundTrip(r.year, conv);
    OptNumRoundTrip(r.percent, conv);
    NameRoundTrip(r.name, conv);
    SexRoundTrip(r.sex, conv);
  }

  /** The rows whose normalised name is non-empty, in order (`filter(rec => rec.name)`). */
  function KeepNamed(rs: seq<Record>): (r: seq<Record>)
    ensures |r| <= |rs|
    ensures forall x :: x in r <==> x in rs && x.name != ""
  {
    if rs == [] then []
    else if rs[0].name != "" then [rs[0]] + KeepNamed(rs[1..])
    else KeepNamed(rs[1..])
  }

  /** `a` can be obtained from `b` by deleting elements. */
  predicate IsSubseq<T(==)>(a: seq<T>, b: seq<T>)
    decreases |b|
  {
    a == [] || (b != [] && if a[0] == b[0] then IsSubseq(a[1..], b[1..]) else IsSubseq(a, b[1..]))
  }

  /** The named records are kept in their input order. */
  lemma {:induction false} KeepNamedIsSubseq(rs: seq<Record>)
    ensures IsSubseq(KeepNamed(rs), rs)
  {
    if rs != [] {
      var rest := KeepNamed(rs[1..]);
      KeepNamedIsSubseq(rs[1..]);
      if rs[0].name != "" {
        assert ([rs[0]] + rest)[1..] == rest;
      } else {
        assert rest == [] || rest[0] != rs[0];
      }
    }
  }

  /** A named record is kept as often as it occurs; an unnamed one never. */
  lemma {:induction false} KeepNamedCounts(rs: seq<Record>)
    ensures forall x :: multiset(KeepNamed(rs))[x] == if x.name != "" then multiset(rs)[x] else 0
  {
    if rs != [] {
      KeepNamedCounts(rs[1..]);
      assert rs == [rs[0]] + rs[1..];
    }
  }

  /**
   * app.js:625: every row normalised, rows whose name comes out empty
   * dropped; a record is kept exactly when it normalises some row and has
   * a name.
   */
  function NormalizeAll(data: seq<RawRecord>, conv: JsConv): (r: seq<Record>)
    ensures |r| <= |data|
    ensures forall x :: x in r <==> x.name != "" && x in NormalizeEach(data, conv)
  {
    KeepNamed(NormalizeEach(data, conv))
  }

  /**
   * The records kept are the named normalised rows in row order, each as
   * often as rows normalise to it.
   */
  lemma NormalizeAllKeepsOrder(data: seq<RawRecord>, conv: JsConv)
    ensures IsSubseq(NormalizeAll(data, conv), NormalizeEach(data, conv))
    ensures forall x :: multiset(NormalizeAll(data, conv))[x] ==
                          if x.name != "" then multiset(NormalizeEach(data, conv))[x] else 0
  {
    KeepNamedIsSubseq(NormalizeEach(data, conv));
    KeepNamedCounts(NormalizeEach(data, conv));
  }

  /** `data.map(normalizeRecord)`: every row normalised, in order. */
  function NormalizeEach(data: seq<RawRecord>, conv: JsConv): (r: seq<Record>)
    ensures |r| == |data| && forall j :: 0 <= j < |data| ==> r[j] == NormalizeRecord(data[j], conv)
  {
    seq(|data|, j requires 0 <= j < |data| => NormalizeRecord(data[j], conv))
  }

  /** A value that stands for "no value" in the comparisons of the engine: +Infinity and -Infinity. */
  datatype Ext = NegInf | Fin(r: real) | PosInf

  predicate ExtLt(a: Ext, b: Ext) {
    match (a, b)
    case (NegInf, _) => b != NegInf
    case (Fin(x), Fin(y)) => x < y
    case (Fin(_), PosInf) => true
    case _ => false
  }

  /** A record's rank with a missing rank read as +Infinity (`rec.rank ?? Infinity`). */
  function RankOrInf(rec: Record): (e: Ext)
    ensures e.NegInf? == false
    ensures e.PosInf? <==> rec.rank.None?
  {
    if rec.rank.Some? then Fin(rec.rank.value) else PosInf
  }

  /** The identity key of app.js:665: the name, or the name, "__" and the sex code. */
  function DedupKey(name: string, sex: Option<char>): (k: string)
    ensures sex.None? ==> k == name
    ensures sex.Some? ==> |k| == |name| + 3 && k[..|name|] == name && k[|name|..] == "__" + [sex.value]
  {
    if sex.Some? then name + "__" + [sex.value] else name
  }

  /** Two records with the same name and sex share their key; different sexes of one name do not. */
  lemma DedupKeySeparatesSexes(name: string, a: char, b: char)
    ensures DedupKey(name, Some(a)) == DedupKey(name, Some(b)) <==> a == b
  {
    if DedupKey(name, Some(a)) == DedupKey(name, Some(b)) {
      assert DedupKey(name, Some(a))[|name| + 2] == a;
    }
  }
}
