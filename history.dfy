/**
 * Pair history (app.js:11-12, 442, 500-503): each shown pair is recorded
 * under an order-free key in a bounded first-in first-out list, whose
 * latest entries form the window of pairs to avoid repeating.
 */
module History {
  import opened Wrappers
  import opened Text

  const RecentWindow: nat := 20
  const HistoryLimit: nat := 100

  /** pairToKey (app.js:442): the smaller id, a hyphen, the larger id. */
  function PairToKey(a: nat, b: nat): (key: string)
    ensures key == ShowNat(Min(a, b)) + "-" + ShowNat(if a < b then b else a)
  {
    if a < b then ShowNat(a) + "-" + ShowNat(b) else ShowNat(b) + "-" + ShowNat(a)
  }

  /** The key does not depend on the order of the pair. */
  lemma PairToKeySymmetric(a: nat, b: nat)
    ensures PairToKey(a, b) == PairToKey(b, a)
  {
  }

  /** In a numeral followed by a hyphen, the first hyphen is the one after the numeral. */
  lemma HyphenAfterNumeral(x: string, y: string)
    requires AllDigits(x)
    ensures (x + "-" + y)[|x|] == '-'
    ensures forall k :: 0 <= k < |x| ==> (x + "-" + y)[k] != '-'
  {
    assert forall k :: 0 <= k < |x| ==> (x + "-" + y)[k] == x[k];
  }

  /** Two numerals joined by a hyphen split back into the same two numerals. */
  lemma SplitAtHyphen(x: string, y: string, x': string, y': string)
    requires AllDigits(x) && AllDigits(x')
    requires x + "-" + y == x' + "-" + y'
    ensures x == x' && y == y'
  {
    var s := x + "-" + y;
    HyphenAfterNumeral(x, y);
    HyphenAfterNumeral(x', y');
    assert |x| == |x'|;
    assert x == s[..|x|] && x' == s[..|x'|];
    assert y == s[|x| + 1..] && y' == s[|x'| + 1..];
  }

  /** Keys are equal exactly when the pairs are equal as unordered pairs. */
  lemma PairToKeyInjective(a: nat, b: nat, c: nat, d: nat)
    ensures PairToKey(a, b) == PairToKey(c, d) <==> (a == c && b == d) || (a == d && b == c)
  {
    if PairToKey(a, b) == PairToKey(c, d) {
      var lo1, hi1 := Min(a, b), if a < b then b else a;
      var lo2, hi2 := Min(c, d), if c < d then d else c;
      SplitAtHyphen(ShowNat(lo1), ShowNat(hi1), ShowNat(lo2), ShowNat(hi2));
      ShowNatInjective(lo1, lo2);
      ShowNatInjective(hi1, hi2);
    }
  }

  /** `r` is a suffix of `s`. */
  predicate IsSuffix<T(==)>(r: seq<T>, s: seq<T>) {
    |r| <= |s| && r == s[|s| - |r|..]
  }

  /**
   * The history after recordPair (app.js:500-503): the new key appended,
   * then only the last `HistoryLimit` entries kept.
   */
  function Recorded(history: seq<string>, key: string): (r: seq<string>)
    ensures IsSuffix(r, history + [key])
    ensures |r| == Min(|history| + 1, HistoryLimit)
    ensures r[|r| - 1] == key
  {
    var h := history + [key];
    if |h| > HistoryLimit then h[|h| - HistoryLimit..] else h
  }

  /** A history that is within the limit gains the key and loses nothing. */
  lemma RecordedBelowLimit(history: seq<string>, key: string)
    requires |history| < HistoryLimit
    ensures Recorded(history, key) == history + [key]
  {
  }

  /** A full history drops exactly its oldest entry. */
  lemma RecordedAtLimit(history: seq<string>, key: string)
    requires |history| == HistoryLimit
    ensures Recorded(history, key) == history[1..] + [key]
  {
  }

  /** `history.slice(-RECENT_WINDOW)`: the last (up to) 20 entries. */
  function Recent(history: seq<string>): (r: seq<string>)
    ensures IsSuffix(r, history)
    ensures |r| == Min(|history|, RecentWindow)
  {
    if |history| > RecentWindow then history[|history| - RecentWindow..] else history
  }

  /** A pair just recorded is in the recent window, so the next pick tries to avoid it. */
  lemma RecordedIsRecent(history: seq<string>, key: string)
    ensures key in Recent(Recorded(history, key))
  {
    var r := Recorded(history, key);
    var w := Recent(r);
    assert w[|w| - 1] == r[|r| - 1];
  }

  /**
   * The key of any of the last twenty recorded pairs is still in the window
   * after recording more, as long as fewer than twenty followed it.
   */
  lemma RecentKeepsLatest(history: seq<string>, key: string, j: nat)
    requires j < |history| && |history| - j < RecentWindow
    ensures history[j] in Recent(Recorded(history, key))
  {
    var r := Recorded(history, key);
    var h := history + [key];
    var w := Recent(r);
    var idx := |w| - 1 - (|history| - j);
    assert h[j] == history[j];
    assert w[idx] == r[|r| - 1 - (|history| - j)];
  }
}
