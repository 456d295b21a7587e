/**
 * The rating pool: items built from deduplicated records (app.js:349-364),
 * the Elo update after one match (app.js:366-382) and the k-factor setting
 * (app.js:725-728).
 */
module Rating {
  import opened Wrappers
  import opened Records

  /** One name in play; `id` is its position in the pool. */
  datatype Item = Item(
    id: nat,
    name: string,
    median: Option<real>,
    percent: Option<real>,
    rank: Option<real>,
    sex: Option<char>,
    year: Option<real>,
    elo: real,
    games: nat,
    wins: nat,
    losses: nat,
    active: bool)

  const InitialElo: real := 1500.0
  const DefaultK: int := 24
  const MinK: int := 4
  const MaxK: int := 64

  /** Every item sits at the position its id names. */
  predicate IdsAreIndices(items: seq<Item>) {
    forall i :: 0 <= i < |items| ==> items[i].id == i
  }

  /** Every game an item played was either a win or a loss. */
  predicate Tallied(items: seq<Item>) {
    forall i :: 0 <= i < |items| ==> items[i].games == items[i].wins + items[i].losses
  }

  /** `a` and `b` are the same name with the same dataset fields; their ratings may differ. */
  predicate SameIdentity(a: Item, b: Item) {
    a.id == b.id && a.name == b.name && a.median == b.median && a.percent == b.percent
    && a.rank == b.rank && a.sex == b.sex && a.year == b.year
  }

  /** The item a record becomes at position `id` before any match is played. */
  function FreshItem(rec: Record, id: nat): Item {
    Item(id, rec.name, rec.percent, rec.percent, rec.rank, rec.sex, rec.year, InitialElo, 0, 0, 0, true)
  }

  /**
   * buildItems (app.js:349-364): one item per record, in order, carrying the
   * record's fields; each starts unplayed at 1500 and active, with its
   * position as id.
   */
  function BuildItems(records: seq<Record>): (items: seq<Item>)
    ensures |items| == |records|
    ensures IdsAreIndices(items) && Tallied(items)
    ensures forall i :: 0 <= i < |items| ==>
              && items[i].name == records[i].name && items[i].sex == records[i].sex
              && items[i].rank == records[i].rank && items[i].year == records[i].year
              && items[i].percent == records[i].percent && items[i].median == records[i].percent
              && items[i].elo == InitialElo && items[i].games == 0 && items[i].active
  {
    seq(|records|, i requires 0 <= i < |records| => FreshItem(records[i], i))
  }

  /**
   * The properties `expectedScore` (app.js:366-369) has over the reals:
   * a probability strictly between 0 and 1, and the two players'
   * expectations sum to 1.
   */
  ghost predicate ValidExpected(e: (real, real) -> real) {
    forall a, b :: 0.0 < e(a, b) < 1.0 && e(a, b) + e(b, a) == 1.0
  }

  /**
   * The pool after updateElo(w, l) (app.js:371-382), with the assignments
   * made one after the other as the source makes them (so that `w == l`
   * updates a single item twice).
   */
  function Rated(items: seq<Item>, w: nat, l: nat, k: real, e: (real, real) -> real): (r: seq<Item>)
    requires w < |items| && l < |items|
    ensures |r| == |items|
    ensures forall i :: 0 <= i < |items| && i != w && i != l ==> r[i] == items[i]
  {
    var ea := e(items[w].elo, items[l].elo);
    var eb := e(items[l].elo, items[w].elo);
    var s1 := items[w := items[w].(elo := items[w].elo + k * (1.0 - ea))];
    var s2 := s1[l := s1[l].(elo := s1[l].elo + k * (0.0 - eb))];
    var s3 := s2[w := s2[w].(games := s2[w].games + 1, wins := s2[w].wins + 1)];
    s3[l := s3[l].(games := s3[l].games + 1, losses := s3[l].losses + 1)]
  }

  /**
   * A match between two different items adds one game and one win to the
   * winner, one game and one loss to the loser, and changes nothing else of
   * theirs but the ratings.
   */
  lemma RatedCounters(items: seq<Item>, w: nat, l: nat, k: real, e: (real, real) -> real)
    requires w < |items| && l < |items| && w != l
    ensures var r := Rated(items, w, l, k, e);
            && SameIdentity(r[w], items[w]) && SameIdentity(r[l], items[l])
            && r[w].active == items[w].active && r[l].active == items[l].active
            && r[w].games == items[w].games + 1 && r[w].wins == items[w].wins + 1
            && r[w].losses == items[w].losses
            && r[l].games == items[l].games + 1 && r[l].losses == items[l].losses + 1
            && r[l].wins == items[l].wins
  {
  }

  /**
   * With a valid expectation and a positive k, the winner gains and the
   * loser loses, each by less than k.
   */
  lemma RatedMovesRatings(items: seq<Item>, w: nat, l: nat, k: real, e: (real, real) -> real)
    requires w < |items| && l < |items| && w != l
    requires ValidExpected(e) && k > 0.0
    ensures var r := Rated(items, w, l, k, e);
            && items[w].elo < r[w].elo < items[w].elo + k
            && items[l].elo - k < r[l].elo < items[l].elo
  {
    var ea := e(items[w].elo, items[l].elo);
    var eb := e(items[l].elo, items[w].elo);
    assert 0.0 < ea < 1.0 && 0.0 < eb < 1.0;
    assert 0.0 < k * (1.0 - ea) < k by {
      assert k * (1.0 - ea) == k - k * ea;
      assert k * ea > 0.0;
    }
    assert 0.0 < k * eb < k by {
      assert k * (1.0 - eb) > 0.0;
    }
  }

  /** Every match keeps games equal to wins plus losses, for every item, even when `w == l`. */
  lemma RatedKeepsTallied(items: seq<Item>, w: nat, l: nat, k: real, e: (real, real) -> real)
    requires w < |items| && l < |items| && Tallied(items)
    ensures Tallied(Rated(items, w, l, k, e))
  {
    var r := Rated(items, w, l, k, e);
    forall i | 0 <= i < |r| ensures r[i].games == r[i].wins + r[i].losses {
      if i == w || i == l {
        assert items[i].games == items[i].wins + items[i].losses;
      }
    }
  }

  /** A match keeps every item's id, so a pool indexed by id stays so. */
  lemma RatedKeepsIds(items: seq<Item>, w: nat, l: nat, k: real, e: (real, real) -> real)
    requires w < |items| && l < |items| && IdsAreIndices(items)
    ensures IdsAreIndices(Rated(items, w, l, k, e))
  {
    var r := Rated(items, w, l, k, e);
    forall i | 0 <= i < |r| ensures r[i].id == i {
      assert r[i].id == items[i].id;
    }
  }

  /**
   * Two unplayed items meet at 1500 each: each expects one half, so with the
   * default k of 24 the winner moves to 1512 and the loser to 1488.
   */
  lemma FirstMatchFromStart(items: seq<Item>, w: nat, l: nat, e: (real, real) -> real)
    requires w < |items| && l < |items| && w != l && ValidExpected(e)
    requires items[w].elo == InitialElo && items[l].elo == InitialElo
    ensures Rated(items, w, l, DefaultK as real, e)[w].elo == 1512.0
    ensures Rated(items, w, l, DefaultK as real, e)[l].elo == 1488.0
  {
    assert e(InitialElo, InitialElo) + e(InitialElo, InitialElo) == 1.0;
  }

  /**
   * The pool after resetElo (app.js:710-716): every item back at 1500 with
   * no games and active again; names and dataset fields untouched.
   */
  function ResetItems(items: seq<Item>): (r: seq<Item>)
    ensures |r| == |items| && Tallied(r)
    ensures forall i :: 0 <= i < |items| ==> SameIdentity(r[i], items[i])
    ensures forall i :: 0 <= i < |items| ==> r[i].active && r[i].elo == InitialElo && r[i].games == 0
  {
    seq(|items|, i requires 0 <= i < |items| =>
      items[i].(elo := InitialElo, games := 0, wins := 0, losses := 0, active := true))
  }

  /**
   * Resetting a pool that was built from some records, whatever was played
   * since, gives back exactly the pool as first built.
   */
  lemma ResetRebuilds(records: seq<Record>, items: seq<Item>)
    requires |items| == |records|
    requires forall i :: 0 <= i < |items| ==> SameIdentity(items[i], BuildItems(records)[i])
    ensures ResetItems(items) == BuildItems(records)
  {
    var r, b := ResetItems(items), BuildItems(records);
    forall i | 0 <= i < |items| ensures r[i] == b[i] {
      assert SameIdentity(r[i], b[i]);
    }
  }

  /**
   * The k-factor handler (app.js:725-728): a parsed value (`None` standing
   * for NaN) replaces k only when it lies in [4, 64].
   */
  function AcceptK(k: int, parsed: Option<int>): (r: int)
    ensures parsed.Some? && MinK <= parsed.value <= MaxK ==> r == parsed.value
    ensures !(parsed.Some? && MinK <= parsed.value <= MaxK) ==> r == k
  {
    if parsed.Some? && MinK <= parsed.value <= MaxK then parsed.value else k
  }

  /** The k-factor never leaves [4, 64] once it is there. */
  lemma AcceptKInRange(k: int, parsed: Option<int>)
    requires MinK <= k <= MaxK
    ensures MinK <= AcceptK(k, parsed) <= MaxK
  {
  }
}
