/**
 * The application state of app.js:17-28 and the handlers that change it:
 * loading the dataset, starting a filtered pool, showing the next pair,
 * a pick, a removal, the k-factor and the reset. Each handler's timer
 * callback (app.js:527-532, 609-616) is a method of its own, called after
 * the handler; the DOM updates of every handler are left out.
 */
module Session {
  import opened Wrappers
  import opened Text
  import opened Records
  import opened Stats
  import opened Filters
  import opened Dedupe
  import opened Rating
  import opened History
  import opened Matchmaking
  import opened Persistence

  /** The random draws of one pick, given the number of items it draws from. */
  type Tape = nat -> Draws

  ghost predicate TapeFits(tape: Tape) {
    forall n :: n >= 1 ==> DrawsFit(tape(n), n)
  }

  /** Two different positions of a pool of `n` items. */
  predicate PairIn(pair: (nat, nat), n: nat) {
    pair.0 < n && pair.1 < n && pair.0 != pair.1
  }

  /** The winner and the loser when `side` of the pair shown is picked (app.js:513-514). */
  function WinnerLoser(pair: (nat, nat), side: Side): (r: (nat, nat))
    ensures r.0 == OnSide(pair, side) && r.1 == OnSide(pair, Opposite(side))
  {
    if side == Left then pair else (pair.1, pair.0)
  }

  /** The id shown on `side`. */
  function OnSide(pair: (nat, nat), side: Side): nat {
    if side == Left then pair.0 else pair.1
  }

  /** The store after saveToLocalStorage (app.js:330-336): nothing is saved without a dataset key. */
  function Persisted(store: map<string, Snapshot>, datasetKey: Option<string>, items: seq<Item>, totalMatches: nat)
    : (r: map<string, Snapshot>)
    ensures datasetKey.None? ==> r == store
    ensures datasetKey.Some? ==>
              var key := StoragePrefix + datasetKey.value;
              && key in r && r[key] == TakeSnapshot(items, totalMatches)
              && forall k :: k != key ==> (k in r <==> k in store) && (k in r ==> r[k] == store[k])
  {
    if datasetKey.Some? then store[StoragePrefix + datasetKey.value := TakeSnapshot(items, totalMatches)] else store
  }

  function ShowOrNull(v: Option<real>, show: real -> string): string {
    if v.Some? then show(v.value) else "null"
  }

  /** The filter signature of app.js:698, each bound as JavaScript prints it or "null". */
  function FilterSignature(f: Filter, show: real -> string): string {
    f.sex + "|" + (ShowOrNull(f.rankMin, show) + "|" + (ShowOrNull(f.rankMax, show)
    + "|" + (ShowOrNull(f.yearMin, show) + "|" + ShowOrNull(f.yearMax, show))))
  }

  /** The signature is the filter's five fields, in order, joined by "|". */
  lemma FilterSignatureFields(f: Filter, show: real -> string)
    ensures FilterSignature(f, show) == Join([f.sex, ShowOrNull(f.rankMin, show), ShowOrNull(f.rankMax, show),
                                              ShowOrNull(f.yearMin, show), ShowOrNull(f.yearMax, show)], "|")
  {
    var parts := [f.sex, ShowOrNull(f.rankMin, show), ShowOrNull(f.rankMax, show),
                  ShowOrNull(f.yearMin, show), ShowOrNull(f.yearMax, show)];
    var p4 := [ShowOrNull(f.yearMax, show)];
    var p3 := [ShowOrNull(f.yearMin, show)] + p4;
    var p2 := [ShowOrNull(f.rankMax, show)] + p3;
    var p1 := [ShowOrNull(f.rankMin, show)] + p2;
    assert parts == [f.sex] + p1;
    assert Join(p4, "|") == ShowOrNull(f.yearMax, show);
    assert Join(p3, "|") == ShowOrNull(f.yearMin, show) + "|" + Join(p4, "|") by { assert p3[1..] == p4; }
    assert Join(p2, "|") == ShowOrNull(f.rankMax, show) + "|" + Join(p3, "|") by { assert p2[1..] == p3; }
    assert Join(p1, "|") == ShowOrNull(f.rankMin, show) + "|" + Join(p2, "|") by { assert p1[1..] == p2; }
    assert Join(parts, "|") == f.sex + "|" + Join(p1, "|") by { assert parts[1..] == p1; }
  }

  function Names(items: seq<Item>): seq<string> {
    seq(|items|, i requires 0 <= i < |items| => items[i].name)
  }

  /** Two different members of a sequence make it at least two long. */
  lemma TwoMembers<T>(s: seq<T>, x: T, y: T)
    requires x in s && y in s && x != y
    ensures |s| >= 2
  {
    var i :| 0 <= i < |s| && s[i] == x;
    var j :| 0 <= j < |s| && s[j] == y;
    assert i != j;
  }

  /**
   * With every item active, a pool of two or more has two or more active
   * items to pick from.
   */
  lemma AllActiveIsEnough(items: seq<Item>)
    requires IdsAreIndices(items) && |items| >= 2
    requires forall i :: 0 <= i < |items| ==> items[i].active
    ensures |GetActiveItems(items)| >= 2
  {
    TwoMembers(GetActiveItems(items), items[0], items[1]);
  }

  /** The first pair recorded into an empty history is all it holds. */
  lemma RecordedIntoEmpty(key: string)
    ensures Recorded([], key) == [key]
  {
  }

  /** What computeDatasetStats promises of `stats` over `rs`. */
  predicate Summarises(stats: DatasetStats, rs: seq<Record>) {
    && RangeOf(rs, Rank, stats.rankMin, stats.rankMax)
    && RangeOf(rs, Year, stats.yearMin, stats.yearMax)
    && RangeOf(rs, Percent, stats.percentMin, stats.percentMax)
    && StrictlySorted(stats.sexes)
    && (forall c :: c in stats.sexes <==> HasSex(rs, c))
  }

  class State {
    var items: seq<Item>
    var rawRecords: seq<Record>
    var datasetStats: Option<DatasetStats>
    var filters: Option<Filter>
    var k: int
    var totalMatches: nat
    var datasetKey: Option<string>
    var currentPair: Option<(nat, nat)>
    var pairHistory: seq<string>
    var busy: bool
    /** localStorage, as the snapshots saved under each storage key. */
    var store: map<string, Snapshot>
    /** expectedScore (app.js:366-369). */
    const expected: (real, real) -> real
    /** hashDatasetKey (app.js:300-305): an opaque fingerprint of a list of strings. */
    const fingerprint: seq<string> -> string
    /** String(n) for a number, as a filter signature prints it. */
    const show: real -> string

    /**
     * The pool is indexed by id, k is within [4, 64], the history within its
     * limit, and the pair shown is two different items of the pool.
     */
    ghost predicate Valid()
      reads this
    {
      && IdsAreIndices(items)
      && MinK <= k <= MaxK
      && |pairHistory| <= HistoryLimit
      && (currentPair.Some? ==> PairIn(currentPair.value, |items|))
      && ValidExpected(expected)
    }

    /** The initial state (app.js:17-28), over whatever storage already holds. */
    constructor(expected: (real, real) -> real, fingerprint: seq<string> -> string, show: real -> string,
                store: map<string, Snapshot>)
      requires ValidExpected(expected)
      ensures Valid()
      ensures items == [] && rawRecords == [] && datasetStats.None? && filters.None?
      ensures k == DefaultK && totalMatches == 0 && datasetKey.None? && currentPair.None?
      ensures pairHistory == [] && !busy && this.store == store
      ensures this.expected == expected && this.fingerprint == fingerprint && this.show == show
    {
      items := [];
      rawRecords := [];
      datasetStats := None;
      filters := None;
      k := DefaultK;
      totalMatches := 0;
      datasetKey := None;
      currentPair := None;
      pairHistory := [];
      busy := false;
      this.store := store;
      this.expected := expected;
      this.fingerprint := fingerprint;
      this.show := show;
    }

    /**
     * initializeDataset once the rows are fetched (app.js:624-627): the
     * rows normalised, the unnamed ones dropped, and their statistics.
     */
    method InitializeDataset(data: seq<RawRecord>, conv: JsConv)
      modifies this`rawRecords, this`datasetStats
      ensures rawRecords == NormalizeAll(data, conv)
      ensures datasetStats.Some? && Summarises(datasetStats.value, rawRecords)
    {
      rawRecords := NormalizeAll(data, conv);
      var stats := ComputeDatasetStats(rawRecords);
      datasetStats := Some(stats);
    }

    /** saveToLocalStorage (app.js:330-336), with the corrected projection that keeps the sex code. */
    method Save()
      modifies this`store
      ensures store == Persisted(old(store), datasetKey, items, totalMatches)
    {
      if datasetKey.None? {
        return;
      }
      store := store[StoragePrefix + datasetKey.value := TakeSnapshot(items, totalMatches)];
    }

    /**
     * loadFromLocalStorage (app.js:307-328), keyed as corrected: each item
     * with a saved entry under its own key takes that entry's state, in
     * place; without a snapshot nothing changes.
     */
    method Load(key: string)
      requires Valid()
      modifies this`items
      ensures Valid()
      ensures items == if StoragePrefix + key in store then RestoreByKey(old(items), store[StoragePrefix + key])
                       else old(items)
    {
      var storageKey := StoragePrefix + key;
      if storageKey !in store {
        return;
      }
      var saved := store[storageKey];
      var entries := Index(saved.items, SavedKey);
      ghost var before := items;
      ghost var restored := RestoreBy(before, entries, ItemKey);
      for i := 0 to |items|
        modifies this`items
        invariant |items| == |before|
        invariant forall j :: 0 <= j < i ==> items[j] == restored[j]
        invariant forall j :: i <= j < |items| ==> items[j] == before[j]
      {
        var it := items[i];
        if ItemKey(it) !in entries {
          continue;
        }
        items := items[i := RestoreItem(it, entries[ItemKey(it)])];
      }
      assert items == restored;
      RestoreKeepsIds(before, saved);
    }

    /**
     * updateElo (app.js:371-382): both ratings move against the expected
     * scores taken before either changes, then the counters, then the
     * match count.
     */
    method UpdateElo(w: nat, l: nat)
      requires w < |items| && l < |items|
      modifies this`items, this`totalMatches
      ensures items == Rated(old(items), w, l, k as real, expected)
      ensures totalMatches == old(totalMatches) + 1
    {
      var a, b := items[w], items[l];
      var ea := expected(a.elo, b.elo);
      var eb := expected(b.elo, a.elo);
      var kr := k as real;
      var s1 := items[w := items[w].(elo := items[w].elo + kr * (1.0 - ea))];
      var s2 := s1[l := s1[l].(elo := s1[l].elo + kr * (0.0 - eb))];
      var s3 := s2[w := s2[w].(games := s2[w].games + 1, wins := s2[w].wins + 1)];
      items := s3[l := s3[l].(games := s3[l].games + 1, losses := s3[l].losses + 1)];
      ghost var rated := Rated(old(items), w, l, kr, expected);
      forall i | 0 <= i < |items| ensures items[i] == rated[i] { }
      assert items == rated;
      totalMatches := totalMatches + 1;
    }

    /** recordPair (app.js:500-503): push the key, then drop the oldest beyond the limit. */
    method RecordPair(a: nat, b: nat)
      requires Valid()
      modifies this`pairHistory
      ensures Valid()
      ensures pairHistory == Recorded(old(pairHistory), PairToKey(a, b))
    {
      pairHistory := pairHistory + [PairToKey(a, b)];
      if |pairHistory| > HistoryLimit {
        pairHistory := pairHistory[|pairHistory| - HistoryLimit..];
      }
    }

    /** showPair (app.js:444-450) without its rendering: `pair` becomes the pair shown. */
    method ShowPair(pair: (nat, nat))
      requires Valid() && PairIn(pair, |items|)
      modifies this`currentPair
      ensures Valid() && currentPair == Some(pair)
    {
      currentPair := Some(pair);
    }

    /**
     * next (app.js:470-498) without its display: no pair when fewer than two
     * items are active, otherwise the pair the matchmaking chooses from this
     * pick's draws, recorded.
     */
    method Next(tape: Tape)
      requires Valid() && TapeFits(tape)
      modifies this`currentPair, this`pairHistory
      ensures Valid()
      ensures currentPair.None? <==> |GetActiveItems(items)| < 2
      ensures currentPair.None? ==> pairHistory == old(pairHistory)
      ensures currentPair.Some? ==>
                && items[currentPair.value.0].active && items[currentPair.value.1].active
                && pairHistory == Recorded(old(pairHistory), PairToKey(currentPair.value.0, currentPair.value.1))
                && IsPickedPair(items, old(pairHistory), tape(|GetActiveItems(items)|), currentPair.value)
    {
      var n := |GetActiveItems(items)|;
      var pair := PickNextPair(items, pairHistory, tape(n));
      if pair.None? {
        currentPair := None;
        return;
      }
      RecordPair(pair.value.0, pair.value.1);
      ShowPair(pair.value);
    }

    /**
     * nextWithAnchor (app.js:583-592): with no other active item nothing
     * changes; otherwise the anchor stays on its side, the active item
     * chooseOpponent picks from this call's draws fills the other side, and
     * the pair is recorded.
     */
    method NextWithAnchor(anchorId: nat, anchorSide: Side, tape: Tape)
      requires Valid() && TapeFits(tape) && anchorId < |items|
      modifies this`currentPair, this`pairHistory
      ensures Valid()
      ensures ActiveItems(items, Some(anchorId)) == [] ==>
                currentPair == old(currentPair) && pairHistory == old(pairHistory)
      ensures ActiveItems(items, Some(anchorId)) != [] ==>
                && currentPair.Some?
                && pairHistory == Recorded(old(pairHistory), PairToKey(currentPair.value.0, currentPair.value.1))
                && var d := tape(|ActiveItems(items, Some(anchorId))|);
                   IsRefilledPair(items, old(pairHistory), anchorId, anchorSide, d.sample, d.retries, currentPair.value)
    {
      var n := |ActiveItems(items, Some(anchorId))|;
      if n == 0 {
        return;
      }
      var pair := RefillPair(items, pairHistory, anchorId, anchorSide, tape(n).sample, tape(n).retries);
      RecordPair(pair.value.0, pair.value.1);
      ShowPair(pair.value);
    }

    /**
     * onPick (app.js:505-533) up to its timer: ignored while busy, without a
     * pair shown, or when either item shown is inactive; otherwise the
     * picked side wins one match, the session turns busy and is saved.
     */
    method OnPick(side: Side) returns (accepted: bool)
      requires Valid()
      modifies this`busy, this`items, this`totalMatches, this`store
      ensures Valid()
      ensures accepted <==> && !old(busy) && currentPair.Some?
                            && old(items)[currentPair.value.0].active && old(items)[currentPair.value.1].active
      ensures !accepted ==> unchanged(this)
      ensures accepted ==>
                var (winner, loser) := WinnerLoser(currentPair.value, side);
                && busy
                && items == Rated(old(items), winner, loser, k as real, expected)
                && totalMatches == old(totalMatches) + 1
                && store == Persisted(old(store), datasetKey, items, totalMatches)
    {
      if busy || currentPair.None? {
        return false;
      }
      var (idL, idR) := currentPair.value;
      if !items[idL].active || !items[idR].active {
        return false;
      }
      var (winner, loser) := WinnerLoser(currentPair.value, side);
      busy := true;
      UpdateElo(winner, loser);
      RatedKeepsIds(old(items), winner, loser, k as real, expected);
      Save();
      accepted := true;
    }

    /** The timer of onPick (app.js:527-532): the next pair, then no longer busy. */
    method FinishPick(tape: Tape)
      requires Valid() && TapeFits(tape)
      modifies this`currentPair, this`pairHistory, this`busy
      ensures Valid() && !busy
      ensures currentPair.None? <==> |GetActiveItems(items)| < 2
      ensures currentPair.None? ==> pairHistory == old(pairHistory)
      ensures currentPair.Some? ==>
                && items[currentPair.value.0].active && items[currentPair.value.1].active
                && pairHistory == Recorded(old(pairHistory), PairToKey(currentPair.value.0, currentPair.value.1))
                && IsPickedPair(items, old(pairHistory), tape(|GetActiveItems(items)|), currentPair.value)
    {
      Next(tape);
      busy := false;
    }

    /**
     * removeSide (app.js:594-617) up to its timer: without a pair shown, or
     * when the item on `side` is already inactive, nothing happens;
     * otherwise that item alone turns inactive and the session is saved.
     * `otherId` is the item on the other side of the pair, which the timer
     * (`AfterRemoval`) keeps or replaces.
     */
    method RemoveSide(side: Side) returns (removed: bool, otherId: nat)
      requires Valid()
      modifies this`items, this`store
      ensures Valid()
      ensures removed <==> currentPair.Some? && old(items)[OnSide(currentPair.value, side)].active
      ensures removed ==> otherId == OnSide(currentPair.value, Opposite(side)) && otherId < |items|
      ensures !removed ==> unchanged(this)
      ensures removed ==>
                var t := OnSide(currentPair.value, side);
                && items == old(items)[t := old(items)[t].(active := false)]
                && store == Persisted(old(store), datasetKey, items, totalMatches)
    {
      if currentPair.None? {
        return false, 0;
      }
      var targetId := OnSide(currentPair.value, side);
      otherId := OnSide(currentPair.value, Opposite(side));
      if !items[targetId].active {
        return false, otherId;
      }
      items := items[targetId := items[targetId].(active := false)];
      Save();
      removed := true;
    }

    /**
     * The timer of removeSide (app.js:609-616): when the item left on the
     * other side is inactive too, a new pair; otherwise it keeps its side
     * and the removed side is refilled.
     */
    method AfterRemoval(otherId: nat, removedSide: Side, tape: Tape)
      requires Valid() && TapeFits(tape) && otherId < |items|
      modifies this`currentPair, this`pairHistory
      ensures Valid()
      ensures !items[otherId].active ==>
                && (currentPair.None? <==> |GetActiveItems(items)| < 2)
                && (currentPair.None? ==> pairHistory == old(pairHistory))
                && (currentPair.Some? ==>
                      && items[currentPair.value.0].active && items[currentPair.value.1].active
                      && pairHistory == Recorded(old(pairHistory), PairToKey(currentPair.value.0, currentPair.value.1))
                      && IsPickedPair(items, old(pairHistory), tape(|GetActiveItems(items)|), currentPair.value))
      ensures items[otherId].active && ActiveItems(items, Some(otherId)) == [] ==>
                currentPair == old(currentPair) && pairHistory == old(pairHistory)
      ensures items[otherId].active && ActiveItems(items, Some(otherId)) != [] ==>
                && currentPair.Some?
                && OnSide(currentPair.value, Opposite(removedSide)) == otherId
                && items[OnSide(currentPair.value, removedSide)].active
                && pairHistory == Recorded(old(pairHistory), PairToKey(currentPair.value.0, currentPair.value.1))
                && var d := tape(|ActiveItems(items, Some(otherId))|);
                   IsRefilledPair(items, old(pairHistory), otherId, Opposite(removedSide), d.sample, d.retries,
                                  currentPair.value)
    {
      if !items[otherId].active {
        Next(tape);
      } else {
        NextWithAnchor(otherId, Opposite(removedSide), tape);
      }
    }

    /** The k-factor input (app.js:725-728). */
    method SetK(parsed: Option<int>)
      requires Valid()
      modifies this`k
      ensures Valid()
      ensures k == AcceptK(old(k), parsed)
    {
      if parsed.Some? && MinK <= parsed.value <= MaxK {
        k := parsed.value;
      }
    }

    /** resetElo up to its next pair (app.js:709-719): the pool reset, no matches, no history, saved. */
    method ClearPlay()
      requires Valid()
      modifies this`items, this`totalMatches, this`pairHistory, this`store
      ensures Valid()
      ensures items == ResetItems(old(items)) && totalMatches == 0 && pairHistory == []
      ensures store == Persisted(old(store), datasetKey, items, 0)
    {
      ResetItemsInPlace();
      totalMatches := 0;
      pairHistory := [];
      Save();
    }

    /** The loop of resetElo (app.js:710-716): each item reset where it stands. */
    method ResetItemsInPlace()
      requires Valid()
      modifies this`items
      ensures Valid()
      ensures items == ResetItems(old(items))
    {
      ghost var before := items;
      ghost var reset := ResetItems(before);
      for i := 0 to |items|
        invariant |items| == |before|
        invariant forall j :: 0 <= j < i ==> items[j] == reset[j]
        invariant forall j :: i <= j < |items| ==> items[j] == before[j]
      {
        items := items[i := items[i].(elo := InitialElo, games := 0, wins := 0, losses := 0, active := true)];
      }
      assert items == reset;
    }

    /** The end of resetElo (app.js:721): a first pair when the pool has two items. */
    method FirstPair(tape: Tape)
      requires Valid() && TapeFits(tape) && pairHistory == []
      requires forall i :: 0 <= i < |items| ==> items[i].active
      modifies this`currentPair, this`pairHistory
      ensures Valid()
      ensures currentPair.Some? <==> |items| >= 2
      ensures pairHistory == if currentPair.Some? then [PairToKey(currentPair.value.0, currentPair.value.1)] else []
      ensures currentPair.Some? ==> IsPickedPair(items, [], tape(|GetActiveItems(items)|), currentPair.value)
    {
      if |items| >= 2 {
        AllActiveIsEnough(items);
        FirstPick(tape);
      }
    }

    /**
     * resetElo (app.js:709-722): every item back to its start in place, no
     * matches and no history, saved; then a new pair if the pool has two.
     */
    method ResetElo(tape: Tape)
      requires Valid() && TapeFits(tape)
      modifies this`items, this`totalMatches, this`pairHistory, this`store, this`currentPair
      ensures Valid()
      ensures items == ResetItems(old(items)) && totalMatches == 0
      ensures store == Persisted(old(store), datasetKey, items, 0)
      ensures currentPair.Some? <==> |items| >= 2
      ensures pairHistory == if currentPair.Some? then [PairToKey(currentPair.value.0, currentPair.value.1)] else []
      ensures currentPair.Some? ==> IsPickedPair(items, [], tape(|GetActiveItems(items)|), currentPair.value)
    {
      ClearPlay();
      FirstPair(tape);
    }

    /** The part of applyFiltersAndStart that clears the previous session (app.js:685-689). */
    method Restart(f: Filter)
      requires Valid()
      modifies this`filters, this`totalMatches, this`pairHistory, this`currentPair, this`items
      ensures Valid()
      ensures filters == Some(f) && totalMatches == 0 && pairHistory == [] && currentPair.None? && items == []
    {
      filters := Some(f);
      totalMatches := 0;
      pairHistory := [];
      currentPair := None;
      items := [];
    }

    /**
     * The pool of a session on `unique` (app.js:697-702): built, keyed by
     * the fingerprint of its names and the filter signature, and restored
     * from what storage holds under that key.
     */
    method BuildAndLoad(unique: seq<Record>, f: Filter)
      requires Valid()
      modifies this`datasetKey, this`items, this`currentPair
      ensures Valid() && StartedOn(unique, f) && currentPair.None?
    {
      var built := BuildItems(unique);
      var key := fingerprint(Names(built) + [FilterSignature(f, show)]);
      datasetKey := Some(key);
      currentPair := None;
      items := built;
      Load(key);
    }

    /**
     * The start of a session on at least two records (app.js:697-705): the
     * pool built, its dataset key, its saved state restored, a first pair,
     * which the matchmaking chooses and the history alone records.
     */
    method StartOn(unique: seq<Record>, f: Filter, tape: Tape)
      requires Valid() && TapeFits(tape) && |unique| >= 2 && pairHistory == []
      modifies this`datasetKey, this`items, this`pairHistory, this`currentPair
      ensures Valid() && StartedOn(unique, f)
      ensures currentPair.None? <==> |GetActiveItems(items)| < 2
      ensures currentPair.None? ==> pairHistory == []
      ensures currentPair.Some? ==>
                && pairHistory == [PairToKey(currentPair.value.0, currentPair.value.1)]
                && IsPickedPair(items, [], tape(|GetActiveItems(items)|), currentPair.value)
    {
      BuildAndLoad(unique, f);
      FirstPick(tape);
    }

    /** The `next()` that opens a session (app.js:705): the pair picked is the only one in the history. */
    method FirstPick(tape: Tape)
      requires Valid() && TapeFits(tape) && pairHistory == []
      modifies this`currentPair, this`pairHistory
      ensures Valid()
      ensures currentPair.None? <==> |GetActiveItems(items)| < 2
      ensures currentPair.None? ==> pairHistory == []
      ensures currentPair.Some? ==>
                && pairHistory == [PairToKey(currentPair.value.0, currentPair.value.1)]
                && IsPickedPair(items, [], tape(|GetActiveItems(items)|), currentPair.value)
    {
      Next(tape);
      if currentPair.Some? {
        RecordedIntoEmpty(PairToKey(currentPair.value.0, currentPair.value.1));
      }
    }

    /** The dataset key and the pool of a session started on `unique` under filter `f`. */
    ghost predicate StartedOn(unique: seq<Record>, f: Filter)
      reads this`datasetKey, this`items, this`store
    {
      var built := BuildItems(unique);
      var key := fingerprint(Names(built) + [FilterSignature(f, show)]);
      && datasetKey == Some(key)
      && items == (if StoragePrefix + key in store then RestoreByKey(built, store[StoragePrefix + key]) else built)
    }

    /** The records a filter selects (app.js:683-684): the filtered records, deduplicated. */
    method SelectRecords(f: Filter) returns (unique: seq<Record>)
      ensures Deduplicates(Key, FilterRecords(rawRecords, f), unique)
    {
      unique := DedupeByName(FilterRecords(rawRecords, f));
    }

    /**
     * applyFiltersAndStart from its reset on (app.js:685-706): the session
     * cleared, then started on `unique` when it holds at least two records.
     */
    method Begin(unique: seq<Record>, f: Filter, tape: Tape) returns (started: bool)
      requires Valid() && TapeFits(tape)
      modifies this`filters, this`totalMatches, this`pairHistory, this`currentPair, this`items, this`datasetKey
      ensures Valid()
      ensures started <==> |unique| >= 2
      ensures filters == Some(f) && totalMatches == 0
      ensures !started ==> items == [] && pairHistory == [] && currentPair.None? && datasetKey.None?
      ensures started ==> StartedOn(unique, f) && (currentPair.None? <==> |GetActiveItems(items)| < 2)
      ensures started && currentPair.None? ==> pairHistory == []
      ensures started && currentPair.Some? ==>
                && pairHistory == [PairToKey(currentPair.value.0, currentPair.value.1)]
                && IsPickedPair(items, [], tape(|GetActiveItems(items)|), currentPair.value)
    {
      Restart(f);
      if |unique| < 2 {
        datasetKey := None;
        return false;
      }
      StartOn(unique, f, tape);
      started := true;
    }

    /**
     * applyFiltersAndStart (app.js:680-707) once the filter values are read:
     * without a dataset nothing happens; otherwise the session restarts on
     * the filtered, deduplicated records `unique`, and starts only when
     * there are at least two, with their saved state restored and a first
     * pair.
     */
    method ApplyFiltersAndStart(f: Filter, tape: Tape) returns (started: bool, ghost unique: seq<Record>)
      requires Valid() && TapeFits(tape)
      modifies this`filters, this`totalMatches, this`pairHistory, this`currentPair, this`items, this`datasetKey
      ensures Valid()
      ensures rawRecords == [] ==> !started && unchanged(this)
      ensures rawRecords != [] ==> && Deduplicates(Key, FilterRecords(rawRecords, f), unique)
                                   && (started <==> |unique| >= 2)
                                   && filters == Some(f) && totalMatches == 0
      ensures rawRecords != [] && !started ==>
                items == [] && pairHistory == [] && currentPair.None? && datasetKey.None?
      ensures started ==> StartedOn(unique, f) && (currentPair.None? <==> |GetActiveItems(items)| < 2)
      ensures started && currentPair.None? ==> pairHistory == []
      ensures started && currentPair.Some? ==>
                && pairHistory == [PairToKey(currentPair.value.0, currentPair.value.1)]
                && IsPickedPair(items, [], tape(|GetActiveItems(items)|), currentPair.value)
    {
      if |rawRecords| == 0 {
        return false, [];
      }
      var selected := SelectRecords(f);
      unique := selected;
      started := Begin(selected, f, tape);
    }
  }
}
