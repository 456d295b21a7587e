/**
 * The saved state of a pool (app.js:307-336) as map operations: the
 * snapshot that saving projects out of the pool, and the merge that
 * restoring makes of a snapshot into a freshly built pool. The storage
 * itself, JSON and its error handling are not modelled.
 */
module Persistence {
  import opened Wrappers
  import opened Records
  import opened Rating
  import Dedupe

  /** The storage key prefix (app.js:309, 334); the dataset key follows it. */
  const StoragePrefix := "babyname_elo_"

  /**
   * One saved item as read back. Missing or null numbers read as `None`;
   * `active` keeps its JavaScript value, since restoring tells undefined
   * apart from the other falsy values.
   */
  datatype SavedItem = SavedItem(
    name: string,
    sex: Option<char>,
    median: Option<real>,
    elo: Option<real>,
    games: Option<nat>,
    wins: Option<nat>,
    losses: Option<nat>,
    active: JsValue)

  datatype Snapshot = Snapshot(items: seq<SavedItem>, totalMatches: nat)

  /** The projection of app.js:333 exactly as written: the sex code is not saved. */
  function ProjectAsWritten(it: Item): (s: SavedItem)
    ensures s.name == it.name && s.sex.None? && s.elo == Some(it.elo) && s.active == Bool(it.active)
  {
    SavedItem(it.name, None, it.median, Some(it.elo), Some(it.games), Some(it.wins), Some(it.losses), Bool(it.active))
  }

  /** The projection with the sex code saved too, which the corrected restore keys on. */
  function Project(it: Item): (s: SavedItem)
    ensures s.name == it.name && s.sex == it.sex && s.elo == Some(it.elo) && s.active == Bool(it.active)
  {
    SavedItem(it.name, it.sex, it.median, Some(it.elo), Some(it.games), Some(it.wins), Some(it.losses), Bool(it.active))
  }

  /** saveToLocalStorage as written (app.js:330-336): every item projected, and the match count. */
  function SnapshotAsWritten(items: seq<Item>, totalMatches: nat): (snap: Snapshot)
    ensures |snap.items| == |items| && snap.totalMatches == totalMatches
    ensures forall i :: 0 <= i < |items| ==> snap.items[i] == ProjectAsWritten(items[i])
  {
    Snapshot(seq(|items|, i requires 0 <= i < |items| => ProjectAsWritten(items[i])), totalMatches)
  }

  /** The corrected snapshot, which keeps each item's sex code. */
  function TakeSnapshot(items: seq<Item>, totalMatches: nat): (snap: Snapshot)
    ensures |snap.items| == |items| && snap.totalMatches == totalMatches
    ensures forall i :: 0 <= i < |items| ==> snap.items[i] == Project(items[i])
  {
    Snapshot(seq(|items|, i requires 0 <= i < |items| => Project(items[i])), totalMatches)
  }

  function NameOf(s: SavedItem): string {
    s.name
  }

  function SavedKey(s: SavedItem): string {
    DedupKey(s.name, s.sex)
  }

  function ItemName(it: Item): string {
    it.name
  }

  function ItemKey(it: Item): string {
    DedupKey(it.name, it.sex)
  }

  /**
   * `new Map(saved.items.map(x => [key(x), x]))` (app.js:312): a map from
   * exactly the keys present in the snapshot.
   */
  function Index(saved: seq<SavedItem>, key: SavedItem -> string): (m: map<string, SavedItem>)
    ensures m.Keys == set i | 0 <= i < |saved| :: key(saved[i])
  {
    if saved == [] then map[]
    else
      var init := saved[..|saved| - 1];
      var last := saved[|saved| - 1];
      assert saved == init + [last];
      Index(init, key)[key(last) := last]
  }

  /** Later entries override earlier ones: a key maps to the last saved item carrying it. */
  lemma {:induction false} IndexIsLast(saved: seq<SavedItem>, key: SavedItem -> string, i: nat)
    requires i < |saved|
    requires forall j :: i < j < |saved| ==> key(saved[j]) != key(saved[i])
    ensures key(saved[i]) in Index(saved, key) && Index(saved, key)[key(saved[i])] == saved[i]
  {
    if i < |saved| - 1 {
      var init := saved[..|saved| - 1];
      assert init[i] == saved[i];
      forall j | i < j < |init| ensures key(init[j]) != key(init[i]) {
        assert init[j] == saved[j];
      }
      IndexIsLast(init, key, i);
    }
  }

  /**
   * The merge of app.js:317-321 for one item: a saved rating replaces the
   * item's unless missing, missing counters read as 0, and the item stays
   * active unless the saved flag is present and falsy.
   */
  function RestoreItem(it: Item, s: SavedItem): (r: Item)
    ensures SameIdentity(r, it)
    ensures r.elo == (if s.elo.Some? then s.elo.value else it.elo)
    ensures r.active <==> s.active == Undefined || Truthy(s.active)
    ensures r.games == s.games.GetOr(0) && r.wins == s.wins.GetOr(0) && r.losses == s.losses.GetOr(0)
  {
    it.(elo := s.elo.GetOr(it.elo),
        games := s.games.GetOr(0), wins := s.wins.GetOr(0), losses := s.losses.GetOr(0),
        active := s.active == Undefined || Truthy(s.active))
  }

  /** Each item restored from the entry under its own key, if there is one. */
  function RestoreBy(items: seq<Item>, entries: map<string, SavedItem>, itemKey: Item -> string): (r: seq<Item>)
    ensures |r| == |items|
    ensures forall i :: 0 <= i < |items| ==> SameIdentity(r[i], items[i])
  {
    seq(|items|, i requires 0 <= i < |items| =>
      if itemKey(items[i]) in entries then RestoreItem(items[i], entries[itemKey(items[i])]) else items[i])
  }

  /** loadFromLocalStorage as written (app.js:307-328): entries looked up by name alone. */
  function RestoreByName(items: seq<Item>, snap: Snapshot): (r: seq<Item>)
    ensures |r| == |items|
    ensures forall i :: 0 <= i < |items| ==>
              r[i] == if exists j :: 0 <= j < |snap.items| && NameOf(snap.items[j]) == ItemName(items[i])
                      then RestoreItem(items[i], Index(snap.items, NameOf)[ItemName(items[i])]) else items[i]
  {
    RestoreBy(items, Index(snap.items, NameOf), ItemName)
  }

  /** The corrected restore: entries looked up by the same key deduplication uses. */
  function RestoreByKey(items: seq<Item>, snap: Snapshot): (r: seq<Item>)
    ensures |r| == |items|
    ensures forall i :: 0 <= i < |items| ==>
              r[i] == if exists j :: 0 <= j < |snap.items| && SavedKey(snap.items[j]) == ItemKey(items[i])
                      then RestoreItem(items[i], Index(snap.items, SavedKey)[ItemKey(items[i])]) else items[i]
  {
    RestoreBy(items, Index(snap.items, SavedKey), ItemKey)
  }

  /** Restoring keeps every item's identity, so a pool indexed by id stays so. */
  lemma RestoreKeepsIds(items: seq<Item>, snap: Snapshot)
    requires IdsAreIndices(items)
    ensures IdsAreIndices(RestoreByKey(items, snap))
  {
  }

  /** Restoring a snapshot of an item into the same name gives the item back. */
  lemma RestoreProjected(base: Item, it: Item)
    requires SameIdentity(base, it)
    ensures RestoreItem(base, Project(it)) == it
    ensures RestoreItem(base, ProjectAsWritten(it)) == it
  {
  }

  predicate DistinctKeys(items: seq<Item>) {
    forall i, j :: 0 <= i < j < |items| ==> ItemKey(items[i]) != ItemKey(items[j])
  }

  predicate DistinctNames(items: seq<Item>) {
    forall i, j :: 0 <= i < j < |items| ==> items[i].name != items[j].name
  }

  /** `base` is `items` as freshly rebuilt: the same names in the same places, ratings aside. */
  predicate Rebuilt(base: seq<Item>, items: seq<Item>) {
    |base| == |items| && forall i :: 0 <= i < |items| ==> SameIdentity(base[i], items[i])
  }

  /**
   * Saving a pool whose keys are distinct and restoring the snapshot into
   * the rebuilt pool gives the pool back: every rating, counter and flag.
   */
  lemma {:induction false} RestoreRoundTrip(base: seq<Item>, items: seq<Item>, totalMatches: nat)
    requires Rebuilt(base, items) && DistinctKeys(items)
    ensures RestoreByKey(base, TakeSnapshot(items, totalMatches)) == items
  {
    var snap := TakeSnapshot(items, totalMatches);
    var r := RestoreByKey(base, snap);
    forall i | 0 <= i < |items| ensures r[i] == items[i] {
      assert SavedKey(snap.items[i]) == ItemKey(items[i]) == ItemKey(base[i]);
      forall j | 0 <= j < |snap.items| && j != i ensures SavedKey(snap.items[j]) != SavedKey(snap.items[i]) {
        assert SavedKey(snap.items[j]) == ItemKey(items[j]);
      }
      IndexIsLast(snap.items, SavedKey, i);
      RestoreProjected(base[i], items[i]);
    }
  }

  /** As written, the round trip holds as long as no two items share a name. */
  lemma {:induction false} RestoreByNameRoundTrip(base: seq<Item>, items: seq<Item>, totalMatches: nat)
    requires Rebuilt(base, items) && DistinctNames(items)
    ensures RestoreByName(base, SnapshotAsWritten(items, totalMatches)) == items
  {
    var snap := SnapshotAsWritten(items, totalMatches);
    var r := RestoreByName(base, snap);
    forall i | 0 <= i < |items| ensures r[i] == items[i] {
      assert NameOf(snap.items[i]) == ItemName(base[i]);
      forall j | 0 <= j < |snap.items| && j != i ensures NameOf(snap.items[j]) != NameOf(snap.items[i]) {
        assert NameOf(snap.items[j]) == items[j].name;
      }
      IndexIsLast(snap.items, NameOf, i);
      RestoreProjected(base[i], items[i]);
    }
  }

  /** A name given to both sexes: the two items deduplication keeps apart for it. */
  const JordanF := Item(0, "Jordan", None, None, None, Some('F'), None, InitialElo, 0, 0, 0, true)
  const JordanM := Item(1, "Jordan", None, None, None, Some('M'), None, InitialElo, 0, 0, 0, true)

  /** The same two items after one match, which the first won. */
  const PlayedJordans := [JordanF.(elo := 1512.0, games := 1, wins := 1), JordanM.(elo := 1488.0, games := 1, losses := 1)]

  /**
   * As written, every item takes the state saved last under its name, so
   * an item that shares its name with a later one gets that one's state.
   */
  lemma RestoreByNameSharesState(base: seq<Item>, items: seq<Item>, totalMatches: nat, i: nat, j: nat)
    requires Rebuilt(base, items) && i < |items| && j < |items|
    requires items[j].name == items[i].name
    requires forall q :: j < q < |items| ==> items[q].name != items[j].name
    ensures RestoreByName(base, SnapshotAsWritten(items, totalMatches))[i] == RestoreItem(base[i], ProjectAsWritten(items[j]))
  {
    var snap := SnapshotAsWritten(items, totalMatches);
    forall q | j < q < |snap.items| ensures NameOf(snap.items[q]) != NameOf(snap.items[j]) {
      assert snap.items[q] == ProjectAsWritten(items[q]);
    }
    IndexIsLast(snap.items, NameOf, j);
    assert ItemName(base[i]) == NameOf(snap.items[j]);
  }

  /**
   * The two Jordans: restoring by name hands the winner the loser's rating
   * and record, although their keys differ.
   */
  lemma RestoreByNameMixesSexes()
    ensures Rebuilt([JordanF, JordanM], PlayedJordans) && DistinctKeys(PlayedJordans)
    ensures var r := RestoreByName([JordanF, JordanM], SnapshotAsWritten(PlayedJordans, 1));
            r[0].elo == 1488.0 && r[0].losses == 1 && r[0].wins == 0 && r != PlayedJordans
  {
    assert Rebuilt([JordanF, JordanM], PlayedJordans) && DistinctKeys(PlayedJordans) by {
      DedupKeySeparatesSexes("Jordan", 'F', 'M');
    }
    var r := RestoreByName([JordanF, JordanM], SnapshotAsWritten(PlayedJordans, 1));
    var loser := ProjectAsWritten(PlayedJordans[1]);
    assert r[0] == RestoreItem(JordanF, loser) by {
      RestoreByNameSharesState([JordanF, JordanM], PlayedJordans, 1, 0, 1);
    }
    assert loser.elo == Some(1488.0) && loser.losses == Some(1) && loser.wins == Some(0);
    assert r[0] != PlayedJordans[0];
  }

  /** The corrected restore gives the same two items back as they were saved. */
  lemma RestoreByKeySeparatesSexes()
    ensures RestoreByKey([JordanF, JordanM], TakeSnapshot(PlayedJordans, 1)) == PlayedJordans
  {
    DedupKeySeparatesSexes("Jordan", 'F', 'M');
    RestoreRoundTrip([JordanF, JordanM], PlayedJordans, 1);
  }

  /**
   * The pool built from deduplicated records has distinct keys, so it
   * survives a save and a reload with the corrected restore.
   */
  lemma DedupedPoolHasDistinctKeys(unique: seq<Record>)
    requires forall i, i' :: 0 <= i < i' < |unique| ==> Dedupe.Key(unique[i]) != Dedupe.Key(unique[i'])
    ensures DistinctKeys(BuildItems(unique))
  {
    var items := BuildItems(unique);
    forall i, j | 0 <= i < j < |items| ensures ItemKey(items[i]) != ItemKey(items[j]) {
      assert ItemKey(items[i]) == Dedupe.Key(unique[i]);
      assert ItemKey(items[j]) == Dedupe.Key(unique[j]);
    }
  }
}
