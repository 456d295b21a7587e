# Baby Name Elo Rater — a verified model of its engine

The Baby Name Elo Rater (app.js) is a browser page that shows two baby names at
a time. The user picks the one they prefer, and every pick moves the two names'
Elo ratings. This project models the engine behind the page:

- **Normalisation.** Loosely keyed dataset rows become canonical records.
- **Statistics.** The dataset's statistics: rank, year and percent ranges and the sex codes present.
- **Filtering.** A range-and-sex filter over the records.
- **Deduplication.** One record per name and sex: the best ranked, earliest on a tie.
- **The pool.** Building the pool of rated items and resetting it.
- **Rating.** The Elo update.
- **Pair history.** The bounded history of shown pairs and its recent window.
- **Matchmaking.** An anchor with few games, a sampled opponent close in rating, repeat avoidance.
- **Per-dataset state.** Saving and restoring it.
- **The session state machine.** Picking, removing a name, the k-factor, the reset, and applying filters.

It also models the per-cell coercion of `scripts/convert_names.py`, which turns the
names CSV into the JSON the page loads.

Modules, one per file:

| file | module | models |
|---|---|---|
| wrappers.dfy | Wrappers | `Option`, `Min` |
| text.dfy | Text | JavaScript `trim`, Python `strip`, ASCII case mapping, decimal numerals |
| records.dfy | Records | `pickField`, `toNumber`, `normalizeRecord`, the empty-name drop, the dedupe key |
| stats.dfy | Stats | `computeDatasetStats` (a loop over the records) |
| filters.dfy | Filters | `filterRecords`, `describeFilters` |
| dedupe.dfy | Dedupe | `dedupeByName` (a loop filling a map) |
| rating.dfy | Rating | `buildItems`, `updateElo`'s arithmetic, the reset of `resetElo`, the k-factor guard |
| history.dfy | History | `pairToKey`, `recordPair`, the recent window |
| matchmaking.dfy | Matchmaking | `getActiveItems`, `chooseAnchor`, `chooseOpponent`, `pickNextPair`, the refill of `nextWithAnchor` |
| persistence.dfy | Persistence | `saveToLocalStorage`'s projection, `loadFromLocalStorage`'s merge |
| session.dfy | Session | the `state` object as a class `State` with one method per handler |
| convert_names.dfy | ConvertNames | `coerce_value`, `convert_rows` |

How the outside world enters the model:

- **Randomness.** `Math.random` is replaced by the draws it produces. A `Draws` value holds:
  - the anchor candidates;
  - the distinct opponent sample;
  - the 20 repeat-avoidance redraws;
  - the left/right coin.

  A `Tape` hands the session one `Draws` per pick.
- **Runtime conversions.** `expectedScore`, JavaScript's `Number(string)` and `String(number)`, and the SHA-256 dataset fingerprint are parameters.
- **Storage.** `localStorage` is a map from storage key to snapshot.
- **Timers.** Each handler that ends in a timer is split in two:
  - `OnPick`, then `FinishPick`;
  - `RemoveSide`, then `AfterRemoval`.

  The `busy` flag is set by the first method and cleared by the second.
- **Numbers.** Ratings are reals.

## Model

| member | source | states |
|---|---|---|
| Text.Trim | app.js:147 | the result is the input with its leading and trailing whitespace run removed; it starts and ends with non-whitespace |
| Text.TrimIdempotent | app.js:147 | trimming twice is trimming once |
| Text.TrimEmptyIffAllSpace | scripts/convert_names.py:35-36 | the stripped text is empty exactly when every character is whitespace |
| Text.ShowNatRoundTrip | app.js:442 | a decimal numeral reads back as the number it prints, so ids print injectively |
| Records.PickField | app.js:128-137 | the result is never undefined or the empty string |
| Records.PickFieldIsFirstUsable | app.js:128-137 | the result is the value of the first alias (as given, lower-cased, upper-cased, in turn) that is not undefined, null or "", and null exactly when there is none |
| Records.ToNumber | app.js:139-143 | missing, null and "" give null; a number stays itself; a non-empty string gives a number exactly when `Number` of it is finite |
| Records.NormalizeSexAsWritten | app.js:151-152 | the code is null exactly when the value is falsy, and otherwise at most one character |
| Records.BlankSexGivesEmptyCode | app.js:151-152 | a sex of " " gives the code "" rather than null |
| Records.NormalizeSex | app.js:151-152 | a code is one character, neither whitespace nor a lower-case letter |
| Records.NormalizeSexCorrects | app.js:151-152 | the corrected code differs from the written one only where that one is "" |
| Records.NormalizeName | app.js:146-147 | a falsy name is ""; any other name starts and ends with non-whitespace |
| Records.NormalizeRecord | app.js:145-154 | the name is trimmed and the sex is a canonical code or null |
| Records.NormalizeRecordIsNormal | app.js:145-154 | every normalised record is in normal form |
| Records.NormalizeIdempotent | app.js:145-154 | normalising a normalised record fed back as a row gives it back unchanged |
| Records.KeepNamed | app.js:625 | exactly the input records with a non-empty name are kept, and no more than the input |
| Records.KeepNamedIsSubseq | app.js:625 | the named records are kept in their input order |
| Records.KeepNamedCounts | app.js:625 | a named record is kept as often as it occurs, an unnamed one never |
| Records.NormalizeEach | app.js:625 | one normalised record per row, in row order |
| Records.NormalizeAll | app.js:625 | a record is kept exactly when it normalises some row and has a name |
| Records.NormalizeAllKeepsOrder | app.js:625 | the kept records are the named normalised rows in row order, each as often as rows normalise to it |
| Records.RankOrInf | app.js:671-672 | the rank, or +Infinity exactly when the rank is null |
| Records.DedupKey | app.js:665 | the name alone without a sex, else the name followed by "__" and the code |
| Records.DedupKeySeparatesSexes | app.js:665 | two codes give the same key for a name exactly when they are equal |
| Stats.ComputeDatasetStats | app.js:156-189 | each bound is null exactly when no record has the field, else the least or greatest value present; the sex list is strictly sorted and holds exactly the codes present |
| Stats.StepKeepsAcc | app.js:166-178 | one step of the fold keeps the running minimum and maximum correct for the prefix read |
| Stats.AccGivesRange | app.js:181-186 | mapping an infinite accumulator to null gives the published bounds |
| Stats.RangeOrdered | app.js:181-186 | the two bounds of a field are both null or both set, and min <= max |
| Stats.SortChars | app.js:187 | the sorted sex list is strictly increasing and holds the same codes |
| Stats.SexStep | app.js:179 | adding each new code once keeps the seen list duplicate-free and equal to the codes present |
| Filters.FilterRecords | app.js:338-347 | every kept record passes the filter, and no more are kept than given |
| Filters.FilterRecordsIsSubseq | app.js:339 | the result is a subsequence of the input, in its order |
| Filters.FilterRecordsCounts | app.js:338-347 | a passing record occurs as often as in the input, a failing one never |
| Filters.NoFilterKeepsAll | app.js:338-347 | with sex "any" and no bounds every record is kept |
| Filters.FilterIdempotent | app.js:338-347 | filtering twice is filtering once |
| Filters.RangePart | app.js:652-655 | a range part is omitted exactly when both bounds are null, else it is one part that starts with its label |
| Filters.SexPart | app.js:646-647 | a sex part is present exactly for "F" and "M" |
| Filters.DescribeFilters | app.js:643-658 | no filter gives "filtered"; "All names" exactly when the filter has no sex choice and no bounds |
| Dedupe.BetterOrder | app.js:671-675 | "ranks strictly better" is a strict order that is consistent with its complement |
| Dedupe.Finish | app.js:677 | the map's values listed in insertion order deduplicate the input |
| Dedupe.DedupeByName | app.js:661-678 | the output is no longer than the input and has one named input record per key. That record ranks no worse than any same-key record (null rank as +Infinity) and strictly better than every earlier one. Keys come in first-occurrence order |
| Rating.BuildItems | app.js:349-364 | one item per record, id equal to position, fields copied, median the percent, elo 1500, counters 0, active |
| Rating.Rated | app.js:371-382 | only the winner and the loser change |
| Rating.RatedCounters | app.js:379-380 | the winner gains one game and one win, the loser one game and one loss; names and activity stay |
| Rating.RatedMovesRatings | app.js:375-378 | with 0 < E < 1 and k > 0, the winner gains and the loser loses less than k |
| Rating.RatedKeepsTallied | app.js:379-380 | games stay the sum of wins and losses |
| Rating.RatedKeepsIds | app.js:371-382 | ids stay equal to positions |
| Rating.FirstMatchFromStart | app.js:366-378 | two fresh items at k 24 end at 1512 and 1488 |
| Rating.ResetItems | app.js:710-716 | every item keeps its identity and is active again at 1500 with no games |
| Rating.ResetRebuilds | app.js:709-716 | resetting a pool gives exactly the freshly built pool |
| Rating.AcceptK | app.js:725-728 | a parsed value in [4, 64] is taken; anything else keeps k |
| Rating.AcceptKInRange | app.js:725-728 | k stays within [4, 64] |
| History.PairToKey | app.js:442 | the smaller id, a hyphen, the larger id |
| History.PairToKeySymmetric | app.js:442 | the key ignores the order of the pair |
| History.PairToKeyInjective | app.js:442 | two keys are equal exactly when the pairs are equal as unordered pairs |
| History.Recorded | app.js:500-503 | the result is the last min(n+1, 100) entries of the history with the key appended, ending with the key |
| History.RecordedBelowLimit | app.js:500-503 | below the limit nothing is dropped |
| History.RecordedAtLimit | app.js:500-503 | at the limit exactly the oldest entry is dropped |
| History.Recent | app.js:418 | the last min(n, 20) entries |
| History.RecordedIsRecent | app.js:418 | a pair just recorded is in the recent window |
| History.RecentKeepsLatest | app.js:418 | an entry with fewer than 20 after it stays in the window after one more is recorded |
| Matchmaking.GetActiveItems | app.js:386 | exactly the active items of the pool |
| Matchmaking.ActiveItems | app.js:584 | exactly the active items, less the anchor when one is excluded |
| Matchmaking.ActiveItemsIncreasing | app.js:386 | filtering keeps ids increasing |
| Matchmaking.ActiveItemsOfPool | app.js:386 | the active items of a pool have increasing ids and are drawn from it |
| Matchmaking.ChooseAnchor | app.js:388-396 | the anchor is a drawn candidate with no more games than any drawn candidate, and strictly fewer than every earlier draw |
| Matchmaking.SampleHasOpponent | app.js:410-415 | a distinct sample of min(32, N) holds a non-anchor whenever the pool has one, so the fallback loop never runs |
| Matchmaking.ClosestInSample | app.js:403-409 | the result is the sampled non-anchor closest in rating, the first sampled on a tie |
| Matchmaking.FirstFresh | app.js:420-425 | a found redraw is active, not the anchor and not a recent pair; none found means every redraw failed |
| Matchmaking.AvoidRepeat | app.js:416-427 | a non-recent closest stays; otherwise a non-recent redraw replaces it, or it stays only when all 20 redraws failed |
| Matchmaking.AvoidRecent | app.js:416-427 | the loop's result is the repeat-avoiding choice |
| Matchmaking.ChooseOpponent | app.js:398-428 | the opponent is an active item other than the anchor, the repeat-avoiding choice around the closest sampled one |
| Matchmaking.PickNextPair | app.js:430-440 | null exactly when fewer than 2 items are active; else two distinct active ids: the anchor is chooseAnchor's choice among the drawn candidates, the other is chooseOpponent's closest, repeat-avoiding choice, and the coin puts the anchor left or right |
| Matchmaking.RefillPair | app.js:583-589 | null exactly when no other active item exists; else the kept id on its side, and on the other chooseOpponent's choice among the active items other than it |
| Persistence.ProjectAsWritten | app.js:333 | the saved fields of an item, without its sex |
| Persistence.Project | app.js:333 | the saved fields of an item, with its sex |
| Persistence.SnapshotAsWritten | app.js:333 | one projection per item in order, and the match count |
| Persistence.TakeSnapshot | app.js:333 | one projection (with sex) per item in order, and the match count |
| Persistence.Index | app.js:312 | the index has exactly the keys of the saved entries |
| Persistence.IndexIsLast | app.js:312 | a key maps to the last entry saved under it |
| Persistence.RestoreItem | app.js:317-321 | identity kept; elo replaced when saved; games, wins and losses become the saved counts or 0; active unless saved falsy |
| Persistence.RestoreBy | app.js:314-323 | every item keeps its identity and position |
| Persistence.RestoreByName | app.js:312-323 | as written: an item whose name some saved entry has is merged with the last entry under that name; any other item is unchanged |
| Persistence.RestoreByKey | app.js:312-323 | corrected: an item is merged with the last entry under its name-and-sex key; any other item is unchanged |
| Persistence.RestoreKeepsIds | app.js:314-323 | ids stay equal to positions |
| Persistence.RestoreProjected | app.js:317-321 | restoring an item from its own projection gives it back |
| Persistence.RestoreRoundTrip | app.js:307-336 | restoring a fresh pool from a snapshot keyed by name and sex gives back the saved pool |
| Persistence.RestoreByNameRoundTrip | app.js:307-336 | with distinct names the name-keyed restore gives back the saved pool |
| Persistence.RestoreByNameSharesState | app.js:312-315 | as written, an item takes the state of the last saved item with its name |
| Persistence.RestoreByNameMixesSexes | app.js:312-315 | two same-named items of different sex: the winner comes back with the loser's 1488 and loss |
| Persistence.RestoreByKeySeparatesSexes | app.js:312-315 | the corrected restore gives both items back |
| Persistence.DedupedPoolHasDistinctKeys | app.js:665 | a pool built from deduplicated records has distinct keys |
| Session.WinnerLoser | app.js:513-514 | the winner is the item shown on the picked side, the loser the one on the other side |
| Session.Persisted | app.js:330-336 | without a dataset key the store is unchanged; with one, the snapshot is stored under the prefixed key and every other key is untouched |
| Session.FilterSignatureFields | app.js:698 | the signature is sex, rank bounds and year bounds, in that order, joined by "\|", a missing bound printed as "null" |
| Session.AllActiveIsEnough | app.js:721 | a fully active pool of two or more has two active items |
| Session.State.constructor | app.js:17-28 | the initial state: empty pool, k 24, no pair, empty history, not busy |
| Session.State.InitializeDataset | app.js:625-627 | the records are the named normalised rows, and the stats summarise them |
| Session.State.Save | app.js:330-336 | the snapshot is stored under the prefixed dataset key, nothing without one |
| Session.State.Load | app.js:307-328 | the pool is restored from the stored snapshot if there is one, else unchanged |
| Session.State.UpdateElo | app.js:371-382 | the pool becomes the rated pool and the match count grows by one |
| Session.State.RecordPair | app.js:500-503 | the history becomes the recorded history |
| Session.State.ShowPair | app.js:444-450 | the pair shown becomes the given pair, the rest of the state unchanged |
| Session.State.Next | app.js:470-498 | no pair exactly when fewer than 2 are active; else the pair pickNextPair chooses from this pick's draws and the history before it, recorded in the history |
| Session.State.NextWithAnchor | app.js:583-592 | nothing changes without another active item; else the anchor keeps its side, chooseOpponent's choice fills the other, and the pair is recorded |
| Session.State.OnPick | app.js:505-526 | accepted exactly when not busy, a pair is shown and both are active; then exactly one rating update with the chosen side as winner, busy set and the state saved; otherwise nothing changes |
| Session.State.FinishPick | app.js:527-532 | the pair pickNextPair chooses is shown and recorded, and busy cleared |
| Session.State.RemoveSide | app.js:594-606 | removed exactly when a pair is shown and the target is active; then only the target's active flag is cleared and the state saved, and the other id returned is the item on the opposite side of that pair; otherwise nothing changes |
| Session.State.AfterRemoval | app.js:608-616 | with the other item inactive: no pair exactly when fewer than 2 are active, else two active items, recorded. With it active and no third active item: nothing changes. Otherwise it keeps its side, chooseOpponent's choice fills the removed side, and the pair is recorded. Each new pair is the matchmaking's choice from the draws |
| Session.State.SetK | app.js:725-728 | k becomes the accepted value |
| Session.State.ResetItemsInPlace | app.js:710-716 | the pool becomes the reset pool |
| Session.State.ClearPlay | app.js:709-719 | pool reset, matches and history cleared, state saved |
| Session.State.FirstPair | app.js:721 | a pair is shown exactly when the pool has two items; it is pickNextPair's choice from this pick's draws and an empty history, and it is the only history entry |
| Session.State.ResetElo | app.js:709-722 | pool reset, count zero, saved, and a first pair exactly when the pool has two items: pickNextPair's choice on an empty history, and the only history entry |
| Session.State.Restart | app.js:685-689 | filters set; matches, history, pair and pool cleared |
| Session.State.SelectRecords | app.js:683-684 | the selected records deduplicate the filtered records |
| Session.State.BuildAndLoad | app.js:697-702 | the dataset key is the fingerprint of names and filter signature, the pool is built and restored from that key, and no pair is shown |
| Session.State.FirstPick | app.js:705 | on an empty history: no pair exactly when fewer than 2 are active; else pickNextPair's pair is shown and is the only history entry |
| Session.State.StartOn | app.js:697-705 | the dataset key is the fingerprint of names and filter signature, the pool is built and restored, and pickNextPair's pair is shown and is the only history entry when two are active |
| Session.State.Begin | app.js:685-706 | started exactly when at least two records remain; else pool, history, pair and key are cleared. When started, the pool is keyed, built and restored, and a pair is shown exactly when two are active: pickNextPair's choice on an empty history, and the only history entry |
| Session.State.ApplyFiltersAndStart | app.js:680-707 | nothing without records; else the pool is started on the deduplicated filtered records exactly when two or more remain, with pickNextPair's first pair as the only history entry when two are active |
| ConvertNames.ParseInt | scripts/convert_names.py:41 | a text parses exactly when, after an optional sign, it is digits grouped by single underscores; the sign gives the sign of the value |
| ConvertNames.ParseIntRoundTrip | scripts/convert_names.py:41 | every integer printed in decimal parses back to itself |
| ConvertNames.ParseIntRejectsOthers | scripts/convert_names.py:41-43 | a text with any other character does not parse |
| ConvertNames.ParseIntGroupsDigits | scripts/convert_names.py:41 | "1_000" parses to 1000 |
| ConvertNames.ParseIntRefusesStrayUnderscores | scripts/convert_names.py:41-43 | "1__000" and "_1" do not parse |
| ConvertNames.CoerceValue | scripts/convert_names.py:34-49 | a string result is the non-empty stripped text. An int comes only from a rank or year column whose text parses, and such a text always gives it. A float comes only from a percent column whose text converts, and such a text always gives it |
| ConvertNames.CoerceBlankIsNone | scripts/convert_names.py:35-37 | None exactly when the value is empty or whitespace only |
| ConvertNames.CoerceIntRoundTrip | scripts/convert_names.py:38-43 | a padded decimal integer in a rank or year column comes back as that int |
| ConvertNames.CoerceDependsOnStripped | scripts/convert_names.py:35 | coercing the stripped text gives the same value |
| ConvertNames.ConvertRow | scripts/convert_names.py:54 | one cell per column, the same columns in the same order, each cell its value coerced under its column with a missing value read as "" |
| ConvertNames.ConvertRows | scripts/convert_names.py:52-54 | one output row per input row, in order, with the same columns in the same order, each cell coerced under its column with a missing value read as "" |
| ConvertNames.MissingCellIsNone | scripts/convert_names.py:54 | a missing or blank cell becomes None |

## Left out

- DOM rendering, panels, the loading bar, `applyStatsToInputs`, `renderResultsContent` and the event wiring are left out. They are UI only.
- `readFilterValues` is left out. A `Filter` value is taken as already read. Its `sex` may be any string, including "". app.js:217 yields the sex select's value or "any", never "", and the page's markup, which decides the other values (such as "F" and "M"), is not part of this model.
- `fetchJsonWithProgress` and `fetchJsonViaXHR` are left out. The model starts from the parsed rows.
- `initializeDataset` is modelled only for its normalisation and statistics. Its messages and error handling are left out.
- `hashDatasetKey` is SHA-256 through `crypto.subtle`, a foreign call. It is the opaque parameter `fingerprint`.
- JSON (de)serialisation of the store, its try/catch and the console logging are left out. The store is a map of snapshots.
- The `applied` counter of `loadFromLocalStorage` is left out.
- Restoring the saved `totalMatches` is not modelled because the source never does it. `loadFromLocalStorage` reads only the items, and the count starts from 0 after a reload.
- `setTimeout` timing is left out. Each timer callback is a separate method the caller invokes afterwards.
- The model assumes the pool does not change between a removal and its refill.
- `Math.random` is replaced by the `Draws`/`Tape` values it produces. The opponent sampling loop (app.js:402) terminates only with probability 1; it is modelled as the distinct sample it ends with.
- Rating.RatedMovesRatings: `expectedScore`'s `Math.pow` and all floating-point rounding are replaced by an abstract `expected` into (0, 1) with E(a,b)+E(b,a)=1 over reals. No zero-sum claim is made, because the source computes `Eb` separately.
- Matchmaking.ChooseAnchor: the `best ?? active[randomInt(N)]` fallback of app.js:395 is not modelled. With N >= 1 at least one candidate is drawn, so it never applies.
- Matchmaking.RefillPair: the `opponent || active[randomInt(...)]` fallback of app.js:588 is not modelled. `chooseOpponent` always returns an item there.
- Records.ToNumber: `Number(string)` is the injected `numberOf`. A JSON array or object field value is not modelled.
- Text.Trim, NormalizeSex: case mapping is ASCII only. Unicode case mapping, such as upper-casing a non-ASCII first letter, is not modelled.
- NormalizeSexAsWritten, NormalizeSex: `charAt(0)` takes one UTF-16 code unit, but the model takes one whole character. For a sex value that starts outside the Basic Multilingual Plane, the source yields a lone surrogate, which also sorts differently.
- ConvertNames.ParseInt: only ASCII digits are accepted. Python's `int` also accepts other Unicode decimal digits.
- ConvertNames.CoerceValue: `round(float(text), 1)` is the injected `percentOf`. Floating-point parsing and rounding are not modelled, and column names are lower-cased in ASCII only.
- ConvertNames.ConvertRows: a row with more cells than the header (DictReader's `None` key with a list value) is not modelled. `convert`, `main` and `parse_args` do file I/O and are left out.
- ConvertNames.ConvertRow, ConvertNames.ConvertRows: a `Row` may repeat a column name, which a DictReader dict cannot. Such a row is converted cell by cell, each occurrence kept.
- Records.NormalizeSex: the model uses the corrected sex code downstream (see Findings).
- Session.State.Save, Session.Persisted: stores the corrected snapshot, which includes each item's sex (`TakeSnapshot`), where app.js:333 saves no sex (see Findings). The as-written projection is `SnapshotAsWritten`. `OnPick`, `RemoveSide`, `ClearPlay` and `ResetElo` save through `Persisted`, so the same holds for them.
- Session.State.Load: restores by name and sex (`RestoreByKey`), where app.js:312-315 looks entries up by name alone (see Findings). The session therefore never shows the same-name mix-up, which `RestoreByNameMixesSexes` exhibits on the as-written `RestoreByName`.
- Session.State.StartOn: the pool it starts on is restored by name and sex, as in `Load`, not by name alone. The same holds for `Begin` and `ApplyFiltersAndStart`, which start the session through it.

## Findings

| source | as written | input that shows it | evidently intended | confidence | as-written member | corrected member |
|---|---|---|---|---|---|---|
| app.js:151-152 | a truthy sex that trims to nothing becomes the code "" instead of null | a row whose Sex is " " | no sex code (null), as for a missing sex | medium, not executed | Records.NormalizeSexAsWritten, Records.BlankSexGivesEmptyCode | Records.NormalizeSex, Records.NormalizeSexCorrects |
| app.js:312-321 | saved state is matched back by name only, and app.js:333 does not save the sex, so the last same-named entry wins | Jordan (F) beats Jordan (M), both kept apart by deduplication; after a reload the winner has the loser's 1488 rating and its loss | each item restored from its own entry, keyed like deduplication by name and sex | high, not executed | Persistence.RestoreByNameSharesState, Persistence.RestoreByNameMixesSexes | Persistence.RestoreByKey, Persistence.RestoreRoundTrip, Persistence.RestoreByKeySeparatesSexes |
