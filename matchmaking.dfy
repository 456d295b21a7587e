/**
 * Matchmaking (app.js:384-440, 583-592): choosing the next pair to show.
 * An anchor with few games is drawn first, then the opponent closest in
 * rating among a random sample, then a few redraws avoid a pair shown
 * recently.
 *
 * `Math.random` is not modelled; each call takes the draws it consumes as
 * parameters (`Draws`), every draw being an index below the pool size, as
 * `randomInt(N)` yields.
 */
module Matchmaking {
  import opened Wrappers
  import opened History
  import opened Rating

  const SampleAnchor: nat := 16
  const SampleOpponent: nat := 32
  const RetryLimit: nat := 20

  datatype Side = Left | Right

  function Opposite(side: Side): Side {
    if side == Left then Right else Left
  }

  /** Ids strictly increase along `s`; in particular they are distinct. */
  predicate IdsIncreasing(s: seq<Item>) {
    forall i, j :: 0 <= i < j < |s| ==> s[i].id < s[j].id
  }

  /** Every member of `s` is the pool item its id names (`state.items[x.id] === x`). */
  predicate DrawnFrom(s: seq<Item>, items: seq<Item>) {
    forall x :: x in s ==> x.id < |items| && items[x.id] == x
  }

  /** Whether `x` takes part: active, and not the excluded id if there is one. */
  predicate Eligible(x: Item, skip: Option<nat>) {
    x.active && (skip.None? || x.id != skip.value)
  }

  /**
   * The pool filters of app.js:386 (`skip` = None) and app.js:584 (`skip` =
   * the anchor's id): the eligible items in pool order.
   */
  function ActiveItems(items: seq<Item>, skip: Option<nat>): (r: seq<Item>)
    ensures |r| <= |items|
    ensures forall x :: x in r <==> x in items && Eligible(x, skip)
  {
    if items == [] then []
    else if Eligible(items[0], skip) then [items[0]] + ActiveItems(items[1..], skip)
    else ActiveItems(items[1..], skip)
  }

  /** Filtering keeps pool order, so increasing ids stay increasing. */
  lemma {:induction false} ActiveItemsIncreasing(items: seq<Item>, skip: Option<nat>)
    requires IdsIncreasing(items)
    ensures IdsIncreasing(ActiveItems(items, skip))
  {
    if items != [] {
      var rest := ActiveItems(items[1..], skip);
      ActiveItemsIncreasing(items[1..], skip);
      if Eligible(items[0], skip) {
        var r := [items[0]] + rest;
        forall i, j | 0 <= i < j < |r| ensures r[i].id < r[j].id {
          if i == 0 {
            assert r[j] in rest;
            var k :| 0 <= k < |items[1..]| && items[1..][k] == r[j];
            assert items[k + 1] == r[j];
          } else {
            assert r[i] == rest[i - 1] && r[j] == rest[j - 1];
          }
        }
      }
    }
  }

  /** getActiveItems (app.js:386). */
  function GetActiveItems(items: seq<Item>): (r: seq<Item>)
    ensures forall x :: x in r <==> x in items && x.active
  {
    ActiveItems(items, None)
  }

  /** A pool indexed by id yields eligible items that are distinct and are the pool's own. */
  lemma ActiveItemsOfPool(items: seq<Item>, skip: Option<nat>)
    requires IdsAreIndices(items)
    ensures IdsIncreasing(ActiveItems(items, skip))
    ensures DrawnFrom(ActiveItems(items, skip), items)
  {
    assert IdsIncreasing(items);
    ActiveItemsIncreasing(items, skip);
    forall x | x in ActiveItems(items, skip) ensures x.id < |items| && items[x.id] == x {
      var i :| 0 <= i < |items| && items[i] == x;
    }
  }

  predicate Below(draws: seq<nat>, n: nat) {
    forall i :: 0 <= i < |draws| ==> draws[i] < n
  }

  predicate DistinctDraws(draws: seq<nat>) {
    forall i, j :: 0 <= i < j < |draws| ==> draws[i] != draws[j]
  }

  /**
   * The outcome of the random draws one `pickNextPair` makes over `n`
   * active items: `anchor` for the min(16, n) anchor candidates; `sample`
   * for the distinct opponent candidates, in the order the set of
   * app.js:401-402 first received them (that loop ends once min(32, n)
   * distinct ones are drawn); `retries` for the 20 redraws of app.js:421;
   * `leftFirst` for the coin of app.js:436.
   */
  datatype Draws = Draws(anchor: seq<nat>, sample: seq<nat>, retries: seq<nat>, leftFirst: bool)

  predicate SampleFits(sample: seq<nat>, n: nat) {
    |sample| == Min(SampleOpponent, n) && Below(sample, n) && DistinctDraws(sample)
  }

  predicate RetriesFit(retries: seq<nat>, n: nat) {
    |retries| == RetryLimit && Below(retries, n)
  }

  predicate DrawsFit(d: Draws, n: nat) {
    |d.anchor| == Min(SampleAnchor, n) && Below(d.anchor, n)
    && SampleFits(d.sample, n) && RetriesFit(d.retries, n)
  }

  /**
   * `anchor` is what chooseAnchor (app.js:388-396) settles on: a drawn
   * candidate with the fewest games, the first drawn winning a tie.
   */
  predicate IsAnchorChoice(active: seq<Item>, draws: seq<nat>, anchor: Item)
    requires Below(draws, |active|)
  {
    && (exists p :: 0 <= p < |draws| && anchor == active[draws[p]]
                    && forall i :: 0 <= i < p ==> anchor.games < active[draws[i]].games)
    && forall i :: 0 <= i < |draws| ==> anchor.games <= active[draws[i]].games
  }

  /** chooseAnchor (app.js:388-396). */
  method ChooseAnchor(active: seq<Item>, draws: seq<nat>) returns (anchor: Item)
    requires |active| >= 1 && |draws| == Min(SampleAnchor, |active|) && Below(draws, |active|)
    ensures IsAnchorChoice(active, draws, anchor)
  {
    var best: Option<Item> := None;
    ghost var at := 0;
    for i := 0 to Min(SampleAnchor, |active|)
      invariant best.None? <==> i == 0
      invariant best.Some? ==> 0 <= at < i && best.value == active[draws[at]]
                               && (forall j :: 0 <= j < at ==> best.value.games < active[draws[j]].games)
                               && (forall j :: 0 <= j < i ==> best.value.games <= active[draws[j]].games)
    {
      var cand := active[draws[i]];
      if best.None? || cand.games < best.value.games {
        best := Some(cand);
        at := i;
      }
    }
    // `best ?? active[randomInt(N)]`: with at least one draw, `best` is set
    anchor := best.value;
  }

  /** `Math.abs(it.elo - anchor.elo)`. */
  function Dist(anchor: Item, it: Item): real {
    if it.elo >= anchor.elo then it.elo - anchor.elo else anchor.elo - it.elo
  }

  /**
   * `c` is what the scan of app.js:404-409 settles on: the sampled item other
   * than the anchor closest in rating, the first in sample order on a tie.
   */
  predicate IsClosest(anchor: Item, active: seq<Item>, sample: seq<nat>, c: Item)
    requires Below(sample, |active|)
  {
    exists j :: 0 <= j < |sample| && c == active[sample[j]] && c.id != anchor.id
                && (forall i :: 0 <= i < j && active[sample[i]].id != anchor.id ==>
                      Dist(anchor, c) < Dist(anchor, active[sample[i]]))
                && (forall i :: 0 <= i < |sample| && active[sample[i]].id != anchor.id ==>
                      Dist(anchor, c) <= Dist(anchor, active[sample[i]]))
  }

  /**
   * The first redraw of app.js:420-425 that is not the anchor and whose pair
   * with the anchor is not recent; `None` when all redraws fail.
   */
  function FirstFresh(anchor: Item, active: seq<Item>, recent: seq<string>, retries: seq<nat>): (r: Option<Item>)
    requires Below(retries, |active|)
    ensures r.Some? ==> r.value in active && r.value.id != anchor.id
                        && PairToKey(anchor.id, r.value.id) !in recent
    ensures r.None? ==> forall t :: 0 <= t < |retries| ==>
                          active[retries[t]].id == anchor.id || PairToKey(anchor.id, active[retries[t]].id) in recent
  {
    if retries == [] then None
    else
      var alt := active[retries[0]];
      if alt.id != anchor.id && PairToKey(anchor.id, alt.id) !in recent then Some(alt)
      else
        var r := FirstFresh(anchor, active, recent, retries[1..]);
        assert forall t :: 1 <= t < |retries| ==> retries[t] == retries[1..][t - 1];
        r
  }

  /**
   * Repeat avoidance (app.js:417-427): the closest candidate stays unless its
   * pair with the anchor is recent, in which case the first fresh redraw
   * replaces it; when every redraw fails it stays after all.
   */
  function AvoidRepeat(anchor: Item, closest: Item, active: seq<Item>, recent: seq<string>, retries: seq<nat>): (r: Item)
    requires Below(retries, |active|)
    ensures PairToKey(anchor.id, closest.id) !in recent ==> r == closest
    ensures r == closest || (r in active && r.id != anchor.id && PairToKey(anchor.id, r.id) !in recent)
    ensures r == closest && PairToKey(anchor.id, closest.id) in recent ==>
              forall t :: 0 <= t < |retries| ==>
                active[retries[t]].id == anchor.id || PairToKey(anchor.id, active[retries[t]].id) in recent
  {
    if PairToKey(anchor.id, closest.id) !in recent then closest
    else match FirstFresh(anchor, active, recent, retries)
      case Some(alt) => alt
      case None => closest
  }

  /**
   * A sample of min(32, n) distinct positions always contains an item other
   * than the anchor when the pool has one, so the fallback loop of
   * app.js:410-415 never runs.
   */
  lemma SampleHasOpponent(anchor: Item, active: seq<Item>, sample: seq<nat>)
    requires IdsIncreasing(active) && SampleFits(sample, |active|)
    requires exists p :: 0 <= p < |active| && active[p].id != anchor.id
    ensures exists j :: 0 <= j < |sample| && active[sample[j]].id != anchor.id
  {
    var p :| 0 <= p < |active| && active[p].id != anchor.id;
    if |sample| >= 2 {
      assert sample[0] != sample[1];
      assert active[sample[0]].id != active[sample[1]].id;
      if active[sample[0]].id == anchor.id {
        assert active[sample[1]].id != anchor.id;
      }
    } else {
      assert |active| == 1 && p == 0 && sample[0] == 0;
    }
  }

  /**
   * The scan of app.js:403-409 over the distinct sample: the closest item
   * other than the anchor, which the sample always holds.
   */
  method ClosestInSample(anchor: Item, active: seq<Item>, items: seq<Item>, sample: seq<nat>) returns (closest: Item)
    requires IdsIncreasing(active) && DrawnFrom(active, items)
    requires exists p :: 0 <= p < |active| && active[p].id != anchor.id
    requires SampleFits(sample, |active|)
    ensures IsClosest(anchor, active, sample, closest)
  {
    SampleHasOpponent(anchor, active, sample);
    var best: Option<Item> := None;
    var bestDiff: real := 0.0;
    ghost var at := 0;
    for j := 0 to |sample|
      invariant best.None? ==> forall i :: 0 <= i < j ==> active[sample[i]].id == anchor.id
      invariant best.Some? ==>
        && 0 <= at < j && best.value == active[sample[at]] && best.value.id != anchor.id
        && bestDiff == Dist(anchor, best.value)
        && (forall i :: 0 <= i < at && active[sample[i]].id != anchor.id ==>
              bestDiff < Dist(anchor, active[sample[i]]))
        && (forall i :: 0 <= i < j && active[sample[i]].id != anchor.id ==>
              bestDiff <= Dist(anchor, active[sample[i]]))
    {
      var idx := active[sample[j]].id;
      if idx == anchor.id {
        continue;
      }
      var it := items[idx];
      assert it == active[sample[j]] by {
        assert active[sample[j]] in active;
      }
      var diff := Dist(anchor, it);
      if best.None? || diff < bestDiff {
        best := Some(it);
        bestDiff := diff;
        at := j;
      }
    }
    if best.None? {
      // the fallback loop of app.js:410-415
      assert false;
    }
    closest := best.value;
  }

  /**
   * The redraw loop of app.js:417-427: the closest candidate unless its
   * pair with the anchor is recent, else the first fresh redraw, if any.
   */
  method AvoidRecent(anchor: Item, closest: Item, active: seq<Item>, items: seq<Item>, recent: seq<string>,
                     retries: seq<nat>) returns (opponent: Item)
    requires IdsIncreasing(active) && DrawnFrom(active, items) && RetriesFit(retries, |active|)
    ensures opponent == AvoidRepeat(anchor, closest, active, recent, retries)
  {
    opponent := closest;
    if PairToKey(anchor.id, closest.id) !in recent {
      return;
    }
    var t := 0;
    while t < RetryLimit
      invariant 0 <= t <= RetryLimit && opponent == closest
      invariant FirstFresh(anchor, active, recent, retries) == FirstFresh(anchor, active, recent, retries[t..])
    {
      assert retries[t..][1..] == retries[t + 1..];
      var alt := items[active[retries[t]].id];
      assert alt == active[retries[t]] by {
        assert active[retries[t]] in active;
      }
      if alt.id != anchor.id {
        var key := PairToKey(anchor.id, alt.id);
        if key !in recent {
          opponent := alt;
          return;
        }
      }
      t := t + 1;
    }
  }

  /**
   * `opponent` is what chooseOpponent (app.js:398-428) settles on: the
   * closest sampled item, kept or replaced by the repeat avoidance.
   */
  ghost predicate IsOpponentChoice(anchor: Item, active: seq<Item>, history: seq<string>,
                             sample: seq<nat>, retries: seq<nat>, opponent: Item)
    requires Below(sample, |active|) && Below(retries, |active|)
  {
    exists c :: IsClosest(anchor, active, sample, c)
                && opponent == AvoidRepeat(anchor, c, active, Recent(history), retries)
  }

  /** chooseOpponent (app.js:398-428). */
  method ChooseOpponent(anchor: Item, active: seq<Item>, items: seq<Item>, history: seq<string>,
                        sample: seq<nat>, retries: seq<nat>) returns (opponent: Item)
    requires IdsIncreasing(active) && DrawnFrom(active, items)
    requires exists p :: 0 <= p < |active| && active[p].id != anchor.id
    requires SampleFits(sample, |active|) && RetriesFit(retries, |active|)
    ensures opponent in active && opponent.id != anchor.id
    ensures IsOpponentChoice(anchor, active, history, sample, retries, opponent)
  {
    var closest := ClosestInSample(anchor, active, items, sample);
    opponent := AvoidRecent(anchor, closest, active, items, Recent(history), retries);
  }

  /**
   * `pair` is what pickNextPair (app.js:430-440) shows for the draws `d`:
   * chooseAnchor's anchor against chooseOpponent's opponent, the anchor on
   * the left exactly when the coin says so.
   */
  ghost predicate IsPickedPair(items: seq<Item>, history: seq<string>, d: Draws, pair: (nat, nat)) {
    var active := GetActiveItems(items);
    var anchorId := if d.leftFirst then pair.0 else pair.1;
    var otherId := if d.leftFirst then pair.1 else pair.0;
    && anchorId < |items| && otherId < |items|
    && Below(d.anchor, |active|) && Below(d.sample, |active|) && Below(d.retries, |active|)
    && IsAnchorChoice(active, d.anchor, items[anchorId])
    && IsOpponentChoice(items[anchorId], active, history, d.sample, d.retries, items[otherId])
  }

  /**
   * pickNextPair (app.js:430-440): no pair when fewer than two items are
   * active; otherwise two different active items, the anchor and opponent
   * the matchmaking chooses, on the sides the coin chooses.
   */
  method PickNextPair(items: seq<Item>, history: seq<string>, d: Draws) returns (pair: Option<(nat, nat)>)
    requires IdsAreIndices(items)
    requires |GetActiveItems(items)| >= 2 ==> DrawsFit(d, |GetActiveItems(items)|)
    ensures pair.None? <==> |GetActiveItems(items)| < 2
    ensures pair.Some? ==>
              && pair.value.0 < |items| && pair.value.1 < |items| && pair.value.0 != pair.value.1
              && items[pair.value.0].active && items[pair.value.1].active
    ensures pair.Some? ==> IsPickedPair(items, history, d, pair.value)
  {
    var active := GetActiveItems(items);
    var n := |active|;
    if n < 2 {
      return None;
    }
    ActiveItemsOfPool(items, None);
    var anchor := ChooseAnchor(active, d.anchor);
    assert anchor in active;
    assert active[0].id != anchor.id || active[1].id != anchor.id;
    var opponent := ChooseOpponent(anchor, active, items, history, d.sample, d.retries);
    var leftFirst := d.leftFirst;
    var a := if leftFirst then anchor else opponent;
    var b := if leftFirst then opponent else anchor;
    pair := Some((a.id, b.id));
  }

  /**
   * `pair` is what nextWithAnchor (app.js:583-592) shows: the anchor on its
   * side, and on the other an active item other than the anchor,
   * chooseOpponent's choice among the active items other than the anchor.
   */
  ghost predicate IsRefilledPair(items: seq<Item>, history: seq<string>, anchorId: nat, anchorSide: Side,
                                 sample: seq<nat>, retries: seq<nat>, pair: (nat, nat)) {
    var active := ActiveItems(items, Some(anchorId));
    var otherId := if anchorSide == Left then pair.1 else pair.0;
    && (if anchorSide == Left then pair.0 else pair.1) == anchorId
    && anchorId < |items| && otherId < |items| && otherId != anchorId && items[otherId].active
    && Below(sample, |active|) && Below(retries, |active|)
    && IsOpponentChoice(items[anchorId], active, history, sample, retries, items[otherId])
  }

  /**
   * The choice inside nextWithAnchor (app.js:583-592): no pair when no
   * other item is active; otherwise the anchor keeps its side and an active
   * item other than the anchor, chosen as chooseOpponent does, fills the
   * other side.
   */
  method RefillPair(items: seq<Item>, history: seq<string>, anchorId: nat, anchorSide: Side,
                    sample: seq<nat>, retries: seq<nat>) returns (pair: Option<(nat, nat)>)
    requires IdsAreIndices(items) && anchorId < |items|
    requires var n := |ActiveItems(items, Some(anchorId))|;
             n >= 1 ==> SampleFits(sample, n) && RetriesFit(retries, n)
    ensures pair.None? <==> ActiveItems(items, Some(anchorId)) == []
    ensures pair.Some? ==> IsRefilledPair(items, history, anchorId, anchorSide, sample, retries, pair.value)
  {
    var active := ActiveItems(items, Some(anchorId));
    if |active| == 0 {
      return None;
    }
    ActiveItemsOfPool(items, Some(anchorId));
    assert active[0] in active;
    var opponent := ChooseOpponent(items[anchorId], active, items, history, sample, retries);
    // `opponent || active[randomInt(active.length)]`: the opponent is always set
    pair := if anchorSide == Left then Some((anchorId, opponent.id)) else Some((opponent.id, anchorId));
  }
}
