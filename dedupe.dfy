/**
 * Deduplication (app.js:661-678): one record per identity key, keeping the
 * record with the lowest rank, in the order keys are first seen.
 */
module Dedupe {
  import opened Wrappers
  import opened Records

  function Key(rec: Record): string {
    DedupKey(rec.name, rec.sex)
  }

  /** `rec` takes part in deduplication (it has a name) and has key `k` under `key`. */
  predicate HasKey(key: Record -> string, rec: Record, k: string) {
    rec.name != "" && key(rec) == k
  }

  /** `p` is the position of the first named record with key `k`. */
  predicate IsFirstOcc(key: Record -> string, rs: seq<Record>, k: string, p: int) {
    0 <= p < |rs| && HasKey(key, rs[p], k) && forall j :: 0 <= j < p ==> !HasKey(key, rs[j], k)
  }

  lemma FirstOccUnique(key: Record -> string, rs: seq<Record>, k: string, p: int, q: int)
    requires IsFirstOcc(key, rs, k, p) && IsFirstOcc(key, rs, k, q)
    ensures p == q
  {
  }

  /** The order of ranks with null read as +Infinity: `a` ranks strictly better than `b`. */
  predicate Better(a: Record, b: Record) {
    ExtLt(RankOrInf(a), RankOrInf(b))
  }

  lemma BetterOrder(a: Record, b: Record, c: Record)
    ensures Better(a, b) && !Better(c, b) ==> Better(a, c)
    ensures Better(a, b) && Better(b, c) ==> Better(a, c)
    ensures !Better(a, b) && !Better(b, c) ==> !Better(a, c)
    ensures !Better(a, a)
  {
  }

  /**
   * The bookkeeping half of the invariant of the loop of app.js:663-676 after
   * the first `i` records: `order` lists the keys of `m` once each, and
   * `m[k]` is the record at position `pos[k]`...
   */
  ghost predicate Kept(key: Record -> string, records: seq<Record>, i: nat, m: map<string, Record>,
                       order: seq<string>, pos: map<string, nat>)
  {
    && i <= |records|
    && |order| <= i
    && (forall a, b :: 0 <= a < b < |order| ==> order[a] != order[b])
    && (forall k :: k in m <==> k in order)
    && pos.Keys == m.Keys
    && (forall k :: k in m ==> pos[k] < i && records[pos[k]] == m[k] && HasKey(key, m[k], k))
    && (forall j :: 0 <= j < i && records[j].name != "" ==> key(records[j]) in m)
  }

  /** ...and the keys of `order` are listed in the order of their first occurrences `first`. */
  ghost predicate Firsts(key: Record -> string, records: seq<Record>, i: nat, order: seq<string>, first: seq<nat>) {
    && |first| == |order|
    && (forall a :: 0 <= a < |order| ==> first[a] < i && IsFirstOcc(key, records, order[a], first[a]))
    && (forall a, b :: 0 <= a < b < |order| ==> first[a] < first[b])
  }

  ghost predicate Shape(key: Record -> string, records: seq<Record>, i: nat, m: map<string, Record>,
                        order: seq<string>, pos: map<string, nat>, first: seq<nat>)
  {
    Kept(key, records, i, m, order, pos) && Firsts(key, records, i, order, first)
  }

  /**
   * The ranking half: the record kept for a key ranks no worse than any
   * same-key record seen so far, and strictly better than the earlier ones.
   */
  ghost predicate Best(key: Record -> string, records: seq<Record>, i: nat, m: map<string, Record>,
                       pos: map<string, nat>)
  {
    && i <= |records|
    && pos.Keys == m.Keys
    && (forall k :: k in m ==> pos[k] < i)
    && (forall j :: 0 <= j < i && records[j].name != "" ==> key(records[j]) in m)
    && (forall j :: 0 <= j < i && records[j].name != "" ==> !Better(records[j], m[key(records[j])]))
    && (forall j :: 0 <= j < i && records[j].name != "" && j < pos[key(records[j])] ==>
          Better(m[key(records[j])], records[j]))
  }

  lemma SkipShape(key: Record -> string, records: seq<Record>, i: nat, m: map<string, Record>,
                  order: seq<string>, pos: map<string, nat>, first: seq<nat>)
    requires i < |records| && Shape(key, records, i, m, order, pos, first)
    requires records[i].name == ""
    ensures Shape(key, records, i + 1, m, order, pos, first)
  {
  }

  lemma SkipBest(key: Record -> string, records: seq<Record>, i: nat, m: map<string, Record>,
                 pos: map<string, nat>)
    requires i < |records| && Best(key, records, i, m, pos)
    requires records[i].name == ""
    ensures Best(key, records, i + 1, m, pos)
  {
  }

  lemma NewKeyKept(key: Record -> string, records: seq<Record>, i: nat, m: map<string, Record>,
                   order: seq<string>, pos: map<string, nat>)
    requires i < |records| && Kept(key, records, i, m, order, pos)
    requires records[i].name != "" && key(records[i]) !in m
    ensures var k := key(records[i]);
            Kept(key, records, i + 1, m[k := records[i]], order + [k], pos[k := i])
  {
    var k := key(records[i]);
    var order' := order + [k];
    assert forall x :: x in order' <==> x in order || x == k;
  }

  lemma NewKeyFirsts(key: Record -> string, records: seq<Record>, i: nat, m: map<string, Record>,
                     order: seq<string>, pos: map<string, nat>, first: seq<nat>)
    requires i < |records| && Kept(key, records, i, m, order, pos) && Firsts(key, records, i, order, first)
    requires records[i].name != "" && key(records[i]) !in m
    ensures Firsts(key, records, i + 1, order + [key(records[i])], first + [i])
  {
    var k := key(records[i]);
    var order' := order + [k];
    var first' := first + [i];
    assert forall j :: 0 <= j < i ==> !HasKey(key, records[j], k);
    assert IsFirstOcc(key, records, k, i);
    forall a | 0 <= a < |order'|
      ensures first'[a] < i + 1 && IsFirstOcc(key, records, order'[a], first'[a])
    {
      if a < |order| {
        assert order'[a] == order[a] && first'[a] == first[a];
      }
    }
  }

  lemma NewKeyShape(key: Record -> string, records: seq<Record>, i: nat, m: map<string, Record>,
                    order: seq<string>, pos: map<string, nat>, first: seq<nat>)
    requires i < |records| && Shape(key, records, i, m, order, pos, first)
    requires records[i].name != "" && key(records[i]) !in m
    ensures var k := key(records[i]);
            Shape(key, records, i + 1, m[k := records[i]], order + [k], pos[k := i], first + [i])
  {
    NewKeyKept(key, records, i, m, order, pos);
    NewKeyFirsts(key, records, i, m, order, pos, first);
  }

  lemma NewKeyBest(key: Record -> string, records: seq<Record>, i: nat, m: map<string, Record>,
                   pos: map<string, nat>)
    requires i < |records| && Best(key, records, i, m, pos)
    requires records[i].name != "" && key(records[i]) !in m
    ensures var k := key(records[i]);
            Best(key, records, i + 1, m[k := records[i]], pos[k := i])
  {
    BetterOrder(records[i], records[i], records[i]);
  }

  lemma SeenKeyShape(key: Record -> string, records: seq<Record>, i: nat, m: map<string, Record>,
                     order: seq<string>, pos: map<string, nat>, first: seq<nat>)
    requires i < |records| && Shape(key, records, i, m, order, pos, first)
    requires records[i].name != "" && key(records[i]) in m
    ensures Shape(key, records, i + 1, m, order, pos, first)
    ensures var k := key(records[i]);
            Shape(key, records, i + 1, m[k := records[i]], order, pos[k := i], first)
  {
  }

  lemma SeenKeyBest(key: Record -> string, records: seq<Record>, i: nat, m: map<string, Record>,
                    pos: map<string, nat>)
    requires i < |records| && Best(key, records, i, m, pos)
    requires records[i].name != "" && key(records[i]) in m
    ensures var k := key(records[i]);
            if Better(records[i], m[k]) then Best(key, records, i + 1, m[k := records[i]], pos[k := i])
            else Best(key, records, i + 1, m, pos)
  {
    var rec := records[i];
    var k := key(rec);
    var existing := m[k];
    if Better(rec, existing) {
      var m' := m[k := rec];
      var pos' := pos[k := i];
      forall j | 0 <= j < i + 1 && records[j].name != ""
        ensures !Better(records[j], m'[key(records[j])])
        ensures j < pos'[key(records[j])] ==> Better(m'[key(records[j])], records[j])
      {
        if key(records[j]) == k && j < i {
          BetterOrder(rec, existing, records[j]);
          BetterOrder(records[j], rec, existing);
        }
        BetterOrder(rec, rec, rec);
      }
    } else {
      forall j | 0 <= j < i + 1 && records[j].name != ""
        ensures !Better(records[j], m[key(records[j])])
      {
      }
    }
  }

  /** No record with the same key as `x` ranks strictly better than `x`. */
  ghost predicate NoneBetter(key: Record -> string, records: seq<Record>, x: Record) {
    forall j :: 0 <= j < |records| && HasKey(key, records[j], key(x)) ==> !Better(records[j], x)
  }

  /** `x` occurs at some position before which every record with its key ranks strictly worse. */
  ghost predicate EarliestBest(key: Record -> string, records: seq<Record>, x: Record) {
    exists p :: 0 <= p < |records| && records[p] == x
                && forall j :: 0 <= j < p && HasKey(key, records[j], key(x)) ==> Better(x, records[j])
  }

  /**
   * What dedupeByName (app.js:661-678) promises of its result `out`: one
   * record per key of the named input records and nothing else; the record
   * kept for a key ranks no worse than any input record with that key (a
   * missing rank counting as +Infinity) and strictly better than every
   * earlier one, so a tie keeps the first; keys appear in the order of their
   * first occurrence.
   */
  ghost predicate Deduplicates(key: Record -> string, records: seq<Record>, out: seq<Record>) {
    && (forall i :: 0 <= i < |out| ==> out[i] in records && out[i].name != "")
    && (forall i, i' :: 0 <= i < i' < |out| ==> key(out[i]) != key(out[i']))
    && (forall j :: 0 <= j < |records| && records[j].name != "" ==>
          exists i :: 0 <= i < |out| && key(out[i]) == key(records[j]))
    && (forall i :: 0 <= i < |out| ==> NoneBetter(key, records, out[i]) && EarliestBest(key, records, out[i]))
    && (forall i, i', p, p' ::
          (0 <= i < i' < |out| && IsFirstOcc(key, records, key(out[i]), p) && IsFirstOcc(key, records, key(out[i']), p'))
          ==> p < p')
  }

  /** The kept records, listed in the order of `order`. */
  function Listing(m: map<string, Record>, order: seq<string>): (out: seq<Record>)
    requires forall a :: 0 <= a < |order| ==> order[a] in m
    ensures |out| == |order| && forall a :: 0 <= a < |order| ==> out[a] == m[order[a]]
  {
    seq(|order|, a requires 0 <= a < |order| => m[order[a]])
  }

  lemma FinishMembers(key: Record -> string, records: seq<Record>, m: map<string, Record>,
                      order: seq<string>, pos: map<string, nat>, first: seq<nat>)
    requires Kept(key, records, |records|, m, order, pos)
    ensures forall a :: 0 <= a < |order| ==> order[a] in m
    ensures var out := Listing(m, order);
            && (forall i :: 0 <= i < |out| ==> out[i] in records && out[i].name != "" && key(out[i]) == order[i])
            && (forall i, i' :: 0 <= i < i' < |out| ==> key(out[i]) != key(out[i']))
            && (forall j :: 0 <= j < |records| && records[j].name != "" ==>
                  exists i :: 0 <= i < |out| && key(out[i]) == key(records[j]))
  {
    var out := Listing(m, order);
    forall a | 0 <= a < |out| ensures out[a] in records && out[a].name != "" && key(out[a]) == order[a] {
      assert records[pos[order[a]]] == out[a];
    }
    forall j | 0 <= j < |records| && records[j].name != ""
      ensures exists a :: 0 <= a < |out| && key(out[a]) == key(records[j])
    {
      var a :| 0 <= a < |order| && order[a] == key(records[j]);
      assert key(out[a]) == order[a];
    }
  }

  lemma FinishBest(key: Record -> string, records: seq<Record>, m: map<string, Record>,
                   order: seq<string>, pos: map<string, nat>, first: seq<nat>)
    requires Shape(key, records, |records|, m, order, pos, first)
    requires Best(key, records, |records|, m, pos)
    requires forall a :: 0 <= a < |order| ==> order[a] in m
    ensures var out := Listing(m, order);
            forall i :: 0 <= i < |out| ==> NoneBetter(key, records, out[i]) && EarliestBest(key, records, out[i])
  {
    var out := Listing(m, order);
    forall a | 0 <= a < |out|
      ensures NoneBetter(key, records, out[a]) && EarliestBest(key, records, out[a])
    {
      var k := order[a];
      var p := pos[k];
      assert records[p] == out[a] && key(out[a]) == k;
      forall j | 0 <= j < p && HasKey(key, records[j], k) ensures Better(out[a], records[j]) {
        assert key(records[j]) == k && j < pos[key(records[j])];
      }
    }
  }

  lemma FinishOrder(key: Record -> string, records: seq<Record>, m: map<string, Record>,
                    order: seq<string>, pos: map<string, nat>, first: seq<nat>)
    requires Shape(key, records, |records|, m, order, pos, first)
    requires forall a :: 0 <= a < |order| ==> order[a] in m
    ensures var out := Listing(m, order);
            forall i, i', p, p' ::
              (0 <= i < i' < |out| && IsFirstOcc(key, records, key(out[i]), p) && IsFirstOcc(key, records, key(out[i']), p'))
              ==> p < p'
  {
    var out := Listing(m, order);
    forall a, b, p, q | 0 <= a < b < |out| && IsFirstOcc(key, records, key(out[a]), p)
                        && IsFirstOcc(key, records, key(out[b]), q)
      ensures p < q
    {
      assert key(out[a]) == order[a] && key(out[b]) == order[b];
      FirstOccUnique(key, records, order[a], p, first[a]);
      FirstOccUnique(key, records, order[b], q, first[b]);
    }
  }

  /** Once every record is seen, the kept records listed in first-occurrence order deduplicate them. */
  lemma Finish(key: Record -> string, records: seq<Record>, m: map<string, Record>,
               order: seq<string>, pos: map<string, nat>, first: seq<nat>)
    requires Shape(key, records, |records|, m, order, pos, first)
    requires Best(key, records, |records|, m, pos)
    ensures forall a :: 0 <= a < |order| ==> order[a] in m
    ensures |order| <= |records| && Deduplicates(key, records, Listing(m, order))
  {
    FinishMembers(key, records, m, order, pos, first);
    FinishBest(key, records, m, order, pos, first);
    FinishOrder(key, records, m, order, pos, first);
  }

  /** dedupeByName (app.js:661-678), keyed by name and sex code. */
  method DedupeByName(records: seq<Record>) returns (out: seq<Record>)
    ensures |out| <= |records|
    ensures Deduplicates(Key, records, out)
  {
    var m: map<string, Record> := map[];
    var order: seq<string> := [];
    ghost var pos: map<string, nat> := map[];
    ghost var first: seq<nat> := [];
    for i := 0 to |records|
      invariant Kept(Key, records, i, m, order, pos)
      invariant Firsts(Key, records, i, order, first)
      invariant Best(Key, records, i, m, pos)
    {
      var rec := records[i];
      if rec.name == "" {
        SkipShape(Key, records, i, m, order, pos, first);
        SkipBest(Key, records, i, m, pos);
        continue;
      }
      var key := Key(rec);
      if key !in m {
        NewKeyShape(Key, records, i, m, order, pos, first);
        NewKeyBest(Key, records, i, m, pos);
        m := m[key := rec];
        order := order + [key];
        pos := pos[key := i];
        first := first + [i];
        continue;
      }
      SeenKeyShape(Key, records, i, m, order, pos, first);
      SeenKeyBest(Key, records, i, m, pos);
      var existing := m[key];
      if ExtLt(RankOrInf(rec), RankOrInf(existing)) {
        m := m[key := rec];
        pos := pos[key := i];
      }
    }
    Finish(Key, records, m, order, pos, first);
    out := Listing(m, order);
  }
}
