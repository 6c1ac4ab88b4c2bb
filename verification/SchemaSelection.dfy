/**
 * Which entries of the cache file are loaded when they do not all fit (loadFromDisk of
 * src/validation/schema-cache.ts): Array.prototype.sort is stable, so ties go to the earlier one.
 */
module SchemaSelection {
  import opened Wrappers
  import opened SchemaCaching
  import opened SchemaStore

  /** Entry `j` comes before entry `i`: it was fetched later, or at the same time and stands earlier in the file. */
  predicate Before(entries: seq<(string, Entry)>, j: nat, i: nat)
    requires i < |entries| && j < |entries|
  {
    || entries[j].1.fetchedAt > entries[i].1.fetchedAt
    || (entries[j].1.fetchedAt == entries[i].1.fetchedAt && j < i)
  }

  /** How many of the first `n` entries come before entry `i`. */
  function Ahead(entries: seq<(string, Entry)>, i: nat, n: nat): nat
    requires i < |entries| && n <= |entries|
  {
    if n == 0 then 0 else Ahead(entries, i, n - 1) + if Before(entries, n - 1, i) then 1 else 0
  }

  /** How many entries were fetched at `t` or later. */
  function NotBefore(entries: seq<(string, Entry)>, t: int): nat {
    if entries == [] then 0
    else NotBefore(entries[..|entries| - 1], t) + if entries[|entries| - 1].1.fetchedAt >= t then 1 else 0
  }

  /** How many entries at the start were fetched at `t` or later. */
  function Slot(sorted: seq<(string, Entry)>, t: int): (n: nat)
    ensures n <= |sorted|
  {
    if sorted == [] || t > sorted[0].1.fetchedAt then 0 else 1 + Slot(sorted[1..], t)
  }

  /** An entry goes behind all that are not older, so behind those of its own time. */
  lemma {:induction false} InsertedAtSlot(e: (string, Entry), sorted: seq<(string, Entry)>)
    ensures
      var p := Slot(sorted, e.1.fetchedAt);
      Inserted(e, sorted) == sorted[..p] + [e] + sorted[p..]
  {
    if sorted == [] || e.1.fetchedAt > sorted[0].1.fetchedAt {
    } else {
      InsertedAtSlot(e, sorted[1..]);
      var p := Slot(sorted[1..], e.1.fetchedAt);
      assert sorted[..p + 1] == [sorted[0]] + sorted[1..][..p] && sorted[p + 1..] == sorted[1..][p..];
    }
  }

  lemma {:induction false} SlotSplits(sorted: seq<(string, Entry)>, t: int)
    requires LatestFirst(sorted)
    ensures forall k | 0 <= k < |sorted| :: k < Slot(sorted, t) <==> sorted[k].1.fetchedAt >= t
  {
    if sorted == [] || t > sorted[0].1.fetchedAt {
    } else {
      SlotSplits(sorted[1..], t);
      forall k | 0 <= k < |sorted| ensures k < Slot(sorted, t) <==> sorted[k].1.fetchedAt >= t {
        if k > 0 {
          assert sorted[1..][k - 1] == sorted[k];
        }
      }
    }
  }

  /** Inserting moves the slot of any time by one exactly when the entry is not older. */
  lemma {:induction false} SlotMoves(e: (string, Entry), sorted: seq<(string, Entry)>, t: int)
    requires LatestFirst(sorted)
    ensures Slot(Inserted(e, sorted), t) == Slot(sorted, t) + if e.1.fetchedAt >= t then 1 else 0
  {
    if sorted == [] || e.1.fetchedAt > sorted[0].1.fetchedAt {
      assert ([e] + sorted)[1..] == sorted;
    } else {
      assert Inserted(e, sorted)[1..] == Inserted(e, sorted[1..]);
      SlotMoves(e, sorted[1..], t);
    }
  }

  lemma {:induction false} SlotCounts(entries: seq<(string, Entry)>, t: int)
    ensures Slot(Recent(entries), t) == NotBefore(entries, t)
  {
    if entries == [] {
    } else {
      var init := entries[..|entries| - 1];
      SlotCounts(init, t);
      RecentKeepsAll(init);
      SlotMoves(entries[|entries| - 1], Recent(init), t);
    }
  }

  lemma {:induction false} AheadOfLast(entries: seq<(string, Entry)>, n: nat)
    requires n < |entries|
    ensures Ahead(entries, |entries| - 1, n) == NotBefore(entries[..n], entries[|entries| - 1].1.fetchedAt)
  {
    if n == 0 {
    } else {
      AheadOfLast(entries, n - 1);
      assert entries[..n][..n - 1] == entries[..n - 1];
    }
  }

  lemma {:induction false} AheadInPrefix(init: seq<(string, Entry)>, last: (string, Entry), i: nat, n: nat)
    requires i < |init| && n <= |init|
    ensures Ahead(init + [last], i, n) == Ahead(init, i, n)
  {
    if n == 0 {
    } else {
      AheadInPrefix(init, last, i, n - 1);
    }
  }

  lemma RecentSnoc(init: seq<(string, Entry)>, last: (string, Entry))
    ensures
      var sorted, p := Recent(init), NotBefore(init, last.1.fetchedAt);
      && p <= |sorted| && LatestFirst(sorted) && p == Slot(sorted, last.1.fetchedAt)
      && Recent(init + [last]) == sorted[..p] + [last] + sorted[p..]
  {
    assert (init + [last])[..|init|] == init;
    RecentKeepsAll(init);
    SlotCounts(init, last.1.fetchedAt);
    InsertedAtSlot(last, Recent(init));
  }

  lemma AheadSnoc(init: seq<(string, Entry)>, last: (string, Entry), i: nat)
    requires i < |init|
    ensures Ahead(init + [last], i, |init| + 1) ==
            Ahead(init, i, |init|) + if last.1.fetchedAt > init[i].1.fetchedAt then 1 else 0
  {
    AheadInPrefix(init, last, i, |init|);
  }

  lemma AheadOfNew(init: seq<(string, Entry)>, last: (string, Entry))
    ensures Ahead(init + [last], |init|, |init| + 1) == NotBefore(init, last.1.fetchedAt)
  {
    assert (init + [last])[..|init|] == init;
    AheadOfLast(init + [last], |init|);
  }

  lemma MovedBy(sorted: seq<(string, Entry)>, p: nat, e: (string, Entry), place: nat)
    requires p <= |sorted| && place < |sorted|
    ensures
      var s := sorted[..p] + [e] + sorted[p..];
      |s| == |sorted| + 1 && s[p] == e && s[if place < p then place else place + 1] == sorted[place]
  {
  }

  lemma PlaceOfOlder(init: seq<(string, Entry)>, last: (string, Entry), i: nat)
    requires i < |init| && |Recent(init)| == |init| && Ahead(init, i, |init|) < |init|
    requires Recent(init)[Ahead(init, i, |init|)] == init[i]
    ensures
      var place := Ahead(init + [last], i, |init| + 1);
      place <= |init| && |Recent(init + [last])| == |init| + 1 && Recent(init + [last])[place] == init[i]
  {
    hide Recent, Ahead, NotBefore, Slot, LatestFirst;
    RecentSnoc(init, last);
    AheadSnoc(init, last, i);
    SlotSplits(Recent(init), last.1.fetchedAt);
    MovedBy(Recent(init), NotBefore(init, last.1.fetchedAt), last, Ahead(init, i, |init|));
  }

  /** In the sorted list an entry stands at the place given by those that come before it. */
  lemma {:induction false} PlaceInOrder(entries: seq<(string, Entry)>, i: nat)
    requires i < |entries|
    ensures |Recent(entries)| == |entries| && Ahead(entries, i, |entries|) < |entries|
    ensures Recent(entries)[Ahead(entries, i, |entries|)] == entries[i]
  {
    var init, last := entries[..|entries| - 1], entries[|entries| - 1];
    hide Recent, Ahead, NotBefore, Slot, LatestFirst;
    assert entries == init + [last];
    if i == |init| {
      RecentSnoc(init, last);
      RecentKeepsAll(init);
      AheadOfNew(init, last);
    } else {
      PlaceInOrder(init, i);
      PlaceOfOlder(init, last, i);
    }
  }

  /** Chosen are exactly the entries with fewer than `max` entries before them, each unchanged. */
  lemma ChosenIff(entries: seq<(string, Entry)>, max: nat, i: nat)
    requires DistinctTools(entries) && i < |entries|
    ensures entries[i].0 in Chosen(entries, max) <==> Ahead(entries, i, |entries|) < max
    ensures entries[i].0 in Chosen(entries, max) ==> Chosen(entries, max)[entries[i].0] == entries[i].1
  {
    var sorted, place := Recent(entries), Ahead(entries, i, |entries|);
    var k := if |sorted| <= max then |sorted| else max;
    PlaceInOrder(entries, i);
    RecentDistinct(entries);
    PrefixDistinct(sorted, k);
    assert sorted[..|sorted|] == sorted;
    assert Chosen(entries, max) == AsMap(sorted[..k]);
    hide Recent, AsMap, Chosen, Ahead;
    AsMapHolds(sorted[..k]);
    if place < k {
      assert sorted[..k][place] == entries[i];
    }
  }
}
