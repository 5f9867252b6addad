/**
 internal/retention/retention.go: splitting items into those to retain and those to remove.
 The specification counts, for each item, the items of its group that come ahead of it; the method groups
 through a map, sorts each group and collects indices, in whatever order the map is walked.
 */
module Retention {
  import opened Ranking

  // ----- specification

  /** compare orders the given items, signed as `strings.Compare` is. */
  ghost predicate Orders<T(!new)>(items: seq<T>, compare: (T, T) -> int) {
    && (forall x, y | x in items && y in items :: compare(x, y) < 0 <==> compare(y, x) > 0)
    && (forall x, y, z | x in items && y in items && z in items ::
          compare(x, y) <= 0 && compare(y, z) <= 0 ==> compare(x, z) <= 0)
  }

  /** Item j is in the group of item i and either newer, or as new and earlier in the input. */
  predicate Precedes<T>(items: seq<T>, group: T -> string, compare: (T, T) -> int, j: nat, i: nat)
    requires j < |items| && i < |items|
  {
    && group(items[j]) == group(items[i])
    && (compare(items[j], items[i]) > 0 || (compare(items[j], items[i]) == 0 && j < i))
  }

  function Ahead<T>(items: seq<T>, group: T -> string, compare: (T, T) -> int, i: nat): (s: set<nat>)
    requires i < |items|
  {
    set j: nat | j < |items| && Precedes(items, group, compare, j, i)
  }

  /** Fewer than keep items of its group come ahead of item i. */
  predicate Survives<T>(items: seq<T>, keep: int, group: T -> string, compare: (T, T) -> int, i: nat)
    requires i < |items|
  {
    |Ahead(items, group, compare, i)| < keep
  }

  function Survivors<T>(items: seq<T>, keep: int, group: T -> string, compare: (T, T) -> int): set<nat> {
    set i: nat | i < |items| && Survives(items, keep, group, compare, i)
  }

  function Dropped<T>(items: seq<T>, keep: int, group: T -> string, compare: (T, T) -> int): set<nat> {
    set i: nat | i < |items| && !Survives(items, keep, group, compare, i)
  }

  /** Those of the first n items whose index is in s, in input order. */
  function Pick<T>(items: seq<T>, s: set<nat>, n: nat): seq<T>
    requires n <= |items|
  {
    if n == 0 then []
    else if n - 1 in s then Pick(items, s, n - 1) + [items[n - 1]]
    else Pick(items, s, n - 1)
  }

  function Retained<T>(items: seq<T>, keep: int, group: T -> string, compare: (T, T) -> int): seq<T> {
    Pick(items, Survivors(items, keep, group, compare), |items|)
  }

  function Removed<T>(items: seq<T>, keep: int, group: T -> string, compare: (T, T) -> int): seq<T> {
    Pick(items, Dropped(items, keep, group, compare), |items|)
  }

  // ----- Precedes is a strict order on each group

  lemma PrecedesTransitive<T(!new)>(items: seq<T>, group: T -> string, compare: (T, T) -> int, i: nat, j: nat, k: nat)
    requires Orders(items, compare)
    requires i < |items| && j < |items| && k < |items|
    requires Precedes(items, group, compare, i, j) && Precedes(items, group, compare, j, k)
    ensures Precedes(items, group, compare, i, k)
  {
    var x, y, z := items[i], items[j], items[k];
    assert x in items && y in items && z in items;
    assert compare(z, y) <= 0 && compare(y, x) <= 0;
    assert compare(z, x) <= 0;
    if compare(x, z) == 0 {
      assert compare(x, z) <= 0 && compare(z, y) <= 0;
      assert compare(y, x) <= 0 && compare(x, z) <= 0;
    }
  }

  lemma PrecedesTotal<T(!new)>(items: seq<T>, group: T -> string, compare: (T, T) -> int, i: nat, j: nat)
    requires Orders(items, compare)
    requires i < |items| && j < |items|
    requires group(items[i]) == group(items[j])
    ensures !(Precedes(items, group, compare, i, j) && Precedes(items, group, compare, j, i))
    ensures i != j ==> Precedes(items, group, compare, i, j) || Precedes(items, group, compare, j, i)
  {
    var x, y := items[i], items[j];
    assert x in items && y in items;
  }

  // ----- the sort

  /** The indices are ordered newest first, those that compare as equal in input order. */
  ghost predicate NewestFirst<T>(items: seq<T>, group: T -> string, compare: (T, T) -> int, ordered: seq<nat>) {
    && (forall p :: 0 <= p < |ordered| ==> ordered[p] < |items|)
    && (forall p, q :: 0 <= p < q < |ordered| ==> Precedes(items, group, compare, ordered[p], ordered[q]))
  }

  /** What `slices.SortStableFunc` with the negated comparison does to one group of indices. */
  method SortStable<T(!new)>(items: seq<T>, group: T -> string, compare: (T, T) -> int, idxs: seq<nat>)
    returns (ordered: seq<nat>)
    requires Orders(items, compare)
    requires forall p :: 0 <= p < |idxs| ==> idxs[p] < |items|
    requires forall p, q :: 0 <= p < q < |idxs| ==> idxs[p] < idxs[q] && group(items[idxs[p]]) == group(items[idxs[q]])
    ensures NewestFirst(items, group, compare, ordered)
    ensures |ordered| == |idxs| && forall x :: x in ordered <==> x in idxs
  {
    ordered := [];
    for n := 0 to |idxs|
      invariant |ordered| == n
      invariant forall x :: x in ordered <==> x in idxs[..n]
      invariant NewestFirst(items, group, compare, ordered)
    {
      assert idxs[..n + 1] == idxs[..n] + [idxs[n]];
      forall p | 0 <= p < |ordered| ensures ordered[p] < idxs[n] && group(items[ordered[p]]) == group(items[idxs[n]]) {
        assert ordered[p] in idxs[..n];
      }
      ordered := Insert(items, group, compare, ordered, idxs[n]);
    }
    assert idxs[..|idxs|] == idxs;
  }

  /** A later item x comes before an earlier one of its group exactly when it is strictly newer. */
  lemma NewerPrecedes<T(!new)>(items: seq<T>, group: T -> string, compare: (T, T) -> int, x: nat, m: nat)
    requires Orders(items, compare)
    requires m < x < |items| && group(items[m]) == group(items[x])
    ensures if compare(items[x], items[m]) > 0 then Precedes(items, group, compare, x, m)
            else Precedes(items, group, compare, m, x)
  {
    assert items[x] in items && items[m] in items;
  }

  method Insert<T(!new)>(items: seq<T>, group: T -> string, compare: (T, T) -> int, ordered: seq<nat>, x: nat)
    returns (r: seq<nat>)
    requires Orders(items, compare)
    requires x < |items|
    requires NewestFirst(items, group, compare, ordered)
    requires forall p :: 0 <= p < |ordered| ==> ordered[p] < x && group(items[ordered[p]]) == group(items[x])
    ensures NewestFirst(items, group, compare, r)
    ensures |r| == |ordered| + 1 && forall y :: y in r <==> y in ordered || y == x
  {
    hide Precedes, Orders;
    var p := |ordered|;
    while p > 0 && compare(items[x], items[ordered[p - 1]]) > 0
      invariant 0 <= p <= |ordered|
      invariant forall q :: p <= q < |ordered| ==> Precedes(items, group, compare, x, ordered[q])
    {
      NewerPrecedes(items, group, compare, x, ordered[p - 1]);
      p := p - 1;
    }
    r := ordered[..p] + [x] + ordered[p..];
    if p > 0 {
      NewerPrecedes(items, group, compare, x, ordered[p - 1]);
    }
    forall q | 0 <= q < p ensures Precedes(items, group, compare, ordered[q], x) {
      if q < p - 1 {
        PrecedesTransitive(items, group, compare, ordered[q], ordered[p - 1], x);
      }
    }
  }

  lemma {:induction false} DistinctCount(s: seq<nat>, n: nat)
    requires n <= |s|
    requires forall p, q :: 0 <= p < q < n ==> s[p] != s[q]
    ensures |set k: nat | k < n :: s[k]| == n
  {
    if n > 0 {
      DistinctCount(s, n - 1);
      var before := set k: nat | k < n - 1 :: s[k];
      assert (set k: nat | k < n :: s[k]) == before + {s[n - 1]};
      assert s[n - 1] !in before;
    }
  }

  /** In a sorted group, an item's position is the number of items ahead of it. */
  lemma PositionIsRank<T(!new)>(items: seq<T>, group: T -> string, compare: (T, T) -> int, ordered: seq<nat>, p: nat)
    requires Orders(items, compare)
    requires NewestFirst(items, group, compare, ordered)
    requires p < |ordered|
    requires forall j: nat | j < |items| && group(items[j]) == group(items[ordered[p]]) :: j in ordered
    ensures |Ahead(items, group, compare, ordered[p])| == p
  {
    var front := set k: nat | k < p :: ordered[k];
    var i := ordered[p];
    forall j: nat | j in Ahead(items, group, compare, i) ensures j in front {
      var q :| 0 <= q < |ordered| && ordered[q] == j;
      PrecedesTotal(items, group, compare, i, j);
    }
    forall j: nat | j in front ensures j in Ahead(items, group, compare, i) {
      var k: nat :| k < p && ordered[k] == j;
    }
    assert front == Ahead(items, group, compare, i);
    forall a, b | 0 <= a < b < p ensures ordered[a] != ordered[b] {
      PrecedesTotal(items, group, compare, ordered[a], ordered[b]);
    }
    DistinctCount(ordered, p);
  }

  /** In a group of at most keep items nothing is removed. */
  lemma SmallGroupSurvives<T(!new)>(items: seq<T>, keep: int, group: T -> string, compare: (T, T) -> int,
                                    idxs: seq<nat>, i: nat)
    requires Orders(items, compare)
    requires i < |items| && i in idxs && |idxs| <= keep
    requires forall j: nat | j < |items| && group(items[j]) == group(items[i]) :: j in idxs
    requires forall p, q :: 0 <= p < q < |idxs| ==> idxs[p] < idxs[q]
    ensures Survives(items, keep, group, compare, i)
  {
    var all := set k: nat | k < |idxs| :: idxs[k];
    DistinctCount(idxs, |idxs|);
    var ahead := Ahead(items, group, compare, i);
    PrecedesTotal(items, group, compare, i, i);
    assert ahead <= all - {i};
    SubsetCount(ahead, all - {i});
  }

  // ----- Prune

  /** idxs lists, in input order, the indices below n whose item is in the group of key. */
  ghost predicate IsGroup<T>(items: seq<T>, group: T -> string, key: string, idxs: seq<nat>, n: nat)
    requires n <= |items|
  {
    && (forall p :: 0 <= p < |idxs| ==> idxs[p] < n && group(items[idxs[p]]) == key)
    && (forall p, q :: 0 <= p < q < |idxs| ==> idxs[p] < idxs[q])
    && (forall j: nat | j < n && group(items[j]) == key :: j in idxs)
  }

  function GroupAt(grouped: map<string, seq<nat>>, key: string): seq<nat> {
    if key in grouped then grouped[key] else []
  }

  ghost predicate Groups<T>(items: seq<T>, group: T -> string, grouped: map<string, seq<nat>>, n: nat)
    requires n <= |items|
  {
    forall key: string :: IsGroup(items, group, key, GroupAt(grouped, key), n)
  }

  lemma NoGroups<T>(items: seq<T>, group: T -> string)
    ensures Groups(items, group, map[], 0)
  {
  }

  lemma IsGroupStep<T>(items: seq<T>, group: T -> string, key: string, idxs: seq<nat>, n: nat)
    requires n < |items| && IsGroup(items, group, key, idxs, n)
    ensures group(items[n]) == key ==> IsGroup(items, group, key, idxs + [n], n + 1)
    ensures group(items[n]) != key ==> IsGroup(items, group, key, idxs, n + 1)
  {
    if group(items[n]) == key {
      var more := idxs + [n];
      assert more[|idxs|] == n;
      forall j: nat | j < n + 1 && group(items[j]) == key ensures j in more {
        assert j == n || j in idxs;
      }
    }
  }

  lemma GroupsStep<T>(items: seq<T>, group: T -> string, grouped: map<string, seq<nat>>, n: nat)
    requires n < |items| && Groups(items, group, grouped, n)
    ensures var key := group(items[n]);
            Groups(items, group, grouped[key := GroupAt(grouped, key) + [n]], n + 1)
  {
    hide IsGroup;
    var after := grouped[group(items[n]) := GroupAt(grouped, group(items[n])) + [n]];
    forall key: string ensures IsGroup(items, group, key, GroupAt(after, key), n + 1) {
      IsGroupStep(items, group, key, GroupAt(grouped, key), n);
    }
  }

  /** What removeIdx holds once the groups outside keys have been dealt with. */
  ghost predicate Marked<T>(items: seq<T>, keep: int, group: T -> string, compare: (T, T) -> int, keys: set<string>,
                            removeIdx: set<nat>) {
    forall i: nat :: i in removeIdx <==>
      i < |items| && group(items[i]) !in keys && !Survives(items, keep, group, compare, i)
  }

  lemma NothingMarked<T>(items: seq<T>, keep: int, group: T -> string, compare: (T, T) -> int,
                         grouped: map<string, seq<nat>>)
    requires Groups(items, group, grouped, |items|)
    ensures Marked(items, keep, group, compare, grouped.Keys, {})
  {
    hide Survives;
    forall i: nat | i < |items| ensures group(items[i]) in grouped {
      assert IsGroup(items, group, group(items[i]), GroupAt(grouped, group(items[i])), |items|);
    }
  }

  lemma AllMarked<T>(items: seq<T>, keep: int, group: T -> string, compare: (T, T) -> int, removeIdx: set<nat>)
    requires Marked(items, keep, group, compare, {}, removeIdx)
    ensures forall i: nat | i < |items| :: i in Dropped(items, keep, group, compare) <==> i in removeIdx
    ensures forall i: nat | i < |items| :: i in Survivors(items, keep, group, compare) <==> i !in removeIdx
  {
    hide Survives;
  }

  method Prune<T(!new)>(items: seq<T>, keep: int, group: T -> string, compare: (T, T) -> int)
    returns (retain: seq<T>, remove: seq<T>)
    requires Orders(items, compare)
    ensures retain == Retained(items, keep, group, compare)
    ensures remove == Removed(items, keep, group, compare)
  {
    hide Groups, Marked, Survivors, Dropped;
    var grouped: map<string, seq<nat>> := map[];
    NoGroups(items, group);
    for i := 0 to |items|
      invariant Groups(items, group, grouped, i)
    {
      GroupsStep(items, group, grouped, i);
      var key := group(items[i]);
      grouped := grouped[key := GroupAt(grouped, key) + [i]];
    }

    var removeIdx: set<nat> := {};
    var keys := grouped.Keys;
    NothingMarked(items, keep, group, compare, grouped);
    while keys != {}
      invariant keys <= grouped.Keys
      invariant Marked(items, keep, group, compare, keys, removeIdx)
      decreases keys
    {
      var key :| key in keys;
      var drop: seq<nat> := DropOf(items, keep, group, compare, grouped, key);
      ghost var was := removeIdx;
      for k := 0 to |drop|
        invariant removeIdx == was + set p: nat | p < k :: drop[p]
      {
        removeIdx := removeIdx + {drop[k]};
      }
      MarkedStep(items, keep, group, compare, keys, key, was, drop, removeIdx);
      keys := keys - {key};
    }

    retain, remove := [], [];
    ghost var kept, dropped := Survivors(items, keep, group, compare), Dropped(items, keep, group, compare);
    AllMarked(items, keep, group, compare, removeIdx);
    for i := 0 to |items|
      invariant retain == Pick(items, kept, i) && remove == Pick(items, dropped, i)
    {
      if i in removeIdx {
        remove := remove + [items[i]];
      } else {
        retain := retain + [items[i]];
      }
    }
  }

  /** The indices one group loses: none if it is small, else everything past the keep-th newest. */
  method DropOf<T(!new)>(items: seq<T>, keep: int, group: T -> string, compare: (T, T) -> int,
                         grouped: map<string, seq<nat>>, key: string)
    returns (drop: seq<nat>)
    requires Orders(items, compare)
    requires Groups(items, group, grouped, |items|) && key in grouped
    ensures forall i: nat :: i in drop <==>
              i < |items| && group(items[i]) == key && !Survives(items, keep, group, compare, i)
  {
    hide Survives;
    var idxs := grouped[key];
    assert IsGroup(items, group, key, GroupAt(grouped, key), |items|);
    if |idxs| <= keep {
      forall i: nat | i < |items| && group(items[i]) == key ensures Survives(items, keep, group, compare, i) {
        SmallGroupSurvives(items, keep, group, compare, idxs, i);
      }
      return [];
    }
    var ordered := SortStable(items, group, compare, idxs);
    drop := if keep > 0 then ordered[keep..] else ordered;
    forall p: nat | p < |ordered| ensures Survives(items, keep, group, compare, ordered[p]) <==> p < keep {
      GroupOf(items, group, idxs, ordered, key, p);
      RankDecides(items, keep, group, compare, ordered, p);
    }
    assert forall i: nat | i in ordered :: i in idxs;
    assert forall i: nat | i in idxs :: i < |items| && group(items[i]) == key;
  }

  lemma GroupOf<T>(items: seq<T>, group: T -> string, idxs: seq<nat>, ordered: seq<nat>, key: string, p: nat)
    requires p < |ordered| && forall x :: x in ordered <==> x in idxs
    requires forall q :: 0 <= q < |idxs| ==> idxs[q] < |items| && group(items[idxs[q]]) == key
    ensures ordered[p] < |items| && group(items[ordered[p]]) == key
  {
    assert ordered[p] in idxs;
  }

  lemma RankDecides<T(!new)>(items: seq<T>, keep: int, group: T -> string, compare: (T, T) -> int, ordered: seq<nat>,
                             p: nat)
    requires Orders(items, compare)
    requires NewestFirst(items, group, compare, ordered)
    requires p < |ordered|
    requires forall j: nat | j < |items| && group(items[j]) == group(items[ordered[p]]) :: j in ordered
    ensures Survives(items, keep, group, compare, ordered[p]) <==> p < keep
  {
    PositionIsRank(items, group, compare, ordered, p);
  }

  lemma MarkedStep<T>(items: seq<T>, keep: int, group: T -> string, compare: (T, T) -> int,
                      keys: set<string>, key: string, was: set<nat>, drop: seq<nat>, removeIdx: set<nat>)
    requires key in keys && Marked(items, keep, group, compare, keys, was)
    requires removeIdx == was + set p: nat | p < |drop| :: drop[p]
    requires forall i: nat :: i in drop <==>
               i < |items| && group(items[i]) == key && !Survives(items, keep, group, compare, i)
    ensures Marked(items, keep, group, compare, keys - {key}, removeIdx)
  {
    hide Survives;
    forall p: nat | p < |drop| ensures drop[p] in drop {
    }
    forall i: nat ensures i in removeIdx <==> i in was || i in drop {
      if i in drop {
        var p: nat :| p < |drop| && drop[p] == i;
      }
    }
  }
}
