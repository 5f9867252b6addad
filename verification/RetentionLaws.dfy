/**
 What the publishers rely on when they prune again and again: the cap, order preservation, stability under
 pruning twice, and the streaming top-K.
 */
module RetentionLaws {
  import opened Wrappers
  import opened Retention
  import opened Ranking

  // ----- picking

  lemma {:induction false} PickMember<T>(items: seq<T>, s: set<nat>, n: nat, x: T)
    requires n <= |items|
    ensures x in Pick(items, s, n) <==> exists j: nat :: j < n && j in s && items[j] == x
  {
    if n > 0 {
      PickMember(items, s, n - 1, x);
    }
  }

  /** Where the picked items come from. */
  function Positions(s: set<nat>, n: nat): seq<nat> {
    if n == 0 then [] else if n - 1 in s then Positions(s, n - 1) + [n - 1] else Positions(s, n - 1)
  }

  lemma {:induction false} PickIsAtPositions<T>(items: seq<T>, s: set<nat>, n: nat)
    requires n <= |items|
    ensures |Pick(items, s, n)| == |Positions(s, n)|
    ensures forall k :: 0 <= k < |Positions(s, n)| ==>
              Positions(s, n)[k] < n && Positions(s, n)[k] in s && Pick(items, s, n)[k] == items[Positions(s, n)[k]]
    ensures forall k, m :: 0 <= k < m < |Positions(s, n)| ==> Positions(s, n)[k] < Positions(s, n)[m]
    ensures forall j: nat :: j < n && j in s ==> j in Positions(s, n)
  {
    if n > 0 {
      PickIsAtPositions(items, s, n - 1);
    }
  }

  /** Both results keep the input order, and an item is removed exactly when keep or more items of its group
      are newer, or as new and earlier. */
  lemma PruneByRank<T>(items: seq<T>, keep: int, group: T -> string, compare: (T, T) -> int)
    ensures var kept := Positions(Survivors(items, keep, group, compare), |items|);
            var dropped := Positions(Dropped(items, keep, group, compare), |items|);
            && var (r, d) := (Retained(items, keep, group, compare), Removed(items, keep, group, compare));
            && |r| == |kept| && (forall k :: 0 <= k < |kept| ==> kept[k] < |items| && r[k] == items[kept[k]])
            && |d| == |dropped|
            && (forall k :: 0 <= k < |dropped| ==> dropped[k] < |items| && d[k] == items[dropped[k]])
            && (forall k, m :: 0 <= k < m < |kept| ==> kept[k] < kept[m])
            && (forall k, m :: 0 <= k < m < |dropped| ==> dropped[k] < dropped[m])
            && (forall i: nat :: i < |items| ==>
                  (i in dropped <==> |Ahead(items, group, compare, i)| >= keep) && (i in kept <==> i !in dropped))
  {
    hide Ahead;
    PickIsAtPositions(items, Survivors(items, keep, group, compare), |items|);
    PickIsAtPositions(items, Dropped(items, keep, group, compare), |items|);
  }

  lemma {:induction false} PickSplits<T>(items: seq<T>, s: set<nat>, t: set<nat>, n: nat)
    requires n <= |items|
    requires forall i: nat :: i < n ==> (i in s <==> i !in t)
    ensures multiset(Pick(items, s, n)) + multiset(Pick(items, t, n)) == multiset(items[..n])
  {
    hide Pick;
    if n > 0 {
      PickSplits(items, s, t, n - 1);
      PickStep(items, s, n - 1);
      PickStep(items, t, n - 1);
      assert items[..n] == items[..n - 1] + [items[n - 1]];
      OneMoreOfTwo(Pick(items, s, n - 1), Pick(items, t, n - 1), items[..n - 1], items[n - 1]);
    } else {
      PickNothing(items, s);
      PickNothing(items, t);
    }
  }

  lemma OneMoreOfTwo<T>(a: seq<T>, b: seq<T>, l: seq<T>, x: T)
    requires multiset(a) + multiset(b) == multiset(l)
    ensures multiset(a + [x]) + multiset(b) == multiset(l + [x]) == multiset(a) + multiset(b + [x])
  {
  }

  lemma PickNothing<T>(items: seq<T>, s: set<nat>)
    ensures Pick(items, s, 0) == []
  {
  }

  lemma PickStep<T>(items: seq<T>, s: set<nat>, n: nat)
    requires n < |items|
    ensures Pick(items, s, n + 1) == if n in s then Pick(items, s, n) + [items[n]] else Pick(items, s, n)
  {
  }

  lemma OneMore<T>(l: seq<T>, x: T)
    ensures multiset(l + [x]) == multiset(l) + multiset{x}
  {
  }

  /** Together the two results are a permutation of the input. */
  lemma PruneSplits<T>(items: seq<T>, keep: int, group: T -> string, compare: (T, T) -> int)
    ensures multiset(Retained(items, keep, group, compare)) + multiset(Removed(items, keep, group, compare)) ==
            multiset(items)
  {
    hide Survives;
    PickSplits(items, Survivors(items, keep, group, compare), Dropped(items, keep, group, compare), |items|);
    assert items[..|items|] == items;
  }

  lemma RetainedMember<T>(items: seq<T>, keep: int, group: T -> string, compare: (T, T) -> int, x: T)
    ensures x in Retained(items, keep, group, compare) ==> x in items
    ensures x in Removed(items, keep, group, compare) ==> x in items
    ensures x in items ==> x in Retained(items, keep, group, compare) || x in Removed(items, keep, group, compare)
  {
    hide Survives;
    PickMember(items, Survivors(items, keep, group, compare), |items|, x);
    PickMember(items, Dropped(items, keep, group, compare), |items|, x);
    if x in items {
      var i: nat :| i < |items| && items[i] == x;
      assert i in Survivors(items, keep, group, compare) || i in Dropped(items, keep, group, compare);
    }
  }

  // ----- counting

  function Count<T>(l: seq<T>, p: T -> bool): nat {
    if l == [] then 0 else Count(l[..|l| - 1], p) + if p(l[|l| - 1]) then 1 else 0
  }

  lemma CountSnoc<T>(l: seq<T>, x: T, p: T -> bool)
    ensures Count(l + [x], p) == Count(l, p) + if p(x) then 1 else 0
  {
    assert (l + [x])[..|l|] == l;
  }

  function InGroup<T>(group: T -> string, g: string): T -> bool {
    x => group(x) == g
  }

  /** The items of e's group that are at least as new as e. */
  function NotOlder<T>(group: T -> string, compare: (T, T) -> int, e: T): T -> bool {
    x => group(x) == group(e) && compare(x, e) >= 0
  }

  lemma {:induction false} CountPick<T>(items: seq<T>, s: set<nat>, n: nat, p: T -> bool)
    requires n <= |items|
    ensures Count(Pick(items, s, n), p) == |set j: nat | j < n && j in s && p(items[j])|
  {
    if n > 0 {
      CountPick(items, s, n - 1, p);
      var before := set j: nat | j < n - 1 && j in s && p(items[j]);
      var now := set j: nat | j < n && j in s && p(items[j]);
      var l := Pick(items, s, n - 1);
      if n - 1 in s {
        assert (l + [items[n - 1]])[..|l|] == l;
        if p(items[n - 1]) {
          assert now == before + {n - 1};
        } else {
          assert now == before;
        }
      } else {
        assert now == before;
      }
    }
  }

  lemma {:induction false} CountIndices<T>(l: seq<T>, n: nat, p: T -> bool)
    requires n <= |l|
    ensures Count(l[..n], p) == |set j: nat | j < n && p(l[j])|
  {
    if n > 0 {
      hide Count;
      CountIndices(l, n - 1, p);
      assert l[..n] == l[..n - 1] + [l[n - 1]];
      CountSnoc(l[..n - 1], l[n - 1], p);
      var before := set j: nat | j < n - 1 && p(l[j]);
      assert (set j: nat | j < n && p(l[j])) == before + if p(l[n - 1]) then {n - 1} else {};
    }
  }

  // ----- indices under Precedes are ranked

  ghost function Rank<T>(items: seq<T>, group: T -> string, compare: (T, T) -> int): (nat, nat) -> bool {
    (j: nat, i: nat) => j < |items| && i < |items| && Precedes(items, group, compare, j, i)
  }

  predicate IsIndex<T>(items: seq<T>, i: nat) {
    i < |items|
  }

  ghost function Indices<T>(items: seq<T>): set<nat> {
    set i: nat | i < |items| && IsIndex(items, i)
  }

  lemma RankIsStrict<T(!new)>(items: seq<T>, group: T -> string, compare: (T, T) -> int)
    requires Orders(items, compare)
    ensures StrictOrder(Indices(items), Rank(items, group, compare))
  {
    hide Precedes;
    var r := Rank(items, group, compare);
    forall i: nat | i in Indices(items) ensures !r(i, i) {
      PrecedesTotal(items, group, compare, i, i);
    }
    forall i: nat, j: nat, k: nat | i in Indices(items) && j in Indices(items) && k in Indices(items) && r(i, j) &&
        r(j, k)
      ensures r(i, k)
    {
      PrecedesTransitive(items, group, compare, i, j, k);
    }
  }

  lemma SurvivorsAreTop<T(!new)>(items: seq<T>, keep: int, group: T -> string, compare: (T, T) -> int)
    ensures Survivors(items, keep, group, compare) == Top(Indices(items), Rank(items, group, compare), keep)
  {
    hide Precedes;
    forall i: nat | i < |items|
      ensures Ahead(items, group, compare, i) == Before(Indices(items), Rank(items, group, compare), i)
    {
    }
  }

  /** No group keeps more than keep items. */
  lemma Cap<T(!new)>(items: seq<T>, keep: int, group: T -> string, compare: (T, T) -> int, g: string)
    requires Orders(items, compare)
    ensures Count(Retained(items, keep, group, compare), InGroup(group, g)) <= if keep > 0 then keep else 0
  {
    hide Precedes, Survives;
    var kept := Survivors(items, keep, group, compare);
    var c := set j: nat | j < |items| && j in kept && group(items[j]) == g;
    CountPick(items, kept, |items|, InGroup(group, g));
    assert c == set j: nat | j < |items| && j in kept && InGroup(group, g)(items[j]);
    RankIsStrict(items, group, compare);
    SurvivorsAreTop(items, keep, group, compare);
    forall i: nat, j: nat | i in c && j in c && i != j
      ensures Rank(items, group, compare)(i, j) || Rank(items, group, compare)(j, i)
    {
      PrecedesTotal(items, group, compare, i, j);
    }
    TopOfChain(Indices(items), Rank(items, group, compare), keep, c);
  }

  /** Ahead of every item that is removed there are keep items that are retained. */
  lemma RemovedIsCovered<T(!new)>(items: seq<T>, keep: int, group: T -> string, compare: (T, T) -> int, i: nat)
    requires i < |items| && Orders(items, compare)
    requires !Survives(items, keep, group, compare, i)
    ensures |Ahead(items, group, compare, i) * Survivors(items, keep, group, compare)| >= keep
  {
    hide Precedes, Orders;
    var before := Rank(items, group, compare);
    RankIsStrict(items, group, compare);
    SurvivorsAreTop(items, keep, group, compare);
    TopIsFull<nat>(Indices(items), before, keep, i);
    assert Before<nat>(Indices(items), before, i) == Ahead(items, group, compare, i);
  }

  /** When the last item is removed, keep items at least as new as it are retained. */
  lemma RemovedLastIsCovered<T(!new)>(l: seq<T>, e: T, keep: int, group: T -> string, compare: (T, T) -> int)
    requires Orders(l + [e], compare)
    requires !Survives(l + [e], keep, group, compare, |l|)
    ensures Count(Retained(l + [e], keep, group, compare), NotOlder(group, compare, e)) >= keep
  {
    hide Survives, Orders, Pick, Count;
    var items, p := l + [e], NotOlder(group, compare, e);
    var kept := Survivors(items, keep, group, compare);
    assert items[|l|] == e;
    CountPick(items, kept, |items|, p);
    RemovedIsCovered(items, keep, group, compare, |l|);
    Ranking.SubsetCount(Ahead(items, group, compare, |l|) * kept, set j: nat | j < |items| && j in kept && p(items[j]));
  }

  // ----- pruning what has been pruned

  lemma {:induction false} PickAll<T>(l: seq<T>, s: set<nat>, n: nat)
    requires n <= |l|
    requires forall i: nat :: i < n ==> i in s
    ensures Pick(l, s, n) == l[..n]
  {
    if n > 0 {
      PickAll(l, s, n - 1);
    }
  }

  lemma {:induction false} PickNone<T>(l: seq<T>, s: set<nat>, n: nat)
    requires n <= |l|
    requires forall i: nat :: i < n ==> i !in s
    ensures Pick(l, s, n) == []
  {
    if n > 0 {
      PickNone(l, s, n - 1);
    }
  }

  ghost predicate Capped<T>(l: seq<T>, keep: int, group: T -> string) {
    forall g: string :: Count(l, InGroup(group, g)) <= keep
  }

  lemma RetainedIsCapped<T(!new)>(items: seq<T>, keep: int, group: T -> string, compare: (T, T) -> int)
    requires keep > 0 && Orders(items, compare)
    ensures Capped(Retained(items, keep, group, compare), keep, group)
  {
    forall g: string ensures Count(Retained(items, keep, group, compare), InGroup(group, g)) <= keep {
      Cap(items, keep, group, compare, g);
    }
  }

  /** The members of i's group, other than i itself, among the first |l| of l + rest. */
  lemma CappedRank<T(!new)>(l: seq<T>, rest: seq<T>, keep: int, group: T -> string, compare: (T, T) -> int, i: nat)
    requires keep > 0 && Capped(l, keep, group)
    requires i < |l| && Orders(l + rest, compare)
    requires forall j: nat :: |l| <= j < |l + rest| ==> !Precedes(l + rest, group, compare, j, i)
    ensures Survives(l + rest, keep, group, compare, i)
  {
    var items := l + rest;
    var g := group(l[i]);
    var c := set j: nat | j < |l| && InGroup(group, g)(l[j]);
    CountIndices(l, |l|, InGroup(group, g));
    assert l[..|l|] == l;
    assert Count(l, InGroup(group, g)) <= keep;
    var a := Ahead(items, group, compare, i);
    PrecedesTotal(items, group, compare, i, i);
    assert items[i] == l[i];
    forall j: nat | j in a ensures j in c - {i} {
      assert j < |l| && items[j] == l[j];
    }
    assert i in c;
    Ranking.SubsetCount(a, c - {i});
  }

  /** A list within the cap is left alone. */
  lemma PruneAgain<T(!new)>(l: seq<T>, keep: int, group: T -> string, compare: (T, T) -> int)
    requires keep > 0 && Capped(l, keep, group) && Orders(l, compare)
    ensures Retained(l, keep, group, compare) == l
    ensures Removed(l, keep, group, compare) == []
  {
    hide Survives;
    assert l + [] == l;
    forall i: nat | i < |l| ensures Survives(l, keep, group, compare, i) {
      CappedRank(l, [], keep, group, compare, i);
    }
    PickAll(l, Survivors(l, keep, group, compare), |l|);
    PickNone(l, Dropped(l, keep, group, compare), |l|);
    assert l[..|l|] == l;
  }

  lemma Outranked<T(!new)>(l: seq<T>, e: T, keep: int, group: T -> string, compare: (T, T) -> int)
    requires Orders(l + [e], compare)
    requires Count(l, NotOlder(group, compare, e)) >= keep
    ensures !Survives(l + [e], keep, group, compare, |l|)
  {
    var items, p := l + [e], NotOlder(group, compare, e);
    CountIndices(l, |l|, p);
    assert l[..|l|] == l;
    var c := set j: nat | j < |l| && p(l[j]);
    forall j: nat | j in c ensures j in Ahead(items, group, compare, |l|) {
      assert items[j] == l[j];
    }
    Ranking.SubsetCount(c, Ahead(items, group, compare, |l|));
  }

  /** In a full group none of the other items is older than e. */
  lemma FullGroupNotOlder<T(!new)>(l: seq<T>, e: T, keep: int, group: T -> string, compare: (T, T) -> int, i: nat)
    requires Capped(l, keep, group)
    requires Count(l, NotOlder(group, compare, e)) >= keep
    requires i < |l| && group(l[i]) == group(e)
    ensures compare(l[i], e) >= 0
  {
    var p, q := NotOlder(group, compare, e), InGroup(group, group(e));
    CountIndices(l, |l|, p);
    CountIndices(l, |l|, q);
    assert l[..|l|] == l;
    var a := set j: nat | j < |l| && p(l[j]);
    var b := set j: nat | j < |l| && q(l[j]);
    assert Count(l, q) <= keep;
    assert a <= b;
    Ranking.SubsetCount(a, b);
    assert i in b;
  }

  /** An item outranked by a full group is removed again, and nothing else is. */
  lemma PruneOutranked<T(!new)>(l: seq<T>, e: T, keep: int, group: T -> string, compare: (T, T) -> int)
    requires keep > 0 && Capped(l, keep, group) && Orders(l + [e], compare)
    requires Count(l, NotOlder(group, compare, e)) >= keep
    ensures Retained(l + [e], keep, group, compare) == l
    ensures Removed(l + [e], keep, group, compare) == [e]
  {
    hide Survives;
    var items := l + [e];
    Outranked(l, e, keep, group, compare);
    forall i: nat | i < |l| ensures Survives(items, keep, group, compare, i) {
      assert items[i] == l[i] && items[i] in items && e in items;
      if group(l[i]) == group(e) {
        FullGroupNotOlder(l, e, keep, group, compare, i);
      }
      assert !Precedes(items, group, compare, |l|, i);
      CappedRank(l, [e], keep, group, compare, i);
    }
    PickAll(items, Survivors(items, keep, group, compare), |l|);
    PickNone(items, Dropped(items, keep, group, compare), |l|);
    assert items[..|l|] == l;
  }

  // ----- pruning a list without ties is taking the top of a set

  ghost function Newer<T>(group: T -> string, compare: (T, T) -> int): (T, T) -> bool {
    (w: T, x: T) => group(w) == group(x) && compare(w, x) > 0
  }

  lemma NewerMeans<T(!new)>(group: T -> string, compare: (T, T) -> int)
    ensures forall w, x :: Newer(group, compare)(w, x) <==> group(w) == group(x) && compare(w, x) > 0
  {
  }

  /** No two items of one group compare as equal. */
  ghost predicate Strict<T>(items: seq<T>, group: T -> string, compare: (T, T) -> int) {
    forall i, j :: 0 <= i < |items| && 0 <= j < |items| && i != j && group(items[i]) == group(items[j]) ==>
      compare(items[i], items[j]) != 0
  }

  ghost function ElementsAt<T>(l: seq<T>, a: set<nat>): set<T>
    requires forall j | j in a :: j < |l|
  {
    set j | j in a :: l[j]
  }

  lemma {:induction false} ElementsAtCount<T>(l: seq<T>, a: set<nat>)
    requires forall j | j in a :: j < |l|
    requires forall i, j :: 0 <= i < j < |l| ==> l[i] != l[j]
    ensures |ElementsAt(l, a)| == |a|
  {
    if a != {} {
      var k :| k in a;
      ElementsAtCount(l, a - {k});
      assert ElementsAt(l, a) == ElementsAt(l, a - {k}) + {l[k]};
    }
  }

  lemma StrictIsDistinct<T(!new)>(items: seq<T>, group: T -> string, compare: (T, T) -> int)
    requires Orders(items, compare) && Strict(items, group, compare)
    ensures forall i, j :: 0 <= i < j < |items| ==> items[i] != items[j]
  {
    forall x | x in items ensures compare(x, x) == 0 {
      assert compare(x, x) < 0 <==> compare(x, x) > 0;
    }
    assert forall i :: 0 <= i < |items| ==> items[i] in items;
  }

  lemma RankInSet<T(!new)>(items: seq<T>, group: T -> string, compare: (T, T) -> int, i: nat)
    requires Orders(items, compare) && Strict(items, group, compare)
    requires i < |items|
    ensures |Ahead(items, group, compare, i)| == |Before(Elements(items), Newer(group, compare), items[i])|
  {
    StrictIsDistinct(items, group, compare);
    var a := Ahead(items, group, compare, i);
    ElementsAtCount(items, a);
    SameElements(items, group, compare, i);
  }

  lemma SameElements<T(!new)>(items: seq<T>, group: T -> string, compare: (T, T) -> int, i: nat)
    requires Orders(items, compare) && Strict(items, group, compare)
    requires i < |items|
    ensures ElementsAt(items, Ahead(items, group, compare, i)) ==
            Before(Elements(items), Newer(group, compare), items[i])
  {
    var a := Ahead(items, group, compare, i);
    var b := Before(Elements(items), Newer(group, compare), items[i]);
    assert items[i] in items;
    forall x | x in ElementsAt(items, a) ensures x in b {
      var j :| j in a && items[j] == x;
    }
    forall x | x in b ensures x in ElementsAt(items, a) {
      var j: nat :| j < |items| && items[j] == x;
      assert j in a;
    }
  }

  lemma RetainedIsTop<T(!new)>(items: seq<T>, keep: int, group: T -> string, compare: (T, T) -> int)
    requires Orders(items, compare) && Strict(items, group, compare)
    ensures Elements(Retained(items, keep, group, compare)) == Top(Elements(items), Newer(group, compare), keep)
  {
    hide Ahead;
    forall x: T
      ensures x in Retained(items, keep, group, compare) <==> x in Top(Elements(items), Newer(group, compare), keep)
    {
      PickMember(items, Survivors(items, keep, group, compare), |items|, x);
      forall i: nat | i < |items|
        ensures Survives(items, keep, group, compare, i) <==>
                items[i] in Top(Elements(items), Newer(group, compare), keep)
      {
        RankInSet(items, group, compare, i);
      }
    }
  }

  // ----- pruning commutes with a change of representation

  function Map<A, B>(f: A -> B, l: seq<A>): (r: seq<B>)
    ensures |r| == |l|
    ensures forall i :: 0 <= i < |l| ==> r[i] == f(l[i])
  {
    seq(|l|, i requires 0 <= i < |l| => f(l[i]))
  }

  lemma {:induction false} PickMap<A, B>(f: A -> B, l: seq<A>, s: set<nat>, n: nat)
    requires n <= |l|
    ensures Pick(Map(f, l), s, n) == Map(f, Pick(l, s, n))
  {
    if n > 0 {
      PickMap(f, l, s, n - 1);
    }
  }

  lemma PruneMap<A(!new), B(!new)>(f: A -> B, l: seq<A>, keep: int, group: A -> string, compare: (A, A) -> int,
                                  group': B -> string, compare': (B, B) -> int)
    requires forall x | x in l :: group'(f(x)) == group(x)
    requires forall x, y | x in l && y in l :: compare'(f(x), f(y)) == compare(x, y)
    ensures Retained(Map(f, l), keep, group', compare') == Map(f, Retained(l, keep, group, compare))
    ensures Removed(Map(f, l), keep, group', compare') == Map(f, Removed(l, keep, group, compare))
  {
    var m := Map(f, l);
    forall i: nat | i < |l| ensures Ahead(m, group', compare', i) == Ahead(l, group, compare, i) {
      assert l[i] in l;
      forall j: nat | j < |l| ensures Precedes(m, group', compare', j, i) <==> Precedes(l, group, compare, j, i) {
        assert l[j] in l;
      }
    }
    assert Survivors(m, keep, group', compare') == Survivors(l, keep, group, compare);
    assert Dropped(m, keep, group', compare') == Dropped(l, keep, group, compare);
    PickMap(f, l, Survivors(l, keep, group, compare), |l|);
    PickMap(f, l, Dropped(l, keep, group, compare), |l|);
  }
}
