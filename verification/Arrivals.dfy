/**
 Items that arrive one by one, each replacing an equal one, the list being pruned after every arrival and then put in
 any order. With ties the outcome lies between two sets, and depends on the order of the arrivals exactly when these
 differ.
 */
module Arrivals {
  import opened Wrappers
  import opened Ranking
  import opened Retention
  import opened RetentionLaws

  function Without<T(==)>(l: seq<T>, x: T): seq<T> {
    if l == [] then [] else (if l[0] == x then [] else [l[0]]) + Without(l[1..], x)
  }

  lemma {:induction false} WithoutAre<T>(l: seq<T>, x: T)
    ensures forall y :: y in Without(l, x) <==> y in l && y != x
    ensures Unrepeated(l) ==> Unrepeated(Without(l, x))
  {
    if l != [] {
      WithoutAre(l[1..], x);
      assert l == [l[0]] + l[1..];
      if Unrepeated(l) && l[0] != x {
        UnrepeatedCons(l[0], Without(l[1..], x));
      }
    }
  }

  lemma UnrepeatedCons<T>(x: T, l: seq<T>)
    requires Unrepeated(l) && x !in l
    ensures Unrepeated([x] + l)
  {
  }

  ghost predicate Unrepeated<T>(l: seq<T>) {
    forall i, j :: 0 <= i < j < |l| ==> l[i] != l[j]
  }

  lemma UnrepeatedSnoc<T>(l: seq<T>, x: T)
    requires Unrepeated(l) && x !in l
    ensures Unrepeated(l + [x]) && Elements(l + [x]) == Elements(l) + {x}
  {
  }

  /** The list an arrival leaves to be pruned. */
  function Joined<T(==)>(l: seq<T>, x: T): seq<T> {
    Without(l, x) + [x]
  }

  lemma JoinedAre<T>(l: seq<T>, x: T)
    ensures Elements(Joined(l, x)) == Elements(l) + {x}
    ensures Unrepeated(l) ==> Unrepeated(Joined(l, x))
  {
    hide Without;
    WithoutAre(l, x);
    if Unrepeated(l) {
      UnrepeatedSnoc(Without(l, x), x);
    }
    assert Elements(Without(l, x)) + {x} == Elements(l) + {x} by {
      assert forall y :: y in Elements(Without(l, x)) <==> y in Elements(l) && y != x;
    }
    assert Elements(Without(l, x) + [x]) == Elements(Without(l, x)) + {x};
  }

  /** The other items of x's group that are at least as new as x. */
  ghost function Rivals<T>(group: T -> string, compare: (T, T) -> int): (T, T) -> bool {
    (w: T, x: T) => w != x && group(w) == group(x) && compare(w, x) >= 0
  }

  /** compare orders the set. */
  ghost predicate OrdersSet<T(!new)>(s: set<T>, compare: (T, T) -> int) {
    && (forall x, y | x in s && y in s :: compare(x, y) < 0 <==> compare(y, x) > 0)
    && (forall x, y, z | x in s && y in s && z in s :: compare(x, y) <= 0 && compare(y, z) <= 0 ==> compare(x, z) <= 0)
  }

  lemma OrdersList<T(!new)>(s: set<T>, l: seq<T>, compare: (T, T) -> int)
    requires OrdersSet(s, compare) && Elements(l) <= s
    ensures Orders(l, compare)
  {
    forall x | x in l ensures x in s {
      assert x in Elements(l);
    }
  }

  // ----- one pruning, as a set

  ghost function Where<T>(s: set<T>, up: T -> bool): set<T> {
    set w | w in s && up(w)
  }

  /** Whatever is in its group at least as new as something in up is in up. */
  ghost predicate Upward<T(!new)>(s: set<T>, group: T -> string, compare: (T, T) -> int, up: T -> bool) {
    forall y, w | y in s && w in s && up(y) && group(w) == group(y) && compare(w, y) >= 0 :: up(w)
  }

  /** The items ahead of one, as a set: the strictly newer, and among as new ones the earlier. */
  lemma AheadAsSet<T(!new)>(all: seq<T>, group: T -> string, compare: (T, T) -> int, i: nat)
    requires Unrepeated(all) && i < |all| && Orders(all, compare)
    ensures var ahead := ElementsAt(all, Ahead(all, group, compare, i));
            && |ahead| == |Ahead(all, group, compare, i)|
            && ahead <= Before(Elements(all), Rivals(group, compare), all[i])
            && Before(Elements(all), Newer(group, compare), all[i]) <= ahead
  {
    var a := Ahead(all, group, compare, i);
    ElementsAtCount(all, a);
    assert all[i] in all;
    forall w | w in ElementsAt(all, a) ensures w in Before(Elements(all), Rivals(group, compare), all[i]) {
      var j :| j in a && all[j] == w;
      assert compare(all[i], all[i]) == 0;
      assert j != i;
    }
    forall w | w in Before(Elements(all), Newer(group, compare), all[i]) ensures w in ElementsAt(all, a) {
      var j: nat :| j < |all| && all[j] == w;
      assert j in a;
    }
  }

  lemma IndexOf<T>(l: seq<T>, x: T) returns (i: nat)
    requires x in l
    ensures i < |l| && l[i] == x
  {
    i :| i < |l| && l[i] == x;
  }

  /** An item of an unrepeated list is retained exactly when it survives. */
  lemma RetainedSurvives<T(!new)>(all: seq<T>, keep: int, group: T -> string, compare: (T, T) -> int, i: nat)
    requires Unrepeated(all) && i < |all|
    ensures all[i] in Retained(all, keep, group, compare) <==> Survives(all, keep, group, compare, i)
  {
    hide Survives;
    PickMember(all, Survivors(all, keep, group, compare), |all|, all[i]);
  }

  lemma RetainedUnrepeated<T(!new)>(all: seq<T>, keep: int, group: T -> string, compare: (T, T) -> int)
    requires Unrepeated(all)
    ensures Unrepeated(Retained(all, keep, group, compare))
    ensures Elements(Retained(all, keep, group, compare)) <= Elements(all)
  {
    hide Survives;
    PickIsAtPositions(all, Survivors(all, keep, group, compare), |all|);
  }

  /** Few rivals: retained. */
  lemma CertainStays<T(!new)>(all: seq<T>, keep: int, group: T -> string, compare: (T, T) -> int, x: T)
    requires Unrepeated(all) && Orders(all, compare) && x in all
    requires |Before(Elements(all), Rivals(group, compare), x)| < keep
    ensures x in Retained(all, keep, group, compare)
  {
    hide Retained, Before, Rivals, ElementsAt, Precedes;
    var i := IndexOf(all, x);
    AheadAsSet(all, group, compare, i);
    SubsetCount(ElementsAt(all, Ahead(all, group, compare, i)), Before(Elements(all), Rivals(group, compare), x));
    RetainedSurvives(all, keep, group, compare, i);
  }

  /** Retained: fewer than keep are newer. */
  lemma RetainedHasFewNewer<T(!new)>(all: seq<T>, keep: int, group: T -> string, compare: (T, T) -> int, x: T)
    requires Unrepeated(all) && Orders(all, compare) && x in Retained(all, keep, group, compare)
    ensures |Before(Elements(all), Newer(group, compare), x)| < keep
  {
    hide Retained, Before, Newer, ElementsAt, Precedes;
    RetainedMember(all, keep, group, compare, x);
    var i := IndexOf(all, x);
    AheadAsSet(all, group, compare, i);
    SubsetCount(Before(Elements(all), Newer(group, compare), x), ElementsAt(all, Ahead(all, group, compare, i)));
    RetainedSurvives(all, keep, group, compare, i);
  }

  /** Removed: keep rivals are retained. */
  lemma RemovedHasRivals<T(!new)>(all: seq<T>, keep: int, group: T -> string, compare: (T, T) -> int, y: T)
    requires Unrepeated(all) && Orders(all, compare) && y in all && y !in Retained(all, keep, group, compare)
    ensures |Before(Elements(Retained(all, keep, group, compare)), Rivals(group, compare), y)| >= keep
  {
    var i := IndexOf(all, y);
    RetainedSurvives(all, keep, group, compare, i);
    RemovedIsCovered(all, keep, group, compare, i);
    AheadAsSet(all, group, compare, i);
    var c := Ahead(all, group, compare, i) * Survivors(all, keep, group, compare);
    ElementsAtCount(all, c);
    hide Precedes, Retained, Survives;
    forall w | w in ElementsAt(all, c)
      ensures w in Before(Elements(Retained(all, keep, group, compare)), Rivals(group, compare), y)
    {
      var j :| j in c && all[j] == w;
      RetainedSurvives(all, keep, group, compare, j);
      assert w in ElementsAt(all, Ahead(all, group, compare, i));
    }
    SubsetCount(ElementsAt(all, c), Before(Elements(Retained(all, keep, group, compare)), Rivals(group, compare), y));
  }

  // ----- arrivals, whatever becomes of the order of the list

  /** Either keep of the listed items are in up, or all items in up are listed. */
  ghost predicate FullOrWhole<T>(s: set<T>, listed: set<T>, keep: int, up: T -> bool) {
    |Where(listed, up)| >= keep || Where(s, up) <= listed
  }

  lemma RivalsAreUp<T(!new)>(s: set<T>, group: T -> string, compare: (T, T) -> int, up: T -> bool, listed: set<T>, y: T)
    requires Upward(s, group, compare, up) && listed <= s && y in s && up(y)
    ensures |Before(listed, Rivals(group, compare), y)| <= |Where(listed, up)|
  {
    SubsetCount(Before(listed, Rivals(group, compare), y), Where(listed, up));
  }

  function Itself<T>(x: T): T {
    x
  }

  /** An arrival at least as new as the namesakes whose place it takes. */
  ghost predicate Rises<T(!new), I>(s: set<T>, ident: T -> I, group: T -> string, compare: (T, T) -> int, z: T) {
    forall w | w in s && ident(w) == ident(z) :: group(w) == group(z) && compare(z, w) >= 0
  }

  /** Taking the place of a namesake in an upward set is taking it in that set. */
  lemma ArriveKeepsSize<T(!new), I>(s: set<T>, listed: set<T>, ident: T -> I, z: T, group: T -> string,
                                    compare: (T, T) -> int, up: T -> bool)
    requires listed <= s && Apart(s, ident) && Rises(s, ident, group, compare, z)
    requires Upward(s + {z}, group, compare, up)
    ensures |Where(listed, up)| <= |Where(Arrive(listed, ident, z), up)|
  {
    var a, b := Where(listed, up), Where(Arrive(listed, ident, z), up);
    if w :| w in a && ident(w) == ident(z) {
      assert up(z);
      assert a - {w} + {z} <= b;
      assert z !in a - {w};
      SubsetCount(a - {w} + {z}, b);
    } else {
      SubsetCount(a, b);
    }
  }

  /** An arrival, and the pruning after it, keep this so. */
  lemma FullOrWholeStep<T(!new), I>(s: set<T>, listed: set<T>, all: seq<T>, ident: T -> I, z: T, keep: int,
                                    group: T -> string, compare: (T, T) -> int, up: T -> bool)
    requires listed <= s && FullOrWhole(s, listed, keep, up) && Apart(s, ident) && Rises(s, ident, group, compare, z)
    requires Unrepeated(all) && Elements(all) == Arrive(listed, ident, z)
    requires OrdersSet(s + {z}, compare) && Upward(s + {z}, group, compare, up)
    ensures FullOrWhole(Arrive(s, ident, z), Elements(Retained(all, keep, group, compare)), keep, up)
  {
    hide Retained, Unrepeated, OrdersSet, Upward, Apart, Rises;
    var r := Elements(Retained(all, keep, group, compare));
    RetainedUnrepeated(all, keep, group, compare);
    OrdersList(s + {z}, all, compare);
    if y :| y in Elements(all) && up(y) && y !in r {
      RemovedHasRivals(all, keep, group, compare, y);
      RivalsAreUp(s + {z}, group, compare, up, r, y);
    } else if !(Where(Arrive(s, ident, z), up) <= r) {
      var y :| y in Where(Arrive(s, ident, z), up) && y !in r;
      assert y in Where(s, up) && y !in listed;
      ArriveKeepsSize(s, listed, ident, z, group, compare, up);
      assert Where(Elements(all), up) <= Where(r, up);
      SubsetCount(Where(Elements(all), up), Where(r, up));
    }
  }

  ghost function NewerThan<T>(group: T -> string, compare: (T, T) -> int, x: T): T -> bool {
    w => group(w) == group(x) && compare(w, x) > 0
  }

  ghost function AtLeast<T>(group: T -> string, compare: (T, T) -> int, x: T): T -> bool {
    w => group(w) == group(x) && compare(w, x) >= 0
  }

  lemma UpwardSets<T(!new)>(s: set<T>, group: T -> string, compare: (T, T) -> int, x: T)
    requires OrdersSet(s, compare) && x in s
    ensures Upward(s, group, compare, NewerThan(group, compare, x))
    ensures Upward(s, group, compare, AtLeast(group, compare, x))
  {
    hide OrdersSet;
    var newer, least := NewerThan(group, compare, x), AtLeast(group, compare, x);
    forall y, w | y in s && w in s && newer(y) && group(w) == group(y) && compare(w, y) >= 0 ensures newer(w) {
      AtLeastTransitive(s, compare, w, y, x);
    }
    forall y, w | y in s && w in s && least(y) && group(w) == group(y) && compare(w, y) >= 0 ensures least(w) {
      AtLeastTransitive(s, compare, w, y, x);
    }
  }

  lemma AtLeastTransitive<T(!new)>(s: set<T>, compare: (T, T) -> int, w: T, y: T, x: T)
    requires OrdersSet(s, compare) && x in s && y in s && w in s
    requires compare(w, y) >= 0 && compare(y, x) >= 0
    ensures compare(w, x) >= 0 && (compare(y, x) > 0 ==> compare(w, x) > 0)
  {
    assert compare(x, y) <= 0 && compare(y, w) <= 0;
    assert compare(x, w) <= 0;
    assert compare(y, w) <= 0 && compare(w, x) <= 0 ==> compare(y, x) <= 0;
  }

  /** Where the items v of which those of s have arrived stand to those listed. */
  ghost predicate Settled<T>(v: set<T>, s: set<T>, listed: set<T>, keep: int, group: T -> string,
                             compare: (T, T) -> int) {
    && listed <= s <= v
    && (forall x | x in s && |Before(s, Rivals(group, compare), x)| < keep :: x in listed)
    && (forall x | x in v :: FullOrWhole(s, listed, keep, NewerThan(group, compare, x)))
    && (forall x | x in listed :: |Before(listed, Newer(group, compare), x)| < keep)
  }

  lemma NothingSettled<T>(v: set<T>, keep: int, group: T -> string, compare: (T, T) -> int)
    ensures Settled(v, {}, {}, keep, group, compare)
  {
  }

  lemma MoreRivals<T>(s: set<T>, r: set<T>, before: (T, T) -> bool, x: T)
    requires s <= r
    ensures |Before(s, before, x)| <= |Before(r, before, x)|
  {
    SubsetCount(Before(s, before, x), Before(r, before, x));
  }

  /** What takes the place of namesakes that are no newer has rivals for all of theirs. */
  lemma RisingKeepsRivals<T(!new), I>(v: set<T>, s: set<T>, ident: T -> I, z: T, group: T -> string,
                                      compare: (T, T) -> int, x: T)
    requires OrdersSet(v, compare) && s <= v && z in v && Apart(s, ident) && Rises(s, ident, group, compare, z)
    requires x in s && ident(x) != ident(z)
    ensures |Before(s, Rivals(group, compare), x)| <= |Before(Arrive(s, ident, z), Rivals(group, compare), x)|
  {
    hide OrdersSet;
    var a, b := Before(s, Rivals(group, compare), x), Before(Arrive(s, ident, z), Rivals(group, compare), x);
    if w :| w in a && ident(w) == ident(z) {
      AtLeastTransitive(v, compare, z, w, x);
      assert a - {w} + {z} <= b;
      assert z !in a - {w};
      SubsetCount(a - {w} + {z}, b);
    } else {
      SubsetCount(a, b);
    }
  }

  /** What arrives takes the place of its namesakes, and the list is pruned. */
  lemma SettledStep<T(!new), I>(v: set<T>, s: set<T>, listed: set<T>, all: seq<T>, ident: T -> I, z: T, keep: int,
                                group: T -> string, compare: (T, T) -> int)
    requires OrdersSet(v, compare) && z in v && Settled(v, s, listed, keep, group, compare)
    requires Apart(s, ident) && Rises(s, ident, group, compare, z)
    requires Unrepeated(all) && Elements(all) == Arrive(listed, ident, z)
    ensures Settled(v, Arrive(s, ident, z), Elements(Retained(all, keep, group, compare)), keep, group, compare)
  {
    hide Retained, Unrepeated, OrdersSet, Upward, FullOrWhole, NewerThan, Before, Rivals, Apart, Rises;
    var more, r := Arrive(s, ident, z), Elements(Retained(all, keep, group, compare));
    RetainedUnrepeated(all, keep, group, compare);
    OrdersList(v, all, compare);
    SubsetOrders(v, s + {z}, compare);
    forall x | x in more && |Before(more, Rivals(group, compare), x)| < keep ensures x in r {
      MoreRivals(Elements(all), more, Rivals(group, compare), x);
      if x != z {
        RisingKeepsRivals(v, s, ident, z, group, compare, x);
      }
      CertainStays(all, keep, group, compare, x);
    }
    forall x | x in v ensures FullOrWhole(more, r, keep, NewerThan(group, compare, x)) {
      UpwardSets(v, group, compare, x);
      SubsetUpward(v, s + {z}, group, compare, NewerThan(group, compare, x));
      FullOrWholeStep(s, listed, all, ident, z, keep, group, compare, NewerThan(group, compare, x));
    }
    forall x | x in r ensures |Before(r, Newer(group, compare), x)| < keep {
      RetainedHasFewNewer(all, keep, group, compare, x);
      MoreRivals(r, Elements(all), Newer(group, compare), x);
    }
  }

  /** Starting again from some of what is listed. */
  lemma SettledAgain<T(!new)>(v: set<T>, s: set<T>, listed: set<T>, r: set<T>, keep: int, group: T -> string,
                              compare: (T, T) -> int)
    requires Settled(v, s, listed, keep, group, compare) && r <= listed
    ensures Settled(v, r, r, keep, group, compare)
  {
    forall x | x in r ensures |Before(r, Newer(group, compare), x)| < keep {
      MoreRivals(r, listed, Newer(group, compare), x);
    }
    forall x | x in v ensures FullOrWhole(r, r, keep, NewerThan(group, compare, x)) {
      assert Where(r, NewerThan(group, compare, x)) <= r;
    }
  }

  /** An arrival that takes nothing's place but its own. */
  lemma ItselfArrives<T(!new)>(v: set<T>, s: set<T>, l: seq<T>, z: T, group: T -> string, compare: (T, T) -> int)
    requires OrdersSet(v, compare) && s <= v && z in v && Unrepeated(l)
    ensures Apart(s, Itself) && Rises(s, Itself, group, compare, z) && Arrive(s, Itself, z) == s + {z}
    ensures Unrepeated(Joined(l, z)) && Elements(Joined(l, z)) == Arrive(Elements(l), Itself, z)
  {
    hide Joined, Unrepeated;
    JoinedAre(l, z);
    assert Arrive(s, Itself, z) == s + {z} && Arrive(Elements(l), Itself, z) == Elements(l) + {z};
  }

  lemma SubsetOrders<T(!new)>(v: set<T>, s: set<T>, compare: (T, T) -> int)
    requires OrdersSet(v, compare) && s <= v
    ensures OrdersSet(s, compare)
  {
  }

  lemma SubsetUpward<T(!new)>(v: set<T>, s: set<T>, group: T -> string, compare: (T, T) -> int, up: T -> bool)
    requires Upward(v, group, compare, up) && s <= v
    ensures Upward(s, group, compare, up)
  {
  }

  /** Whatever the order of arrival: items with fewer than keep rivals are listed, and only items with fewer than keep
      newer ones are. */
  lemma SettledBounds<T(!new)>(v: set<T>, s: set<T>, listed: set<T>, keep: int, group: T -> string,
                               compare: (T, T) -> int)
    requires Settled(v, s, listed, keep, group, compare)
    ensures Top(s, Rivals(group, compare), keep) <= listed <= Top(s, Newer(group, compare), keep)
  {
    forall x | x in listed ensures |Before(s, Newer(group, compare), x)| < keep {
      var up := NewerThan(group, compare, x);
      assert FullOrWhole(s, listed, keep, up);
      assert Where(listed, up) == Before(listed, Newer(group, compare), x);
      assert Where(s, up) == Before(s, Newer(group, compare), x);
      SubsetCount(Before(s, Newer(group, compare), x), Before(listed, Newer(group, compare), x));
    }
  }

  // ----- the bounds

  /** The items that fewer than keep others of their group are at least as new as. */
  ghost function Certain<T>(s: set<T>, keep: int, group: T -> string, compare: (T, T) -> int): set<T> {
    Top(s, Rivals(group, compare), keep)
  }

  /** The items that fewer than keep others of their group are newer than. */
  ghost function Possible<T>(s: set<T>, keep: int, group: T -> string, compare: (T, T) -> int): set<T> {
    Top(s, Newer(group, compare), keep)
  }

  /** An item that is among the newest keep or not as those equal to it count as newer or not. */
  ghost predicate AtCut<T>(s: set<T>, keep: int, group: T -> string, compare: (T, T) -> int, x: T) {
    && x in s
    && |Before(s, Newer(group, compare), x)| < keep <= |Before(s, Rivals(group, compare), x)|
  }

  ghost predicate TieAtCut<T>(s: set<T>, keep: int, group: T -> string, compare: (T, T) -> int) {
    exists x | x in s :: AtCut(s, keep, group, compare, x)
  }

  lemma NoTieAtCut<T>(s: set<T>, keep: int, group: T -> string, compare: (T, T) -> int)
    requires !TieAtCut(s, keep, group, compare)
    ensures Possible(s, keep, group, compare) <= Certain(s, keep, group, compare)
  {
    hide Newer, Rivals, Before;
    forall x | x in Possible(s, keep, group, compare) ensures x in Certain(s, keep, group, compare) {
      assert !AtCut(s, keep, group, compare, x);
    }
  }

  /** With room for one, a tie between two is at the cut. */
  lemma PairTies<T>(x: T, y: T, group: T -> string, compare: (T, T) -> int)
    requires x != y && group(x) == group(y) && compare(x, x) == 0 && compare(y, x) == 0
    ensures TieAtCut({x, y}, 1, group, compare)
  {
    assert Before({x, y}, Rivals(group, compare), x) == {y};
    assert Before({x, y}, Newer(group, compare), x) == {};
    assert AtCut({x, y}, 1, group, compare, x);
  }

  // ----- the lists that arrivals may leave

  ghost predicate After<T(!new)>(l: seq<T>, x: T, r: seq<T>, keep: int, group: T -> string, compare: (T, T) -> int) {
    multiset(r) == multiset(Retained(Joined(l, x), keep, group, compare))
  }

  ghost predicate Leaves<T(!new)>(xs: seq<T>, l: seq<T>, keep: int, group: T -> string, compare: (T, T) -> int) {
    if xs == [] then l == []
    else
      var front, x := xs[..|xs| - 1], xs[|xs| - 1];
      exists before :: Leaves(front, before, keep, group, compare) && After(before, x, l, keep, group, compare)
  }

  lemma LeavesSnoc<T(!new)>(xs: seq<T>, before: seq<T>, x: T, l: seq<T>, keep: int, group: T -> string,
                            compare: (T, T) -> int)
    requires Leaves(xs, before, keep, group, compare) && After(before, x, l, keep, group, compare)
    ensures Leaves(xs + [x], l, keep, group, compare)
  {
    hide After;
    assert (xs + [x])[..|xs|] == xs;
  }

  lemma LastStep<T(!new)>(xs: seq<T>, l: seq<T>, keep: int, group: T -> string, compare: (T, T) -> int)
      returns (before: seq<T>)
    requires xs != [] && Leaves(xs, l, keep, group, compare)
    ensures Leaves(xs[..|xs| - 1], before, keep, group, compare)
    ensures After(before, xs[|xs| - 1], l, keep, group, compare)
    ensures Elements(xs) == Elements(xs[..|xs| - 1]) + {xs[|xs| - 1]}
  {
    hide After;
    before :| Leaves(xs[..|xs| - 1], before, keep, group, compare) &&
              After(before, xs[|xs| - 1], l, keep, group, compare);
    assert xs == xs[..|xs| - 1] + [xs[|xs| - 1]];
  }

  lemma {:induction false} UnrepeatedCounts<T>(l: seq<T>)
    ensures Unrepeated(l) <==> forall x | x in l :: multiset(l)[x] == 1
  {
    if l != [] {
      var n := |l| - 1;
      var front, y := l[..n], l[n];
      UnrepeatedCounts(front);
      assert l == front + [y];
      forall x ensures x in front <==> multiset(front)[x] > 0 {
        assert x in front <==> x in multiset(front);
      }
      assert forall x :: multiset(l)[x] == multiset(front)[x] + if x == y then 1 else 0;
      assert Unrepeated(l) <==> Unrepeated(front) && y !in front;
      assert y in l && forall x :: x in l <==> x in front || x == y;
      hide Unrepeated;
      if forall x | x in l :: multiset(l)[x] == 1 {
        forall x | x in front ensures multiset(front)[x] == 1 {
          assert x in l;
        }
      }
    }
  }

  lemma ReorderedAre<T>(l: seq<T>, r: seq<T>)
    requires multiset(r) == multiset(l)
    ensures Elements(r) == Elements(l) && (Unrepeated(l) ==> Unrepeated(r))
  {
    UnrepeatedCounts(l);
    UnrepeatedCounts(r);
    forall x ensures x in r <==> x in l {
      assert x in r <==> x in multiset(r);
      assert x in l <==> x in multiset(l);
    }
  }

  lemma AfterAre<T(!new)>(l: seq<T>, x: T, r: seq<T>, keep: int, group: T -> string, compare: (T, T) -> int)
    requires Unrepeated(l) && After(l, x, r, keep, group, compare)
    ensures Unrepeated(r) && Elements(r) == Elements(Retained(Joined(l, x), keep, group, compare))
    ensures Elements(r) <= Elements(l) + {x}
  {
    hide Retained, Joined, Unrepeated;
    JoinedAre(l, x);
    RetainedUnrepeated(Joined(l, x), keep, group, compare);
    ReorderedAre(Retained(Joined(l, x), keep, group, compare), r);
  }

  lemma {:induction false} LeavesSettled<T(!new)>(v: set<T>, xs: seq<T>, l: seq<T>, keep: int, group: T -> string,
                                                  compare: (T, T) -> int)
    requires OrdersSet(v, compare) && Elements(xs) <= v && Leaves(xs, l, keep, group, compare)
    ensures Unrepeated(l) && Settled(v, Elements(xs), Elements(l), keep, group, compare)
    decreases |xs|
  {
    hide After, Retained, Joined, Settled, OrdersSet, Unrepeated;
    if xs == [] {
      NothingSettled(v, keep, group, compare);
      NothingThere<T>();
    } else {
      hide Leaves;
      var n := |xs| - 1;
      var before := LastStep(xs, l, keep, group, compare);
      LeavesSettled(v, xs[..n], before, keep, group, compare);
      ItselfArrives(v, Elements(xs[..n]), before, xs[n], group, compare);
      SettledStep(v, Elements(xs[..n]), Elements(before), Joined(before, xs[n]), Itself, xs[n], keep, group, compare);
      AfterAre(before, xs[n], l, keep, group, compare);
    }
  }

  lemma NothingThere<T>()
    ensures Elements<T>([]) == {} && Unrepeated<T>([])
  {
  }

  /** Whatever the order of arrival, what is listed lies between the bounds. */
  lemma LeavesWithinBounds<T(!new)>(xs: seq<T>, l: seq<T>, keep: int, group: T -> string, compare: (T, T) -> int)
    requires OrdersSet(Elements(xs), compare) && Leaves(xs, l, keep, group, compare)
    ensures Certain(Elements(xs), keep, group, compare) <= Elements(l)
    ensures Elements(l) <= Possible(Elements(xs), keep, group, compare)
  {
    hide Settled, OrdersSet, Leaves, Top, Elements;
    LeavesSettled(Elements(xs), xs, l, keep, group, compare);
    SettledBounds(Elements(xs), Elements(xs), Elements(l), keep, group, compare);
  }

  lemma {:induction false} LeavesFull<T(!new)>(v: set<T>, xs: seq<T>, l: seq<T>, keep: int, group: T -> string,
                                               compare: (T, T) -> int, up: T -> bool)
    requires OrdersSet(v, compare) && Elements(xs) <= v && Upward(v, group, compare, up)
    requires Leaves(xs, l, keep, group, compare)
    ensures FullOrWhole(Elements(xs), Elements(l), keep, up)
    decreases |xs|
  {
    hide After, Retained, Joined, FullOrWhole, OrdersSet, Unrepeated, Upward, Settled;
    if xs == [] {
      NothingThere<T>();
      NothingFull<T>(keep, up);
    } else {
      hide Leaves;
      var n := |xs| - 1;
      var before := LastStep(xs, l, keep, group, compare);
      LeavesFull(v, xs[..n], before, keep, group, compare, up);
      LeavesSettled(v, xs[..n], before, keep, group, compare);
      SettledWithin(v, Elements(xs[..n]), Elements(before), keep, group, compare);
      SubsetOrders(v, Elements(xs), compare);
      SubsetUpward(v, Elements(xs), group, compare, up);
      assert Elements(xs[..n]) <= v;
      ItselfArrives(v, Elements(xs[..n]), before, xs[n], group, compare);
      FullOrWholeStep(Elements(xs[..n]), Elements(before), Joined(before, xs[n]), Itself, xs[n], keep, group, compare,
                      up);
      AfterAre(before, xs[n], l, keep, group, compare);
    }
  }

  lemma NothingFull<T>(keep: int, up: T -> bool)
    ensures FullOrWhole({}, {}, keep, up)
  {
  }

  lemma SettledWithin<T>(v: set<T>, s: set<T>, listed: set<T>, keep: int, group: T -> string, compare: (T, T) -> int)
    requires Settled(v, s, listed, keep, group, compare)
    ensures listed <= s
  {
  }

  ghost predicate AllAre<T>(l: seq<T>, x: T) {
    forall w | w in l :: w == x
  }

  // ----- an item that arrives after all others

  lemma {:induction false} WithoutOther<T>(l: seq<T>, x: T)
    requires x !in l
    ensures Without(l, x) == l
  {
    if l != [] {
      WithoutOther(l[1..], x);
      assert l == [l[0]] + l[1..];
    }
  }

  /** The last of a list yields to items that are as new. */
  lemma LastYields<T(!new)>(l: seq<T>, x: T, keep: int, group: T -> string, compare: (T, T) -> int)
    requires Unrepeated(l) && x !in l && Orders(l + [x], compare)
    requires |Where(Elements(l), AtLeast(group, compare, x))| >= keep
    ensures x !in Retained(l + [x], keep, group, compare)
  {
    var all, n := l + [x], |l|;
    UnrepeatedSnoc(l, x);
    var a := Ahead(all, group, compare, n);
    ElementsAtCount(all, a);
    forall w | w in Where(Elements(l), AtLeast(group, compare, x)) ensures w in ElementsAt(all, a) {
      var j := IndexOf(l, w);
      assert all[j] == w && j in a;
    }
    SubsetCount(Where(Elements(l), AtLeast(group, compare, x)), ElementsAt(all, a));
    RetainedSurvives(all, keep, group, compare, n);
  }

  /** If keep of the others are as new, it goes. */
  lemma {:induction false} LastGoes<T(!new)>(v: set<T>, rest: seq<T>, last: seq<T>, l: seq<T>, x: T, keep: int,
                                             group: T -> string, compare: (T, T) -> int)
    requires OrdersSet(v, compare) && Elements(rest + last) <= v && x in v
    requires Leaves(rest + last, l, keep, group, compare)
    requires AllAre(last, x) && x !in rest
    requires |Where(Elements(rest), AtLeast(group, compare, x))| >= keep
    ensures x !in l
    decreases |last|
  {
    hide After, Retained, OrdersSet, Unrepeated, Settled, Upward, Without, Where, Leaves;
    if last == [] {
      assert rest + last == rest;
      LeavesSettled(v, rest, l, keep, group, compare);
      SettledWithin(v, Elements(rest), Elements(l), keep, group, compare);
      assert x !in Elements(rest);
      assert x !in Elements(l);
    } else {
      var n := |last| - 1;
      var front := rest + last[..n];
      assert last[n] in last && forall w | w in last[..n] :: w in last;
      assert rest + last == front + [x];
      assert (front + [x])[..|front + [x]| - 1] == front;
      var before := LastStep(front + [x], l, keep, group, compare);
      LastGoes(v, rest, last[..n], before, x, keep, group, compare);
      LeavesSettled(v, front, before, keep, group, compare);
      SettledWithin(v, Elements(front), Elements(before), keep, group, compare);
      UpwardSets(v, group, compare, x);
      LeavesFull(v, front, before, keep, group, compare, AtLeast(group, compare, x));
      EnoughListed(rest, front, before, x, keep, group, compare);
      WithoutOther(before, x);
      JoinedAre(before, x);
      OrdersList(v, before + [x], compare);
      LastYields(before, x, keep, group, compare);
      AfterAre(before, x, l, keep, group, compare);
      assert x !in Elements(l);
    }
  }

  lemma EnoughListed<T(!new)>(rest: seq<T>, front: seq<T>, l: seq<T>, x: T, keep: int, group: T -> string,
                              compare: (T, T) -> int)
    requires Elements(rest) <= Elements(front)
    requires FullOrWhole(Elements(front), Elements(l), keep, AtLeast(group, compare, x))
    requires |Where(Elements(rest), AtLeast(group, compare, x))| >= keep
    ensures |Where(Elements(l), AtLeast(group, compare, x))| >= keep
  {
    var up := AtLeast(group, compare, x);
    if Where(Elements(front), up) <= Elements(l) {
      assert Where(Elements(rest), up) <= Where(Elements(l), up);
      SubsetCount(Where(Elements(rest), up), Where(Elements(l), up));
    }
  }

  // ----- an item after which only ties arrive

  ghost function OfGroup<T>(group: T -> string, g: string): T -> bool {
    x => group(x) == g
  }

  lemma WhereOneMore<T>(s: set<T>, y: T, p: T -> bool)
    requires y !in s
    ensures |Where(s + {y}, p)| == |Where(s, p)| + if p(y) then 1 else 0
  {
    assert Where(s + {y}, p) == Where(s, p) + if p(y) then {y} else {};
  }

  lemma {:induction false} CountIsSize<T>(l: seq<T>, p: T -> bool)
    requires Unrepeated(l)
    ensures Count(l, p) == |Where(Elements(l), p)|
  {
    if l == [] {
      assert Where(Elements(l), p) == {};
    } else {
      hide Where;
      var front, y := l[..|l| - 1], l[|l| - 1];
      CountIsSize(front, p);
      assert l == front + [y];
      assert y !in front && Elements(l) == Elements(front) + {y};
      WhereOneMore(Elements(front), y, p);
    }
  }

  /** No group is listed more than keep times. */
  lemma LeavesCapped<T(!new)>(v: set<T>, xs: seq<T>, l: seq<T>, keep: int, group: T -> string, compare: (T, T) -> int,
                              g: string)
    requires OrdersSet(v, compare) && Elements(xs) <= v && Leaves(xs, l, keep, group, compare) && keep > 0
    ensures |Where(Elements(l), OfGroup(group, g))| <= keep
  {
    hide After, Retained, Joined, Unrepeated, OrdersSet, Settled, Count;
    if xs == [] {
      assert Where(Elements(l), OfGroup(group, g)) == {};
    } else {
      hide Leaves;
      var n := |xs| - 1;
      var before := LastStep(xs, l, keep, group, compare);
      LeavesSettled(v, xs[..n], before, keep, group, compare);
      SettledWithin(v, Elements(xs[..n]), Elements(before), keep, group, compare);
      AfterAre(before, xs[n], l, keep, group, compare);
      JoinedAre(before, xs[n]);
      OrdersList(v, Joined(before, xs[n]), compare);
      var kept := Retained(Joined(before, xs[n]), keep, group, compare);
      RetainedUnrepeated(Joined(before, xs[n]), keep, group, compare);
      Cap(Joined(before, xs[n]), keep, group, compare, g);
      CountIsSize(kept, InGroup(group, g));
      assert Where(Elements(l), OfGroup(group, g)) == Where(Elements(kept), InGroup(group, g));
    }
  }

  /** An arrival that ties with a listed item does not drive it out of a group within the cap. */
  lemma TieYields<T(!new)>(l: seq<T>, z: T, keep: int, group: T -> string, compare: (T, T) -> int, x: T)
    requires Unrepeated(l) && Orders(Joined(l, z), compare) && x in l && z != x
    requires group(z) == group(x) && compare(z, x) == 0
    requires |Where(Elements(l), OfGroup(group, group(x)))| <= keep
    ensures x in Retained(Joined(l, z), keep, group, compare)
  {
    hide Retained, Survives;
    var all, w := Joined(l, z), Where(Elements(l), OfGroup(group, group(x)));
    JoinedAre(l, z);
    WithoutAre(l, z);
    hide Without, Unrepeated;
    assert x in Elements(all);
    var i := IndexOf(all, x);
    RetainedSurvives(all, keep, group, compare, i);
    RankBelow(l, z, group, compare, x, i);
    assert |w - {x}| == |w| - 1;
    SubsetCount(ElementsAt(all, Ahead(all, group, compare, i)), w - {x});
    ElementsAtCount(all, Ahead(all, group, compare, i));
    SurvivesByRank(all, keep, group, compare, i);
  }

  lemma SurvivesByRank<T>(all: seq<T>, keep: int, group: T -> string, compare: (T, T) -> int, i: nat)
    requires i < |all|
    ensures Survives(all, keep, group, compare, i) <==> |Ahead(all, group, compare, i)| < keep
  {
    hide Precedes;
  }

  lemma RankBelow<T(!new)>(l: seq<T>, z: T, group: T -> string, compare: (T, T) -> int, x: T, i: nat)
    requires i < |Joined(l, z)| && Joined(l, z)[i] == x && z != x && compare(z, x) == 0
    requires Unrepeated(Joined(l, z)) && Orders(Joined(l, z), compare)
    ensures ElementsAt(Joined(l, z), Ahead(Joined(l, z), group, compare, i)) <=
            Where(Elements(l), OfGroup(group, group(x))) - {x}
  {
    var all := Joined(l, z);
    var a := Ahead(all, group, compare, i);
    assert x in all && compare(x, x) == 0;
    WithoutAre(l, z);
    hide Without;
    forall w | w in ElementsAt(all, a) ensures w in Where(Elements(l), OfGroup(group, group(x))) - {x} {
      var j :| j in a && all[j] == w;
      assert j != |all| - 1;
      assert all[j] == Without(l, z)[j];
      assert w in Without(l, z);
    }
  }

  lemma {:induction false} TiesYield<T(!new)>(v: set<T>, xs: seq<T>, ties: seq<T>, l: seq<T>, x: T, keep: int,
                                              group: T -> string, compare: (T, T) -> int)
    requires OrdersSet(v, compare) && Elements(xs + ties) <= v && keep > 0
    requires Leaves(xs + ties, l, keep, group, compare)
    requires x in xs && |Before(Elements(xs), Rivals(group, compare), x)| < keep
    requires forall w | w in ties :: w != x && group(w) == group(x) && compare(w, x) == 0
    ensures x in l
    decreases |ties|
  {
    hide After, Retained, OrdersSet, Unrepeated, Joined, Where, Leaves, Before;
    if ties == [] {
      assert xs + ties == xs;
      LeavesSettled(v, xs, l, keep, group, compare);
      assert x in Elements(xs);
      assert x in Elements(l);
    } else {
      var n := |ties| - 1;
      var front, z := xs + ties[..n], ties[n];
      assert xs + ties == front + [z] && z in ties;
      assert (front + [z])[..|front + [z]| - 1] == front;
      var before := LastStep(front + [z], l, keep, group, compare);
      TiesYield(v, xs, ties[..n], before, x, keep, group, compare);
      hide Settled;
      LeavesSettled(v, front, before, keep, group, compare);
      SettledWithin(v, Elements(front), Elements(before), keep, group, compare);
      LeavesCapped(v, front, before, keep, group, compare, group(x));
      JoinedAre(before, z);
      OrdersList(v, Joined(before, z), compare);
      TieYields(before, z, keep, group, compare, x);
      AfterAre(before, z, l, keep, group, compare);
      assert x in Elements(l);
    }
  }

  // ----- operations, some of which bring an arrival

  function Arrived<A, T>(ops: seq<A>, brings: A -> Option<T>): seq<T> {
    if ops == [] then []
    else
      var before, x := Arrived(ops[..|ops| - 1], brings), brings(ops[|ops| - 1]);
      if x.Some? then before + [x.value] else before
  }

  lemma ArrivedSnoc<A, T>(ops: seq<A>, op: A, brings: A -> Option<T>)
    ensures Arrived(ops + [op], brings) ==
            if brings(op).Some? then Arrived(ops, brings) + [brings(op).value] else Arrived(ops, brings)
  {
    assert (ops + [op])[..|ops|] == ops;
  }

  lemma {:induction false} ArrivedInTwo<A, T>(ops: seq<A>, more: seq<A>, brings: A -> Option<T>)
    ensures Arrived(ops + more, brings) == Arrived(ops, brings) + Arrived(more, brings)
  {
    if more == [] {
      assert ops + more == ops;
    } else {
      var n := |more| - 1;
      ArrivedInTwo(ops, more[..n], brings);
      assert (ops + more)[..|ops + more| - 1] == ops + more[..n];
    }
  }

  lemma {:induction false} ArrivedAre<A(!new), T(!new)>(ops: seq<A>, brings: A -> Option<T>)
    ensures forall x :: x in Arrived(ops, brings) <==> exists op :: op in ops && brings(op) == Some(x)
  {
    if ops != [] {
      var n := |ops| - 1;
      ArrivedAre(ops[..n], brings);
      forall x ensures x in Arrived(ops, brings) <==> exists op :: op in ops && brings(op) == Some(x) {
        if x in Arrived(ops[..n], brings) {
          var op :| op in ops[..n] && brings(op) == Some(x);
          assert op in ops;
        } else if x in Arrived(ops, brings) {
          assert brings(ops[n]) == Some(x) && ops[n] in ops;
        }
      }
    }
  }

  lemma ReorderedArrive<A(!new), T(!new)>(ops: seq<A>, other: seq<A>, brings: A -> Option<T>)
    requires multiset(other) == multiset(ops)
    ensures Elements(Arrived(other, brings)) == Elements(Arrived(ops, brings))
  {
    hide Arrived;
    ArrivedAre(ops, brings);
    ArrivedAre(other, brings);
    ReorderedAre(ops, other);
    forall op ensures op in other <==> op in ops {
      assert op in Elements(other) <==> op in Elements(ops);
    }
  }

  /** The operations that bring something of this kind, and all others, in their order. */
  function Bringing<A, T>(ops: seq<A>, brings: A -> Option<T>, kind: T -> bool): seq<A> {
    if ops == [] then []
    else
      var before, x := Bringing(ops[..|ops| - 1], brings, kind), brings(ops[|ops| - 1]);
      if x.Some? && kind(x.value) then before + [ops[|ops| - 1]] else before
  }

  function NotBringing<A, T>(ops: seq<A>, brings: A -> Option<T>, kind: T -> bool): seq<A> {
    if ops == [] then []
    else
      var before, x := NotBringing(ops[..|ops| - 1], brings, kind), brings(ops[|ops| - 1]);
      if x.Some? && kind(x.value) then before else before + [ops[|ops| - 1]]
  }

  lemma {:induction false} Divided<A, T>(ops: seq<A>, brings: A -> Option<T>, kind: T -> bool)
    ensures multiset(Bringing(ops, brings, kind)) + multiset(NotBringing(ops, brings, kind)) == multiset(ops)
  {
    if ops != [] {
      var n := |ops| - 1;
      Divided(ops[..n], brings, kind);
      assert ops == ops[..n] + [ops[n]];
    }
  }

  lemma {:induction false} DividedArrive<A, T>(ops: seq<A>, brings: A -> Option<T>, kind: T -> bool)
    ensures forall x | x in Arrived(Bringing(ops, brings, kind), brings) :: kind(x)
    ensures forall x | x in Arrived(NotBringing(ops, brings, kind), brings) :: !kind(x)
  {
    if ops != [] {
      var n := |ops| - 1;
      DividedArrive(ops[..n], brings, kind);
      ArrivedSnoc(Bringing(ops[..n], brings, kind), ops[n], brings);
      ArrivedSnoc(NotBringing(ops[..n], brings, kind), ops[n], brings);
    }
  }

  ghost function Being<T>(x: T): T -> bool {
    w => w == x
  }

  ghost function Tying<T>(group: T -> string, compare: (T, T) -> int, x: T): T -> bool {
    w => w != x && group(w) == group(x) && compare(w, x) == 0
  }

  /** In whatever order the operations run, the list is one that their arrivals may leave. */
  ghost predicate Lists<A(!new), T(!new)>(ops: seq<A>, brings: A -> Option<T>, run: seq<A> -> seq<T>, keep: int,
                                          group: T -> string, compare: (T, T) -> int) {
    forall other | multiset(other) == multiset(ops) ::
      Leaves(Arrived(other, brings), run(other), keep, group, compare)
  }

  lemma BringingInTwo<A(!new), T(!new)>(ops: seq<A>, brings: A -> Option<T>, kind: T -> bool)
    ensures multiset(NotBringing(ops, brings, kind) + Bringing(ops, brings, kind)) == multiset(ops)
    ensures Arrived(NotBringing(ops, brings, kind) + Bringing(ops, brings, kind), brings) ==
            Arrived(NotBringing(ops, brings, kind), brings) + Arrived(Bringing(ops, brings, kind), brings)
    ensures Elements(Arrived(NotBringing(ops, brings, kind), brings) + Arrived(Bringing(ops, brings, kind), brings)) ==
            Elements(Arrived(ops, brings))
  {
    hide NotBringing, Bringing, Arrived, Elements;
    var a, b := NotBringing(ops, brings, kind), Bringing(ops, brings, kind);
    Divided(ops, brings, kind);
    ArrivedInTwo(a, b, brings);
    ReorderedArrive(ops, a + b, brings);
  }

  /** What is at the cut is listed when all that ties with it comes last. */
  lemma ListedBeforeTies<A(!new), T(!new)>(ops: seq<A>, brings: A -> Option<T>, run: seq<A> -> seq<T>, keep: int,
                                           group: T -> string, compare: (T, T) -> int, x: T)
    requires keep > 0 && OrdersSet(Elements(Arrived(ops, brings)), compare)
    requires Lists(ops, brings, run, keep, group, compare)
    requires AtCut(Elements(Arrived(ops, brings)), keep, group, compare, x)
    ensures var tying := Tying(group, compare, x);
            x in run(NotBringing(ops, brings, tying) + Bringing(ops, brings, tying))
  {
    hide NotBringing, Bringing, Arrived, Leaves, OrdersSet;
    var s, tying := Elements(Arrived(ops, brings)), Tying(group, compare, x);
    var a, b := NotBringing(ops, brings, tying), Bringing(ops, brings, tying);
    BringingInTwo(ops, brings, tying);
    DividedArrive(ops, brings, tying);
    var xs, ties := Arrived(a, brings), Arrived(b, brings);
    assert x in xs + ties && !tying(x);
    assert Elements(xs) <= s;
    NewerAreRivals(s, Elements(xs), group, compare, x);
    TiesYield(s, xs, ties, run(a + b), x, keep, group, compare);
  }

  lemma NewerAreRivals<T(!new)>(s: set<T>, r: set<T>, group: T -> string, compare: (T, T) -> int, x: T)
    requires r <= s && forall w | w in r :: !Tying(group, compare, x)(w)
    ensures |Before(r, Rivals(group, compare), x)| <= |Before(s, Newer(group, compare), x)|
  {
    SubsetCount(Before(r, Rivals(group, compare), x), Before(s, Newer(group, compare), x));
  }

  /** And is not when it comes last itself. */
  lemma UnlistedAfterTies<A(!new), T(!new)>(ops: seq<A>, brings: A -> Option<T>, run: seq<A> -> seq<T>, keep: int,
                                            group: T -> string, compare: (T, T) -> int, x: T)
    requires keep > 0 && OrdersSet(Elements(Arrived(ops, brings)), compare)
    requires Lists(ops, brings, run, keep, group, compare)
    requires AtCut(Elements(Arrived(ops, brings)), keep, group, compare, x)
    ensures x !in run(NotBringing(ops, brings, Being(x)) + Bringing(ops, brings, Being(x)))
  {
    hide NotBringing, Bringing, Arrived, Leaves, OrdersSet;
    var s := Elements(Arrived(ops, brings));
    var a, b := NotBringing(ops, brings, Being(x)), Bringing(ops, brings, Being(x));
    BringingInTwo(ops, brings, Being(x));
    DividedArrive(ops, brings, Being(x));
    var rest, last := Arrived(a, brings), Arrived(b, brings);
    forall w | w in last ensures w == x {
      assert Being(x)(w);
    }
    assert x in rest ==> !Being(x)(x);
    RivalsAreRest(s, rest, last, group, compare, x);
    LastGoes(s, rest, last, run(a + b), x, keep, group, compare);
  }

  lemma RivalsAreRest<T(!new)>(s: set<T>, rest: seq<T>, last: seq<T>, group: T -> string, compare: (T, T) -> int, x: T)
    requires Elements(rest + last) == s && AllAre(last, x)
    ensures |Before(s, Rivals(group, compare), x)| <= |Where(Elements(rest), AtLeast(group, compare, x))|
  {
    var least := AtLeast(group, compare, x);
    forall w | w in Before(s, Rivals(group, compare), x) ensures w in Where(Elements(rest), least) {
      assert w in rest + last && w != x;
    }
    SubsetCount(Before(s, Rivals(group, compare), x), Where(Elements(rest), least));
  }

  /** The order of the operations decides what is listed exactly when there is a tie at the cut. */
  lemma OrderMattersExactlyForTies<A(!new), T(!new)>(ops: seq<A>, brings: A -> Option<T>, run: seq<A> -> seq<T>,
                                                     keep: int, group: T -> string, compare: (T, T) -> int)
    requires keep > 0 && OrdersSet(Elements(Arrived(ops, brings)), compare)
    requires Lists(ops, brings, run, keep, group, compare)
    ensures (exists other :: multiset(other) == multiset(ops) && Elements(run(other)) != Elements(run(ops)))
            <==> TieAtCut(Elements(Arrived(ops, brings)), keep, group, compare)
  {
    hide Arrived, Leaves, OrdersSet, Elements, AtCut, Bringing, NotBringing, Certain, Possible;
    var s := Elements(Arrived(ops, brings));
    if TieAtCut(s, keep, group, compare) {
      var x :| AtCut(s, keep, group, compare, x);
      var tying := Tying(group, compare, x);
      var early := NotBringing(ops, brings, tying) + Bringing(ops, brings, tying);
      var late := NotBringing(ops, brings, Being(x)) + Bringing(ops, brings, Being(x));
      ListedBeforeTies(ops, brings, run, keep, group, compare, x);
      UnlistedAfterTies(ops, brings, run, keep, group, compare, x);
      BringingInTwo(ops, brings, tying);
      BringingInTwo(ops, brings, Being(x));
      DifferentLists(run(early), run(late), x);
      var other := if Elements(run(early)) == Elements(run(ops)) then late else early;
      assert multiset(other) == multiset(ops) && Elements(run(other)) != Elements(run(ops));
    } else {
      NoTieAtCut(s, keep, group, compare);
      forall other | multiset(other) == multiset(ops)
        ensures Elements(run(other)) == Certain(s, keep, group, compare)
      {
        ReorderedArrive(ops, other, brings);
        LeavesWithinBounds(Arrived(other, brings), run(other), keep, group, compare);
      }
    }
  }

  lemma DifferentLists<T>(l: seq<T>, r: seq<T>, x: T)
    requires x in l && x !in r
    ensures Elements(l) != Elements(r)
  {
    assert x in Elements(l) && x !in Elements(r);
  }
}
