/**
 Sorting by a string, as `slices.Sort` and `slices.SortFunc` do it, and the one sorted listing a set has.
 */
module Sorting {
  import opened Wrappers
  import opened Text

  ghost predicate Ascending(xs: seq<string>) {
    forall i, j :: 0 <= i < j < |xs| ==> Compare(xs[i], xs[j]) < 0
  }

  lemma CompareSame(x: string)
    ensures Compare(x, x) == 0
  {
  }

  /** The place of x among ascending strings, a repeated string being dropped. */
  function Insert(xs: seq<string>, x: string): seq<string> {
    if xs == [] then [x]
    else if Compare(x, xs[0]) < 0 then [x] + xs
    else if x == xs[0] then xs
    else [xs[0]] + Insert(xs[1..], x)
  }

  lemma {:induction false} InsertAscending(xs: seq<string>, x: string)
    requires Ascending(xs)
    ensures Ascending(Insert(xs, x))
    ensures Elements(Insert(xs, x)) == Elements(xs) + {x}
  {
    hide Compare, Ascending, Elements;
    InsertStep(xs, x);
    if xs == [] {
      SingleAscending(x);
    } else {
      TailElements(xs);
      if Compare(x, xs[0]) < 0 {
        HeadBelow(xs, x);
        ConsAscending(x, xs);
      } else if x != xs[0] {
        CompareAntisymmetric(x, xs[0]);
        CompareSame(xs[0]);
        InsertAscending(xs[1..], x);
        HeadBelow(xs, xs[0]);
        ConsAscending(xs[0], Insert(xs[1..], x));
      }
    }
  }

  lemma InsertStep(xs: seq<string>, x: string)
    ensures Insert(xs, x) ==
            if xs == [] then [x]
            else if Compare(x, xs[0]) < 0 then [x] + xs
            else if x == xs[0] then xs
            else [xs[0]] + Insert(xs[1..], x)
  {
    hide Compare;
  }

  lemma SingleAscending(x: string)
    ensures Ascending([x]) && Elements([x]) == {x} && Elements<string>([]) == {}
  {
  }

  /** Whatever is not above the first of an ascending listing is below all the others. */
  lemma HeadBelow(xs: seq<string>, x: string)
    requires xs != [] && Ascending(xs) && (x == xs[0] || Compare(x, xs[0]) < 0)
    ensures forall y | y in Elements(xs) && y != xs[0] :: Compare(x, y) < 0
  {
    hide Compare;
    forall y | y in Elements(xs) && y != xs[0] ensures Compare(x, y) < 0 {
      var i :| 0 < i < |xs| && xs[i] == y;
      if x != xs[0] {
        Below(x, xs[0], y);
      }
    }
  }

  lemma ConsAscending(x: string, xs: seq<string>)
    requires Ascending(xs) && forall y | y in Elements(xs) :: Compare(x, y) < 0
    ensures Ascending([x] + xs) && Elements([x] + xs) == {x} + Elements(xs)
  {
    hide Compare;
    assert forall j :: 0 <= j < |xs| ==> xs[j] in Elements(xs);
  }

  lemma Below(x: string, y: string, z: string)
    requires Compare(x, y) < 0 && Compare(y, z) < 0
    ensures Compare(x, z) < 0
  {
    CompareTransitive(x, y, z);
    CompareAntisymmetric(x, y);
    CompareAntisymmetric(y, z);
  }

  /** Ascending listings of the same strings are the same listing. */
  lemma {:induction false} AscendingUnique(xs: seq<string>, ys: seq<string>)
    requires Ascending(xs) && Ascending(ys)
    requires Elements(xs) == Elements(ys)
    ensures xs == ys
    decreases |xs|
  {
    hide Compare;
    assert xs != [] ==> xs[0] in Elements(xs);
    assert ys != [] ==> ys[0] in Elements(ys);
    if xs != [] {
      FirstIsLeast(xs, ys);
      FirstIsLeast(ys, xs);
      CompareAntisymmetric(xs[0], ys[0]);
      TailElements(xs);
      TailElements(ys);
      AscendingUnique(xs[1..], ys[1..]);
    }
  }

  lemma FirstIsLeast(xs: seq<string>, ys: seq<string>)
    requires xs != [] && ys != [] && Ascending(xs) && ys[0] in Elements(xs)
    ensures Compare(xs[0], ys[0]) <= 0
  {
    hide Compare;
    var i :| 0 <= i < |xs| && xs[i] == ys[0];
    CompareSame(xs[0]);
  }

  lemma TailElements(xs: seq<string>)
    requires xs != [] && Ascending(xs)
    ensures Ascending(xs[1..]) && Elements(xs[1..]) == Elements(xs) - {xs[0]} && xs[0] in Elements(xs)
  {
    hide Compare;
    assert xs == [xs[0]] + xs[1..];
    forall j | 0 < j < |xs| ensures xs[j] != xs[0] {
      assert Compare(xs[0], xs[j]) < 0;
      CompareSame(xs[0]);
    }
  }

  lemma {:induction false} SortedExists(s: set<string>)
    ensures exists xs :: Ascending(xs) && Elements(xs) == s
  {
    if s == {} {
      var none: seq<string> := [];
      assert Ascending(none) && Elements(none) == s;
    } else {
      var x :| x in s;
      SortedExists(s - {x});
      var xs :| Ascending(xs) && Elements(xs) == s - {x};
      InsertAscending(xs, x);
      assert Elements(Insert(xs, x)) == s;
    }
  }

  /** The strings of a set in byte order. */
  ghost function Sorted(s: set<string>): (xs: seq<string>)
    ensures Ascending(xs) && Elements(xs) == s
  {
    SortedExists(s);
    var xs :| Ascending(xs) && Elements(xs) == s;
    xs
  }

  lemma SortedIs(s: set<string>, xs: seq<string>)
    requires Ascending(xs) && Elements(xs) == s
    ensures Sorted(s) == xs
  {
    AscendingUnique(Sorted(s), xs);
  }

  /** `sortedKeys`: the keys of a set, collected in any order and sorted. */
  method SortedKeys(s: set<string>) returns (keys: seq<string>)
    ensures keys == Sorted(s)
  {
    keys := [];
    var rest := s;
    while rest != {}
      invariant rest <= s && Ascending(keys) && Elements(keys) == s - rest
      decreases rest
    {
      var k :| k in rest;
      rest := rest - {k};
      InsertAscending(keys, k);
      keys := Insert(keys, k);
      assert Elements(keys) == s - rest;
    }
    SortedIs(s, keys);
  }
}
