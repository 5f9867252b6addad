/**
 Lexicographic comparison of sequences in which a missing element reads as a fixed padding value.
 Both version orders are instances of it.
 */
module Lexicographic {

  /** cmp is a total order whose results are signed like those of `strings.Compare`. */
  ghost predicate TotalOrder<T(!new)>(cmp: (T, T) -> int) {
    && (forall x, y :: cmp(x, y) == 0 <==> x == y)
    && (forall x, y :: cmp(x, y) == -cmp(y, x))
    && (forall x, y, z :: cmp(x, y) <= 0 && cmp(y, z) <= 0 ==> cmp(x, z) <= 0)
  }

  function Head<T>(s: seq<T>, pad: T): T {
    if s == [] then pad else s[0]
  }

  function Tail<T>(s: seq<T>): seq<T> {
    if s == [] then [] else s[1..]
  }

  /** The first difference of the two padded sequences decides. */
  function Padded<T>(s: seq<T>, t: seq<T>, pad: T, cmp: (T, T) -> int): int
    decreases |s| + |t|
  {
    if |s| == 0 && |t| == 0 then 0
    else
      var c := cmp(Head(s, pad), Head(t, pad));
      if c != 0 then c else Padded(Tail(s), Tail(t), pad, cmp)
  }

  /** s without its trailing padding. */
  function Trim<T(==)>(s: seq<T>, pad: T): (r: seq<T>)
    ensures r <= s
    ensures r == [] || r[|r| - 1] != pad
    ensures forall i :: |r| <= i < |s| ==> s[i] == pad
  {
    if s == [] || s[|s| - 1] != pad then s else Trim(s[..|s| - 1], pad)
  }

  function At<T>(s: seq<T>, pad: T, i: nat): T {
    if i < |s| then s[i] else pad
  }

  /** One step of the comparison, valid beyond the end of both sequences as well. */
  lemma PaddedStep<T(!new)>(s: seq<T>, t: seq<T>, pad: T, cmp: (T, T) -> int)
    requires cmp(pad, pad) == 0
    ensures var c := cmp(Head(s, pad), Head(t, pad));
            Padded(s, t, pad, cmp) == if c != 0 then c else Padded(Tail(s), Tail(t), pad, cmp)
  {
  }

  /** What both sequences begin with does not matter. */
  lemma {:induction false} PaddedFront<T(!new)>(u: seq<T>, s: seq<T>, t: seq<T>, pad: T, cmp: (T, T) -> int)
    requires TotalOrder(cmp)
    ensures Padded(u + s, u + t, pad, cmp) == Padded(s, t, pad, cmp)
  {
    if u == [] {
      assert u + s == s && u + t == t;
    } else {
      assert (u + s)[1..] == u[1..] + s && (u + t)[1..] == u[1..] + t;
      PaddedFront(u[1..], s, t, pad, cmp);
    }
  }

  lemma {:induction false} PaddedAntisymmetric<T(!new)>(s: seq<T>, t: seq<T>, pad: T, cmp: (T, T) -> int)
    requires TotalOrder(cmp)
    ensures Padded(s, t, pad, cmp) == -Padded(t, s, pad, cmp)
    decreases |s| + |t|
  {
    if s != [] || t != [] {
      PaddedAntisymmetric(Tail(s), Tail(t), pad, cmp);
    }
  }

  lemma {:induction false} PaddedTransitive<T(!new)>(s: seq<T>, t: seq<T>, u: seq<T>, pad: T, cmp: (T, T) -> int)
    requires TotalOrder(cmp)
    requires Padded(s, t, pad, cmp) <= 0 && Padded(t, u, pad, cmp) <= 0
    ensures Padded(s, u, pad, cmp) <= 0
    decreases |s| + |t| + |u|
  {
    if |s| + |t| + |u| > 0 {
      var x, y, z := Head(s, pad), Head(t, pad), Head(u, pad);
      assert cmp(x, y) <= 0 && cmp(y, z) <= 0;
      if x == y == z {
        PaddedTransitive(Tail(s), Tail(t), Tail(u), pad, cmp);
      }
    }
  }

  /** The comparison is 0 exactly when the padded sequences agree at every position. */
  lemma {:induction false} PaddedZeroAt<T(!new)>(s: seq<T>, t: seq<T>, pad: T, cmp: (T, T) -> int)
    requires TotalOrder(cmp)
    ensures Padded(s, t, pad, cmp) == 0 <==> forall i: nat :: At(s, pad, i) == At(t, pad, i)
    decreases |s| + |t|
  {
    if s != [] || t != [] {
      PaddedZeroAt(Tail(s), Tail(t), pad, cmp);
      assert forall i: nat :: At(Tail(s), pad, i) == At(s, pad, i + 1) && At(Tail(t), pad, i) == At(t, pad, i + 1);
      if forall i: nat :: At(s, pad, i) == At(t, pad, i) {
        assert At(s, pad, 0) == At(t, pad, 0);
      }
      if Padded(s, t, pad, cmp) == 0 {
        forall i: nat ensures At(s, pad, i) == At(t, pad, i) {
          if i > 0 {
            assert At(Tail(s), pad, i - 1) == At(Tail(t), pad, i - 1);
          }
        }
      }
    }
  }

  /** Padded sequences without trailing padding agree only when they are as long as each other. */
  lemma SameLength<T>(u: seq<T>, v: seq<T>, pad: T)
    requires u == [] || u[|u| - 1] != pad
    requires v == [] || v[|v| - 1] != pad
    requires forall i: nat :: At(u, pad, i) == At(v, pad, i)
    ensures |u| == |v|
  {
    var i: nat := if u == [] then 0 else |u| - 1;
    var k: nat := if v == [] then 0 else |v| - 1;
    assert At(u, pad, i) == At(v, pad, i) && At(u, pad, k) == At(v, pad, k);
  }

  /** The comparison is 0 exactly when the sequences agree up to trailing padding. */
  lemma PaddedZero<T(!new)>(s: seq<T>, t: seq<T>, pad: T, cmp: (T, T) -> int)
    requires TotalOrder(cmp)
    ensures Padded(s, t, pad, cmp) == 0 <==> Trim(s, pad) == Trim(t, pad)
  {
    PaddedZeroAt(s, t, pad, cmp);
    var u, v := Trim(s, pad), Trim(t, pad);
    assert forall i: nat :: At(u, pad, i) == At(s, pad, i) && At(v, pad, i) == At(t, pad, i);
    if forall i: nat :: At(s, pad, i) == At(t, pad, i) {
      assert forall i: nat :: At(u, pad, i) == At(v, pad, i);
      SameLength(u, v, pad);
      assert forall i :: 0 <= i < |u| ==> u[i] == At(u, pad, i) && v[i] == At(v, pad, i);
      assert u == v;
    }
  }

  /** Trailing padding never matters. */
  lemma PaddedTrim<T(!new)>(s: seq<T>, t: seq<T>, pad: T, cmp: (T, T) -> int)
    requires TotalOrder(cmp)
    ensures Padded(Trim(s, pad), Trim(t, pad), pad, cmp) == Padded(s, t, pad, cmp)
  {
    assert forall i: nat :: At(Trim(s, pad), pad, i) == At(s, pad, i) && At(Trim(t, pad), pad, i) == At(t, pad, i);
    PaddedDependsOnAt(s, t, Trim(s, pad), Trim(t, pad), pad, cmp);
  }

  lemma {:induction false} PaddedDependsOnAt<T(!new)>(s: seq<T>, t: seq<T>, u: seq<T>, v: seq<T>, pad: T,
                                                      cmp: (T, T) -> int)
    requires TotalOrder(cmp)
    requires forall i: nat :: At(s, pad, i) == At(u, pad, i) && At(t, pad, i) == At(v, pad, i)
    ensures Padded(s, t, pad, cmp) == Padded(u, v, pad, cmp)
    decreases |s| + |t| + |u| + |v|
  {
    if |s| + |t| + |u| + |v| > 0 {
      assert At(s, pad, 0) == At(u, pad, 0) && At(t, pad, 0) == At(v, pad, 0);
      forall i: nat
        ensures At(Tail(s), pad, i) == At(Tail(u), pad, i) && At(Tail(t), pad, i) == At(Tail(v), pad, i)
      {
        assert At(s, pad, i + 1) == At(u, pad, i + 1) && At(t, pad, i + 1) == At(v, pad, i + 1);
      }
      PaddedDependsOnAt(Tail(s), Tail(t), Tail(u), Tail(v), pad, cmp);
    }
  }
}
