/**
 Finite sets under a strict order: the elements that fewer than keep others come before, and why keeping only
 those loses nothing when more elements arrive later.
 */
module Ranking {

  ghost predicate StrictOrder<T(!new)>(s: set<T>, before: (T, T) -> bool) {
    && (forall x | x in s :: !before(x, x))
    && (forall x, y, z | x in s && y in s && z in s :: before(x, y) && before(y, z) ==> before(x, z))
  }

  ghost function Before<T>(s: set<T>, before: (T, T) -> bool, x: T): set<T> {
    set w | w in s && before(w, x)
  }

  /** The elements that fewer than keep others come before. */
  ghost function Top<T>(s: set<T>, before: (T, T) -> bool, keep: int): set<T> {
    set x | x in s && |Before(s, before, x)| < keep
  }

  lemma {:induction false} SubsetCount<T>(s: set<T>, t: set<T>)
    requires s <= t
    ensures |s| <= |t|
    ensures |s| == |t| ==> s == t
  {
    if s != {} {
      var x :| x in s;
      SubsetCount(s - {x}, t - {x});
      assert s == (s - {x}) + {x} && t == (t - {x}) + {x};
    }
  }

  /** Whatever is left out of the top has at least keep elements of the top before it. */
  lemma {:induction false} TopIsFull<T(!new)>(s: set<T>, before: (T, T) -> bool, keep: int, x: T)
    requires StrictOrder(s, before)
    requires x in s && x !in Top(s, before, keep)
    ensures |Before(s, before, x) * Top(s, before, keep)| >= keep
    decreases |Before(s, before, x)|
  {
    var n, top := Before(s, before, x), Top(s, before, keep);
    if n <= top {
      assert n * top == n;
    } else {
      var y :| y in n && y !in top;
      var m := Before(s, before, y);
      assert m <= n;
      SubsetCount(m, n);
      assert y !in m;
      TopIsFull(s, before, keep, y);
      SubsetCount(m * top, n * top);
    }
  }

  /** A chain has an element that all its others come before. */
  lemma {:induction false} LastOfChain<T(!new)>(c: set<T>, before: (T, T) -> bool) returns (m: T)
    requires c != {} && StrictOrder(c, before)
    requires forall x, y | x in c && y in c && x != y :: before(x, y) || before(y, x)
    ensures m in c && forall x | x in c && x != m :: before(x, m)
    decreases |c|
  {
    m :| m in c;
    var rest := c - {m};
    if rest != {} {
      var k := LastOfChain(rest, before);
      if before(m, k) {
        m := k;
      }
    }
  }

  /** A chain within the top has at most keep elements. */
  lemma TopOfChain<T(!new)>(s: set<T>, before: (T, T) -> bool, keep: int, c: set<T>)
    requires StrictOrder(s, before)
    requires c <= Top(s, before, keep)
    requires forall x, y | x in c && y in c && x != y :: before(x, y) || before(y, x)
    ensures |c| <= if keep > 0 then keep else 0
  {
    if c != {} {
      var m := LastOfChain(c, before);
      SubsetCount(c - {m}, Before(s, before, m));
      assert c == (c - {m}) + {m};
    }
  }

  // ----- a stream of arrivals, each replacing what has its identity

  /** Of two that are kin one comes before the other, of any others neither does. */
  ghost predicate Chains<T(!new)>(s: set<T>, before: (T, T) -> bool, kin: T -> string) {
    && StrictOrder(s, before)
    && forall x, y | x in s && y in s && x != y :: before(x, y) || before(y, x) <==> kin(x) == kin(y)
  }

  /** No two have the same identity. */
  ghost predicate Apart<T(!new), I>(s: set<T>, ident: T -> I) {
    forall x, y | x in s && y in s && x != y :: ident(x) != ident(y)
  }

  ghost function Arrive<T(!new), I>(s: set<T>, ident: T -> I, x: T): set<T> {
    (set w | w in s && ident(w) != ident(x)) + {x}
  }

  /** An arrival, of the same kin as its namesakes, that leaves chains chains. */
  ghost predicate Joins<T(!new), I>(s: set<T>, before: (T, T) -> bool, kin: T -> string, ident: T -> I, x: T) {
    && Apart(s, ident) && Chains(s, before, kin) && Chains(Arrive(s, ident, x), before, kin)
    && forall w | w in s && ident(w) == ident(x) :: kin(w) == kin(x)
  }

  /** x takes the place of a namesake at the top, and comes after something that is not there. */
  ghost predicate Falls<T(!new), I>(s: set<T>, before: (T, T) -> bool, ident: T -> I, keep: int, x: T) {
    var top := Top(s, before, keep);
    exists w, y :: w in top && ident(w) == ident(x) && y in s && y !in top && before(y, x)
  }

  /** Unless x falls, what is outside the top has as much of the top before it when x has come as it had. */
  lemma StaysFull<T(!new), I>(s: set<T>, before: (T, T) -> bool, kin: T -> string, ident: T -> I, keep: int, x: T, y: T)
    requires Joins(s, before, kin, ident, x) && !Falls(s, before, ident, keep, x)
    requires y in s && y !in Top(s, before, keep) && ident(y) != ident(x)
    ensures |Before(Arrive(Top(s, before, keep), ident, x), before, y)| >= keep
  {
    var top := Top(s, before, keep);
    var a, b := Before(s, before, y) * top, Before(Arrive(top, ident, x), before, y);
    TopIsFull(s, before, keep, y);
    if w :| w in a && ident(w) == ident(x) {
      var h := Arrive(s, ident, x);
      assert kin(w) == kin(y) && y in h && x in h && y != x;
      assert before(x, y);
      assert a - {w} + {x} <= b;
      assert x !in a - {w};
      SubsetCount(a - {w} + {x}, b);
    } else {
      assert a <= b;
      SubsetCount(a, b);
    }
  }

  lemma TopOfMore<T(!new), I>(s: set<T>, before: (T, T) -> bool, kin: T -> string, ident: T -> I, keep: int, x: T, e: T)
    requires Joins(s, before, kin, ident, x) && !Falls(s, before, ident, keep, x)
    requires e in Arrive(Top(s, before, keep), ident, x)
    ensures |Before(Arrive(Top(s, before, keep), ident, x), before, e)| < keep <==>
            |Before(Arrive(s, ident, x), before, e)| < keep
  {
    var top := Top(s, before, keep);
    var t, h := Arrive(top, ident, x), Arrive(s, ident, x);
    var bt, bh := Before(t, before, e), Before(h, before, e);
    assert bt <= bh;
    SubsetCount(bt, bh);
    if y :| y in bh && y !in bt {
      StaysFull(s, before, kin, ident, keep, x, y);
      assert Before(t, before, y) <= bt;
      SubsetCount(Before(t, before, y), bt);
    } else {
      assert bt == bh;
    }
  }

  lemma UnlessItFalls<T(!new), I>(s: set<T>, before: (T, T) -> bool, kin: T -> string, ident: T -> I, keep: int, x: T)
    requires Joins(s, before, kin, ident, x) && !Falls(s, before, ident, keep, x)
    ensures Top(Arrive(Top(s, before, keep), ident, x), before, keep) == Top(Arrive(s, ident, x), before, keep)
  {
    var t, h := Arrive(Top(s, before, keep), ident, x), Arrive(s, ident, x);
    forall e | e in h ensures e in Top(t, before, keep) <==> e in Top(h, before, keep) {
      if e in t {
        TopOfMore(s, before, kin, ident, keep, x, e);
      } else {
        StaysFull(s, before, kin, ident, keep, x, e);
        SubsetCount(Before(t, before, e), Before(h, before, e));
      }
    }
  }

  /** Among what is not at the top and no later than y there is one with nothing but the top before it. */
  lemma {:induction false} FirstBelow<T(!new)>(s: set<T>, before: (T, T) -> bool, keep: int, y: T) returns (z: T)
    requires StrictOrder(s, before) && y in s && y !in Top(s, before, keep)
    ensures z in s && z !in Top(s, before, keep) && (z == y || before(z, y))
    ensures Before(s, before, z) <= Top(s, before, keep)
    decreases |Before(s, before, y)|
  {
    var n, top := Before(s, before, y), Top(s, before, keep);
    if n <= top {
      z := y;
    } else {
      var v :| v in n && v !in top;
      assert Before(s, before, v) <= n - {v};
      SubsetCount(Before(s, before, v), n - {v});
      z := FirstBelow(s, before, keep, v);
    }
  }

  /** Before the first that is not at the top are keep others, all at the top, and all their kin there among them. */
  lemma FirstBelowIs<T(!new)>(s: set<T>, before: (T, T) -> bool, kin: T -> string, keep: int, z: T, w: T)
    requires keep > 0 && Chains(s, before, kin) && z in s && z !in Top(s, before, keep)
    requires Before(s, before, z) <= Top(s, before, keep)
    requires w in Top(s, before, keep) && kin(w) == kin(z)
    ensures before(w, z) && |Before(s, before, z)| == keep
  {
    var n := Before(s, before, z);
    if before(z, w) {
      assert n + {z} <= Before(s, before, w);
      SubsetCount(n + {z}, Before(s, before, w));
    }
    forall u, v | u in n && v in n && u != v ensures before(u, v) || before(v, u) {
      assert u != z && v != z && kin(u) == kin(z) == kin(v);
    }
    TopOfChain(s, before, keep, n);
  }

  /** When x falls, what comes first below the top belongs to the top of all there is, and is not there any more. */
  lemma FallingLoses<T(!new), I>(s: set<T>, before: (T, T) -> bool, kin: T -> string, ident: T -> I, keep: int, x: T)
      returns (z: T)
    requires keep > 0 && Joins(s, before, kin, ident, x) && Falls(s, before, ident, keep, x)
    ensures z in Top(Arrive(s, ident, x), before, keep) && z !in Arrive(Top(s, before, keep), ident, x)
    ensures before(z, x)
  {
    hide Chains, StrictOrder;
    var top, h := Top(s, before, keep), Arrive(s, ident, x);
    var w, y :| w in top && ident(w) == ident(x) && y in s && y !in top && before(y, x);
    ChainsAre(s, before, kin);
    ChainsAre(h, before, kin);
    z := FirstBelow(s, before, keep, y);
    assert ident(z) != ident(x) && z in h && y in h && x in h;
    assert before(z, x) && z != x;
    FirstBelowIs(s, before, kin, keep, z, w);
    var n := Before(s, before, z);
    assert Before(h, before, z) <= n - {w};
    SubsetCount(Before(h, before, z), n - {w});
  }

  /** And x itself stays, in the place it has taken. */
  lemma FallenStays<T(!new), I>(s: set<T>, before: (T, T) -> bool, kin: T -> string, ident: T -> I, keep: int, x: T)
    requires keep > 0 && Joins(s, before, kin, ident, x) && Falls(s, before, ident, keep, x)
    ensures x in Top(Arrive(Top(s, before, keep), ident, x), before, keep)
  {
    hide Chains, StrictOrder;
    var top, t := Top(s, before, keep), Arrive(Top(s, before, keep), ident, x);
    var w :| w in top && ident(w) == ident(x);
    var c := set u | u in top && kin(u) == kin(x);
    ChainsAre(s, before, kin);
    ChainsAre(Arrive(s, ident, x), before, kin);
    TopOfChain(s, before, keep, c);
    assert Before(t, before, x) <= c - {w};
    SubsetCount(Before(t, before, x), c - {w});
  }

  lemma ChainsAre<T(!new)>(s: set<T>, before: (T, T) -> bool, kin: T -> string)
    requires Chains(s, before, kin)
    ensures StrictOrder(s, before)
    ensures forall x, y | x in s && y in s && before(x, y) :: x != y && kin(x) == kin(y) && !before(y, x)
    ensures forall x, y | x in s && y in s && x != y && kin(x) == kin(y) :: before(x, y) || before(y, x)
    ensures forall x, y, z | x in s && y in s && z in s && before(x, y) && before(y, z) :: before(x, z)
  {
  }

  /** Taking the top after every arrival is taking the top once at the end, exactly as long as nothing falls. */
  lemma StreamStepExact<T(!new), I>(s: set<T>, before: (T, T) -> bool, kin: T -> string, ident: T -> I, keep: int, x: T)
    requires keep > 0 && Joins(s, before, kin, ident, x)
    ensures Top(Arrive(Top(s, before, keep), ident, x), before, keep) == Top(Arrive(s, ident, x), before, keep) <==>
            !Falls(s, before, ident, keep, x)
  {
    if Falls(s, before, ident, keep, x) {
      var z := FallingLoses(s, before, kin, ident, keep, x);
    } else {
      UnlessItFalls(s, before, kin, ident, keep, x);
    }
  }

  /** Nothing falls that does not come after a namesake. */
  lemma RisingNeverFalls<T(!new), I>(s: set<T>, before: (T, T) -> bool, kin: T -> string, ident: T -> I, keep: int,
                                     x: T)
    requires Joins(s, before, kin, ident, x)
    requires forall w, y | w in s && ident(w) == ident(x) && y in s && before(y, x) :: before(y, w)
    ensures !Falls(s, before, ident, keep, x)
  {
    var top := Top(s, before, keep);
    forall w, y | w in top && ident(w) == ident(x) && y in s && y !in top ensures !before(y, x) {
      if before(y, x) {
        assert Before(s, before, y) <= Before(s, before, w);
        SubsetCount(Before(s, before, y), Before(s, before, w));
      }
    }
  }

  lemma TopSubset<T>(s: set<T>, before: (T, T) -> bool, keep: int)
    ensures Top(s, before, keep) <= s
    ensures Top({}, before, keep) == {}
  {
  }
}
