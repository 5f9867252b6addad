/**
 Programs that make one store call at a time, two of them taking turns on one bucket in any order. When each keeps to
 keys of its own, each fares as if it were alone.
 */
module Interleaving {
  import opened Wrappers
  import opened Text
  import opened Storage

  /** What is left of a program: its next store call, and how it goes on with what the call returns. */
  datatype Program =
    | Done
    | Write(step: Step, next: Program)
    | Read(key: string, got: Option<string> -> Program)
    | Look(prefix: string, found: set<string> -> Program)

  datatype State = State(program: Program, bucket: Bucket)

  function Lookup(b: Bucket, key: string): Option<string> {
    if key in b then Some(b[key]) else None
  }

  /** One store call. */
  function Turn(p: Program, b: Bucket): State {
    match p
    case Done => State(Done, b)
    case Write(step, next) => State(next, ApplyStep(b, step))
    case Read(key, got) => State(got(Lookup(b, key)), b)
    case Look(prefix, found) => State(found(Keys(b, prefix)), b)
  }

  /** The program alone on the bucket, for so many calls. */
  function Alone(p: Program, b: Bucket, n: nat): State {
    if n == 0 then State(p, b)
    else
      var s := Alone(p, b, n - 1);
      Turn(s.program, s.bucket)
  }

  /** The next call of p concerns only keys of the region. */
  ghost predicate Within(p: Program, region: string -> bool) {
    match p
    case Done => true
    case Write(step, next) => region(step.key)
    case Read(key, got) => region(key)
    case Look(prefix, found) => forall k :: HasPrefix(k, prefix) ==> region(k)
  }

  /** All calls that p makes when it is alone on b concern only keys of the region. */
  ghost predicate KeepsTo(p: Program, b: Bucket, region: string -> bool) {
    forall n: nat :: Within(Alone(p, b, n).program, region)
  }

  ghost function Part(b: Bucket, region: string -> bool): Bucket {
    map k | k in b && region(k) :: b[k]
  }

  // ----- two programs

  datatype Pair = Pair(left: Program, right: Program, bucket: Bucket)

  /** Two programs on one bucket; the schedule says whose call comes next. */
  function Together(p: Program, q: Program, b: Bucket, schedule: seq<bool>): Pair {
    if schedule == [] then Pair(p, q, b)
    else
      var s := Together(p, q, b, schedule[..|schedule| - 1]);
      if schedule[|schedule| - 1] then
        var x := Turn(s.left, s.bucket);
        Pair(x.program, s.right, x.bucket)
      else
        var y := Turn(s.right, s.bucket);
        Pair(s.left, y.program, y.bucket)
  }

  function Turns(schedule: seq<bool>, who: bool): nat {
    if schedule == [] then 0
    else Turns(schedule[..|schedule| - 1], who) + if schedule[|schedule| - 1] == who then 1 else 0
  }

  ghost predicate Disjoint(r: string -> bool, s: string -> bool) {
    forall k :: !(r(k) && s(k))
  }

  lemma SamePart(b: Bucket, c: Bucket, region: string -> bool)
    ensures Part(b, region) == Part(c, region) <==>
              forall k | region(k) :: (k in b <==> k in c) && (k in b ==> b[k] == c[k])
  {
    if Part(b, region) == Part(c, region) {
      forall k | region(k) ensures (k in b <==> k in c) && (k in b ==> b[k] == c[k]) {
        assert k in Part(b, region) <==> k in Part(c, region);
      }
    }
  }

  /** A call sees and changes only the part of the bucket that it concerns. */
  lemma TurnIsLocal(p: Program, b: Bucket, c: Bucket, region: string -> bool)
    requires Within(p, region) && Part(b, region) == Part(c, region)
    ensures Turn(p, b).program == Turn(p, c).program
    ensures Part(Turn(p, b).bucket, region) == Part(Turn(p, c).bucket, region)
  {
    hide HasPrefix, Part;
    SamePart(b, c, region);
    SamePart(Turn(p, b).bucket, Turn(p, c).bucket, region);
    match p
    case Done =>
    case Write(step, next) =>
    case Read(key, got) => assert Lookup(b, key) == Lookup(c, key);
    case Look(prefix, found) => assert Keys(b, prefix) == Keys(c, prefix);
  }

  lemma TurnLeaves(p: Program, b: Bucket, region: string -> bool, other: string -> bool)
    requires Within(p, region) && Disjoint(region, other)
    ensures Part(Turn(p, b).bucket, other) == Part(b, other)
  {
    hide Part;
    SamePart(Turn(p, b).bucket, b, other);
  }

  ghost predicate Neither(r: string -> bool, s: string -> bool, k: string) {
    !r(k) && !s(k)
  }

  lemma TurnOutside(p: Program, b: Bucket, region: string -> bool)
    requires Within(p, region)
    ensures forall k | !region(k) :: (k in Turn(p, b).bucket <==> k in b) && (k in b ==> Turn(p, b).bucket[k] == b[k])
  {
  }

  /** Whatever the schedule: each program is where it would be alone after as many calls, and so is its part of the
      bucket; the rest of the bucket is as it was. */
  lemma {:induction false} EachAsIfAlone(p: Program, q: Program, b: Bucket, schedule: seq<bool>, r: string -> bool,
                                         s: string -> bool)
    requires Disjoint(r, s) && KeepsTo(p, b, r) && KeepsTo(q, b, s)
    ensures var z := Together(p, q, b, schedule);
            var x := Alone(p, b, Turns(schedule, true));
            var y := Alone(q, b, Turns(schedule, false));
            && z.left == x.program && Part(z.bucket, r) == Part(x.bucket, r)
            && z.right == y.program && Part(z.bucket, s) == Part(y.bucket, s)
            && forall k | Neither(r, s, k) :: (k in z.bucket <==> k in b) && (k in b ==> z.bucket[k] == b[k])
  {
    hide Turn, Part, Within;
    if schedule != [] {
      var n := |schedule| - 1;
      var front := schedule[..n];
      EachAsIfAlone(p, q, b, front, r, s);
      var z := Together(p, q, b, front);
      var x, y := Alone(p, b, Turns(front, true)), Alone(q, b, Turns(front, false));
      if schedule[n] {
        TurnIsLocal(z.left, z.bucket, x.bucket, r);
        TurnLeaves(z.left, z.bucket, r, s);
        TurnOutside(z.left, z.bucket, r);
      } else {
        TurnIsLocal(z.right, z.bucket, y.bucket, s);
        TurnLeaves(z.right, z.bucket, s, r);
        TurnOutside(z.right, z.bucket, s);
      }
    }
  }

  // ----- what a program does alone

  /** From p on b, n calls within the region lead to q on c. */
  ghost predicate ReachesIn(n: nat, p: Program, b: Bucket, q: Program, c: Bucket, region: string -> bool) {
    Alone(p, b, n) == State(q, c) && forall i: nat | i < n :: Within(Alone(p, b, i).program, region)
  }

  ghost predicate Reaches(p: Program, b: Bucket, q: Program, c: Bucket, region: string -> bool) {
    exists n: nat :: ReachesIn(n, p, b, q, c, region)
  }

  lemma {:induction false} AloneMore(p: Program, b: Bucket, m: nat, n: nat)
    ensures var s := Alone(p, b, m); Alone(p, b, m + n) == Alone(s.program, s.bucket, n)
  {
    hide Turn;
    if n > 0 {
      AloneMore(p, b, m, n - 1);
    }
  }

  lemma ReachesItself(p: Program, b: Bucket, region: string -> bool)
    ensures Reaches(p, b, p, b, region)
  {
    assert ReachesIn(0, p, b, p, b, region);
  }

  lemma ReachesThen(p: Program, b: Bucket, q: Program, c: Bucket, r: Program, d: Bucket, region: string -> bool)
    requires Reaches(p, b, q, c, region) && Reaches(q, c, r, d, region)
    ensures Reaches(p, b, r, d, region)
  {
    hide Within, Alone;
    var m: nat :| ReachesIn(m, p, b, q, c, region);
    var n: nat :| ReachesIn(n, q, c, r, d, region);
    AloneMore(p, b, m, n);
    forall i: nat | i < m + n ensures Within(Alone(p, b, i).program, region) {
      if i >= m {
        AloneMore(p, b, m, i - m);
      }
    }
    assert ReachesIn(m + n, p, b, r, d, region);
  }

  lemma ReachesNext(p: Program, b: Bucket, region: string -> bool)
    requires Within(p, region)
    ensures Reaches(p, b, Turn(p, b).program, Turn(p, b).bucket, region)
  {
    hide Within, Turn;
    assert Alone(p, b, 0) == State(p, b);
    assert Alone(p, b, 1) == Turn(p, b);
    assert ReachesIn(1, p, b, Turn(p, b).program, Turn(p, b).bucket, region);
  }

  /** Steps one after the other, then the rest of the program. */
  function Writes(steps: seq<Step>, next: Program): Program {
    if steps == [] then next else Write(steps[0], Writes(steps[1..], next))
  }

  lemma {:induction false} WritesReach(steps: seq<Step>, next: Program, b: Bucket, region: string -> bool)
    requires forall s | s in steps :: region(s.key)
    ensures Reaches(Writes(steps, next), b, next, Apply(b, steps), region)
  {
    hide Apply, Reaches;
    if steps == [] {
      ApplyOne(b, Delete(""));
      ReachesItself(next, b, region);
    } else {
      var s, rest := steps[0], steps[1..];
      assert s in steps && forall x | x in rest :: x in steps;
      ReachesNext(Writes(steps, next), b, region);
      WritesReach(rest, next, ApplyStep(b, s), region);
      ApplyOne(b, s);
      ApplyConcat(b, [s], rest);
      assert steps == [s] + rest;
      ReachesThen(Writes(steps, next), b, Writes(rest, next), ApplyStep(b, s), next, Apply(b, steps), region);
    }
  }

  lemma {:induction false} DoneStays(b: Bucket, n: nat)
    ensures Alone(Done, b, n) == State(Done, b)
  {
    if n > 0 {
      DoneStays(b, n - 1);
    }
  }

  /** A program that comes to its end within the region keeps to the region. */
  lemma ReachesEnd(p: Program, b: Bucket, c: Bucket, region: string -> bool) returns (n: nat)
    requires Reaches(p, b, Done, c, region)
    ensures KeepsTo(p, b, region)
    ensures Alone(p, b, n) == State(Done, c)
    ensures forall m: nat | Alone(p, b, m).program == Done :: Alone(p, b, m) == State(Done, c)
  {
    hide Alone;
    n :| ReachesIn(n, p, b, Done, c, region);
    forall m: nat ensures Within(Alone(p, b, m).program, region) {
      if m >= n {
        AloneMore(p, b, n, m - n);
        DoneStays(c, m - n);
      }
    }
    forall m: nat | Alone(p, b, m).program == Done ensures Alone(p, b, m) == State(Done, c) {
      if m >= n {
        AloneMore(p, b, n, m - n);
        DoneStays(c, m - n);
      } else {
        AloneMore(p, b, m, n - m);
        DoneStays(Alone(p, b, m).bucket, n - m);
      }
    }
  }

  /** What a program within the region makes of an empty bucket lies in the region. */
  lemma {:induction false} MadeWithin(p: Program, region: string -> bool, n: nat)
    requires KeepsTo(p, map[], region)
    ensures forall k | k in Alone(p, map[], n).bucket :: region(k)
  {
    hide Turn, Within;
    if n > 0 {
      MadeWithin(p, region, n - 1);
      var s := Alone(p, map[], n - 1);
      TurnOutside(s.program, s.bucket, region);
    }
  }

  /** Two programs that share an empty bucket, each with its own keys: however they take turns, once each has had enough
      of them, the bucket holds what one alone would have made of it and what the other alone would have. */
  lemma BothToTheEnd(p: Program, q: Program, b: Bucket, c: Bucket, r: string -> bool,
                     s: string -> bool) returns (m: nat, n: nat)
    requires Disjoint(r, s) && Reaches(p, map[], Done, b, r) && Reaches(q, map[], Done, c, s)
    ensures forall schedule | Turns(schedule, true) >= m && Turns(schedule, false) >= n ::
              Together(p, q, map[], schedule) == Pair(Done, Done, b + c)
  {
    hide Reaches, Alone, Together, Part, Turns, KeepsTo;
    m := ReachesEnd(p, map[], b, r);
    n := ReachesEnd(q, map[], c, s);
    MadeWithin(p, r, m);
    MadeWithin(q, s, n);
    forall schedule | Turns(schedule, true) >= m && Turns(schedule, false) >= n
      ensures Together(p, q, map[], schedule) == Pair(Done, Done, b + c)
    {
      var x, y := Turns(schedule, true), Turns(schedule, false);
      AloneMore(p, map[], m, x - m);
      AloneMore(q, map[], n, y - n);
      DoneStays(b, x - m);
      DoneStays(c, y - n);
      EachAsIfAlone(p, q, map[], schedule, r, s);
      var z := Together(p, q, map[], schedule).bucket;
      SamePart(z, b, r);
      SamePart(z, c, s);
      assert z == b + c by {
        forall k ensures (k in z <==> k in b + c) && (k in z ==> z[k] == (b + c)[k]) {
          assert Neither(r, s, k) || r(k) || s(k);
        }
      }
    }
  }
}
