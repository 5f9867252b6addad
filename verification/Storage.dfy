/**
 internal/storage/storage.go: the object store, and the sequences of writes that publishing consists of.
 */
module Storage {
  import opened Wrappers
  import opened Text

  /** What a bucket holds. */
  type Bucket = map<string, string>

  /** A change to a bucket: the unit between two of which a publisher may be cut off. */
  datatype Step = Put(key: string, body: string) | Delete(key: string)

  function ApplyStep(b: Bucket, s: Step): Bucket {
    match s
    case Put(key, body) => b[key := body]
    case Delete(key) => b - {key}
  }

  function Apply(b: Bucket, steps: seq<Step>): Bucket {
    if steps == [] then b else ApplyStep(Apply(b, steps[..|steps| - 1]), steps[|steps| - 1])
  }

  lemma {:induction false} ApplyConcat(b: Bucket, x: seq<Step>, y: seq<Step>)
    ensures Apply(b, x + y) == Apply(Apply(b, x), y)
  {
    if y == [] {
      assert x + y == x;
    } else {
      var s, t := y[|y| - 1], y[..|y| - 1];
      ApplyConcat(b, x, t);
      assert (x + y)[..|x + y| - 1] == x + t && (x + y)[|x + y| - 1] == s;
    }
  }

  lemma ApplyNothing(b: Bucket)
    ensures Apply(b, []) == b
  {
  }

  lemma ApplyOne(b: Bucket, s: Step)
    ensures Apply(b, [s]) == ApplyStep(b, s)
    ensures Apply(b, []) == b
  {
    assert [s][..0] == [];
  }

  function Deletes(keys: seq<string>): (r: seq<Step>)
    ensures |r| == |keys|
    ensures forall i :: 0 <= i < |keys| ==> r[i] == Delete(keys[i])
  {
    seq(|keys|, i requires 0 <= i < |keys| => Delete(keys[i]))
  }

  /** Deleting one key after the other removes exactly those keys. */
  lemma {:induction false} ApplyDeletes(b: Bucket, keys: seq<string>)
    ensures Apply(b, Deletes(keys)) == b - Elements(keys)
  {
    if keys != [] {
      var k, rest := keys[|keys| - 1], keys[..|keys| - 1];
      ApplyDeletes(b, rest);
      assert Deletes(keys)[..|keys| - 1] == Deletes(rest);
      assert keys == rest + [k];
      assert Elements(keys) == Elements(rest) + {k};
      assert b - Elements(keys) == (b - Elements(rest)) - {k};
    } else {
      assert Deletes(keys) == [];
      assert Elements(keys) == {};
    }
  }

  // ----- writing over what has been written

  ghost function KeysOf(steps: seq<Step>): set<string> {
    set s | s in steps :: s.key
  }

  ghost predicate OnlyPuts(steps: seq<Step>) {
    forall s | s in steps :: s.Put?
  }

  /** The buckets agree on a key. */
  predicate Same(b: Bucket, c: Bucket, key: string) {
    (key in b <==> key in c) && (key in b ==> b[key] == c[key])
  }

  ghost predicate AgreeOutside(b: Bucket, c: Bucket, keys: set<string>) {
    forall k | k !in keys :: Same(b, c, k)
  }

  /** Steps touch their own keys only. */
  lemma {:induction false} StepsAgree(b: Bucket, steps: seq<Step>)
    ensures AgreeOutside(b, Apply(b, steps), KeysOf(steps))
  {
    if steps != [] {
      var n := |steps| - 1;
      StepsAgree(b, steps[..n]);
      assert steps == steps[..n] + [steps[n]];
      forall k | k !in KeysOf(steps) ensures Same(b, Apply(b, steps), k) {
        assert Same(b, Apply(b, steps[..n]), k);
      }
    }
  }

  /** Writes make buckets agree on the keys they write. */
  lemma {:induction false} PutsAgree(b: Bucket, c: Bucket, steps: seq<Step>, keys: set<string>)
    requires OnlyPuts(steps) && AgreeOutside(b, c, keys)
    ensures AgreeOutside(Apply(b, steps), Apply(c, steps), keys - KeysOf(steps))
  {
    if steps == [] {
      assert KeysOf(steps) == {};
      assert keys - {} == keys;
    } else {
      var n := |steps| - 1;
      assert steps == steps[..n] + [steps[n]];
      PutsAgree(b, c, steps[..n], keys);
      assert KeysOf(steps) == KeysOf(steps[..n]) + {steps[n].key};
      forall k | k !in keys - KeysOf(steps) ensures Same(Apply(b, steps), Apply(c, steps), k) {
        if k != steps[n].key {
          assert Same(Apply(b, steps[..n]), Apply(c, steps[..n]), k);
        }
      }
    }
  }

  /** What is absent stays so until it is written. */
  lemma {:induction false} StaysAbsent(b: Bucket, steps: seq<Step>, key: string)
    requires key !in b && forall s | s in steps && s.Put? :: s.key != key
    ensures key !in Apply(b, steps)
  {
    if steps != [] {
      var n := |steps| - 1;
      StaysAbsent(b, steps[..n], key);
      assert steps[n] in steps;
    }
  }

  /** What is written stays until its key is touched again. */
  lemma {:induction false} LastWrite(b: Bucket, steps: seq<Step>, i: nat)
    requires i < |steps| && steps[i].Put? && forall m :: i < m < |steps| ==> steps[m].key != steps[i].key
    ensures var x := Apply(b, steps); steps[i].key in x && x[steps[i].key] == steps[i].body
  {
    var n := |steps| - 1;
    if i < n {
      LastWrite(b, steps[..n], i);
    }
  }

  /** Of two keys written one after the other, and only then, the second is never new beside an old first one. */
  lemma WrittenAfter(b: Bucket, steps: seq<Step>, i: nat, j: nat, k: nat)
    requires i < j < |steps| && k <= |steps| && steps[i].Put? && steps[j].Put?
    requires forall m :: 0 <= m < |steps| && m != j ==> steps[m].key != steps[j].key
    requires forall m :: i < m < |steps| ==> steps[m].key != steps[i].key
    ensures var x := Apply(b, steps[..k]);
            || Same(b, x, steps[j].key)
            || (steps[i].key in x && x[steps[i].key] == steps[i].body &&
                steps[j].key in x && x[steps[j].key] == steps[j].body)
  {
    if k <= j {
      StepsAgree(b, steps[..k]);
    } else {
      LastWrite(b, steps[..k], i);
      LastWrite(b, steps[..k], j);
    }
  }

  lemma SameBucket(b: Bucket, c: Bucket)
    requires AgreeOutside(b, c, {})
    ensures b == c
  {
    forall k | k in b || k in c ensures k in b && k in c && b[k] == c[k] {
      assert Same(b, c, k);
    }
  }

  /** The steps an operation takes, and whether it runs to its end rather than into an error. */
  datatype Plan = Plan(steps: seq<Step>, complete: bool)

  function Then(p: Plan, q: Plan): Plan {
    if p.complete then Plan(p.steps + q.steps, q.complete) else p
  }

  predicate Has(b: Bucket, key: string, body: string) {
    key in b && b[key] == body
  }

  function Keys(b: Bucket, prefix: string): set<string> {
    set k | k in b && HasPrefix(k, prefix)
  }

  /** A listing names every key once, in an order of the backend's choosing. */
  ghost predicate Enumerates(listing: set<string> -> seq<string>) {
    && (forall s, k :: k in listing(s) <==> k in s)
    && (forall s, i, j :: 0 <= i < j < |listing(s)| ==> listing(s)[i] != listing(s)[j])
  }

  datatype StoreError = NotExist | Backend

  /** Where a run has got to that follows the given steps: after some of them, or after all. */
  ghost predicate Follows(b0: Bucket, tr0: seq<Step>, b: Bucket, tr: seq<Step>, steps: seq<Step>) {
    tr0 <= tr <= tr0 + steps && b == Apply(b0, tr[|tr0|..])
  }

  ghost predicate Finishes(b0: Bucket, tr0: seq<Step>, b: Bucket, tr: seq<Step>, steps: seq<Step>) {
    tr == tr0 + steps && b == Apply(b0, steps)
  }

  lemma FollowsNothing(b0: Bucket, tr0: seq<Step>, steps: seq<Step>)
    ensures Follows(b0, tr0, b0, tr0, steps)
    ensures Finishes(b0, tr0, b0, tr0, [])
  {
    assert tr0[|tr0|..] == [];
    assert tr0 + [] == tr0;
  }

  lemma FinishesFollows(b0: Bucket, tr0: seq<Step>, b: Bucket, tr: seq<Step>, steps: seq<Step>)
    requires Finishes(b0, tr0, b, tr, steps)
    ensures Follows(b0, tr0, b, tr, steps)
  {
    assert tr[|tr0|..] == steps;
  }

  lemma FinishesThen(b0: Bucket, tr0: seq<Step>, b1: Bucket, tr1: seq<Step>, b: Bucket, tr: seq<Step>, x: seq<Step>,
                     y: seq<Step>)
    requires Finishes(b0, tr0, b1, tr1, x)
    ensures Finishes(b1, tr1, b, tr, y) ==> Finishes(b0, tr0, b, tr, x + y)
    ensures Follows(b1, tr1, b, tr, y) ==> Follows(b0, tr0, b, tr, x + y)
  {
    assert (tr0 + x) + y == tr0 + (x + y);
    ApplyConcat(b0, x, y);
    if Follows(b1, tr1, b, tr, y) {
      var z := tr[|tr1|..];
      ApplyConcat(b0, x, z);
      assert tr == tr1 + z;
      assert tr[|tr0|..] == x + z;
    }
  }

  lemma FollowsMore(b0: Bucket, tr0: seq<Step>, b: Bucket, tr: seq<Step>, x: seq<Step>, y: seq<Step>)
    requires Follows(b0, tr0, b, tr, x)
    ensures Follows(b0, tr0, b, tr, x + y)
  {
    assert tr0 + (x + y) == (tr0 + x) + y;
  }

  /** What has been read besides is among these keys or below one of these directories. */
  ghost predicate ReadsBelow(before: set<string>, after: set<string>, keys: set<string>, dirs: set<string>) {
    forall k | k in after && k !in before && k !in keys :: exists d :: d in dirs && HasPrefix(k, d)
  }

  lemma ReadsKey(before: set<string>, after: set<string>, keys: set<string>, dirs: set<string>, key: string)
    requires ReadsBelow(before, after, keys, dirs)
    ensures key in keys || (exists d :: d in dirs && HasPrefix(key, d)) ==>
            ReadsBelow(before, after + {key}, keys, dirs)
  {
    hide HasPrefix;
  }

  lemma ReadsThen(before: set<string>, middle: set<string>, after: set<string>, keys: set<string>, dirs: set<string>,
                  dir: string)
    requires ReadsBelow(before, middle, keys, dirs) && ReadsBelow(middle, after, {}, {dir}) && dir in dirs
    ensures ReadsBelow(before, after, keys, dirs)
  {
    hide HasPrefix;
  }

  /**
   A backend. It serves `calls` more calls and then fails every one, which is how a publisher is cut off at an
   arbitrary point; a failing call changes nothing.
   */
  class Store {
    var objects: Bucket
    var calls: nat
    ghost var trace: seq<Step>
    /** The keys and prefixes that have been read from it. */
    ghost var asked: set<string>
    const listing: set<string> -> seq<string>

    constructor (objects: Bucket, calls: nat, listing: set<string> -> seq<string>)
      ensures this.objects == objects && this.calls == calls && this.listing == listing && trace == [] && asked == {}
    {
      this.objects := objects;
      this.calls := calls;
      this.listing := listing;
      trace := [];
      asked := {};
    }

    method Put(key: string, body: string) returns (ok: bool)
      modifies this
      ensures ok == (old(calls) > 0) && (!ok ==> calls == 0)
      ensures ok ==> Finishes(old(objects), old(trace), objects, trace, [Step.Put(key, body)])
      ensures !ok ==> objects == old(objects) && trace == old(trace)
      ensures asked == old(asked)
    {
      if calls == 0 {
        return false;
      }
      calls := calls - 1;
      ApplyOne(objects, Step.Put(key, body));
      objects := objects[key := body];
      trace := trace + [Step.Put(key, body)];
      return true;
    }

    method Delete(key: string) returns (ok: bool)
      modifies this
      ensures ok == (old(calls) > 0) && (!ok ==> calls == 0)
      ensures ok ==> Finishes(old(objects), old(trace), objects, trace, [Step.Delete(key)])
      ensures !ok ==> objects == old(objects) && trace == old(trace)
      ensures asked == old(asked)
    {
      if calls == 0 {
        return false;
      }
      calls := calls - 1;
      ApplyOne(objects, Step.Delete(key));
      objects := objects - {key};
      trace := trace + [Step.Delete(key)];
      return true;
    }

    method Get(key: string) returns (r: Result<string, StoreError>)
      modifies this`calls, this`asked
      ensures old(calls) > 0 ==> r == if key in objects then Ok(objects[key]) else Err(NotExist)
      ensures old(calls) == 0 ==> r == Err(Backend) && calls == 0
      ensures asked == old(asked) + {key}
    {
      asked := asked + {key};
      if calls == 0 {
        return Err(Backend);
      }
      calls := calls - 1;
      return if key in objects then Ok(objects[key]) else Err(NotExist);
    }

    /** The keys of the listed objects; no caller looks at the sizes that come with them. */
    method List(prefix: string) returns (r: Result<seq<string>, StoreError>)
      modifies this`calls, this`asked
      ensures old(calls) > 0 ==> r == Ok(listing(Keys(objects, prefix)))
      ensures old(calls) == 0 ==> r == Err(Backend) && calls == 0
      ensures asked == old(asked) + {prefix}
    {
      asked := asked + {prefix};
      if calls == 0 {
        return Err(Backend);
      }
      calls := calls - 1;
      return Ok(listing(Keys(objects, prefix)));
    }
  }
}
