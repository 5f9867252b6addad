/**
 How the operations of the publishers end: a plan carried out in full, or cut off after some of its writes.
 */
module Outcome {
  import opened Wrappers
  import opened Storage

  datatype PublishError = BackendFailed | BadPackage | BadState | SigningFailed

  /** How an operation ends: with its plan done, stopped by the backend, or stopped by what the plan ran into. */
  ghost predicate Ends(p: Plan, b0: Bucket, tr0: seq<Step>, b: Bucket, tr: seq<Step>, calls: nat,
                       e: Option<PublishError>) {
    match e
    case None => p.complete && Finishes(b0, tr0, b, tr, p.steps)
    case Some(BackendFailed) => calls == 0 && Follows(b0, tr0, b, tr, p.steps)
    case Some(_) => !p.complete && Finishes(b0, tr0, b, tr, p.steps)
  }

  /** One operation after another that has run to its end. */
  lemma EndsThen(p: Plan, q: Plan, b0: Bucket, tr0: seq<Step>, b1: Bucket, tr1: seq<Step>,
                 b: Bucket, tr: seq<Step>, calls: nat, e: Option<PublishError>)
    requires p.complete && Finishes(b0, tr0, b1, tr1, p.steps)
    requires Ends(q, b1, tr1, b, tr, calls, e)
    ensures Ends(Then(p, q), b0, tr0, b, tr, calls, e)
  {
    FinishesThen(b0, tr0, b1, tr1, b, tr, p.steps, q.steps);
  }

  /** An operation that has been stopped does not get to what follows it. */
  lemma EndsEarly(p: Plan, q: Plan, b0: Bucket, tr0: seq<Step>, b: Bucket, tr: seq<Step>, calls: nat, e: PublishError)
    requires Ends(p, b0, tr0, b, tr, calls, Some(e))
    ensures Ends(Then(p, q), b0, tr0, b, tr, calls, Some(e))
  {
    if e == BackendFailed {
      FollowsMore(b0, tr0, b, tr, p.steps, q.steps);
    }
  }

  lemma Idle(b: Bucket, tr: seq<Step>, calls: nat)
    ensures Ends(Plan([], true), b, tr, b, tr, calls, None)
  {
    FollowsNothing(b, tr, []);
  }

  lemma FinishesAt(b0: Bucket, tr0: seq<Step>, b: Bucket, tr: seq<Step>, steps: seq<Step>)
    requires Finishes(b0, tr0, b, tr, steps)
    ensures b == Apply(b0, steps)
  {
  }

  lemma FinishesLength(b0: Bucket, tr0: seq<Step>, b: Bucket, tr: seq<Step>, steps: seq<Step>)
    requires Finishes(b0, tr0, b, tr, steps)
    ensures |tr| == |tr0| + |steps|
  {
  }

  lemma EndsLater(p: Plan, b0: Bucket, tr0: seq<Step>, b: Bucket, tr: seq<Step>, calls: nat, e: Option<PublishError>)
    requires Ends(p, b0, tr0, b, tr, calls, e)
    ensures |tr0| <= |tr| <= |tr0| + |p.steps|
  {
  }

  /** However an operation ends, it has made the first so many of its writes; all of them if it succeeds. */
  lemma EndsAtPrefix(p: Plan, b0: Bucket, tr0: seq<Step>, b: Bucket, tr: seq<Step>, calls: nat,
                     e: Option<PublishError>) returns (k: nat)
    requires Ends(p, b0, tr0, b, tr, calls, e)
    ensures k <= |p.steps| && b == Apply(b0, p.steps[..k])
    ensures e.None? ==> p.complete && k == |p.steps|
  {
    k := |p.steps|;
    assert p.steps[..k] == p.steps;
    if e == Some(BackendFailed) {
      k := |tr| - |tr0|;
      assert tr[|tr0|..] == p.steps[..k];
    }
  }

  /** Cut off while the steps x of the steps y are done. */
  lemma StoppedAt(b0: Bucket, tr0: seq<Step>, b: Bucket, tr: seq<Step>, x: seq<Step>, y: seq<Step>, calls: nat)
    requires calls == 0 && x <= y && Finishes(b0, tr0, b, tr, x)
    ensures Ends(Plan(y, true), b0, tr0, b, tr, calls, Some(BackendFailed))
  {
    hide Finishes, Follows;
    FinishesFollows(b0, tr0, b, tr, x);
    FollowsMore(b0, tr0, b, tr, x, y[|x|..]);
    assert x + y[|x|..] == y;
  }

  lemma AllDone(b0: Bucket, tr0: seq<Step>, b: Bucket, tr: seq<Step>, calls: nat, steps: seq<Step>)
    requires Finishes(b0, tr0, b, tr, steps)
    ensures Ends(Plan(steps, true), b0, tr0, b, tr, calls, None)
  {
  }

  lemma Completed(p: Plan, b0: Bucket, tr0: seq<Step>, b: Bucket, tr: seq<Step>, calls: nat)
    requires Ends(p, b0, tr0, b, tr, calls, None)
    ensures p.complete && Finishes(b0, tr0, b, tr, p.steps)
  {
  }

  lemma Stuck(p: Plan, b0: Bucket, tr0: seq<Step>, b: Bucket, tr: seq<Step>, calls: nat)
    requires !p.complete && Finishes(b0, tr0, b, tr, p.steps)
    ensures Ends(p, b0, tr0, b, tr, calls, Some(SigningFailed))
    ensures Ends(p, b0, tr0, b, tr, calls, Some(BadState))
  {
  }

  lemma Unstarted(p: Plan, b0: Bucket, tr0: seq<Step>, calls: nat, e: PublishError)
    requires (e == BackendFailed && calls == 0) || (e == BadState && p == Plan([], false))
    ensures Ends(p, b0, tr0, b0, tr0, calls, Some(e))
  {
    FollowsNothing(b0, tr0, p.steps);
  }
}
