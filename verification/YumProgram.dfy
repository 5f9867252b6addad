/**
 The yum publisher as a program of single store calls, which alone on a bucket does what its plans say.
 */
module YumProgram {
  import opened Wrappers
  import opened Text
  import opened Storage
  import opened Yum
  import opened YumKeys
  import opened YumPublisher
  import opened YumSafety
  import opened YumState
  import opened YumRuns
  import opened YumHealing
  import opened Interleaving

  predicate YumRegion(key: string) {
    HasPrefix(key, "Packages/") || HasPrefix(key, "repodata/")
  }

  function CleanupProgram(listing: set<string> -> seq<string>, keep: set<string>, next: Program): Program {
    Look("repodata/", keys => Writes(Deletes(Stale(listing(keys), keep)), next))
  }

  function PublishProgram(t: Tools, cfg: Config, listing: set<string> -> seq<string>, entries: seq<Entry>, ts: int,
                          next: Program): Program {
    var l := t.sort(entries);
    var write := WritePlan(t, cfg, l, ts);
    Writes(write.steps, if write.complete then CleanupProgram(listing, Hrefs(t, l), next) else next)
  }

  function DropProgram(t: Tools, cfg: Config, listing: set<string> -> seq<string>, drop: seq<Entry>, keep: seq<Entry>,
                       ts: int, next: Program): Program {
    Writes(Deletes(Locations(drop)), PublishProgram(t, cfg, listing, keep, ts, next))
  }

  function StateFrom(t: Tools, got: Option<string>): Option<seq<Entry>> {
    if got.None? then Some([]) else t.decodeState(got.value)
  }

  function UpdateProgram(t: Tools, cfg: Config, listing: set<string> -> seq<string>, e: Entry, ts: int,
                         next: Program): Program {
    Read(STATE_KEY, got =>
      var existing := StateFrom(t, got);
      if existing.None? then next
      else
        var all := ReplaceOrAppend(existing.value, e);
        DropProgram(t, cfg, listing, RemovedOf(cfg, all), KeptOf(cfg, all), ts, next))
  }

  function RemoveProgram(t: Tools, cfg: Config, listing: set<string> -> seq<string>, name: string, version: string,
                         ts: int, next: Program): Program {
    Read(STATE_KEY, got =>
      var existing := StateFrom(t, got);
      if existing.None? || Matching(existing.value, name, version) == [] then next
      else
        DropProgram(t, cfg, listing, Matching(existing.value, name, version), Without(existing.value, name, version),
                    ts, next))
  }

  /** One operation, and then the program that follows it, however the operation ends. */
  function OpProgram(t: Tools, cfg: Config, listing: set<string> -> seq<string>, op: Op, next: Program): Program {
    match op
    case AddOp(data, ts) =>
      var p := ParseRpm(t, data);
      if p.None? then next
      else Write(Put(PoolPath(p.value.header), data), UpdateProgram(t, cfg, listing, EntryOf(p.value), ts, next))
    case RemoveOp(name, version, ts) => RemoveProgram(t, cfg, listing, name, version, ts, next)
  }

  function RunProgram(t: Tools, cfg: Config, listing: set<string> -> seq<string>, ops: seq<Op>): Program {
    if ops == [] then Done else OpProgram(t, cfg, listing, ops[0], RunProgram(t, cfg, listing, ops[1..]))
  }

  // ----- alone, the program carries out the plans

  /** Whatever the publisher's methods Add and Remove read is the publisher's own, too. */
  lemma ReadsInRegion(before: set<string>, after: set<string>)
    requires after <= before + {STATE_KEY, "repodata/"}
    ensures forall k | k in after && k !in before :: YumRegion(k)
  {
    hide IsMetadataFile;
    FixedKeys();
  }

  lemma TouchedInRegion(cfg: Config, key: string)
    requires Touched(cfg, key)
    ensures YumRegion(key)
  {
    hide HasPrefix, IsMetadataFile;
    FixedKeys();
  }

  lemma PublishesInRegion(t: Tools, cfg: Config, l: seq<Entry>, steps: seq<Step>)
    requires PublishesOnly(t, cfg, l, steps)
    ensures forall s | s in steps :: YumRegion(s.key)
  {
    hide Touched, YumRegion;
    forall s | s in steps ensures YumRegion(s.key) {
      TouchedInRegion(cfg, s.key);
    }
  }

  lemma CleanupReaches(t: Tools, cfg: Config, b: Bucket, listing: set<string> -> seq<string>, l: seq<Entry>,
                       next: Program)
    requires Enumerates(listing)
    ensures Reaches(CleanupProgram(listing, Hrefs(t, l), next), b, next,
                    Apply(b, CleanupSteps(b, listing, Hrefs(t, l))), YumRegion)
  {
    hide Reaches, Writes, Stale, Hrefs, PublishesOnly, Apply, HasPrefix;
    var p, keep := CleanupProgram(listing, Hrefs(t, l), next), Hrefs(t, l);
    var steps := CleanupSteps(b, listing, keep);
    ReachesNext(p, b, YumRegion);
    CleanupPublishes(t, cfg, l, b, listing, keep);
    PublishesInRegion(t, cfg, l, steps);
    WritesReach(steps, next, b, YumRegion);
    ReachesThen(p, b, Writes(steps, next), b, next, Apply(b, steps), YumRegion);
  }

  lemma PublishReaches(t: Tools, cfg: Config, b: Bucket, listing: set<string> -> seq<string>, entries: seq<Entry>,
                       ts: int, next: Program)
    requires Collisionless(t) && Enumerates(listing)
    ensures Reaches(PublishProgram(t, cfg, listing, entries, ts, next), b, next,
                    Apply(b, PublishPlan(t, cfg, b, listing, entries, ts).steps), YumRegion)
  {
    hide Reaches, Writes, Hrefs, PublishesOnly, Apply, WritePlan, CleanupProgram, CleanupSteps;
    var l := t.sort(entries);
    var write := WritePlan(t, cfg, l, ts);
    var b1 := Apply(b, write.steps);
    var more := if write.complete then CleanupProgram(listing, Hrefs(t, l), next) else next;
    WritePublishes(t, cfg, l, ts);
    PublishesInRegion(t, cfg, l, write.steps);
    WritesReach(write.steps, more, b, YumRegion);
    if write.complete {
      var cleanup := CleanupSteps(b1, listing, Hrefs(t, l));
      CleanupReaches(t, cfg, b1, listing, l, next);
      ApplyConcat(b, write.steps, cleanup);
      ReachesThen(PublishProgram(t, cfg, listing, entries, ts, next), b, more, b1, next, Apply(b1, cleanup), YumRegion);
    }
  }

  lemma DropReaches(t: Tools, cfg: Config, b: Bucket, listing: set<string> -> seq<string>, drop: seq<Entry>,
                    keep: seq<Entry>, ts: int, next: Program)
    requires Collisionless(t) && Enumerates(listing) && AllRooted(drop)
    ensures Reaches(DropProgram(t, cfg, listing, drop, keep, ts, next), b, next,
                    Apply(b, DropPlan(t, cfg, b, listing, drop, keep, ts).steps), YumRegion)
  {
    hide Reaches, Writes, Apply, PublishPlan, PublishProgram, HasPrefix;
    var deletes := Deletes(Locations(drop));
    var b1 := Apply(b, deletes);
    var publish := PublishPlan(t, cfg, b1, listing, keep, ts).steps;
    var more := PublishProgram(t, cfg, listing, keep, ts, next);
    forall s | s in deletes ensures YumRegion(s.key) {
      var i :| 0 <= i < |deletes| && deletes[i] == s;
      assert drop[i] in drop;
    }
    WritesReach(deletes, more, b, YumRegion);
    PublishReaches(t, cfg, b1, listing, keep, ts, next);
    ApplyConcat(b, deletes, publish);
    ReachesThen(DropProgram(t, cfg, listing, drop, keep, ts, next), b, more, b1, next, Apply(b1, publish), YumRegion);
  }

  lemma StateInRegion()
    ensures YumRegion(STATE_KEY)
  {
    hide HasPrefix, IsMetadataFile;
    FixedKeys();
  }

  lemma StateFromIs(t: Tools, b: Bucket)
    ensures StateFrom(t, Lookup(b, STATE_KEY)) == LoadState(t, b)
  {
  }

  lemma UpdateReaches(t: Tools, cfg: Config, b: Bucket, listing: set<string> -> seq<string>, e: Entry, ts: int,
                      next: Program)
    requires Collisionless(t) && Enumerates(listing) && Rooted(t, b) && HasPrefix(e.location, "Packages/")
    ensures Reaches(UpdateProgram(t, cfg, listing, e, ts, next), b, next,
                    Apply(b, UpdatePlan(t, cfg, b, listing, e, ts).steps), YumRegion)
  {
    hide Reaches, Apply, DropPlan, DropProgram, LoadState, HasPrefix, Others, RemovedOf, KeptOf, StateFrom, Lookup;
    var p := UpdateProgram(t, cfg, listing, e, ts, next);
    StateInRegion();
    StateFromIs(t, b);
    ReachesNext(p, b, YumRegion);
    var existing := LoadState(t, b);
    if existing.None? {
      ApplyOne(b, Delete(""));
    } else {
      var all := ReplaceOrAppend(existing.value, e);
      OthersAre(existing.value, e.location);
      PrunedRooted(cfg, all);
      DropReaches(t, cfg, b, listing, RemovedOf(cfg, all), KeptOf(cfg, all), ts, next);
      ReachesThen(p, b, DropProgram(t, cfg, listing, RemovedOf(cfg, all), KeptOf(cfg, all), ts, next), b, next,
                  Apply(b, DropPlan(t, cfg, b, listing, RemovedOf(cfg, all), KeptOf(cfg, all), ts).steps), YumRegion);
    }
  }

  lemma RemoveReaches(t: Tools, cfg: Config, b: Bucket, listing: set<string> -> seq<string>, name: string,
                      version: string, ts: int, next: Program)
    requires Collisionless(t) && Enumerates(listing) && Rooted(t, b)
    ensures Reaches(RemoveProgram(t, cfg, listing, name, version, ts, next), b, next,
                    Apply(b, RemovePlan(t, cfg, b, listing, name, version, ts).steps), YumRegion)
  {
    hide Reaches, Apply, DropPlan, DropProgram, LoadState, HasPrefix, Matching, Without, StateFrom, Lookup;
    var p := RemoveProgram(t, cfg, listing, name, version, ts, next);
    StateInRegion();
    StateFromIs(t, b);
    ReachesNext(p, b, YumRegion);
    var existing := LoadState(t, b);
    ApplyOne(b, Delete(""));
    if existing.Some? && Matching(existing.value, name, version) != [] {
      var drop, keep := Matching(existing.value, name, version), Without(existing.value, name, version);
      SplitAre(existing.value, name, version);
      DropReaches(t, cfg, b, listing, drop, keep, ts, next);
      ReachesThen(p, b, DropProgram(t, cfg, listing, drop, keep, ts, next), b, next,
                  Apply(b, DropPlan(t, cfg, b, listing, drop, keep, ts).steps), YumRegion);
    }
  }

  /** Alone, one operation of the program carries out its plan, within the keys of yum. */
  lemma OpReaches(t: Tools, c: Client, cfg: Config, b: Bucket, listing: set<string> -> seq<string>, op: Op,
                  next: Program)
    requires Faithful(t, c) && Enumerates(listing) && Safe(t, c, b) && SafeOp(t, op)
    ensures Reaches(OpProgram(t, cfg, listing, op, next), b, next, Apply(b, PlanOf(t, cfg, b, listing, op).steps),
                    YumRegion)
  {
    hide Reaches, Apply, Consistent, Faithful, UpdatePlan, UpdateProgram, RemovePlan, RemoveProgram, ParseRpm,
      HasPrefix, PoolPath, Rooted;
    FaithfulIs(t, c);
    match op
    case AddOp(data, ts) =>
      var p := ParseRpm(t, data);
      if p.None? {
        ApplyOne(b, Delete(""));
        ReachesItself(next, b, YumRegion);
      } else {
        AddReaches(t, c, cfg, b, listing, p.value, data, ts, next);
      }
    case RemoveOp(name, version, ts) => RemoveReaches(t, cfg, b, listing, name, version, ts, next);
  }

  lemma AddReaches(t: Tools, c: Client, cfg: Config, b: Bucket, listing: set<string> -> seq<string>, p: Package,
                   data: string, ts: int, next: Program)
    requires Collisionless(t) && Enumerates(listing) && Safe(t, c, b) && SafeHeader(p.header)
    ensures var program := Write(Put(PoolPath(p.header), data), UpdateProgram(t, cfg, listing, EntryOf(p), ts, next));
            Reaches(program, b, next, Apply(b, AddPlan(t, cfg, b, listing, p, data, ts).steps), YumRegion)
  {
    hide Reaches, Apply, Consistent, UpdatePlan, UpdateProgram, HasPrefix, PoolPath, Rooted, Keeps;
    var e, put := EntryOf(p), Put(PoolPath(p.header), data);
    PoolPathIs(p.header);
    UploadKeeps(t, c, b, PoolPath(p.header), data);
    KeepsEnd(t, c, b, [put]);
    ApplyOne(b, put);
    var more := UpdateProgram(t, cfg, listing, e, ts, next);
    var b1 := ApplyStep(b, put);
    ReachesNext(Write(put, more), b, YumRegion);
    UpdateReaches(t, cfg, b1, listing, e, ts, next);
    var update := UpdatePlan(t, cfg, b1, listing, e, ts).steps;
    ApplyConcat(b, [put], update);
    ReachesThen(Write(put, more), b, more, b1, next, Apply(b1, update), YumRegion);
  }

  lemma {:induction false} RunReaches(t: Tools, c: Client, cfg: Config, listing: set<string> -> seq<string>,
                                      ops: seq<Op>, i: nat)
    requires Faithful(t, c) && Enumerates(listing) && i <= |ops|
    requires forall op | op in ops :: SafeOp(t, op)
    ensures Safe(t, c, Run(t, cfg, listing, ops[..i]))
    ensures Reaches(RunProgram(t, cfg, listing, ops), map[], RunProgram(t, cfg, listing, ops[i..]),
                    Run(t, cfg, listing, ops[..i]), YumRegion)
  {
    hide Reaches, Apply, Safe, Faithful, PlanOf, OpProgram, SafeOp;
    if i == 0 {
      EmptyIsSafe(t, c);
      assert ops[0..] == ops;
      ReachesItself(RunProgram(t, cfg, listing, ops), map[], YumRegion);
    } else {
      var op, b := ops[i - 1], Run(t, cfg, listing, ops[..i - 1]);
      assert op in ops;
      RunReaches(t, c, cfg, listing, ops, i - 1);
      assert ops[..i][..i - 1] == ops[..i - 1] && ops[i - 1..][1..] == ops[i..];
      OpReaches(t, c, cfg, b, listing, op, RunProgram(t, cfg, listing, ops[i..]));
      OpKeeps(t, c, cfg, b, listing, op);
      KeepsEnd(t, c, b, PlanOf(t, cfg, b, listing, op).steps);
      ReachesThen(RunProgram(t, cfg, listing, ops), map[], RunProgram(t, cfg, listing, ops[i - 1..]), b,
                  RunProgram(t, cfg, listing, ops[i..]), Run(t, cfg, listing, ops[..i]), YumRegion);
    }
  }

  /** Alone, the program of a run ends in the bucket of the run, within the keys of yum. */
  lemma AloneIsRun(t: Tools, c: Client, cfg: Config, listing: set<string> -> seq<string>, ops: seq<Op>)
    requires Faithful(t, c) && Enumerates(listing)
    requires forall op | op in ops :: SafeOp(t, op)
    ensures Reaches(RunProgram(t, cfg, listing, ops), map[], Done, Run(t, cfg, listing, ops), YumRegion)
  {
    hide Reaches, Faithful, SafeOp, Run;
    RunReaches(t, c, cfg, listing, ops, |ops|);
    assert ops[|ops|..] == [] && ops[..|ops|] == ops;
  }
}
