/**
 A Remove that is stopped and run again. The manifest is its memory and is written late: stopped before it is, a Remove
 does all of its work when it is run again; stopped after, it has nothing more to do, and stale documents stay.
 */
module YumRemoval {
  import opened Wrappers
  import opened Text
  import opened Storage
  import opened Yum
  import opened YumKeys
  import opened YumPublisher
  import opened YumSafety
  import opened YumState
  import opened YumRuns
  import opened YumHealing

  // ----- the writes of a Remove

  /** The files it deletes. */
  ghost function Dropped(l: seq<Entry>, name: string, version: string): set<string> {
    Elements(Locations(Matching(l, name, version)))
  }

  /** The entries it leaves, as they are published. */
  function Left(t: Tools, l: seq<Entry>, name: string, version: string): seq<Entry> {
    t.sort(Without(l, name, version))
  }

  predicate Signs(t: Tools, cfg: Config, l: seq<Entry>, name: string, version: string, ts: int) {
    CanSign(cfg, RepomdText(t, Left(t, l, name, version), ts))
  }

  /** Its writes before the manifest. */
  function BeforeManifest(t: Tools, cfg: Config, l: seq<Entry>, name: string, version: string, ts: int): seq<Step> {
    var kept := Left(t, l, name, version);
    var text := RepomdText(t, kept, ts);
    Deletes(Locations(Matching(l, name, version))) + (MetadataSteps(t, kept) + [Put(REPOMD_KEY, text)])
    + SignPlan(cfg, text).steps
  }

  function PutManifest(t: Tools, l: seq<Entry>, name: string, version: string): Step {
    Put(STATE_KEY, t.encodeState(Left(t, l, name, version)))
  }

  /** Its deletions of stale documents, once all else is written. */
  function Cleanup(t: Tools, cfg: Config, x: Bucket, listing: set<string> -> seq<string>, l: seq<Entry>, name: string,
                   version: string, ts: int): seq<Step> {
    var w := Apply(x, BeforeManifest(t, cfg, l, name, version, ts) + [PutManifest(t, l, name, version)]);
    CleanupSteps(w, listing, Hrefs(t, Left(t, l, name, version)))
  }

  lemma RemoveStepsAre(t: Tools, cfg: Config, x: Bucket, listing: set<string> -> seq<string>, l: seq<Entry>,
                       name: string, version: string, ts: int)
    requires LoadState(t, x) == Some(l) && Matching(l, name, version) != []
    ensures var plan := RemovePlan(t, cfg, x, listing, name, version, ts);
            var before := BeforeManifest(t, cfg, l, name, version, ts);
            && plan.complete == Signs(t, cfg, l, name, version, ts)
            && plan.steps == if plan.complete
                             then before + [PutManifest(t, l, name, version)] +
                                  Cleanup(t, cfg, x, listing, l, name, version, ts)
                             else before
  {
    hide LoadState, Matching, Without, MetadataSteps, RepomdText, SignPlan, CanSign, CleanupSteps, Hrefs, Apply;
    var kept := Left(t, l, name, version);
    var text := RepomdText(t, kept, ts);
    SignPlanIs(cfg, text);
    var deletes := Deletes(Locations(Matching(l, name, version)));
    var meta := MetadataSteps(t, kept) + [Put(REPOMD_KEY, text)];
    var sign, manifest := SignPlan(cfg, text).steps, [PutManifest(t, l, name, version)];
    var write := WritePlan(t, cfg, kept, ts);
    ApplyConcat(x, deletes, write.steps);
    assert deletes + (meta + (sign + manifest)) == (deletes + meta + sign) + manifest;
    assert deletes + (meta + sign) == deletes + meta + sign;
    var cleanup := Cleanup(t, cfg, x, listing, l, name, version, ts);
    assert deletes + (write.steps + cleanup) == (deletes + write.steps) + cleanup;
  }

  /** The keys that a Remove writes: packages and metadata; before the manifest, not the manifest. */
  lemma BeforeManifestKeys(t: Tools, cfg: Config, l: seq<Entry>, name: string, version: string, ts: int)
    requires Collisionless(t) && forall k | k in Dropped(l, name, version) :: HasPrefix(k, "Packages/")
    ensures forall k | k in KeysOf(BeforeManifest(t, cfg, l, name, version, ts)) ::
              k != STATE_KEY && (k in Dropped(l, name, version) || Touched(cfg, k))
  {
    hide Matching, Without, RepomdText, SignPlan, HasPrefix, IsMetadataFile, Touched, WritePlan, MetadataSteps, StateOf;
    FixedKeys();
    var kept, drop := Left(t, l, name, version), Locations(Matching(l, name, version));
    var text := RepomdText(t, kept, ts);
    MetadataNoState(t, kept);
    SignNoState(cfg, text);
    WritePublishes(t, cfg, kept, ts);
    WriteParts(t, cfg, kept, ts);
    forall s | s in BeforeManifest(t, cfg, l, name, version, ts)
      ensures s.key != STATE_KEY && (s.key in Dropped(l, name, version) || Touched(cfg, s.key))
    {
      if s in Deletes(drop) {
        var i :| 0 <= i < |drop| && Deletes(drop)[i] == s;
        assert drop[i] in Elements(drop);
        PackagesAreNoMetadata(drop[i], STATE_KEY);
      }
    }
  }

  lemma WriteParts(t: Tools, cfg: Config, l: seq<Entry>, ts: int)
    ensures var text := RepomdText(t, l, ts);
            forall s | s in MetadataSteps(t, l) + [Put(REPOMD_KEY, text)] || s in SignPlan(cfg, text).steps ::
              s in WritePlan(t, cfg, l, ts).steps
  {
    hide RepomdText, MetadataSteps, SignPlan;
  }

  lemma MetadataNoState(t: Tools, l: seq<Entry>)
    requires Collisionless(t)
    ensures forall s | s in MetadataSteps(t, l) :: s.key != STATE_KEY
  {
    hide IsMetadataFile, Href, Compressed, HasPrefix;
    FixedKeys();
    HrefIs(t.sha256(Compressed(t, PRIMARY, l)), PRIMARY);
    HrefIs(t.sha256(Compressed(t, FILELISTS, l)), FILELISTS);
    HrefIs(t.sha256(Compressed(t, OTHER, l)), OTHER);
  }

  lemma SignNoState(cfg: Config, text: string)
    ensures forall s | s in SignPlan(cfg, text).steps :: s.key != STATE_KEY
  {
    hide IsMetadataFile, HasPrefix;
    FixedKeys();
  }

  // ----- stopped before the manifest is written

  /** The manifest is as the Remove found it; what is not the Remove's to write is as it was. */
  ghost predicate Removing(cfg: Config, b: Bucket, l: seq<Entry>, name: string, version: string, x: Bucket) {
    && Same(b, x, STATE_KEY)
    && forall k | k !in Dropped(l, name, version) && !Touched(cfg, k) :: Same(b, x, k)
  }

  lemma DroppedInPackages(t: Tools, cfg: Config, b: Bucket, l: seq<Entry>, name: string, version: string)
    requires Represents(t, cfg, b, l)
    ensures forall k | k in Dropped(l, name, version) :: HasPrefix(k, "Packages/")
  {
    hide Documented, Blank, Matching, HasPrefix, ProperEntry, PoolPath, ParseRpm, Unique, WithinCap;
    var drop := Matching(l, name, version);
    SplitAre(l, name, version);
    DroppedLocations(drop);
    forall k | k in Dropped(l, name, version) ensures HasPrefix(k, "Packages/") {
      var e :| e in drop && e.location == k;
      assert Stored(t, b, e);
      InPackages(e);
    }
  }

  lemma RemovingReads(t: Tools, c: Client, cfg: Config, b: Bucket, l: seq<Entry>, name: string, version: string,
                      x: Bucket)
    requires Faithful(t, c) && Represents(t, cfg, b, l) && Removing(cfg, b, l, name, version, x)
    ensures LoadState(t, b) == Some(l) && LoadState(t, x) == Some(l)
  {
    hide Represents, Faithful, LoadState, Dropped, Touched;
    StateIs(t, c, cfg, b, l);
    SameState(t, b, x);
  }

  lemma CutKeepsRemoving(t: Tools, c: Client, cfg: Config, b: Bucket, listing: set<string> -> seq<string>,
                         l: seq<Entry>, name: string, version: string, x: Bucket, ts: int, k: nat)
    requires Setting(t, c) && Represents(t, cfg, b, l) && Removing(cfg, b, l, name, version, x)
    requires Matching(l, name, version) != []
    requires k <= |RemovePlan(t, cfg, x, listing, name, version, ts).steps|
    requires k <= |BeforeManifest(t, cfg, l, name, version, ts)|
    ensures Removing(cfg, b, l, name, version, Apply(x, RemovePlan(t, cfg, x, listing, name, version, ts).steps[..k]))
  {
    hide Represents, Faithful, Sorts, RemovePlan, BeforeManifest, Apply, Dropped, Touched, Cleanup, LoadState, Matching;
    FaithfulIs(t, c);
    RemovingReads(t, c, cfg, b, l, name, version, x);
    RemoveStepsAre(t, cfg, x, listing, l, name, version, ts);
    DroppedInPackages(t, cfg, b, l, name, version);
    BeforeManifestKeys(t, cfg, l, name, version, ts);
    var before := BeforeManifest(t, cfg, l, name, version, ts);
    var y := Apply(x, before[..k]);
    assert RemovePlan(t, cfg, x, listing, name, version, ts).steps[..k] == before[..k];
    StepsAgree(x, before[..k]);
    assert forall s | s in before[..k] :: s in before;
    assert KeysOf(before[..k]) <= KeysOf(before);
    assert Same(x, y, STATE_KEY);
    forall key | key !in Dropped(l, name, version) && !Touched(cfg, key) ensures Same(b, y, key) {
      assert Same(b, x, key) && Same(x, y, key);
    }
  }

  /** What a finished Remove leaves. */
  ghost function Finished(t: Tools, cfg: Config, b: Bucket, l: seq<Entry>, name: string, version: string,
                          ts: int): Bucket {
    Swept(b - Dropped(l, name, version)) + MetadataObjects(t, cfg, Left(t, l, name, version), ts)
  }

  /** Run to its end, the Remove leaves what one leaves that was never stopped. */
  lemma CompletesRemoving(t: Tools, c: Client, cfg: Config, b: Bucket, listing: set<string> -> seq<string>,
                          l: seq<Entry>, name: string, version: string, x: Bucket, later: int)
    requires Setting(t, c) && Enumerates(listing) && Represents(t, cfg, b, l)
    requires Matching(l, name, version) != [] && Removing(cfg, b, l, name, version, x)
    ensures var plan := RemovePlan(t, cfg, x, listing, name, version, later);
            && plan.complete == Signs(t, cfg, l, name, version, later)
            && (plan.complete ==> Apply(x, plan.steps) == Finished(t, cfg, b, l, name, version, later))
    ensures RemoveCount(t, x, name, version) == |Matching(l, name, version)|
  {
    hide Represents, Faithful, Sorts, Collisionless, Apply, Matching, Without, LoadState, RepomdText, CanSign, Swept,
      MetadataObjects, DropPlan, Touched, BeforeManifest, Cleanup;
    FaithfulIs(t, c);
    RemovingReads(t, c, cfg, b, l, name, version, x);
    RemoveStepsAre(t, cfg, x, listing, l, name, version, later);
    if Signs(t, cfg, l, name, version, later) {
      DropIs(t, cfg, x, listing, Matching(l, name, version), Without(l, name, version), later);
      RemovingAgrees(cfg, b, l, name, version, x);
      PublishForgets(t, cfg, x - Dropped(l, name, version), b - Dropped(l, name, version),
                     Left(t, l, name, version), later);
    }
  }

  lemma RemovingAgrees(cfg: Config, b: Bucket, l: seq<Entry>, name: string, version: string, x: Bucket)
    requires Removing(cfg, b, l, name, version, x)
    ensures Agree(cfg, x - Dropped(l, name, version), b - Dropped(l, name, version))
  {
    hide Dropped, Touched;
    forall k | !Touched(cfg, k) ensures Same(x - Dropped(l, name, version), b - Dropped(l, name, version), k) {
      assert k !in Dropped(l, name, version) ==> Same(b, x, k);
    }
  }

  // ----- stopped once the manifest is written

  lemma PutStays(b: Bucket, steps: seq<Step>, s: Step, more: seq<Step>)
    requires s.Put? && s.key !in KeysOf(more)
    ensures Has(Apply(b, steps + [s] + more), s.key, s.body)
  {
    hide Apply;
    var a := Apply(b, steps);
    ApplyConcat(b, steps, [s]);
    ApplyOne(a, s);
    ApplyConcat(b, steps + [s], more);
    StepsAgree(ApplyStep(a, s), more);
    assert Same(ApplyStep(a, s), Apply(ApplyStep(a, s), more), s.key);
  }

  /** A Remove that finds nothing to remove. */
  lemma NothingToRemove(t: Tools, c: Client, cfg: Config, y: Bucket, listing: set<string> -> seq<string>, l: seq<Entry>,
                        name: string, version: string, later: int)
    requires Faithful(t, c) && Has(y, STATE_KEY, t.encodeState(Left(t, l, name, version)))
    ensures RemovePlan(t, cfg, y, listing, name, version, later) == Plan([], true)
    ensures RemoveCount(t, y, name, version) == 0
  {
    hide Matching, Without, DropPlan;
    var kept := Left(t, l, name, version);
    var again := Matching(kept, name, version);
    assert again != [] ==> again[0] in again;
    SplitAre(l, name, version);
    SplitAre(kept, name, version);
    SameMembers(kept, Without(l, name, version));
  }

  lemma StaleCut(w: Bucket, stale: seq<string>, j: nat)
    requires j <= |stale| && (forall k | k in stale :: k in w)
    requires forall i, i' :: 0 <= i < i' < |stale| ==> stale[i] != stale[i']
    ensures w - Elements(stale[..j]) == w - Elements(stale) <==> j == |stale|
  {
    if j < |stale| {
      assert stale[j] in w - Elements(stale[..j]) by {
        assert stale[j] in stale;
      }
      assert stale[j] in Elements(stale);
    } else {
      assert stale[..j] == stale;
    }
  }

  lemma {:induction false} StaleOnce(keys: seq<string>, keep: set<string>)
    requires forall i, j :: 0 <= i < j < |keys| ==> keys[i] != keys[j]
    ensures forall i, j :: 0 <= i < j < |Stale(keys, keep)| ==> Stale(keys, keep)[i] != Stale(keys, keep)[j]
  {
    hide IsMetadataFile;
    if keys != [] {
      var n := |keys| - 1;
      StaleOnce(keys[..n], keep);
      StaleAre(keys[..n], keep);
      var before := Stale(keys[..n], keep);
      var r := Stale(keys, keep);
      forall i, j | 0 <= i < j < |r| ensures r[i] != r[j] {
        assert r[i] == before[i] && before[i] in before;
        if j < |before| {
          assert r[j] == before[j];
        } else {
          assert before[i] in keys[..n];
        }
      }
    }
  }

  /** y is the finished bucket with some documents besides. */
  ghost predicate FinishedButDocuments(y: Bucket, finished: Bucket) {
    && (forall k | k in finished :: Same(y, finished, k))
    && (forall k | k in y && k !in finished :: IsDocument(k))
  }

  /** During the cleaning up the bucket is the finished one but for stale documents, and is finished only at its end. */
  lemma CutInCleanup(w: Bucket, listing: set<string> -> seq<string>, keep: set<string>, j: nat)
    requires Enumerates(listing) && j <= |CleanupSteps(w, listing, keep)|
    ensures var cleanup := CleanupSteps(w, listing, keep);
            && (Apply(w, cleanup[..j]) == Apply(w, cleanup) <==> j == |cleanup|)
            && FinishedButDocuments(Apply(w, cleanup[..j]), Apply(w, cleanup))
            && (forall s | s in cleanup :: s.key != STATE_KEY)
  {
    hide Apply, Stale, IsMetadataFile, HasPrefix;
    FixedKeys();
    var keys := listing(Keys(w, "repodata/"));
    var stale := Stale(keys, keep);
    StaleAre(keys, keep);
    StaleOnce(keys, keep);
    assert Deletes(stale)[..j] == Deletes(stale[..j]);
    ApplyDeletes(w, stale[..j]);
    ApplyDeletes(w, stale);
    forall k | k in stale ensures k in w && IsDocument(k) {
      assert k in Keys(w, "repodata/");
    }
    StaleCut(w, stale, j);
    forall s | s in Deletes(stale) ensures s.key != STATE_KEY {
      var i :| 0 <= i < |stale| && Deletes(stale)[i] == s;
      assert stale[i] in stale;
    }
  }

  lemma CutAfterManifest(t: Tools, c: Client, cfg: Config, b: Bucket, listing: set<string> -> seq<string>,
                         l: seq<Entry>, name: string, version: string, x: Bucket, ts: int, k: nat, later: int)
    requires Setting(t, c) && Enumerates(listing) && Represents(t, cfg, b, l)
    requires Matching(l, name, version) != [] && Removing(cfg, b, l, name, version, x)
    requires |BeforeManifest(t, cfg, l, name, version, ts)| < k
    requires k <= |RemovePlan(t, cfg, x, listing, name, version, ts).steps|
    ensures var steps := RemovePlan(t, cfg, x, listing, name, version, ts).steps; var y := Apply(x, steps[..k]);
            && (y == Finished(t, cfg, b, l, name, version, ts) <==> k == |steps|)
            && FinishedButDocuments(y, Finished(t, cfg, b, l, name, version, ts))
            && RemovePlan(t, cfg, y, listing, name, version, later) == Plan([], true)
            && RemoveCount(t, y, name, version) == 0
  {
    hide Represents, Faithful, Sorts, Apply, Matching, LoadState, RemovePlan, BeforeManifest, Dropped, Touched,
      Finished,
      CleanupSteps, Hrefs, FinishedButDocuments, Left, Signs, RemoveCount;
    FaithfulIs(t, c);
    RemovingReads(t, c, cfg, b, l, name, version, x);
    RemoveStepsAre(t, cfg, x, listing, l, name, version, ts);
    CompletesRemoving(t, c, cfg, b, listing, l, name, version, x, ts);
    var before, manifest := BeforeManifest(t, cfg, l, name, version, ts), PutManifest(t, l, name, version);
    var w, j := Apply(x, before + [manifest]), k - |before| - 1;
    var cleanup := CleanupSteps(w, listing, Hrefs(t, Left(t, l, name, version)));
    var steps := RemovePlan(t, cfg, x, listing, name, version, ts).steps;
    assert steps == before + [manifest] + cleanup && steps[..k] == before + [manifest] + cleanup[..j];
    ApplyConcat(x, before + [manifest], cleanup);
    ApplyConcat(x, before + [manifest], cleanup[..j]);
    CutInCleanup(w, listing, Hrefs(t, Left(t, l, name, version)), j);
    assert forall s | s in cleanup[..j] :: s in cleanup;
    PutStays(x, before, manifest, cleanup[..j]);
    NothingToRemove(t, c, cfg, Apply(x, steps[..k]), listing, l, name, version, later);
  }

  // ----- the theorem

  /** The first so many writes. */
  function Cut(steps: seq<Step>, writes: nat): seq<Step> {
    if writes <= |steps| then steps[..writes] else steps
  }

  /** The bucket after some tries at the same Remove. */
  function Attempted(t: Tools, cfg: Config, b: Bucket, listing: set<string> -> seq<string>, name: string,
                     version: string, tries: seq<Try>): Bucket {
    if tries == [] then b
    else
      var x := Attempted(t, cfg, b, listing, name, version, tries[..|tries| - 1]);
      var a := tries[|tries| - 1];
      Apply(x, Cut(RemovePlan(t, cfg, x, listing, name, version, a.ts).steps, a.writes))
  }

  /** An attempt that does not get to writing the manifest, for its signer if for nothing else. */
  predicate Early(t: Tools, cfg: Config, l: seq<Entry>, name: string, version: string, a: Try) {
    a.writes <= |BeforeManifest(t, cfg, l, name, version, a.ts)| || !Signs(t, cfg, l, name, version, a.ts)
  }

  lemma {:induction false} AttemptedRemoving(t: Tools, c: Client, cfg: Config, b: Bucket,
                                             listing: set<string> -> seq<string>, l: seq<Entry>, name: string,
                                             version: string, tries: seq<Try>)
    requires Setting(t, c) && Represents(t, cfg, b, l) && Matching(l, name, version) != []
    requires forall a | a in tries :: Early(t, cfg, l, name, version, a)
    ensures Removing(cfg, b, l, name, version, Attempted(t, cfg, b, listing, name, version, tries))
  {
    hide Represents, Faithful, Sorts, Apply, Matching, RemovePlan, BeforeManifest, Dropped, Touched;
    if tries != [] {
      hide Removing;
      var n := |tries| - 1;
      var a := tries[n];
      assert a in tries;
      AttemptedRemoving(t, c, cfg, b, listing, l, name, version, tries[..n]);
      var x := Attempted(t, cfg, b, listing, name, version, tries[..n]);
      EarlyKeepsRemoving(t, c, cfg, b, listing, l, name, version, x, a);
    }
  }

  lemma EarlyKeepsRemoving(t: Tools, c: Client, cfg: Config, b: Bucket, listing: set<string> -> seq<string>,
                           l: seq<Entry>, name: string, version: string, x: Bucket, a: Try)
    requires Setting(t, c) && Represents(t, cfg, b, l) && Matching(l, name, version) != []
    requires Removing(cfg, b, l, name, version, x) && Early(t, cfg, l, name, version, a)
    ensures Removing(cfg, b, l, name, version,
                     Apply(x, Cut(RemovePlan(t, cfg, x, listing, name, version, a.ts).steps, a.writes)))
  {
    hide Represents, Faithful, Sorts, Apply, Matching, RemovePlan, BeforeManifest, Removing, Signs;
    RemovingStepsAre(t, c, cfg, b, listing, l, name, version, x, a.ts, a.writes);
    var steps := RemovePlan(t, cfg, x, listing, name, version, a.ts).steps;
    assert steps[..|steps|] == steps;
    var k := if a.writes <= |steps| then a.writes else |steps|;
    CutKeepsRemoving(t, c, cfg, b, listing, l, name, version, x, a.ts, k);
  }

  /** After any number of tries that stop before the manifest is written, and one more attempt. If that one stops
      before the manifest too, a Remove run again does what one does that was never stopped, and reports as much. If it
      does not, a Remove run again plans nothing and reports 0; the bucket is then the finished one but for stale
      documents, and is finished exactly if the last attempt was not stopped at all. */
  lemma RetriedRemoveExact(t: Tools, c: Client, cfg: Config, b: Bucket, listing: set<string> -> seq<string>,
                           l: seq<Entry>, name: string, version: string, tries: seq<Try>, last: Try,
                           later: int)
    requires Setting(t, c) && Enumerates(listing) && Represents(t, cfg, b, l) && Matching(l, name, version) != []
    requires forall a | a in tries :: Early(t, cfg, l, name, version, a)
    ensures var x := Attempted(t, cfg, b, listing, name, version, tries);
            var steps := RemovePlan(t, cfg, x, listing, name, version, last.ts).steps;
            var y := Apply(x, Cut(steps, last.writes));
            var again, whole := RemovePlan(t, cfg, y, listing, name, version, later),
                                RemovePlan(t, cfg, b, listing, name, version, later);
            if STATE_KEY !in KeysOf(Cut(steps, last.writes)) then
              && again.complete == whole.complete
              && (whole.complete ==> Apply(y, again.steps) == Apply(b, whole.steps))
              && RemoveCount(t, y, name, version) == RemoveCount(t, b, name, version)
            else
              && again == Plan([], true) && RemoveCount(t, y, name, version) == 0
              && var finished := Apply(b, RemovePlan(t, cfg, b, listing, name, version, last.ts).steps);
                 FinishedButDocuments(y, finished) && (y == finished <==> last.writes >= |steps|)
  {
    hide Represents, Faithful, Sorts, Apply, Matching, RemovePlan, BeforeManifest, Removing, Attempted, Finished,
      FinishedButDocuments, RemoveCount, Signs, Cleanup;
    var x := Attempted(t, cfg, b, listing, name, version, tries);
    var before := BeforeManifest(t, cfg, l, name, version, last.ts);
    var steps := RemovePlan(t, cfg, x, listing, name, version, last.ts).steps;
    AttemptedRemoving(t, c, cfg, b, listing, l, name, version, tries);
    StartsRemoving(cfg, b, l, name, version);
    RemovingStepsAre(t, c, cfg, b, listing, l, name, version, x, last.ts, last.writes);
    CompletesRemoving(t, c, cfg, b, listing, l, name, version, b, later);
    CompletesRemoving(t, c, cfg, b, listing, l, name, version, b, last.ts);
    if STATE_KEY !in KeysOf(Cut(steps, last.writes)) {
      EarlyKeepsRemoving(t, c, cfg, b, listing, l, name, version, x, last);
      CompletesRemoving(t, c, cfg, b, listing, l, name, version, Apply(x, Cut(steps, last.writes)), later);
    } else {
      var k := if last.writes <= |steps| then last.writes else |steps|;
      assert steps[..|steps|] == steps;
      CompletesRemoving(t, c, cfg, b, listing, l, name, version, x, last.ts);
      CutAfterManifest(t, c, cfg, b, listing, l, name, version, x, last.ts, k, later);
    }
  }

  lemma StartsRemoving(cfg: Config, b: Bucket, l: seq<Entry>, name: string, version: string)
    ensures Removing(cfg, b, l, name, version, b)
  {
  }

  /** The manifest is written exactly when the Remove is stopped after the writes before it, or not at all. */
  lemma RemovingStepsAre(t: Tools, c: Client, cfg: Config, b: Bucket, listing: set<string> -> seq<string>,
                         l: seq<Entry>, name: string, version: string, x: Bucket, ts: int, writes: nat)
    requires Setting(t, c) && Represents(t, cfg, b, l) && Matching(l, name, version) != []
    requires Removing(cfg, b, l, name, version, x)
    ensures var plan, n := RemovePlan(t, cfg, x, listing, name, version, ts),
                           |BeforeManifest(t, cfg, l, name, version, ts)|;
            && plan.complete == Signs(t, cfg, l, name, version, ts) && (plan.complete <==> |plan.steps| > n)
            && (STATE_KEY in KeysOf(Cut(plan.steps, writes)) <==> plan.complete && writes > n)
  {
    hide Represents, Faithful, Sorts, Apply, Matching, RemovePlan, BeforeManifest, Removing, Signs, Cleanup, Touched,
      Left;
    FaithfulIs(t, c);
    RemovingReads(t, c, cfg, b, l, name, version, x);
    RemoveStepsAre(t, cfg, x, listing, l, name, version, ts);
    DroppedInPackages(t, cfg, b, l, name, version);
    BeforeManifestKeys(t, cfg, l, name, version, ts);
    var plan, before := RemovePlan(t, cfg, x, listing, name, version, ts), BeforeManifest(t, cfg, l, name, version, ts);
    var cut := Cut(plan.steps, writes);
    if plan.complete && writes > |before| {
      assert cut[|before|] == PutManifest(t, l, name, version);
      assert cut[|before|] in cut;
    } else {
      forall s | s in cut ensures s.key != STATE_KEY {
        var i :| 0 <= i < |cut| && cut[i] == s;
        assert s == before[i] && s.key in KeysOf(before);
      }
    }
  }
}
