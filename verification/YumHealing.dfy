/**
 A retried Add heals: stopped after any of its writes, any number of times, and then run to its end, it ends where one
 uninterrupted Add ends; to the byte, unless builds that compare as equal change places in the documents.
 */
module YumHealing {
  import opened Wrappers
  import opened Text
  import opened Storage
  import opened Retention
  import opened RetentionLaws
  import opened Yum
  import opened YumKeys
  import opened YumPublisher
  import opened YumSafety
  import opened YumState
  import opened YumRuns

  // ----- adding what has just been added

  lemma {:induction false} OthersCount(l: seq<Entry>, location: string, f: Entry)
    ensures multiset(Others(l, location))[f] == if f.location != location then multiset(l)[f] else 0
  {
    if l != [] {
      var n := |l| - 1;
      OthersCount(l[..n], location, f);
      assert l == l[..n] + [l[n]];
      OneMore(l[..n], l[n]);
      OneMore(Others(l[..n], location), l[n]);
    }
  }

  /** Replacing an entry by itself moves it to the end. */
  lemma ReplacedByItself(l: seq<Entry>, e: Entry)
    requires Unique(multiset(l)) && e in l
    ensures multiset(ReplaceOrAppend(l, e)) == multiset(l)
  {
    hide Others;
    var others := Others(l, e.location);
    OneMore(others, e);
    forall f ensures multiset(ReplaceOrAppend(l, e))[f] == multiset(l)[f] {
      OthersCount(l, e.location, f);
      assert e in multiset(l);
      if f.location == e.location && f != e {
        assert f !in multiset(l);
      }
    }
  }

  lemma {:induction false} OthersAll(l: seq<Entry>, location: string)
    requires forall f | f in l :: f.location != location
    ensures Others(l, location) == l
  {
    if l != [] {
      var n := |l| - 1;
      OthersAll(l[..n], location);
      assert l == l[..n] + [l[n]];
    }
  }

  /** What pruning took out goes again, and nothing else. */
  lemma PruneTakesAgain(cfg: Config, others: seq<Entry>, e: Entry, kept: seq<Entry>)
    requires cfg.keepVersions > 0 && AllProper(others + [e])
    requires multiset(kept) == multiset(KeptOf(cfg, others + [e])) && e !in kept
    ensures KeptOf(cfg, kept + [e]) == kept && RemovedOf(cfg, kept + [e]) == [e]
  {
    hide Capped, AllProper, CompareByEvr, Pick, Survives, ProperEntry, Retained, Removed;
    var keep, all := cfg.keepVersions, others + [e];
    ProperOrders(all);
    LastRemoved(all, |others|, keep, e, kept);
    RemovedLastIsCovered(others, e, keep, GroupKey, CompareByEvr);
    CountPermuted(KeptOf(cfg, all), kept, NotOlder<Entry>(GroupKey, CompareByEvr, e));
    RetainedIsCapped(all, keep, GroupKey, CompareByEvr);
    CappedPermuted(KeptOf(cfg, all), kept, keep);
    KeptAndLast(cfg, others, e, kept);
    ProperOrders(kept + [e]);
    PruneOutranked(kept, e, keep, GroupKey, CompareByEvr);
  }

  lemma LastRemoved(all: seq<Entry>, i: nat, keep: int, e: Entry, kept: seq<Entry>)
    requires i < |all| && all[i] == e && e !in kept
    requires multiset(kept) == multiset(Retained(all, keep, GroupKey, CompareByEvr))
    ensures !Survives(all, keep, GroupKey, CompareByEvr, i)
  {
    hide Survives, CompareByEvr, Pick;
    SameMembers(kept, Retained(all, keep, GroupKey, CompareByEvr));
    PickMember(all, Survivors(all, keep, GroupKey, CompareByEvr), |all|, e);
  }

  lemma KeptAndLast(cfg: Config, others: seq<Entry>, e: Entry, kept: seq<Entry>)
    requires AllProper(others + [e]) && multiset(kept) == multiset(KeptOf(cfg, others + [e]))
    ensures AllProper(kept + [e])
  {
    hide ProperEntry, KeptOf;
    var all := others + [e];
    PruneDivides(cfg, all);
    PartMembers(RemovedOf(cfg, all), KeptOf(cfg, all), all);
    SameMembers(kept, KeptOf(cfg, all));
    assert all[|others|] == e;
  }

  // ----- the keys that publishing touches

  predicate IsDocument(key: string) {
    HasPrefix(key, "repodata/") && IsMetadataFile(key)
  }

  predicate Touched(cfg: Config, key: string) {
    IsDocument(key) || key == REPOMD_KEY || key == STATE_KEY || (key == SIGNATURE_KEY && cfg.signer.Some?)
  }

  ghost predicate StateOf(t: Tools, l: seq<Entry>, s: Step) {
    s.key == STATE_KEY ==> s == Put(STATE_KEY, t.encodeState(l))
  }

  /** Publishing touches metadata only, and writes one manifest only. */
  ghost predicate PublishesOnly(t: Tools, cfg: Config, l: seq<Entry>, steps: seq<Step>) {
    forall s | s in steps :: Touched(cfg, s.key) && StateOf(t, l, s)
  }

  lemma PublishesBoth(t: Tools, cfg: Config, l: seq<Entry>, x: seq<Step>, y: seq<Step>)
    requires PublishesOnly(t, cfg, l, x) && PublishesOnly(t, cfg, l, y)
    ensures PublishesOnly(t, cfg, l, x + y)
  {
    hide Touched, StateOf;
  }

  lemma WritePublishes(t: Tools, cfg: Config, l: seq<Entry>, ts: int)
    requires Collisionless(t)
    ensures PublishesOnly(t, cfg, l, WritePlan(t, cfg, l, ts).steps)
  {
    hide IsMetadataFile, Href, Compressed, RepomdText, HasPrefix;
    FixedKeys();
    HrefIs(t.sha256(Compressed(t, PRIMARY, l)), PRIMARY);
    HrefIs(t.sha256(Compressed(t, FILELISTS, l)), FILELISTS);
    HrefIs(t.sha256(Compressed(t, OTHER, l)), OTHER);
    var text := RepomdText(t, l, ts);
    var m, r, s := MetadataSteps(t, l), [Put(REPOMD_KEY, text)], [Put(STATE_KEY, t.encodeState(l))];
    var g := SignPlan(cfg, text);
    assert PublishesOnly(t, cfg, l, m);
    assert PublishesOnly(t, cfg, l, r);
    assert PublishesOnly(t, cfg, l, g.steps);
    assert PublishesOnly(t, cfg, l, s);
    hide PublishesOnly, MetadataSteps;
    PublishesBoth(t, cfg, l, m, r);
    PublishesBoth(t, cfg, l, g.steps, s);
    PublishesBoth(t, cfg, l, m + r, g.steps);
    PublishesBoth(t, cfg, l, m + r, g.steps + s);
  }

  lemma CleanupPublishes(t: Tools, cfg: Config, l: seq<Entry>, b: Bucket, listing: set<string> -> seq<string>,
                         keep: set<string>)
    requires Enumerates(listing)
    ensures PublishesOnly(t, cfg, l, CleanupSteps(b, listing, keep))
  {
    hide IsMetadataFile, Stale, HasPrefix;
    FixedKeys();
    var keys := listing(Keys(b, "repodata/"));
    var stale := Stale(keys, keep);
    StaleAre(keys, keep);
    forall s | s in Deletes(stale) ensures Touched(cfg, s.key) && StateOf(t, l, s) {
      var i :| 0 <= i < |stale| && Deletes(stale)[i] == s;
      assert stale[i] in stale;
      assert stale[i] in Keys(b, "repodata/");
    }
  }

  lemma SortedPublishes(t: Tools, cfg: Config, b: Bucket, listing: set<string> -> seq<string>, l: seq<Entry>, ts: int)
    requires Collisionless(t) && Enumerates(listing)
    ensures PublishesOnly(t, cfg, l, SortedPlan(t, cfg, b, listing, l, ts).steps)
  {
    hide WritePlan, CleanupSteps, Apply, PublishesOnly;
    var write := WritePlan(t, cfg, l, ts);
    WritePublishes(t, cfg, l, ts);
    CleanupPublishes(t, cfg, l, Apply(b, write.steps), listing, Hrefs(t, l));
    PublishesBoth(t, cfg, l, write.steps, CleanupSteps(Apply(b, write.steps), listing, Hrefs(t, l)));
  }

  /** The buckets agree on all that publishing does not touch. */
  ghost predicate Agree(cfg: Config, x: Bucket, y: Bucket) {
    forall k :: !Touched(cfg, k) ==> Same(x, y, k)
  }

  /** Part of a publishing has touched metadata only; the manifest is as it was, or as it will be. */
  lemma {:induction false} PartlyPublished(t: Tools, cfg: Config, b: Bucket, l: seq<Entry>, steps: seq<Step>)
    requires PublishesOnly(t, cfg, l, steps)
    ensures var x := Apply(b, steps);
            Agree(cfg, b, x) && (Same(b, x, STATE_KEY) || Has(x, STATE_KEY, t.encodeState(l)))
  {
    hide Touched;
    if steps != [] {
      var n := |steps| - 1;
      assert steps[n] in steps;
      assert forall s | s in steps[..n] :: s in steps;
      PartlyPublished(t, cfg, b, l, steps[..n]);
    }
  }

  /** Publishing forgets what it touches. */
  lemma PublishForgets(t: Tools, cfg: Config, x: Bucket, y: Bucket, l: seq<Entry>, ts: int)
    requires Collisionless(t) && Agree(cfg, x, y) && CanSign(cfg, RepomdText(t, l, ts))
    ensures Swept(x) + MetadataObjects(t, cfg, l, ts) == Swept(y) + MetadataObjects(t, cfg, l, ts)
  {
    hide IsMetadataFile, HrefOf, Compressed, RepomdText, HasPrefix;
    FixedKeys();
    var o := MetadataObjects(t, cfg, l, ts);
    assert forall k | Touched(cfg, k) :: IsDocument(k) || k in o;
    forall k ensures Same(Swept(x) + o, Swept(y) + o, k) {
      if k !in o && !IsDocument(k) {
        assert Same(x, y, k);
      }
    }
  }

  lemma NotTouched(cfg: Config, key: string)
    requires HasPrefix(key, "Packages/")
    ensures !Touched(cfg, key)
  {
    hide IsMetadataFile, HasPrefix;
    FixedKeys();
    if HasPrefix(key, "repodata/") {
      PackagesAreNoMetadata(key, key);
      assert false;
    }
  }

  // ----- what an Add has done when it is cut off

  ghost function Gone(cfg: Config, l: seq<Entry>, e: Entry): set<string> {
    Elements(Locations(RemovedOf(cfg, ReplaceOrAppend(l, e))))
  }

  /** The bucket of an Add that has uploaded and pruned, but not published. */
  ghost function Pruned(cfg: Config, b: Bucket, l: seq<Entry>, e: Entry, data: string): Bucket {
    b[e.location := data] - Gone(cfg, l, e)
  }

  lemma GoneInPackages(cfg: Config, l: seq<Entry>, e: Entry)
    requires AllProper(ReplaceOrAppend(l, e))
    requires forall f | f in ReplaceOrAppend(l, e) :: f.location == PoolPath(f.meta.header)
    ensures forall k | k in Gone(cfg, l, e) :: HasPrefix(k, "Packages/")
  {
    hide ProperEntry, PoolPath, HasPrefix, Others, RemovedOf, KeptOf;
    var all := ReplaceOrAppend(l, e);
    PruneDivides(cfg, all);
    PartMembers(RemovedOf(cfg, all), KeptOf(cfg, all), all);
    DroppedLocations(RemovedOf(cfg, all));
    forall f | f in all ensures HasPrefix(f.location, "Packages/") {
      InPackages(f);
    }
  }

  /** Where an Add may have got to: some uploading and pruning, or that and some publishing. */
  lemma CutAdd(t: Tools, cfg: Config, b: Bucket, listing: set<string> -> seq<string>, l: seq<Entry>, p: Package,
               data: string, ts: int, k: nat)
    requires Collisionless(t) && Enumerates(listing) && LoadState(t, b) == Some(l)
    requires p.header.name != "" && ProperEntry(EntryOf(p))
    requires k <= |AddPlan(t, cfg, b, listing, p, data, ts).steps|
    ensures var e := EntryOf(p); var x := Apply(b, AddPlan(t, cfg, b, listing, p, data, ts).steps[..k]);
            var m := Pruned(cfg, b, l, e, data);
            || (x[e.location := data] - Gone(cfg, l, e) == m &&
                forall key | key !in Gone(cfg, l, e) && key != e.location :: Same(b, x, key))
            || (Agree(cfg, m, x) && (Same(m, x, STATE_KEY) || Has(x, STATE_KEY, t.encodeState(AddTo(t, cfg, l, e)))))
  {
    hide LoadState, ProperEntry, PoolPath, Others, RemovedOf, KeptOf, Apply, Touched, SortedPlan, AddPlan,
      Collisionless;
    var e, all := EntryOf(p), ReplaceOrAppend(l, EntryOf(p));
    var drop, keys := RemovedOf(cfg, all), Locations(RemovedOf(cfg, all));
    var upload, deletes := [Put(e.location, data)], Deletes(keys);
    var b1, m := b[e.location := data], Pruned(cfg, b, l, e, data);
    AddIs(t, cfg, b, listing, l, p, data, ts);
    ApplyDeletes(b1, keys);
    ApplyOne(b, upload[0]);
    var rest := SortedPlan(t, cfg, Apply(b1, deletes), listing, AddTo(t, cfg, l, e), ts).steps;
    var steps := AddPlan(t, cfg, b, listing, p, data, ts).steps;
    assert steps == upload + (deletes + rest);
    if k <= 1 + |keys| {
      EarlyCut(b, e.location, data, keys, rest, k);
    } else {
      var n := k - 1 - |keys|;
      assert steps[..k] == upload + (deletes + rest[..n]);
      ApplyConcat(b, upload, deletes + rest[..n]);
      ApplyConcat(b1, deletes, rest[..n]);
      SortedPublishes(t, cfg, m, listing, AddTo(t, cfg, l, e), ts);
      assert forall s | s in rest[..n] :: s in rest;
      PartlyPublished(t, cfg, m, AddTo(t, cfg, l, e), rest[..n]);
    }
  }

  lemma EarlyCut(b: Bucket, location: string, data: string, keys: seq<string>, rest: seq<Step>, k: nat)
    requires k <= 1 + |keys|
    ensures var x := Apply(b, ([Put(location, data)] + (Deletes(keys) + rest))[..k]);
            && x[location := data] - Elements(keys) == b[location := data] - Elements(keys)
            && forall key | key !in Elements(keys) && key != location :: Same(b, x, key)
  {
    hide Apply;
    var upload := [Put(location, data)];
    var steps := upload + (Deletes(keys) + rest);
    ApplyOne(b, upload[0]);
    if k == 0 {
      assert steps[..0] == [];
    } else {
      assert steps[..k] == upload + Deletes(keys[..k - 1]);
      ApplyConcat(b, upload, Deletes(keys[..k - 1]));
      ApplyDeletes(b[location := data], keys[..k - 1]);
      assert Elements(keys[..k - 1]) <= Elements(keys);
    }
  }

  // ----- the states an Add that is stopped may leave

  /** What the Add that is run again has to do, whatever order the entries it has kept were written in. */
  lemma RepeatedPruning(cfg: Config, l: seq<Entry>, e: Entry, l2: seq<Entry>)
    requires Unique(multiset(ReplaceOrAppend(l, e))) && AllProper(ReplaceOrAppend(l, e))
    requires multiset(l2) == multiset(KeptOf(cfg, ReplaceOrAppend(l, e)))
    ensures var again := ReplaceOrAppend(l2, e);
            && multiset(KeptOf(cfg, again)) == multiset(l2)
            && ((RemovedOf(cfg, again) == [] && e.location !in Gone(cfg, l, e)) ||
                (RemovedOf(cfg, again) == [e] && e.location in Gone(cfg, l, e)))
  {
    hide ProperEntry, Others, Retained, Removed, Capped, CompareByEvr;
    var all := ReplaceOrAppend(l, e);
    var kept, removed := KeptOf(cfg, all), RemovedOf(cfg, all);
    assert e in all;
    PruneDivides(cfg, all);
    UniqueParts(multiset(removed), multiset(kept));
    PartMembers(removed, kept, all);
    SameMembers(l2, kept);
    DroppedLocations(removed);
    if e in kept {
      assert e in multiset(kept);
      forall f | f in removed ensures f.location != e.location {
        assert f in multiset(removed);
      }
      ReplacedByItself(l2, e);
      WithinCapAgain(cfg, kept, ReplaceOrAppend(l2, e));
    } else {
      assert e in multiset(removed);
      forall f | f in l2 ensures f.location != e.location {
        assert f in multiset(kept);
      }
      OthersAll(l2, e.location);
      PruneTakesAgain(cfg, Others(l, e.location), e, l2);
    }
  }

  /** A manifest within the cap is not pruned, whatever its order. */
  lemma WithinCapAgain(cfg: Config, kept: seq<Entry>, again: seq<Entry>)
    requires WithinCap(cfg, kept) && multiset(again) == multiset(kept) && AllProper(kept)
    ensures KeptOf(cfg, again) == again && RemovedOf(cfg, again) == []
  {
    hide ProperEntry, Retained, Removed, Capped, CompareByEvr;
    if cfg.keepVersions > 0 {
      SameMembers(again, kept);
      CappedPermuted(kept, again, cfg.keepVersions);
      ProperOrders(again);
      PruneAgain(again, cfg.keepVersions, GroupKey, CompareByEvr);
    }
  }

  lemma StartedFrom(t: Tools, cfg: Config, b: Bucket, l: seq<Entry>, p: Package, data: string)
    requires Represents(t, cfg, b, l) && p.header.name != "" && ProperEntry(EntryOf(p)) && ParseRpm(t, data) == Some(p)
    ensures var e := EntryOf(p); var all := ReplaceOrAppend(l, e);
            && Unique(multiset(all)) && AllProper(all)
            && HasPrefix(e.location, "Packages/") && forall k | k in Gone(cfg, l, e) :: HasPrefix(k, "Packages/")
  {
    hide Documented, Blank, ProperEntry, PoolPath, ParseRpm, Others, Unique, HasPrefix, Gone;
    UploadHolds(t, b, l, p, data);
    HoldsProper(t, b[PoolPath(p.header) := data], ReplaceOrAppend(l, EntryOf(p)));
    GoneInPackages(cfg, l, EntryOf(p));
    InPackages(EntryOf(p));
  }

  lemma SettledIs(t: Tools, cfg: Config, b: Bucket, l: seq<Entry>, e: Entry, data: string, ts: int)
    ensures var all := ReplaceOrAppend(l, e);
            Settled(t, cfg, b[e.location := data], RemovedOf(cfg, all), KeptOf(cfg, all), ts) ==
            Swept(Pruned(cfg, b, l, e, data)) + MetadataObjects(t, cfg, AddTo(t, cfg, l, e), ts)
  {
    hide Swept, MetadataObjects, RemovedOf, KeptOf, Others;
  }

  lemma SameState(t: Tools, b: Bucket, x: Bucket)
    requires Same(b, x, STATE_KEY)
    ensures LoadState(t, b) == LoadState(t, x)
  {
  }

  lemma WrittenState(t: Tools, c: Client, x: Bucket, l: seq<Entry>)
    requires Faithful(t, c) && Has(x, STATE_KEY, t.encodeState(l))
    ensures LoadState(t, x) == Some(l)
  {
  }

  lemma SortedInOrder(t: Tools, c: Client, cfg: Config, l: seq<Entry>, e: Entry)
    requires Setting(t, c) && AllProper(ReplaceOrAppend(l, e))
    ensures InOrder(AddTo(t, cfg, l, e)) && AllProper(AddTo(t, cfg, l, e))
    ensures multiset(AddTo(t, cfg, l, e)) == multiset(KeptOf(cfg, ReplaceOrAppend(l, e)))
  {
    hide ProperEntry, RemovedOf, KeptOf, Others, Faithful, InOrder;
    FaithfulIs(t, c);
    var all := ReplaceOrAppend(l, e);
    PruneDivides(cfg, all);
    PartMembers(RemovedOf(cfg, all), KeptOf(cfg, all), all);
    assert AllProper(KeptOf(cfg, all));
    SameMembers(AddTo(t, cfg, l, e), KeptOf(cfg, all));
  }

  /** What the Add prunes is gone, but for its own file, which it puts there again each time. */
  ghost predicate Cleared(cfg: Config, l: seq<Entry>, e: Entry, x: Bucket) {
    forall k | k in Gone(cfg, l, e) && k != e.location :: k !in x
  }

  /** The manifest is the one the Add writes, the entries in some order, and the pool has been pruned. */
  ghost predicate Listed(t: Tools, cfg: Config, l: seq<Entry>, e: Entry, x: Bucket, l2: seq<Entry>) {
    && multiset(l2) == multiset(KeptOf(cfg, ReplaceOrAppend(l, e)))
    && Has(x, STATE_KEY, t.encodeState(l2)) && Cleared(cfg, l, e, x)
  }

  /** The manifest is as the Add found it or as it writes it; what is not the Add's to write is as it was. */
  ghost predicate Underway(t: Tools, cfg: Config, b: Bucket, l: seq<Entry>, e: Entry, x: Bucket) {
    && (forall k | k !in Gone(cfg, l, e) && k != e.location && !Touched(cfg, k) :: Same(b, x, k))
    && (Same(b, x, STATE_KEY) || exists l2 :: Listed(t, cfg, l, e, x, l2))
  }

  /** With the manifest l1 an Add that is run again keeps and deletes what it did, or has no more to delete than its own
      file. */
  ghost predicate Resumes(cfg: Config, b: Bucket, l: seq<Entry>, e: Entry, x: Bucket, l1: seq<Entry>) {
    && multiset(KeptOf(cfg, ReplaceOrAppend(l1, e))) == multiset(KeptOf(cfg, ReplaceOrAppend(l, e)))
    && AllProper(ReplaceOrAppend(l1, e))
    && (e.location in Gone(cfg, l1, e) <==> e.location in Gone(cfg, l, e))
    && (if Same(b, x, STATE_KEY) then l1 == l else Gone(cfg, l1, e) <= {e.location} && Cleared(cfg, l, e, x))
  }

  lemma ResumesAfter(cfg: Config, b: Bucket, l: seq<Entry>, e: Entry, x: Bucket, l2: seq<Entry>)
    requires Unique(multiset(ReplaceOrAppend(l, e))) && AllProper(ReplaceOrAppend(l, e)) && Cleared(cfg, l, e, x)
    requires !Same(b, x, STATE_KEY)
    requires multiset(l2) == multiset(KeptOf(cfg, ReplaceOrAppend(l, e)))
    ensures Resumes(cfg, b, l, e, x, l2)
  {
    hide ProperEntry, KeptOf, RemovedOf, Unique, Cleared, Others;
    var all, removed := ReplaceOrAppend(l, e), RemovedOf(cfg, ReplaceOrAppend(l2, e));
    RepeatedPruning(cfg, l, e, l2);
    DroppedLocations(removed);
    assert Gone(cfg, l2, e) == if removed == [] then {} else {e.location};
    hide Gone;
    PruneDivides(cfg, all);
    PartMembers(RemovedOf(cfg, all), KeptOf(cfg, all), all);
    SameMembers(l2, KeptOf(cfg, all));
    OthersAre(l2, e.location);
    assert e in all;
  }

  lemma StateUnderway(t: Tools, c: Client, cfg: Config, b: Bucket, l: seq<Entry>, p: Package, data: string, x: Bucket)
      returns (l1: seq<Entry>)
    requires Setting(t, c) && Represents(t, cfg, b, l)
    requires p.header.name != "" && ProperEntry(EntryOf(p)) && ParseRpm(t, data) == Some(p)
    requires Underway(t, cfg, b, l, EntryOf(p), x)
    ensures LoadState(t, x) == Some(l1) && Resumes(cfg, b, l, EntryOf(p), x, l1)
  {
    hide Represents, ProperEntry, PoolPath, ParseRpm, Faithful, Sorts, LoadState, Gone, KeptOf, Others, Unique, Touched,
      Cleared;
    StartedFrom(t, cfg, b, l, p, data);
    if Same(b, x, STATE_KEY) {
      l1 := l;
      StateIs(t, c, cfg, b, l);
      SameState(t, b, x);
    } else {
      l1 :| Listed(t, cfg, l, EntryOf(p), x, l1);
      WrittenState(t, c, x, l1);
      ResumesAfter(cfg, b, l, EntryOf(p), x, l1);
    }
  }

  lemma PrunedUnderway(t: Tools, cfg: Config, b: Bucket, l: seq<Entry>, e: Entry, data: string, x: Bucket,
                       l1: seq<Entry>)
    requires Underway(t, cfg, b, l, e, x) && Resumes(cfg, b, l, e, x, l1)
    ensures Agree(cfg, Pruned(cfg, b, l, e, data), Pruned(cfg, x, l1, e, data))
  {
    hide Gone, Touched, KeptOf, Others, AllProper;
    var m, y := Pruned(cfg, b, l, e, data), Pruned(cfg, x, l1, e, data);
    forall k | !Touched(cfg, k) ensures Same(m, y, k) {
      if k !in Gone(cfg, l, e) && k != e.location {
        assert Same(b, x, k);
      }
    }
  }

  /** Stopped once more, it is still underway. */
  lemma CutKeepsUnderway(t: Tools, c: Client, cfg: Config, b: Bucket, listing: set<string> -> seq<string>,
                         l: seq<Entry>, p: Package, data: string, x: Bucket, ts: int, k: nat)
    requires Setting(t, c) && Enumerates(listing) && Represents(t, cfg, b, l)
    requires p.header.name != "" && ProperEntry(EntryOf(p)) && ParseRpm(t, data) == Some(p)
    requires Underway(t, cfg, b, l, EntryOf(p), x)
    requires k <= |AddPlan(t, cfg, x, listing, p, data, ts).steps|
    ensures Underway(t, cfg, b, l, EntryOf(p), Apply(x, AddPlan(t, cfg, x, listing, p, data, ts).steps[..k]))
  {
    hide Represents, ProperEntry, PoolPath, ParseRpm, Faithful, Sorts, LoadState, Gone, KeptOf, Others, Unique, Touched,
      Cleared, Apply, AddPlan, Underway, Resumes, Pruned, Agree, HasPrefix, AddTo;
    FaithfulIs(t, c);
    StartedFrom(t, cfg, b, l, p, data);
    var e := EntryOf(p);
    var y := Apply(x, AddPlan(t, cfg, x, listing, p, data, ts).steps[..k]);
    var l1 := StateUnderway(t, c, cfg, b, l, p, data, x);
    CutAdd(t, cfg, x, listing, l1, p, data, ts, k);
    GoneApart(cfg, l, e);
    if forall key | key !in Gone(cfg, l1, e) && key != e.location :: Same(x, y, key) {
      CutEarly(t, cfg, b, l, e, x, l1, y);
    } else {
      ResumedInOrder(t, c, cfg, b, l, e, x, l1);
      CutLate(t, cfg, b, l, e, data, x, l1, y);
    }
  }

  lemma ResumedInOrder(t: Tools, c: Client, cfg: Config, b: Bucket, l: seq<Entry>, e: Entry, x: Bucket, l1: seq<Entry>)
    requires Setting(t, c) && Resumes(cfg, b, l, e, x, l1)
    ensures InOrder(AddTo(t, cfg, l1, e))
    ensures multiset(AddTo(t, cfg, l1, e)) == multiset(KeptOf(cfg, ReplaceOrAppend(l, e)))
  {
    hide Faithful, Sorts, Gone, KeptOf, Others, InOrder, AllProper, AddTo, Cleared;
    SortedInOrder(t, c, cfg, l1, e);
  }

  /** Package files are neither the manifest nor metadata. */
  lemma GoneApart(cfg: Config, l: seq<Entry>, e: Entry)
    requires HasPrefix(e.location, "Packages/") && forall k | k in Gone(cfg, l, e) :: HasPrefix(k, "Packages/")
    ensures STATE_KEY !in Gone(cfg, l, e) && STATE_KEY != e.location
    ensures forall k | k in Gone(cfg, l, e) :: !Touched(cfg, k)
  {
    hide Gone, HasPrefix, Touched;
    StateIsNoPackage(Gone(cfg, l, e), e.location);
    forall k | k in Gone(cfg, l, e) ensures !Touched(cfg, k) {
      NotTouched(cfg, k);
    }
  }

  lemma StateIsNoPackage(keys: set<string>, location: string)
    requires HasPrefix(location, "Packages/") && forall k | k in keys :: HasPrefix(k, "Packages/")
    ensures STATE_KEY !in keys && STATE_KEY != location
  {
    hide HasPrefix, IsMetadataFile;
    FixedKeys();
    PackagesAreNoMetadata(location, STATE_KEY);
    if STATE_KEY in keys {
      PackagesAreNoMetadata(STATE_KEY, STATE_KEY);
    }
  }

  lemma CutEarly(t: Tools, cfg: Config, b: Bucket, l: seq<Entry>, e: Entry, x: Bucket, l1: seq<Entry>, y: Bucket)
    requires Underway(t, cfg, b, l, e, x) && Resumes(cfg, b, l, e, x, l1)
    requires STATE_KEY !in Gone(cfg, l, e) && STATE_KEY != e.location
    requires forall key | key !in Gone(cfg, l1, e) && key != e.location :: Same(x, y, key)
    ensures Underway(t, cfg, b, l, e, y)
  {
    hide Gone, Touched, KeptOf, Others, AllProper;
    assert Same(x, y, STATE_KEY);
    forall k | k !in Gone(cfg, l, e) && k != e.location && !Touched(cfg, k) ensures Same(b, y, k) {
      assert Same(b, x, k) && Same(x, y, k);
    }
    if !Same(b, x, STATE_KEY) {
      var l2 :| Listed(t, cfg, l, e, x, l2);
      forall k | k in Gone(cfg, l, e) && k != e.location ensures k !in y {
        assert Same(x, y, k);
      }
      assert Listed(t, cfg, l, e, y, l2);
    }
  }

  lemma CutLate(t: Tools, cfg: Config, b: Bucket, l: seq<Entry>, e: Entry, data: string, x: Bucket, l1: seq<Entry>,
                y: Bucket)
    requires Underway(t, cfg, b, l, e, x) && Resumes(cfg, b, l, e, x, l1)
    requires STATE_KEY !in Gone(cfg, l, e) && STATE_KEY != e.location
    requires forall k | k in Gone(cfg, l, e) :: !Touched(cfg, k)
    requires var m := Pruned(cfg, x, l1, e, data);
             Agree(cfg, m, y) && (Same(m, y, STATE_KEY) || Has(y, STATE_KEY, t.encodeState(AddTo(t, cfg, l1, e))))
    requires multiset(AddTo(t, cfg, l1, e)) == multiset(KeptOf(cfg, ReplaceOrAppend(l, e)))
    ensures Underway(t, cfg, b, l, e, y)
  {
    hide Gone, Touched, KeptOf, Others, AllProper, AddTo;
    var m := Pruned(cfg, x, l1, e, data);
    forall k | k !in Gone(cfg, l, e) && k != e.location && !Touched(cfg, k) ensures Same(b, y, k) {
      assert Same(b, x, k) && Same(m, y, k);
    }
    forall k | k in Gone(cfg, l, e) && k != e.location ensures k !in y {
      assert Same(m, y, k);
    }
    if Same(m, y, STATE_KEY) {
      assert Same(x, y, STATE_KEY);
      if !Same(b, x, STATE_KEY) {
        var l2 :| Listed(t, cfg, l, e, x, l2);
        assert Listed(t, cfg, l, e, y, l2);
      }
    } else {
      assert Listed(t, cfg, l, e, y, AddTo(t, cfg, l1, e));
    }
  }

  // ----- the theorem

  /** One attempt at an Add: its time, and after how many of its writes it is stopped. */
  datatype Try = Try(ts: int, writes: nat)

  /** The bucket after some tries at the same Add. */
  function Attempted(t: Tools, cfg: Config, b: Bucket, listing: set<string> -> seq<string>, p: Package, data: string,
                     tries: seq<Try>): Bucket
    requires p.header.name != ""
  {
    if tries == [] then b
    else
      var x, a := Attempted(t, cfg, b, listing, p, data, tries[..|tries| - 1]), tries[|tries| - 1];
      var steps := AddPlan(t, cfg, x, listing, p, data, a.ts).steps;
      Apply(x, if a.writes <= |steps| then steps[..a.writes] else steps)
  }

  lemma {:induction false} AttemptedUnderway(t: Tools, c: Client, cfg: Config, b: Bucket,
                                             listing: set<string> -> seq<string>, l: seq<Entry>, p: Package,
                                             data: string, tries: seq<Try>)
    requires Setting(t, c) && Enumerates(listing) && Represents(t, cfg, b, l)
    requires p.header.name != "" && ProperEntry(EntryOf(p)) && ParseRpm(t, data) == Some(p)
    ensures Underway(t, cfg, b, l, EntryOf(p), Attempted(t, cfg, b, listing, p, data, tries))
  {
    hide Represents, ProperEntry, PoolPath, ParseRpm, Faithful, Sorts, AddPlan, Apply, Touched, Gone;
    if tries != [] {
      hide Underway;
      var n := |tries| - 1;
      var a := tries[n];
      AttemptedUnderway(t, c, cfg, b, listing, l, p, data, tries[..n]);
      var x := Attempted(t, cfg, b, listing, p, data, tries[..n]);
      var steps := AddPlan(t, cfg, x, listing, p, data, a.ts).steps;
      assert steps[..|steps|] == steps;
      CutKeepsUnderway(t, c, cfg, b, listing, l, p, data, x, a.ts, if a.writes <= |steps| then a.writes else |steps|);
    }
  }

  /** Run to its end, it leaves the package files of an Add that was never stopped, and documents of the same
      entries. */
  lemma CompletesUnderway(t: Tools, c: Client, cfg: Config, b: Bucket, listing: set<string> -> seq<string>,
                          l: seq<Entry>, p: Package, data: string, x: Bucket, later: int) returns (l3: seq<Entry>)
    requires Setting(t, c) && Enumerates(listing) && Represents(t, cfg, b, l)
    requires p.header.name != "" && ProperEntry(EntryOf(p)) && ParseRpm(t, data) == Some(p)
    requires Underway(t, cfg, b, l, EntryOf(p), x) && AddPlan(t, cfg, x, listing, p, data, later).complete
    ensures multiset(l3) == multiset(KeptOf(cfg, ReplaceOrAppend(l, EntryOf(p)))) && InOrder(l3)
    ensures Same(b, x, STATE_KEY) ==> l3 == AddTo(t, cfg, l, EntryOf(p))
    ensures Apply(x, AddPlan(t, cfg, x, listing, p, data, later).steps) ==
            Swept(Pruned(cfg, b, l, EntryOf(p), data)) + MetadataObjects(t, cfg, l3, later)
  {
    hide Represents, ProperEntry, PoolPath, ParseRpm, Faithful, Sorts, LoadState, Gone, KeptOf, Others, Unique, Touched,
      Cleared, Apply, AddPlan, Underway, Pruned, Agree, Swept, MetadataObjects, RepomdText, CanSign, InOrder, AddTo,
      Collisionless;
    FaithfulIs(t, c);
    var e := EntryOf(p);
    var l1 := StateUnderway(t, c, cfg, b, l, p, data, x);
    l3 := AddTo(t, cfg, l1, e);
    ResumedInOrder(t, c, cfg, b, l, e, x, l1);
    AddSettles(t, cfg, x, listing, l1, p, data, later);
    SettledIs(t, cfg, x, l1, e, data, later);
    PrunedUnderway(t, cfg, b, l, e, data, x, l1);
    PublishForgets(t, cfg, Pruned(cfg, b, l, e, data), Pruned(cfg, x, l1, e, data), l3, later);
  }

  /** Stopped after any of its writes, any number of times and at any times, and then run to its end, an Add leaves what
      one Add of the last time leaves that was never stopped, with the entries in l3 listed in place of the same entries
      in another order. */
  lemma RetriedAddHeals(t: Tools, c: Client, cfg: Config, b: Bucket, listing: set<string> -> seq<string>, l: seq<Entry>,
                        p: Package, data: string, tries: seq<Try>, later: int) returns (l3: seq<Entry>)
    requires Setting(t, c) && Enumerates(listing) && Represents(t, cfg, b, l)
    requires p.header.name != "" && ProperEntry(EntryOf(p)) && ParseRpm(t, data) == Some(p)
    requires AddPlan(t, cfg, b, listing, p, data, later).complete
    requires AddPlan(t, cfg, Attempted(t, cfg, b, listing, p, data, tries), listing, p, data, later).complete
    ensures var x := Attempted(t, cfg, b, listing, p, data, tries);
            var z := Apply(b, AddPlan(t, cfg, b, listing, p, data, later).steps);
            var y := Apply(x, AddPlan(t, cfg, x, listing, p, data, later).steps);
            var m := Swept(Pruned(cfg, b, l, EntryOf(p), data));
            && z == m + MetadataObjects(t, cfg, AddTo(t, cfg, l, EntryOf(p)), later)
            && y == m + MetadataObjects(t, cfg, l3, later)
            && multiset(l3) == multiset(AddTo(t, cfg, l, EntryOf(p))) && InOrder(l3)
  {
    hide Represents, ProperEntry, PoolPath, ParseRpm, Apply, AddPlan, Swept, MetadataObjects, Faithful, Sorts, InOrder,
      Pruned, AddTo, KeptOf, Others, Underway, Attempted, Unique;
    var e := EntryOf(p);
    StartedFrom(t, cfg, b, l, p, data);
    SortedInOrder(t, c, cfg, l, e);
    NothingAttempted(t, cfg, b, listing, p, data);
    AttemptedUnderway(t, c, cfg, b, listing, l, p, data, []);
    AttemptedUnderway(t, c, cfg, b, listing, l, p, data, tries);
    var l2 := CompletesUnderway(t, c, cfg, b, listing, l, p, data, b, later);
    l3 := CompletesUnderway(t, c, cfg, b, listing, l, p, data, Attempted(t, cfg, b, listing, p, data, tries), later);
  }

  lemma NothingAttempted(t: Tools, cfg: Config, b: Bucket, listing: set<string> -> seq<string>, p: Package,
                         data: string)
    requires p.header.name != ""
    ensures Attempted(t, cfg, b, listing, p, data, []) == b
  {
  }

  // ----- without ties

  /** No two entries of a list compare as equal. */
  ghost predicate NoTies(l: seq<Entry>) {
    forall x, y | x in l && y in l && x != y :: CompareEntries(x, y) != 0
  }

  lemma InOrderTail(l: seq<Entry>)
    requires InOrder(l) && l != []
    ensures InOrder(l[1..]) && forall x | x in l && x != l[0] :: CompareEntries(l[0], x) <= 0
  {
    hide CompareEntries;
  }

  /** Without ties there is one order. */
  lemma {:induction false} SortedUnique(x: seq<Entry>, y: seq<Entry>)
    requires multiset(x) == multiset(y) && InOrder(x) && InOrder(y) && AllProper(x) && NoTies(x)
    ensures x == y
    decreases |x|
  {
    hide CompareEntries, InOrder, ProperEntry;
    SameMembers(x, y);
    if x == [] {
      assert |multiset(x)| == |multiset(y)|;
    } else {
      assert x[0] in y;
      assert y[0] in y;
      var a, b := x[0], y[0];
      InOrderTail(x);
      InOrderTail(y);
      if a != b {
        CompareEntriesLaws(a, b, b);
        assert false;
      }
      assert x == [a] + x[1..] && y == [a] + y[1..];
      assert multiset(x) == multiset(x[1..]) + multiset{a};
      assert multiset(y) == multiset(y[1..]) + multiset{a};
      Cancel(multiset(x[1..]), multiset(y[1..]), a);
      SortedUnique(x[1..], y[1..]);
    }
  }

  /** Without ties an Add that is run again publishes what an Add that was never stopped does, and can be signed when
      that can. */
  lemma AgainComplete(t: Tools, c: Client, cfg: Config, b: Bucket, listing: set<string> -> seq<string>, l: seq<Entry>,
                      p: Package, data: string, x: Bucket, later: int)
    requires Setting(t, c) && Enumerates(listing) && Represents(t, cfg, b, l)
    requires p.header.name != "" && ProperEntry(EntryOf(p)) && ParseRpm(t, data) == Some(p)
    requires Underway(t, cfg, b, l, EntryOf(p), x) && NoTies(AddTo(t, cfg, l, EntryOf(p)))
    ensures AddPlan(t, cfg, x, listing, p, data, later).complete <==>
            AddPlan(t, cfg, b, listing, p, data, later).complete
  {
    hide Represents, ProperEntry, PoolPath, ParseRpm, Faithful, Sorts, LoadState, KeptOf, Others, Unique, Apply,
      AddPlan,
      Underway, RepomdText, CanSign, InOrder, AddTo, Collisionless, NoTies, YumRuns.Settled;
    FaithfulIs(t, c);
    var e := EntryOf(p);
    StartedFrom(t, cfg, b, l, p, data);
    var l1 := StateUnderway(t, c, cfg, b, l, p, data, x);
    ResumedInOrder(t, c, cfg, b, l, e, x, l1);
    SortedInOrder(t, c, cfg, l, e);
    SortedUnique(AddTo(t, cfg, l, e), AddTo(t, cfg, l1, e));
    StateIs(t, c, cfg, b, l);
    AddSettles(t, cfg, b, listing, l, p, data, later);
    AddSettles(t, cfg, x, listing, l1, p, data, later);
  }

  /** When no two builds of one name and architecture compare as equal, an Add that was stopped and run again ends in
      exactly the bucket of an Add that was not stopped. */
  lemma RetriedAddHealsExactly(t: Tools, c: Client, cfg: Config, b: Bucket, listing: set<string> -> seq<string>,
                               l: seq<Entry>, p: Package, data: string, tries: seq<Try>, later: int)
    requires Setting(t, c) && Enumerates(listing) && Represents(t, cfg, b, l)
    requires p.header.name != "" && ProperEntry(EntryOf(p)) && ParseRpm(t, data) == Some(p)
    requires AddPlan(t, cfg, b, listing, p, data, later).complete && NoTies(AddTo(t, cfg, l, EntryOf(p)))
    ensures var x := Attempted(t, cfg, b, listing, p, data, tries);
            var again, whole := AddPlan(t, cfg, x, listing, p, data, later),
              AddPlan(t, cfg, b, listing, p, data, later);
            again.complete && Apply(x, again.steps) == Apply(b, whole.steps)
  {
    hide Represents, ProperEntry, PoolPath, ParseRpm, Apply, AddPlan, Swept, MetadataObjects, Faithful, Sorts, InOrder,
      Pruned, AddTo, Others, Unique, NoTies, Attempted, Underway;
    AttemptedUnderway(t, c, cfg, b, listing, l, p, data, tries);
    AgainComplete(t, c, cfg, b, listing, l, p, data, Attempted(t, cfg, b, listing, p, data, tries), later);
    var l3 := RetriedAddHeals(t, c, cfg, b, listing, l, p, data, tries, later);
    StartedFrom(t, cfg, b, l, p, data);
    SortedInOrder(t, c, cfg, l, EntryOf(p));
    SortedUnique(AddTo(t, cfg, l, EntryOf(p)), l3);
  }
}
