/**
 The yum publisher at work on a store: every method makes exactly the writes its plan lists, in order, or is cut
 off after some of them.
 */
module YumPublisher {
  import opened Wrappers
  import opened Storage
  import opened Outcome
  import opened Retention
  import opened Yum
  import RpmVersion

  ghost function SplitsOf(entries: seq<Entry>): set<RpmVersion.EVR> {
    set e | e in entries :: RpmVersion.SplitEVR(EvrOf(e.meta))
  }

  /** Versions whose epochs machine subtraction orders as they are. */
  ghost predicate AllNear(versions: set<RpmVersion.EVR>) {
    forall u, v | u in versions && v in versions :: RpmVersion.EpochsNear(u, v)
  }

  lemma AllNearOrder(entries: seq<Entry>, versions: set<RpmVersion.EVR>)
    requires AllNear(versions) && SplitsOf(entries) <= versions
    ensures Orders(entries, CompareByEvr)
  {
    hide RpmVersion.CompareEVR, RpmVersion.EpochsNear, RpmVersion.SplitEVR, EvrOf;
    forall x | x in entries ensures RpmVersion.SplitEVR(EvrOf(x.meta)) in versions {
      assert RpmVersion.SplitEVR(EvrOf(x.meta)) in SplitsOf(entries);
    }
    forall x, y | x in entries && y in entries ensures CompareByEvr(x, y) < 0 <==> CompareByEvr(y, x) > 0 {
      RpmVersion.CompareAntisymmetric(RpmVersion.SplitEVR(EvrOf(x.meta)), RpmVersion.SplitEVR(EvrOf(y.meta)));
    }
    forall x, y, z | x in entries && y in entries && z in entries && CompareByEvr(x, y) <= 0 && CompareByEvr(y, z) <= 0
      ensures CompareByEvr(x, z) <= 0
    {
      RpmVersion.CompareTransitive(RpmVersion.SplitEVR(EvrOf(x.meta)), RpmVersion.SplitEVR(EvrOf(y.meta)),
                                   RpmVersion.SplitEVR(EvrOf(z.meta)));
    }
  }

  /** The versions that an Add is going to compare can be ordered: those of the manifest, and its own. */
  ghost predicate OrderedState(t: Tools, b: Bucket, entry: Entry) {
    LoadState(t, b).Some? ==> AllNear(SplitsOf(LoadState(t, b).value) + SplitsOf([entry]))
  }

  lemma OthersStep(entries: seq<Entry>, i: nat, location: string)
    requires i < |entries|
    ensures Others(entries[..i + 1], location) ==
            if entries[i].location != location then Others(entries[..i], location) + [entries[i]]
            else Others(entries[..i], location)
  {
    assert entries[..i + 1][..i] == entries[..i];
  }

  lemma {:induction false} OthersAre(entries: seq<Entry>, location: string)
    ensures forall e :: e in Others(entries, location) <==> e in entries && e.location != location
  {
    if entries != [] {
      var n := |entries| - 1;
      OthersAre(entries[..n], location);
      assert entries == entries[..n] + [entries[n]];
    }
  }

  /** `replaceOrAppend`. */
  method ReplaceOrAppendEntry(entries: seq<Entry>, entry: Entry) returns (out: seq<Entry>)
    ensures out == ReplaceOrAppend(entries, entry)
  {
    hide Others;
    out := [];
    NoOthers(entry.location);
    for i := 0 to |entries|
      invariant out == Others(entries[..i], entry.location)
    {
      OthersStep(entries, i, entry.location);
      if entries[i].location != entry.location {
        out := out + [entries[i]];
      }
    }
    assert entries[..|entries|] == entries;
    out := out + [entry];
  }

  lemma NoOthers(location: string)
    ensures Others([], location) == []
  {
  }

  lemma MatchStep(entries: seq<Entry>, i: nat, name: string, version: string)
    requires i < |entries|
    ensures var x, y, e := Without(entries[..i], name, version), Matching(entries[..i], name, version), entries[i];
            && Without(entries[..i + 1], name, version) == (if Matches(e, name, version) then x else x + [e])
            && Matching(entries[..i + 1], name, version) == if Matches(e, name, version) then y + [e] else y
  {
    assert entries[..i + 1][..i] == entries[..i];
  }

  method SplitMatching(entries: seq<Entry>, name: string, version: string) returns (kept: seq<Entry>, drop: seq<Entry>)
    ensures kept == Without(entries, name, version)
    ensures drop == Matching(entries, name, version)
  {
    hide Without, Matching;
    kept, drop := [], [];
    NoMatches(name, version);
    for i := 0 to |entries|
      invariant kept == Without(entries[..i], name, version)
      invariant drop == Matching(entries[..i], name, version)
    {
      MatchStep(entries, i, name, version);
      if Matches(entries[i], name, version) {
        drop := drop + [entries[i]];
      } else {
        kept := kept + [entries[i]];
      }
    }
    assert entries[..|entries|] == entries;
  }

  lemma NoMatches(name: string, version: string)
    ensures Without([], name, version) == [] && Matching([], name, version) == []
  {
  }

  lemma StaleStep(keys: seq<string>, i: nat, keep: set<string>)
    requires i < |keys|
    ensures Stale(keys[..i + 1], keep) ==
            if IsMetadataFile(keys[i]) && keys[i] !in keep then Stale(keys[..i], keep) + [keys[i]]
            else Stale(keys[..i], keep)
  {
    hide IsMetadataFile;
    assert keys[..i + 1][..i] == keys[..i];
  }

  lemma {:induction false} StalePrefix(keys: seq<string>, i: nat, keep: set<string>)
    requires i <= |keys|
    ensures Deletes(Stale(keys[..i], keep)) <= Deletes(Stale(keys, keep))
    decreases |keys| - i
  {
    hide Stale, IsMetadataFile;
    if i < |keys| {
      StaleStep(keys, i, keep);
      StalePrefix(keys, i + 1, keep);
    } else {
      assert keys[..i] == keys;
    }
  }

  lemma DeletesMore(keys: seq<string>, k: string)
    ensures Deletes(keys + [k]) == Deletes(keys) + [Delete(k)] && Deletes([]) == []
  {
  }

  lemma DeletesPrefix(keys: seq<string>, i: nat)
    requires i <= |keys|
    ensures Deletes(keys[..i]) == Deletes(keys)[..i]
    ensures i < |keys| ==> Deletes(keys[..i + 1]) == Deletes(keys[..i]) + [Delete(keys[i])]
  {
  }

  class Publisher {
    const store: Store
    const t: Tools
    const cfg: Config

    constructor (store: Store, t: Tools, cfg: Config)
      ensures this.store == store && this.t == t && this.cfg == cfg
    {
      this.store := store;
      this.t := t;
      this.cfg := cfg;
    }

    method Write(key: string, body: string) returns (e: Option<PublishError>)
      modifies store
      ensures Ends(Plan([Put(key, body)], true), old(store.objects), old(store.trace), store.objects, store.trace,
                   store.calls, e)
      ensures store.asked == old(store.asked)
    {
      FollowsNothing(store.objects, store.trace, [Put(key, body)]);
      var ok := store.Put(key, body);
      return if ok then None else Some(BackendFailed);
    }

    /** `loadState`. */
    method ReadState() returns (r: Result<seq<Entry>, PublishError>)
      modifies store`calls, store`asked
      ensures match r
              case Ok(entries) => LoadState(t, store.objects) == Some(entries)
              case Err(BackendFailed) => store.calls == 0
              case Err(e) => e == BadState && LoadState(t, store.objects).None?
      ensures store.asked == old(store.asked) + {STATE_KEY}
    {
      var got := store.Get(STATE_KEY);
      if got == Err(NotExist) {
        return Ok([]);
      }
      if got.Err? {
        return Err(BackendFailed);
      }
      var entries := t.decodeState(got.value);
      return if entries.Some? then Ok(entries.value) else Err(BadState);
    }

    /** The deletion of the files of pruned or dropped entries. */
    method DeletePackages(drop: seq<Entry>) returns (e: Option<PublishError>)
      modifies store
      ensures Ends(Plan(Deletes(Locations(drop)), true), old(store.objects), old(store.trace), store.objects,
                   store.trace, store.calls, e)
      ensures store.asked == old(store.asked)
      ensures e.None? <==> |store.trace| - |old(store.trace)| >= |drop|
    {
      hide Ends, Finishes, Follows, Deletes;
      ghost var b0, tr0, keys := store.objects, store.trace, Locations(drop);
      FollowsNothing(b0, tr0, []);
      assert keys[..0] == [];
      DeletesMore([], "");
      for i := 0 to |drop|
        invariant Finishes(b0, tr0, store.objects, store.trace, Deletes(keys[..i]))
        invariant store.asked == old(store.asked)
      {
        ghost var b1, tr1 := store.objects, store.trace;
        DeletesPrefix(keys, i);
        var ok := store.Delete(drop[i].location);
        if !ok {
          StoppedAt(b0, tr0, store.objects, store.trace, Deletes(keys[..i]), Deletes(keys), store.calls);
          FinishesLength(b0, tr0, store.objects, store.trace, Deletes(keys[..i]));
          return Some(BackendFailed);
        }
        FinishesThen(b0, tr0, b1, tr1, store.objects, store.trace, Deletes(keys[..i]), [Delete(keys[i])]);
      }
      assert keys[..|drop|] == keys;
      AllDone(b0, tr0, store.objects, store.trace, store.calls, Deletes(keys));
      FinishesLength(b0, tr0, store.objects, store.trace, Deletes(keys));
      return None;
    }

    /** `writeMeta`. */
    method WriteMeta(kind: string, entries: seq<Entry>, ts: int) returns (m: MetaFile, e: Option<PublishError>)
      modifies store
      ensures Ends(Plan([WriteMetaStep(t, kind, entries)], true), old(store.objects), old(store.trace), store.objects,
                   store.trace, store.calls, e)
      ensures m == MetaFileOf(t, kind, entries, ts)
      ensures store.asked == old(store.asked)
    {
      hide Ends, Href;
      var xml := t.document(kind, entries);
      var gz := t.gzip(xml);
      var gzSum := t.sha256(gz);
      m := MetaFile(Href(gzSum, kind), gzSum, t.sha256(xml), |gz|, |xml|, ts);
      e := Write(m.href, gz);
    }

    /** `signRepomd`. */
    method SignRepomd(text: string) returns (e: Option<PublishError>)
      modifies store
      ensures Ends(SignPlan(cfg, text), old(store.objects), old(store.trace), store.objects, store.trace, store.calls,
                   e)
      ensures store.asked == old(store.asked)
    {
      hide Ends, Finishes, Follows;
      if cfg.signer.None? {
        Idle(store.objects, store.trace, store.calls);
        return None;
      }
      var signature := cfg.signer.value(text);
      if signature.None? {
        FollowsNothing(store.objects, store.trace, []);
        Stuck(Plan([], false), store.objects, store.trace, store.objects, store.trace, store.calls);
        return Some(SigningFailed);
      }
      e := Write(SIGNATURE_KEY, signature.value);
    }

    /** `cleanupMetadata`. */
    method CleanupMetadata(keep: set<string>) returns (e: Option<PublishError>)
      modifies store
      ensures Ends(Plan(CleanupSteps(old(store.objects), store.listing, keep), true), old(store.objects),
                   old(store.trace), store.objects, store.trace, store.calls, e)
      ensures store.asked == old(store.asked) + {"repodata/"}
    {
      hide Ends, Finishes, Follows, Stale, Deletes, IsMetadataFile;
      ghost var b0, tr0 := store.objects, store.trace;
      var listed := store.List("repodata/");
      if listed.Err? {
        Unstarted(Plan(CleanupSteps(b0, store.listing, keep), true), b0, tr0, store.calls, BackendFailed);
        return Some(BackendFailed);
      }
      var keys := listed.value;
      FollowsNothing(b0, tr0, []);
      NothingStale(keep);
      for i := 0 to |keys|
        invariant Finishes(b0, tr0, store.objects, store.trace, Deletes(Stale(keys[..i], keep)))
        invariant store.asked == old(store.asked) + {"repodata/"}
      {
        StaleStep(keys, i, keep);
        if IsMetadataFile(keys[i]) && keys[i] !in keep {
          ghost var b1, tr1, done := store.objects, store.trace, Stale(keys[..i], keep);
          DeletesMore(done, keys[i]);
          var ok := store.Delete(keys[i]);
          if !ok {
            StalePrefix(keys, i, keep);
            StoppedAt(b0, tr0, store.objects, store.trace, Deletes(done), Deletes(Stale(keys, keep)), store.calls);
            return Some(BackendFailed);
          }
          FinishesThen(b0, tr0, b1, tr1, store.objects, store.trace, Deletes(done), [Delete(keys[i])]);
        }
      }
      assert keys[..|keys|] == keys;
      AllDone(b0, tr0, store.objects, store.trace, store.calls, Deletes(Stale(keys, keep)));
      return None;
    }

    /** The three documents and the repomd.xml that names them. */
    method WriteMetadata(entries: seq<Entry>, ts: int) returns (text: string, keep: set<string>,
                         e: Option<PublishError>)
      modifies store
      ensures Ends(Plan(MetadataSteps(t, entries) + [Put(REPOMD_KEY, RepomdText(t, entries, ts))], true),
                   old(store.objects), old(store.trace), store.objects, store.trace, store.calls, e)
      ensures e.None? ==> text == RepomdText(t, entries, ts) && keep == Hrefs(t, entries)
      ensures store.asked == old(store.asked)
    {
      hide Ends, Finishes, Follows, WriteMetaStep, HrefOf, Compressed, MetaFileOf;
      ghost var b0, tr0 := store.objects, store.trace;
      text, keep := "", {};
      ghost var p := Plan([WriteMetaStep(t, PRIMARY, entries)], true);
      ghost var f := Plan([WriteMetaStep(t, FILELISTS, entries)], true);
      ghost var o := Plan([WriteMetaStep(t, OTHER, entries)], true);
      ghost var r := Plan([Put(REPOMD_KEY, RepomdText(t, entries, ts))], true);
      MetadataIs(t, entries, RepomdText(t, entries, ts));
      var primary, filelists, other;
      primary, e := WriteMeta(PRIMARY, entries, ts);
      if e.Some? {
        EndsEarly(p, Then(f, Then(o, r)), b0, tr0, store.objects, store.trace, store.calls, e.value);
        return;
      }
      ghost var b1, tr1 := store.objects, store.trace;
      Completed(p, b0, tr0, b1, tr1, store.calls);
      filelists, e := WriteMeta(FILELISTS, entries, ts);
      if e.Some? {
        EndsEarly(f, Then(o, r), b1, tr1, store.objects, store.trace, store.calls, e.value);
        EndsThen(p, Then(f, Then(o, r)), b0, tr0, b1, tr1, store.objects, store.trace, store.calls, e);
        return;
      }
      ghost var b2, tr2 := store.objects, store.trace;
      Completed(f, b1, tr1, b2, tr2, store.calls);
      other, e := WriteMeta(OTHER, entries, ts);
      if e.Some? {
        EndsEarly(o, r, b2, tr2, store.objects, store.trace, store.calls, e.value);
        EndsThen(f, Then(o, r), b1, tr1, b2, tr2, store.objects, store.trace, store.calls, e);
        EndsThen(p, Then(f, Then(o, r)), b0, tr0, b1, tr1, store.objects, store.trace, store.calls, e);
        return;
      }
      ghost var b3, tr3 := store.objects, store.trace;
      Completed(o, b2, tr2, b3, tr3, store.calls);
      var data := [DataEntry(primary, PRIMARY), DataEntry(filelists, FILELISTS), DataEntry(other, OTHER)];
      text := t.encodeRepomd(Repomd(ts, data));
      keep := {primary.href, filelists.href, other.href};
      MetaFileHref(t, PRIMARY, entries, ts);
      MetaFileHref(t, FILELISTS, entries, ts);
      MetaFileHref(t, OTHER, entries, ts);
      e := Write(REPOMD_KEY, text);
      EndsThen(o, r, b2, tr2, b3, tr3, store.objects, store.trace, store.calls, e);
      EndsThen(f, Then(o, r), b1, tr1, b2, tr2, store.objects, store.trace, store.calls, e);
      EndsThen(p, Then(f, Then(o, r)), b0, tr0, b1, tr1, store.objects, store.trace, store.calls, e);
    }

    /** `publish`. */
    method Publish(all: seq<Entry>, ts: int) returns (e: Option<PublishError>)
      modifies store
      ensures Ends(PublishPlan(t, cfg, old(store.objects), store.listing, all, ts), old(store.objects),
                   old(store.trace), store.objects, store.trace, store.calls, e)
      ensures store.asked <= old(store.asked) + {"repodata/"}
    {
      hide Ends, Finishes, Follows, MetadataSteps, RepomdText, SignPlan, CleanupSteps, Hrefs;
      ghost var b0, tr0 := store.objects, store.trace;
      var entries := t.sort(all);
      ghost var write := WritePlan(t, cfg, entries, ts);
      ghost var cleanup := Plan(CleanupSteps(Apply(b0, write.steps), store.listing, Hrefs(t, entries)), true);
      var keep;
      keep, e := WriteAll(entries, ts);
      if e.Some? {
        EndsEarly(write, cleanup, b0, tr0, store.objects, store.trace, store.calls, e.value);
        return;
      }
      ghost var b1, tr1 := store.objects, store.trace;
      Completed(write, b0, tr0, b1, tr1, store.calls);
      FinishesAt(b0, tr0, b1, tr1, write.steps);
      e := CleanupMetadata(keep);
      EndsThen(write, cleanup, b0, tr0, b1, tr1, store.objects, store.trace, store.calls, e);
    }

    /** All of `publish` but the sorting and the cleaning up. */
    method WriteAll(entries: seq<Entry>, ts: int) returns (keep: set<string>, e: Option<PublishError>)
      modifies store
      ensures Ends(WritePlan(t, cfg, entries, ts), old(store.objects), old(store.trace), store.objects, store.trace,
                   store.calls, e)
      ensures e.None? ==> keep == Hrefs(t, entries)
      ensures store.asked == old(store.asked)
    {
      hide Ends, Finishes, Follows, MetadataSteps, RepomdText, SignPlan, Hrefs;
      ghost var b0, tr0 := store.objects, store.trace;
      ghost var text := RepomdText(t, entries, ts);
      ghost var meta := Plan(MetadataSteps(t, entries) + [Put(REPOMD_KEY, text)], true);
      ghost var sign := SignPlan(cfg, text);
      ghost var save := Plan([Put(STATE_KEY, t.encodeState(entries))], true);
      var written;
      written, keep, e := WriteMetadata(entries, ts);
      if e.Some? {
        EndsEarly(meta, Then(sign, save), b0, tr0, store.objects, store.trace, store.calls, e.value);
        return;
      }
      ghost var b1, tr1 := store.objects, store.trace;
      Completed(meta, b0, tr0, b1, tr1, store.calls);
      e := SignRepomd(written);
      if e.Some? {
        EndsEarly(sign, save, b1, tr1, store.objects, store.trace, store.calls, e.value);
        EndsThen(meta, Then(sign, save), b0, tr0, b1, tr1, store.objects, store.trace, store.calls, e);
        return;
      }
      ghost var b2, tr2 := store.objects, store.trace;
      Completed(sign, b1, tr1, b2, tr2, store.calls);
      e := Write(STATE_KEY, t.encodeState(entries));
      EndsThen(sign, save, b1, tr1, b2, tr2, store.objects, store.trace, store.calls, e);
      EndsThen(meta, Then(sign, save), b0, tr0, b1, tr1, store.objects, store.trace, store.calls, e);
    }

    /** Deleting files, then publishing without them; told apart by the flag. */
    method DropAndPublish(drop: seq<Entry>, keep: seq<Entry>, ts: int) returns (deleted: bool, e: Option<PublishError>)
      modifies store
      ensures Ends(DropPlan(t, cfg, old(store.objects), store.listing, drop, keep, ts), old(store.objects),
                   old(store.trace), store.objects, store.trace, store.calls, e)
      ensures deleted <==> |store.trace| - |old(store.trace)| >= |drop|
      ensures e.None? ==> deleted
      ensures store.asked <= old(store.asked) + {"repodata/"}
    {
      hide Ends, Finishes, Follows, PublishPlan, Deletes;
      ghost var b0, tr0 := store.objects, store.trace;
      ghost var deletes := Plan(Deletes(Locations(drop)), true);
      ghost var publish := PublishPlan(t, cfg, Apply(b0, deletes.steps), store.listing, keep, ts);
      e := DeletePackages(drop);
      deleted := e.None?;
      if e.Some? {
        EndsEarly(deletes, publish, b0, tr0, store.objects, store.trace, store.calls, e.value);
        return;
      }
      ghost var b1, tr1 := store.objects, store.trace;
      Completed(deletes, b0, tr0, b1, tr1, store.calls);
      FinishesAt(b0, tr0, b1, tr1, deletes.steps);
      e := Publish(keep, ts);
      EndsLater(publish, b1, tr1, store.objects, store.trace, store.calls, e);
      EndsThen(deletes, publish, b0, tr0, b1, tr1, store.objects, store.trace, store.calls, e);
    }

    method Update(entry: Entry, ts: int) returns (e: Option<PublishError>)
      requires cfg.keepVersions > 0 ==> OrderedState(t, store.objects, entry)
      modifies store
      ensures Ends(UpdatePlan(t, cfg, old(store.objects), store.listing, entry, ts), old(store.objects),
                   old(store.trace), store.objects, store.trace, store.calls, e)
      ensures store.asked <= old(store.asked) + {STATE_KEY, "repodata/"}
    {
      hide Ends, LoadState, DropPlan, AllNear, RpmVersion.SplitEVR, EvrOf, Others, Retained, Removed;
      ghost var b0, tr0 := store.objects, store.trace;
      var existing := ReadState();
      if existing.Err? {
        Unstarted(UpdatePlan(t, cfg, b0, store.listing, entry, ts), b0, tr0, store.calls, existing.error);
        return Some(existing.error);
      }
      var entries := ReplaceOrAppendEntry(existing.value, entry);
      var removed: seq<Entry> := [];
      if cfg.keepVersions > 0 {
        OthersAre(existing.value, entry.location);
        assert entry in [entry];
        AllNearOrder(entries, SplitsOf(existing.value) + SplitsOf([entry]));
        entries, removed := Prune(entries, cfg.keepVersions, GroupKey, CompareByEvr);
      }
      var deleted;
      deleted, e := DropAndPublish(removed, entries, ts);
    }

    /** `Add`. */
    method Add(data: string, ts: int) returns (e: Option<PublishError>)
      requires cfg.keepVersions > 0 && ParseRpm(t, data).Some? ==>
                 var p := ParseRpm(t, data).value;
                 OrderedState(t, store.objects[PoolPath(p.header) := data], EntryOf(p))
      modifies store
      ensures ParseRpm(t, data).None? ==> e == Some(BadPackage) && unchanged(store)
      ensures ParseRpm(t, data).Some? ==>
                Ends(AddPlan(t, cfg, old(store.objects), store.listing, ParseRpm(t, data).value, data, ts),
                     old(store.objects), old(store.trace), store.objects, store.trace, store.calls, e)
      ensures store.asked <= old(store.asked) + {STATE_KEY, "repodata/"}
    {
      hide Ends, Finishes, Follows, UpdatePlan, OrderedState, PoolPath, ParseRpm;
      var parsed := ParseRpm(t, data);
      if parsed.None? {
        return Some(BadPackage);
      }
      var p := parsed.value;
      var location := PoolPath(p.header);
      ghost var b0, tr0 := store.objects, store.trace;
      ghost var upload := Plan([Put(location, data)], true);
      ghost var update := UpdatePlan(t, cfg, Apply(b0, upload.steps), store.listing, EntryOf(p), ts);
      ApplyOne(b0, Put(location, data));
      e := Write(location, data);
      if e.Some? {
        EndsEarly(upload, update, b0, tr0, store.objects, store.trace, store.calls, e.value);
        return;
      }
      ghost var b1, tr1 := store.objects, store.trace;
      Completed(upload, b0, tr0, b1, tr1, store.calls);
      FinishesAt(b0, tr0, b1, tr1, upload.steps);
      e := Update(EntryOf(p), ts);
      EndsThen(upload, update, b0, tr0, b1, tr1, store.objects, store.trace, store.calls, e);
    }

    /** `Remove`: how many entries went, if their files were deleted. */
    method Remove(name: string, version: string, ts: int) returns (removed: nat, e: Option<PublishError>)
      modifies store
      ensures Ends(RemovePlan(t, cfg, old(store.objects), store.listing, name, version, ts), old(store.objects),
                   old(store.trace), store.objects, store.trace, store.calls, e)
      ensures var count := RemoveCount(t, old(store.objects), name, version);
              removed == if |store.trace| - |old(store.trace)| >= count then count else 0
      ensures e.None? ==> removed == RemoveCount(t, old(store.objects), name, version)
      ensures store.asked <= old(store.asked) + {STATE_KEY, "repodata/"}
    {
      hide Ends, LoadState, DropPlan, Without, Matching;
      ghost var b0, tr0 := store.objects, store.trace;
      var existing := ReadState();
      if existing.Err? {
        Unstarted(RemovePlan(t, cfg, b0, store.listing, name, version, ts), b0, tr0, store.calls, existing.error);
        return 0, Some(existing.error);
      }
      var kept, drop := SplitMatching(existing.value, name, version);
      if |drop| == 0 {
        Idle(b0, tr0, store.calls);
        return 0, None;
      }
      var deleted;
      deleted, e := DropAndPublish(drop, kept, ts);
      removed := if deleted then |drop| else 0;
    }
  }

  lemma NothingStale(keep: set<string>)
    ensures Stale([], keep) == [] && Deletes([]) == []
  {
  }

  lemma MetaFileHref(t: Tools, kind: string, entries: seq<Entry>, ts: int)
    ensures MetaFileOf(t, kind, entries, ts).href == HrefOf(t, kind, entries)
  {
  }

  lemma MetadataIs(t: Tools, entries: seq<Entry>, text: string)
    ensures Then(Plan([WriteMetaStep(t, PRIMARY, entries)], true),
                 Then(Plan([WriteMetaStep(t, FILELISTS, entries)], true),
                      Then(Plan([WriteMetaStep(t, OTHER, entries)], true), Plan([Put(REPOMD_KEY, text)], true))))
            == Plan(MetadataSteps(t, entries) + [Put(REPOMD_KEY, text)], true)
  {
    hide WriteMetaStep;
  }
}
