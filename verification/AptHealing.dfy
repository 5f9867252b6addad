/**
 A retried Add heals: stopped after any of its writes, any number of times, and then run to its end, it leaves the
 bucket that one uninterrupted Add leaves.
 */
module AptHealing {
  import opened Wrappers
  import opened Text
  import opened Paths
  import opened Sorting
  import opened Storage
  import opened Control
  import opened Retention
  import opened RetentionLaws
  import opened Apt
  import opened AptKeys
  import opened AptState
  import opened AptInvariant
  import opened AptRuns
  import opened AptRelease
  import DebVersion

  // ----- pruning again

  lemma {:induction false} PickFront(l: seq<Deb>, d: Deb, s: set<nat>, n: nat)
    requires n <= |l|
    ensures Pick(l + [d], s, n) == Pick(l, s, n)
  {
    if n > 0 {
      PickFront(l, d, s, n - 1);
      assert (l + [d])[n - 1] == l[n - 1];
    }
  }

  /** What is kept of a list with d at its end is d, or not, after what is kept of the rest. */
  lemma KeptShape(cfg: Config, rest: seq<Deb>, d: Deb) returns (front: seq<Deb>)
    ensures forall e | e in front :: e in rest
    ensures KeptDebs(cfg, rest + [d]) == front + [d] || KeptDebs(cfg, rest + [d]) == front
    ensures cfg.keepVersions <= 0 ==> KeptDebs(cfg, rest + [d]) == front + [d]
    ensures cfg.keepVersions > 0 ==>
              (KeptDebs(cfg, rest + [d]) == front <==>
               !Survives(rest + [d], cfg.keepVersions, DebName, CompareDebs, |rest|))
  {
    hide Survives;
    var all, keep := rest + [d], cfg.keepVersions;
    if keep <= 0 {
      front := rest;
    } else {
      var s := Survivors(all, keep, DebName, CompareDebs);
      front := Pick(rest, s, |rest|);
      PickFront(rest, d, s, |rest|);
      forall e | e in front ensures e in rest {
        PickMember(rest, s, |rest|, e);
      }
      assert Pick(all, s, |all|) == if |rest| in s then front + [d] else front;
    }
  }

  lemma WithoutConcat(x: seq<Deb>, d: Deb, name: string, version: string)
    requires forall e | e in x :: !Matches(e.pkg, name, version)
    requires Matches(d.pkg, name, version)
    ensures WithoutDebs(x + [d], name, version) == x
  {
    WithoutAppend(x, [d], name, version);
    WithoutNone(x, name, version);
    assert WithoutDebs([d], name, version) == [] + WithoutDebs([], name, version);
    assert x + [] == x;
  }

  lemma {:induction false} WithoutAppend(x: seq<Deb>, y: seq<Deb>, name: string, version: string)
    ensures WithoutDebs(x + y, name, version) == WithoutDebs(x, name, version) + WithoutDebs(y, name, version)
  {
    hide Matches;
    if x == [] {
      assert x + y == y;
      assert WithoutDebs(x, name, version) + WithoutDebs(y, name, version) == WithoutDebs(y, name, version);
    } else {
      assert (x + y)[1..] == x[1..] + y;
      WithoutAppend(x[1..], y, name, version);
      var h := if Matches(x[0].pkg, name, version) then [] else [x[0]];
      var u, v := WithoutDebs(x[1..], name, version), WithoutDebs(y, name, version);
      assert h + (u + v) == (h + u) + v;
    }
  }

  /** Adding the same package again to what was kept changes nothing, except that it may be removed once more. */
  lemma PruneRepeats(t: Tools, cfg: Config, id: IndexId, rest: seq<Deb>, d: Deb)
    requires forall e | e in rest + [d] :: GoodDeb(t, e)
    requires forall e | e in rest :: !Matches(e.pkg, d.pkg.name, d.pkg.version)
    ensures var kept := KeptDebs(cfg, rest + [d]);
            var all := WithoutDebs(kept, d.pkg.name, d.pkg.version) + [d];
            KeptDebs(cfg, all) == kept && RemovedDebs(cfg, all) == if d in kept then [] else [d]
  {
    hide KeptDebs, RemovedDebs, GoodDeb, WithoutDebs;
    var keep := cfg.keepVersions;
    var kept := KeptDebs(cfg, rest + [d]);
    var front := KeptShape(cfg, rest, d);
    assert d !in front by {
      assert Matches(d.pkg, d.pkg.name, d.pkg.version);
    }
    WithoutConcat(front, d, d.pkg.name, d.pkg.version);
    WithoutNone(front, d.pkg.name, d.pkg.version);
    if kept == front + [d] {
      assert d in kept;
      KeptAgain(t, cfg, kept, rest + [d]);
    } else {
      KeptOutranked(t, cfg, rest, d);
    }
  }

  lemma KeptAgain(t: Tools, cfg: Config, kept: seq<Deb>, all: seq<Deb>)
    requires forall e | e in all :: GoodDeb(t, e)
    requires kept == KeptDebs(cfg, all)
    ensures KeptDebs(cfg, kept) == kept && RemovedDebs(cfg, kept) == []
  {
    hide Retained, Removed, GoodDeb, Orders, Capped, CompareDebs;
    if cfg.keepVersions > 0 {
      DebsOrder(t, all);
      RetainedIsCapped(all, cfg.keepVersions, DebName, CompareDebs);
      forall e | e in kept ensures GoodDeb(t, e) {
        RetainedMember(all, cfg.keepVersions, DebName, CompareDebs, e);
      }
      DebsOrder(t, kept);
      PruneAgain(kept, cfg.keepVersions, DebName, CompareDebs);
    }
  }

  lemma KeptOutranked(t: Tools, cfg: Config, rest: seq<Deb>, d: Deb)
    requires cfg.keepVersions > 0 && forall e | e in rest + [d] :: GoodDeb(t, e)
    requires !Survives(rest + [d], cfg.keepVersions, DebName, CompareDebs, |rest|)
    ensures var kept := KeptDebs(cfg, rest + [d]);
            KeptDebs(cfg, kept + [d]) == kept && RemovedDebs(cfg, kept + [d]) == [d]
  {
    hide Retained, Removed, GoodDeb, Orders, Capped, CompareDebs, Survives, Count;
    var all, keep := rest + [d], cfg.keepVersions;
    var kept := KeptDebs(cfg, all);
    DebsOrder(t, all);
    RetainedIsCapped(all, keep, DebName, CompareDebs);
    RemovedLastIsCovered(rest, d, keep, DebName, CompareDebs);
    assert d in all;
    forall e | e in kept ensures GoodDeb(t, e) {
      RetainedMember(all, keep, DebName, CompareDebs, e);
    }
    DebsOrder(t, kept + [d]);
    PruneOutranked(kept, d, keep, DebName, CompareDebs);
  }

  // ----- what an Add works on

  /** The pool files an Add deletes, in order. */
  function PoolFileList(cfg: Config, repo: Repo, id: IndexId, d: Deb): seq<string> {
    Map(PoolOf(id.component), RemovedDebs(cfg, AllDebs(repo, id, d)))
  }

  ghost function Content(t: Tools, cfg: Config, repo: Repo, id: IndexId, d: Deb): string {
    BuildPackages(Entries(t, id.component, KeptDebs(cfg, AllDebs(repo, id, d))))
  }

  lemma AfterIndexIs(t: Tools, cfg: Config, b: Bucket, repo: Repo, id: IndexId, d: Deb)
    ensures AfterIndex(t, cfg, b, repo, id, d) ==
            (b[PoolPath(id.component, d.pkg) := d.data] - Elements(PoolFileList(cfg, repo, id, d)))
            [FileKey(cfg, id, "Packages") := Content(t, cfg, repo, id, d)]
            [FileKey(cfg, id, "Packages.gz") := t.gzip(Content(t, cfg, repo, id, d))]
  {
    hide PoolPath, FileKey, BuildPackages, Entries, KeptDebs, RemovedDebs, AllDebs;
    PoolFilesAre(id.component, RemovedDebs(cfg, AllDebs(repo, id, d)));
  }

  lemma FileIsNotIndex(t: Tools, cfg: Config, id: IndexId, d: Deb)
    requires Setting(t, cfg) && GoodId(id) && GoodDeb(t, d) && d.pkg.architecture == id.arch
    ensures PoolPath(id.component, d.pkg) != FileKey(cfg, id, "Packages")
    ensures PoolPath(id.component, d.pkg) != FileKey(cfg, id, "Packages.gz")
    ensures FileKey(cfg, id, "Packages") != FileKey(cfg, id, "Packages.gz")
  {
    hide GoodDeb, PoolPath, FileKey;
    PoolKeysDiffer(t, id, d, id, d);
    IndexKeyInDist(cfg, id, "Packages");
    IndexKeyInDist(cfg, id, "Packages.gz");
    PoolIsNotDist(PoolPath(id.component, d.pkg), FileKey(cfg, id, "Packages"));
    PoolIsNotDist(PoolPath(id.component, d.pkg), FileKey(cfg, id, "Packages.gz"));
    if FileKey(cfg, id, "Packages") == FileKey(cfg, id, "Packages.gz") {
      IndexKeyInjective(cfg, id, "Packages", id, "Packages.gz");
    }
  }

  /** The packages that an Add deals with. */
  lemma AllGood(t: Tools, cfg: Config, b: Bucket, repo: Repo, id: IndexId, d: Deb)
    requires Represents(t, cfg, b, repo) && Setting(t, cfg)
    requires GoodId(id) && GoodDeb(t, d) && d.pkg.architecture == id.arch
    ensures var all := AllDebs(repo, id, d);
            && Distinct(all) && (forall e | e in all :: GoodDeb(t, e) && e.pkg.architecture == id.arch)
            && Divides(all, KeptDebs(cfg, all), RemovedDebs(cfg, all))
            && ValidIndex(t, cfg, id, KeptDebs(cfg, all))
  {
    hide Represents, GoodDeb, PoolPath, KeptDebs, RemovedDebs, Distinct, PooledList, Divides, AllDebs, Staged,
      ValidIndex;
    UploadStages(t, cfg, b, repo, id, d);
    StagedIsGood(t, cfg, b[PoolPath(id.component, d.pkg) := d.data], repo[id := AllDebs(repo, id, d)], id);
    PruneDivides(t, cfg, id, AllDebs(repo, id, d));
  }

  lemma StagedIsGood(t: Tools, cfg: Config, b: Bucket, repo: Repo, id: IndexId)
    requires Staged(t, cfg, b, repo, id)
    ensures Distinct(repo[id]) && forall e | e in repo[id] :: GoodDeb(t, e) && e.pkg.architecture == id.arch
  {
    hide Distinct, GoodDeb, OnlyIndexes, NoOrphans, PooledList;
  }

  lemma FileOutsideRemoved(t: Tools, cfg: Config, b: Bucket, repo: Repo, id: IndexId, d: Deb)
    requires Setting(t, cfg) && Represents(t, cfg, b, repo)
    requires GoodId(id) && GoodDeb(t, d) && d.pkg.architecture == id.arch
    ensures PoolPath(id.component, d.pkg) in Elements(PoolFileList(cfg, repo, id, d)) <==>
            d !in KeptDebs(cfg, AllDebs(repo, id, d))
  {
    hide Represents, GoodDeb, PoolPath, KeptDebs, RemovedDebs, ValidIndex, Distinct, Elements;
    var all := AllDebs(repo, id, d);
    var kept, removed := KeptDebs(cfg, all), RemovedDebs(cfg, all);
    AllGood(t, cfg, b, repo, id, d);
    PoolFilesAre(id.component, removed);
    assert d in all;
    if d in kept {
      forall e | e in removed ensures !SameIdentity(d, e) {
        DistinctMembers(all, d, e);
      }
      OutsidePoolFiles(t, id, d, id, removed);
    }
  }

  lemma PoolFileListInPool(t: Tools, cfg: Config, b: Bucket, repo: Repo, id: IndexId, d: Deb)
    requires Setting(t, cfg) && Represents(t, cfg, b, repo)
    requires GoodId(id) && GoodDeb(t, d) && d.pkg.architecture == id.arch
    ensures HasPrefix(PoolPath(id.component, d.pkg), "pool/")
    ensures forall k | k in PoolFileList(cfg, repo, id, d) :: HasPrefix(k, "pool/")
  {
    hide Represents, GoodDeb, KeptDebs, RemovedDebs, AllDebs, ValidIndex, PoolFiles, PoolPath, Distinct;
    var removed := RemovedDebs(cfg, AllDebs(repo, id, d));
    AllGood(t, cfg, b, repo, id, d);
    PoolFilesAre(id.component, removed);
    PoolFilesInPool(t, id, removed);
    PoolKeysDiffer(t, id, d, id, d);
    forall k | k in PoolFileList(cfg, repo, id, d) ensures HasPrefix(k, "pool/") {
      assert k in Elements(PoolFileList(cfg, repo, id, d));
    }
  }

  // ----- the states an Add that is stopped may leave

  /** The keys an Add writes. */
  ghost function AddKeys(cfg: Config, repo: Repo, id: IndexId, d: Deb, release: set<string>): set<string> {
    {PoolPath(id.component, d.pkg), FileKey(cfg, id, "Packages"), FileKey(cfg, id, "Packages.gz")}
    + Elements(PoolFileList(cfg, repo, id, d)) + release
  }

  /** What the Add prunes is gone, but for its own file, which it puts there again each time. */
  ghost predicate Cleared(cfg: Config, repo: Repo, id: IndexId, d: Deb, x: Bucket) {
    forall k | k in PoolFileList(cfg, repo, id, d) && k != PoolPath(id.component, d.pkg) :: k !in x
  }

  /** The index is as the Add found it, or as the Add writes it once the pool has been pruned; what is not the Add's to
      write is as it was. */
  ghost predicate Underway(t: Tools, cfg: Config, b: Bucket, repo: Repo, id: IndexId, d: Deb, release: set<string>,
                           x: Bucket) {
    && AgreeOutside(b, x, AddKeys(cfg, repo, id, d, release))
    && (|| Same(b, x, FileKey(cfg, id, "Packages"))
        || (Has(x, FileKey(cfg, id, "Packages"), Content(t, cfg, repo, id, d)) && Cleared(cfg, repo, id, d, x)))
  }

  /** The keys of Release files, which are none of the others. */
  ghost predicate ReleaseApart(cfg: Config, repo: Repo, id: IndexId, d: Deb, release: set<string>) {
    && release !! AddKeys(cfg, repo, id, d, {})
    && forall k | k in release :: exists f :: IsReleaseName(f) && k == ReleaseKey(cfg, f)
  }

  lemma ReleaseKeysApart(t: Tools, cfg: Config, b: Bucket, repo: Repo, id: IndexId, d: Deb, text: string)
    requires Setting(t, cfg) && Represents(t, cfg, b, repo)
    requires GoodId(id) && GoodDeb(t, d) && d.pkg.architecture == id.arch
    ensures ReleaseApart(cfg, repo, id, d, KeysOf(ReleaseSteps(cfg, text).steps))
    ensures OnlyPuts(ReleaseSteps(cfg, text).steps)
  {
    hide Represents, GoodDeb, PoolPath, FileKey, ReleaseSteps, ReleaseKey, DistDir, PoolFileList, IsReleaseName;
    var steps := ReleaseSteps(cfg, text).steps;
    ReleaseStepsAre(cfg, text);
    PoolFileListInPool(t, cfg, b, repo, id, d);
    DistDirIs(cfg);
    forall s | s in steps
      ensures s.Put? && s.key !in AddKeys(cfg, repo, id, d, {})
      ensures exists f :: IsReleaseName(f) && s.key == ReleaseKey(cfg, f)
    {
      var i :| 0 <= i < |steps| && steps[i] == s;
      assert IsReleasePut(cfg, steps[i]);
      var f :| IsReleaseName(f) && s.key == ReleaseKey(cfg, f);
      ReleaseIsNoIndex(cfg, f, id, "Packages");
      ReleaseIsNoIndex(cfg, f, id, "Packages.gz");
      ReleaseKeyIs(cfg, f);
      PoolIsNotDist(PoolPath(id.component, d.pkg), s.key);
      forall k | k in PoolFileList(cfg, repo, id, d) ensures s.key != k {
        PoolIsNotDist(k, s.key);
      }
    }
  }

  // ----- the writes of an Add in such a state

  lemma RewriteParts(t: Tools, cfg: Config, id: IndexId, kept: seq<Deb>, removed: seq<Deb>)
    requires Plain(cfg.distribution) && GoodId(id)
    requires forall i :: 0 <= i < |removed| ==> Publishable(removed[i].pkg)
    ensures var content := BuildPackages(Entries(t, id.component, kept));
            RewriteIndex(t, IndexKey(cfg, id), Entries(t, id.component, kept), Entries(t, id.component, removed)) ==
            Deletes(Map(PoolOf(id.component), removed)) +
            [Put(FileKey(cfg, id, "Packages"), content), Put(FileKey(cfg, id, "Packages.gz"), t.gzip(content))]
  {
    hide PackagesKey, FileKey, BuildPackages, Entries, Publishable, Filenames;
    FilenamesAre(t, id.component, removed);
    FileKeyIs(cfg, id);
  }

  /** What the index part of an Add writes after so many deletions. */
  ghost function IndexPuts(t: Tools, cfg: Config, repo: Repo, id: IndexId, d: Deb): seq<Step> {
    var content := Content(t, cfg, repo, id, d);
    [Put(FileKey(cfg, id, "Packages"), content), Put(FileKey(cfg, id, "Packages.gz"), t.gzip(content))]
  }

  /** Either the Add prunes again what it pruned the first time, or it has no more to delete than its own file. */
  ghost predicate Deletions(cfg: Config, repo: Repo, id: IndexId, d: Deb, x: Bucket, gone: seq<string>) {
    var file := PoolPath(id.component, d.pkg);
    && (file in gone <==> d !in KeptDebs(cfg, AllDebs(repo, id, d)))
    && (gone == PoolFileList(cfg, repo, id, d) || (Elements(gone) <= {file} && Cleared(cfg, repo, id, d, x)))
  }

  lemma IndexStepsEarly(t: Tools, cfg: Config, b: Bucket, repo: Repo, id: IndexId, d: Deb, x: Bucket)
    requires Setting(t, cfg) && Represents(t, cfg, b, repo)
    requires GoodId(id) && GoodDeb(t, d) && d.pkg.architecture == id.arch
    requires Same(b, x, FileKey(cfg, id, "Packages"))
    ensures var gone := PoolFileList(cfg, repo, id, d);
            && Deletions(cfg, repo, id, d, x, gone)
            && IndexPlan(t, cfg, x[PoolPath(id.component, d.pkg) := d.data], id.component,
                         IndexEntry(t, id.component, d.pkg, d.data)) ==
               Plan(Deletes(gone) + IndexPuts(t, cfg, repo, id, d), true)
  {
    hide Represents, GoodDeb, PoolPath, PackagesKey, FileKey, BuildPackages, Entries, KeptDebs, RemovedDebs,
      ReadPackages, IndexPlan, IndexEntry, RewriteIndex, ValidIndex, AllDebs, Map;
    var all := AllDebs(repo, id, d);
    ReadsListed(t, cfg, b, repo, id);
    FileKeyIs(cfg, id);
    ReadSame(b, x, IndexKey(cfg, id));
    IndexUntouched(t, cfg, x, id, d);
    IndexPlanIs(t, cfg, x[PoolPath(id.component, d.pkg) := d.data], id, Listed(repo, id), d);
    assert WithoutDebs(Listed(repo, id), d.pkg.name, d.pkg.version) + [d] == all by {
      AllDebsAre(repo, id, d);
    }
    AllGood(t, cfg, b, repo, id, d);
    GoodRemoved(t, all, KeptDebs(cfg, all), RemovedDebs(cfg, all));
    RewriteParts(t, cfg, id, KeptDebs(cfg, all), RemovedDebs(cfg, all));
    FileOutsideRemoved(t, cfg, b, repo, id, d);
  }

  lemma AllDebsAre(repo: Repo, id: IndexId, d: Deb)
    ensures AllDebs(repo, id, d) == WithoutDebs(Listed(repo, id), d.pkg.name, d.pkg.version) + [d]
  {
  }

  lemma ReadSame(b: Bucket, c: Bucket, key: string)
    requires Same(b, c, key)
    ensures ReadPackages(b, key) == ReadPackages(c, key)
  {
  }

  lemma IndexStepsLate(t: Tools, cfg: Config, b: Bucket, repo: Repo, id: IndexId, d: Deb,
                       x: Bucket) returns (gone: seq<string>)
    requires Setting(t, cfg) && Represents(t, cfg, b, repo)
    requires GoodId(id) && GoodDeb(t, d) && d.pkg.architecture == id.arch
    requires Has(x, FileKey(cfg, id, "Packages"), Content(t, cfg, repo, id, d)) && Cleared(cfg, repo, id, d, x)
    ensures Deletions(cfg, repo, id, d, x, gone)
    ensures IndexPlan(t, cfg, x[PoolPath(id.component, d.pkg) := d.data], id.component,
                      IndexEntry(t, id.component, d.pkg, d.data)) ==
            Plan(Deletes(gone) + IndexPuts(t, cfg, repo, id, d), true)
  {
    hide Represents, GoodDeb, PoolPath, PackagesKey, FileKey, BuildPackages, Entries, KeptDebs, RemovedDebs,
      ReadPackages, IndexPlan, IndexEntry, RewriteIndex, ValidIndex, WithoutDebs, PoolFileList, Cleared, Distinct, Map;
    var file := PoolPath(id.component, d.pkg);
    var kept := KeptDebs(cfg, AllDebs(repo, id, d));
    AllGood(t, cfg, b, repo, id, d);
    KeptReadsBack(t, cfg, repo, id, d, x);
    IndexUntouched(t, cfg, x, id, d);
    IndexPlanIs(t, cfg, x[file := d.data], id, kept, d);
    WithoutIs(Listed(repo, id), d.pkg.name, d.pkg.version);
    PruneRepeats(t, cfg, id, WithoutDebs(Listed(repo, id), d.pkg.name, d.pkg.version), d);
    var removed := if d in kept then [] else [d];
    GoodIsPublishable(t, d);
    RewriteParts(t, cfg, id, kept, removed);
    gone := Map(PoolOf(id.component), removed);
    FilesOf(id.component, d);
  }

  lemma FilesOf(component: string, d: Deb)
    ensures Map(PoolOf(component), []) == [] && Map(PoolOf(component), [d]) == [PoolPath(component, d.pkg)]
  {
    hide PoolPath;
  }

  lemma KeptReadsBack(t: Tools, cfg: Config, repo: Repo, id: IndexId, d: Deb, x: Bucket)
    requires Setting(t, cfg) && GoodId(id)
    requires ValidIndex(t, cfg, id, KeptDebs(cfg, AllDebs(repo, id, d)))
    requires Has(x, FileKey(cfg, id, "Packages"), Content(t, cfg, repo, id, d))
    ensures ReadPackages(x, IndexKey(cfg, id)) == Some(Entries(t, id.component, KeptDebs(cfg, AllDebs(repo, id, d))))
  {
    hide FileKey, PackagesKey, BuildPackages, Entries, KeptDebs, ValidIndex, ParseControlFile;
    FileKeyIs(cfg, id);
    IndexReadsBack(t, cfg, id, KeptDebs(cfg, AllDebs(repo, id, d)));
  }

  lemma IndexStepsAre(t: Tools, cfg: Config, b: Bucket, repo: Repo, id: IndexId, d: Deb, release: set<string>,
                      x: Bucket)
      returns (gone: seq<string>)
    requires Setting(t, cfg) && Represents(t, cfg, b, repo)
    requires GoodId(id) && GoodDeb(t, d) && d.pkg.architecture == id.arch
    requires Underway(t, cfg, b, repo, id, d, release, x)
    ensures Deletions(cfg, repo, id, d, x, gone)
    ensures gone == PoolFileList(cfg, repo, id, d) ||
            Has(x, FileKey(cfg, id, "Packages"), Content(t, cfg, repo, id, d))
    ensures IndexPlan(t, cfg, x[PoolPath(id.component, d.pkg) := d.data], id.component,
                      IndexEntry(t, id.component, d.pkg, d.data)) ==
            Plan(Deletes(gone) + IndexPuts(t, cfg, repo, id, d), true)
  {
    hide Represents, GoodDeb, PoolPath, FileKey, Content, IndexPlan, IndexEntry, PoolFileList, Deletions, Cleared;
    if Same(b, x, FileKey(cfg, id, "Packages")) {
      gone := PoolFileList(cfg, repo, id, d);
      IndexStepsEarly(t, cfg, b, repo, id, d, x);
    } else {
      gone := IndexStepsLate(t, cfg, b, repo, id, d, x);
    }
  }

  /** The bucket that the index part of an Add leaves, Release files apart, is that of an Add which was never
      stopped. */
  ghost function Indexed(t: Tools, cfg: Config, repo: Repo, id: IndexId, d: Deb, x: Bucket, gone: seq<string>): Bucket {
    (x[PoolPath(id.component, d.pkg) := d.data] - Elements(gone))
    [FileKey(cfg, id, "Packages") := Content(t, cfg, repo, id, d)]
    [FileKey(cfg, id, "Packages.gz") := t.gzip(Content(t, cfg, repo, id, d))]
  }

  lemma IndexedIs(t: Tools, cfg: Config, repo: Repo, id: IndexId, d: Deb, x: Bucket, gone: seq<string>)
    ensures Apply(x[PoolPath(id.component, d.pkg) := d.data], Deletes(gone) + IndexPuts(t, cfg, repo, id, d)) ==
            Indexed(t, cfg, repo, id, d, x, gone)
  {
    hide Apply, PoolPath, FileKey, Content;
    var x1 := x[PoolPath(id.component, d.pkg) := d.data];
    ApplyDeletes(x1, gone);
    TwoPuts(x1, Deletes(gone), FileKey(cfg, id, "Packages"), Content(t, cfg, repo, id, d),
            FileKey(cfg, id, "Packages.gz"), t.gzip(Content(t, cfg, repo, id, d)));
  }

  lemma IndexedAgrees(t: Tools, cfg: Config, b: Bucket, repo: Repo, id: IndexId, d: Deb, release: set<string>,
                      x: Bucket,
                      gone: seq<string>)
    requires Setting(t, cfg) && Represents(t, cfg, b, repo)
    requires GoodId(id) && GoodDeb(t, d) && d.pkg.architecture == id.arch
    requires Underway(t, cfg, b, repo, id, d, release, x) && Deletions(cfg, repo, id, d, x, gone)
    ensures AgreeOutside(AfterIndex(t, cfg, b, repo, id, d), Indexed(t, cfg, repo, id, d, x, gone), release)
  {
    hide Represents, GoodDeb, PoolPath, FileKey, Content, AfterIndex, PoolFileList, KeptDebs, AllDebs;
    AfterIndexIs(t, cfg, b, repo, id, d);
    FileOutsideRemoved(t, cfg, b, repo, id, d);
    var w, y := AfterIndex(t, cfg, b, repo, id, d), Indexed(t, cfg, repo, id, d, x, gone);
    var fs := PoolFileList(cfg, repo, id, d);
    forall k | k !in release ensures Same(w, y, k) {
      if k !in AddKeys(cfg, repo, id, d, release) {
        assert Same(b, x, k);
      }
    }
  }

  // ----- the Release files

  /** Release files do not say anything of themselves. */
  lemma SameRelease(t: Tools, cfg: Config, b: Bucket, c: Bucket, release: set<string>)
    requires Plain(cfg.distribution) && AgreeOutside(b, c, release)
    requires forall k | k in release :: exists f :: IsReleaseName(f) && k == ReleaseKey(cfg, f)
    ensures ReleaseOf(t, cfg, b) == ReleaseOf(t, cfg, c)
  {
    hide DistDir, ArchesOf, ComponentsOf, DigestEntry, ReleaseKey, Base;
    forall k | IsIndexFile(k) ensures Same(b, c, k) {
      if k in release {
        var f :| IsReleaseName(f) && k == ReleaseKey(cfg, f);
        ReleaseKeyIs(cfg, f);
        assert false;
      }
    }
    hide IsIndexFile;
    assert IndexPaths(cfg, b) == IndexPaths(cfg, c);
    var rels := Sorted(IndexPaths(cfg, b));
    forall i | 0 <= i < |rels|
      ensures ContentOf(b, DistDir(cfg) + rels[i]) == ContentOf(c, DistDir(cfg) + rels[i])
    {
      assert rels[i] in Elements(rels);
      PathIsIndex(cfg, b, rels[i]);
    }
    assert Digests(t, cfg, b, rels) == Digests(t, cfg, c, rels);
  }

  /** A Release that is published in full writes all that one of another date does. */
  lemma ReleaseKeysCovered(cfg: Config, text: string, other: string)
    requires ReleaseSteps(cfg, other).complete
    ensures KeysOf(ReleaseSteps(cfg, text).steps) <= KeysOf(ReleaseSteps(cfg, other).steps)
  {
    hide ReleaseKey;
    var x, y := ReleaseSteps(cfg, text).steps, ReleaseSteps(cfg, other).steps;
    forall k | k in KeysOf(x) ensures k in KeysOf(y) {
      var i :| 0 <= i < |x| && x[i].key == k;
      assert y[i].key == k;
      assert y[i] in y;
    }
  }

  /** The Release files of an Add that is to be completed. */
  ghost function ReleaseKeys(t: Tools, cfg: Config, b: Bucket, repo: Repo, id: IndexId, d: Deb,
                             later: string): set<string> {
    KeysOf(ReleasePlan(t, cfg, AfterIndex(t, cfg, b, repo, id, d), later).steps)
  }

  /** Dates at which tries write no more Release files than the one to be completed. */
  ghost predicate Covered(t: Tools, cfg: Config, b: Bucket, repo: Repo, id: IndexId, d: Deb, date: string,
                          later: string) {
    date == later || ReleasePlan(t, cfg, AfterIndex(t, cfg, b, repo, id, d), later).complete
  }

  // ----- stopping an Add once more

  lemma WithinAddKeys(t: Tools, cfg: Config, repo: Repo, id: IndexId, d: Deb, release: set<string>, x: Bucket,
                      gone: seq<string>, r: seq<Step>)
    requires Deletions(cfg, repo, id, d, x, gone) && KeysOf(r) <= release
    ensures KeysOf([Put(PoolPath(id.component, d.pkg), d.data)] + Deletes(gone) + IndexPuts(t, cfg, repo, id, d) + r) <=
            AddKeys(cfg, repo, id, d, release)
  {
    hide PoolPath, FileKey, Content, PoolFileList, Cleared, KeptDebs;
    var steps := [Put(PoolPath(id.component, d.pkg), d.data)] + Deletes(gone) + IndexPuts(t, cfg, repo, id, d) + r;
    forall s | s in steps ensures s.key in AddKeys(cfg, repo, id, d, release) {
      if s in Deletes(gone) {
        var i :| 0 <= i < |gone| && Deletes(gone)[i] == s;
        assert gone[i] in Elements(gone);
      } else if s in r {
        assert s.key in KeysOf(r);
      }
    }
  }

  /** Uploading and deleting. */
  function Front(id: IndexId, d: Deb, gone: seq<string>): seq<Step> {
    [Put(PoolPath(id.component, d.pkg), d.data)] + Deletes(gone)
  }

  /** An Add's writes, in a state that a stopped one left. */
  lemma AddStepsAre(t: Tools, cfg: Config, b: Bucket, repo: Repo, id: IndexId, d: Deb, release: set<string>, x: Bucket,
                    date: string) returns (gone: seq<string>)
    requires Setting(t, cfg) && Represents(t, cfg, b, repo)
    requires GoodId(id) && GoodDeb(t, d) && d.pkg.architecture == id.arch
    requires Underway(t, cfg, b, repo, id, d, release, x) && ReleaseApart(cfg, repo, id, d, release)
    ensures Deletions(cfg, repo, id, d, x, gone)
    ensures gone == PoolFileList(cfg, repo, id, d) ||
            Has(x, FileKey(cfg, id, "Packages"), Content(t, cfg, repo, id, d))
    ensures var r := ReleasePlan(t, cfg, AfterIndex(t, cfg, b, repo, id, d), date);
            var index := Front(id, d, gone) + IndexPuts(t, cfg, repo, id, d);
            && AddPlan(t, cfg, x, id.component, d.pkg, d.data, date) == Plan(index + r.steps, r.complete)
            && Apply(x, index) == Indexed(t, cfg, repo, id, d, x, gone)
  {
    hide Represents, GoodDeb, PoolPath, FileKey, Content, IndexPlan, IndexEntry, AfterIndex, Deletions, Indexed,
      PoolFileList, IndexPuts, Underway, ReleaseOf, RenderRelease, ReleaseSteps, Apply, AddPlan, AddKeys;
    gone := IndexStepsAre(t, cfg, b, repo, id, d, release, x);
    var w := AfterIndex(t, cfg, b, repo, id, d);
    var upload, rest := [Put(PoolPath(id.component, d.pkg), d.data)], Deletes(gone) + IndexPuts(t, cfg, repo, id, d);
    var r := ReleasePlan(t, cfg, w, date);
    AddPlanSteps(t, cfg, x, id.component, d.pkg, d.data, date);
    IndexedIs(t, cfg, repo, id, d, x, gone);
    IndexedAgrees(t, cfg, b, repo, id, d, release, x, gone);
    SameRelease(t, cfg, w, Indexed(t, cfg, repo, id, d, x, gone), release);
    ApplyOne(x, upload[0]);
    ApplyConcat(x, upload, rest);
    assert Front(id, d, gone) + IndexPuts(t, cfg, repo, id, d) == upload + rest;
    assert upload + (rest + r.steps) == (upload + rest) + r.steps;
  }

  lemma FrontPutsFile(id: IndexId, d: Deb, gone: seq<string>)
    ensures forall s | s in Front(id, d, gone) :: s.key == PoolPath(id.component, d.pkg) || (s.Delete? && s.key in gone)
  {
    hide PoolPath;
    forall s | s in Deletes(gone) ensures s.Delete? && s.key in gone {
      var i :| 0 <= i < |gone| && Deletes(gone)[i] == s;
    }
  }

  lemma KeysWithin(steps: seq<Step>, more: seq<Step>)
    requires forall s | s in steps :: s in more
    ensures KeysOf(steps) <= KeysOf(more)
  {
  }

  /** Before the index is written it stays as it was. */
  lemma CutInFront(t: Tools, cfg: Config, b: Bucket, repo: Repo, id: IndexId, d: Deb, release: set<string>, x: Bucket,
                   gone: seq<string>, k: nat)
    requires Setting(t, cfg) && Represents(t, cfg, b, repo)
    requires GoodId(id) && GoodDeb(t, d) && d.pkg.architecture == id.arch
    requires Underway(t, cfg, b, repo, id, d, release, x) && Deletions(cfg, repo, id, d, x, gone)
    requires k <= |Front(id, d, gone)|
    ensures var y := Apply(x, Front(id, d, gone)[..k]);
            && Same(x, y, FileKey(cfg, id, "Packages"))
            && (Cleared(cfg, repo, id, d, x) ==> Cleared(cfg, repo, id, d, y))
  {
    hide Represents, GoodDeb, PoolPath, FileKey, Content, PoolFileList, KeptDebs, AllDebs, Apply, Front, Cleared,
      AddKeys;
    var file, front := PoolPath(id.component, d.pkg), Front(id, d, gone)[..k];
    var y, fs := Apply(x, front), PoolFileList(cfg, repo, id, d);
    FrontPutsFile(id, d, gone);
    FileIsNotIndex(t, cfg, id, d);
    PoolFileListInPool(t, cfg, b, repo, id, d);
    IndexKeyInDist(cfg, id, "Packages");
    forall s | s in front ensures s in Front(id, d, gone) && s.key != FileKey(cfg, id, "Packages") {
      if s.key != file {
        assert s.key in Elements(gone);
        PoolIsNotDist(s.key, FileKey(cfg, id, "Packages"));
      }
    }
    StepsAgree(x, front);
    if Cleared(cfg, repo, id, d, x) {
      StaysCleared(cfg, repo, id, d, x, front);
    }
  }

  lemma StaysCleared(cfg: Config, repo: Repo, id: IndexId, d: Deb, x: Bucket, steps: seq<Step>)
    requires Cleared(cfg, repo, id, d, x)
    requires forall s | s in steps && s.Put? && s.key in PoolFileList(cfg, repo, id, d) ::
               s.key == PoolPath(id.component, d.pkg)
    ensures Cleared(cfg, repo, id, d, Apply(x, steps))
  {
    hide PoolPath, PoolFileList, Apply;
    forall k | k in PoolFileList(cfg, repo, id, d) && k != PoolPath(id.component, d.pkg) ensures k !in Apply(x, steps) {
      StaysAbsent(x, steps, k);
    }
  }

  /** Once the index is written what the Add prunes is gone. */
  lemma FrontClears(t: Tools, cfg: Config, b: Bucket, repo: Repo, id: IndexId, d: Deb, x: Bucket, gone: seq<string>)
    requires Deletions(cfg, repo, id, d, x, gone)
    ensures Cleared(cfg, repo, id, d, Apply(x, Front(id, d, gone)))
  {
    hide PoolPath, PoolFileList, KeptDebs, AllDebs, Apply;
    var upload := Put(PoolPath(id.component, d.pkg), d.data);
    ApplyOne(x, upload);
    ApplyDeletes(ApplyStep(x, upload), gone);
    ApplyConcat(x, [upload], Deletes(gone));
  }

  lemma CutAfterFront(t: Tools, cfg: Config, b: Bucket, repo: Repo, id: IndexId, d: Deb, release: set<string>,
                      x: Bucket, gone: seq<string>, rest: seq<Step>)
    requires Setting(t, cfg) && Represents(t, cfg, b, repo)
    requires GoodId(id) && GoodDeb(t, d) && d.pkg.architecture == id.arch
    requires Deletions(cfg, repo, id, d, x, gone) && ReleaseApart(cfg, repo, id, d, release)
    requires OnlyPuts(rest) && KeysOf(rest) <= release + {FileKey(cfg, id, "Packages.gz")}
    ensures var put := Put(FileKey(cfg, id, "Packages"), Content(t, cfg, repo, id, d));
            var y := Apply(x, Front(id, d, gone) + ([put] + rest));
            && Has(y, FileKey(cfg, id, "Packages"), Content(t, cfg, repo, id, d)) && Cleared(cfg, repo, id, d, y)
  {
    hide Represents, GoodDeb, PoolPath, FileKey, Content, PoolFileList, KeptDebs, AllDebs, Apply, Front, Cleared;
    var fs := PoolFileList(cfg, repo, id, d);
    var put := Put(FileKey(cfg, id, "Packages"), Content(t, cfg, repo, id, d));
    var a := Apply(x, Front(id, d, gone));
    FrontClears(t, cfg, b, repo, id, d, x, gone);
    FileIsNotIndex(t, cfg, id, d);
    PoolFileListInPool(t, cfg, b, repo, id, d);
    IndexKeyInDist(cfg, id, "Packages");
    IndexKeyInDist(cfg, id, "Packages.gz");
    ApplyConcat(x, Front(id, d, gone), [put] + rest);
    ApplyConcat(a, [put], rest);
    ApplyOne(a, put);
    StepsAgree(ApplyStep(a, put), rest);
    forall s, k | s in [put] + rest && k in fs ensures s.key != k {
      PoolIsNotDist(k, FileKey(cfg, id, "Packages"));
      PoolIsNotDist(k, FileKey(cfg, id, "Packages.gz"));
      assert k in Elements(fs);
      assert s == put || s.key in KeysOf(rest);
    }
    StaysCleared(cfg, repo, id, d, a, [put] + rest);
  }

  lemma CutKeepsUnderway(t: Tools, cfg: Config, b: Bucket, repo: Repo, id: IndexId, d: Deb, later: string, x: Bucket,
                         date: string, k: nat)
    requires Setting(t, cfg) && Represents(t, cfg, b, repo)
    requires GoodId(id) && GoodDeb(t, d) && d.pkg.architecture == id.arch
    requires Underway(t, cfg, b, repo, id, d, ReleaseKeys(t, cfg, b, repo, id, d, later), x)
    requires Covered(t, cfg, b, repo, id, d, date, later)
    requires k <= |AddPlan(t, cfg, x, id.component, d.pkg, d.data, date).steps|
    ensures var steps := AddPlan(t, cfg, x, id.component, d.pkg, d.data, date).steps[..k];
            Underway(t, cfg, b, repo, id, d, ReleaseKeys(t, cfg, b, repo, id, d, later), Apply(x, steps))
  {
    hide Represents, GoodDeb, PoolPath, FileKey, Content, AfterIndex, Deletions, Indexed, PoolFileList, ReleaseText,
      ReleaseSteps, Apply, AddPlan, Cleared, AddKeys, ReleaseApart, Front;
    var release, w := ReleaseKeys(t, cfg, b, repo, id, d, later), AfterIndex(t, cfg, b, repo, id, d);
    ReleaseKeysApart(t, cfg, b, repo, id, d, ReleaseText(t, cfg, w, later));
    ReleaseKeysApart(t, cfg, b, repo, id, d, ReleaseText(t, cfg, w, date));
    var gone := AddStepsAre(t, cfg, b, repo, id, d, release, x, date);
    var r := ReleasePlan(t, cfg, w, date).steps;
    if date != later {
      ReleaseKeysCovered(cfg, ReleaseText(t, cfg, w, date), ReleaseText(t, cfg, w, later));
    }
    var steps := Front(id, d, gone) + IndexPuts(t, cfg, repo, id, d) + r;
    StepsWithin(t, cfg, repo, id, d, release, x, gone, r, k);
    StepsAgree(x, steps[..k]);
    var n := |Front(id, d, gone)|;
    if k <= n {
      assert steps[..k] == Front(id, d, gone)[..k];
      CutInFront(t, cfg, b, repo, id, d, release, x, gone, k);
    } else {
      var copy := Put(FileKey(cfg, id, "Packages.gz"), t.gzip(Content(t, cfg, repo, id, d)));
      var all := [copy] + r;
      var rest := all[..k - n - 1];
      assert steps[..k] == Front(id, d, gone) + ([IndexPuts(t, cfg, repo, id, d)[0]] + rest);
      RestWithin(all, k - n - 1, release + {copy.key});
      CutAfterFront(t, cfg, b, repo, id, d, release, x, gone, rest);
    }
  }

  lemma RestWithin(all: seq<Step>, m: nat, keys: set<string>)
    requires m <= |all| && OnlyPuts(all) && KeysOf(all) <= keys
    ensures OnlyPuts(all[..m]) && KeysOf(all[..m]) <= keys
  {
    KeysWithin(all[..m], all);
  }

  lemma StepsWithin(t: Tools, cfg: Config, repo: Repo, id: IndexId, d: Deb, release: set<string>, x: Bucket,
                    gone: seq<string>, r: seq<Step>, k: nat)
    requires Deletions(cfg, repo, id, d, x, gone) && KeysOf(r) <= release
    requires k <= |Front(id, d, gone) + IndexPuts(t, cfg, repo, id, d) + r|
    ensures KeysOf((Front(id, d, gone) + IndexPuts(t, cfg, repo, id, d) + r)[..k]) <=
            AddKeys(cfg, repo, id, d, release)
  {
    hide PoolPath, FileKey, Content, PoolFileList, Deletions, AddKeys;
    var steps := Front(id, d, gone) + IndexPuts(t, cfg, repo, id, d) + r;
    WithinAddKeys(t, cfg, repo, id, d, release, x, gone, r);
    KeysWithin(steps[..k], steps);
  }

  // ----- the theorem

  /** One attempt at an Add: its date, and after how many of its writes it is stopped. */
  datatype Try = Try(date: string, writes: nat)

  /** The bucket after some tries at the same Add. */
  ghost function Attempted(t: Tools, cfg: Config, b: Bucket, id: IndexId, d: Deb, tries: seq<Try>): Bucket {
    if tries == [] then b
    else
      var x, a := Attempted(t, cfg, b, id, d, tries[..|tries| - 1]), tries[|tries| - 1];
      var steps := AddPlan(t, cfg, x, id.component, d.pkg, d.data, a.date).steps;
      Apply(x, if a.writes <= |steps| then steps[..a.writes] else steps)
  }

  lemma {:induction false} AttemptedUnderway(t: Tools, cfg: Config, b: Bucket, repo: Repo, id: IndexId, d: Deb,
                                             tries: seq<Try>, later: string)
    requires Setting(t, cfg) && Represents(t, cfg, b, repo)
    requires GoodId(id) && GoodDeb(t, d) && d.pkg.architecture == id.arch
    requires forall a | a in tries :: Covered(t, cfg, b, repo, id, d, a.date, later)
    ensures Underway(t, cfg, b, repo, id, d, ReleaseKeys(t, cfg, b, repo, id, d, later),
                     Attempted(t, cfg, b, id, d, tries))
  {
    hide Represents, GoodDeb, PoolPath, FileKey, Content, ReleaseKeys, Covered, AddPlan, Apply, PoolFileList;
    if tries != [] {
      hide Underway;
      var n := |tries| - 1;
      var a := tries[n];
      assert a in tries;
      AttemptedUnderway(t, cfg, b, repo, id, d, tries[..n], later);
      var x := Attempted(t, cfg, b, id, d, tries[..n]);
      var steps := AddPlan(t, cfg, x, id.component, d.pkg, d.data, a.date).steps;
      assert steps[..|steps|] == steps;
      CutKeepsUnderway(t, cfg, b, repo, id, d, later, x, a.date, if a.writes <= |steps| then a.writes else |steps|);
    }
  }

  lemma CompletesUnderway(t: Tools, cfg: Config, b: Bucket, repo: Repo, id: IndexId, d: Deb, x: Bucket, later: string)
    requires Setting(t, cfg) && Represents(t, cfg, b, repo)
    requires GoodId(id) && GoodDeb(t, d) && d.pkg.architecture == id.arch
    requires Underway(t, cfg, b, repo, id, d, ReleaseKeys(t, cfg, b, repo, id, d, later), x)
    ensures var r := ReleasePlan(t, cfg, AfterIndex(t, cfg, b, repo, id, d), later);
            var plan := AddPlan(t, cfg, x, id.component, d.pkg, d.data, later);
            plan.complete == r.complete &&
            Apply(x, plan.steps) == Apply(AfterIndex(t, cfg, b, repo, id, d), r.steps)
  {
    hide Represents, GoodDeb, PoolPath, FileKey, Content, AfterIndex, Deletions, Indexed, PoolFileList, ReleaseText,
      ReleaseSteps, Apply, AddPlan, Underway, ReleaseApart, Front, IndexPuts;
    var release, w := ReleaseKeys(t, cfg, b, repo, id, d, later), AfterIndex(t, cfg, b, repo, id, d);
    ReleaseKeysApart(t, cfg, b, repo, id, d, ReleaseText(t, cfg, w, later));
    var gone := AddStepsAre(t, cfg, b, repo, id, d, release, x, later);
    IndexedAgrees(t, cfg, b, repo, id, d, release, x, gone);
    var r, y := ReleasePlan(t, cfg, w, later).steps, Indexed(t, cfg, repo, id, d, x, gone);
    ApplyConcat(x, Front(id, d, gone) + IndexPuts(t, cfg, repo, id, d), r);
    PutsAgree(w, y, r, release);
    SameBucket(Apply(w, r), Apply(y, r));
  }

  /** Stopped after any of its writes, any number of times and at any dates, and then run to its end, an Add leaves the
      bucket of one Add of the last date that was never stopped. An Add that its signer stops each time leaves, at one
      and the same date, what it leaves the first time. */
  lemma RetriedAddHeals(t: Tools, cfg: Config, b: Bucket, repo: Repo, id: IndexId, d: Deb, tries: seq<Try>,
                        later: string)
    requires Setting(t, cfg) && Represents(t, cfg, b, repo)
    requires GoodId(id) && GoodDeb(t, d) && d.pkg.architecture == id.arch
    requires || AddPlan(t, cfg, b, id.component, d.pkg, d.data, later).complete
             || forall a | a in tries :: a.date == later
    ensures var x := Attempted(t, cfg, b, id, d, tries);
            var again := AddPlan(t, cfg, x, id.component, d.pkg, d.data, later);
            var whole := AddPlan(t, cfg, b, id.component, d.pkg, d.data, later);
            again.complete == whole.complete && Apply(x, again.steps) == Apply(b, whole.steps)
  {
    hide Represents, GoodDeb, PoolPath, AfterIndex, Apply, ReleaseSteps, ReleaseText, AddPlan, Underway, Attempted,
      ReleaseKeys;
    NothingAttempted(t, cfg, b, id, d);
    AttemptedUnderway(t, cfg, b, repo, id, d, [], later);
    CompletesUnderway(t, cfg, b, repo, id, d, b, later);
    AttemptedUnderway(t, cfg, b, repo, id, d, tries, later);
    CompletesUnderway(t, cfg, b, repo, id, d, Attempted(t, cfg, b, id, d, tries), later);
  }

  lemma NothingAttempted(t: Tools, cfg: Config, b: Bucket, id: IndexId, d: Deb)
    ensures Attempted(t, cfg, b, id, d, []) == b
  {
  }
}
