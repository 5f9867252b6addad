/**
 Runs of the apt publisher: every sequence of successful operations leaves the bucket holding exactly the
 repository that the operations describe.
 */
module AptRuns {
  import opened Wrappers
  import opened Numbers
  import opened Text
  import opened Paths
  import opened Storage
  import opened Control
  import opened Retention
  import opened RetentionLaws
  import opened Apt
  import opened AptKeys
  import opened AptState
  import opened AptInvariant
  import AptPublisher
  import DebVersion

  // ----- Add

  lemma DebsOrder(t: Tools, l: seq<Deb>)
    requires forall d | d in l :: GoodDeb(t, d)
    ensures Orders(l, CompareDebs)
  {
    hide DebVersion.CompareVersions, DebVersion.NonNegativeEpoch, ParseDeb, GoodPackage;
    hide DebVersion.EpochsNear;
    forall d, e | d in l && e in l ensures DebVersion.EpochsNear(d.pkg.version, e.pkg.version) {
      DebVersion.NonNegativeIsNear(d.pkg.version, e.pkg.version);
    }
    forall d, e | d in l && e in l ensures CompareDebs(d, e) < 0 <==> CompareDebs(e, d) > 0 {
      DebVersion.CompareAntisymmetric(d.pkg.version, e.pkg.version);
    }
    forall d, e, f | d in l && e in l && f in l && CompareDebs(d, e) <= 0 && CompareDebs(e, f) <= 0
      ensures CompareDebs(d, f) <= 0
    {
      DebVersion.CompareTransitive(d.pkg.version, e.pkg.version, f.pkg.version);
    }
  }

  lemma PickKeepsDistinct(l: seq<Deb>, s: set<nat>)
    requires Distinct(l)
    ensures Distinct(Pick(l, s, |l|))
  {
    hide SameIdentity;
    PickIsAtPositions(l, s, |l|);
  }

  lemma PickDisjoint(l: seq<Deb>, s: set<nat>, u: set<nat>, d: Deb)
    requires Distinct(l) && s !! u
    ensures !(d in Pick(l, s, |l|) && d in Pick(l, u, |l|))
  {
    PickMember(l, s, |l|, d);
    PickMember(l, u, |l|, d);
    if i: nat, j: nat :| i < |l| && i in s && l[i] == d && j < |l| && j in u && l[j] == d {
      assert SameIdentity(l[i], l[j]) && SameIdentity(l[j], l[i]);
    }
  }

  lemma DividesAll(all: seq<Deb>)
    ensures Divides(all, all, [])
  {
  }

  /** Pruning divides the packages of an index into those kept and those removed. */
  lemma PruneDivides(t: Tools, cfg: Config, id: IndexId, all: seq<Deb>)
    requires Distinct(all) && forall d | d in all :: GoodDeb(t, d) && d.pkg.architecture == id.arch
    ensures Divides(all, KeptDebs(cfg, all), RemovedDebs(cfg, all))
    ensures ValidIndex(t, cfg, id, KeptDebs(cfg, all))
  {
    hide GoodDeb, SameIdentity, Survives, DebVersion.CompareVersions, Capped, Orders, Pick;
    var keep := cfg.keepVersions;
    if keep <= 0 {
      DividesAll(all);
    } else {
      var kept, removed := KeptDebs(cfg, all), RemovedDebs(cfg, all);
      DebsOrder(t, all);
      RetainedIsCapped(all, keep, DebName, CompareDebs);
      PickKeepsDistinct(all, Survivors(all, keep, DebName, CompareDebs));
      forall d | d in all || d in kept || d in removed
        ensures d in all && (d in kept || d in removed) && !(d in kept && d in removed)
      {
        RetainedMember(all, keep, DebName, CompareDebs, d);
        PickDisjoint(all, Survivors(all, keep, DebName, CompareDebs), Dropped(all, keep, DebName, CompareDebs), d);
      }
      forall i | 0 <= i < |kept| ensures GoodDeb(t, kept[i]) && kept[i].pkg.architecture == id.arch {
        assert kept[i] in all;
      }
    }
  }

  /** The index that an Add or a Remove reads is the one last written, or none. */
  lemma ReadsListed(t: Tools, cfg: Config, b: Bucket, repo: Repo, id: IndexId)
    requires Setting(t, cfg) && Represents(t, cfg, b, repo) && GoodId(id)
    ensures ReadPackages(b, IndexKey(cfg, id)) == Some(Entries(t, id.component, Listed(repo, id)))
  {
    hide IsKeyOf, NoOrphans, GoodDeb, PooledList, Distinct, Capped, BuildPackages, ParseControlFile, DistDir, FileKey,
      PackagesKey, EntryOf, ReleaseKey;
    var key := IndexKey(cfg, id);
    IndexKeyIs(cfg, id);
    FileKeyIs(cfg, id);
    if id in repo {
      assert GoodIndex(t, cfg, b, id, repo[id]);
      IndexReadsBack(t, cfg, id, repo[id]);
    } else {
      IndexKeyInDist(cfg, id, "Packages");
      MapNil(EntryOf(t, id.component));
      if key in b {
        if x :| x in repo && IsKeyOf(cfg, x, key) {
          assert GoodIndex(t, cfg, b, x, repo[x]);
          KeyOfOther(cfg, x, id);
        } else {
          var f :| IsReleaseName(f) && key == ReleaseKey(cfg, f);
          ReleaseIsNoIndex(cfg, f, id, "Packages");
        }
      }
    }
  }

  lemma FileKeyIs(cfg: Config, id: IndexId)
    requires Plain(cfg.distribution) && GoodId(id)
    ensures FileKey(cfg, id, "Packages") == IndexKey(cfg, id)
    ensures FileKey(cfg, id, "Packages.gz") == IndexKey(cfg, id) + ".gz"
  {
    hide Join, PackagesKey;
    IndexKeyIs(cfg, id);
  }

  lemma KeyOfOther(cfg: Config, x: IndexId, id: IndexId)
    requires Plain(cfg.distribution) && GoodId(x) && GoodId(id) && x != id
    ensures !IsKeyOf(cfg, x, FileKey(cfg, id, "Packages"))
  {
    hide FileKey;
    OwnKeys(cfg, id, "Packages", x);
  }

  lemma IndexUntouched(t: Tools, cfg: Config, b: Bucket, id: IndexId, d: Deb)
    requires Setting(t, cfg) && GoodId(id) && GoodDeb(t, d) && d.pkg.architecture == id.arch
    ensures ReadPackages(b[PoolPath(id.component, d.pkg) := d.data], IndexKey(cfg, id)) ==
            ReadPackages(b, IndexKey(cfg, id))
  {
    hide GoodDeb, PoolPath, PackagesKey, FileKey, ParseControlFile;
    PoolKeysDiffer(t, id, d, id, d);
    FileKeyIs(cfg, id);
    IndexKeyInDist(cfg, id, "Packages");
    PoolIsNotDist(PoolPath(id.component, d.pkg), IndexKey(cfg, id));
  }

  lemma EntriesSnoc(t: Tools, component: string, l: seq<Deb>, d: Deb)
    ensures Entries(t, component, l + [d]) == Entries(t, component, l) + [EntryOf(t, component)(d)]
  {
    MapSnoc(EntryOf(t, component), l, d);
  }

  /** The plan of updateIndex, told in terms of .deb files. */
  lemma IndexPlanIs(t: Tools, cfg: Config, b: Bucket, id: IndexId, l: seq<Deb>, d: Deb)
    requires Setting(t, cfg) && GoodId(id) && d.pkg.architecture == id.arch
    requires ReadPackages(b, IndexKey(cfg, id)) == Some(Entries(t, id.component, l))
    ensures var all := WithoutDebs(l, d.pkg.name, d.pkg.version) + [d];
            IndexPlan(t, cfg, b, id.component, IndexEntry(t, id.component, d.pkg, d.data)) ==
            Plan(RewriteIndex(t, IndexKey(cfg, id), Entries(t, id.component, KeptDebs(cfg, all)),
                              Entries(t, id.component, RemovedDebs(cfg, all))), true)
  {
    hide ReadPackages, RewriteIndex, Without, KeptOf, RemovedOf, KeptDebs, RemovedDebs, Entries, PoolFields,
      PackagesKey, WithoutDebs;
    var c := id.component;
    var rest := WithoutDebs(l, d.pkg.name, d.pkg.version);
    WithoutCommutes(t, c, l, d.pkg.name, d.pkg.version);
    EntriesSnoc(t, c, rest, d);
    PruneCommutes(t, cfg, c, rest + [d]);
  }

  /** The repository after an Add. */
  function AddTo(cfg: Config, repo: Repo, id: IndexId, d: Deb): Repo {
    repo[id := KeptDebs(cfg, AllDebs(repo, id, d))]
  }

  /** The bucket after the pool and the index have been brought up to date, and before the Release is. */
  ghost function AfterIndex(t: Tools, cfg: Config, b: Bucket, repo: Repo, id: IndexId, d: Deb): Bucket {
    var all := AllDebs(repo, id, d);
    Rewritten(t, cfg, b[PoolPath(id.component, d.pkg) := d.data], id, KeptDebs(cfg, all), RemovedDebs(cfg, all))
  }

  lemma GoodRemoved(t: Tools, all: seq<Deb>, kept: seq<Deb>, removed: seq<Deb>)
    requires Divides(all, kept, removed) && forall d | d in all :: GoodDeb(t, d)
    ensures forall i :: 0 <= i < |removed| ==> Publishable(removed[i].pkg)
  {
    hide Publishable, ParseDeb;
    forall i | 0 <= i < |removed| ensures Publishable(removed[i].pkg) {
      assert removed[i] in all;
    }
  }

  /** The first two parts of an Add. */
  lemma AddRewrites(t: Tools, cfg: Config, b: Bucket, repo: Repo, id: IndexId, d: Deb)
    requires Setting(t, cfg) && Represents(t, cfg, b, repo)
    requires GoodId(id) && GoodDeb(t, d) && d.pkg.architecture == id.arch
    ensures var b1 := b[PoolPath(id.component, d.pkg) := d.data];
            var plan := IndexPlan(t, cfg, b1, id.component, IndexEntry(t, id.component, d.pkg, d.data));
            plan.complete && Apply(b1, plan.steps) == AfterIndex(t, cfg, b, repo, id, d)
    ensures Represents(t, cfg, AfterIndex(t, cfg, b, repo, id, d), AddTo(cfg, repo, id, d))
  {
    hide Represents, GoodDeb, PoolPath, PackagesKey, Rewritten, RewriteIndex, ReadPackages, KeptDebs, RemovedDebs,
      Entries, IndexPlan, IndexEntry, ValidIndex;
    var b1 := b[PoolPath(id.component, d.pkg) := d.data];
    var all := AllDebs(repo, id, d);
    ReadsListed(t, cfg, b, repo, id);
    IndexUntouched(t, cfg, b, id, d);
    IndexPlanIs(t, cfg, b1, id, Listed(repo, id), d);
    UploadStages(t, cfg, b, repo, id, d);
    var staged := repo[id := all];
    assert Staged(t, cfg, b1, staged, id) && staged[id] == all;
    PruneDivides(t, cfg, id, all);
    GoodRemoved(t, all, KeptDebs(cfg, all), RemovedDebs(cfg, all));
    RewriteIsRewritten(t, cfg, b1, id, KeptDebs(cfg, all), RemovedDebs(cfg, all));
    RewriteRepresents(t, cfg, b1, staged, id, KeptDebs(cfg, all), RemovedDebs(cfg, all));
    assert staged[id := KeptDebs(cfg, all)] == AddTo(cfg, repo, id, d);
  }

  /** The last part of an operation: Release files. */
  lemma ReleaseStepsRepresent(t: Tools, cfg: Config, b: Bucket, repo: Repo, text: string)
    requires Setting(t, cfg) && Represents(t, cfg, b, repo)
    ensures Represents(t, cfg, Apply(b, ReleaseSteps(cfg, text).steps), repo)
  {
    hide Represents, ReleaseKey;
    var steps := ReleaseSteps(cfg, text).steps;
    ReleaseStepsAre(cfg, text);
    ReleasePutsRepresent(t, cfg, b, repo, steps);
  }

  ghost predicate IsReleasePut(cfg: Config, s: Step) {
    s.Put? && exists f :: IsReleaseName(f) && s.key == ReleaseKey(cfg, f)
  }

  lemma ReleaseStepsAre(cfg: Config, text: string)
    ensures var steps := ReleaseSteps(cfg, text).steps; forall i :: 0 <= i < |steps| ==> IsReleasePut(cfg, steps[i])
  {
    hide ReleaseKey;
    var steps := ReleaseSteps(cfg, text).steps;
    var names := ["Release", "InRelease", "Release.gpg"];
    forall i | 0 <= i < |steps| ensures IsReleasePut(cfg, steps[i]) {
      assert IsReleaseName(names[i]) && steps[i].key == ReleaseKey(cfg, names[i]);
    }
  }

  lemma {:induction false} ReleasePutsRepresent(t: Tools, cfg: Config, b: Bucket, repo: Repo, steps: seq<Step>)
    requires Setting(t, cfg) && Represents(t, cfg, b, repo)
    requires forall i :: 0 <= i < |steps| ==> IsReleasePut(cfg, steps[i])
    ensures Represents(t, cfg, Apply(b, steps), repo)
  {
    hide Represents, ReleaseKey;
    if steps != [] {
      var n := |steps| - 1;
      ReleasePutsRepresent(t, cfg, b, repo, steps[..n]);
      assert IsReleasePut(cfg, steps[n]);
      var f :| IsReleaseName(f) && steps[n].key == ReleaseKey(cfg, f);
      ReleaseRepresents(t, cfg, Apply(b, steps[..n]), repo, f, steps[n].body);
    }
  }

  lemma AddPlanSteps(t: Tools, cfg: Config, b: Bucket, component: string, pkg: Package, data: string, date: string)
    requires pkg.name != ""
    ensures var plan := AddPlan(t, cfg, b, component, pkg, data, date);
            var b1 := b[PoolPath(component, pkg) := data];
            var index := IndexPlan(t, cfg, b1, component, IndexEntry(t, component, pkg, data));
            var release := ReleasePlan(t, cfg, Apply(b1, index.steps), date);
            plan == Then(Plan([Put(PoolPath(component, pkg), data)], true), Then(index, release)) &&
            (index.complete ==> Apply(b, plan.steps) == Apply(Apply(b1, index.steps), release.steps))
  {
    hide PoolPath, IndexPlan, ReleasePlan, PoolFields;
    var upload := [Put(PoolPath(component, pkg), data)];
    ApplyOne(b, Put(PoolPath(component, pkg), data));
    var b1 := b[PoolPath(component, pkg) := data];
    var index := IndexPlan(t, cfg, b1, component, IndexEntry(t, component, pkg, data));
    var release := ReleasePlan(t, cfg, Apply(b1, index.steps), date);
    ApplyConcat(b, upload, index.steps + release.steps);
    ApplyConcat(b1, index.steps, release.steps);
  }

  /** An Add to an index that cannot be read uploads the package and does nothing else. */
  lemma UnreadableIndex(t: Tools, cfg: Config, b: Bucket, component: string, pkg: Package, data: string, date: string)
    requires pkg.name != ""
    requires var key, b1 := PackagesKey(cfg.distribution, component, pkg.architecture),
                            b[PoolPath(component, pkg) := data];
             key in b1 && ParseControlFile(b1[key]).Err?
    ensures AddPlan(t, cfg, b, component, pkg, data, date) == Plan([Put(PoolPath(component, pkg), data)], false)
  {
    hide PoolPath, PackagesKey, ReleasePlan, PoolFields, ParseControlFile;
    AddPlanSteps(t, cfg, b, component, pkg, data, date);
    var upload := [Put(PoolPath(component, pkg), data)];
    assert upload + [] == upload;
  }

  /** A Remove stops at an index that cannot be read. */
  lemma RemoveStops(t: Tools, b: Bucket, key: string, more: seq<string>, name: string, version: string)
    requires Base(key) == "Packages" && key in b && ParseControlFile(b[key]).Err?
    ensures RemoveAll(t, b, [key] + more, name, version) == Removal(Plan([], false), 0)
  {
    hide Base, ParseControlFile;
    assert ([key] + more)[0] == key;
  }

  /** An Add turns a bucket that holds a repository into one that holds the repository with the package added. */
  lemma AddRepresents(t: Tools, cfg: Config, b: Bucket, repo: Repo, id: IndexId, d: Deb, date: string)
    requires Setting(t, cfg) && Represents(t, cfg, b, repo)
    requires GoodId(id) && GoodDeb(t, d) && d.pkg.architecture == id.arch
    ensures var plan := AddPlan(t, cfg, b, id.component, d.pkg, d.data, date);
            var b2 := AfterIndex(t, cfg, b, repo, id, d);
            && Apply(b, plan.steps) == Apply(b2, ReleasePlan(t, cfg, b2, date).steps)
            && plan.complete == ReleasePlan(t, cfg, b2, date).complete
            && Represents(t, cfg, Apply(b, plan.steps), AddTo(cfg, repo, id, d))
  {
    hide Represents, GoodDeb, PoolPath, IndexPlan, AfterIndex, ReleaseSteps, PoolFields, ReleaseText;
    AddPlanSteps(t, cfg, b, id.component, d.pkg, d.data, date);
    AddRewrites(t, cfg, b, repo, id, d);
    var b2 := AfterIndex(t, cfg, b, repo, id, d);
    ReleaseStepsRepresent(t, cfg, b2, AddTo(cfg, repo, id, d), ReleaseText(t, cfg, b2, date));
  }

  // ----- Remove

  /** The repository after a Remove has been through some of the indexes. */
  function RemoveFrom(repo: Repo, ids: set<IndexId>, name: string, version: string): Repo {
    map id | id in repo :: if id in ids then WithoutDebs(repo[id], name, version) else repo[id]
  }

  /** A key that a Remove may come across: of an index, or of a Release file. */
  ghost predicate Known(cfg: Config, ids: set<IndexId>, k: string) {
    || (exists id :: id in ids && GoodId(id) && IsKeyOf(cfg, id, k))
    || (exists f :: IsReleaseName(f) && k == ReleaseKey(cfg, f))
  }

  ghost function IdsOf(cfg: Config, ids: set<IndexId>, keys: seq<string>): set<IndexId> {
    set id | id in ids && FileKey(cfg, id, "Packages") in keys
  }

  lemma {:induction false} WithoutNone(l: seq<Deb>, name: string, version: string)
    requires forall d | d in l :: !Matches(d.pkg, name, version)
    ensures WithoutDebs(l, name, version) == l
  {
    hide Matches;
    if l != [] {
      assert l == [l[0]] + l[1..];
      WithoutNone(l[1..], name, version);
    }
  }

  lemma {:induction false} CountWithout(l: seq<Deb>, name: string, version: string, p: Deb -> bool)
    ensures Count(WithoutDebs(l, name, version), p) <= Count(l, p)
  {
    if l != [] {
      var rest := WithoutDebs(l[1..], name, version);
      CountWithout(l[1..], name, version, p);
      CountCons(l[0], l[1..], p);
      CountCons(l[0], rest, p);
      assert l == [l[0]] + l[1..];
      assert [] + rest == rest;
    }
  }

  lemma {:induction false} CountCons(d: Deb, l: seq<Deb>, p: Deb -> bool)
    ensures Count([d] + l, p) == Count(l, p) + if p(d) then 1 else 0
  {
    if l == [] {
      assert [d] + l == [d] && [d][..0] == [];
    } else {
      var n := |l| - 1;
      CountCons(d, l[..n], p);
      assert ([d] + l)[..n + 1] == [d] + l[..n];
    }
  }

  lemma WithoutValid(t: Tools, cfg: Config, id: IndexId, l: seq<Deb>, name: string, version: string)
    requires ValidIndex(t, cfg, id, l)
    ensures ValidIndex(t, cfg, id, WithoutDebs(l, name, version))
    ensures Divides(l, WithoutDebs(l, name, version), MatchingDebs(l, name, version))
  {
    hide GoodDeb, SameIdentity, Capped, Matches;
    var r := WithoutDebs(l, name, version);
    WithoutIs(l, name, version);
    WithoutDistinct(l, name, version);
    forall i | 0 <= i < |r| ensures GoodDeb(t, r[i]) && r[i].pkg.architecture == id.arch {
      assert r[i] in l;
    }
    if cfg.keepVersions > 0 {
      WithoutCapped(l, cfg.keepVersions, name, version);
    }
  }

  lemma WithoutCapped(l: seq<Deb>, keep: int, name: string, version: string)
    requires Capped(l, keep, DebName)
    ensures Capped(WithoutDebs(l, name, version), keep, DebName)
  {
    forall g: string ensures Count(WithoutDebs(l, name, version), InGroup<Deb>(DebName, g)) <= keep {
      CountWithout(l, name, version, InGroup<Deb>(DebName, g));
      assert Count(l, InGroup<Deb>(DebName, g)) <= keep;
    }
  }

  /** What a Remove does to one index. */
  lemma RemoveOneIndex(t: Tools, cfg: Config, b: Bucket, repo: Repo, id: IndexId, name: string, version: string)
    requires Setting(t, cfg) && Represents(t, cfg, b, repo) && id in repo && GoodId(id)
    ensures var one := RemoveOne(t, b, FileKey(cfg, id, "Packages"), name, version);
            && one.plan.complete && one.count == |MatchingDebs(repo[id], name, version)|
            && Represents(t, cfg, Apply(b, one.plan.steps), repo[id := WithoutDebs(repo[id], name, version)])
  {
    hide Represents, GoodDeb, FileKey, PackagesKey, Rewritten, RewriteIndex, ReadPackages, Entries, ValidIndex, Base,
      GoodIndex, Without, Matching;
    var l := repo[id];
    var kept, removed := WithoutDebs(l, name, version), MatchingDebs(l, name, version);
    FileKeyIs(cfg, id);
    IndexKeyInDist(cfg, id, "Packages");
    ReadsListed(t, cfg, b, repo, id);
    WithoutCommutes(t, id.component, l, name, version);
    EntriesEmpty(t, id.component, removed);
    ApplyNothing(b);
    RepresentedIsValid(t, cfg, b, repo, id);
    if removed == [] {
      WithoutIs(l, name, version);
      WithoutNone(l, name, version);
      assert repo[id := l] == repo;
    } else {
      WithoutValid(t, cfg, id, l, name, version);
      RepresentsIsStaged(t, cfg, b, repo, id);
      GoodRemoved(t, l, kept, removed);
      RewriteIsRewritten(t, cfg, b, id, kept, removed);
      RewriteRepresents(t, cfg, b, repo, id, kept, removed);
    }
  }

  lemma EntriesEmpty(t: Tools, component: string, l: seq<Deb>)
    ensures |Entries(t, component, l)| == |l|
  {
  }

  lemma RepresentedIsValid(t: Tools, cfg: Config, b: Bucket, repo: Repo, id: IndexId)
    requires Represents(t, cfg, b, repo) && id in repo
    ensures GoodId(id) && ValidIndex(t, cfg, id, repo[id])
    ensures forall d | d in repo[id] :: GoodDeb(t, d)
  {
    hide GoodDeb, OnlyIndexes, NoOrphans;
    assert GoodIndex(t, cfg, b, id, repo[id]);
  }

  /** Keys other than those of plain indexes are passed over. */
  lemma RemoveSkips(t: Tools, cfg: Config, b: Bucket, ids: set<IndexId>, k: string, name: string, version: string)
    requires Setting(t, cfg) && Known(cfg, ids, k)
    requires forall id | id in ids :: k != FileKey(cfg, id, "Packages")
    ensures RemoveOne(t, b, k, name, version) == Removal(Plan([], true), 0)
  {
    hide FileKey, ReleaseKey, ReadPackages, Base;
    if id :| id in ids && GoodId(id) && IsKeyOf(cfg, id, k) {
      IndexKeyInDist(cfg, id, "Packages.gz");
    } else {
      var f :| IsReleaseName(f) && k == ReleaseKey(cfg, f);
      ReleaseKeyIs(cfg, f);
    }
  }

  /** How many entries a Remove takes out of the index with this key, if it is one. */
  ghost function MatchesAt(cfg: Config, repo: Repo, key: string, name: string, version: string): nat {
    if exists id :: id in repo && FileKey(cfg, id, "Packages") == key then
      var id :| id in repo && FileKey(cfg, id, "Packages") == key;
      |MatchingDebs(repo[id], name, version)|
    else 0
  }

  ghost function MatchCount(cfg: Config, repo: Repo, keys: seq<string>, name: string, version: string): nat {
    if keys == [] then 0
    else MatchesAt(cfg, repo, keys[0], name, version) + MatchCount(cfg, repo, keys[1..], name, version)
  }

  lemma MatchesAtIndex(cfg: Config, repo: Repo, id: IndexId, name: string, version: string)
    requires Plain(cfg.distribution) && id in repo && forall x | x in repo :: GoodId(x)
    ensures MatchesAt(cfg, repo, FileKey(cfg, id, "Packages"), name, version) == |MatchingDebs(repo[id], name, version)|
  {
    hide FileKey;
    forall x | x in repo && FileKey(cfg, x, "Packages") == FileKey(cfg, id, "Packages") ensures x == id {
      IndexKeyInjective(cfg, x, "Packages", id, "Packages");
    }
  }

  /** Rewriting one index leaves the matches in the others as they were. */
  lemma {:induction false} MatchCountFrame(cfg: Config, repo: Repo, id: IndexId, l: seq<Deb>, keys: seq<string>,
                                           name: string, version: string)
    requires Plain(cfg.distribution) && id in repo && forall x | x in repo :: GoodId(x)
    requires FileKey(cfg, id, "Packages") !in keys
    ensures MatchCount(cfg, repo[id := l], keys, name, version) == MatchCount(cfg, repo, keys, name, version)
  {
    hide FileKey;
    if keys != [] {
      var k, after := keys[0], repo[id := l];
      MatchCountFrame(cfg, repo, id, l, keys[1..], name, version);
      assert k in keys;
      if x :| x in repo && FileKey(cfg, x, "Packages") == k {
        assert x != id && after[x] == repo[x];
        MatchesAtIndex(cfg, repo, x, name, version);
        MatchesAtIndex(cfg, after, x, name, version);
      }
    }
  }

  /** A Remove goes through the listed indexes, leaving the bucket in agreement after each. */
  lemma {:induction false} RemoveAllRepresents(t: Tools, cfg: Config, b: Bucket, repo: Repo, keys: seq<string>,
                                               name: string, version: string)
    requires Setting(t, cfg) && Represents(t, cfg, b, repo)
    requires forall k | k in keys :: Known(cfg, repo.Keys, k)
    requires forall i, j :: 0 <= i < j < |keys| ==> keys[i] != keys[j]
    ensures var all := RemoveAll(t, b, keys, name, version);
            && all.plan.complete && all.count == MatchCount(cfg, repo, keys, name, version)
            && Represents(t, cfg, Apply(b, all.plan.steps),
                          RemoveFrom(repo, IdsOf(cfg, repo.Keys, keys), name, version))
    decreases |keys|
  {
    hide Represents, FileKey, RemoveOne, MatchesAt, IsKeyOf, WithoutDebs, Known;
    forall id | id in repo ensures GoodId(id) {
      RepresentedIsValid(t, cfg, b, repo, id);
    }
    if keys == [] {
      ApplyNothing(b);
      assert RemoveFrom(repo, IdsOf(cfg, repo.Keys, keys), name, version) == repo;
    } else {
      var k, rest := keys[0], keys[1..];
      var one := RemoveOne(t, b, k, name, version);
      assert Known(cfg, repo.Keys, k);
      if id :| id in repo && FileKey(cfg, id, "Packages") == k {
        var after := repo[id := WithoutDebs(repo[id], name, version)];
        RemoveOneIndex(t, cfg, b, repo, id, name, version);
        MatchesAtIndex(cfg, repo, id, name, version);
        MatchCountFrame(cfg, repo, id, WithoutDebs(repo[id], name, version), rest, name, version);
        assert after.Keys == repo.Keys;
        RemoveAllRepresents(t, cfg, Apply(b, one.plan.steps), after, rest, name, version);
        RemoveFromCons(cfg, repo, id, keys, name, version);
        RemoveAllCons(t, b, keys, name, version);
      } else {
        RemoveSkips(t, cfg, b, repo.Keys, k, name, version);
        NoMatchesAt(cfg, repo, k, name, version);
        ApplyNothing(b);
        RemoveAllRepresents(t, cfg, b, repo, rest, name, version);
        assert IdsOf(cfg, repo.Keys, keys) == IdsOf(cfg, repo.Keys, rest);
        RemoveAllCons(t, b, keys, name, version);
      }
    }
  }

  lemma NoMatchesAt(cfg: Config, repo: Repo, k: string, name: string, version: string)
    requires forall id | id in repo :: FileKey(cfg, id, "Packages") != k
    ensures MatchesAt(cfg, repo, k, name, version) == 0
  {
  }

  lemma RemoveAllCons(t: Tools, b: Bucket, keys: seq<string>, name: string, version: string)
    requires keys != []
    ensures var one := RemoveOne(t, b, keys[0], name, version);
            var more := RemoveAll(t, Apply(b, one.plan.steps), keys[1..], name, version);
            var all := RemoveAll(t, b, keys, name, version);
            one.plan.complete ==>
              && all.plan.complete == more.plan.complete && all.count == one.count + more.count
              && Apply(b, all.plan.steps) == Apply(Apply(b, one.plan.steps), more.plan.steps)
  {
    hide RemoveOne;
    var one := RemoveOne(t, b, keys[0], name, version);
    var more := RemoveAll(t, Apply(b, one.plan.steps), keys[1..], name, version);
    ApplyConcat(b, one.plan.steps, more.plan.steps);
  }

  lemma RemoveFromCons(cfg: Config, repo: Repo, id: IndexId, keys: seq<string>, name: string, version: string)
    requires Plain(cfg.distribution) && id in repo && forall x | x in repo :: GoodId(x)
    requires keys != [] && keys[0] == FileKey(cfg, id, "Packages") && keys[0] !in keys[1..]
    ensures var after := repo[id := WithoutDebs(repo[id], name, version)];
            RemoveFrom(after, IdsOf(cfg, after.Keys, keys[1..]), name, version) ==
                RemoveFrom(repo, IdsOf(cfg, repo.Keys, keys), name, version)
  {
    hide FileKey, WithoutDebs;
    var after := repo[id := WithoutDebs(repo[id], name, version)];
    assert after.Keys == repo.Keys;
    var x, y := IdsOf(cfg, after.Keys, keys[1..]), IdsOf(cfg, repo.Keys, keys);
    assert keys == [keys[0]] + keys[1..];
    forall i | i in repo ensures i in y <==> i in x || i == id {
      if FileKey(cfg, i, "Packages") == keys[0] {
        IndexKeyInjective(cfg, i, "Packages", id, "Packages");
      }
    }
    assert id !in x;
  }

  /** The repository after a Remove: the package is gone from every index of the component. */
  function RemoveIn(repo: Repo, component: string, name: string, version: string): Repo {
    map id | id in repo :: if id.component == component then WithoutDebs(repo[id], name, version) else repo[id]
  }

  lemma ListedAreKnown(t: Tools, cfg: Config, b: Bucket, repo: Repo, listing: set<string> -> seq<string>,
                       component: string)
    requires Setting(t, cfg) && Represents(t, cfg, b, repo) && Enumerates(listing) && Plain(component)
    ensures var keys := listing(Keys(b, ComponentDir(cfg, component)));
            && (forall k | k in keys :: Known(cfg, repo.Keys, k))
            && IdsOf(cfg, repo.Keys, keys) == set id | id in repo && id.component == component
  {
    hide FileKey, ReleaseKey, DistDir, ComponentDir, GoodIndex, NoOrphans, IsKeyOf;
    var keys := listing(Keys(b, ComponentDir(cfg, component)));
    ComponentDirIs(cfg, component);
    forall k | k in keys ensures Known(cfg, repo.Keys, k) {
      assert k in Keys(b, ComponentDir(cfg, component));
      assert HasPrefix(k, DistDir(cfg));
      if id :| id in repo.Keys && IsKeyOf(cfg, id, k) {
        RepresentedIsValid(t, cfg, b, repo, id);
      }
    }
    forall id | id in repo ensures FileKey(cfg, id, "Packages") in keys <==> id.component == component {
      RepresentedIsValid(t, cfg, b, repo, id);
      WrittenIsThere(t, cfg, b, repo, id);
      ComponentDirExact(cfg, component, id, "Packages");
    }
  }

  lemma WrittenIsThere(t: Tools, cfg: Config, b: Bucket, repo: Repo, id: IndexId)
    requires Represents(t, cfg, b, repo) && id in repo
    ensures IndexWritten(t, cfg, b, id, repo[id])
  {
    hide ValidIndex, OnlyIndexes, NoOrphans, PooledList, IndexWritten;
    assert GoodIndex(t, cfg, b, id, repo[id]);
  }

  /** A Remove leaves a bucket that holds the repository without the package, and says how many entries went. */
  lemma RemoveRepresents(t: Tools, cfg: Config, b: Bucket, repo: Repo, listing: set<string> -> seq<string>,
                         component: string, name: string, version: string, date: string)
    requires Setting(t, cfg) && Represents(t, cfg, b, repo) && Enumerates(listing) && Plain(component)
    ensures var all := RemovePlan(t, cfg, b, listing, component, name, version, date);
            && all.count == MatchCount(cfg, repo, listing(Keys(b, ComponentDir(cfg, component))), name, version)
            && Represents(t, cfg, Apply(b, all.plan.steps), RemoveIn(repo, component, name, version))
  {
    hide Represents, RemoveAll, Known, ReleaseSteps, ReleaseText, MatchCount, ComponentDir;
    var keys := listing(Keys(b, ComponentDir(cfg, component)));
    ListedAreKnown(t, cfg, b, repo, listing, component);
    RemoveAllRepresents(t, cfg, b, repo, keys, name, version);
    assert RemoveFrom(repo, IdsOf(cfg, repo.Keys, keys), name, version) == RemoveIn(repo, component, name, version);
    var all := RemoveAll(t, b, keys, name, version);
    if all.count != 0 {
      var b1 := Apply(b, all.plan.steps);
      var release := ReleasePlan(t, cfg, b1, date);
      ApplyConcat(b, all.plan.steps, release.steps);
      ReleaseStepsRepresent(t, cfg, b1, RemoveIn(repo, component, name, version), ReleaseText(t, cfg, b1, date));
    }
  }

  // ----- runs

  datatype Op =
    | AddOp(component: string, data: string, date: string)
    | RemoveOp(component: string, name: string, version: string, date: string)

  /** What an operation plans in a bucket. An Add of something that is no .deb plans nothing. */
  ghost function PlanOf(t: Tools, cfg: Config, listing: set<string> -> seq<string>, b: Bucket, op: Op): Plan {
    match op
    case AddOp(component, data, date) =>
      var pkg := ParseDeb(t, data);
      if pkg.None? then Plan([], false) else AddPlan(t, cfg, b, ComponentOf(component), pkg.value, data, date)
    case RemoveOp(component, name, version, date) =>
      RemovePlan(t, cfg, b, listing, ComponentOf(component), name, version, date).plan
  }

  /** The bucket after a run. An operation that only its signer stops has written pool and index all the same. */
  ghost function Run(t: Tools, cfg: Config, listing: set<string> -> seq<string>, b: Bucket, ops: seq<Op>): Bucket {
    if ops == [] then b
    else
      var before := Run(t, cfg, listing, b, ops[..|ops| - 1]);
      Apply(before, PlanOf(t, cfg, listing, before, ops[|ops| - 1]).steps)
  }

  /** The repository after an operation. */
  function RepoAfter(t: Tools, cfg: Config, repo: Repo, op: Op): Repo {
    match op
    case AddOp(component, data, date) =>
      var pkg := ParseDeb(t, data);
      if pkg.None? then repo
      else AddTo(cfg, repo, IndexId(ComponentOf(component), pkg.value.architecture), Deb(pkg.value, data))
    case RemoveOp(component, name, version, date) => RemoveIn(repo, ComponentOf(component), name, version)
  }

  /** The repository that a run describes. */
  function RunRepo(t: Tools, cfg: Config, ops: seq<Op>): Repo {
    if ops == [] then map[] else RepoAfter(t, cfg, RunRepo(t, cfg, ops[..|ops| - 1]), ops[|ops| - 1])
  }

  predicate GoodComponent(component: string) {
    Plain(component) && '\n' !in component
  }

  /** The hypotheses on what a run publishes. */
  ghost predicate GoodOp(t: Tools, op: Op) {
    GoodComponent(ComponentOf(op.component)) &&
    match op
    case AddOp(component, data, date) => ParseDeb(t, data).Some? ==> Publishable(ParseDeb(t, data).value)
    case RemoveOp(_, _, _, _) => true
  }

  lemma EmptyRepresents(t: Tools, cfg: Config)
    ensures Represents(t, cfg, map[], map[])
  {
  }

  /** After every run from an empty bucket, the bucket holds exactly the repository the run describes. */
  lemma {:induction false} RunRepresents(t: Tools, cfg: Config, listing: set<string> -> seq<string>, ops: seq<Op>)
    requires Setting(t, cfg) && Enumerates(listing)
    requires forall op | op in ops :: GoodOp(t, op)
    ensures Represents(t, cfg, Run(t, cfg, listing, map[], ops), RunRepo(t, cfg, ops))
  {
    hide Represents, Run, RunRepo;
    var n := |ops| - 1;
    if ops == [] {
      RunNothing(t, cfg, listing);
      EmptyRepresents(t, cfg);
    } else {
      RunRepresents(t, cfg, listing, ops[..n]);
      assert ops[n] in ops;
      RunStep(t, cfg, listing, ops);
      OpRepresents(t, cfg, Run(t, cfg, listing, map[], ops[..n]), RunRepo(t, cfg, ops[..n]), listing, ops[n]);
    }
  }

  lemma RunNothing(t: Tools, cfg: Config, listing: set<string> -> seq<string>)
    ensures Run(t, cfg, listing, map[], []) == map[] && RunRepo(t, cfg, []) == map[]
  {
  }

  lemma RunStep(t: Tools, cfg: Config, listing: set<string> -> seq<string>, ops: seq<Op>)
    requires ops != []
    ensures var n := |ops| - 1; var b := Run(t, cfg, listing, map[], ops[..n]);
            && Run(t, cfg, listing, map[], ops) == Apply(b, PlanOf(t, cfg, listing, b, ops[n]).steps)
            && RunRepo(t, cfg, ops) == RepoAfter(t, cfg, RunRepo(t, cfg, ops[..n]), ops[n])
  {
    hide PlanOf, RepoAfter;
  }

  /** Every operation, in a bucket that holds a repository, leaves one that holds the repository it should. */
  lemma OpRepresents(t: Tools, cfg: Config, b: Bucket, repo: Repo, listing: set<string> -> seq<string>, op: Op)
    requires Setting(t, cfg) && Enumerates(listing) && Represents(t, cfg, b, repo) && GoodOp(t, op)
    ensures Represents(t, cfg, Apply(b, PlanOf(t, cfg, listing, b, op).steps), RepoAfter(t, cfg, repo, op))
  {
    hide Represents, AddPlan, RemovePlan, ParseDeb, DebVersion.NonNegativeEpoch, AfterIndex, AddTo, RemoveIn,
      ReleasePlan, MatchCount;
    ApplyNothing(b);
    match op
    case AddOp(component, data, date) =>
      var pkg := ParseDeb(t, data);
      if pkg.Some? {
        AddRepresents(t, cfg, b, repo, IndexId(ComponentOf(component), pkg.value.architecture), Deb(pkg.value, data),
                      date);
      }
    case RemoveOp(component, name, version, date) =>
      RemoveRepresents(t, cfg, b, repo, listing, ComponentOf(component), name, version, date);
  }

  /** In such a bucket the publisher may be asked for the next Add: the versions in its indexes can be ordered. */
  lemma AddAllowed(t: Tools, cfg: Config, b: Bucket, repo: Repo, id: IndexId, d: Deb)
    requires Setting(t, cfg) && Represents(t, cfg, b, repo)
    requires GoodId(id) && GoodDeb(t, d) && d.pkg.architecture == id.arch
    ensures AptPublisher.OrderedIndex(b[PoolPath(id.component, d.pkg) := d.data], IndexKey(cfg, id), d.pkg.version)
  {
    hide Represents, PoolPath, PackagesKey, ReadPackages, ParseDeb, GoodPackage, DebVersion.NonNegativeEpoch, EntryOf,
      DebVersion.EpochsNear;
    ReadsListed(t, cfg, b, repo, id);
    IndexUntouched(t, cfg, b, id, d);
    var l := Listed(repo, id);
    if id in repo {
      RepresentedIsValid(t, cfg, b, repo, id);
    }
    var es := Entries(t, id.component, l);
    forall e | e in es ensures DebVersion.NonNegativeEpoch(e.version) {
      var i :| 0 <= i < |es| && es[i] == e;
      assert l[i] in l;
      EntryVersion(t, id.component, l[i]);
    }
    var versions := AptPublisher.VersionsOf(es) + {d.pkg.version};
    forall u, v | u in versions && v in versions ensures DebVersion.EpochsNear(u, v) {
      DebVersion.NonNegativeIsNear(u, v);
    }
  }

  lemma EntryVersion(t: Tools, component: string, d: Deb)
    ensures EntryOf(t, component)(d).version == d.pkg.version
  {
  }

  // ----- what this means to a client

  /** An entry of an index, as a client sees it, names a file that is there, with its size and digests. */
  ghost predicate EntryHolds(t: Tools, b: Bucket, e: Package) {
    var fn := Get(e.fields, "Filename");
    fn.Some? && fn.value in b && Describes(e, fn.value, t, b[fn.value])
  }

  /** Every entry of every index holds, and an index lists no version of a name twice and no name too often. */
  lemma IndexesHold(t: Tools, cfg: Config, b: Bucket, repo: Repo, id: IndexId)
    requires Setting(t, cfg) && Represents(t, cfg, b, repo) && id in repo
    ensures var es := ReadPackages(b, IndexKey(cfg, id));
            && es.Some?
            && (forall i :: 0 <= i < |es.value| ==> EntryHolds(t, b, es.value[i]))
            && (forall i, j :: 0 <= i < j < |es.value| ==> !Matches(es.value[i], es.value[j].name, es.value[j].version))
            && (cfg.keepVersions > 0 ==> Capped(es.value, cfg.keepVersions, NameOf))
  {
    hide Represents, ReadPackages, PackagesKey, Get, Capped, PoolFields, PoolPath, ParseDeb, GoodPackage,
      DebVersion.NonNegativeEpoch, OneLine;
    RepresentedIsValid(t, cfg, b, repo, id);
    ReadsListed(t, cfg, b, repo, id);
    PoolIsThere(t, cfg, b, repo, id);
    var l, es := repo[id], Entries(t, id.component, repo[id]);
    forall i | 0 <= i < |es| ensures EntryHolds(t, b, es[i]) {
      assert l[i] in l;
      EntryFields(t, id.component, l[i]);
    }
    forall i, j | 0 <= i < j < |es| ensures !Matches(es[i], es[j].name, es[j].version) {
      assert !SameIdentity(l[i], l[j]);
    }
    if cfg.keepVersions > 0 {
      CappedEntries(t, id.component, l, cfg.keepVersions);
    }
  }

  lemma PoolIsThere(t: Tools, cfg: Config, b: Bucket, repo: Repo, id: IndexId)
    requires Represents(t, cfg, b, repo) && id in repo
    ensures PooledList(b, id.component, repo[id])
  {
    hide ValidIndex, OnlyIndexes, NoOrphans, PooledList, IndexWritten;
    assert GoodIndex(t, cfg, b, id, repo[id]);
  }

  lemma CappedEntries(t: Tools, component: string, l: seq<Deb>, keep: int)
    requires Capped(l, keep, DebName)
    ensures Capped(Entries(t, component, l), keep, NameOf)
  {
    forall g: string ensures Count(Entries(t, component, l), InGroup(NameOf, g)) <= keep {
      CountEntries(t, component, l, g);
      assert Count(l, InGroup<Deb>(DebName, g)) <= keep;
    }
  }

  lemma {:induction false} CountEntries(t: Tools, component: string, l: seq<Deb>, g: string)
    ensures Count(Entries(t, component, l), InGroup(NameOf, g)) == Count(l, InGroup<Deb>(DebName, g))
  {
    hide EntryOf, Map;
    if l == [] {
      MapNil(EntryOf(t, component));
    } else {
      var n := |l| - 1;
      var front, d := l[..n], l[n];
      CountEntries(t, component, front, g);
      assert l == front + [d];
      MapSnoc(EntryOf(t, component), front, d);
      CountSnoc(Entries(t, component, front), EntryOf(t, component)(d), InGroup(NameOf, g));
      CountSnoc(front, d, InGroup<Deb>(DebName, g));
      EntryName(t, component, d);
    }
  }

  lemma EntryName(t: Tools, component: string, d: Deb)
    ensures NameOf(EntryOf(t, component)(d)) == DebName(d)
  {
  }

  /** Every file in the pool belongs to an entry, and to one only. */
  lemma PoolHolds(t: Tools, cfg: Config, b: Bucket, repo: Repo, k: string)
    requires Setting(t, cfg) && Represents(t, cfg, b, repo) && k in b && HasPrefix(k, "pool/")
    ensures exists id, i ::
              id in repo && 0 <= i < |repo[id]| &&
              Get(Entries(t, id.component, repo[id])[i].fields, "Filename") == Some(k)
    ensures forall id, i, x, j ::
              id in repo && 0 <= i < |repo[id]| &&
              Get(Entries(t, id.component, repo[id])[i].fields, "Filename") == Some(k) &&
              x in repo && 0 <= j < |repo[x]| && Get(Entries(t, x.component, repo[x])[j].fields, "Filename") == Some(k)
              ==> id == x && i == j
  {
    hide GoodIndex, OnlyIndexes, Get, PoolFields, PoolPath, ParseDeb;
    assert InPool(repo, k);
    var id, d :| id in repo && d in repo[id] && k == PoolPath(id.component, d.pkg);
    var i :| 0 <= i < |repo[id]| && repo[id][i] == d;
    RepresentedIsValid(t, cfg, b, repo, id);
    EntryFields(t, id.component, d);
    assert Entries(t, id.component, repo[id])[i] == EntryOf(t, id.component)(d);
    forall x, j | x in repo && 0 <= j < |repo[x]| &&
        Get(Entries(t, x.component, repo[x])[j].fields, "Filename") == Some(k)
      ensures id == x && i == j
    {
      EntryElsewhere(t, cfg, b, repo, id, i, x, j);
    }
  }

  lemma EntryElsewhere(t: Tools, cfg: Config, b: Bucket, repo: Repo, id: IndexId, i: nat, x: IndexId, j: nat)
    requires Setting(t, cfg) && Represents(t, cfg, b, repo)
    requires id in repo && i < |repo[id]| && x in repo && j < |repo[x]|
    requires Get(Entries(t, x.component, repo[x])[j].fields, "Filename") ==
             Some(PoolPath(id.component, repo[id][i].pkg))
    ensures id == x && i == j
  {
    hide Represents, Get, PoolFields, PoolPath, GoodDeb, SameIdentity;
    RepresentedIsValid(t, cfg, b, repo, id);
    RepresentedIsValid(t, cfg, b, repo, x);
    var d, e := repo[id][i], repo[x][j];
    assert d in repo[id] && e in repo[x];
    GoodIsPublishable(t, e);
    EntryFields(t, x.component, e);
    PoolKeysDiffer(t, x, e, id, d);
    SameIdentitySymmetric(d, e);
    assert i < j ==> !SameIdentity(d, e);
    assert j < i ==> !SameIdentity(e, d);
  }

  lemma GoodIsPublishable(t: Tools, d: Deb)
    requires GoodDeb(t, d)
    ensures Publishable(d.pkg)
  {
  }

  /** In every state reachable by successful operations: indexes and pool agree in both directions. */
  lemma ReachableAgrees(t: Tools, cfg: Config, listing: set<string> -> seq<string>, ops: seq<Op>)
    requires Setting(t, cfg) && Enumerates(listing)
    requires forall op | op in ops :: GoodOp(t, op)
    ensures var b, repo := Run(t, cfg, listing, map[], ops), RunRepo(t, cfg, ops);
            && (forall id | id in repo ::
                  ReadPackages(b, IndexKey(cfg, id)).Some? &&
                  forall e | e in ReadPackages(b, IndexKey(cfg, id)).value :: EntryHolds(t, b, e))
            && (forall k | k in b && HasPrefix(k, "pool/") ::
                  exists id, e :: id in repo && ReadPackages(b, IndexKey(cfg, id)).Some? &&
                    e in ReadPackages(b, IndexKey(cfg, id)).value && Get(e.fields, "Filename") == Some(k))
  {
    hide Represents, Run, RunRepo, ReadPackages, EntryHolds, Get, PackagesKey, Setting, GoodOp;
    RunRepresents(t, cfg, listing, ops);
    var b, repo := Run(t, cfg, listing, map[], ops), RunRepo(t, cfg, ops);
    forall id | id in repo
      ensures ReadPackages(b, IndexKey(cfg, id)).Some? &&
              forall e | e in ReadPackages(b, IndexKey(cfg, id)).value :: EntryHolds(t, b, e)
    {
      IndexesHold(t, cfg, b, repo, id);
    }
    forall k | k in b && HasPrefix(k, "pool/")
      ensures exists id, e :: id in repo && ReadPackages(b, IndexKey(cfg, id)).Some? &&
                e in ReadPackages(b, IndexKey(cfg, id)).value && Get(e.fields, "Filename") == Some(k)
    {
      PoolHolds(t, cfg, b, repo, k);
      var id, i :| id in repo && 0 <= i < |repo[id]| &&
        Get(Entries(t, id.component, repo[id])[i].fields, "Filename") == Some(k);
      RepresentedIsValid(t, cfg, b, repo, id);
      ReadsListed(t, cfg, b, repo, id);
      assert Entries(t, id.component, repo[id])[i] in ReadPackages(b, IndexKey(cfg, id)).value;
    }
  }
}
