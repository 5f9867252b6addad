/**
 The apt publisher as a program of single store calls, which alone on a bucket does what its plans say.
 */
module AptProgram {
  import opened Wrappers
  import opened Text
  import opened Paths
  import opened Storage
  import opened RetentionLaws
  import opened Sorting
  import opened Control
  import opened Apt
  import opened AptKeys
  import opened AptState
  import opened AptInvariant
  import opened AptPublisher
  import opened AptRuns
  import opened AptHealing
  import opened Interleaving
  import DebVersion

  predicate AptRegion(key: string) {
    HasPrefix(key, "pool/") || HasPrefix(key, "dists/")
  }

  function PackagesFrom(got: Option<string>): Option<seq<Package>> {
    if got.None? then Some([])
    else
      var r := ParseControlFile(got.value);
      if r.Ok? then Some(r.value) else None
  }

  ghost predicate IsSortOf(es: seq<ReleaseEntry>, entries: seq<ReleaseEntry>) {
    Elements(es) == Elements(entries) && AscendingPaths(es)
  }

  ghost function SortByPath(entries: seq<ReleaseEntry>): (es: seq<ReleaseEntry>)
    ensures (exists l :: IsSortOf(l, entries)) ==> IsSortOf(es, entries)
  {
    if l :| IsSortOf(l, entries) then l else entries
  }

  ghost function PathsOf(entries: seq<ReleaseEntry>): set<string> {
    set e | e in entries :: e.path
  }

  /** What the Release file says about the indexes that have been gathered. */
  ghost function Gathered(cfg: Config, entries: seq<ReleaseEntry>): Release {
    var rels := PathsOf(entries);
    Release(Sorted(ComponentsOf(cfg, rels)), Sorted(ArchesOf(rels)), SortByPath(entries))
  }

  /** Fetching the indexes one by one, then writing the Release files; a failure ends the operation. */
  ghost function GatherProgram(t: Tools, cfg: Config, keys: seq<string>, entries: seq<ReleaseEntry>, date: string,
                               next: Program): Program {
    if keys == [] then Writes(ReleaseSteps(cfg, RenderRelease(cfg, date, Gathered(cfg, entries))).steps, next)
    else if !IsIndexFile(keys[0]) then GatherProgram(t, cfg, keys[1..], entries, date, next)
    else Read(keys[0], (got: Option<string>) =>
      if got.None? then next
      else GatherProgram(t, cfg, keys[1..], entries + [DigestEntry(t, TrimPrefix(keys[0], DistDir(cfg)), got.value)],
                         date, next))
  }

  ghost function ReleaseProgram(t: Tools, cfg: Config, listing: set<string> -> seq<string>, date: string,
                                next: Program): Program {
    Look(DistDir(cfg), keys => GatherProgram(t, cfg, listing(keys), [], date, next))
  }

  ghost function IndexProgram(t: Tools, cfg: Config, component: string, entry: Package, more: Program,
                              next: Program): Program {
    var key := PackagesKey(cfg.distribution, component, entry.architecture);
    Read(key, got =>
      var existing := PackagesFrom(got);
      if existing.None? then next
      else
        var all := Without(existing.value, entry.name, entry.version) + [entry];
        Writes(RewriteIndex(t, key, KeptOf(cfg, all), RemovedOf(cfg, all)), more))
  }

  ghost function AddProgram(t: Tools, cfg: Config, listing: set<string> -> seq<string>, component: string,
                            pkg: Package, data: string,
                            date: string, next: Program): Program
    requires pkg.name != ""
  {
    Write(Put(PoolPath(component, pkg), data),
          IndexProgram(t, cfg, component, IndexEntry(t, component, pkg, data),
                       ReleaseProgram(t, cfg, listing, date, next), next))
  }

  /** The indexes of a Remove, one by one; the Release files are written if anything was taken out. */
  ghost function RemoveKeysProgram(t: Tools, cfg: Config, listing: set<string> -> seq<string>, keys: seq<string>,
                                   count: nat,
                                   name: string, version: string, date: string, next: Program): Program
  {
    if keys == [] then (if count == 0 then next else ReleaseProgram(t, cfg, listing, date, next))
    else if Base(keys[0]) != "Packages" then
      RemoveKeysProgram(t, cfg, listing, keys[1..], count, name, version, date, next)
    else Read(keys[0], got =>
      var existing := PackagesFrom(got);
      if existing.None? then next
      else
        var drop := Matching(existing.value, name, version);
        var more := RemoveKeysProgram(t, cfg, listing, keys[1..], count + |drop|, name, version, date, next);
        if drop == [] then more
        else Writes(RewriteIndex(t, keys[0], Without(existing.value, name, version), drop), more))
  }

  ghost function RemoveProgram(t: Tools, cfg: Config, listing: set<string> -> seq<string>, component: string,
                               name: string, version: string, date: string, next: Program): Program
  {
    Look(ComponentDir(cfg, component), keys =>
      RemoveKeysProgram(t, cfg, listing, listing(keys), 0, name, version, date, next))
  }

  /** One operation, and then the program that follows it, however the operation ends. */
  ghost function OpProgram(t: Tools, cfg: Config, listing: set<string> -> seq<string>, op: Op, next: Program): Program {
    match op
    case AddOp(component, data, date) =>
      var pkg := ParseDeb(t, data);
      if pkg.None? then next else AddProgram(t, cfg, listing, ComponentOf(component), pkg.value, data, date, next)
    case RemoveOp(component, name, version, date) =>
      RemoveProgram(t, cfg, listing, ComponentOf(component), name, version, date, next)
  }

  ghost function RunProgram(t: Tools, cfg: Config, listing: set<string> -> seq<string>, ops: seq<Op>): Program {
    if ops == [] then Done else OpProgram(t, cfg, listing, ops[0], RunProgram(t, cfg, listing, ops[1..]))
  }

  // ----- keys

  lemma InDistIsInRegion(cfg: Config, key: string)
    requires Plain(cfg.distribution) && HasPrefix(key, DistDir(cfg))
    ensures AptRegion(key)
  {
    hide DistDir;
    DistDirIs(cfg);
  }

  lemma ReleaseInRegion(cfg: Config, text: string)
    requires Plain(cfg.distribution)
    ensures forall s | s in ReleaseSteps(cfg, text).steps :: AptRegion(s.key)
  {
    hide AptRegion, ReleaseKey, ReleaseSteps, DistDir;
    var steps := ReleaseSteps(cfg, text).steps;
    ReleaseStepsAre(cfg, text);
    forall s | s in steps ensures AptRegion(s.key) {
      var i :| 0 <= i < |steps| && steps[i] == s;
      assert IsReleasePut(cfg, steps[i]);
      var f :| IsReleaseName(f) && s.key == ReleaseKey(cfg, f);
      ReleaseKeyIs(cfg, f);
      InDistIsInRegion(cfg, s.key);
    }
  }

  lemma IndexInRegion(cfg: Config, id: IndexId)
    requires Plain(cfg.distribution) && GoodId(id)
    ensures AptRegion(IndexKey(cfg, id)) && AptRegion(IndexKey(cfg, id) + ".gz")
  {
    hide FileKey, PackagesKey;
    FileKeyIs(cfg, id);
    IndexKeyInDist(cfg, id, "Packages");
    IndexKeyInDist(cfg, id, "Packages.gz");
  }

  /** Whatever the publisher's methods Add and Remove read is the publisher's own, too. */
  lemma ReadsInRegion(cfg: Config, id: IndexId, before: set<string>, after: set<string>)
    requires Plain(cfg.distribution) && GoodId(id)
    requires || ReadsBelow(before, after, {IndexKey(cfg, id)}, {DistDir(cfg)})
             || ReadsBelow(before, after, {}, RemoveDirs(cfg, id.component))
    ensures forall k | k in after && k !in before :: AptRegion(k)
  {
    hide PackagesKey, DistDir, ComponentDir;
    DistDirIs(cfg);
    ComponentDirIs(cfg, id.component);
    IndexInRegion(cfg, id);
    forall k | HasPrefix(k, DistDir(cfg)) || HasPrefix(k, ComponentDir(cfg, id.component)) ensures AptRegion(k) {
    }
  }

  /** Rewriting an index of well-formed packages touches the pool and the index. */
  lemma RewriteInRegion(t: Tools, cfg: Config, id: IndexId, kept: seq<Deb>, removed: seq<Deb>)
    requires Setting(t, cfg) && GoodId(id)
    requires forall d | d in removed :: GoodDeb(t, d) && d.pkg.architecture == id.arch
    ensures forall s | s in RewriteIndex(t, IndexKey(cfg, id), Entries(t, id.component, kept),
                                         Entries(t, id.component, removed)) :: AptRegion(s.key)
  {
    hide GoodDeb, BuildPackages, PackagesKey, PoolFiles, Filenames, Entries, PoolPath;
    var files := Map(PoolOf(id.component), removed);
    forall i | 0 <= i < |removed| ensures Publishable(removed[i].pkg) {
      assert removed[i] in removed;
      GoodIsPublishable(t, removed[i]);
    }
    FilenamesAre(t, id.component, removed);
    PoolFilesAre(id.component, removed);
    PoolFilesInPool(t, id, removed);
    IndexInRegion(cfg, id);
    var steps := RewriteIndex(t, IndexKey(cfg, id), Entries(t, id.component, kept), Entries(t, id.component, removed));
    forall s | s in Deletes(files) ensures AptRegion(s.key) {
      var i :| 0 <= i < |files| && s == Deletes(files)[i];
      assert files[i] in Elements(files);
    }
  }

  // ----- alone, the program carries out the plans

  lemma PackagesFromIs(b: Bucket, key: string)
    ensures PackagesFrom(Lookup(b, key)) == ReadPackages(b, key)
  {
    hide ParseControlFile;
  }

  /** One listed key of a gathering. */
  lemma GatherOne(t: Tools, cfg: Config, b: Bucket, keys: seq<string>, i: nat, date: string, next: Program)
    requires Plain(cfg.distribution) && BelowDist(cfg, keys) && i < |keys| && keys[i] in b
    ensures Reaches(GatherProgram(t, cfg, keys[i..], Collect(t, cfg, b, keys[..i]), date, next), b,
                    GatherProgram(t, cfg, keys[i + 1..], Collect(t, cfg, b, keys[..i + 1]), date, next), b, AptRegion)
  {
    hide Reaches, Collect, DigestEntry, IsIndexFile, DistDir, Gathered, RenderRelease, ReleaseSteps, AptRegion, Writes,
      HasPrefix;
    CollectStep(t, cfg, b, keys, i);
    var p := GatherProgram(t, cfg, keys[i..], Collect(t, cfg, b, keys[..i]), date, next);
    assert keys[i..][1..] == keys[i + 1..] && keys[i..][0] == keys[i];
    if IsIndexFile(keys[i]) {
      assert keys[i] in keys;
      InDistIsInRegion(cfg, keys[i]);
      ReachesNext(p, b, AptRegion);
    } else {
      ReachesItself(p, b, AptRegion);
    }
  }

  lemma {:induction false} GatherReaches(t: Tools, cfg: Config, b: Bucket, keys: seq<string>, i: nat, date: string,
                                         next: Program)
    requires Plain(cfg.distribution) && BelowDist(cfg, keys) && i <= |keys| && forall k | k in keys :: k in b
    ensures Reaches(GatherProgram(t, cfg, keys, [], date, next), b,
                    GatherProgram(t, cfg, keys[i..], Collect(t, cfg, b, keys[..i]), date, next), b, AptRegion)
  {
    hide Reaches, GatherProgram, BelowDist, Collect;
    if i == 0 {
      assert keys[0..] == keys && keys[..0] == [];
      CollectNothing(t, cfg, b);
      ReachesItself(GatherProgram(t, cfg, keys, [], date, next), b, AptRegion);
    } else {
      GatherReaches(t, cfg, b, keys, i - 1, date, next);
      assert keys[i - 1] in keys;
      GatherOne(t, cfg, b, keys, i - 1, date, next);
      ReachesThen(GatherProgram(t, cfg, keys, [], date, next), b,
                  GatherProgram(t, cfg, keys[i - 1..], Collect(t, cfg, b, keys[..i - 1]), date, next), b,
                  GatherProgram(t, cfg, keys[i..], Collect(t, cfg, b, keys[..i]), date, next), b, AptRegion);
    }
  }

  lemma CollectNothing(t: Tools, cfg: Config, b: Bucket)
    ensures Collect(t, cfg, b, []) == []
  {
  }

  /** The digests in path order are the gathered entries, sorted. */
  lemma DigestsAreSorted(t: Tools, cfg: Config, b: Bucket, keys: seq<string>)
    requires BelowDist(cfg, keys) && Elements(keys) == Keys(b, DistDir(cfg))
    ensures IsSortOf(Digests(t, cfg, b, Sorted(IndexPaths(cfg, b))), Collect(t, cfg, b, keys))
  {
    hide DistDir, IsIndexFile, DigestEntry, ContentOf, Collect, Compare, IndexPaths, PathsIn;
    CollectIs(t, cfg, b, keys);
    SamePaths(cfg, b, keys);
    var rels, entries := Sorted(IndexPaths(cfg, b)), Collect(t, cfg, b, keys);
    var es := Digests(t, cfg, b, rels);
    assert Elements(rels) == PathsIn(cfg, keys);
    forall i | 0 <= i < |es| ensures es[i].path == rels[i] && es[i] in entries {
      DigestPath(t, rels[i], ContentOf(b, DistDir(cfg) + rels[i]));
      assert rels[i] in PathsIn(cfg, keys);
      var x :| x in entries && x.path == rels[i];
    }
    forall x | x in entries ensures x in es {
      assert x.path in PathsIn(cfg, keys);
      assert x.path in Elements(rels);
      var i :| 0 <= i < |rels| && rels[i] == x.path;
      assert es[i] == x;
    }
  }

  lemma GatheredIs(t: Tools, cfg: Config, b: Bucket, keys: seq<string>)
    requires BelowDist(cfg, keys) && Elements(keys) == Keys(b, DistDir(cfg))
    ensures Gathered(cfg, Collect(t, cfg, b, keys)) == ReleaseOf(t, cfg, b)
  {
    hide DistDir, Collect, PathsIn, IndexPaths, ArchesOf, ComponentsOf, Digests, AscendingPaths, BelowDist;
    var entries := Collect(t, cfg, b, keys);
    DigestsAreSorted(t, cfg, b, keys);
    CollectIs(t, cfg, b, keys);
    CollectedIsPlanned(t, cfg, b, keys, SortByPath(entries));
    assert PathsOf(entries) == PathsIn(cfg, keys);
  }

  lemma ReleaseReaches(t: Tools, cfg: Config, b: Bucket, listing: set<string> -> seq<string>, date: string,
                       next: Program)
    requires Plain(cfg.distribution) && Enumerates(listing)
    ensures Reaches(ReleaseProgram(t, cfg, listing, date, next), b, next, Apply(b, ReleasePlan(t, cfg, b, date).steps),
                    AptRegion)
  {
    hide Reaches, Apply, Collect, ReleaseSteps, DistDir, AptRegion, BelowDist, Gathered, ReleaseOf, RenderRelease,
      Writes, HasPrefix;
    var p := ReleaseProgram(t, cfg, listing, date, next);
    var keys := listing(Keys(b, DistDir(cfg)));
    forall k | HasPrefix(k, DistDir(cfg)) ensures AptRegion(k) {
      InDistIsInRegion(cfg, k);
    }
    ReachesNext(p, b, AptRegion);
    ListingIsBelow(cfg, b, listing);
    assert forall k | k in keys :: k in Keys(b, DistDir(cfg));
    GatherReaches(t, cfg, b, keys, |keys|, date, next);
    assert keys[|keys|..] == [] && keys[..|keys|] == keys;
    GatheredIs(t, cfg, b, keys);
    var steps := ReleasePlan(t, cfg, b, date).steps;
    ReleaseInRegion(cfg, ReleaseText(t, cfg, b, date));
    WritesReach(steps, next, b, AptRegion);
    var q, w := GatherProgram(t, cfg, keys, [], date, next), Writes(steps, next);
    ReachesThen(p, b, q, b, w, b, AptRegion);
    ReachesThen(p, b, w, b, next, Apply(b, steps), AptRegion);
  }

  /** Reading an index and rewriting it. */
  lemma IndexReaches(t: Tools, cfg: Config, b: Bucket, component: string, entry: Package, more: Program, next: Program)
    requires AptRegion(PackagesKey(cfg.distribution, component, entry.architecture))
    requires var plan := IndexPlan(t, cfg, b, component, entry);
             plan.complete && forall s | s in plan.steps :: AptRegion(s.key)
    ensures Reaches(IndexProgram(t, cfg, component, entry, more, next), b, more,
                    Apply(b, IndexPlan(t, cfg, b, component, entry).steps), AptRegion)
  {
    hide Reaches, Apply, ReadPackages, PackagesFrom, Without, KeptOf, RemovedOf, RewriteIndex, AptRegion, Lookup,
      PackagesKey, Writes;
    var p := IndexProgram(t, cfg, component, entry, more, next);
    var steps := IndexPlan(t, cfg, b, component, entry).steps;
    PackagesFromIs(b, PackagesKey(cfg.distribution, component, entry.architecture));
    ReachesNext(p, b, AptRegion);
    WritesReach(steps, more, b, AptRegion);
    ReachesThen(p, b, Writes(steps, more), b, more, Apply(b, steps), AptRegion);
  }

  lemma UploadInRegion(t: Tools, id: IndexId, d: Deb)
    requires GoodId(id) && GoodDeb(t, d) && d.pkg.architecture == id.arch
    ensures AptRegion(PoolPath(id.component, d.pkg))
  {
    hide GoodDeb, PoolPath;
    PoolKeysDiffer(t, id, d, id, d);
  }

  lemma AddIndexInRegion(t: Tools, cfg: Config, b: Bucket, repo: Repo, id: IndexId, d: Deb)
    requires Setting(t, cfg) && Represents(t, cfg, b, repo)
    requires GoodId(id) && GoodDeb(t, d) && d.pkg.architecture == id.arch
    ensures var plan := IndexPlan(t, cfg, b[PoolPath(id.component, d.pkg) := d.data], id.component,
                                  IndexEntry(t, id.component, d.pkg, d.data));
            forall s | s in plan.steps :: AptRegion(s.key)
  {
    hide Represents, GoodDeb, PoolPath, PackagesKey, RewriteIndex, ReadPackages, KeptDebs, RemovedDebs, Entries,
      IndexPlan, IndexEntry, ValidIndex, AllDebs, AptRegion;
    var b1, all := b[PoolPath(id.component, d.pkg) := d.data], AllDebs(repo, id, d);
    ReadsListed(t, cfg, b, repo, id);
    IndexUntouched(t, cfg, b, id, d);
    AllIs(t, cfg, b1, repo, id, d);
    AllGood(t, cfg, b, repo, id, d);
    forall e | e in RemovedDebs(cfg, all) ensures e in all {
      RemovedInAll(cfg, all, e);
    }
    RewriteInRegion(t, cfg, id, KeptDebs(cfg, all), RemovedDebs(cfg, all));
  }

  lemma RemovedInAll(cfg: Config, all: seq<Deb>, e: Deb)
    requires e in RemovedDebs(cfg, all)
    ensures e in all
  {
    RetainedMember(all, cfg.keepVersions, DebName, CompareDebs, e);
  }

  lemma AllIs(t: Tools, cfg: Config, b1: Bucket, repo: Repo, id: IndexId, d: Deb)
    requires Setting(t, cfg) && GoodId(id) && d.pkg.architecture == id.arch
    requires ReadPackages(b1, IndexKey(cfg, id)) == Some(Entries(t, id.component, Listed(repo, id)))
    ensures var all := AllDebs(repo, id, d);
            IndexPlan(t, cfg, b1, id.component, IndexEntry(t, id.component, d.pkg, d.data)) ==
            Plan(RewriteIndex(t, IndexKey(cfg, id), Entries(t, id.component, KeptDebs(cfg, all)),
                              Entries(t, id.component, RemovedDebs(cfg, all))), true)
  {
    hide RewriteIndex, Entries, KeptDebs, RemovedDebs, PackagesKey, ReadPackages, IndexPlan, IndexEntry;
    IndexPlanIs(t, cfg, b1, id, Listed(repo, id), d);
  }

  lemma AddReaches(t: Tools, cfg: Config, b: Bucket, repo: Repo, listing: set<string> -> seq<string>, id: IndexId,
                   d: Deb, date: string, next: Program)
    requires Setting(t, cfg) && Represents(t, cfg, b, repo) && Enumerates(listing)
    requires GoodId(id) && GoodDeb(t, d) && d.pkg.architecture == id.arch
    ensures Reaches(AddProgram(t, cfg, listing, id.component, d.pkg, d.data, date, next), b, next,
                    Apply(b, AddPlan(t, cfg, b, id.component, d.pkg, d.data, date).steps), AptRegion)
  {
    hide Represents, GoodDeb, PoolPath, PackagesKey, IndexPlan, IndexEntry, ReleaseSteps, ReleaseText, Apply, Reaches,
      AfterIndex, AptRegion, IndexProgram, ReleaseProgram, Writes, AddPlan;
    var p := AddProgram(t, cfg, listing, id.component, d.pkg, d.data, date, next);
    var entry, more := IndexEntry(t, id.component, d.pkg, d.data), ReleaseProgram(t, cfg, listing, date, next);
    var put := Put(PoolPath(id.component, d.pkg), d.data);
    var b1 := b[PoolPath(id.component, d.pkg) := d.data];
    UploadInRegion(t, id, d);
    ReachesNext(p, b, AptRegion);
    AddRewrites(t, cfg, b, repo, id, d);
    AddIndexInRegion(t, cfg, b, repo, id, d);
    IndexInRegion(cfg, id);
    EntryArch(t, id.component, d);
    IndexReaches(t, cfg, b1, id.component, entry, more, next);
    var b2 := AfterIndex(t, cfg, b, repo, id, d);
    AddPlanSteps(t, cfg, b, id.component, d.pkg, d.data, date);
    ReleaseReaches(t, cfg, b2, listing, date, next);
    var q := IndexProgram(t, cfg, id.component, entry, more, next);
    ReachesThen(p, b, q, b1, more, b2, AptRegion);
    ReachesThen(p, b, more, b2, next, Apply(b2, ReleasePlan(t, cfg, b2, date).steps), AptRegion);
  }

  lemma EntryArch(t: Tools, component: string, d: Deb)
    ensures IndexEntry(t, component, d.pkg, d.data).architecture == d.pkg.architecture
  {
  }

  // ----- Remove

  /** What a Remove does to one listed index touches the pool and the index. */
  lemma RemoveOneInRegion(t: Tools, cfg: Config, b: Bucket, repo: Repo, id: IndexId, name: string, version: string)
    requires Setting(t, cfg) && Represents(t, cfg, b, repo) && id in repo && GoodId(id)
    ensures forall s | s in RemoveOne(t, b, FileKey(cfg, id, "Packages"), name, version).plan.steps :: AptRegion(s.key)
  {
    hide Represents, GoodDeb, FileKey, PackagesKey, RewriteIndex, ReadPackages, Entries, ValidIndex, Base, Without,
      Matching, AptRegion, WithoutDebs, MatchingDebs;
    var l := repo[id];
    var kept, removed := WithoutDebs(l, name, version), MatchingDebs(l, name, version);
    FileKeyIs(cfg, id);
    ReadsListed(t, cfg, b, repo, id);
    WithoutCommutes(t, id.component, l, name, version);
    RepresentedIsValid(t, cfg, b, repo, id);
    WithoutIs(l, name, version);
    ValidArches(t, cfg, id, l);
    RewriteInRegion(t, cfg, id, kept, removed);
  }

  lemma ValidArches(t: Tools, cfg: Config, id: IndexId, l: seq<Deb>)
    requires ValidIndex(t, cfg, id, l)
    ensures forall d | d in l :: d.pkg.architecture == id.arch
  {
    hide GoodDeb, Distinct, Capped;
  }

  /** One listed key of a Remove. */
  lemma RemoveKeyReaches(t: Tools, cfg: Config, b: Bucket, listing: set<string> -> seq<string>, keys: seq<string>,
                         count: nat,
                         name: string, version: string, date: string, next: Program)
    requires keys != [] && AptRegion(keys[0])
    requires var one := RemoveOne(t, b, keys[0], name, version);
             one.plan.complete && forall s | s in one.plan.steps :: AptRegion(s.key)
    ensures var one := RemoveOne(t, b, keys[0], name, version);
            Reaches(RemoveKeysProgram(t, cfg, listing, keys, count, name, version, date, next), b,
                    RemoveKeysProgram(t, cfg, listing, keys[1..], count + one.count, name, version, date, next),
                    Apply(b, one.plan.steps), AptRegion)
  {
    hide Reaches, Apply, ReadPackages, PackagesFrom, Without, Matching, RewriteIndex, AptRegion, Lookup, Base,
      ReleaseProgram, Writes;
    var p := RemoveKeysProgram(t, cfg, listing, keys, count, name, version, date, next);
    var one := RemoveOne(t, b, keys[0], name, version);
    var more := RemoveKeysProgram(t, cfg, listing, keys[1..], count + one.count, name, version, date, next);
    ApplyNothing(b);
    if Base(keys[0]) != "Packages" {
      ReachesItself(p, b, AptRegion);
    } else {
      PackagesFromIs(b, keys[0]);
      ReachesNext(p, b, AptRegion);
      if one.plan.steps != [] {
        WritesReach(one.plan.steps, more, b, AptRegion);
        ReachesThen(p, b, Writes(one.plan.steps, more), b, more, Apply(b, one.plan.steps), AptRegion);
      } else {
        RewriteWrites(t, keys[0]);
      }
    }
  }

  lemma RewriteWrites(t: Tools, key: string)
    ensures forall kept: seq<Package>, drop: seq<Package> :: RewriteIndex(t, key, kept, drop) != []
  {
    hide BuildPackages, Filenames;
  }

  ghost function AfterKeys(t: Tools, cfg: Config, listing: set<string> -> seq<string>, count: nat, date: string,
                           next: Program): Program {
    if count == 0 then next else ReleaseProgram(t, cfg, listing, date, next)
  }

  lemma {:induction false} RemoveKeysReach(t: Tools, cfg: Config, b: Bucket, repo: Repo,
                                           listing: set<string> -> seq<string>, keys: seq<string>, count: nat,
                                           name: string, version: string, date: string, next: Program)
    requires Setting(t, cfg) && Represents(t, cfg, b, repo)
    requires forall k | k in keys :: Known(cfg, repo.Keys, k) && AptRegion(k)
    requires forall i, j :: 0 <= i < j < |keys| ==> keys[i] != keys[j]
    ensures var all := RemoveAll(t, b, keys, name, version);
            Reaches(RemoveKeysProgram(t, cfg, listing, keys, count, name, version, date, next), b,
                    AfterKeys(t, cfg, listing, count + all.count, date, next), Apply(b, all.plan.steps), AptRegion)
    decreases |keys|
  {
    hide Represents, FileKey, RemoveOne, IsKeyOf, WithoutDebs, Known, Reaches, Apply, RemoveKeysProgram,
      ReleaseProgram, AptRegion, RemoveAll;
    var p := RemoveKeysProgram(t, cfg, listing, keys, count, name, version, date, next);
    if keys == [] {
      ApplyNothing(b);
      NoKeys(t, cfg, b, listing, count, name, version, date, next);
      ReachesItself(p, b, AptRegion);
    } else {
      var k, rest := keys[0], keys[1..];
      assert Known(cfg, repo.Keys, k) && AptRegion(k);
      var one := RemoveOne(t, b, k, name, version);
      var b1 := Apply(b, one.plan.steps);
      var after := RemoveKeepsKeys(t, cfg, b, repo, k, name, version);
      RemoveKeyReaches(t, cfg, b, listing, keys, count, name, version, date, next);
      RemoveKeysReach(t, cfg, b1, after, listing, rest, count + one.count, name, version, date, next);
      RemoveAllCons(t, b, keys, name, version);
      var all, more := RemoveAll(t, b, keys, name, version), RemoveAll(t, b1, rest, name, version);
      ReachesThen(p, b, RemoveKeysProgram(t, cfg, listing, rest, count + one.count, name, version, date, next), b1,
                  AfterKeys(t, cfg, listing, count + all.count, date, next), Apply(b1, more.plan.steps), AptRegion);
    }
  }

  lemma NoKeys(t: Tools, cfg: Config, b: Bucket, listing: set<string> -> seq<string>, count: nat, name: string,
               version: string, date: string, next: Program)
    ensures RemoveKeysProgram(t, cfg, listing, [], count, name, version, date, next) ==
            AfterKeys(t, cfg, listing, count, date, next)
    ensures RemoveAll(t, b, [], name, version) == Removal(Plan([], true), 0)
  {
  }

  /** After one listed key of a Remove the bucket still holds a repository with the same indexes. */
  lemma RemoveKeepsKeys(t: Tools, cfg: Config, b: Bucket, repo: Repo, k: string, name: string,
                        version: string) returns (after: Repo)
    requires Setting(t, cfg) && Represents(t, cfg, b, repo) && Known(cfg, repo.Keys, k)
    ensures var one := RemoveOne(t, b, k, name, version);
            && one.plan.complete && (forall s | s in one.plan.steps :: AptRegion(s.key))
            && after.Keys == repo.Keys && Represents(t, cfg, Apply(b, one.plan.steps), after)
  {
    hide Represents, FileKey, RemoveOne, IsKeyOf, WithoutDebs, Known, Apply, AptRegion;
    if id :| id in repo && FileKey(cfg, id, "Packages") == k {
      RepresentedIsValid(t, cfg, b, repo, id);
      RemoveOneIndex(t, cfg, b, repo, id, name, version);
      RemoveOneInRegion(t, cfg, b, repo, id, name, version);
      after := repo[id := WithoutDebs(repo[id], name, version)];
    } else {
      RemoveSkips(t, cfg, b, repo.Keys, k, name, version);
      ApplyNothing(b);
      after := repo;
    }
  }

  lemma RemoveReaches(t: Tools, cfg: Config, b: Bucket, repo: Repo, listing: set<string> -> seq<string>,
                      component: string,
                      name: string, version: string, date: string, next: Program)
    requires Setting(t, cfg) && Represents(t, cfg, b, repo) && Enumerates(listing) && Plain(component)
    ensures Reaches(RemoveProgram(t, cfg, listing, component, name, version, date, next), b, next,
                    Apply(b, RemovePlan(t, cfg, b, listing, component, name, version, date).plan.steps), AptRegion)
  {
    hide Represents, RemoveAll, Known, ReleaseSteps, ReleaseText, MatchCount, ComponentDir, Reaches, Apply,
      RemoveKeysProgram, ReleaseProgram, AptRegion, DistDir, HasPrefix;
    var p := RemoveProgram(t, cfg, listing, component, name, version, date, next);
    var keys := listing(Keys(b, ComponentDir(cfg, component)));
    forall k | HasPrefix(k, ComponentDir(cfg, component)) ensures AptRegion(k) {
      ComponentInRegion(cfg, component, k);
    }
    ReachesNext(p, b, AptRegion);
    ListedAreKnown(t, cfg, b, repo, listing, component);
    assert forall k | k in keys :: k in Keys(b, ComponentDir(cfg, component));
    RemoveKeysReach(t, cfg, b, repo, listing, keys, 0, name, version, date, next);
    RemoveAllRepresents(t, cfg, b, repo, keys, name, version);
    var all := RemoveAll(t, b, keys, name, version);
    var b1, q := Apply(b, all.plan.steps), RemoveKeysProgram(t, cfg, listing, keys, 0, name, version, date, next);
    var a := AfterKeys(t, cfg, listing, all.count, date, next);
    ReachesThen(p, b, q, b, a, b1, AptRegion);
    if all.count != 0 {
      var release := ReleasePlan(t, cfg, b1, date).steps;
      ReleaseReaches(t, cfg, b1, listing, date, next);
      ApplyConcat(b, all.plan.steps, release);
      ReachesThen(p, b, a, b1, next, Apply(b1, release), AptRegion);
    }
  }

  lemma ComponentInRegion(cfg: Config, component: string, k: string)
    requires Plain(cfg.distribution) && Plain(component) && HasPrefix(k, ComponentDir(cfg, component))
    ensures AptRegion(k)
  {
    hide ComponentDir, DistDir, AptRegion;
    ComponentDirIs(cfg, component);
    InDistIsInRegion(cfg, k);
  }

  // ----- runs

  /** Alone, one operation of the program carries out its plan, within the keys of apt. */
  lemma OpReaches(t: Tools, cfg: Config, b: Bucket, repo: Repo, listing: set<string> -> seq<string>, op: Op,
                  next: Program)
    requires Setting(t, cfg) && Enumerates(listing) && Represents(t, cfg, b, repo) && GoodOp(t, op)
    ensures Reaches(OpProgram(t, cfg, listing, op, next), b, next, Apply(b, PlanOf(t, cfg, listing, b, op).steps),
                    AptRegion)
  {
    hide Represents, AddPlan, RemovePlan, ParseDeb, Reaches, Apply, AddProgram, RemoveProgram,
      DebVersion.NonNegativeEpoch;
    ApplyNothing(b);
    match op
    case AddOp(component, data, date) =>
      var pkg := ParseDeb(t, data);
      if pkg.Some? {
        AddReaches(t, cfg, b, repo, listing, IndexId(ComponentOf(component), pkg.value.architecture),
                   Deb(pkg.value, data), date, next);
      } else {
        ReachesItself(next, b, AptRegion);
      }
    case RemoveOp(component, name, version, date) =>
      RemoveReaches(t, cfg, b, repo, listing, ComponentOf(component), name, version, date, next);
  }

  lemma {:induction false} RunReaches(t: Tools, cfg: Config, listing: set<string> -> seq<string>, ops: seq<Op>, i: nat)
    requires Setting(t, cfg) && Enumerates(listing) && i <= |ops|
    requires forall op | op in ops :: GoodOp(t, op)
    ensures Reaches(RunProgram(t, cfg, listing, ops), map[], RunProgram(t, cfg, listing, ops[i..]),
                    Run(t, cfg, listing, map[], ops[..i]), AptRegion)
  {
    hide Reaches, Apply, Represents, Run, RunRepo, PlanOf, OpProgram, GoodOp;
    if i == 0 {
      assert ops[0..] == ops && ops[..0] == [];
      RunNothing(t, cfg, listing);
      ReachesItself(RunProgram(t, cfg, listing, ops), map[], AptRegion);
    } else {
      var op, front := ops[i - 1], ops[..i - 1];
      var b := Run(t, cfg, listing, map[], front);
      assert op in ops;
      RunReaches(t, cfg, listing, ops, i - 1);
      assert ops[..i][..i - 1] == front && ops[i - 1..][1..] == ops[i..];
      assert forall x | x in front :: x in ops;
      RunRepresents(t, cfg, listing, front);
      OpReaches(t, cfg, b, RunRepo(t, cfg, front), listing, op, RunProgram(t, cfg, listing, ops[i..]));
      RunStep(t, cfg, listing, ops[..i]);
      ReachesThen(RunProgram(t, cfg, listing, ops), map[], RunProgram(t, cfg, listing, ops[i - 1..]), b,
                  RunProgram(t, cfg, listing, ops[i..]), Run(t, cfg, listing, map[], ops[..i]), AptRegion);
    }
  }

  /** Alone, the program of a run ends in the bucket of the run, within the keys of apt. */
  lemma AloneIsRun(t: Tools, cfg: Config, listing: set<string> -> seq<string>, ops: seq<Op>)
    requires Setting(t, cfg) && Enumerates(listing)
    requires forall op | op in ops :: GoodOp(t, op)
    ensures Reaches(RunProgram(t, cfg, listing, ops), map[], Done, Run(t, cfg, listing, map[], ops), AptRegion)
  {
    hide Reaches, GoodOp, Run;
    RunReaches(t, cfg, listing, ops, |ops|);
    assert ops[|ops|..] == [] && ops[..|ops|] == ops;
  }
}
