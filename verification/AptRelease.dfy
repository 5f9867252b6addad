/**
 The Release file is an exact digest of the indexes it is published with.
 */
module AptRelease {
  import opened Wrappers
  import opened Text
  import opened Paths
  import opened Storage
  import opened Sorting
  import opened Apt
  import opened AptKeys
  import opened AptState
  import opened AptInvariant
  import opened AptRuns
  import opened AptReleaseText
  import AptPublisher

  /** The path under which a Release file lists an index. */
  function ListedPath(cfg: Config, id: IndexId, f: string): string {
    TrimPrefix(FileKey(cfg, id, f), DistDir(cfg))
  }

  ghost function ListedPaths(cfg: Config, ids: set<IndexId>): set<string> {
    (set id | id in ids :: ListedPath(cfg, id, "Packages")) + set id | id in ids :: ListedPath(cfg, id, "Packages.gz")
  }

  lemma IndexPathOf(t: Tools, cfg: Config, b: Bucket, repo: Repo, k: string)
    requires Setting(t, cfg) && Represents(t, cfg, b, repo)
    requires k in b && HasPrefix(k, DistDir(cfg)) && IsIndexFile(k)
    ensures exists id :: id in repo && IsKeyOf(cfg, id, k)
  {
    hide GoodIndex, NoOrphans, FileKey, ReleaseKey, DistDir, Base;
    if f :| IsReleaseName(f) && k == ReleaseKey(cfg, f) {
      ReleaseKeyIs(cfg, f);
    }
  }

  lemma IndexIsListed(t: Tools, cfg: Config, b: Bucket, repo: Repo, id: IndexId, f: string)
    requires Setting(t, cfg) && Represents(t, cfg, b, repo) && id in repo && IsIndexName(f)
    ensures FileKey(cfg, id, f) in b && HasPrefix(FileKey(cfg, id, f), DistDir(cfg)) && IsIndexFile(FileKey(cfg, id, f))
  {
    hide Represents, FileKey, DistDir, Base;
    RepresentedIsValid(t, cfg, b, repo, id);
    WrittenIsThere(t, cfg, b, repo, id);
    IndexKeyInDist(cfg, id, f);
  }

  lemma IndexPathsAre(t: Tools, cfg: Config, b: Bucket, repo: Repo)
    requires Setting(t, cfg) && Represents(t, cfg, b, repo)
    ensures IndexPaths(cfg, b) == ListedPaths(cfg, repo.Keys)
  {
    hide Represents, FileKey, DistDir, IsIndexFile;
    forall p | p in IndexPaths(cfg, b) ensures p in ListedPaths(cfg, repo.Keys) {
      var k :| k in b && HasPrefix(k, DistDir(cfg)) && IsIndexFile(k) && p == TrimPrefix(k, DistDir(cfg));
      IndexPathOf(t, cfg, b, repo, k);
    }
    forall id | id in repo
      ensures ListedPath(cfg, id, "Packages") in IndexPaths(cfg, b) &&
              ListedPath(cfg, id, "Packages.gz") in IndexPaths(cfg, b)
    {
      IndexIsListed(t, cfg, b, repo, id, "Packages");
      IndexIsListed(t, cfg, b, repo, id, "Packages.gz");
    }
  }

  lemma PathSplits(cfg: Config, ids: set<IndexId>, rel: string)
    requires Plain(cfg.distribution) && rel in ListedPaths(cfg, ids) && forall id | id in ids :: GoodId(id)
    ensures SplitBinaryPath(rel).Some?
    ensures exists id :: id in ids && SplitBinaryPath(rel) == Some((id.component, id.arch))
  {
    hide SplitBinaryPath, ListedPath, GoodId;
    var id :| id in ids && (rel == ListedPath(cfg, id, "Packages") || rel == ListedPath(cfg, id, "Packages.gz"));
    ListedPathSplits(cfg, id, "Packages");
    ListedPathSplits(cfg, id, "Packages.gz");
  }

  lemma SplitsAre(cfg: Config, ids: set<IndexId>)
    requires Plain(cfg.distribution) && forall id | id in ids :: GoodId(id)
    ensures ArchesOf(ListedPaths(cfg, ids)) == set id | id in ids :: id.arch
    ensures ComponentsOf(cfg, ListedPaths(cfg, ids)) == Elements(cfg.components) + set id | id in ids :: id.component
  {
    hide SplitBinaryPath, ListedPath, ListedPaths, GoodId;
    var rels := ListedPaths(cfg, ids);
    forall rel | rel in rels
      ensures SplitBinaryPath(rel).Some?
      ensures exists id :: id in ids && SplitBinaryPath(rel) == Some((id.component, id.arch))
    {
      PathSplits(cfg, ids, rel);
    }
    forall id | id in ids ensures exists rel :: rel in rels && SplitBinaryPath(rel) == Some((id.component, id.arch)) {
      ListedPathSplits(cfg, id, "Packages");
      PathIsListed(cfg, ids, id);
    }
  }

  lemma PathIsListed(cfg: Config, ids: set<IndexId>, id: IndexId)
    requires id in ids
    ensures ListedPath(cfg, id, "Packages") in ListedPaths(cfg, ids)
  {
    hide ListedPath;
  }

  lemma ListedPathSplits(cfg: Config, id: IndexId, f: string)
    requires Plain(cfg.distribution) && GoodId(id) && IsIndexName(f)
    ensures SplitBinaryPath(ListedPath(cfg, id, f)) == Some((id.component, id.arch))
  {
    SplitBinaryPathInverts(cfg, id, f);
  }

  /** What a Release file says: every index once, sorted, with the size and the digests of the stored bytes; and
      exactly the architectures that have an index. */
  lemma ReleaseIsDigest(t: Tools, cfg: Config, b: Bucket, repo: Repo)
    requires Setting(t, cfg) && Represents(t, cfg, b, repo)
    ensures var r := ReleaseOf(t, cfg, b);
            && AptPublisher.AscendingPaths(r.entries)
            && (set e | e in r.entries :: e.path) == ListedPaths(cfg, repo.Keys)
            && (forall e | e in r.entries ::
                DistDir(cfg) + e.path in b && e == DigestEntry(t, e.path, b[DistDir(cfg) + e.path]))
            && r.arches == Sorted(set id | id in repo :: id.arch)
            && r.components == Sorted(Elements(cfg.components) + set id | id in repo :: id.component)
  {
    hide Represents, DistDir, ArchesOf, ComponentsOf, ListedPaths, Compare, IndexPaths, DigestEntry, ContentOf;
    IndexPathsAre(t, cfg, b, repo);
    forall id | id in repo ensures GoodId(id) {
      RepresentedIsValid(t, cfg, b, repo, id);
    }
    SplitsAre(cfg, repo.Keys);
    var rels := ListedPaths(cfg, repo.Keys);
    var paths := Sorted(rels);
    var es := Digests(t, cfg, b, paths);
    forall i | 0 <= i < |es|
      ensures es[i].path == paths[i] && paths[i] in rels && DistDir(cfg) + paths[i] in b
      ensures es[i] == DigestEntry(t, paths[i], b[DistDir(cfg) + paths[i]])
    {
      AptPublisher.DigestPath(t, paths[i], ContentOf(b, DistDir(cfg) + paths[i]));
      assert paths[i] in Elements(paths);
      PathIsStored(cfg, b, paths[i]);
    }
    forall p | p in rels ensures exists e :: e in es && e.path == p {
      assert p in Elements(paths);
      var i :| 0 <= i < |paths| && paths[i] == p;
      assert es[i] in es;
    }
    forall e | e in es
      ensures e.path in rels && DistDir(cfg) + e.path in b && e == DigestEntry(t, e.path, b[DistDir(cfg) + e.path])
    {
      var i :| 0 <= i < |es| && es[i] == e;
    }
  }

  lemma PathIsStored(cfg: Config, b: Bucket, p: string)
    requires p in IndexPaths(cfg, b)
    ensures DistDir(cfg) + p in b && ContentOf(b, DistDir(cfg) + p) == b[DistDir(cfg) + p]
  {
    hide DistDir, IsIndexFile;
    var k :| k in b && HasPrefix(k, DistDir(cfg)) && IsIndexFile(k) && p == TrimPrefix(k, DistDir(cfg));
    assert k == DistDir(cfg) + p;
  }

  // ----- the file that is published

  /** Writing a Release file does not change what there is to say in it. */
  lemma ReleaseSaysTheSame(t: Tools, cfg: Config, b: Bucket, s: Step)
    requires Plain(cfg.distribution) && IsReleasePut(cfg, s)
    ensures ReleaseOf(t, cfg, ApplyStep(b, s)) == ReleaseOf(t, cfg, b)
  {
    hide DistDir, ArchesOf, ComponentsOf, Base, DigestEntry, ReleaseKey;
    var f :| IsReleaseName(f) && s.key == ReleaseKey(cfg, f);
    ReleaseKeyIs(cfg, f);
    var b1 := b[s.key := s.body];
    assert !IsIndexFile(s.key);
    assert IndexPaths(cfg, b1) == IndexPaths(cfg, b);
    var rels := Sorted(IndexPaths(cfg, b));
    forall i | 0 <= i < |rels| ensures ContentOf(b1, DistDir(cfg) + rels[i]) == ContentOf(b, DistDir(cfg) + rels[i]) {
      assert rels[i] in Elements(rels);
      PathIsIndex(cfg, b, rels[i]);
    }
    assert Digests(t, cfg, b1, rels) == Digests(t, cfg, b, rels);
  }

  lemma PathIsIndex(cfg: Config, b: Bucket, p: string)
    requires p in IndexPaths(cfg, b)
    ensures IsIndexFile(DistDir(cfg) + p)
  {
    hide DistDir, IsIndexFile;
    var k :| k in b && HasPrefix(k, DistDir(cfg)) && IsIndexFile(k) && p == TrimPrefix(k, DistDir(cfg));
    assert k == DistDir(cfg) + p;
  }

  lemma {:induction false} ReleasePutsSayTheSame(t: Tools, cfg: Config, b: Bucket, steps: seq<Step>)
    requires Plain(cfg.distribution) && forall i :: 0 <= i < |steps| ==> IsReleasePut(cfg, steps[i])
    ensures ReleaseOf(t, cfg, Apply(b, steps)) == ReleaseOf(t, cfg, b)
  {
    hide ReleaseOf, IsReleasePut;
    if steps != [] {
      var n := |steps| - 1;
      ReleasePutsSayTheSame(t, cfg, b, steps[..n]);
      ReleaseSaysTheSame(t, cfg, Apply(b, steps[..n]), steps[n]);
    }
  }

  /** The Release files in a bucket are those of what the bucket holds. */
  ghost predicate Published(t: Tools, cfg: Config, b: Bucket, date: string) {
    var text := RenderRelease(cfg, date, ReleaseOf(t, cfg, b));
    && Has(b, ReleaseKey(cfg, "Release"), text)
    && (cfg.signer.Some? ==>
          && cfg.signer.value.clearSign(text).Some? && cfg.signer.value.detachSign(text).Some?
          && Has(b, ReleaseKey(cfg, "InRelease"), cfg.signer.value.clearSign(text).value)
          && Has(b, ReleaseKey(cfg, "Release.gpg"), cfg.signer.value.detachSign(text).value))
  }

  lemma ReleaseKeysDiffer(cfg: Config)
    requires Plain(cfg.distribution)
    ensures ReleaseKey(cfg, "Release") != ReleaseKey(cfg, "InRelease")
    ensures ReleaseKey(cfg, "Release") != ReleaseKey(cfg, "Release.gpg")
    ensures ReleaseKey(cfg, "InRelease") != ReleaseKey(cfg, "Release.gpg")
  {
    hide ReleaseKey, Base, DistDir;
    ReleaseKeyIs(cfg, "Release");
    ReleaseKeyIs(cfg, "InRelease");
    ReleaseKeyIs(cfg, "Release.gpg");
  }

  lemma ReleaseStepsPublish(t: Tools, cfg: Config, b: Bucket, date: string)
    requires Plain(cfg.distribution) && ReleasePlan(t, cfg, b, date).complete
    ensures Published(t, cfg, Apply(b, ReleasePlan(t, cfg, b, date).steps), date)
  {
    hide ReleaseOf, ReleaseKey, RenderRelease, Apply;
    var text := ReleaseText(t, cfg, b, date);
    var steps := ReleaseSteps(cfg, text).steps;
    ReleaseStepsAre(cfg, text);
    ReleasePutsSayTheSame(t, cfg, b, steps);
    ReleaseKeysDiffer(cfg);
    if cfg.signer.None? {
      ApplyOne(b, steps[0]);
    } else {
      ApplyThree(b, steps[0], steps[1], steps[2]);
      assert steps == [steps[0], steps[1], steps[2]];
    }
  }

  lemma ApplyThree(b: Bucket, x: Step, y: Step, z: Step)
    ensures Apply(b, [x, y, z]) == ApplyStep(ApplyStep(ApplyStep(b, x), y), z)
  {
    hide ApplyStep;
    assert [x, y, z][..2] == [x, y] && [x, y][..1] == [x];
    ApplyOne(b, x);
  }

  /** At no moment of publishing is there a new signed copy or signature beside an old Release file. */
  lemma SignaturesFollow(t: Tools, cfg: Config, b: Bucket, date: string, k: nat)
    requires Plain(cfg.distribution) && k <= |ReleasePlan(t, cfg, b, date).steps|
    ensures var x := Apply(b, ReleasePlan(t, cfg, b, date).steps[..k]); var dir := "dists/" + cfg.distribution + "/";
            && (|| Same(b, x, dir + "InRelease")
                || (&& cfg.signer.Some? && dir + "Release" in x && dir + "InRelease" in x
                    && cfg.signer.value.clearSign(x[dir + "Release"]) == Some(x[dir + "InRelease"])))
            && (|| Same(b, x, dir + "Release.gpg")
                || (&& cfg.signer.Some? && dir + "Release" in x && dir + "Release.gpg" in x
                    && cfg.signer.value.detachSign(x[dir + "Release"]) == Some(x[dir + "Release.gpg"])))
  {
    hide ReleaseKey, Apply, ReleaseText;
    var steps := ReleasePlan(t, cfg, b, date).steps;
    ReleaseKeyText(cfg, "Release");
    ReleaseKeyText(cfg, "InRelease");
    ReleaseKeyText(cfg, "Release.gpg");
    ReleaseKeysDiffer(cfg);
    StepsAgree(b, steps[..k]);
    if |steps| >= 2 {
      WrittenAfter(b, steps, 0, 1, k);
    }
    if |steps| == 3 {
      WrittenAfter(b, steps, 0, 2, k);
    }
  }

  // ----- what a reader finds in it

  /** The indexes that there are, by their paths below the distribution. */
  ghost function IndexFiles(ids: set<IndexId>): set<string> {
    (set id | id in ids :: id.component + "/binary-" + id.arch + "/Packages") +
    (set id | id in ids :: id.component + "/binary-" + id.arch + "/Packages.gz")
  }

  /** A line for each of the files, with the digest and the size of what is stored under it. */
  ghost function StoredSums(cfg: Config, b: Bucket, files: seq<string>, digest: string -> string): (r: seq<string>)
    ensures |r| == |files|
    ensures forall i :: 0 <= i < |r| ==>
              var content := ContentOf(b, "dists/" + cfg.distribution + "/" + files[i]);
              r[i] == SumLine(digest(content), |content|, files[i])
  {
    seq(|files|, i requires 0 <= i < |files| =>
      var content := ContentOf(b, "dists/" + cfg.distribution + "/" + files[i]);
      SumLine(digest(content), |content|, files[i]))
  }

  /** Read as a control paragraph, the text says of the repository: its settings, exactly the architectures that have
      an index, these and the configured components, and for every index that is stored its digests and size. */
  ghost predicate Announces(t: Tools, cfg: Config, b: Bucket, repo: Repo, date: string, text: string) {
    var fields, files := FieldsOf(text), Sorted(IndexFiles(repo.Keys));
    && fields.Some?
    && (forall f | f in IndexFiles(repo.Keys) :: "dists/" + cfg.distribution + "/" + f in b)
    && SaysOf(fields.value, cfg, date, Sorted(set id | id in repo :: id.arch),
              Sorted(Elements(cfg.components) + set id | id in repo :: id.component))
    && HoldsLines(fields.value, "MD5Sum", StoredSums(cfg, b, files, t.md5))
    && HoldsLines(fields.value, "SHA1", StoredSums(cfg, b, files, t.sha1))
    && HoldsLines(fields.value, "SHA256", StoredSums(cfg, b, files, t.sha256))
  }

  ghost predicate OneLineIds(ids: set<IndexId>) {
    forall id | id in ids :: OneLine(id.component) && OneLine(id.arch)
  }

  lemma FileIs(cfg: Config, id: IndexId, f: string)
    requires Plain(cfg.distribution) && GoodId(id) && IsIndexName(f)
    ensures ListedPath(cfg, id, f) == id.component + "/binary-" + id.arch + "/" + f
    ensures DistDir(cfg) == "dists/" + cfg.distribution + "/"
  {
    hide DistDir, FileKey, Join;
    IndexKeyInDist(cfg, id, f);
    ThreeJoined(id.component, "binary-" + id.arch, f);
    IndexText(id.component, id.arch, f);
    DistDirText(cfg);
  }

  lemma IndexText(component: string, arch: string, f: string)
    ensures component + "/" + ("binary-" + arch) + "/" + f == component + "/binary-" + arch + "/" + f
  {
    Assoc(component + "/", "binary-", arch);
    assert component + "/" + "binary-" == component + "/binary-";
  }

  lemma FilesAre(cfg: Config, ids: set<IndexId>)
    requires Plain(cfg.distribution) && forall id | id in ids :: GoodId(id)
    ensures ListedPaths(cfg, ids) == IndexFiles(ids)
  {
    hide ListedPath, GoodId, DistDir;
    forall id | id in ids
      ensures ListedPath(cfg, id, "Packages") == id.component + "/binary-" + id.arch + "/Packages"
      ensures ListedPath(cfg, id, "Packages.gz") == id.component + "/binary-" + id.arch + "/Packages.gz"
    {
      FileIs(cfg, id, "Packages");
      FileIs(cfg, id, "Packages.gz");
    }
  }

  lemma FilesAreOneLine(t: Tools, cfg: Config, b: Bucket, files: seq<string>, ids: set<IndexId>)
    requires CleanDigests(t) && OneLineIds(ids) && Elements(files) == IndexFiles(ids)
    ensures OneLineEntries(Digests(t, cfg, b, files))
  {
    hide DistDir, ContentOf, OneLine, IndexFiles;
    var es := Digests(t, cfg, b, files);
    forall e | e in es ensures OneLine(e.md5) && OneLine(e.sha1) && OneLine(e.sha256) && OneLine(e.path) {
      var i :| 0 <= i < |es| && es[i] == e;
      assert files[i] in Elements(files);
      FileIsOneLine(files[i], ids);
    }
  }

  lemma FileIsOneLine(f: string, ids: set<IndexId>)
    requires f in IndexFiles(ids) && OneLineIds(ids)
    ensures OneLine(f)
  {
  }

  lemma SumsAreStored(t: Tools, cfg: Config, b: Bucket, files: seq<string>)
    requires Plain(cfg.distribution)
    ensures var es := Digests(t, cfg, b, files);
            && SumLines(es, (e: ReleaseEntry) => e.md5) == StoredSums(cfg, b, files, t.md5)
            && SumLines(es, (e: ReleaseEntry) => e.sha1) == StoredSums(cfg, b, files, t.sha1)
            && SumLines(es, (e: ReleaseEntry) => e.sha256) == StoredSums(cfg, b, files, t.sha256)
  {
    hide DistDir, ContentOf, SumLine;
    DistDirText(cfg);
  }

  lemma OneLineWords(cfg: Config, ids: set<IndexId>)
    requires OneLineEach(cfg.components) && OneLineIds(ids)
    ensures OneLineEach(Sorted(set id | id in ids :: id.arch))
    ensures OneLineEach(Sorted(Elements(cfg.components) + set id | id in ids :: id.component))
  {
    hide OneLine;
    var x := Sorted(set id | id in ids :: id.arch);
    var y := Sorted(Elements(cfg.components) + set id | id in ids :: id.component);
    forall i | 0 <= i < |x| ensures OneLine(x[i]) {
      assert x[i] in Elements(x);
    }
    forall i | 0 <= i < |y| ensures OneLine(y[i]) {
      assert y[i] in Elements(y);
    }
  }

  /** The Release file of what a bucket holds announces the repository that the bucket represents. */
  lemma ReleaseAnnounces(t: Tools, cfg: Config, b: Bucket, repo: Repo, date: string)
    requires Setting(t, cfg) && Represents(t, cfg, b, repo)
    requires OneLineSettings(cfg, date) && OneLineIds(repo.Keys)
    ensures Announces(t, cfg, b, repo, date, RenderRelease(cfg, date, ReleaseOf(t, cfg, b)))
  {
    hide Represents, DistDir, ArchesOf, ComponentsOf, ListedPaths, IndexPaths, RenderRelease, Digests, StoredSums,
      SumLines, OneLineEach, OneLineEntries, OneLineIds, SaysOf, HoldsLines, CleanDigests;
    IndexPathsAre(t, cfg, b, repo);
    forall id | id in repo ensures GoodId(id) {
      RepresentedIsValid(t, cfg, b, repo, id);
    }
    SplitsAre(cfg, repo.Keys);
    FilesAre(cfg, repo.Keys);
    DistDirText(cfg);
    forall f | f in IndexFiles(repo.Keys) ensures "dists/" + cfg.distribution + "/" + f in b {
      PathIsStored(cfg, b, f);
    }
    var files := Sorted(IndexFiles(repo.Keys));
    FilesAreOneLine(t, cfg, b, files, repo.Keys);
    OneLineWords(cfg, repo.Keys);
    SumsAreStored(t, cfg, b, files);
    ReleaseReadsBack(cfg, date, ReleaseOf(t, cfg, b));
  }

  /** The Release file that is published, where it is. */
  lemma PublishedAnnounces(t: Tools, cfg: Config, b: Bucket, repo: Repo, date: string)
    requires Setting(t, cfg) && Represents(t, cfg, b, repo) && Published(t, cfg, b, date)
    requires OneLineSettings(cfg, date) && OneLineIds(repo.Keys)
    ensures var key := "dists/" + cfg.distribution + "/Release"; key in b && Announces(t, cfg, b, repo, date, b[key])
  {
    hide Represents, ReleaseOf, RenderRelease, ReleaseKey, Announces;
    ReleaseAnnounces(t, cfg, b, repo, date);
    var key := "dists/" + cfg.distribution + "/Release";
    ReleaseKeyText(cfg, "Release");
    assert "dists/" + cfg.distribution + "/" + "Release" == key;
  }

  /** A successful Add leaves Release files that describe the bucket it leaves: read as a control paragraph, the Release
      file announces the repository with the package added, whatever stays on one line. */
  lemma AddPublishes(t: Tools, cfg: Config, b: Bucket, repo: Repo, id: IndexId, d: Deb, date: string)
    requires Setting(t, cfg) && Represents(t, cfg, b, repo)
    requires GoodId(id) && GoodDeb(t, d) && d.pkg.architecture == id.arch
    requires AddPlan(t, cfg, b, id.component, d.pkg, d.data, date).complete
    ensures Published(t, cfg, Apply(b, AddPlan(t, cfg, b, id.component, d.pkg, d.data, date).steps), date)
    ensures OneLineSettings(cfg, date) && OneLineIds(repo.Keys + {id}) ==>
              var after := Apply(b, AddPlan(t, cfg, b, id.component, d.pkg, d.data, date).steps);
              var key := "dists/" + cfg.distribution + "/Release";
              key in after && Announces(t, cfg, after, AddTo(cfg, repo, id, d), date, after[key])
  {
    hide Represents, GoodDeb, AfterIndex, ReleasePlan, Published, AddPlan, Announces, OneLineSettings;
    AddRepresents(t, cfg, b, repo, id, d, date);
    ReleaseStepsPublish(t, cfg, AfterIndex(t, cfg, b, repo, id, d), date);
    if OneLineSettings(cfg, date) && OneLineIds(repo.Keys + {id}) {
      var after := Apply(b, AddPlan(t, cfg, b, id.component, d.pkg, d.data, date).steps);
      PublishedAnnounces(t, cfg, after, AddTo(cfg, repo, id, d), date);
    }
  }

  /** So does a successful Remove that removes something. */
  lemma RemovePublishes(t: Tools, cfg: Config, b: Bucket, listing: set<string> -> seq<string>,
                        component: string, name: string, version: string, date: string)
    requires Plain(cfg.distribution)
    requires var all := RemovePlan(t, cfg, b, listing, component, name, version, date);
             all.plan.complete && all.count > 0
    ensures Published(t, cfg, Apply(b, RemovePlan(t, cfg, b, listing, component, name, version, date).plan.steps), date)
    ensures forall repo: Repo |
              && Represents(t, cfg, b, repo) && CleanDigests(t) && Enumerates(listing) && Plain(component)
              && OneLineSettings(cfg, date) && OneLineIds(repo.Keys) ::
              var after := Apply(b, RemovePlan(t, cfg, b, listing, component, name, version, date).plan.steps);
              var key := "dists/" + cfg.distribution + "/Release";
              key in after && Announces(t, cfg, after, RemoveIn(repo, component, name, version), date, after[key])
  {
    hide ReleasePlan, Published, RemoveAll, ComponentDir, Represents, Announces, CleanDigests, OneLineSettings,
      MatchCount;
    var all := RemoveAll(t, b, listing(Keys(b, ComponentDir(cfg, component))), name, version);
    var b1 := Apply(b, all.plan.steps);
    ApplyConcat(b, all.plan.steps, ReleasePlan(t, cfg, b1, date).steps);
    ReleaseStepsPublish(t, cfg, b1, date);
    hide RemovePlan;
    forall repo: Repo |
      && Represents(t, cfg, b, repo) && CleanDigests(t) && Enumerates(listing) && Plain(component)
      && OneLineSettings(cfg, date) && OneLineIds(repo.Keys)
      ensures var after := Apply(b, RemovePlan(t, cfg, b, listing, component, name, version, date).plan.steps);
              var key := "dists/" + cfg.distribution + "/Release";
              key in after && Announces(t, cfg, after, RemoveIn(repo, component, name, version), date, after[key])
    {
      RemoveRepresents(t, cfg, b, repo, listing, component, name, version, date);
      var after := Apply(b, RemovePlan(t, cfg, b, listing, component, name, version, date).plan.steps);
      PublishedAnnounces(t, cfg, after, RemoveIn(repo, component, name, version), date);
    }
  }
}
