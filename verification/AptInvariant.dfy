/**
 What is true of the bucket after every successful operation of the apt publisher: indexes and pool agree, and
 nothing else lies about.
 */
module AptInvariant {
  import opened Wrappers
  import opened Text
  import opened Paths
  import opened Storage
  import opened Control
  import opened Retention
  import opened RetentionLaws
  import opened Apt
  import opened AptKeys
  import opened AptState
  import AptPublisher
  import DebVersion

  /** The hypotheses on the libraries and on the configuration. */
  ghost predicate Setting(t: Tools, cfg: Config) {
    CleanDigests(t) && Plain(cfg.distribution)
  }

  ghost predicate IndexWritten(t: Tools, cfg: Config, b: Bucket, id: IndexId, l: seq<Deb>) {
    var content := BuildPackages(Entries(t, id.component, l));
    Has(b, FileKey(cfg, id, "Packages"), content) && Has(b, FileKey(cfg, id, "Packages.gz"), t.gzip(content))
  }

  ghost predicate IsKeyOf(cfg: Config, id: IndexId, k: string) {
    k == FileKey(cfg, id, "Packages") || k == FileKey(cfg, id, "Packages.gz")
  }

  /** Below the distribution lie the indexes and the Release files, and nothing else. */
  ghost predicate OnlyIndexes(cfg: Config, b: Bucket, ids: set<IndexId>) {
    forall k | k in b && HasPrefix(k, DistDir(cfg)) ::
      (exists id :: id in ids && IsKeyOf(cfg, id, k)) || (exists f :: IsReleaseName(f) && k == ReleaseKey(cfg, f))
  }

  ghost predicate PooledList(b: Bucket, component: string, l: seq<Deb>) {
    forall d | d in l :: Has(b, PoolPath(component, d.pkg), d.data)
  }

  ghost predicate InPool(repo: Repo, k: string) {
    exists id, d :: id in repo && d in repo[id] && k == PoolPath(id.component, d.pkg)
  }

  /** Every file in the pool belongs to an entry of an index. */
  ghost predicate NoOrphans(b: Bucket, repo: Repo) {
    forall k | k in b && HasPrefix(k, "pool/") :: InPool(repo, k)
  }

  ghost predicate GoodIndex(t: Tools, cfg: Config, b: Bucket, id: IndexId, l: seq<Deb>) {
    GoodId(id) && ValidIndex(t, cfg, id, l) && IndexWritten(t, cfg, b, id, l) && PooledList(b, id.component, l)
  }

  /** The bucket holds exactly this repository. */
  ghost predicate Represents(t: Tools, cfg: Config, b: Bucket, repo: Repo) {
    && (forall id | id in repo :: GoodIndex(t, cfg, b, id, repo[id]))
    && OnlyIndexes(cfg, b, repo.Keys)
    && NoOrphans(b, repo)
  }

  /** A list of packages for an index, before pruning: all of them uploaded. */
  ghost predicate StagedList(t: Tools, b: Bucket, id: IndexId, l: seq<Deb>) {
    && GoodId(id)
    && (forall d | d in l :: GoodDeb(t, d) && d.pkg.architecture == id.arch)
    && Distinct(l)
    && PooledList(b, id.component, l)
  }

  /** As Represents, but the index id is about to be rewritten. */
  ghost predicate Staged(t: Tools, cfg: Config, b: Bucket, repo: Repo, id: IndexId) {
    && id in repo && StagedList(t, b, id, repo[id])
    && (forall x | x in repo && x != id :: GoodIndex(t, cfg, b, x, repo[x]))
    && OnlyIndexes(cfg, b, repo.Keys)
    && NoOrphans(b, repo)
  }

  lemma ValidIsStaged(t: Tools, cfg: Config, b: Bucket, id: IndexId, l: seq<Deb>)
    requires GoodIndex(t, cfg, b, id, l)
    ensures StagedList(t, b, id, l)
  {
    hide GoodDeb, Distinct, PooledList, IndexWritten;
  }

  lemma RepresentsIsStaged(t: Tools, cfg: Config, b: Bucket, repo: Repo, id: IndexId)
    requires Represents(t, cfg, b, repo) && id in repo
    ensures Staged(t, cfg, b, repo, id)
  {
    hide GoodIndex, StagedList, OnlyIndexes, NoOrphans;
    ValidIsStaged(t, cfg, b, id, repo[id]);
  }

  // ----- uploading

  function Listed(repo: Repo, id: IndexId): seq<Deb> {
    if id in repo then repo[id] else []
  }

  function AllDebs(repo: Repo, id: IndexId, d: Deb): seq<Deb> {
    WithoutDebs(Listed(repo, id), d.pkg.name, d.pkg.version) + [d]
  }

  lemma PoolIsNotDist(k: string, m: string)
    requires HasPrefix(k, "pool/") && HasPrefix(m, "dists/")
    ensures k != m
  {
    assert k[0] == 'p' && m[0] == 'd';
  }

  /** The pool files of packages in different places are different. */
  lemma PoolKeysDiffer(t: Tools, x: IndexId, d: Deb, y: IndexId, e: Deb)
    requires GoodId(x) && GoodId(y) && GoodDeb(t, d) && GoodDeb(t, e)
    requires d.pkg.architecture == x.arch && e.pkg.architecture == y.arch
    ensures PoolPath(x.component, d.pkg) == PoolPath(y.component, e.pkg) <==> x == y && SameIdentity(d, e)
    ensures HasPrefix(PoolPath(x.component, d.pkg), "pool/")
  {
    hide PoolPath, ParseDeb;
    PoolPathInjective(x.component, d.pkg, y.component, e.pkg);
    PoolPathIs(x.component, d.pkg);
  }

  lemma AllDebsStaged(t: Tools, b: Bucket, id: IndexId, l: seq<Deb>, d: Deb)
    requires StagedList(t, b, id, l) && GoodDeb(t, d) && d.pkg.architecture == id.arch
    ensures var all := WithoutDebs(l, d.pkg.name, d.pkg.version) + [d];
            StagedList(t, b[PoolPath(id.component, d.pkg) := d.data], id, all)
  {
    hide GoodDeb, PoolPath;
    var rest := WithoutDebs(l, d.pkg.name, d.pkg.version);
    WithoutIs(l, d.pkg.name, d.pkg.version);
    WithoutDistinct(l, d.pkg.name, d.pkg.version);
    var all := rest + [d];
    forall i, j | 0 <= i < j < |all| ensures !SameIdentity(all[i], all[j]) {
      assert all[i] in rest;
    }
    forall e | e in all ensures Has(b[PoolPath(id.component, d.pkg) := d.data], PoolPath(id.component, e.pkg), e.data) {
      if e in rest {
        PoolKeysDiffer(t, id, e, id, d);
      }
    }
  }

  lemma GoodIndexAfterUpload(t: Tools, cfg: Config, b: Bucket, x: IndexId, l: seq<Deb>, id: IndexId, d: Deb)
    requires Setting(t, cfg) && GoodIndex(t, cfg, b, x, l)
    requires GoodId(id) && GoodDeb(t, d) && d.pkg.architecture == id.arch && x != id
    ensures GoodIndex(t, cfg, b[PoolPath(id.component, d.pkg) := d.data], x, l)
  {
    hide GoodDeb, PoolPath, FileKey, BuildPackages;
    PoolKeysDiffer(t, id, d, id, d);
    IndexKeyInDist(cfg, x, "Packages");
    IndexKeyInDist(cfg, x, "Packages.gz");
    PoolIsNotDist(PoolPath(id.component, d.pkg), FileKey(cfg, x, "Packages"));
    PoolIsNotDist(PoolPath(id.component, d.pkg), FileKey(cfg, x, "Packages.gz"));
    forall e | e in l ensures Has(b[PoolPath(id.component, d.pkg) := d.data], PoolPath(x.component, e.pkg), e.data) {
      PoolKeysDiffer(t, x, e, id, d);
    }
  }

  lemma StagedListNone(t: Tools, b: Bucket, id: IndexId)
    requires GoodId(id)
    ensures StagedList(t, b, id, [])
  {
  }

  lemma InPoolAfterUpload(t: Tools, b: Bucket, repo: Repo, id: IndexId, d: Deb, k: string)
    requires StagedList(t, b, id, Listed(repo, id)) && GoodDeb(t, d) && d.pkg.architecture == id.arch
    requires k == PoolPath(id.component, d.pkg) || InPool(repo, k)
    ensures InPool(repo[id := AllDebs(repo, id, d)], k)
  {
    hide PoolPath, GoodDeb;
    var after := repo[id := AllDebs(repo, id, d)];
    assert d in after[id];
    if k != PoolPath(id.component, d.pkg) {
      var x, e :| x in repo && e in repo[x] && k == PoolPath(x.component, e.pkg);
      if x == id {
        WithoutIs(repo[id], d.pkg.name, d.pkg.version);
        PoolKeysDiffer(t, id, e, id, d);
      }
      assert e in after[x];
    }
  }

  /** After the upload every package of the index to be rewritten is in the pool. */
  lemma UploadStages(t: Tools, cfg: Config, b: Bucket, repo: Repo, id: IndexId, d: Deb)
    requires Setting(t, cfg) && Represents(t, cfg, b, repo)
    requires GoodId(id) && GoodDeb(t, d) && d.pkg.architecture == id.arch
    ensures Staged(t, cfg, b[PoolPath(id.component, d.pkg) := d.data], repo[id := AllDebs(repo, id, d)], id)
  {
    hide GoodDeb, PoolPath, StagedList, GoodIndex, IsKeyOf, InPool;
    var file := PoolPath(id.component, d.pkg);
    var b1, after := b[file := d.data], repo[id := AllDebs(repo, id, d)];
    PoolKeysDiffer(t, id, d, id, d);
    if id in repo {
      ValidIsStaged(t, cfg, b, id, repo[id]);
    } else {
      StagedListNone(t, b, id);
    }
    AllDebsStaged(t, b, id, Listed(repo, id), d);
    forall x | x in after && x != id ensures GoodIndex(t, cfg, b1, x, after[x]) {
      GoodIndexAfterUpload(t, cfg, b, x, repo[x], id, d);
    }
    forall k | k in b1 && HasPrefix(k, "pool/") ensures InPool(after, k) {
      InPoolAfterUpload(t, b, repo, id, d, k);
    }
    NotInDist(cfg, file);
    OnlyIndexesAfterPut(cfg, b, repo.Keys, after.Keys, file, d.data);
  }

  lemma NotInDist(cfg: Config, k: string)
    requires Plain(cfg.distribution) && HasPrefix(k, "pool/")
    ensures !HasPrefix(k, DistDir(cfg))
  {
    hide DistDir;
    DistDirIs(cfg);
    assert k[0] == 'p';
    assert DistDir(cfg)[0] == 'd';
  }

  lemma OnlyIndexesAfterPut(cfg: Config, b: Bucket, ids: set<IndexId>, more: set<IndexId>, k: string, body: string)
    requires OnlyIndexes(cfg, b, ids) && ids <= more && !HasPrefix(k, DistDir(cfg))
    ensures OnlyIndexes(cfg, b[k := body], more)
  {
    hide IsKeyOf, DistDir;
  }

  // ----- rewriting an index

  ghost function PoolFiles(component: string, l: seq<Deb>): set<string> {
    set d | d in l :: PoolPath(component, d.pkg)
  }

  /** What rewriting an index leaves: the files of removed gone, the index and its compressed copy replaced. */
  ghost function Rewritten(t: Tools, cfg: Config, b: Bucket, id: IndexId, kept: seq<Deb>, removed: seq<Deb>): Bucket {
    var content := BuildPackages(Entries(t, id.component, kept));
    (b - PoolFiles(id.component, removed))
    [FileKey(cfg, id, "Packages") := content]
    [FileKey(cfg, id, "Packages.gz") := t.gzip(content)]
  }

  lemma PoolFilesAre(component: string, l: seq<Deb>)
    ensures Elements(Map(PoolOf(component), l)) == PoolFiles(component, l)
  {
    hide PoolPath;
    var m := Map(PoolOf(component), l);
    forall k | k in PoolFiles(component, l) ensures k in m {
      var d :| d in l && k == PoolPath(component, d.pkg);
      var i :| 0 <= i < |l| && l[i] == d;
      assert m[i] == k;
    }
    forall k | k in m ensures k in PoolFiles(component, l) {
      var i :| 0 <= i < |m| && m[i] == k;
      assert l[i] in l;
    }
  }

  /** The planned steps have that effect. */
  lemma RewriteIsRewritten(t: Tools, cfg: Config, b: Bucket, id: IndexId, kept: seq<Deb>, removed: seq<Deb>)
    requires Setting(t, cfg) && GoodId(id)
    requires forall i :: 0 <= i < |removed| ==> Publishable(removed[i].pkg)
    ensures Apply(b, RewriteIndex(t, IndexKey(cfg, id), Entries(t, id.component, kept),
                                  Entries(t, id.component, removed)))
            == Rewritten(t, cfg, b, id, kept, removed)
  {
    hide Publishable, BuildPackages, Filenames, PackagesKey, Join, PoolFiles;
    var key := IndexKey(cfg, id);
    var content := BuildPackages(Entries(t, id.component, kept));
    var files := Map(PoolOf(id.component), removed);
    FilenamesAre(t, id.component, removed);
    IndexKeyIs(cfg, id);
    PoolFilesAre(id.component, removed);
    ApplyDeletes(b, files);
    TwoPuts(b, Deletes(files), key, content, key + ".gz", t.gzip(content));
  }

  lemma TwoPuts(b: Bucket, steps: seq<Step>, k: string, x: string, m: string, y: string)
    ensures Apply(b, steps + [Put(k, x), Put(m, y)]) == Apply(b, steps)[k := x][m := y]
  {
    var puts := [Put(k, x), Put(m, y)];
    ApplyConcat(b, steps, puts);
    assert puts[..1] == [Put(k, x)];
    ApplyOne(Apply(b, steps), Put(k, x));
  }

  /** kept and removed divide a list between them. */
  ghost predicate Divides(all: seq<Deb>, kept: seq<Deb>, removed: seq<Deb>) {
    && (forall d | d in all :: d in kept || d in removed)
    && (forall d | d in kept :: d in all)
    && (forall d | d in removed :: d in all && d !in kept)
  }

  lemma OutsidePoolFiles(t: Tools, x: IndexId, d: Deb, id: IndexId, removed: seq<Deb>)
    requires GoodId(x) && GoodId(id) && GoodDeb(t, d) && d.pkg.architecture == x.arch
    requires forall e | e in removed :: GoodDeb(t, e) && e.pkg.architecture == id.arch
    requires x != id || forall e | e in removed :: !SameIdentity(d, e)
    ensures PoolPath(x.component, d.pkg) !in PoolFiles(id.component, removed)
    ensures HasPrefix(PoolPath(x.component, d.pkg), "pool/")
  {
    hide GoodDeb, PoolPath, SameIdentity;
    PoolKeysDiffer(t, x, d, x, d);
    forall e | e in removed ensures PoolPath(x.component, d.pkg) != PoolPath(id.component, e.pkg) {
      PoolKeysDiffer(t, x, d, id, e);
    }
  }

  /** A pool file outside those removed is left as it was. */
  lemma RewrittenPool(t: Tools, cfg: Config, b: Bucket, id: IndexId, kept: seq<Deb>, removed: seq<Deb>, k: string)
    requires Setting(t, cfg) && GoodId(id) && HasPrefix(k, "pool/")
    ensures var r := Rewritten(t, cfg, b, id, kept, removed);
            (k in r <==> k in b && k !in PoolFiles(id.component, removed)) && (k in r ==> r[k] == b[k])
  {
    hide BuildPackages, PoolFiles, FileKey;
    IndexKeyInDist(cfg, id, "Packages");
    IndexKeyInDist(cfg, id, "Packages.gz");
    PoolIsNotDist(k, FileKey(cfg, id, "Packages"));
    PoolIsNotDist(k, FileKey(cfg, id, "Packages.gz"));
  }

  lemma PoolFilesInPool(t: Tools, id: IndexId, l: seq<Deb>)
    requires GoodId(id) && forall e | e in l :: GoodDeb(t, e) && e.pkg.architecture == id.arch
    ensures forall k | k in PoolFiles(id.component, l) :: HasPrefix(k, "pool/")
  {
    hide GoodDeb, PoolPath;
    forall e | e in l ensures HasPrefix(PoolPath(id.component, e.pkg), "pool/") {
      PoolKeysDiffer(t, id, e, id, e);
    }
  }

  /** A key below dists/ other than the index's own two is left as it was. */
  lemma RewrittenElsewhere(t: Tools, cfg: Config, b: Bucket, id: IndexId, kept: seq<Deb>, removed: seq<Deb>, k: string)
    requires Setting(t, cfg) && GoodId(id) && !IsKeyOf(cfg, id, k) && !HasPrefix(k, "pool/")
    requires forall e | e in removed :: GoodDeb(t, e) && e.pkg.architecture == id.arch
    ensures var r := Rewritten(t, cfg, b, id, kept, removed);
            (k in r <==> k in b) && (k in r ==> r[k] == b[k])
  {
    hide BuildPackages, FileKey, PoolFiles, GoodDeb;
    PoolFilesInPool(t, id, removed);
  }

  lemma RewrittenIndex(t: Tools, cfg: Config, b: Bucket, id: IndexId, kept: seq<Deb>, removed: seq<Deb>)
    requires Setting(t, cfg) && GoodId(id)
    ensures IndexWritten(t, cfg, Rewritten(t, cfg, b, id, kept, removed), id, kept)
  {
    hide BuildPackages, PoolFiles, FileKey;
    if FileKey(cfg, id, "Packages") == FileKey(cfg, id, "Packages.gz") {
      IndexKeyInjective(cfg, id, "Packages", id, "Packages.gz");
    }
  }

  lemma PooledAfterRewrite(t: Tools, cfg: Config, b: Bucket, x: IndexId, l: seq<Deb>, id: IndexId, kept: seq<Deb>,
                           removed: seq<Deb>)
    requires Setting(t, cfg) && GoodId(id) && StagedList(t, b, x, l)
    requires forall e | e in removed :: GoodDeb(t, e) && e.pkg.architecture == id.arch
    requires x != id || forall d, e | d in l && e in removed :: !SameIdentity(d, e)
    ensures PooledList(Rewritten(t, cfg, b, id, kept, removed), x.component, l)
  {
    hide GoodDeb, PoolPath, SameIdentity, Rewritten, PoolFiles;
    forall d | d in l ensures Has(Rewritten(t, cfg, b, id, kept, removed), PoolPath(x.component, d.pkg), d.data) {
      OutsidePoolFiles(t, x, d, id, removed);
      RewrittenPool(t, cfg, b, id, kept, removed, PoolPath(x.component, d.pkg));
    }
  }

  lemma GoodIndexAfterRewrite(t: Tools, cfg: Config, b: Bucket, x: IndexId, l: seq<Deb>, id: IndexId, kept: seq<Deb>,
                              removed: seq<Deb>)
    requires Setting(t, cfg) && GoodIndex(t, cfg, b, x, l) && x != id && GoodId(id)
    requires forall e | e in removed :: GoodDeb(t, e) && e.pkg.architecture == id.arch
    ensures GoodIndex(t, cfg, Rewritten(t, cfg, b, id, kept, removed), x, l)
  {
    hide GoodDeb, PoolPath, Rewritten, FileKey, BuildPackages, Distinct;
    ValidIsStaged(t, cfg, b, x, l);
    PooledAfterRewrite(t, cfg, b, x, l, id, kept, removed);
    OwnKeys(cfg, x, "Packages", id);
    OwnKeys(cfg, x, "Packages.gz", id);
    RewrittenElsewhere(t, cfg, b, id, kept, removed, FileKey(cfg, x, "Packages"));
    RewrittenElsewhere(t, cfg, b, id, kept, removed, FileKey(cfg, x, "Packages.gz"));
  }

  lemma OwnKeys(cfg: Config, x: IndexId, f: string, id: IndexId)
    requires Plain(cfg.distribution) && GoodId(x) && GoodId(id) && IsIndexName(f) && x != id
    ensures !IsKeyOf(cfg, id, FileKey(cfg, x, f)) && !HasPrefix(FileKey(cfg, x, f), "pool/")
  {
    hide FileKey;
    IndexKeyInDist(cfg, x, f);
    if FileKey(cfg, x, f) == FileKey(cfg, id, "Packages") {
      IndexKeyInjective(cfg, x, f, id, "Packages");
    }
    if FileKey(cfg, x, f) == FileKey(cfg, id, "Packages.gz") {
      IndexKeyInjective(cfg, x, f, id, "Packages.gz");
    }
    if HasPrefix(FileKey(cfg, x, f), "pool/") {
      PoolIsNotDist(FileKey(cfg, x, f), FileKey(cfg, x, f));
    }
  }

  lemma KeptGood(t: Tools, cfg: Config, b: Bucket, id: IndexId, all: seq<Deb>, kept: seq<Deb>, removed: seq<Deb>)
    requires Setting(t, cfg) && StagedList(t, b, id, all) && Divides(all, kept, removed)
    requires ValidIndex(t, cfg, id, kept)
    ensures GoodIndex(t, cfg, Rewritten(t, cfg, b, id, kept, removed), id, kept)
  {
    hide GoodDeb, PoolPath, Rewritten, IndexWritten, Capped;
    RewrittenIndex(t, cfg, b, id, kept, removed);
    assert StagedList(t, b, id, kept);
    forall d, e | d in kept && e in removed ensures !SameIdentity(d, e) {
      DistinctMembers(all, d, e);
    }
    PooledAfterRewrite(t, cfg, b, id, kept, id, kept, removed);
  }

  lemma DistinctMembers(l: seq<Deb>, d: Deb, e: Deb)
    requires Distinct(l) && d in l && e in l && d != e
    ensures !SameIdentity(d, e)
  {
    hide SameIdentity;
    var i :| 0 <= i < |l| && l[i] == d;
    var j :| 0 <= j < |l| && l[j] == e;
    SameIdentitySymmetric(d, e);
  }

  lemma SameIdentitySymmetric(d: Deb, e: Deb)
    ensures SameIdentity(d, e) <==> SameIdentity(e, d)
  {
  }

  lemma NoOrphansAfterRewrite(t: Tools, cfg: Config, b: Bucket, repo: Repo, id: IndexId, kept: seq<Deb>,
                              removed: seq<Deb>, k: string)
    requires Setting(t, cfg) && GoodId(id) && id in repo && Divides(repo[id], kept, removed)
    requires NoOrphans(b, repo) && HasPrefix(k, "pool/")
    requires k in Rewritten(t, cfg, b, id, kept, removed)
    ensures InPool(repo[id := kept], k)
  {
    hide Rewritten, PoolPath;
    RewrittenPool(t, cfg, b, id, kept, removed, k);
    assert InPool(repo, k);
    var x, d :| x in repo && d in repo[x] && k == PoolPath(x.component, d.pkg);
    var after := repo[id := kept];
    if x == id {
      assert d !in removed;
    }
    assert x in after && d in after[x];
  }

  lemma OnlyIndexesAfterRewrite(t: Tools, cfg: Config, b: Bucket, ids: set<IndexId>, id: IndexId, kept: seq<Deb>,
                                removed: seq<Deb>)
    requires Setting(t, cfg) && GoodId(id) && id in ids && OnlyIndexes(cfg, b, ids)
    requires forall e | e in removed :: GoodDeb(t, e) && e.pkg.architecture == id.arch
    ensures OnlyIndexes(cfg, Rewritten(t, cfg, b, id, kept, removed), ids)
  {
    hide Rewritten, IsKeyOf, DistDir, GoodDeb;
    var r := Rewritten(t, cfg, b, id, kept, removed);
    DistDirIs(cfg);
    forall k | k in r && HasPrefix(k, DistDir(cfg))
      ensures (exists x :: x in ids && IsKeyOf(cfg, x, k)) || (exists f :: IsReleaseName(f) && k == ReleaseKey(cfg, f))
    {
      if !IsKeyOf(cfg, id, k) {
        assert HasPrefix(k, "dists/");
        if HasPrefix(k, "pool/") {
          PoolIsNotDist(k, k);
        }
        RewrittenElsewhere(t, cfg, b, id, kept, removed, k);
      }
    }
  }

  /** Rewriting an index, in a bucket where its packages are all uploaded, restores the agreement. */
  lemma RewriteRepresents(t: Tools, cfg: Config, b: Bucket, repo: Repo, id: IndexId, kept: seq<Deb>, removed: seq<Deb>)
    requires Setting(t, cfg) && Staged(t, cfg, b, repo, id)
    requires Divides(repo[id], kept, removed) && ValidIndex(t, cfg, id, kept)
    ensures Represents(t, cfg, Rewritten(t, cfg, b, id, kept, removed), repo[id := kept])
  {
    hide Rewritten, ValidIndex, GoodIndex, OnlyIndexes, NoOrphans, InPool, GoodDeb, Distinct, PooledList;
    var r, after := Rewritten(t, cfg, b, id, kept, removed), repo[id := kept];
    KeptGood(t, cfg, b, id, repo[id], kept, removed);
    forall x | x in after && x != id ensures GoodIndex(t, cfg, r, x, after[x]) {
      GoodIndexAfterRewrite(t, cfg, b, x, repo[x], id, kept, removed);
    }
    OnlyIndexesAfterRewrite(t, cfg, b, repo.Keys, id, kept, removed);
    assert after.Keys == repo.Keys;
    NoOrphansHolds(t, cfg, b, repo, id, kept, removed);
  }

  lemma NoOrphansHolds(t: Tools, cfg: Config, b: Bucket, repo: Repo, id: IndexId, kept: seq<Deb>, removed: seq<Deb>)
    requires Setting(t, cfg) && GoodId(id) && id in repo && Divides(repo[id], kept, removed) && NoOrphans(b, repo)
    ensures NoOrphans(Rewritten(t, cfg, b, id, kept, removed), repo[id := kept])
  {
    hide Rewritten, InPool, Divides;
    var r, after := Rewritten(t, cfg, b, id, kept, removed), repo[id := kept];
    forall k | k in r && HasPrefix(k, "pool/") ensures InPool(after, k) {
      NoOrphansAfterRewrite(t, cfg, b, repo, id, kept, removed, k);
    }
  }

  // ----- Release files

  /** Writing Release files disturbs nothing. */
  lemma ReleaseRepresents(t: Tools, cfg: Config, b: Bucket, repo: Repo, f: string, body: string)
    requires Setting(t, cfg) && Represents(t, cfg, b, repo) && IsReleaseName(f)
    ensures Represents(t, cfg, b[ReleaseKey(cfg, f) := body], repo)
  {
    hide GoodIndex, InPool, IsKeyOf, ReleaseKey, DistDir;
    var k := ReleaseKey(cfg, f);
    var b1 := b[k := body];
    ReleaseKeyIs(cfg, f);
    DistDirIs(cfg);
    assert HasPrefix(k, "dists/");
    forall id | id in repo ensures GoodIndex(t, cfg, b1, id, repo[id]) {
      GoodIndexAfterRelease(t, cfg, b, id, repo[id], f, body);
    }
    forall m | m in b1 && HasPrefix(m, "pool/") ensures InPool(repo, m) {
      PoolIsNotDist(m, k);
    }
  }

  lemma GoodIndexAfterRelease(t: Tools, cfg: Config, b: Bucket, id: IndexId, l: seq<Deb>, f: string, body: string)
    requires Setting(t, cfg) && GoodIndex(t, cfg, b, id, l) && IsReleaseName(f)
    ensures GoodIndex(t, cfg, b[ReleaseKey(cfg, f) := body], id, l)
  {
    hide GoodDeb, PoolPath, FileKey, BuildPackages, ReleaseKey, DistDir;
    var k := ReleaseKey(cfg, f);
    ReleaseKeyIs(cfg, f);
    DistDirIs(cfg);
    ReleaseIsNoIndex(cfg, f, id, "Packages");
    ReleaseIsNoIndex(cfg, f, id, "Packages.gz");
    forall d | d in l ensures Has(b[k := body], PoolPath(id.component, d.pkg), d.data) {
      PoolKeysDiffer(t, id, d, id, d);
      PoolIsNotDist(PoolPath(id.component, d.pkg), k);
    }
  }
}
