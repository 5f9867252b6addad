/**
 The object keys of an apt repository: what they look like, and that different packages and different indexes
 never share one.
 */
module AptKeys {
  import opened Wrappers
  import opened Text
  import opened Paths
  import opened Control
  import opened ControlRoundTrip
  import opened Apt

  /** The characters that Debian allows in names, versions and architectures leave these out. */
  predicate SafeWord(s: string) {
    s != "" && '/' !in s && '_' !in s && '\n' !in s
  }

  predicate GoodName(s: string) {
    SafeWord(s) && s[0] != '.'
  }

  /** An index: one component and architecture of the distribution. */
  datatype IndexId = IndexId(component: string, arch: string)

  predicate GoodId(id: IndexId) {
    Plain(id.component) && '\n' !in id.component && SafeWord(id.arch)
  }

  predicate GoodPackage(p: Package) {
    GoodName(p.name) && SafeWord(p.version) && SafeWord(p.architecture)
  }

  // ----- the pool

  function PoolParts(component: string, p: Package): seq<string>
    requires p.name != ""
  {
    ["pool", component, PoolPrefix(p.name), p.name, PoolFile(p.name, p.version, p.architecture)]
  }

  lemma PoolPartsPlain(component: string, p: Package)
    requires Plain(component) && GoodPackage(p)
    ensures AllPlain(PoolParts(component, p))
  {
    var file := PoolFile(p.name, p.version, p.architecture);
    assert file[0] == p.name[0];
    assert '/' !in file;
  }

  lemma PoolPathIs(component: string, p: Package)
    requires Plain(component) && GoodPackage(p)
    ensures PoolPath(component, p) == Join(PoolParts(component, p), '/')
    ensures HasPrefix(PoolPath(component, p), "pool/")
  {
    hide Join, PoolPrefix, PoolFile;
    PoolPartsPlain(component, p);
    JoinPlain(PoolParts(component, p));
    var rest := PoolParts(component, p)[1..];
    JoinConcat(["pool"], rest);
    assert ["pool"] + rest == PoolParts(component, p);
    JoinOne("pool");
  }

  /** Where a package is put: below its component and the first letter of its name, or its first four if these begin
      with lib. */
  lemma PoolPathText(component: string, p: Package)
    requires Plain(component) && GoodPackage(p)
    ensures PoolPath(component, p) ==
            "pool/" + component + "/" + p.name[..if |p.name| >= 4 && p.name[..3] == "lib" then 4 else 1] + "/" + p.name
            + "/" + (p.name + "_" + p.version + "_" + p.architecture + ".deb")
  {
    hide Join, PoolPath;
    PoolPathIs(component, p);
    FiveJoined("pool", component, PoolPrefix(p.name), p.name, PoolFile(p.name, p.version, p.architecture));
  }

  lemma PoolFileInjective(n1: string, v1: string, a1: string, n2: string, v2: string, a2: string)
    requires SafeWord(n1) && SafeWord(v1) && SafeWord(a1) && SafeWord(n2) && SafeWord(v2) && SafeWord(a2)
    requires PoolFile(n1, v1, a1) == PoolFile(n2, v2, a2)
    ensures n1 == n2 && v1 == v2 && a1 == a2
  {
    var x, y := v1 + ['_'] + (a1 + ".deb"), v2 + ['_'] + (a2 + ".deb");
    assert PoolFile(n1, v1, a1) == n1 + ['_'] + x;
    assert PoolFile(n2, v2, a2) == n2 + ['_'] + y;
    CutInjective(n1, x, n2, y, '_');
    CutInjective(v1, a1 + ".deb", v2, a2 + ".deb", '_');
    assert a1 == (a1 + ".deb")[..|a1|] && a2 == (a2 + ".deb")[..|a2|];
  }

  /** No two packages share a pool file. */
  lemma PoolPathInjective(c1: string, p1: Package, c2: string, p2: Package)
    requires Plain(c1) && GoodPackage(p1) && Plain(c2) && GoodPackage(p2)
    ensures PoolPath(c1, p1) == PoolPath(c2, p2) <==>
              c1 == c2 && p1.name == p2.name && p1.version == p2.version && p1.architecture == p2.architecture
  {
    if PoolPath(c1, p1) == PoolPath(c2, p2) {
      hide PoolPath, Join, PoolFile;
      PoolPathIs(c1, p1);
      PoolPathIs(c2, p2);
      PoolPartsPlain(c1, p1);
      PoolPartsPlain(c2, p2);
      var x, y := PoolParts(c1, p1), PoolParts(c2, p2);
      JoinInjective(x, y);
      assert x[1] == y[1] && x[4] == y[4];
      PoolFileInjective(p1.name, p1.version, p1.architecture, p2.name, p2.version, p2.architecture);
    }
  }

  // ----- the indexes

  function IndexParts(d: string, id: IndexId, file: string): seq<string> {
    ["dists", d, id.component, "binary-" + id.arch, file]
  }

  function IndexKey(cfg: Config, id: IndexId): string {
    PackagesKey(cfg.distribution, id.component, id.arch)
  }

  predicate IsIndexName(file: string) {
    file == "Packages" || file == "Packages.gz"
  }

  lemma IndexPartsPlain(d: string, id: IndexId, file: string)
    requires Plain(d) && GoodId(id) && IsIndexName(file)
    ensures AllPlain(IndexParts(d, id, file))
  {
    var b := "binary-" + id.arch;
    assert b[0] == 'b';
    assert '/' !in b;
    assert Plain(b) && Plain("dists") && Plain(file);
  }

  /** The keys of an index and of its compressed copy. */
  lemma IndexKeyIs(cfg: Config, id: IndexId)
    requires Plain(cfg.distribution) && GoodId(id)
    ensures IndexKey(cfg, id) == Join(IndexParts(cfg.distribution, id, "Packages"), '/')
    ensures IndexKey(cfg, id) + ".gz" == Join(IndexParts(cfg.distribution, id, "Packages.gz"), '/')
  {
    hide Join;
    var d := cfg.distribution;
    IndexPartsPlain(d, id, "Packages");
    JoinPlain(IndexParts(d, id, "Packages"));
    var front := ["dists", d, id.component, "binary-" + id.arch];
    JoinConcat(front, ["Packages"]);
    JoinConcat(front, ["Packages.gz"]);
    JoinOne("Packages");
    JoinOne("Packages.gz");
    assert front + ["Packages"] == IndexParts(d, id, "Packages");
    assert front + ["Packages.gz"] == IndexParts(d, id, "Packages.gz");
    assert "Packages" + ".gz" == "Packages.gz";
  }

  /** Where an index is. */
  lemma IndexKeyText(cfg: Config, id: IndexId)
    requires Plain(cfg.distribution) && GoodId(id)
    ensures IndexKey(cfg, id) ==
            "dists/" + cfg.distribution + "/" + id.component + "/" + ("binary-" + id.arch) + "/Packages"
  {
    hide Join, IndexKey;
    IndexKeyIs(cfg, id);
    FiveJoined("dists", cfg.distribution, id.component, "binary-" + id.arch, "Packages");
  }

  function FileKey(cfg: Config, id: IndexId, file: string): string {
    Join(IndexParts(cfg.distribution, id, file), '/')
  }

  /** Different indexes, and an index and a compressed one, have different keys. */
  lemma IndexKeyInjective(cfg: Config, x: IndexId, f: string, y: IndexId, g: string)
    requires Plain(cfg.distribution) && GoodId(x) && GoodId(y) && IsIndexName(f) && IsIndexName(g)
    requires FileKey(cfg, x, f) == FileKey(cfg, y, g)
    ensures x == y && f == g
  {
    hide Join;
    var d := cfg.distribution;
    var p, q := IndexParts(d, x, f), IndexParts(d, y, g);
    IndexPartsPlain(d, x, f);
    IndexPartsPlain(d, y, g);
    JoinInjective(p, q);
    assert p[2] == q[2] && p[3] == q[3] && p[4] == q[4];
    assert p[3][7..] == x.arch && q[3][7..] == y.arch;
  }

  predicate IsReleaseName(file: string) {
    file == "Release" || file == "InRelease" || file == "Release.gpg"
  }

  lemma ReleaseKeyIs(cfg: Config, file: string)
    requires Plain(cfg.distribution) && IsReleaseName(file)
    ensures AllPlain(["dists", cfg.distribution, file])
    ensures ReleaseKey(cfg, file) == Join(["dists", cfg.distribution, file], '/')
    ensures HasPrefix(ReleaseKey(cfg, file), DistDir(cfg))
    ensures Base(ReleaseKey(cfg, file)) == file
  {
    hide Join;
    var d := cfg.distribution;
    assert Plain("dists") && Plain(file);
    JoinPlain(["dists", d, file]);
    DistDirIs(cfg);
    JoinConcat(["dists", d], [file]);
    JoinOne(file);
    assert ["dists", d] + [file] == ["dists", d, file];
    BaseOf(Join(["dists", d], '/'), file);
  }

  lemma DistDirIs(cfg: Config)
    requires Plain(cfg.distribution)
    ensures DistDir(cfg) == Join(["dists", cfg.distribution], '/') + "/"
    ensures HasPrefix(DistDir(cfg), "dists/")
  {
    hide Join;
    var d := cfg.distribution;
    assert Plain("dists");
    JoinPlain(["dists", d]);
    JoinConcat(["dists"], [d]);
    JoinOne("dists");
    assert ["dists"] + [d] == ["dists", d];
  }

  lemma DistDirText(cfg: Config)
    requires Plain(cfg.distribution)
    ensures DistDir(cfg) == "dists/" + cfg.distribution + "/"
  {
    hide DistDir;
    DistDirIs(cfg);
    var parts := ["dists", cfg.distribution];
    assert parts[1..] == [cfg.distribution];
  }

  /** Where the Release files are. */
  lemma ReleaseKeyText(cfg: Config, file: string)
    requires Plain(cfg.distribution) && IsReleaseName(file)
    ensures ReleaseKey(cfg, file) == "dists/" + cfg.distribution + "/" + file
  {
    hide ReleaseKey, DistDir, Base, Join;
    ReleaseKeyIs(cfg, file);
    ThreeJoined("dists", cfg.distribution, file);
  }

  lemma ReleaseIsNoIndex(cfg: Config, file: string, id: IndexId, f: string)
    requires Plain(cfg.distribution) && GoodId(id) && IsReleaseName(file) && IsIndexName(f)
    ensures ReleaseKey(cfg, file) != FileKey(cfg, id, f)
  {
    hide Join, ReleaseKey;
    ReleaseKeyIs(cfg, file);
    IndexPartsPlain(cfg.distribution, id, f);
    if ReleaseKey(cfg, file) == FileKey(cfg, id, f) {
      JoinInjective(["dists", cfg.distribution, file], IndexParts(cfg.distribution, id, f));
    }
  }

  /** An index key lies under the distribution; what follows is its path in the Release file. */
  lemma IndexKeyInDist(cfg: Config, id: IndexId, f: string)
    requires Plain(cfg.distribution) && GoodId(id) && IsIndexName(f)
    ensures FileKey(cfg, id, f) == DistDir(cfg) + Join([id.component, "binary-" + id.arch, f], '/')
    ensures HasPrefix(FileKey(cfg, id, f), DistDir(cfg)) && HasPrefix(FileKey(cfg, id, f), "dists/")
    ensures TrimPrefix(FileKey(cfg, id, f), DistDir(cfg)) == Join([id.component, "binary-" + id.arch, f], '/')
    ensures Base(FileKey(cfg, id, f)) == f
  {
    hide Join, DistDir, Base;
    var d := cfg.distribution;
    DistDirIs(cfg);
    var x, y := ["dists", d], [id.component, "binary-" + id.arch, f];
    JoinConcat(x, y);
    assert x + y == IndexParts(d, id, f);
    var dir := Join(x, '/');
    assert dir + "/" + Join(y, '/') == (dir + "/") + Join(y, '/');
    var front := ["dists", d, id.component, "binary-" + id.arch];
    JoinConcat(front, [f]);
    JoinOne(f);
    assert front + [f] == IndexParts(d, id, f);
    BaseOf(Join(front, '/'), f);
  }

  /** splitBinaryPath inverts packagesKey. */
  lemma SplitBinaryPathInverts(cfg: Config, id: IndexId, f: string)
    requires Plain(cfg.distribution) && GoodId(id) && IsIndexName(f)
    ensures SplitBinaryPath(TrimPrefix(FileKey(cfg, id, f), DistDir(cfg))) == Some((id.component, id.arch))
  {
    hide Join, Split, DistDir;
    IndexKeyInDist(cfg, id, f);
    IndexPartsPlain(cfg.distribution, id, f);
    var parts := [id.component, "binary-" + id.arch, f];
    assert parts == IndexParts(cfg.distribution, id, f)[2..];
    SplitJoin(parts, '/');
    assert parts[..1] == [id.component];
    JoinOne(id.component);
    assert ("binary-" + id.arch)[7..] == id.arch;
  }

  /** What a path has to look like for a component and an architecture to be read from it, whatever the component. */
  lemma SplitBinaryPathExact(rel: string, component: string, arch: string)
    ensures SplitBinaryPath(rel) == Some((component, arch)) <==>
            '/' !in arch && exists f :: '/' !in f && rel == component + "/" + ("binary-" + arch) + "/" + f
  {
    hide Join, Split;
    var parts := Split(rel, '/');
    SplitPieces(rel, '/');
    JoinSplit(rel, '/');
    if SplitBinaryPath(rel) == Some((component, arch)) {
      var n := |parts| - 2;
      var f := parts[n + 1];
      TwoAtEnd(parts[..n], parts[n], f);
      assert parts == parts[..n] + [parts[n], f];
      assert parts[n] == "binary-" + arch;
      assert arch == parts[n][7..];
      assert '/' !in parts[n] && '/' !in f;
    }
    if f :| '/' !in arch && '/' !in f && rel == component + "/" + ("binary-" + arch) + "/" + f {
      var front, b := Split(component, '/'), "binary-" + arch;
      SplitPieces(component, '/');
      JoinSplit(component, '/');
      TwoAtEnd(front, b, f);
      assert '/' !in b;
      SplitJoin(front + [b, f], '/');
      assert parts == front + [b, f] && parts[..|parts| - 2] == front;
      assert b[7..] == arch;
    }
  }

  lemma TwoAtEnd(front: seq<string>, b: string, f: string)
    requires front != []
    ensures Join(front + [b, f], '/') == Join(front, '/') + "/" + b + "/" + f
  {
    hide Join;
    JoinConcat(front, [b, f]);
    JoinConcat([b], [f]);
    JoinOne(b);
    JoinOne(f);
    assert [b] + [f] == [b, f];
    Assoc(Join(front, '/') + "/", b + "/", f);
  }

  /** Which objects are indexes. */
  lemma IndexFileExact(dir: string, name: string)
    requires '/' !in name && name != ""
    ensures IsIndexFile(dir + "/" + name) <==> name == "Packages" || name == "Packages.gz"
  {
    hide Base;
    BaseOf(dir, name);
  }

  lemma ComponentDirIs(cfg: Config, component: string)
    requires Plain(cfg.distribution) && Plain(component)
    ensures ComponentDir(cfg, component) == DistDir(cfg) + component + "/"
    ensures HasPrefix(ComponentDir(cfg, component), DistDir(cfg))
  {
    hide Join;
    var d := cfg.distribution;
    DistDirIs(cfg);
    assert Plain("dists");
    JoinPlain(["dists", d, component]);
    JoinConcat(["dists", d], [component]);
    JoinOne(component);
    assert ["dists", d] + [component] == ["dists", d, component];
  }

  /** The keys below a component's directory are those of its own indexes. */
  lemma ComponentDirExact(cfg: Config, component: string, id: IndexId, f: string)
    requires Plain(cfg.distribution) && Plain(component) && GoodId(id) && IsIndexName(f)
    ensures HasPrefix(FileKey(cfg, id, f), ComponentDir(cfg, component)) <==> id.component == component
  {
    hide Join, DistDir, ComponentDir;
    ComponentDirIs(cfg, component);
    IndexKeyInDist(cfg, id, f);
    var rest := ["binary-" + id.arch, f];
    JoinConcat([id.component], rest);
    JoinOne(id.component);
    assert [id.component] + rest == [id.component, "binary-" + id.arch, f];
    PrefixCut(DistDir(cfg), id.component, Join(rest, '/'), component);
  }

  lemma PrefixCut(dir: string, u: string, tail: string, v: string)
    requires '/' !in u && '/' !in v
    ensures HasPrefix(dir + (u + "/" + tail), dir + v + "/") <==> u == v
  {
    var key, p := dir + (u + "/" + tail), dir + v + "/";
    assert key[|dir|..] == u + ['/'] + tail;
    if u == v {
      assert key == p + tail;
    }
    if HasPrefix(key, p) {
      var more := key[|p|..];
      assert key == p + more;
      assert key[|dir|..] == v + ['/'] + more;
      CutInjective(u, tail, v, more, '/');
    }
  }
}
