/**
 The apt publisher of internal/apt/apt.go and internal/apt/release.go as plans: what an operation reads from a
 bucket and the writes it then makes, in order. Class AptPublisher.Publisher carries the plans out.
 */
module Apt {
  import opened Wrappers
  import opened Numbers
  import opened Text
  import opened Paths
  import opened Storage
  import opened Control
  import opened Retention
  import opened Sorting
  import Ar
  import DebVersion

  /** The libraries the publisher calls: digests, compression, and reading the control file of a .deb member. */
  datatype Tools = Tools(
    md5: string -> string,
    sha1: string -> string,
    sha256: string -> string,
    gzip: string -> string,
    readControl: (string, string) -> Option<string>)

  /** A signer may fail. */
  datatype Signer = Signer(clearSign: string -> Option<string>, detachSign: string -> Option<string>)

  datatype Config = Config(
    distribution: string,
    components: seq<string>,
    origin: string,
    repoLabel: string,
    description: string,
    keepVersions: int,
    signer: Option<Signer>)

  const DEFAULT_COMPONENT := "main"

  function ComponentOf(component: string): string {
    if component == "" then DEFAULT_COMPONENT else component
  }

  // ----- packages and keys

  /** `ParseDeb`: the control paragraph of the first control.tar member. */
  function ParseDeb(t: Tools, data: string): (r: Option<Package>)
    ensures r.Some? ==> r.value.name != "" && r.value.version != "" && r.value.architecture != ""
  {
    var ms := Ar.Archive(data);
    if ms.Err? then None else ControlMember(t, ms.value)
  }

  function ControlMember(t: Tools, ms: seq<Ar.Member>): (r: Option<Package>)
    ensures r.Some? ==> r.value.name != "" && r.value.version != "" && r.value.architecture != ""
  {
    if ms == [] then None
    else if !HasPrefix(ms[0].name, "control.tar") then ControlMember(t, ms[1..])
    else
      var control := t.readControl(ms[0].name, ms[0].data);
      if control.None? then None
      else
        var p := ParseControl(control.value);
        if p.Ok? then Some(p.value) else None
  }

  /** The directory a package's pool directory is in: the first letter, or four letters for a library. */
  function PoolPrefix(name: string): string
    requires name != ""
  {
    if HasPrefix(name, "lib") && |name| >= 4 then name[..4] else name[..1]
  }

  function PoolFile(name: string, version: string, arch: string): string {
    name + "_" + version + "_" + arch + ".deb"
  }

  function PoolPath(component: string, pkg: Package): string
    requires pkg.name != ""
  {
    PathJoin(["pool", component, PoolPrefix(pkg.name), pkg.name, PoolFile(pkg.name, pkg.version, pkg.architecture)])
  }

  function PackagesKey(distribution: string, component: string, arch: string): string {
    PathJoin(["dists", distribution, component, "binary-" + arch, "Packages"])
  }

  function DistDir(cfg: Config): string {
    PathJoin(["dists", cfg.distribution]) + "/"
  }

  function ReleaseKey(cfg: Config, file: string): string {
    PathJoin(["dists", cfg.distribution, file])
  }

  /** The fields that an index entry has beyond those of the package. */
  function PoolFields(t: Tools, filename: string, data: string): seq<Field> {
    [Field("Filename", filename), Field("Size", Itoa(|data|)), Field("MD5sum", t.md5(data)),
     Field("SHA1", t.sha1(data)), Field("SHA256", t.sha256(data))]
  }

  function IndexEntry(t: Tools, component: string, pkg: Package, data: string): Package
    requires pkg.name != ""
  {
    Package(pkg.name, pkg.version, pkg.architecture, pkg.fields + PoolFields(t, PoolPath(component, pkg), data))
  }

  // ----- the index

  function NameOf(p: Package): string {
    p.name
  }

  function CompareByVersion(p: Package, q: Package): int {
    DebVersion.CompareVersions(p.version, q.version)
  }

  /** A missing index is an empty one. */
  function ReadPackages(b: Bucket, key: string): Option<seq<Package>> {
    if key !in b then Some([])
    else
      var r := ParseControlFile(b[key]);
      if r.Ok? then Some(r.value) else None
  }

  function Matches(p: Package, name: string, version: string): bool {
    p.name == name && p.version == version
  }

  function Without(pkgs: seq<Package>, name: string, version: string): seq<Package> {
    if pkgs == [] then []
    else (if Matches(pkgs[0], name, version) then [] else [pkgs[0]]) + Without(pkgs[1..], name, version)
  }

  function Matching(pkgs: seq<Package>, name: string, version: string): seq<Package> {
    if pkgs == [] then []
    else (if Matches(pkgs[0], name, version) then [pkgs[0]] else []) + Matching(pkgs[1..], name, version)
  }

  /** The pool files that index entries name. */
  function Filenames(pkgs: seq<Package>): seq<string> {
    if pkgs == [] then []
    else
      var before, fn := Filenames(pkgs[..|pkgs| - 1]), Get(pkgs[|pkgs| - 1].fields, "Filename");
      if fn.Some? then before + [fn.value] else before
  }

  /** Deleting what an index loses, then writing what it keeps. */
  function RewriteIndex(t: Tools, key: string, kept: seq<Package>, removed: seq<Package>): seq<Step> {
    var content := BuildPackages(kept);
    Deletes(Filenames(removed)) + [Put(key, content), Put(key + ".gz", t.gzip(content))]
  }

  function KeptOf(cfg: Config, all: seq<Package>): seq<Package> {
    if cfg.keepVersions > 0 then Retained(all, cfg.keepVersions, NameOf, CompareByVersion) else all
  }

  function RemovedOf(cfg: Config, all: seq<Package>): seq<Package> {
    if cfg.keepVersions > 0 then Removed(all, cfg.keepVersions, NameOf, CompareByVersion) else []
  }

  /** `updateIndex`. */
  function IndexPlan(t: Tools, cfg: Config, b: Bucket, component: string, entry: Package): Plan {
    var key := PackagesKey(cfg.distribution, component, entry.architecture);
    var existing := ReadPackages(b, key);
    if existing.None? then Plan([], false)
    else
      var all := Without(existing.value, entry.name, entry.version) + [entry];
      Plan(RewriteIndex(t, key, KeptOf(cfg, all), RemovedOf(cfg, all)), true)
  }

  // ----- Release

  datatype ReleaseEntry = ReleaseEntry(path: string, size: nat, md5: string, sha1: string, sha256: string)

  datatype Release = Release(components: seq<string>, arches: seq<string>, entries: seq<ReleaseEntry>)

  predicate IsIndexFile(key: string) {
    Base(key) == "Packages" || Base(key) == "Packages.gz"
  }

  /** The component and architecture in a path like main/binary-amd64/Packages. */
  function SplitBinaryPath(rel: string): Option<(string, string)> {
    var parts := Split(rel, '/');
    if |parts| < 3 then None
    else if !HasPrefix(parts[|parts| - 2], "binary-") then None
    else Some((Join(parts[..|parts| - 2], '/'), TrimPrefix(parts[|parts| - 2], "binary-")))
  }

  /** The indexes below the distribution's directory, by their paths relative to it. */
  ghost function IndexPaths(cfg: Config, b: Bucket): set<string> {
    set k | k in b && HasPrefix(k, DistDir(cfg)) && IsIndexFile(k) :: TrimPrefix(k, DistDir(cfg))
  }

  function DigestEntry(t: Tools, rel: string, data: string): ReleaseEntry {
    ReleaseEntry(rel, |data|, t.md5(data), t.sha1(data), t.sha256(data))
  }

  function ContentOf(b: Bucket, key: string): string {
    if key in b then b[key] else ""
  }

  ghost function Digests(t: Tools, cfg: Config, b: Bucket, rels: seq<string>): (r: seq<ReleaseEntry>)
    ensures |r| == |rels|
    ensures forall i :: 0 <= i < |r| ==> r[i] == DigestEntry(t, rels[i], ContentOf(b, DistDir(cfg) + rels[i]))
  {
    seq(|rels|, i requires 0 <= i < |rels| => DigestEntry(t, rels[i], ContentOf(b, DistDir(cfg) + rels[i])))
  }

  ghost function ArchesOf(rels: set<string>): set<string> {
    set rel | rel in rels && SplitBinaryPath(rel).Some? :: SplitBinaryPath(rel).value.1
  }

  ghost function ComponentsOf(cfg: Config, rels: set<string>): set<string> {
    Elements(cfg.components) + set rel | rel in rels && SplitBinaryPath(rel).Some? :: SplitBinaryPath(rel).value.0
  }

  /** What the Release file says about a bucket: every index once, sorted by path, with its digests. */
  ghost function ReleaseOf(t: Tools, cfg: Config, b: Bucket): Release {
    var rels := IndexPaths(cfg, b);
    Release(Sorted(ComponentsOf(cfg, rels)), Sorted(ArchesOf(rels)), Digests(t, cfg, b, Sorted(rels)))
  }

  function ReleaseField(name: string, value: string): string {
    if value == "" then "" else name + ": " + value + "\n"
  }

  function ChecksumLines(entries: seq<ReleaseEntry>, pick: ReleaseEntry -> string): string {
    if entries == [] then ""
    else
      var e := entries[|entries| - 1];
      ChecksumLines(entries[..|entries| - 1], pick) + " " + pick(e) + " " + Itoa(e.size) + " " + e.path + "\n"
  }

  function Md5Of(e: ReleaseEntry): string {
    e.md5
  }

  function Sha1Of(e: ReleaseEntry): string {
    e.sha1
  }

  function Sha256Of(e: ReleaseEntry): string {
    e.sha256
  }

  /** `buildRelease`, after the entries have been sorted. */
  function RenderRelease(cfg: Config, date: string, r: Release): string {
    ReleaseField("Origin", cfg.origin) + ReleaseField("Label", cfg.repoLabel)
    + ReleaseField("Suite", cfg.distribution) + ReleaseField("Codename", cfg.distribution)
    + ReleaseField("Date", date)
    + ReleaseField("Architectures", Join(r.arches, ' ')) + ReleaseField("Components", Join(r.components, ' '))
    + ReleaseField("Description", cfg.description)
    + "MD5Sum:\n" + ChecksumLines(r.entries, Md5Of)
    + "SHA1:\n" + ChecksumLines(r.entries, Sha1Of)
    + "SHA256:\n" + ChecksumLines(r.entries, Sha256Of)
  }

  /** `publishRelease` and `signRelease`, given the text of the Release file. */
  function ReleaseSteps(cfg: Config, text: string): Plan {
    var release := Put(ReleaseKey(cfg, "Release"), text);
    if cfg.signer.None? then Plan([release], true)
    else
      var clear := cfg.signer.value.clearSign(text);
      if clear.None? then Plan([release], false)
      else
        var inRelease := Put(ReleaseKey(cfg, "InRelease"), clear.value);
        var detached := cfg.signer.value.detachSign(text);
        if detached.None? then Plan([release, inRelease], false)
        else Plan([release, inRelease, Put(ReleaseKey(cfg, "Release.gpg"), detached.value)], true)
  }

  ghost function ReleaseText(t: Tools, cfg: Config, b: Bucket, date: string): string {
    RenderRelease(cfg, date, ReleaseOf(t, cfg, b))
  }

  ghost function ReleasePlan(t: Tools, cfg: Config, b: Bucket, date: string): Plan {
    ReleaseSteps(cfg, ReleaseText(t, cfg, b, date))
  }

  // ----- Add and Remove

  /** `Add` of a .deb that has been parsed. */
  ghost function AddPlan(t: Tools, cfg: Config, b: Bucket, component: string, pkg: Package, data: string,
                         date: string): Plan
    requires pkg.name != ""
  {
    var upload := Plan([Put(PoolPath(component, pkg), data)], true);
    var b1 := Apply(b, upload.steps);
    var index := IndexPlan(t, cfg, b1, component, IndexEntry(t, component, pkg, data));
    var b2 := Apply(b1, index.steps);
    Then(upload, Then(index, ReleasePlan(t, cfg, b2, date)))
  }

  /** A plan together with the number of entries it removes. */
  datatype Removal = Removal(plan: Plan, count: nat)

  /** One index of a `Remove`. */
  function RemoveOne(t: Tools, b: Bucket, key: string, name: string, version: string): Removal {
    if Base(key) != "Packages" then Removal(Plan([], true), 0)
    else
      var existing := ReadPackages(b, key);
      if existing.None? then Removal(Plan([], false), 0)
      else
        var drop := Matching(existing.value, name, version);
        if drop == [] then Removal(Plan([], true), 0)
        else Removal(Plan(RewriteIndex(t, key, Without(existing.value, name, version), drop), true), |drop|)
  }

  /** The indexes of a `Remove` one after the other, each read when its turn comes. */
  function RemoveAll(t: Tools, b: Bucket, keys: seq<string>, name: string, version: string): Removal
    decreases |keys|
  {
    if keys == [] then Removal(Plan([], true), 0)
    else
      var one := RemoveOne(t, b, keys[0], name, version);
      if !one.plan.complete then one
      else
        var more := RemoveAll(t, Apply(b, one.plan.steps), keys[1..], name, version);
        Removal(Then(one.plan, more.plan), one.count + more.count)
  }

  function ComponentDir(cfg: Config, component: string): string {
    PathJoin(["dists", cfg.distribution, component]) + "/"
  }

  ghost function RemovePlan(t: Tools, cfg: Config, b: Bucket, listing: set<string> -> seq<string>,
                            component: string, name: string, version: string, date: string): Removal
  {
    var all := RemoveAll(t, b, listing(Keys(b, ComponentDir(cfg, component))), name, version);
    if all.count == 0 || !all.plan.complete then all
    else Removal(Then(all.plan, ReleasePlan(t, cfg, Apply(b, all.plan.steps), date)), all.count)
  }
}
