/**
 The yum publisher of internal/yum/yum.go as plans: what an operation reads from a bucket and the writes it then
 makes, in order. Class YumPublisher.Publisher carries the plans out.
 */
module Yum {
  import opened Wrappers
  import opened Numbers
  import opened Text
  import opened Paths
  import opened Storage
  import opened Retention
  import RpmVersion

  /** What the RPM library reads from a package; rest stands for the fields that nothing here looks at. */
  datatype Header = Header(name: string, epoch: int, version: string, release: string, architecture: string,
                           rest: string)

  datatype Package = Package(header: Header, size: nat, sha256: string)

  /** The unit of the manifest and of the metadata documents. */
  datatype Entry = Entry(meta: Package, location: string)

  /** The checksums and sizes of one written metadata document. */
  datatype MetaFile = MetaFile(href: string, gzSum: string, xmlSum: string, gzSize: nat, xmlSize: nat, ts: int)

  datatype RepomdData = RepomdData(kind: string, checksum: string, openChecksum: string, href: string,
                                   timestamp: int, size: nat, openSize: nat)

  datatype Repomd = Repomd(revision: int, data: seq<RepomdData>)

  /** The libraries the publisher calls: the digest, compression, reading an RPM, JSON, XML and sorting. */
  datatype Tools = Tools(
    sha256: string -> string,
    gzip: string -> string,
    readRpm: string -> Option<Header>,
    encodeState: seq<Entry> -> string,
    decodeState: string -> Option<seq<Entry>>,
    document: (string, seq<Entry>) -> string,
    encodeRepomd: Repomd -> string,
    sort: seq<Entry> -> seq<Entry>)

  /** A detached signature may fail. */
  datatype Config = Config(keepVersions: int, signer: Option<string -> Option<string>>)

  const STATE_KEY := "repodata/repohost-state.json"
  const REPOMD_KEY := "repodata/repomd.xml"
  const SIGNATURE_KEY := "repodata/repomd.xml.asc"

  const PRIMARY := "primary"
  const FILELISTS := "filelists"
  const OTHER := "other"

  // ----- packages and keys

  /** `ParseRPM`: the header, with the size and digest of the file; the four tags that make up its name are required. */
  function ParseRpm(t: Tools, data: string): (r: Option<Package>)
    ensures r.Some? ==> r.value.header.name != "" && r.value.size == |data| && r.value.sha256 == t.sha256(data)
    ensures r.Some? <==>
              t.readRpm(data).Some? &&
              (var h := t.readRpm(data).value; "" !in [h.name, h.version, h.release, h.architecture])
    ensures r.Some? ==> t.readRpm(data) == Some(r.value.header)
  {
    var h := t.readRpm(data);
    if h.None? || h.value.name == "" || h.value.version == "" || h.value.release == "" || h.value.architecture == ""
    then None
    else Some(Package(h.value, |data|, t.sha256(data)))
  }

  function EvrOf(p: Package): string {
    RpmVersion.PrintEVR(RpmVersion.EVR(p.header.epoch, p.header.version, p.header.release))
  }

  function FileName(h: Header): string {
    h.name + "-" + h.version + "-" + h.release + "." + h.architecture + ".rpm"
  }

  function PoolPath(h: Header): string
    requires h.name != ""
  {
    PathJoin(["Packages", ToLower(h.name[..1]), FileName(h)])
  }

  function Href(sum: string, kind: string): string {
    PathJoin(["repodata", sum + "-" + kind + ".xml.gz"])
  }

  function MetadataSuffix(kind: string): string {
    "-" + kind + ".xml.gz"
  }

  predicate IsMetadataFile(key: string) {
    || HasSuffix(key, MetadataSuffix(PRIMARY))
    || HasSuffix(key, MetadataSuffix(FILELISTS))
    || HasSuffix(key, MetadataSuffix(OTHER))
  }

  // ----- the manifest

  /** A missing manifest is an empty one. */
  function LoadState(t: Tools, b: Bucket): Option<seq<Entry>> {
    if STATE_KEY !in b then Some([]) else t.decodeState(b[STATE_KEY])
  }

  function Others(entries: seq<Entry>, location: string): seq<Entry> {
    if entries == [] then []
    else
      var before, e := Others(entries[..|entries| - 1], location), entries[|entries| - 1];
      if e.location != location then before + [e] else before
  }

  function ReplaceOrAppend(entries: seq<Entry>, e: Entry): seq<Entry> {
    Others(entries, e.location) + [e]
  }

  function GroupKey(e: Entry): string {
    e.meta.header.name + ['\0'] + e.meta.header.architecture
  }

  function CompareByEvr(x: Entry, y: Entry): int {
    RpmVersion.CompareVersions(EvrOf(x.meta), EvrOf(y.meta))
  }

  function KeptOf(cfg: Config, all: seq<Entry>): seq<Entry> {
    if cfg.keepVersions > 0 then Retained(all, cfg.keepVersions, GroupKey, CompareByEvr) else all
  }

  function RemovedOf(cfg: Config, all: seq<Entry>): seq<Entry> {
    if cfg.keepVersions > 0 then Removed(all, cfg.keepVersions, GroupKey, CompareByEvr) else []
  }

  function Locations(entries: seq<Entry>): (r: seq<string>)
    ensures |r| == |entries|
    ensures forall i :: 0 <= i < |r| ==> r[i] == entries[i].location
  {
    seq(|entries|, i requires 0 <= i < |entries| => entries[i].location)
  }

  predicate Matches(e: Entry, name: string, version: string) {
    e.meta.header.name == name && e.meta.header.version == version
  }

  function Without(entries: seq<Entry>, name: string, version: string): seq<Entry> {
    if entries == [] then []
    else
      var before, e := Without(entries[..|entries| - 1], name, version), entries[|entries| - 1];
      if Matches(e, name, version) then before else before + [e]
  }

  function Matching(entries: seq<Entry>, name: string, version: string): seq<Entry> {
    if entries == [] then []
    else
      var before, e := Matching(entries[..|entries| - 1], name, version), entries[|entries| - 1];
      if Matches(e, name, version) then before + [e] else before
  }

  // ----- publishing

  /** The order of the documents: by name, architecture and version. */
  function CompareEntries(x: Entry, y: Entry): int {
    var byName := Compare(x.meta.header.name, y.meta.header.name);
    if byName != 0 then byName
    else
      var byArch := Compare(x.meta.header.architecture, y.meta.header.architecture);
      if byArch != 0 then byArch else CompareByEvr(x, y)
  }

  function Compressed(t: Tools, kind: string, entries: seq<Entry>): string {
    t.gzip(t.document(kind, entries))
  }

  function MetaFileOf(t: Tools, kind: string, entries: seq<Entry>, ts: int): MetaFile {
    var xml, gz := t.document(kind, entries), Compressed(t, kind, entries);
    MetaFile(Href(t.sha256(gz), kind), t.sha256(gz), t.sha256(xml), |gz|, |xml|, ts)
  }

  function DataEntry(m: MetaFile, kind: string): RepomdData {
    RepomdData(kind, m.gzSum, m.xmlSum, m.href, m.ts, m.gzSize, m.xmlSize)
  }

  function DataOf(t: Tools, kind: string, entries: seq<Entry>, ts: int): RepomdData {
    DataEntry(MetaFileOf(t, kind, entries, ts), kind)
  }

  function HrefOf(t: Tools, kind: string, entries: seq<Entry>): string {
    Href(t.sha256(Compressed(t, kind, entries)), kind)
  }

  function RepomdOf(t: Tools, entries: seq<Entry>, ts: int): Repomd {
    Repomd(ts, [DataOf(t, PRIMARY, entries, ts), DataOf(t, FILELISTS, entries, ts), DataOf(t, OTHER, entries, ts)])
  }

  function Hrefs(t: Tools, entries: seq<Entry>): set<string> {
    {HrefOf(t, PRIMARY, entries), HrefOf(t, FILELISTS, entries), HrefOf(t, OTHER, entries)}
  }

  function WriteMetaStep(t: Tools, kind: string, entries: seq<Entry>): Step {
    Put(HrefOf(t, kind, entries), Compressed(t, kind, entries))
  }

  function MetadataSteps(t: Tools, entries: seq<Entry>): seq<Step> {
    [WriteMetaStep(t, PRIMARY, entries), WriteMetaStep(t, FILELISTS, entries), WriteMetaStep(t, OTHER, entries)]
  }

  function RepomdText(t: Tools, entries: seq<Entry>, ts: int): string {
    t.encodeRepomd(RepomdOf(t, entries, ts))
  }

  /** `signRepomd`. */
  function SignPlan(cfg: Config, text: string): Plan {
    if cfg.signer.None? then Plan([], true)
    else
      var signature := cfg.signer.value(text);
      if signature.None? then Plan([], false) else Plan([Put(SIGNATURE_KEY, signature.value)], true)
  }

  /** The metadata files that the current repomd.xml no longer needs. */
  function Stale(keys: seq<string>, keep: set<string>): seq<string> {
    if keys == [] then []
    else
      var before, k := Stale(keys[..|keys| - 1], keep), keys[|keys| - 1];
      if IsMetadataFile(k) && k !in keep then before + [k] else before
  }

  function CleanupSteps(b: Bucket, listing: set<string> -> seq<string>, keep: set<string>): seq<Step> {
    Deletes(Stale(listing(Keys(b, "repodata/")), keep))
  }

  /** `publish` up to the cleaning up, for entries that have been sorted. */
  function WritePlan(t: Tools, cfg: Config, entries: seq<Entry>, ts: int): Plan {
    var text := RepomdText(t, entries, ts);
    Then(Plan(MetadataSteps(t, entries) + [Put(REPOMD_KEY, text)], true),
         Then(SignPlan(cfg, text), Plan([Put(STATE_KEY, t.encodeState(entries))], true)))
  }

  function SortedPlan(t: Tools, cfg: Config, b: Bucket, listing: set<string> -> seq<string>, entries: seq<Entry>,
                      ts: int): Plan {
    var write := WritePlan(t, cfg, entries, ts);
    Then(write, Plan(CleanupSteps(Apply(b, write.steps), listing, Hrefs(t, entries)), true))
  }

  /** `publish`. */
  function PublishPlan(t: Tools, cfg: Config, b: Bucket, listing: set<string> -> seq<string>, entries: seq<Entry>,
                       ts: int): Plan {
    SortedPlan(t, cfg, b, listing, t.sort(entries), ts)
  }

  /** Deleting packages, then publishing without them. */
  function DropPlan(t: Tools, cfg: Config, b: Bucket, listing: set<string> -> seq<string>,
                    drop: seq<Entry>, keep: seq<Entry>, ts: int): Plan
  {
    var deletes := Plan(Deletes(Locations(drop)), true);
    Then(deletes, PublishPlan(t, cfg, Apply(b, deletes.steps), listing, keep, ts))
  }

  // ----- Add and Remove

  /** `Add`, once the package has been uploaded. */
  function UpdatePlan(t: Tools, cfg: Config, b: Bucket, listing: set<string> -> seq<string>, e: Entry, ts: int): Plan {
    var existing := LoadState(t, b);
    if existing.None? then Plan([], false)
    else
      var all := ReplaceOrAppend(existing.value, e);
      DropPlan(t, cfg, b, listing, RemovedOf(cfg, all), KeptOf(cfg, all), ts)
  }

  function EntryOf(p: Package): Entry
    requires p.header.name != ""
  {
    Entry(p, PoolPath(p.header))
  }

  /** `Add` of an .rpm that has been parsed. */
  function AddPlan(t: Tools, cfg: Config, b: Bucket, listing: set<string> -> seq<string>, p: Package, data: string,
                   ts: int): Plan
    requires p.header.name != ""
  {
    var upload := Plan([Put(PoolPath(p.header), data)], true);
    Then(upload, UpdatePlan(t, cfg, Apply(b, upload.steps), listing, EntryOf(p), ts))
  }

  function RemovePlan(t: Tools, cfg: Config, b: Bucket, listing: set<string> -> seq<string>, name: string,
                      version: string, ts: int): Plan {
    var existing := LoadState(t, b);
    if existing.None? then Plan([], false)
    else
      var drop := Matching(existing.value, name, version);
      if drop == [] then Plan([], true)
      else DropPlan(t, cfg, b, listing, drop, Without(existing.value, name, version), ts)
  }

  /** How many entries a `Remove` drops. */
  function RemoveCount(t: Tools, b: Bucket, name: string, version: string): nat {
    var existing := LoadState(t, b);
    if existing.None? then 0 else |Matching(existing.value, name, version)|
  }
}
