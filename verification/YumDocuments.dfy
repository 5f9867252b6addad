/**
 What a client of the yum repository finds after an operation: the repomd.xml, the documents it names, and in which
 order these list the packages.
 */
module YumDocuments {
  import opened Wrappers
  import opened Text
  import opened Storage
  import opened Yum
  import opened YumKeys
  import opened YumPublisher
  import opened YumSafety
  import opened YumState
  import opened YumRuns
  import RpmVersion

  /** x may be listed before y: by name, then by architecture, then by version, oldest first. */
  predicate InTurn(x: Entry, y: Entry) {
    var h, g := x.meta.header, y.meta.header;
    if h.name != g.name then Compare(h.name, g.name) < 0
    else if h.architecture != g.architecture then Compare(h.architecture, g.architecture) < 0
    else
      var v, w := RpmVersion.EVR(h.epoch, h.version, h.release), RpmVersion.EVR(g.epoch, g.version, g.release);
      RpmVersion.CompareEVR(v, w) <= 0
  }

  /** The document that d names is there, was written at ts and lists these entries. */
  ghost predicate IsDocument(t: Tools, c: Client, b: Bucket, d: RepomdData, kind: string, l: seq<Entry>, ts: int) {
    var xml := t.document(kind, l);
    && d.kind == kind && d.timestamp == ts && d.href == "repodata/" + d.checksum + "-" + kind + ".xml.gz"
    && d.href in b && t.sha256(b[d.href]) == d.checksum && |b[d.href]| == d.size
    && c.gunzip(b[d.href]) == Some(xml) && t.sha256(xml) == d.openChecksum && |xml| == d.openSize
  }

  predicate IsDocumentKey(k: string) {
    HasPrefix(k, "repodata/") &&
    (HasSuffix(k, "-primary.xml.gz") || HasSuffix(k, "-filelists.xml.gz") || HasSuffix(k, "-other.xml.gz"))
  }

  /** The metadata is that of these entries and of the time ts: three documents and no others, the repomd.xml that names
      them, its signature, and the manifest. */
  ghost predicate Publishes(t: Tools, c: Client, cfg: Config, b: Bucket, l: seq<Entry>, ts: int) {
    && (forall i, j :: 0 <= i < j < |l| ==> InTurn(l[i], l[j]))
    && "repodata/repomd.xml" in b && c.parseRepomd(b["repodata/repomd.xml"]).Some?
    && (var doc := c.parseRepomd(b["repodata/repomd.xml"]).value;
        && doc.revision == ts && |doc.data| == 3
        && IsDocument(t, c, b, doc.data[0], "primary", l, ts)
        && IsDocument(t, c, b, doc.data[1], "filelists", l, ts)
        && IsDocument(t, c, b, doc.data[2], "other", l, ts)
        && forall k | k in b && IsDocumentKey(k) :: exists i :: 0 <= i < 3 && doc.data[i].href == k)
    && (cfg.signer.Some? ==>
          var signature := cfg.signer.value(b["repodata/repomd.xml"]);
          signature.Some? && Has(b, "repodata/repomd.xml.asc", signature.value))
    && "repodata/repohost-state.json" in b && t.decodeState(b["repodata/repohost-state.json"]) == Some(l)
  }

  /** Sorted entries are in turn. */
  lemma SortedInTurn(l: seq<Entry>)
    requires AllProper(l) && InOrder(l)
    ensures forall i, j :: 0 <= i < j < |l| ==> InTurn(l[i], l[j])
  {
    hide ProperEntry, RpmVersion.CompareEVR, RpmVersion.SplitEVR, Compare, EvrOf;
    forall i, j | 0 <= i < j < |l| ensures InTurn(l[i], l[j]) {
      assert l[i] in l && l[j] in l;
      ProperTriple(l[i]);
      ProperTriple(l[j]);
    }
  }

  lemma DataIsDocument(t: Tools, c: Client, b: Bucket, kind: string, l: seq<Entry>, ts: int)
    requires Faithful(t, c) && IsKind(kind)
    requires Has(b, HrefOf(t, kind, l), Compressed(t, kind, l))
    ensures IsDocument(t, c, b, DataOf(t, kind, l, ts), kind, l, ts)
    ensures DataOf(t, kind, l, ts).href == HrefOf(t, kind, l)
  {
    hide Href, IsKind, HasPrefix, IsMetadataFile;
    HrefIs(t.sha256(Compressed(t, kind, l)), kind);
  }

  lemma TheKeys()
    ensures REPOMD_KEY == "repodata/repomd.xml" && SIGNATURE_KEY == "repodata/repomd.xml.asc"
    ensures STATE_KEY == "repodata/repohost-state.json"
    ensures PRIMARY == "primary" && FILELISTS == "filelists" && OTHER == "other"
    ensures forall k :: IsDocumentKey(k) <==> HasPrefix(k, "repodata/") && IsMetadataFile(k)
  {
    hide HasSuffix, HasPrefix;
    assert MetadataSuffix("primary") == "-primary.xml.gz" && MetadataSuffix("filelists") == "-filelists.xml.gz";
    assert MetadataSuffix("other") == "-other.xml.gz";
  }

  /** What publishing leaves. */
  lemma PublishingPublishes(t: Tools, c: Client, cfg: Config, x: Bucket, l: seq<Entry>, ts: int)
    requires Faithful(t, c) && AllProper(l) && InOrder(l) && CanSign(cfg, RepomdText(t, l, ts))
    ensures Publishes(t, c, cfg, Swept(x) + MetadataObjects(t, cfg, l, ts), l, ts)
  {
    hide AllProper, InOrder, InTurn, Swept, IsDocumentKey, IsMetadataFile, HasPrefix, Href, Compressed, IsDocument;
    var b := Swept(x) + MetadataObjects(t, cfg, l, ts);
    SortedInTurn(l);
    PublishDocuments(t, cfg, x, l, ts);
    TheKeys();
    DataIsDocument(t, c, b, PRIMARY, l, ts);
    DataIsDocument(t, c, b, FILELISTS, l, ts);
    DataIsDocument(t, c, b, OTHER, l, ts);
    SignatureIs(t, cfg, x, l, ts);
    var doc := RepomdOf(t, l, ts);
    assert c.parseRepomd(b[REPOMD_KEY]) == Some(doc);
    forall k | k in b && IsDocumentKey(k) ensures exists i :: 0 <= i < 3 && doc.data[i].href == k {
      assert k in Hrefs(t, l);
      assert k == doc.data[0].href || k == doc.data[1].href || k == doc.data[2].href;
    }
  }

  lemma SignatureIs(t: Tools, cfg: Config, x: Bucket, l: seq<Entry>, ts: int)
    requires Collisionless(t) && CanSign(cfg, RepomdText(t, l, ts))
    ensures var text := RepomdText(t, l, ts); var b := Swept(x) + MetadataObjects(t, cfg, l, ts);
            cfg.signer.Some? ==>
              cfg.signer.value(text).Some? && Has(b, SIGNATURE_KEY, cfg.signer.value(text).value)
  {
    hide Swept, RepomdText, HrefOf, Compressed;
  }

  // ----- on the way

  /** At no moment of publishing is there a new signature beside an old repomd.xml. */
  lemma SignatureFollows(t: Tools, cfg: Config, b: Bucket, listing: set<string> -> seq<string>, entries: seq<Entry>,
                         ts: int, k: nat)
    requires Collisionless(t) && k <= |PublishPlan(t, cfg, b, listing, entries, ts).steps|
    ensures var x := Apply(b, PublishPlan(t, cfg, b, listing, entries, ts).steps[..k]);
            || Same(b, x, "repodata/repomd.xml.asc")
            || (&& cfg.signer.Some? && "repodata/repomd.xml" in x && "repodata/repomd.xml.asc" in x
                && cfg.signer.value(x["repodata/repomd.xml"]) == Some(x["repodata/repomd.xml.asc"]))
  {
    hide RepomdText, Apply, HrefOf, Compressed, Stale, IsMetadataFile, PublishPlan;
    var l := t.sort(entries);
    var text := RepomdText(t, l, ts);
    var steps := PublishPlan(t, cfg, b, listing, entries, ts).steps;
    TheKeys();
    PublishSteps(t, cfg, b, listing, entries, ts);
    if CanSign(cfg, text) && cfg.signer.Some? {
      WrittenAfter(b, steps, 3, 4, k);
    } else {
      StepsAgree(b, steps[..k]);
    }
  }

  /** Which of its steps touch the repomd.xml and the signature. */
  lemma PublishSteps(t: Tools, cfg: Config, b: Bucket, listing: set<string> -> seq<string>, entries: seq<Entry>,
                     ts: int)
    requires Collisionless(t)
    ensures var text := RepomdText(t, t.sort(entries), ts);
            var steps := PublishPlan(t, cfg, b, listing, entries, ts).steps;
            && |steps| > 3 && steps[3] == Put(REPOMD_KEY, text)
            && (forall m :: 3 < m < |steps| ==> steps[m].key != REPOMD_KEY)
            && if CanSign(cfg, text) && cfg.signer.Some?
               then |steps| > 4 && steps[4] == Put(SIGNATURE_KEY, cfg.signer.value(text).value) &&
                    forall m :: 0 <= m < |steps| && m != 4 ==> steps[m].key != SIGNATURE_KEY
               else forall m :: 0 <= m < |steps| ==> steps[m].key != SIGNATURE_KEY
  {
    hide RepomdText, Apply, HrefOf, Compressed, IsMetadataFile, CleanupSteps, Hrefs;
    var l := t.sort(entries);
    FixedKeys();
    DocumentSteps(t, l);
    var write := WritePlan(t, cfg, l, ts);
    StaleSteps(Apply(b, write.steps), listing, Hrefs(t, l));
  }

  lemma DocumentSteps(t: Tools, l: seq<Entry>)
    requires Collisionless(t)
    ensures forall s | s in MetadataSteps(t, l) :: s.Put? && IsMetadataFile(s.key)
  {
    hide Href, Compressed, IsMetadataFile;
    HrefIs(t.sha256(Compressed(t, PRIMARY, l)), PRIMARY);
    HrefIs(t.sha256(Compressed(t, FILELISTS, l)), FILELISTS);
    HrefIs(t.sha256(Compressed(t, OTHER, l)), OTHER);
  }

  lemma StaleSteps(b: Bucket, listing: set<string> -> seq<string>, keep: set<string>)
    ensures forall s | s in CleanupSteps(b, listing, keep) :: IsMetadataFile(s.key)
  {
    hide Stale, IsMetadataFile;
    StaleAre(listing(Keys(b, "repodata/")), keep);
  }

  // ----- at the end

  /** After a successful Add a client finds the manifest with the package added, as of the time of the Add. */
  lemma AddPublishes(t: Tools, c: Client, cfg: Config, b: Bucket, listing: set<string> -> seq<string>, l: seq<Entry>,
                     p: Package, data: string, ts: int)
    requires Setting(t, c) && Enumerates(listing) && Represents(t, cfg, b, l)
    requires p.header.name != "" && ProperEntry(EntryOf(p)) && ParseRpm(t, data) == Some(p)
    requires AddPlan(t, cfg, b, listing, p, data, ts).complete
    ensures Publishes(t, c, cfg, Apply(b, AddPlan(t, cfg, b, listing, p, data, ts).steps),
                      AddTo(t, cfg, l, EntryOf(p)), ts)
  {
    hide Represents, Documented, Blank, ProperEntry, PoolPath, ParseRpm, RemovedOf, Others, Apply,
      RepomdText, CanSign, AddPlan, Publishes, Swept, MetadataObjects, AllProper, InOrder, Faithful, KeptOf;
    AddRepresents(t, c, cfg, b, listing, l, p, data, ts);
    FaithfulIs(t, c);
    StateIs(t, c, cfg, b, l);
    AddSettles(t, cfg, b, listing, l, p, data, ts);
    var after := AddTo(t, cfg, l, EntryOf(p));
    RepresentedInOrder(t, c, cfg, Apply(b, AddPlan(t, cfg, b, listing, p, data, ts).steps), after);
    var b1 := b[PoolPath(p.header) := data];
    var gone := RemovedOf(cfg, ReplaceOrAppend(l, EntryOf(p)));
    PublishingPublishes(t, c, cfg, b1 - Elements(Locations(gone)), after, ts);
  }

  lemma RepresentedInOrder(t: Tools, c: Client, cfg: Config, b: Bucket, l: seq<Entry>)
    requires Represents(t, cfg, b, l)
    ensures AllProper(l) && InOrder(l)
  {
    hide WithinCap, Written, RepomdText, Unique, ProperEntry, PoolPath, CompareEntries;
  }

  /** After a successful Remove that removes something a client finds the manifest without it, as of the time of the
      Remove. */
  lemma RemovePublishes(t: Tools, c: Client, cfg: Config, b: Bucket, listing: set<string> -> seq<string>,
                        l: seq<Entry>, name: string, version: string, ts: int)
    requires Setting(t, c) && Enumerates(listing) && Represents(t, cfg, b, l) && Matching(l, name, version) != []
    requires RemovePlan(t, cfg, b, listing, name, version, ts).complete
    ensures Publishes(t, c, cfg, Apply(b, RemovePlan(t, cfg, b, listing, name, version, ts).steps),
                      RemoveFrom(t, l, name, version), ts)
  {
    hide Represents, Documented, Matching, Without, Faithful, Apply, RepomdText, CanSign, DropPlan, Publishes, Swept,
      LoadState, MetadataObjects, AllProper, InOrder;
    RemoveRepresents(t, c, cfg, b, listing, l, name, version, ts);
    FaithfulIs(t, c);
    StateIs(t, c, cfg, b, l);
    var drop, kept := Matching(l, name, version), Without(l, name, version);
    CompleteSigns(t, cfg, b, listing, drop, kept, ts);
    DropIs(t, cfg, b, listing, drop, kept, ts);
    RepresentedInOrder(t, c, cfg, Apply(b, RemovePlan(t, cfg, b, listing, name, version, ts).steps), t.sort(kept));
    PublishingPublishes(t, c, cfg, b - Elements(Locations(drop)), t.sort(kept), ts);
  }
}
