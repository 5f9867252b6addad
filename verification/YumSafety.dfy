/**
 Crash safety of the yum metadata: whenever a publisher is cut off, a repomd.xml that is there names three
 documents that are there too, with the digests and sizes it states.
 */
module YumSafety {
  import opened Wrappers
  import opened Text
  import opened Storage
  import opened Outcome
  import opened Retention
  import opened RetentionLaws
  import opened Yum
  import opened YumKeys
  import opened YumPublisher

  /** What reads a repository. */
  datatype Client = Client(gunzip: string -> Option<string>, parseRepomd: string -> Option<Repomd>)

  /** Different contents have different digests, and a digest is a word. */
  ghost predicate Collisionless(t: Tools) {
    && (forall x :: '/' !in t.sha256(x))
    && (forall x, y :: t.sha256(x) == t.sha256(y) ==> x == y)
  }

  /** What the libraries are relied on for: what they write can be read back. */
  ghost predicate Faithful(t: Tools, c: Client) {
    && Collisionless(t)
    && (forall x :: c.gunzip(t.gzip(x)) == Some(x))
    && (forall d :: c.parseRepomd(t.encodeRepomd(d)) == Some(d))
    && (forall l :: t.decodeState(t.encodeState(l)) == Some(l))
    && (forall l :: multiset(t.sort(l)) == multiset(l))
  }

  // ----- the invariant

  /** The document that d names is there, and is what d says it is. */
  ghost predicate Names(t: Tools, c: Client, b: Bucket, d: RepomdData) {
    && IsKind(d.kind) && d.href == Href(d.checksum, d.kind)
    && d.href in b
    && t.sha256(b[d.href]) == d.checksum && |b[d.href]| == d.size
    && var xml := c.gunzip(b[d.href]);
    xml.Some? && t.sha256(xml.value) == d.openChecksum && |xml.value| == d.openSize
  }

  ghost predicate NamesThree(t: Tools, c: Client, b: Bucket, data: seq<RepomdData>) {
    && |data| == 3 && data[0].kind == PRIMARY && data[1].kind == FILELISTS && data[2].kind == OTHER
    && Names(t, c, b, data[0]) && Names(t, c, b, data[1]) && Names(t, c, b, data[2])
  }

  /** A repomd.xml that is there can be read, and all that it names is as it says. */
  ghost predicate Consistent(t: Tools, c: Client, b: Bucket) {
    REPOMD_KEY in b ==>
      var doc := c.parseRepomd(b[REPOMD_KEY]);
      doc.Some? && NamesThree(t, c, b, doc.value.data)
  }

  /** A manifest that can be read lists packages below Packages only. */
  ghost predicate Rooted(t: Tools, b: Bucket) {
    LoadState(t, b).Some? ==> AllRooted(LoadState(t, b).value)
  }

  ghost predicate AllRooted(entries: seq<Entry>) {
    forall e | e in entries :: HasPrefix(e.location, "Packages/")
  }

  ghost predicate Safe(t: Tools, c: Client, b: Bucket) {
    Consistent(t, c, b) && Rooted(t, b)
  }

  /** Every state on the way through the steps is safe. */
  ghost predicate Keeps(t: Tools, c: Client, b: Bucket, steps: seq<Step>) {
    forall k :: 0 <= k <= |steps| ==> Safe(t, c, Apply(b, steps[..k]))
  }

  // ----- steps

  lemma KeepsEnd(t: Tools, c: Client, b: Bucket, steps: seq<Step>)
    requires Keeps(t, c, b, steps)
    ensures Safe(t, c, b) && Safe(t, c, Apply(b, steps))
  {
    hide Safe;
    assert steps[..|steps|] == steps && steps[..0] == [];
  }

  lemma KeepsNothing(t: Tools, c: Client, b: Bucket)
    requires Safe(t, c, b)
    ensures Keeps(t, c, b, [])
  {
    hide Safe;
    var none: seq<Step> := [];
    assert none[..0] == none;
  }

  lemma KeepsOne(t: Tools, c: Client, b: Bucket, s: Step)
    requires Safe(t, c, b) && Safe(t, c, ApplyStep(b, s))
    ensures Keeps(t, c, b, [s]) && Apply(b, [s]) == ApplyStep(b, s)
  {
    hide Safe, ApplyStep;
    ApplyOne(b, s);
    forall k | 0 <= k <= 1 ensures Safe(t, c, Apply(b, [s][..k])) {
      assert [s][..k] == if k == 0 then [] else [s];
    }
  }

  lemma KeepsThen(t: Tools, c: Client, b: Bucket, x: seq<Step>, y: seq<Step>)
    requires Keeps(t, c, b, x) && Keeps(t, c, Apply(b, x), y)
    ensures Keeps(t, c, b, x + y)
  {
    hide Safe, Apply;
    forall k | 0 <= k <= |x + y| ensures Safe(t, c, Apply(b, (x + y)[..k])) {
      if k <= |x| {
        assert (x + y)[..k] == x[..k];
      } else {
        assert (x + y)[..k] == x + y[..k - |x|];
        ApplyConcat(b, x, y[..k - |x|]);
      }
    }
  }

  /** Changes that leave the manifest, repomd.xml and what it names alone. */
  lemma SafeFrame(t: Tools, c: Client, b: Bucket, x: Bucket)
    requires Safe(t, c, b)
    requires Same(b, x, REPOMD_KEY) && Same(b, x, STATE_KEY)
    requires forall d :: Names(t, c, b, d) ==> Same(b, x, d.href)
    ensures Safe(t, c, x)
  {
    if REPOMD_KEY in b {
      var data := c.parseRepomd(b[REPOMD_KEY]).value.data;
      NamesFrame(t, c, b, x, data[0]);
      NamesFrame(t, c, b, x, data[1]);
      NamesFrame(t, c, b, x, data[2]);
    }
  }

  lemma NamesFrame(t: Tools, c: Client, b: Bucket, x: Bucket, d: RepomdData)
    requires Names(t, c, b, d) && Same(b, x, d.href)
    ensures Names(t, c, x, d)
  {
  }

  lemma NamesMetadata(t: Tools, c: Client, b: Bucket, d: RepomdData)
    requires Collisionless(t) && Names(t, c, b, d)
    ensures IsMetadataFile(d.href) && HasPrefix(d.href, "repodata/")
  {
    hide Href, IsMetadataFile;
    HrefIs(d.checksum, d.kind);
  }

  /** Packages come and go without touching the metadata. */
  lemma PackagesOnly(t: Tools, c: Client, b: Bucket, x: Bucket)
    requires Collisionless(t) && Safe(t, c, b)
    requires forall k :: !HasPrefix(k, "Packages/") ==> Same(b, x, k)
    ensures Safe(t, c, x)
  {
    hide Safe, Same, IsMetadataFile, HasPrefix;
    FixedKeys();
    NoPackage(STATE_KEY);
    NoPackage(REPOMD_KEY);
    forall d | Names(t, c, b, d) ensures Same(b, x, d.href) {
      NamesMetadata(t, c, b, d);
      NoPackage(d.href);
    }
    SafeFrame(t, c, b, x);
  }

  lemma NoPackage(key: string)
    requires HasPrefix(key, "repodata/")
    ensures !HasPrefix(key, "Packages/")
  {
    if HasPrefix(key, "Packages/") {
      PackagesAreNoMetadata(key, key);
      assert false;
    }
  }

  lemma UploadKeeps(t: Tools, c: Client, b: Bucket, key: string, data: string)
    requires Collisionless(t) && Safe(t, c, b) && HasPrefix(key, "Packages/")
    ensures Keeps(t, c, b, [Put(key, data)])
  {
    hide Safe, HasPrefix;
    PackagesOnly(t, c, b, b[key := data]);
    KeepsOne(t, c, b, Put(key, data));
  }

  lemma DeletesKeep(t: Tools, c: Client, b: Bucket, keys: seq<string>)
    requires Collisionless(t) && Safe(t, c, b)
    requires forall i :: 0 <= i < |keys| ==> HasPrefix(keys[i], "Packages/")
    ensures Keeps(t, c, b, Deletes(keys))
  {
    hide Safe, Apply, HasPrefix;
    forall k | 0 <= k <= |keys| ensures Safe(t, c, Apply(b, Deletes(keys)[..k])) {
      DeletesPrefix(keys, k);
      ApplyDeletes(b, keys[..k]);
      PackagesOnly(t, c, b, b - Elements(keys[..k]));
    }
  }

  /** A document is written under its digest, so that it never changes one that is named. */
  lemma DocumentKeeps(t: Tools, c: Client, b: Bucket, kind: string, entries: seq<Entry>)
    requires Collisionless(t) && Safe(t, c, b) && IsKind(kind)
    ensures Keeps(t, c, b, [WriteMetaStep(t, kind, entries)])
  {
    hide Safe, IsMetadataFile, Href, Compressed, IsKind;
    var key, body := HrefOf(t, kind, entries), Compressed(t, kind, entries);
    var x := b[key := body];
    HrefIs(t.sha256(body), kind);
    FixedKeys();
    forall d | Names(t, c, b, d) ensures Same(b, x, d.href) {
      if d.href == key {
        HrefInjective(d.checksum, d.kind, t.sha256(body), kind);
      }
    }
    SafeFrame(t, c, b, x);
    KeepsOne(t, c, b, WriteMetaStep(t, kind, entries));
  }

  /** What is written anew says what it names. */
  lemma DataNames(t: Tools, c: Client, b: Bucket, kind: string, entries: seq<Entry>, ts: int)
    requires Faithful(t, c) && IsKind(kind)
    requires Has(b, HrefOf(t, kind, entries), Compressed(t, kind, entries))
    ensures Names(t, c, b, DataOf(t, kind, entries, ts))
  {
    hide Href, IsKind;
  }

  ghost predicate Written(t: Tools, b: Bucket, entries: seq<Entry>) {
    && Has(b, HrefOf(t, PRIMARY, entries), Compressed(t, PRIMARY, entries))
    && Has(b, HrefOf(t, FILELISTS, entries), Compressed(t, FILELISTS, entries))
    && Has(b, HrefOf(t, OTHER, entries), Compressed(t, OTHER, entries))
  }

  lemma WrittenIsConsistent(t: Tools, c: Client, b: Bucket, entries: seq<Entry>, ts: int)
    requires Faithful(t, c) && Written(t, b, entries) && Has(b, REPOMD_KEY, RepomdText(t, entries, ts))
    ensures Consistent(t, c, b)
  {
    hide Names, DataOf, HrefOf, Compressed;
    DataNames(t, c, b, PRIMARY, entries, ts);
    DataNames(t, c, b, FILELISTS, entries, ts);
    DataNames(t, c, b, OTHER, entries, ts);
    DataKind(t, entries, ts);
    assert c.parseRepomd(t.encodeRepomd(RepomdOf(t, entries, ts))) == Some(RepomdOf(t, entries, ts));
  }

  lemma DataKind(t: Tools, entries: seq<Entry>, ts: int)
    ensures forall kind :: DataOf(t, kind, entries, ts).kind == kind
  {
  }

  /** Writing one document leaves the others. */
  lemma DocumentsWritten(t: Tools, b: Bucket, entries: seq<Entry>)
    requires Collisionless(t)
    ensures Written(t, Apply(b, MetadataSteps(t, entries)), entries)
  {
    hide Compressed, Href;
    var p, f, o := HrefOf(t, PRIMARY, entries), HrefOf(t, FILELISTS, entries), HrefOf(t, OTHER, entries);
    HrefsDiffer(t, entries);
    var b1 := b[p := Compressed(t, PRIMARY, entries)];
    var b2 := b1[f := Compressed(t, FILELISTS, entries)];
    var b3 := b2[o := Compressed(t, OTHER, entries)];
    ThreePuts(b, p, Compressed(t, PRIMARY, entries), f, Compressed(t, FILELISTS, entries), o,
              Compressed(t, OTHER, entries));
  }

  lemma ThreePuts(b: Bucket, k1: string, v1: string, k2: string, v2: string, k3: string, v3: string)
    ensures Apply(b, [Put(k1, v1), Put(k2, v2), Put(k3, v3)]) == b[k1 := v1][k2 := v2][k3 := v3]
  {
    var x, y, z := Put(k1, v1), Put(k2, v2), Put(k3, v3);
    ApplyOne(b, x);
    ApplyOne(Apply(b, [x]), y);
    ApplyConcat(b, [x], [y]);
    ApplyOne(Apply(b, [x, y]), z);
    ApplyConcat(b, [x, y], [z]);
    assert [x] + [y] == [x, y] && [x, y] + [z] == [x, y, z];
  }

  lemma HrefsDiffer(t: Tools, entries: seq<Entry>)
    requires Collisionless(t)
    ensures var p, f, o := HrefOf(t, PRIMARY, entries), HrefOf(t, FILELISTS, entries), HrefOf(t, OTHER, entries);
            p != f && p != o && f != o
  {
    hide Href, Compressed;
    var p, f, o := t.sha256(Compressed(t, PRIMARY, entries)), t.sha256(Compressed(t, FILELISTS, entries)),
      t.sha256(Compressed(t, OTHER, entries));
    if Href(p, PRIMARY) == Href(f, FILELISTS) {
      HrefInjective(p, PRIMARY, f, FILELISTS);
      assert false;
    }
    if Href(p, PRIMARY) == Href(o, OTHER) {
      HrefInjective(p, PRIMARY, o, OTHER);
      assert false;
    }
    if Href(f, FILELISTS) == Href(o, OTHER) {
      HrefInjective(f, FILELISTS, o, OTHER);
      assert false;
    }
  }

  lemma DocumentsKeep(t: Tools, c: Client, b: Bucket, entries: seq<Entry>)
    requires Collisionless(t) && Safe(t, c, b)
    ensures Keeps(t, c, b, MetadataSteps(t, entries))
  {
    hide Safe, WriteMetaStep, Apply, Keeps;
    var p, f, o := WriteMetaStep(t, PRIMARY, entries), WriteMetaStep(t, FILELISTS, entries),
      WriteMetaStep(t, OTHER, entries);
    DocumentKeeps(t, c, b, PRIMARY, entries);
    KeepsEnd(t, c, b, [p]);
    DocumentKeeps(t, c, Apply(b, [p]), FILELISTS, entries);
    KeepsThen(t, c, b, [p], [f]);
    KeepsEnd(t, c, b, [p] + [f]);
    DocumentKeeps(t, c, Apply(b, [p] + [f]), OTHER, entries);
    KeepsThen(t, c, b, [p] + [f], [o]);
    assert [p] + [f] + [o] == MetadataSteps(t, entries);
  }

  lemma RepomdKeeps(t: Tools, c: Client, b: Bucket, entries: seq<Entry>, ts: int)
    requires Faithful(t, c) && Safe(t, c, b) && Written(t, b, entries)
    ensures Keeps(t, c, b, [Put(REPOMD_KEY, RepomdText(t, entries, ts))])
  {
    hide Consistent, HrefOf, Compressed, RepomdText, AllRooted;
    var x := b[REPOMD_KEY := RepomdText(t, entries, ts)];
    FixedKeys();
    WrittenElsewhere(t, b, entries, REPOMD_KEY, RepomdText(t, entries, ts));
    WrittenIsConsistent(t, c, x, entries, ts);
    KeepsOne(t, c, b, Put(REPOMD_KEY, RepomdText(t, entries, ts)));
  }

  lemma WrittenElsewhere(t: Tools, b: Bucket, entries: seq<Entry>, key: string, body: string)
    requires Collisionless(t) && Written(t, b, entries) && !IsMetadataFile(key)
    ensures Written(t, b[key := body], entries)
  {
    hide Compressed, Href, IsMetadataFile;
    HrefIs(t.sha256(Compressed(t, PRIMARY, entries)), PRIMARY);
    HrefIs(t.sha256(Compressed(t, FILELISTS, entries)), FILELISTS);
    HrefIs(t.sha256(Compressed(t, OTHER, entries)), OTHER);
  }

  /** The signature and the manifest are not among what repomd.xml names. */
  lemma FixedKeeps(t: Tools, c: Client, b: Bucket, key: string, body: string)
    requires Collisionless(t) && Consistent(t, c, b) && !IsMetadataFile(key) && key != REPOMD_KEY
    ensures Consistent(t, c, b[key := body])
  {
    hide Names, IsMetadataFile;
    var x := b[key := body];
    if REPOMD_KEY in b {
      var data := c.parseRepomd(b[REPOMD_KEY]).value.data;
      forall d | Names(t, c, b, d) ensures Names(t, c, x, d) {
        NamesMetadata(t, c, b, d);
        NamesFrame(t, c, b, x, d);
      }
    }
  }

  lemma SignatureKeeps(t: Tools, c: Client, cfg: Config, b: Bucket, text: string)
    requires Collisionless(t) && Safe(t, c, b)
    ensures Keeps(t, c, b, SignPlan(cfg, text).steps)
  {
    hide Consistent, IsMetadataFile, Keeps, AllRooted;
    FixedKeys();
    var steps := SignPlan(cfg, text).steps;
    if steps == [] {
      KeepsNothing(t, c, b);
    } else {
      var body := steps[0].body;
      assert steps == [Put(SIGNATURE_KEY, body)];
      FixedKeeps(t, c, b, SIGNATURE_KEY, body);
      KeepsOne(t, c, b, Put(SIGNATURE_KEY, body));
    }
  }

  lemma StateKeeps(t: Tools, c: Client, b: Bucket, entries: seq<Entry>)
    requires Faithful(t, c) && Safe(t, c, b) && AllRooted(entries)
    ensures Keeps(t, c, b, [Put(STATE_KEY, t.encodeState(entries))])
  {
    hide Consistent, IsMetadataFile, Keeps, AllRooted;
    FixedKeys();
    FixedKeeps(t, c, b, STATE_KEY, t.encodeState(entries));
    KeepsOne(t, c, b, Put(STATE_KEY, t.encodeState(entries)));
  }

  /** Cleaning up takes nothing that the repomd.xml just written names. */
  lemma CleanupKeeps(t: Tools, c: Client, b: Bucket, listing: set<string> -> seq<string>, entries: seq<Entry>, ts: int)
    requires Faithful(t, c) && Safe(t, c, b) && Written(t, b, entries) && Has(b, REPOMD_KEY, RepomdText(t, entries, ts))
    ensures Keeps(t, c, b, CleanupSteps(b, listing, Hrefs(t, entries)))
  {
    hide Safe, Apply, Stale, IsMetadataFile, Keys;
    var keys := Stale(listing(Keys(b, "repodata/")), Hrefs(t, entries));
    StaleAre(listing(Keys(b, "repodata/")), Hrefs(t, entries));
    forall k | 0 <= k <= |keys| ensures Safe(t, c, Apply(b, Deletes(keys)[..k])) {
      DeletesPrefix(keys, k);
      ApplyDeletes(b, keys[..k]);
      assert forall x :: x in Elements(keys[..k]) ==> x in keys;
      CleanedIsSafe(t, c, b, Elements(keys[..k]), entries, ts);
    }
  }

  lemma {:induction false} StaleAre(keys: seq<string>, keep: set<string>)
    ensures forall k :: k in Stale(keys, keep) <==> k in keys && IsMetadataFile(k) && k !in keep
  {
    hide IsMetadataFile;
    if keys != [] {
      var n := |keys| - 1;
      StaleAre(keys[..n], keep);
      assert keys == keys[..n] + [keys[n]];
    }
  }

  lemma CleanedIsSafe(t: Tools, c: Client, b: Bucket, gone: set<string>, entries: seq<Entry>, ts: int)
    requires Faithful(t, c) && Safe(t, c, b) && Written(t, b, entries) && Has(b, REPOMD_KEY, RepomdText(t, entries, ts))
    requires forall k | k in gone :: IsMetadataFile(k) && k !in Hrefs(t, entries)
    ensures Safe(t, c, b - gone)
  {
    hide Consistent, HrefOf, Compressed, RepomdText, IsMetadataFile, AllRooted;
    FixedKeys();
    assert Written(t, b - gone, entries);
    WrittenIsConsistent(t, c, b - gone, entries, ts);
  }

  // ----- operations

  lemma WriteKeeps(t: Tools, c: Client, cfg: Config, b: Bucket, entries: seq<Entry>, ts: int)
    requires Faithful(t, c) && Safe(t, c, b) && AllRooted(entries)
    ensures Keeps(t, c, b, WritePlan(t, cfg, entries, ts).steps)
  {
    hide Safe, Apply, MetadataSteps, RepomdText, SignPlan, Keeps, Faithful, Written, AllRooted;
    assert Collisionless(t) by { FaithfulIs(t, c); }
    var text := RepomdText(t, entries, ts);
    var m, r, g, s := MetadataSteps(t, entries), [Put(REPOMD_KEY, text)], SignPlan(cfg, text),
      [Put(STATE_KEY, t.encodeState(entries))];
    DocumentsKeep(t, c, b, entries);
    DocumentsWritten(t, b, entries);
    KeepsEnd(t, c, b, m);
    RepomdKeeps(t, c, Apply(b, m), entries, ts);
    KeepsThen(t, c, b, m, r);
    KeepsEnd(t, c, b, m + r);
    SignatureKeeps(t, c, cfg, Apply(b, m + r), text);
    KeepsThen(t, c, b, m + r, g.steps);
    if g.complete {
      KeepsEnd(t, c, b, m + r + g.steps);
      StateKeeps(t, c, Apply(b, m + r + g.steps), entries);
      KeepsThen(t, c, b, m + r + g.steps, s);
      assert (m + r) + (g.steps + s) == m + r + g.steps + s;
    }
  }

  lemma FaithfulIs(t: Tools, c: Client)
    requires Faithful(t, c)
    ensures Collisionless(t)
    ensures forall l :: multiset(t.sort(l)) == multiset(l)
  {
  }

  lemma WrittenAtEnd(t: Tools, c: Client, cfg: Config, b: Bucket, entries: seq<Entry>, ts: int)
    requires Faithful(t, c) && WritePlan(t, cfg, entries, ts).complete
    ensures var x := Apply(b, WritePlan(t, cfg, entries, ts).steps);
            Written(t, x, entries) && Has(x, REPOMD_KEY, RepomdText(t, entries, ts)) &&
                Has(x, STATE_KEY, t.encodeState(entries))
  {
    hide Apply, MetadataSteps, RepomdText, Faithful, Written, IsMetadataFile;
    FaithfulIs(t, c);
    FixedKeys();
    var text := RepomdText(t, entries, ts);
    var m, r, g, s := MetadataSteps(t, entries), Put(REPOMD_KEY, text), SignPlan(cfg, text).steps,
      Put(STATE_KEY, t.encodeState(entries));
    var b1 := Apply(b, m);
    DocumentsWritten(t, b, entries);
    ApplyConcat(b, m, [r]);
    ApplyOne(b1, r);
    WrittenElsewhere(t, b1, entries, REPOMD_KEY, text);
    var b2 := b1[REPOMD_KEY := text];
    ApplyConcat(b, m + [r], g);
    var b3 := Apply(b2, g);
    if cfg.signer.None? {
      ApplyOne(b2, s);
    } else {
      ApplyOne(b2, g[0]);
      assert g == [g[0]];
      WrittenElsewhere(t, b2, entries, SIGNATURE_KEY, g[0].body);
    }
    ApplyConcat(b, m + [r] + g, [s]);
    ApplyOne(b3, s);
    WrittenElsewhere(t, b3, entries, STATE_KEY, s.body);
    assert (m + [r]) + (g + [s]) == m + [r] + g + [s];
  }

  lemma SortedRooted(t: Tools, entries: seq<Entry>)
    requires multiset(t.sort(entries)) == multiset(entries) && AllRooted(entries)
    ensures AllRooted(t.sort(entries))
  {
    hide HasPrefix;
    forall e | e in t.sort(entries) ensures e in entries {
      assert e in multiset(t.sort(entries));
    }
  }

  lemma PublishKeeps(t: Tools, c: Client, cfg: Config, b: Bucket, listing: set<string> -> seq<string>,
                     entries: seq<Entry>, ts: int)
    requires Faithful(t, c) && Safe(t, c, b) && AllRooted(entries)
    ensures Keeps(t, c, b, PublishPlan(t, cfg, b, listing, entries, ts).steps)
  {
    hide Safe, Apply, WritePlan, RepomdText, Keeps, Faithful, Written, AllRooted, CleanupSteps;
    var es := t.sort(entries);
    FaithfulIs(t, c);
    SortedRooted(t, entries);
    var write := WritePlan(t, cfg, es, ts);
    WriteKeeps(t, c, cfg, b, es, ts);
    if write.complete {
      WrittenAtEnd(t, c, cfg, b, es, ts);
      KeepsEnd(t, c, b, write.steps);
      CleanupKeeps(t, c, Apply(b, write.steps), listing, es, ts);
      KeepsThen(t, c, b, write.steps, CleanupSteps(Apply(b, write.steps), listing, Hrefs(t, es)));
    }
  }

  lemma DropKeeps(t: Tools, c: Client, cfg: Config, b: Bucket, listing: set<string> -> seq<string>, drop: seq<Entry>,
                  keep: seq<Entry>, ts: int)
    requires Faithful(t, c) && Safe(t, c, b) && AllRooted(drop) && AllRooted(keep)
    ensures Keeps(t, c, b, DropPlan(t, cfg, b, listing, drop, keep, ts).steps)
  {
    hide Safe, Apply, Keeps, Faithful, PublishPlan, Deletes;
    FaithfulIs(t, c);
    var d := Deletes(Locations(drop));
    DeletesKeep(t, c, b, Locations(drop));
    KeepsEnd(t, c, b, d);
    PublishKeeps(t, c, cfg, Apply(b, d), listing, keep, ts);
    KeepsThen(t, c, b, d, PublishPlan(t, cfg, Apply(b, d), listing, keep, ts).steps);
  }

  lemma PrunedRooted(cfg: Config, all: seq<Entry>)
    requires AllRooted(all)
    ensures AllRooted(KeptOf(cfg, all)) && AllRooted(RemovedOf(cfg, all))
  {
    hide HasPrefix, Retained, Removed;
    forall e: Entry ensures (e in KeptOf(cfg, all) || e in RemovedOf(cfg, all)) ==> e in all {
      RetainedMember(all, cfg.keepVersions, GroupKey, CompareByEvr, e);
    }
  }

  lemma AddKeeps(t: Tools, c: Client, cfg: Config, b: Bucket, listing: set<string> -> seq<string>, p: Package,
                 data: string, ts: int)
    requires Faithful(t, c) && Safe(t, c, b) && SafeHeader(p.header)
    ensures Keeps(t, c, b, AddPlan(t, cfg, b, listing, p, data, ts).steps)
  {
    hide Consistent, Apply, Keeps, Faithful, PoolPath, HasPrefix, DropPlan, Retained, Removed, Others, LoadState;
    FaithfulIs(t, c);
    PoolPathIs(p.header);
    var upload, e := [Put(PoolPath(p.header), data)], EntryOf(p);
    UploadKeeps(t, c, b, PoolPath(p.header), data);
    KeepsEnd(t, c, b, upload);
    var b1 := Apply(b, upload);
    var existing := LoadState(t, b1);
    if existing.None? {
      KeepsThenNothing(t, c, b, upload);
    } else {
      var all := ReplaceOrAppend(existing.value, e);
      OthersAre(existing.value, e.location);
      PrunedRooted(cfg, all);
      DropKeeps(t, c, cfg, b1, listing, RemovedOf(cfg, all), KeptOf(cfg, all), ts);
      KeepsThen(t, c, b, upload, DropPlan(t, cfg, b1, listing, RemovedOf(cfg, all), KeptOf(cfg, all), ts).steps);
    }
  }

  lemma KeepsThenNothing(t: Tools, c: Client, b: Bucket, x: seq<Step>)
    requires Keeps(t, c, b, x)
    ensures Keeps(t, c, b, x + [])
  {
    assert x + [] == x;
  }

  lemma {:induction false} SplitAre(entries: seq<Entry>, name: string, version: string)
    ensures forall e :: e in Without(entries, name, version) <==> e in entries && !Matches(e, name, version)
    ensures forall e :: e in Matching(entries, name, version) <==> e in entries && Matches(e, name, version)
  {
    if entries != [] {
      var n := |entries| - 1;
      SplitAre(entries[..n], name, version);
      assert entries == entries[..n] + [entries[n]];
    }
  }

  lemma RemoveKeeps(t: Tools, c: Client, cfg: Config, b: Bucket, listing: set<string> -> seq<string>, name: string,
                    version: string, ts: int)
    requires Faithful(t, c) && Safe(t, c, b)
    ensures Keeps(t, c, b, RemovePlan(t, cfg, b, listing, name, version, ts).steps)
  {
    hide Consistent, Apply, Keeps, Faithful, HasPrefix, DropPlan, Without, Matching, LoadState;
    KeepsNothing(t, c, b);
    var existing := LoadState(t, b);
    if existing.Some? {
      var drop, kept := Matching(existing.value, name, version), Without(existing.value, name, version);
      SplitAre(existing.value, name, version);
      DropKeeps(t, c, cfg, b, listing, drop, kept, ts);
    }
  }

  // ----- runs

  datatype Op = AddOp(data: string, ts: int) | RemoveOp(name: string, version: string, ts: int)

  /** One operation, run until so many of its writes are done; settings may change in between. */
  datatype Attempt = Attempt(cfg: Config, listing: set<string> -> seq<string>, op: Op, writes: nat)

  function PlanOf(t: Tools, cfg: Config, b: Bucket, listing: set<string> -> seq<string>, op: Op): Plan {
    match op
    case AddOp(data, ts) =>
      var p := ParseRpm(t, data);
      if p.None? then Plan([], false) else AddPlan(t, cfg, b, listing, p.value, data, ts)
    case RemoveOp(name, version, ts) => RemovePlan(t, cfg, b, listing, name, version, ts)
  }

  function AfterAttempt(t: Tools, b: Bucket, a: Attempt): Bucket {
    var steps := PlanOf(t, a.cfg, b, a.listing, a.op).steps;
    Apply(b, if a.writes <= |steps| then steps[..a.writes] else steps)
  }

  function AfterAttempts(t: Tools, b: Bucket, run: seq<Attempt>): Bucket {
    if run == [] then b else AfterAttempt(t, AfterAttempts(t, b, run[..|run| - 1]), run[|run| - 1])
  }

  /** Packages that are added have no slash in their tags. */
  predicate SafeOp(t: Tools, op: Op) {
    op.AddOp? && ParseRpm(t, op.data).Some? ==> SafeHeader(ParseRpm(t, op.data).value.header)
  }

  lemma OpKeeps(t: Tools, c: Client, cfg: Config, b: Bucket, listing: set<string> -> seq<string>, op: Op)
    requires Faithful(t, c) && Safe(t, c, b) && SafeOp(t, op)
    ensures Keeps(t, c, b, PlanOf(t, cfg, b, listing, op).steps)
  {
    hide Safe, Keeps, Faithful, AddPlan, RemovePlan, SafeHeader, ParseRpm;
    match op
    case AddOp(data, ts) =>
      if ParseRpm(t, data).None? {
        KeepsNothing(t, c, b);
      } else {
        AddKeeps(t, c, cfg, b, listing, ParseRpm(t, data).value, data, ts);
      }
    case RemoveOp(name, version, ts) => RemoveKeeps(t, c, cfg, b, listing, name, version, ts);
  }

  /** After any run of Adds and Removes, each cut off at any point or not at all, the metadata is consistent. */
  lemma {:induction false} CrashSafe(t: Tools, c: Client, b: Bucket, run: seq<Attempt>)
    requires Faithful(t, c) && Safe(t, c, b)
    requires forall a | a in run :: SafeOp(t, a.op)
    ensures Safe(t, c, AfterAttempts(t, b, run))
  {
    hide Safe, Faithful, PlanOf, SafeOp;
    if run != [] {
      var n := |run| - 1;
      assert run[n] in run;
      CrashSafe(t, c, b, run[..n]);
      var x, a := AfterAttempts(t, b, run[..n]), run[n];
      OpKeeps(t, c, a.cfg, x, a.listing, a.op);
      var steps := PlanOf(t, a.cfg, x, a.listing, a.op).steps;
      KeepsEnd(t, c, x, steps);
    }
  }

  /** A repository that is started in an empty bucket. */
  lemma EmptyIsSafe(t: Tools, c: Client)
    ensures Safe(t, c, map[])
  {
  }

  /** What a client finds in a consistent bucket. */
  ghost predicate Fetchable(t: Tools, c: Client, b: Bucket, d: RepomdData) {
    && d.href in b && t.sha256(b[d.href]) == d.checksum && |b[d.href]| == d.size
    && var xml := c.gunzip(b[d.href]);
    xml.Some? && t.sha256(xml.value) == d.openChecksum && |xml.value| == d.openSize
  }

  /** From an empty bucket, whatever is cut off: a repomd.xml that can be fetched names three documents that can be
      fetched too, with the digests and the sizes that it states. */
  lemma RepomdNamesWhatIsThere(t: Tools, c: Client, run: seq<Attempt>)
    requires Faithful(t, c)
    requires forall a | a in run :: SafeOp(t, a.op)
    requires REPOMD_KEY in AfterAttempts(t, map[], run)
    ensures var b := AfterAttempts(t, map[], run);
            var doc := c.parseRepomd(b[REPOMD_KEY]);
            && doc.Some? && |doc.value.data| == 3
            && doc.value.data[0].kind == PRIMARY && doc.value.data[1].kind == FILELISTS &&
               doc.value.data[2].kind == OTHER
            && forall i :: 0 <= i < 3 ==> Fetchable(t, c, b, doc.value.data[i])
  {
    hide AfterAttempts, SafeOp, Faithful, Rooted, Names, Fetchable;
    EmptyIsSafe(t, c);
    CrashSafe(t, c, map[], run);
    var b := AfterAttempts(t, map[], run);
    forall d | Names(t, c, b, d) ensures Fetchable(t, c, b, d) {
      NamesIsFetchable(t, c, b, d);
    }
  }

  lemma NamesIsFetchable(t: Tools, c: Client, b: Bucket, d: RepomdData)
    requires Names(t, c, b, d)
    ensures Fetchable(t, c, b, d)
  {
  }

  /** However an operation of the publisher ends, it is an attempt in this sense. */
  lemma EndsAsAttempt(t: Tools, cfg: Config, listing: set<string> -> seq<string>, op: Op, b0: Bucket, tr0: seq<Step>,
                      b: Bucket, tr: seq<Step>, calls: nat, e: Option<PublishError>) returns (a: Attempt)
    requires Ends(PlanOf(t, cfg, b0, listing, op), b0, tr0, b, tr, calls, e)
    ensures a.cfg == cfg && a.op == op && b == AfterAttempt(t, b0, a)
    ensures e.None? ==> a.writes == |PlanOf(t, cfg, b0, listing, op).steps|
  {
    hide PlanOf, Ends;
    var k := EndsAtPrefix(PlanOf(t, cfg, b0, listing, op), b0, tr0, b, tr, calls, e);
    a := Attempt(cfg, listing, op, k);
  }
}
