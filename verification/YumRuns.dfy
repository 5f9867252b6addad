/**
 What every successful operation keeps: the manifest, the packages in the bucket and the published documents agree.
 */
module YumRuns {
  import opened Wrappers
  import opened Text
  import opened Numbers
  import opened Storage
  import opened Retention
  import opened RetentionLaws
  import opened Yum
  import opened YumKeys
  import opened YumPublisher
  import opened YumSafety
  import opened YumState
  import RpmVersion

  // ----- dividing a list

  lemma {:induction false} SplitDivides(l: seq<Entry>, name: string, version: string)
    ensures multiset(Matching(l, name, version)) + multiset(Without(l, name, version)) == multiset(l)
  {
    hide Matches;
    if l != [] {
      var n := |l| - 1;
      SplitDivides(l[..n], name, version);
      assert l == l[..n] + [l[n]];
      OneMore(l[..n], l[n]);
      OneMore(Matching(l[..n], name, version), l[n]);
      OneMore(Without(l[..n], name, version), l[n]);
    }
  }

  lemma PruneDivides(cfg: Config, all: seq<Entry>)
    requires AllProper(all)
    ensures multiset(RemovedOf(cfg, all)) + multiset(KeptOf(cfg, all)) == multiset(all)
    ensures WithinCap(cfg, KeptOf(cfg, all))
  {
    hide Retained, Removed, Capped, AllProper, CompareByEvr;
    if cfg.keepVersions > 0 {
      ProperOrders(all);
      PruneSplits(all, cfg.keepVersions, GroupKey, CompareByEvr);
      RetainedIsCapped(all, cfg.keepVersions, GroupKey, CompareByEvr);
    }
  }

  /** A part of a list within the cap is within the cap. */
  lemma PartWithinCap(cfg: Config, l: seq<Entry>, x: seq<Entry>, y: seq<Entry>)
    requires WithinCap(cfg, l) && multiset(x) + multiset(y) == multiset(l)
    ensures WithinCap(cfg, y)
  {
    hide Count;
    if cfg.keepVersions > 0 {
      forall g: string ensures Count(y, InGroup<Entry>(GroupKey, g)) <= cfg.keepVersions {
        var p := InGroup<Entry>(GroupKey, g);
        assert multiset(x + y) == multiset(l);
        CountPermuted(x + y, l, p);
        CountConcat(x, y, p);
        assert Count(l, p) <= cfg.keepVersions;
      }
    }
  }

  lemma PartMembers(x: seq<Entry>, y: seq<Entry>, l: seq<Entry>)
    requires multiset(x) + multiset(y) == multiset(l)
    ensures forall e :: e in l <==> e in x || e in y
  {
    forall e ensures e in l <==> e in x || e in y {
      assert e in l <==> e in multiset(l);
      assert e in x <==> e in multiset(x);
      assert e in y <==> e in multiset(y);
    }
  }

  // ----- what the bucket holds, step by step

  lemma {:induction false} OthersAreFewer(l: seq<Entry>, location: string)
    ensures multiset(Others(l, location)) <= multiset(l)
  {
    if l != [] {
      var n := |l| - 1;
      OthersAreFewer(l[..n], location);
      assert l == l[..n] + [l[n]];
      OneMore(l[..n], l[n]);
      OneMore(Others(l[..n], location), l[n]);
    }
  }

  lemma ReplacedUnique(l: seq<Entry>, e: Entry)
    requires Unique(multiset(l))
    ensures Unique(multiset(ReplaceOrAppend(l, e)))
  {
    var others := Others(l, e.location);
    OthersAreFewer(l, e.location);
    OthersAre(l, e.location);
    OneMore(others, e);
    var m := multiset(others);
    assert Unique(m) by {
      assert forall x | x in m :: x in multiset(l) && m[x] <= multiset(l)[x];
    }
    assert forall x | x in m :: x in others;
    assert e !in others;
    assert e !in m;
  }

  /** An upload and the entry that goes with it. */
  lemma UploadHolds(t: Tools, b: Bucket, l: seq<Entry>, p: Package, data: string)
    requires Holds(t, b, l) && p.header.name != "" && ProperEntry(EntryOf(p)) && ParseRpm(t, data) == Some(p)
    ensures Holds(t, b[PoolPath(p.header) := data], ReplaceOrAppend(l, EntryOf(p)))
  {
    hide ProperEntry, PoolPath, ParseRpm, HasPrefix, Unique, Others;
    var e := EntryOf(p);
    var b1, all := b[PoolPath(p.header) := data], ReplaceOrAppend(l, e);
    ReplacedUnique(l, e);
    OthersAre(l, e.location);
    forall x | x in all ensures Stored(t, b1, x) {
      if x != e {
        assert x in l;
      }
    }
    forall k | k in b1 && HasPrefix(k, "Packages/") ensures exists x :: x in all && x.location == k {
      if k == e.location {
        assert e in all;
      } else {
        var x :| x in l && x.location == k;
        assert x in all;
      }
    }
  }

  lemma HoldsProper(t: Tools, b: Bucket, l: seq<Entry>)
    requires Holds(t, b, l)
    ensures AllProper(l)
  {
    hide ProperEntry, PoolPath, ParseRpm, HasPrefix, Unique;
  }

  /** Dropping entries and their files. */
  lemma DropHolds(t: Tools, b: Bucket, all: seq<Entry>, drop: seq<Entry>, keep: seq<Entry>)
    requires Holds(t, b, all) && multiset(drop) + multiset(keep) == multiset(all)
    ensures Holds(t, b - Elements(Locations(drop)), keep)
  {
    hide ProperEntry, PoolPath, ParseRpm, HasPrefix, Unique;
    var gone := Elements(Locations(drop));
    var x := b - gone;
    UniqueParts(multiset(drop), multiset(keep));
    PartMembers(drop, keep, all);
    DroppedLocations(drop);
    forall e | e in keep ensures Stored(t, x, e) {
      assert e in all && e in multiset(keep);
      forall f | f in drop ensures f.location != e.location {
        assert f in multiset(drop);
      }
    }
    forall k | k in x && HasPrefix(k, "Packages/") ensures exists e :: e in keep && e.location == k {
      var e :| e in all && e.location == k;
      assert e !in drop;
    }
  }

  lemma DroppedLocations(drop: seq<Entry>)
    ensures forall k :: k in Elements(Locations(drop)) <==> exists e :: e in drop && e.location == k
  {
    var ks := Locations(drop);
    forall k | k in ks ensures exists e :: e in drop && e.location == k {
      var i :| 0 <= i < |ks| && ks[i] == k;
      assert drop[i] in drop;
    }
    forall e | e in drop ensures e.location in ks {
      var i :| 0 <= i < |drop| && drop[i] == e;
      assert ks[i] == e.location;
    }
  }

  lemma HoldsPermuted(t: Tools, b: Bucket, x: seq<Entry>, y: seq<Entry>)
    requires Holds(t, b, x) && multiset(x) == multiset(y)
    ensures Holds(t, b, y)
  {
    hide Unique, Stored, HasPrefix;
    SameMembers(x, y);
  }

  /** Publishing leaves the packages alone. */
  lemma PublishHolds(t: Tools, cfg: Config, b: Bucket, x: seq<Entry>, l: seq<Entry>, ts: int)
    requires Collisionless(t) && Holds(t, b, x)
    ensures Holds(t, Swept(b) + MetadataObjects(t, cfg, l, ts), x)
  {
    hide Unique, MetadataObjects, IsMetadataFile, ProperEntry, PoolPath, ParseRpm, HasPrefix;
    ObjectsKeys(t, cfg, l, ts);
    var y := Swept(b) + MetadataObjects(t, cfg, l, ts);
    forall k | HasPrefix(k, "Packages/") ensures Same(b, y, k) {
      assert !HasPrefix(k, "repodata/") by {
        if HasPrefix(k, "repodata/") {
          PackagesAreNoMetadata(k, k);
        }
      }
    }
    forall e | e in x ensures Stored(t, y, e) {
      assert Stored(t, b, e);
      InPackages(e);
    }
  }

  lemma InPackages(e: Entry)
    requires ProperEntry(e) && e.location == PoolPath(e.meta.header)
    ensures HasPrefix(e.location, "Packages/")
  {
    hide PoolPath, HasPrefix;
    PoolPathIs(e.meta.header);
  }

  lemma PublishDocuments(t: Tools, cfg: Config, b: Bucket, l: seq<Entry>, ts: int)
    requires Collisionless(t) && InOrder(l)
    ensures Documented(t, Swept(b) + MetadataObjects(t, cfg, l, ts), l, ts)
  {
    hide IsMetadataFile, InOrder, Compressed, RepomdText, HasPrefix, Href, Signature;
    ObjectsKeys(t, cfg, l, ts);
    HrefsDiffer(t, l);
    FixedKeys();
    HrefIs(t.sha256(Compressed(t, PRIMARY, l)), PRIMARY);
    HrefIs(t.sha256(Compressed(t, FILELISTS, l)), FILELISTS);
    HrefIs(t.sha256(Compressed(t, OTHER, l)), OTHER);
    var objects, y := MetadataObjects(t, cfg, l, ts), Swept(b) + MetadataObjects(t, cfg, l, ts);
    forall k | k in y && HasPrefix(k, "repodata/") && IsMetadataFile(k) ensures k in Hrefs(t, l) {
      assert k !in Swept(b);
      assert k in objects;
    }
  }

  // ----- operations

  ghost function Settled(t: Tools, cfg: Config, b: Bucket, drop: seq<Entry>, keep: seq<Entry>, ts: int): Bucket {
    Swept(b - Elements(Locations(drop))) + MetadataObjects(t, cfg, t.sort(keep), ts)
  }

  lemma DropIs(t: Tools, cfg: Config, b: Bucket, listing: set<string> -> seq<string>, drop: seq<Entry>,
               keep: seq<Entry>, ts: int)
    requires Collisionless(t) && Enumerates(listing) && CanSign(cfg, RepomdText(t, t.sort(keep), ts))
    ensures DropPlan(t, cfg, b, listing, drop, keep, ts).complete
    ensures Apply(b, DropPlan(t, cfg, b, listing, drop, keep, ts).steps) == Settled(t, cfg, b, drop, keep, ts)
  {
    hide Apply, RepomdText, CanSign, PublishPlan, Swept, MetadataObjects, Locations;
    var deletes := Deletes(Locations(drop));
    ApplyDeletes(b, Locations(drop));
    PublishIs(t, cfg, Apply(b, deletes), listing, keep, ts);
    ApplyConcat(b, deletes, PublishPlan(t, cfg, Apply(b, deletes), listing, keep, ts).steps);
  }

  lemma SettledRepresents(t: Tools, c: Client, cfg: Config, b: Bucket, all: seq<Entry>, drop: seq<Entry>,
                          keep: seq<Entry>, ts: int)
    requires Setting(t, c) && Holds(t, b, all) && multiset(drop) + multiset(keep) == multiset(all) &&
             WithinCap(cfg, keep)
    ensures Represents(t, cfg, Settled(t, cfg, b, drop, keep, ts), t.sort(keep))
  {
    hide Holds, Documented, Swept, MetadataObjects, Locations, InOrder, Faithful, Capped, AllProper;
    FaithfulIs(t, c);
    var l, x := t.sort(keep), b - Elements(Locations(drop));
    assert multiset(l) == multiset(keep);
    DropHolds(t, b, all, drop, keep);
    HoldsProper(t, x, keep);
    HoldsPermuted(t, x, keep, l);
    PublishHolds(t, cfg, x, l, l, ts);
    PublishDocuments(t, cfg, x, l, ts);
    if cfg.keepVersions > 0 {
      CappedPermuted(keep, l, cfg.keepVersions);
    }
  }

  /** When an operation's plan is complete, its repomd.xml could be signed. */
  lemma CompleteSigns(t: Tools, cfg: Config, b: Bucket, listing: set<string> -> seq<string>, drop: seq<Entry>,
                      keep: seq<Entry>, ts: int)
    requires DropPlan(t, cfg, b, listing, drop, keep, ts).complete
    ensures CanSign(cfg, RepomdText(t, t.sort(keep), ts))
  {
    hide Apply, RepomdText, MetadataSteps, CleanupSteps, Deletes;
    SignPlanIs(cfg, RepomdText(t, t.sort(keep), ts));
  }

  function AddTo(t: Tools, cfg: Config, l: seq<Entry>, e: Entry): seq<Entry> {
    t.sort(KeptOf(cfg, ReplaceOrAppend(l, e)))
  }

  /** What an upload leaves to be read. */
  lemma StateAfterUpload(t: Tools, b: Bucket, e: Entry, data: string)
    requires ProperEntry(e) && e.location == PoolPath(e.meta.header)
    ensures LoadState(t, b[e.location := data]) == LoadState(t, b)
  {
    hide ProperEntry, PoolPath, HasPrefix, IsMetadataFile;
    InPackages(e);
    FixedKeys();
    PackagesAreNoMetadata(e.location, STATE_KEY);
  }

  lemma AddIs(t: Tools, cfg: Config, b: Bucket, listing: set<string> -> seq<string>, l: seq<Entry>, p: Package,
              data: string, ts: int)
    requires LoadState(t, b) == Some(l)
    requires p.header.name != "" && ProperEntry(EntryOf(p))
    ensures var all := ReplaceOrAppend(l, EntryOf(p)); var b1 := b[PoolPath(p.header) := data];
            AddPlan(t, cfg, b, listing, p, data, ts) ==
            Then(Plan([Put(PoolPath(p.header), data)], true),
                 DropPlan(t, cfg, b1, listing, RemovedOf(cfg, all), KeptOf(cfg, all), ts))
  {
    hide ProperEntry, PoolPath, DropPlan, LoadState, Others, Retained, Removed;
    StateAfterUpload(t, b, EntryOf(p), data);
    ApplyOne(b, Put(PoolPath(p.header), data));
  }

  /** With a manifest that cannot be read an Add uploads its package and does nothing else, and a Remove nothing. */
  lemma UnreadableManifest(t: Tools, cfg: Config, b: Bucket, listing: set<string> -> seq<string>, p: Package,
                           data: string, name: string, version: string, ts: int)
    requires p.header.name != "" && ProperEntry(EntryOf(p)) && "repodata/repohost-state.json" in b
    requires t.decodeState(b["repodata/repohost-state.json"]).None?
    ensures AddPlan(t, cfg, b, listing, p, data, ts) == Plan([Put(PoolPath(p.header), data)], false)
    ensures RemovePlan(t, cfg, b, listing, name, version, ts) == Plan([], false)
  {
    hide ProperEntry, PoolPath, DropPlan;
    StateAfterUpload(t, b, EntryOf(p), data);
    ApplyOne(b, Put(PoolPath(p.header), data));
    var upload := [Put(PoolPath(p.header), data)];
    assert upload + [] == upload;
  }

  /** Where a successful Add ends. */
  lemma AddSettles(t: Tools, cfg: Config, b: Bucket, listing: set<string> -> seq<string>, l: seq<Entry>, p: Package,
                   data: string, ts: int)
    requires Collisionless(t) && Enumerates(listing) && LoadState(t, b) == Some(l)
    requires p.header.name != "" && ProperEntry(EntryOf(p))
    ensures var all := ReplaceOrAppend(l, EntryOf(p)); var plan := AddPlan(t, cfg, b, listing, p, data, ts);
            && (plan.complete <==> CanSign(cfg, RepomdText(t, AddTo(t, cfg, l, EntryOf(p)), ts)))
            && (plan.complete ==>
                  Apply(b, plan.steps) == Settled(t, cfg, b[PoolPath(p.header) := data], RemovedOf(cfg, all),
                                                  KeptOf(cfg, all), ts))
  {
    hide LoadState, ProperEntry, PoolPath, DropPlan, Others, Retained, Removed, Collisionless, Apply, Settled,
      RepomdText, CanSign, AddPlan;
    var all := ReplaceOrAppend(l, EntryOf(p));
    var removed, kept := RemovedOf(cfg, all), KeptOf(cfg, all);
    var upload := Put(PoolPath(p.header), data);
    var b1 := b[PoolPath(p.header) := data];
    AddIs(t, cfg, b, listing, l, p, data, ts);
    var rest := DropPlan(t, cfg, b1, listing, removed, kept, ts);
    if rest.complete {
      CompleteSigns(t, cfg, b1, listing, removed, kept, ts);
    }
    if CanSign(cfg, RepomdText(t, t.sort(kept), ts)) {
      DropIs(t, cfg, b1, listing, removed, kept, ts);
      ApplyOne(b, upload);
      ApplyConcat(b, [upload], rest.steps);
    }
  }

  lemma AddRepresents(t: Tools, c: Client, cfg: Config, b: Bucket, listing: set<string> -> seq<string>, l: seq<Entry>,
                      p: Package, data: string, ts: int)
    requires Setting(t, c) && Enumerates(listing) && Represents(t, cfg, b, l)
    requires p.header.name != "" && ProperEntry(EntryOf(p)) && ParseRpm(t, data) == Some(p)
    requires AddPlan(t, cfg, b, listing, p, data, ts).complete
    ensures Represents(t, cfg, Apply(b, AddPlan(t, cfg, b, listing, p, data, ts).steps), AddTo(t, cfg, l, EntryOf(p)))
  {
    hide Holds, Documented, Blank, ProperEntry, PoolPath, ParseRpm, Retained, Removed, Others, Faithful, Apply,
      Settled, RepomdText, CanSign, AddPlan;
    var all := ReplaceOrAppend(l, EntryOf(p));
    var b1 := b[PoolPath(p.header) := data];
    FaithfulIs(t, c);
    StateIs(t, c, cfg, b, l);
    AddSettles(t, cfg, b, listing, l, p, data, ts);
    UploadHolds(t, b, l, p, data);
    HoldsProper(t, b1, all);
    PruneDivides(cfg, all);
    SettledRepresents(t, c, cfg, b1, all, RemovedOf(cfg, all), KeptOf(cfg, all), ts);
  }

  function RemoveFrom(t: Tools, l: seq<Entry>, name: string, version: string): seq<Entry> {
    if Matching(l, name, version) == [] then l else t.sort(Without(l, name, version))
  }

  lemma RemoveRepresents(t: Tools, c: Client, cfg: Config, b: Bucket, listing: set<string> -> seq<string>,
                         l: seq<Entry>, name: string, version: string, ts: int)
    requires Setting(t, c) && Enumerates(listing) && Represents(t, cfg, b, l)
    requires RemovePlan(t, cfg, b, listing, name, version, ts).complete
    ensures Represents(t, cfg, Apply(b, RemovePlan(t, cfg, b, listing, name, version, ts).steps),
                       RemoveFrom(t, l, name, version))
    ensures RemoveCount(t, b, name, version) == |Matching(l, name, version)|
  {
    hide Holds, Documented, Blank, Matching, Without, Faithful, Apply, Settled, RepomdText, CanSign, DropPlan,
      LoadState, Capped;
    StateIs(t, c, cfg, b, l);
    FaithfulIs(t, c);
    var drop, kept := Matching(l, name, version), Without(l, name, version);
    if drop == [] {
      ApplyOne(b, Delete(""));
    } else {
      CompleteSigns(t, cfg, b, listing, drop, kept, ts);
      DropIs(t, cfg, b, listing, drop, kept, ts);
      SplitDivides(l, name, version);
      PartWithinCap(cfg, l, drop, kept);
      SettledRepresents(t, c, cfg, b, l, drop, kept, ts);
    }
  }

  // ----- runs

  function Run(t: Tools, cfg: Config, listing: set<string> -> seq<string>, ops: seq<Op>): Bucket {
    if ops == [] then map[]
    else
      var b := Run(t, cfg, listing, ops[..|ops| - 1]);
      Apply(b, PlanOf(t, cfg, b, listing, ops[|ops| - 1]).steps)
  }

  function EntriesAfter(t: Tools, cfg: Config, l: seq<Entry>, op: Op): seq<Entry> {
    match op
    case AddOp(data, ts) =>
      var p := ParseRpm(t, data);
      if p.None? then l else AddTo(t, cfg, l, EntryOf(p.value))
    case RemoveOp(name, version, ts) => RemoveFrom(t, l, name, version)
  }

  /** The manifest that a run describes. */
  function RunEntries(t: Tools, cfg: Config, ops: seq<Op>): seq<Entry> {
    if ops == [] then [] else EntriesAfter(t, cfg, RunEntries(t, cfg, ops[..|ops| - 1]), ops[|ops| - 1])
  }

  /** Every operation of the run succeeds, or fails before it has written anything. */
  predicate Succeeds(t: Tools, cfg: Config, listing: set<string> -> seq<string>, ops: seq<Op>) {
    ops == [] ||
    (var before := ops[..|ops| - 1];
     var plan := PlanOf(t, cfg, Run(t, cfg, listing, before), listing, ops[|ops| - 1]);
     Succeeds(t, cfg, listing, before) && (plan.complete || plan.steps == []))
  }

  /** The hypotheses on what a run publishes. */
  predicate GoodOp(t: Tools, op: Op) {
    op.AddOp? && ParseRpm(t, op.data).Some? ==> ProperEntry(EntryOf(ParseRpm(t, op.data).value))
  }

  lemma RemoveWrites(t: Tools, c: Client, cfg: Config, b: Bucket, listing: set<string> -> seq<string>, l: seq<Entry>,
                     name: string, version: string, ts: int)
    requires Setting(t, c) && Represents(t, cfg, b, l)
    requires RemovePlan(t, cfg, b, listing, name, version, ts).steps == []
    ensures RemovePlan(t, cfg, b, listing, name, version, ts).complete
  {
    hide Represents, Matching, Without, LoadState, Faithful, PublishPlan, Apply;
    StateIs(t, c, cfg, b, l);
    assert Matching(l, name, version) != [] ==> |Deletes(Locations(Matching(l, name, version)))| > 0;
  }

  lemma OpRepresents(t: Tools, c: Client, cfg: Config, b: Bucket, listing: set<string> -> seq<string>, l: seq<Entry>,
                     op: Op)
    requires Setting(t, c) && Enumerates(listing) && Represents(t, cfg, b, l) && GoodOp(t, op)
    requires var plan := PlanOf(t, cfg, b, listing, op); plan.complete || plan.steps == []
    ensures Represents(t, cfg, Apply(b, PlanOf(t, cfg, b, listing, op).steps), EntriesAfter(t, cfg, l, op))
  {
    hide Represents, AddPlan, RemovePlan, ParseRpm, ProperEntry, AddTo, RemoveFrom, Faithful, Apply;
    match op
    case AddOp(data, ts) =>
      var p := ParseRpm(t, data);
      if p.None? {
        ApplyOne(b, Delete(""));
      } else {
        assert AddPlan(t, cfg, b, listing, p.value, data, ts).steps != [] by {
          AddWrites(t, cfg, b, listing, p.value, data, ts);
        }
        AddRepresents(t, c, cfg, b, listing, l, p.value, data, ts);
      }
    case RemoveOp(name, version, ts) =>
      if RemovePlan(t, cfg, b, listing, name, version, ts).steps == [] {
        RemoveWrites(t, c, cfg, b, listing, l, name, version, ts);
      }
      RemoveRepresents(t, c, cfg, b, listing, l, name, version, ts);
  }

  lemma AddWrites(t: Tools, cfg: Config, b: Bucket, listing: set<string> -> seq<string>, p: Package, data: string,
                  ts: int)
    requires p.header.name != ""
    ensures AddPlan(t, cfg, b, listing, p, data, ts).steps != []
  {
    hide UpdatePlan, PoolPath;
  }

  lemma EmptyRepresents(t: Tools, cfg: Config)
    ensures Represents(t, cfg, map[], [])
  {
    hide Documented;
    assert forall g: string :: Count<Entry>([], InGroup<Entry>(GroupKey, g)) == 0;
    assert Holds(t, map[], []);
  }

  /** After every run from an empty bucket, the bucket holds exactly the repository the run describes. */
  lemma {:induction false} RunRepresents(t: Tools, c: Client, cfg: Config, listing: set<string> -> seq<string>,
                                         ops: seq<Op>)
    requires Setting(t, c) && Enumerates(listing) && Succeeds(t, cfg, listing, ops)
    requires forall op | op in ops :: GoodOp(t, op)
    ensures Represents(t, cfg, Run(t, cfg, listing, ops), RunEntries(t, cfg, ops))
  {
    hide Represents, PlanOf, EntriesAfter, GoodOp, Faithful, Apply;
    if ops == [] {
      EmptyRepresents(t, cfg);
    } else {
      var n := |ops| - 1;
      assert ops[n] in ops;
      RunRepresents(t, c, cfg, listing, ops[..n]);
      OpRepresents(t, c, cfg, Run(t, cfg, listing, ops[..n]), listing, RunEntries(t, cfg, ops[..n]), ops[n]);
    }
  }

  /** In such a bucket the publisher may be asked for the next Add: the versions in its manifest can be ordered. */
  lemma AddAllowed(t: Tools, c: Client, cfg: Config, b: Bucket, l: seq<Entry>, p: Package, data: string)
    requires Setting(t, c) && Represents(t, cfg, b, l)
    requires p.header.name != "" && ProperEntry(EntryOf(p))
    ensures OrderedState(t, b[PoolPath(p.header) := data], EntryOf(p))
  {
    hide Documented, Blank, ProperEntry, PoolPath, LoadState, AllNear, Faithful, WithinCap, EvrOf, RpmVersion.SplitEVR;
    StateIs(t, c, cfg, b, l);
    StateAfterUpload(t, b, EntryOf(p), data);
    HoldsProper(t, b, l);
    var all := l + [EntryOf(p)];
    ProperAreNear(all);
    assert SplitsOf(all) == SplitsOf(l) + SplitsOf([EntryOf(p)]);
  }

  // ----- what that means

  /** The published documents are those of the manifest, in order. */
  ghost predicate PublishedAs(t: Tools, c: Client, b: Bucket, l: seq<Entry>) {
    && InOrder(l)
    && (exists ts :: REPOMD_KEY in b && c.parseRepomd(b[REPOMD_KEY]) == Some(RepomdOf(t, l, ts)))
    && (forall kind | kind in {PRIMARY, FILELISTS, OTHER} ::
          HrefOf(t, kind, l) in b && c.gunzip(b[HrefOf(t, kind, l)]) == Some(t.document(kind, l)))
  }

  lemma DocumentedIsPublished(t: Tools, c: Client, b: Bucket, l: seq<Entry>, ts: int)
    requires Faithful(t, c) && Documented(t, b, l, ts)
    ensures PublishedAs(t, c, b, l)
  {
    hide InOrder, Href, RepomdOf, HasPrefix, IsMetadataFile;
    assert c.parseRepomd(b[REPOMD_KEY]) == Some(RepomdOf(t, l, ts));
  }

  /** In every state reachable by successful Adds and Removes, manifest, packages and documents agree: entries and
      package files are in bijection, every file is the one its entry was read from, no name and architecture has
      more than keepVersions entries, and the documents list the entries of the manifest in order. */
  lemma ReachableAgrees(t: Tools, c: Client, cfg: Config, listing: set<string> -> seq<string>, ops: seq<Op>)
    requires Setting(t, c) && Enumerates(listing) && Succeeds(t, cfg, listing, ops)
    requires forall op | op in ops :: GoodOp(t, op)
    ensures var b, l := Run(t, cfg, listing, ops), RunEntries(t, cfg, ops);
            && LoadState(t, b) == Some(l)
            && (forall e | e in l ::
                  e.location in b && t.sha256(b[e.location]) == e.meta.sha256 && |b[e.location]| == e.meta.size)
            && (forall i, j :: 0 <= i < j < |l| ==> l[i].location != l[j].location)
            && (forall k | k in b && HasPrefix(k, "Packages/") :: exists e :: e in l && e.location == k)
            && (cfg.keepVersions > 0 ==> forall g: string :: Count(l, InGroup(GroupKey, g)) <= cfg.keepVersions)
            && (PublishedAs(t, c, b, l) || (l == [] && REPOMD_KEY !in b))
  {
    hide Run, RunEntries, Succeeds, GoodOp, Faithful, PublishedAs, Documented, Unique, ProperEntry, HasPrefix,
      PoolPath, LoadState, Count;
    RunRepresents(t, c, cfg, listing, ops);
    var b, l := Run(t, cfg, listing, ops), RunEntries(t, cfg, ops);
    StateIs(t, c, cfg, b, l);
    forall i, j | 0 <= i < j < |l| ensures l[i].location != l[j].location {
      UniqueIndices(l, i, j);
    }
    if ts :| Documented(t, b, l, ts) {
      DocumentedIsPublished(t, c, b, l, ts);
    }
  }
}
