/**
 Pruning after every Add is pruning once at the end: of what the last Remove left and what was added since, a manifest
 holds the newest builds, as far as ties leave them an order and no epoch is lowered. YumEpochs is about lowered epochs.
 */
module YumRetention {
  import opened Wrappers
  import opened Text
  import opened Numbers
  import opened Storage
  import opened Retention
  import opened RetentionLaws
  import opened Ranking
  import opened Yum
  import opened YumKeys
  import opened YumPublisher
  import opened YumSafety
  import opened YumState
  import opened YumRuns
  import Arrivals
  import RpmVersion

  /** What is listed: a name and an architecture, at an epoch, version and release. */
  datatype Identity = Identity(name: string, architecture: string, evr: RpmVersion.EVR)

  function IdentityOf(e: Entry): Identity {
    Identity(e.meta.header.name, e.meta.header.architecture, Triple(e))
  }

  function IdentityKey(x: Identity): string {
    x.name + ['\0'] + x.architecture
  }

  function CompareIdentities(x: Identity, y: Identity): int {
    RpmVersion.CompareVersions(RpmVersion.PrintEVR(x.evr), RpmVersion.PrintEVR(y.evr))
  }

  /** The part of an identity that the file name tells: all but the epoch. */
  datatype File = File(name: string, architecture: string, version: string, release: string)

  function FileOf(x: Identity): File {
    File(x.name, x.architecture, x.evr.version, x.evr.release)
  }

  predicate Proper(x: Identity) {
    RpmVersion.ProperEpoch(x.evr) && '-' !in x.evr.version
  }

  ghost predicate AllAreProper(s: set<Identity>) {
    forall x | x in s :: Proper(x)
  }

  /** Builds of one name and architecture never compare as equal. */
  ghost predicate Untied(s: set<Identity>) {
    forall x, y | x in s && y in s && x != y && IdentityKey(x) == IdentityKey(y) :: CompareIdentities(x, y) != 0
  }

  /** A build added again keeps its epoch. */
  ghost predicate EpochsKept(s: set<Identity>) {
    forall x, y | x in s && y in s && FileOf(x) == FileOf(y) :: x == y
  }

  lemma IdentityLaws(x: Identity, y: Identity, z: Identity)
    requires Proper(x) && Proper(y) && Proper(z)
    ensures CompareIdentities(x, y) == -CompareIdentities(y, x) && CompareIdentities(x, x) == 0
    ensures CompareIdentities(x, y) <= 0 && CompareIdentities(y, z) <= 0 ==> CompareIdentities(x, z) <= 0
    ensures CompareIdentities(x, y) > 0 && CompareIdentities(y, z) > 0 ==> CompareIdentities(x, z) > 0
  {
    hide RpmVersion.PrintEVR, RpmVersion.CompareEVR, RpmVersion.CompareVersions;
    RpmVersion.ComparePrinted(x.evr, y.evr);
    RpmVersion.ComparePrinted(y.evr, x.evr);
    RpmVersion.ComparePrinted(y.evr, z.evr);
    RpmVersion.ComparePrinted(z.evr, y.evr);
    RpmVersion.ComparePrinted(x.evr, z.evr);
    RpmVersion.ComparePrinted(z.evr, x.evr);
    RpmVersion.ComparePrinted(x.evr, x.evr);
    RpmVersion.ProperIsNear(x.evr, y.evr);
    RpmVersion.ProperIsNear(y.evr, z.evr);
    RpmVersion.ProperIsNear(x.evr, z.evr);
    RpmVersion.CompareAntisymmetric(x.evr, y.evr);
    RpmVersion.CompareAntisymmetric(y.evr, z.evr);
    RpmVersion.CompareAntisymmetric(x.evr, z.evr);
    RpmVersion.CompareAntisymmetric(x.evr, x.evr);
    if RpmVersion.CompareEVR(x.evr, y.evr) <= 0 && RpmVersion.CompareEVR(y.evr, z.evr) <= 0 {
      RpmVersion.CompareTransitive(x.evr, y.evr, z.evr);
    }
    if && RpmVersion.CompareEVR(x.evr, y.evr) > 0 && RpmVersion.CompareEVR(y.evr, z.evr) > 0
       && RpmVersion.CompareEVR(x.evr, z.evr) <= 0
    {
      RpmVersion.CompareTransitive(x.evr, z.evr, y.evr);
    }
  }

  lemma ProperOrder(s: set<Identity>)
    requires AllAreProper(s)
    ensures Arrivals.OrdersSet(s, CompareIdentities)
    ensures StrictOrder(s, Newer(IdentityKey, CompareIdentities))
  {
    hide RpmVersion.PrintEVR, RpmVersion.CompareVersions, IdentityKey, Proper;
    forall x, y | x in s && y in s
      ensures CompareIdentities(x, y) < 0 <==> CompareIdentities(y, x) > 0
      ensures CompareIdentities(x, x) == 0
    {
      IdentityLaws(x, y, y);
    }
    forall x, y, z | x in s && y in s && z in s
      ensures CompareIdentities(x, y) <= 0 && CompareIdentities(y, z) <= 0 ==> CompareIdentities(x, z) <= 0
      ensures CompareIdentities(x, y) > 0 && CompareIdentities(y, z) > 0 ==> CompareIdentities(x, z) > 0
    {
      IdentityLaws(x, y, z);
    }
  }

  ghost function Identities(l: seq<Entry>): set<Identity> {
    Elements(Map(IdentityOf, l))
  }

  lemma IdentitiesAre(l: seq<Entry>)
    ensures Identities(l) == set e | e in l :: IdentityOf(e)
  {
    hide IdentityOf;
    var m := Map(IdentityOf, l);
    forall e | e in l ensures IdentityOf(e) in m {
      var i :| 0 <= i < |l| && l[i] == e;
      assert m[i] == IdentityOf(e);
    }
    forall x | x in m ensures exists e :: e in l && x == IdentityOf(e) {
      var i :| 0 <= i < |m| && m[i] == x;
      assert l[i] in l;
    }
  }

  // ----- manifests

  /** What a manifest is known to be, whatever the bucket. */
  ghost predicate Listable(l: seq<Entry>) {
    Unique(multiset(l)) && forall e | e in l :: ProperEntry(e) && e.location == PoolPath(e.meta.header)
  }

  lemma ReplacedListable(l: seq<Entry>, e: Entry)
    requires Listable(l) && ProperEntry(e) && e.location == PoolPath(e.meta.header)
    ensures Listable(ReplaceOrAppend(l, e)) && AllProper(ReplaceOrAppend(l, e))
  {
    hide ProperEntry, PoolPath, Unique, Others;
    ReplacedUnique(l, e);
    OthersAre(l, e.location);
  }

  lemma PartListable(l: seq<Entry>, x: seq<Entry>, y: seq<Entry>)
    requires Listable(l) && multiset(x) + multiset(y) == multiset(l)
    ensures Listable(y)
  {
    hide ProperEntry, PoolPath, Unique;
    UniqueParts(multiset(x), multiset(y));
    PartMembers(x, y, l);
  }

  lemma PermutedListable(x: seq<Entry>, y: seq<Entry>)
    requires Listable(x) && multiset(x) == multiset(y)
    ensures Listable(y)
  {
    hide ProperEntry, PoolPath, Unique;
    SameMembers(x, y);
  }

  lemma AddListable(t: Tools, c: Client, cfg: Config, l: seq<Entry>, e: Entry)
    requires Setting(t, c) && Listable(l) && ProperEntry(e) && e.location == PoolPath(e.meta.header)
    ensures Listable(AddTo(t, cfg, l, e))
  {
    hide Listable, ProperEntry, PoolPath, KeptOf, RemovedOf, ReplaceOrAppend, Faithful;
    FaithfulIs(t, c);
    var all := ReplaceOrAppend(l, e);
    ReplacedListable(l, e);
    PruneDivides(cfg, all);
    PartListable(all, RemovedOf(cfg, all), KeptOf(cfg, all));
    PermutedListable(KeptOf(cfg, all), AddTo(t, cfg, l, e));
  }

  lemma RemoveListable(t: Tools, c: Client, l: seq<Entry>, name: string, version: string)
    requires Setting(t, c) && Listable(l)
    ensures Listable(RemoveFrom(t, l, name, version))
  {
    hide Listable, Matching, Without, Faithful;
    FaithfulIs(t, c);
    SplitDivides(l, name, version);
    PartListable(l, Matching(l, name, version), Without(l, name, version));
    if Matching(l, name, version) != [] {
      PermutedListable(Without(l, name, version), RemoveFrom(t, l, name, version));
    }
  }

  ghost predicate GoodOps(t: Tools, ops: seq<Op>) {
    forall op | op in ops :: GoodOp(t, op)
  }

  lemma GoodFront(t: Tools, ops: seq<Op>)
    requires GoodOps(t, ops) && ops != []
    ensures GoodOps(t, ops[..|ops| - 1]) && GoodOp(t, ops[|ops| - 1])
  {
    hide GoodOp;
    assert ops[|ops| - 1] in ops;
  }

  lemma EmptyListable()
    ensures Listable([])
  {
  }

  lemma {:induction false} RunListable(t: Tools, c: Client, cfg: Config, ops: seq<Op>)
    requires Setting(t, c) && GoodOps(t, ops)
    ensures Listable(RunEntries(t, cfg, ops))
  {
    hide Setting, GoodOps, Listable, AddTo, RemoveFrom, ParseRpm, ProperEntry, PoolPath;
    if ops == [] {
      EmptyListable();
    } else {
      var n := |ops| - 1;
      GoodFront(t, ops);
      RunListable(t, c, cfg, ops[..n]);
      var before := RunEntries(t, cfg, ops[..n]);
      match ops[n]
      case AddOp(data, ts) =>
        if ParseRpm(t, data).Some? {
          AddListable(t, c, cfg, before, EntryOf(ParseRpm(t, data).value));
        }
      case RemoveOp(name, version, ts) => RemoveListable(t, c, before, name, version);
    }
  }

  // ----- what has been added

  predicate Adds(t: Tools, op: Op) {
    op.AddOp? && ParseRpm(t, op.data).Some?
  }

  function Added(t: Tools, op: Op): Entry
    requires Adds(t, op)
  {
    EntryOf(ParseRpm(t, op.data).value)
  }

  /** What an operation brings to the manifest. */
  function Brings(t: Tools): Op -> Option<Identity> {
    (op: Op) => if Adds(t, op) then Some(IdentityOf(Added(t, op))) else None
  }

  /** Everything that a run ever added. */
  ghost function EverAdded(t: Tools, ops: seq<Op>): set<Identity> {
    set op | op in ops && Adds(t, op) :: IdentityOf(Added(t, op))
  }

  /** What a run last added under a location. */
  function LastAdded(t: Tools, ops: seq<Op>, location: string): Option<string> {
    if ops == [] then None
    else
      var op := ops[|ops| - 1];
      if Adds(t, op) && Added(t, op).location == location then Some(op.data)
      else LastAdded(t, ops[..|ops| - 1], location)
  }

  lemma EverAddedStep(t: Tools, ops: seq<Op>)
    requires ops != []
    ensures var n := |ops| - 1;
            EverAdded(t, ops) ==
            if Adds(t, ops[n]) then EverAdded(t, ops[..n]) + {IdentityOf(Added(t, ops[n]))} else EverAdded(t, ops[..n])
  {
    hide IdentityOf, ParseRpm, PoolPath;
    var n := |ops| - 1;
    assert forall op :: op in ops <==> op in ops[..n] || op == ops[n];
  }

  ghost predicate OnlyAdds(t: Tools, ops: seq<Op>) {
    forall op | op in ops :: op.AddOp?
  }

  lemma AddedIsProper(t: Tools, op: Op)
    requires Adds(t, op) && GoodOp(t, op)
    ensures ProperEntry(Added(t, op)) && Added(t, op).location == PoolPath(Added(t, op).meta.header)
  {
    hide ProperEntry, PoolPath, ParseRpm;
  }

  lemma EntriesStep(t: Tools, cfg: Config, ops: seq<Op>)
    requires ops != [] && ops[|ops| - 1].AddOp?
    ensures var n := |ops| - 1; var before := RunEntries(t, cfg, ops[..n]);
            RunEntries(t, cfg, ops) == if Adds(t, ops[n]) then AddTo(t, cfg, before, Added(t, ops[n])) else before
  {
    hide AddTo, ParseRpm, PoolPath;
  }

  lemma SameLocation(e: Entry, f: Entry)
    requires ProperEntry(e) && e.location == PoolPath(e.meta.header)
    requires ProperEntry(f) && f.location == PoolPath(f.meta.header)
    ensures e.location == f.location <==> FileOf(IdentityOf(e)) == FileOf(IdentityOf(f))
  {
    hide PoolPath, GoodHeader;
    PoolPathInjective(e.meta.header, f.meta.header);
  }

  lemma ProperIdentity(e: Entry)
    requires ProperEntry(e)
    ensures Proper(IdentityOf(e))
  {
    hide RpmVersion.SplitEVR, RpmVersion.PrintEVR;
  }

  lemma EverAddedProper(t: Tools, ops: seq<Op>)
    requires GoodOps(t, ops)
    ensures AllAreProper(EverAdded(t, ops))
  {
    hide ProperEntry, PoolPath, IdentityOf, Proper, ParseRpm;
    forall op | op in ops && Adds(t, op) ensures Proper(IdentityOf(Added(t, op))) {
      assert GoodOp(t, op);
      ProperIdentity(Added(t, op));
    }
  }

  lemma SortedIdentities(t: Tools, l: seq<Entry>)
    requires multiset(t.sort(l)) == multiset(l)
    ensures Identities(t.sort(l)) == Identities(l)
  {
    hide Identities, IdentityOf;
    SameMembers(t.sort(l), l);
    IdentitiesAre(l);
    IdentitiesAre(t.sort(l));
  }

  // ----- what stands

  /** What the last Remove left in the manifest, and what was added since, each build as it was added last. */
  ghost function Standing(t: Tools, cfg: Config, ops: seq<Op>): set<Identity> {
    if ops == [] then {}
    else
      var before, op := Standing(t, cfg, ops[..|ops| - 1]), ops[|ops| - 1];
      if op.RemoveOp? then Identities(RunEntries(t, cfg, ops))
      else if Adds(t, op) then Arrive(before, FileOf, IdentityOf(Added(t, op)))
      else before
  }

  /** A build that is added again while it stands is not given a lower epoch. */
  ghost predicate NeverLowered(t: Tools, cfg: Config, ops: seq<Op>) {
    ops == [] ||
    var front, op := ops[..|ops| - 1], ops[|ops| - 1];
    && NeverLowered(t, cfg, front)
    && (Adds(t, op) ==> Raises(Standing(t, cfg, front), IdentityOf(Added(t, op))))
  }

  ghost predicate Raises(s: set<Identity>, x: Identity) {
    forall w | w in s && FileOf(w) == FileOf(x) :: w.evr.epoch <= x.evr.epoch
  }

  /** Builds of one file are as new as their epochs say. */
  lemma EpochDecides(w: Identity, x: Identity)
    requires Proper(w) && Proper(x) && FileOf(w) == FileOf(x)
    ensures IdentityKey(w) == IdentityKey(x) && (CompareIdentities(x, w) >= 0 <==> w.evr.epoch <= x.evr.epoch)
  {
    hide RpmVersion.PrintEVR, RpmVersion.CompareVersions, RpmVersion.ComponentOrder;
    RpmVersion.ProperIsNear(x.evr, w.evr);
    RpmVersion.ComparePrinted(x.evr, w.evr);
    RpmVersion.CompareIsTrueOrderExact(x.evr, w.evr);
    RpmVersion.ComponentOrderZero(x.evr.version, w.evr.version);
    RpmVersion.ComponentOrderZero(x.evr.release, w.evr.release);
  }

  lemma RaisesRises(s: set<Identity>, x: Identity)
    requires AllAreProper(s) && Proper(x) && Raises(s, x)
    ensures Arrivals.Rises(s, FileOf, IdentityKey, CompareIdentities, x)
  {
    hide Proper, IdentityKey, CompareIdentities, FileOf;
    forall w | w in s && FileOf(w) == FileOf(x)
      ensures IdentityKey(w) == IdentityKey(x) && CompareIdentities(x, w) >= 0
    {
      EpochDecides(w, x);
    }
  }

  lemma KeptIsSubset(cfg: Config, all: seq<Entry>)
    ensures forall e | e in KeptOf(cfg, all) :: e in all
  {
    hide Retained, CompareByEvr;
    forall e | e in KeptOf(cfg, all) ensures e in all {
      RetainedMember(all, cfg.keepVersions, GroupKey, CompareByEvr, e);
    }
  }

  lemma AddToMembers(t: Tools, cfg: Config, l: seq<Entry>, e: Entry)
    requires forall l :: multiset(t.sort(l)) == multiset(l)
    ensures forall f | f in AddTo(t, cfg, l, e) :: f == e || (f in l && f.location != e.location)
  {
    hide KeptOf, Others;
    var all := ReplaceOrAppend(l, e);
    KeptIsSubset(cfg, all);
    OthersAre(l, e.location);
    assert multiset(t.sort(KeptOf(cfg, all))) == multiset(KeptOf(cfg, all));
    SameMembers(t.sort(KeptOf(cfg, all)), KeptOf(cfg, all));
  }

  lemma RemoveFromMembers(t: Tools, l: seq<Entry>, name: string, version: string)
    requires forall l :: multiset(t.sort(l)) == multiset(l)
    ensures forall f | f in RemoveFrom(t, l, name, version) :: f in l
  {
    hide Matching, Without;
    SplitAre(l, name, version);
    assert multiset(t.sort(Without(l, name, version))) == multiset(Without(l, name, version));
    SameMembers(t.sort(Without(l, name, version)), Without(l, name, version));
  }

  lemma MembersIdentities(l: seq<Entry>, r: seq<Entry>)
    requires forall e | e in r :: e in l
    ensures Identities(r) <= Identities(l)
  {
    hide Identities, IdentityOf;
    IdentitiesAre(l);
    IdentitiesAre(r);
  }

  lemma {:induction false} ListedWereAdded(t: Tools, c: Client, cfg: Config, ops: seq<Op>)
    requires Setting(t, c)
    ensures Identities(RunEntries(t, cfg, ops)) <= EverAdded(t, ops)
  {
    hide Faithful, Sorts, RunEntries, AddTo, RemoveFrom, Adds, ParseRpm, PoolPath, IdentityOf, Identities, EverAdded;
    FaithfulIs(t, c);
    if ops == [] {
      NothingAdded(t, cfg);
    } else {
      var n := |ops| - 1;
      var front, l := ops[..n], RunEntries(t, cfg, ops);
      ListedWereAdded(t, c, cfg, front);
      EverAddedStep(t, ops);
      var before := RunEntries(t, cfg, front);
      if ops[n].RemoveOp? {
        RemoveStep(t, cfg, ops, ops[n].name, ops[n].version, ops[n].ts);
        RemoveFromMembers(t, before, ops[n].name, ops[n].version);
        MembersIdentities(before, l);
      } else {
        EntriesStep(t, cfg, ops);
        if Adds(t, ops[n]) {
          AddToMembers(t, cfg, before, Added(t, ops[n]));
          IdentitiesAre(before);
          IdentitiesAre(l);
        }
      }
    }
  }

  lemma RemoveStep(t: Tools, cfg: Config, ops: seq<Op>, name: string, version: string, ts: int)
    requires ops != [] && ops[|ops| - 1] == RemoveOp(name, version, ts)
    ensures RunEntries(t, cfg, ops) == RemoveFrom(t, RunEntries(t, cfg, ops[..|ops| - 1]), name, version)
    ensures Standing(t, cfg, ops) == Identities(RunEntries(t, cfg, ops))
  {
    hide RemoveFrom, Identities;
  }

  lemma ListableApart(l: seq<Entry>)
    requires Listable(l)
    ensures Apart(Identities(l), FileOf) && Arrivals.Unrepeated(Map(IdentityOf, l))
  {
    hide ProperEntry, PoolPath, Unique, IdentityOf, FileOf;
    var ids := Map(IdentityOf, l);
    forall i, j | 0 <= i < |ids| && 0 <= j < |ids| && i != j ensures FileOf(ids[i]) != FileOf(ids[j]) {
      UniqueIndices(l, if i < j then i else j, if i < j then j else i);
      assert l[i] in l && l[j] in l;
      SameLocation(l[i], l[j]);
    }
  }

  lemma {:induction false} StandingAre(t: Tools, c: Client, cfg: Config, ops: seq<Op>)
    requires Setting(t, c) && GoodOps(t, ops)
    ensures Standing(t, cfg, ops) <= EverAdded(t, ops) && AllAreProper(Standing(t, cfg, ops))
    ensures Apart(Standing(t, cfg, ops), FileOf)
  {
    hide Faithful, Sorts, GoodOps, RunEntries, Adds, Identities, EverAdded, IdentityOf, Proper, Listable;
    EverAddedProper(t, ops);
    if ops != [] {
      var n := |ops| - 1;
      GoodFront(t, ops);
      StandingAre(t, c, cfg, ops[..n]);
      EverAddedStep(t, ops);
      if ops[n].RemoveOp? {
        ListedWereAdded(t, c, cfg, ops);
        RunListable(t, c, cfg, ops);
        ListableApart(RunEntries(t, cfg, ops));
      }
    }
  }

  lemma IdentitiesArrive(l: seq<Entry>, e: Entry)
    requires Listable(l) && ProperEntry(e) && e.location == PoolPath(e.meta.header)
    ensures Identities(ReplaceOrAppend(l, e)) == Arrive(Identities(l), FileOf, IdentityOf(e))
  {
    hide ProperEntry, PoolPath, Unique, Others, Identities, IdentityOf, FileOf;
    var all := ReplaceOrAppend(l, e);
    OthersAre(l, e.location);
    IdentitiesAre(l);
    IdentitiesAre(all);
    forall f | f in l ensures f.location == e.location <==> FileOf(IdentityOf(f)) == FileOf(IdentityOf(e)) {
      SameLocation(e, f);
    }
  }

  // ----- what a run lists

  /** An Add that lowers nothing keeps what is known of what it lists. */
  lemma AddKeepsSettled(t: Tools, c: Client, cfg: Config, l: seq<Entry>, e: Entry, v: set<Identity>, s: set<Identity>)
    requires Setting(t, c) && cfg.keepVersions > 0 && Listable(l)
    requires ProperEntry(e) && e.location == PoolPath(e.meta.header)
    requires AllAreProper(v) && IdentityOf(e) in v && Apart(s, FileOf) && Raises(s, IdentityOf(e))
    requires Arrivals.Settled(v, s, Identities(l), cfg.keepVersions, IdentityKey, CompareIdentities)
    ensures Arrivals.Settled(v, Arrive(s, FileOf, IdentityOf(e)), Identities(AddTo(t, cfg, l, e)), cfg.keepVersions,
                             IdentityKey, CompareIdentities)
  {
    hide Faithful, Listable, ProperEntry, PoolPath, KeptOf, ReplaceOrAppend, IdentityOf, FileOf, Raises, Apart,
      Arrivals.Settled, Arrivals.OrdersSet, Arrivals.Rises, Retained, Proper, StrictOrder, Arrive;
    FaithfulIs(t, c);
    var all := ReplaceOrAppend(l, e);
    SettledIsWithin(v, s, Identities(l), cfg.keepVersions);
    ProperOrder(v);
    RaisesRises(s, IdentityOf(e));
    IdentitiesArrive(l, e);
    ReplacedListable(l, e);
    ListableApart(all);
    Arrivals.SettledStep(v, s, Identities(l), Map(IdentityOf, all), FileOf, IdentityOf(e), cfg.keepVersions,
                         IdentityKey, CompareIdentities);
    IdentitiesKept(cfg, all);
    SortedIdentities(t, KeptOf(cfg, all));
  }

  lemma SettledIsWithin(v: set<Identity>, s: set<Identity>, listed: set<Identity>, keep: int)
    requires Arrivals.Settled(v, s, listed, keep, IdentityKey, CompareIdentities)
    ensures s <= v && (AllAreProper(v) ==> AllAreProper(s))
  {
    hide Proper;
  }

  lemma {:induction false} RunSettled(t: Tools, c: Client, cfg: Config, ops: seq<Op>, v: set<Identity>)
    requires Setting(t, c) && cfg.keepVersions > 0 && GoodOps(t, ops) && NeverLowered(t, cfg, ops)
    requires EverAdded(t, ops) <= v && AllAreProper(v)
    ensures Arrivals.Settled(v, Standing(t, cfg, ops), Identities(RunEntries(t, cfg, ops)), cfg.keepVersions,
                             IdentityKey, CompareIdentities)
  {
    hide RunEntries, EverAdded, AddTo, RemoveFrom, GoodOps, Faithful, Sorts, Listable, Adds, ProperEntry, PoolPath,
      AllAreProper, IdentityOf, Identities, Arrivals.Settled, Apart, Raises, Arrive;
    if ops == [] {
      NothingAdded(t, cfg);
      Arrivals.NothingSettled(v, cfg.keepVersions, IdentityKey, CompareIdentities);
    } else {
      var n := |ops| - 1;
      var front, op := ops[..n], ops[n];
      GoodFront(t, ops);
      EverAddedStep(t, ops);
      RunSettled(t, c, cfg, front, v);
      var before := RunEntries(t, cfg, front);
      if op.RemoveOp? {
        FaithfulIs(t, c);
        RemoveStep(t, cfg, ops, op.name, op.version, op.ts);
        RemoveFromMembers(t, before, op.name, op.version);
        MembersIdentities(before, RunEntries(t, cfg, ops));
        Arrivals.SettledAgain(v, Standing(t, cfg, front), Identities(before), Identities(RunEntries(t, cfg, ops)),
                              cfg.keepVersions, IdentityKey, CompareIdentities);
      } else {
        EntriesStep(t, cfg, ops);
        if Adds(t, op) {
          RunListable(t, c, cfg, front);
          AddedIsProper(t, op);
          StandingAre(t, c, cfg, front);
          AddKeepsSettled(t, c, cfg, before, Added(t, op), v, Standing(t, cfg, front));
        }
      }
    }
  }

  lemma NothingAdded(t: Tools, cfg: Config)
    ensures Identities(RunEntries(t, cfg, [])) == {} == EverAdded(t, []) && Standing(t, cfg, []) == {}
  {
  }

  /** Of Adds only that keep epochs everything stands that was ever added. */
  lemma {:induction false} AddsStand(t: Tools, cfg: Config, ops: seq<Op>)
    requires OnlyAdds(t, ops) && EpochsKept(EverAdded(t, ops))
    ensures Standing(t, cfg, ops) == EverAdded(t, ops) && NeverLowered(t, cfg, ops)
  {
    hide EverAdded, Adds, IdentityOf, FileOf;
    if ops == [] {
      NothingAdded(t, cfg);
    } else {
      var n := |ops| - 1;
      assert ops[n] in ops && forall op | op in ops[..n] :: op in ops;
      EverAddedStep(t, ops);
      AddsStand(t, cfg, ops[..n]);
    }
  }

  // ----- ties

  lemma WithoutCons(z: Identity, l: seq<Identity>, x: Identity)
    ensures Arrivals.Without([z] + l, x) == (if z == x then [] else [z]) + Arrivals.Without(l, x)
  {
    assert ([z] + l)[1..] == l;
  }

  lemma {:induction false} WithoutSnoc(l: seq<Identity>, y: Identity, x: Identity)
    ensures Arrivals.Without(l + [y], x) == Arrivals.Without(l, x) + if y == x then [] else [y]
  {
    hide Arrivals.Without;
    if l == [] {
      WithoutCons(y, [], x);
      NothingWithout(x);
      assert l + [y] == [y] + [];
    } else {
      WithoutSnoc(l[1..], y, x);
      WithoutCons(l[0], l[1..], x);
      WithoutCons(l[0], l[1..] + [y], x);
      assert l + [y] == [l[0]] + (l[1..] + [y]) && l == [l[0]] + l[1..];
    }
  }

  lemma {:induction false} IdentitiesWithout(l: seq<Entry>, location: string, x: Identity)
    requires forall f | f in l :: f.location == location <==> IdentityOf(f) == x
    ensures Map(IdentityOf, Others(l, location)) == Arrivals.Without(Map(IdentityOf, l), x)
  {
    hide IdentityOf, Arrivals.Without;
    if l == [] {
      NothingWithout(x);
    } else {
      var n := |l| - 1;
      var ids := Map(IdentityOf, l[..n]);
      IdentitiesWithout(l[..n], location, x);
      assert l[n] in l;
      assert Map(IdentityOf, l) == ids + [IdentityOf(l[n])];
      WithoutSnoc(ids, IdentityOf(l[n]), x);
    }
  }

  lemma NothingWithout(x: Identity)
    ensures Map(IdentityOf, []) == [] && Arrivals.Without([], x) == []
  {
  }

  /** With epochs kept, distinct files are distinct builds. */
  lemma IdentitiesJoined(l: seq<Entry>, e: Entry, v: set<Identity>)
    requires Listable(l) && ProperEntry(e) && e.location == PoolPath(e.meta.header)
    requires Identities(l) <= v && IdentityOf(e) in v && EpochsKept(v)
    ensures Map(IdentityOf, ReplaceOrAppend(l, e)) == Arrivals.Joined(Map(IdentityOf, l), IdentityOf(e))
    ensures Arrivals.Unrepeated(Map(IdentityOf, l))
  {
    hide ProperEntry, PoolPath, Unique, Others, IdentityOf, Arrivals.Without, FileOf;
    var ids := Map(IdentityOf, l);
    forall f | f in l ensures f.location == e.location <==> IdentityOf(f) == IdentityOf(e) {
      SameLocation(e, f);
      IdentitiesAre(l);
      assert IdentityOf(f) in Identities(l);
    }
    IdentitiesWithout(l, e.location, IdentityOf(e));
    forall i, j | 0 <= i < j < |ids| ensures ids[i] != ids[j] {
      UniqueIndices(l, i, j);
      assert l[i] in l && l[j] in l;
      SameLocation(l[i], l[j]);
    }
  }

  lemma IdentitiesKept(cfg: Config, all: seq<Entry>)
    requires cfg.keepVersions > 0
    ensures Map(IdentityOf, KeptOf(cfg, all)) ==
            Retained(Map(IdentityOf, all), cfg.keepVersions, IdentityKey, CompareIdentities)
  {
    hide Retained, Removed, RpmVersion.CompareVersions, RpmVersion.PrintEVR;
    PruneMap(IdentityOf, all, cfg.keepVersions, GroupKey, CompareByEvr, IdentityKey, CompareIdentities);
  }

  /** The builds that a run lists, in order. */
  ghost function Runs(t: Tools, cfg: Config): seq<Op> -> seq<Identity> {
    (ops: seq<Op>) => Map(IdentityOf, RunEntries(t, cfg, ops))
  }

  lemma AddedAfter(t: Tools, c: Client, cfg: Config, l: seq<Entry>, e: Entry, v: set<Identity>)
    requires Setting(t, c) && cfg.keepVersions > 0 && Listable(l)
    requires ProperEntry(e) && e.location == PoolPath(e.meta.header)
    requires Identities(l) <= v && IdentityOf(e) in v && EpochsKept(v)
    ensures Arrivals.After(Map(IdentityOf, l), IdentityOf(e), Map(IdentityOf, AddTo(t, cfg, l, e)), cfg.keepVersions,
                           IdentityKey, CompareIdentities)
  {
    hide Faithful, Listable, ProperEntry, PoolPath, KeptOf, ReplaceOrAppend, IdentityOf, Arrivals.Joined, Retained,
      EpochsKept;
    FaithfulIs(t, c);
    var all := ReplaceOrAppend(l, e);
    IdentitiesJoined(l, e, v);
    IdentitiesKept(cfg, all);
    MapPermuted(IdentityOf, t.sort(KeptOf(cfg, all)), KeptOf(cfg, all));
  }

  lemma MapConcat<A, B>(f: A -> B, x: seq<A>, y: seq<A>)
    ensures Map(f, x + y) == Map(f, x) + Map(f, y)
  {
  }

  lemma {:induction false} MapPermuted<A, B>(f: A -> B, x: seq<A>, y: seq<A>)
    requires multiset(x) == multiset(y)
    ensures multiset(Map(f, x)) == multiset(Map(f, y))
    decreases |x|
  {
    hide Map;
    if x == [] {
      assert |multiset(y)| == 0;
    } else {
      var n := |x| - 1;
      var e, front := x[n], x[..n];
      assert x == front + [e] && e in multiset(y);
      var i :| 0 <= i < |y| && y[i] == e;
      var y1, y2 := y[..i], y[i + 1..];
      assert y == y1 + [e] + y2;
      Taken(front, e, y1, y2);
      MapPermuted(f, front, y1 + y2);
      MapConcat(f, front, [e]);
      MapConcat(f, y1 + [e], y2);
      MapConcat(f, y1, [e]);
      MapConcat(f, y1, y2);
    }
  }

  lemma {:induction false} ListedIsLeft(t: Tools, c: Client, cfg: Config, ops: seq<Op>, v: set<Identity>)
    requires Setting(t, c) && cfg.keepVersions > 0 && OnlyAdds(t, ops) && GoodOps(t, ops)
    requires EverAdded(t, ops) <= v && AllAreProper(v) && EpochsKept(v)
    ensures Arrivals.Leaves(Arrivals.Arrived(ops, Brings(t)), Runs(t, cfg)(ops), cfg.keepVersions, IdentityKey,
                            CompareIdentities)
  {
    hide RunEntries, EverAdded, AddTo, GoodOps, Faithful, Listable, Adds, ProperEntry, PoolPath, AllAreProper,
      EpochsKept,
      IdentityOf, Arrivals.Leaves, Arrivals.Arrived, Arrivals.After;
    if ops == [] {
      NothingLeft(t, cfg);
    } else {
      var n := |ops| - 1;
      var front, op := ops[..n], ops[n];
      assert op in ops && ops == front + [op] && forall x | x in front :: x in ops;
      GoodFront(t, ops);
      EverAddedStep(t, ops);
      ListedIsLeft(t, c, cfg, front, v);
      EntriesStep(t, cfg, ops);
      Arrivals.ArrivedSnoc(front, op, Brings(t));
      if Adds(t, op) {
        RunListable(t, c, cfg, front);
        AddedIsProper(t, op);
        EverAddedArrived(t, front);
        ListedWithin(t, c, cfg, front, v);
        AddedAfter(t, c, cfg, RunEntries(t, cfg, front), Added(t, op), v);
        Arrivals.LeavesSnoc(Arrivals.Arrived(front, Brings(t)), Runs(t, cfg)(front), IdentityOf(Added(t, op)),
                            Runs(t, cfg)(ops), cfg.keepVersions, IdentityKey, CompareIdentities);
      }
    }
  }

  lemma ListedWithin(t: Tools, c: Client, cfg: Config, ops: seq<Op>, v: set<Identity>)
    requires EverAdded(t, ops) <= v && AllAreProper(v)
    requires Arrivals.Leaves(Arrivals.Arrived(ops, Brings(t)), Runs(t, cfg)(ops), cfg.keepVersions, IdentityKey,
                             CompareIdentities)
    ensures Identities(RunEntries(t, cfg, ops)) <= v
  {
    hide EverAdded, RunEntries, AllAreProper, Arrivals.Leaves, Arrivals.Arrived, Arrivals.Settled, Arrivals.Unrepeated,
      Arrivals.OrdersSet;
    var xs, ids := Arrivals.Arrived(ops, Brings(t)), Runs(t, cfg)(ops);
    EverAddedArrived(t, ops);
    ProperOrder(v);
    Arrivals.LeavesSettled(v, xs, ids, cfg.keepVersions, IdentityKey, CompareIdentities);
    Arrivals.SettledWithin(v, Elements(xs), Elements(ids), cfg.keepVersions, IdentityKey, CompareIdentities);
  }

  lemma NothingLeft(t: Tools, cfg: Config)
    ensures Runs(t, cfg)([]) == [] && Arrivals.Arrived([], Brings(t)) == []
    ensures Arrivals.Leaves([], [], cfg.keepVersions, IdentityKey, CompareIdentities)
  {
  }

  lemma EverAddedArrived(t: Tools, ops: seq<Op>)
    ensures Elements(Arrivals.Arrived(ops, Brings(t))) == EverAdded(t, ops)
  {
    hide Adds, IdentityOf, Arrivals.Arrived, PoolPath, ParseRpm;
    var brings := Brings(t);
    Arrivals.ArrivedAre(ops, brings);
    forall x | x in EverAdded(t, ops) ensures x in Arrivals.Arrived(ops, brings) {
      var op :| op in ops && Adds(t, op) && x == IdentityOf(Added(t, op));
      assert brings(op) == Some(x);
    }
    forall x | x in Arrivals.Arrived(ops, brings) ensures x in EverAdded(t, ops) {
      var op :| op in ops && brings(op) == Some(x);
      assert Adds(t, op) && x == IdentityOf(Added(t, op));
    }
  }

  lemma Reordered(t: Tools, ops: seq<Op>, other: seq<Op>)
    requires multiset(other) == multiset(ops) && OnlyAdds(t, ops) && GoodOps(t, ops)
    ensures OnlyAdds(t, other) && GoodOps(t, other) && EverAdded(t, other) == EverAdded(t, ops)
  {
    hide GoodOp, Adds, IdentityOf, Arrivals.Arrived;
    Arrivals.ReorderedAre(ops, other);
    forall op ensures op in other <==> op in ops {
      assert op in Elements(other) <==> op in Elements(ops);
    }
    Arrivals.ReorderedArrive(ops, other, Brings(t));
    EverAddedArrived(t, ops);
    EverAddedArrived(t, other);
  }

  lemma RunsList(t: Tools, c: Client, cfg: Config, ops: seq<Op>)
    requires Setting(t, c) && cfg.keepVersions > 0 && OnlyAdds(t, ops) && GoodOps(t, ops)
    requires EpochsKept(EverAdded(t, ops))
    ensures Arrivals.Lists(ops, Brings(t), Runs(t, cfg), cfg.keepVersions, IdentityKey, CompareIdentities)
    ensures Arrivals.OrdersSet(EverAdded(t, ops), CompareIdentities)
  {
    hide OnlyAdds, GoodOps, Faithful, Arrivals.Leaves, Arrivals.Arrived, Arrivals.OrdersSet, RunEntries, EverAdded,
      Adds,
      AllAreProper, EpochsKept;
    EverAddedProper(t, ops);
    ProperOrder(EverAdded(t, ops));
    forall other | multiset(other) == multiset(ops)
      ensures Arrivals.Leaves(Arrivals.Arrived(other, Brings(t)), Runs(t, cfg)(other), cfg.keepVersions, IdentityKey,
                              CompareIdentities)
    {
      Reordered(t, ops, other);
      ListedIsLeft(t, c, cfg, other, EverAdded(t, ops));
    }
  }

  /** Builds of which only the spelling differs tie. */
  lemma SameTokensTie(x: Identity, y: Identity)
    requires Proper(x) && Proper(y) && IdentityKey(x) == IdentityKey(y) && x != y && x.evr.epoch == y.evr.epoch
    requires RpmVersion.ComponentOrder(x.evr.version, y.evr.version) == 0
    requires RpmVersion.ComponentOrder(x.evr.release, y.evr.release) == 0
    ensures CompareIdentities(x, y) == 0
    ensures Arrivals.TieAtCut({x, y}, 1, IdentityKey, CompareIdentities)
  {
    hide RpmVersion.PrintEVR, RpmVersion.CompareVersions, RpmVersion.ComponentOrder, Arrivals.TieAtCut;
    RpmVersion.ComparePrinted(x.evr, y.evr);
    IdentityLaws(x, y, y);
    IdentityLaws(y, x, x);
    Arrivals.PairTies(x, y, IdentityKey, CompareIdentities);
  }

  /** Different builds may compare as equal: with room for one, releases 1 and 01, or versions 1.0 and 1_0, are a tie at
      the cut. */
  lemma SpellingsTie(name: string, architecture: string)
    ensures Arrivals.TieAtCut({Identity(name, architecture, RpmVersion.EVR(0, "1", "1")),
                               Identity(name, architecture, RpmVersion.EVR(0, "1", "01"))},
                              1, IdentityKey, CompareIdentities)
    ensures Arrivals.TieAtCut({Identity(name, architecture, RpmVersion.EVR(0, "1.0", "1")),
                               Identity(name, architecture, RpmVersion.EVR(0, "1_0", "1"))},
                              1, IdentityKey, CompareIdentities)
  {
    hide RpmVersion.ComponentOrder, Arrivals.TieAtCut, CompareIdentities;
    assert Value("1") == 1 && Value("01") == 1;
    RpmVersion.NumbersCompare("1", "01");
    RpmVersion.NumbersCompare("1", "1");
    RpmVersion.SeparatorsTie("1", '.', '_', "0");
    assert "1" + ['.'] + "0" == "1.0" && "1" + ['_'] + "0" == "1_0";
    SameTokensTie(Identity(name, architecture, RpmVersion.EVR(0, "1", "1")),
                  Identity(name, architecture, RpmVersion.EVR(0, "1", "01")));
    SameTokensTie(Identity(name, architecture, RpmVersion.EVR(0, "1.0", "1")),
                  Identity(name, architecture, RpmVersion.EVR(0, "1_0", "1")));
  }

  // ----- as read from the bucket

  /** The builds that the stored manifest lists. */
  ghost function Published(t: Tools, b: Bucket): Option<set<Identity>> {
    var l := LoadState(t, b);
    if l.None? then None else Some(Identities(l.value))
  }

  lemma PublishedIs(t: Tools, c: Client, cfg: Config, listing: set<string> -> seq<string>, ops: seq<Op>)
    requires Setting(t, c) && Enumerates(listing) && Succeeds(t, cfg, listing, ops) && GoodOps(t, ops)
    ensures Published(t, Run(t, cfg, listing, ops)) == Some(Identities(RunEntries(t, cfg, ops)))
  {
    hide Run, RunEntries, Succeeds, Represents, Faithful, GoodOp, LoadState, Identities;
    RunRepresents(t, c, cfg, listing, ops);
    StateIs(t, c, cfg, Run(t, cfg, listing, ops), RunEntries(t, cfg, ops));
  }

  /** After any Adds and Removes the stored manifest lists every build with fewer than keepVersions rivals among those
      standing, and only builds with fewer than keepVersions newer ones among them; provided that a build is not added
      again at a lower epoch. */
  lemma OnlineBounds(t: Tools, c: Client, cfg: Config, listing: set<string> -> seq<string>, ops: seq<Op>)
    requires Setting(t, c) && Enumerates(listing) && Succeeds(t, cfg, listing, ops) && cfg.keepVersions > 0
    requires GoodOps(t, ops) && NeverLowered(t, cfg, ops)
    ensures var p, s := Published(t, Run(t, cfg, listing, ops)), Standing(t, cfg, ops);
            && p.Some?
            && Arrivals.Certain(s, cfg.keepVersions, IdentityKey, CompareIdentities) <= p.value
            && p.value <= Arrivals.Possible(s, cfg.keepVersions, IdentityKey, CompareIdentities)
  {
    hide Setting, GoodOps, Published, Run, RunEntries, EverAdded, Succeeds, Standing, NeverLowered, Top,
      Arrivals.Settled, Identities, AllAreProper;
    PublishedIs(t, c, cfg, listing, ops);
    EverAddedProper(t, ops);
    RunSettled(t, c, cfg, ops, EverAdded(t, ops));
    Arrivals.SettledBounds(EverAdded(t, ops), Standing(t, cfg, ops), Identities(RunEntries(t, cfg, ops)),
                           cfg.keepVersions, IdentityKey, CompareIdentities);
  }

  /** And without a tie at the cut exactly the newest keepVersions of each name and architecture among those
      standing. */
  lemma OnlineIsOffline(t: Tools, c: Client, cfg: Config, listing: set<string> -> seq<string>, ops: seq<Op>)
    requires Setting(t, c) && Enumerates(listing) && Succeeds(t, cfg, listing, ops) && cfg.keepVersions > 0
    requires GoodOps(t, ops) && NeverLowered(t, cfg, ops)
    requires !Arrivals.TieAtCut(Standing(t, cfg, ops), cfg.keepVersions, IdentityKey, CompareIdentities)
    ensures Published(t, Run(t, cfg, listing, ops)) ==
            Some(Top(Standing(t, cfg, ops), Newer(IdentityKey, CompareIdentities), cfg.keepVersions))
  {
    hide Setting, GoodOps, Published, Run, Succeeds, Arrivals.Certain, Arrivals.TieAtCut, Standing, NeverLowered;
    OnlineBounds(t, c, cfg, listing, ops);
    var s := Standing(t, cfg, ops);
    Arrivals.NoTieAtCut(s, cfg.keepVersions, IdentityKey, CompareIdentities);
    var p := Published(t, Run(t, cfg, listing, ops));
    assert p.value == Arrivals.Possible(s, cfg.keepVersions, IdentityKey, CompareIdentities);
  }

  /** Without a cap all that stands is listed, whatever the epochs. */
  lemma UncappedListsAll(t: Tools, c: Client, cfg: Config, listing: set<string> -> seq<string>, ops: seq<Op>)
    requires Setting(t, c) && Enumerates(listing) && Succeeds(t, cfg, listing, ops) && cfg.keepVersions <= 0
    requires GoodOps(t, ops)
    ensures Published(t, Run(t, cfg, listing, ops)) == Some(Standing(t, cfg, ops))
  {
    hide Setting, GoodOps, Published, Run, Succeeds, Standing, Identities, RunEntries;
    PublishedIs(t, c, cfg, listing, ops);
    AllIsListed(t, c, cfg, ops);
  }

  lemma {:induction false} AllIsListed(t: Tools, c: Client, cfg: Config, ops: seq<Op>)
    requires Setting(t, c) && cfg.keepVersions <= 0 && GoodOps(t, ops)
    ensures Identities(RunEntries(t, cfg, ops)) == Standing(t, cfg, ops)
  {
    hide RunEntries, GoodOps, Faithful, Sorts, Listable, Adds, ProperEntry, PoolPath, IdentityOf, Identities, Arrive,
      ReplaceOrAppend;
    if ops == [] {
      NothingAdded(t, cfg);
    } else {
      var n := |ops| - 1;
      var front, op := ops[..n], ops[n];
      GoodFront(t, ops);
      AllIsListed(t, c, cfg, front);
      if op.AddOp? {
        EntriesStep(t, cfg, ops);
        if Adds(t, op) {
          var before, e := RunEntries(t, cfg, front), Added(t, op);
          FaithfulIs(t, c);
          RunListable(t, c, cfg, front);
          AddedIsProper(t, op);
          IdentitiesArrive(before, e);
          SortedIdentities(t, ReplaceOrAppend(before, e));
        }
      }
    }
  }

  /** The builds that a Remove names. */
  predicate Named(x: Identity, name: string, version: string) {
    x.name == name && x.evr.version == version
  }

  /** What a Remove frees is not filled from what has been pruned: it takes what it names, and lists nothing more. */
  lemma RemoveBringsNothingBack(t: Tools, c: Client, cfg: Config, listing: set<string> -> seq<string>, ops: seq<Op>,
                                name: string, version: string, ts: int)
    requires Setting(t, c) && Enumerates(listing) && GoodOps(t, ops)
    requires Succeeds(t, cfg, listing, ops + [RemoveOp(name, version, ts)])
    ensures var p, q := Published(t, Run(t, cfg, listing, ops)),
                        Published(t, Run(t, cfg, listing, ops + [RemoveOp(name, version, ts)]));
            p.Some? && q == Some(set x | x in p.value && !Named(x, name, version))
  {
    hide Setting, GoodOp, Published, Run, RunEntries, RemoveFrom, Identities, IdentityOf, PlanOf;
    var all := ops + [RemoveOp(name, version, ts)];
    assert all[..|ops|] == ops;
    RemovesAreGood(t, all[|ops|]);
    PublishedIs(t, c, cfg, listing, ops);
    PublishedIs(t, c, cfg, listing, all);
    RemoveStep(t, cfg, all, name, version, ts);
    RemoveIdentities(t, c, RunEntries(t, cfg, ops), name, version);
  }

  lemma RemovesAreGood(t: Tools, op: Op)
    requires op.RemoveOp?
    ensures GoodOp(t, op)
  {
  }

  lemma RemoveIdentities(t: Tools, c: Client, l: seq<Entry>, name: string, version: string)
    requires Setting(t, c)
    ensures Identities(RemoveFrom(t, l, name, version)) == set x | x in Identities(l) && !Named(x, name, version)
  {
    hide Faithful, Sorts, Matching, Without, Identities;
    FaithfulIs(t, c);
    SplitAre(l, name, version);
    IdentitiesAre(l);
    IdentitiesAre(Without(l, name, version));
    IdentitiesAre(RemoveFrom(t, l, name, version));
    var kept := Without(l, name, version);
    assert multiset(t.sort(kept)) == multiset(kept);
    SameMembers(t.sort(kept), kept);
    if Matching(l, name, version) == [] {
      forall e | e in l ensures !Matches(e, name, version) {
        assert e !in Matching(l, name, version);
      }
    }
  }

  /** A signer that never fails. */
  ghost predicate AlwaysSigns(cfg: Config) {
    forall text :: CanSign(cfg, text)
  }

  lemma {:induction false} AddsSucceed(t: Tools, c: Client, cfg: Config, listing: set<string> -> seq<string>,
                                       ops: seq<Op>)
    requires Setting(t, c) && Enumerates(listing) && AlwaysSigns(cfg) && OnlyAdds(t, ops) && GoodOps(t, ops)
    ensures Succeeds(t, cfg, listing, ops)
  {
    hide Setting, GoodOps, Run, RunEntries, Represents, AddPlan, CanSign, ParseRpm, ProperEntry, PoolPath, AddTo,
      Settled, RepomdText, LoadState;
    if ops != [] {
      var n := |ops| - 1;
      GoodFront(t, ops);
      assert ops[n] in ops && forall x | x in ops[..n] :: x in ops;
      AddsSucceed(t, c, cfg, listing, ops[..n]);
      AddSucceeds(t, c, cfg, listing, ops[..n], ops[n]);
    }
  }

  lemma AddSucceeds(t: Tools, c: Client, cfg: Config, listing: set<string> -> seq<string>, front: seq<Op>, op: Op)
    requires Setting(t, c) && Enumerates(listing) && AlwaysSigns(cfg) && op.AddOp? && GoodOp(t, op)
    requires Succeeds(t, cfg, listing, front) && GoodOps(t, front)
    ensures var plan := PlanOf(t, cfg, Run(t, cfg, listing, front), listing, op); plan.complete || plan.steps == []
  {
    hide Faithful, Run, RunEntries, Represents, AddPlan, CanSign, ParseRpm, ProperEntry, PoolPath, AddTo, Settled,
      RepomdText, LoadState, Apply, Succeeds, Collisionless, Sorts;
    FaithfulIs(t, c);
    RunRepresents(t, c, cfg, listing, front);
    var b, l, p := Run(t, cfg, listing, front), RunEntries(t, cfg, front), ParseRpm(t, op.data);
    StateIs(t, c, cfg, b, l);
    if p.Some? {
      AddSettles(t, cfg, b, listing, l, p.value, op.data, op.ts);
      assert CanSign(cfg, RepomdText(t, AddTo(t, cfg, l, EntryOf(p.value)), op.ts));
    }
  }

  /** The order of the Adds decides what the manifest lists exactly when there is a tie at the cut. */
  lemma OrderMattersExactlyForTies(t: Tools, c: Client, cfg: Config, listing: set<string> -> seq<string>, ops: seq<Op>)
    requires Setting(t, c) && Enumerates(listing) && AlwaysSigns(cfg) && cfg.keepVersions > 0
    requires OnlyAdds(t, ops) && GoodOps(t, ops) && EpochsKept(EverAdded(t, ops))
    ensures (exists other :: multiset(other) == multiset(ops) &&
               Published(t, Run(t, cfg, listing, other)) != Published(t, Run(t, cfg, listing, ops)))
            <==> Arrivals.TieAtCut(Standing(t, cfg, ops), cfg.keepVersions, IdentityKey, CompareIdentities)
  {
    hide NeverLowered, Standing, Setting, OnlyAdds, GoodOps, Published, Run, RunEntries, EverAdded, Succeeds,
      Arrivals.Arrived, Arrivals.TieAtCut, Arrivals.Lists, Arrivals.OrdersSet, EpochsKept, Elements, Adds, AlwaysSigns;
    var runs := Runs(t, cfg);
    AddsStand(t, cfg, ops);
    forall other | multiset(other) == multiset(ops)
      ensures Published(t, Run(t, cfg, listing, other)) == Some(Elements(runs(other)))
    {
      Reordered(t, ops, other);
      AddsSucceed(t, c, cfg, listing, other);
      PublishedIs(t, c, cfg, listing, other);
    }
    EverAddedArrived(t, ops);
    RunsList(t, c, cfg, ops);
    Arrivals.OrderMattersExactlyForTies(ops, Brings(t), runs, cfg.keepVersions, IdentityKey, CompareIdentities);
    if Arrivals.TieAtCut(EverAdded(t, ops), cfg.keepVersions, IdentityKey, CompareIdentities) {
      var other :| multiset(other) == multiset(ops) && Elements(runs(other)) != Elements(runs(ops));
      assert Published(t, Run(t, cfg, listing, other)) != Published(t, Run(t, cfg, listing, ops));
    } else {
      forall other | multiset(other) == multiset(ops)
        ensures Published(t, Run(t, cfg, listing, other)) == Published(t, Run(t, cfg, listing, ops))
      {
        assert Elements(runs(other)) == Elements(runs(ops));
      }
    }
  }

  // ----- the bytes

  /** What is listed is what was last added under its location. */
  lemma {:induction false} ListedIsLastAdded(t: Tools, cfg: Config, ops: seq<Op>)
    requires forall l :: multiset(t.sort(l)) == multiset(l)
    ensures forall e | e in RunEntries(t, cfg, ops) ::
              LastAdded(t, ops, e.location).Some? && ParseRpm(t, LastAdded(t, ops, e.location).value) == Some(e.meta)
  {
    hide AddTo, RemoveFrom, ParseRpm, PoolPath;
    if ops != [] {
      var n := |ops| - 1;
      ListedIsLastAdded(t, cfg, ops[..n]);
      var before := RunEntries(t, cfg, ops[..n]);
      match ops[n]
      case AddOp(data, ts) =>
        if ParseRpm(t, data).Some? {
          AddToMembers(t, cfg, before, EntryOf(ParseRpm(t, data).value));
        }
      case RemoveOp(name, version, ts) => RemoveFromMembers(t, before, name, version);
    }
  }

  /** The bytes in the bucket are those last added. */
  lemma StoredIsLastAdded(t: Tools, c: Client, cfg: Config, listing: set<string> -> seq<string>, ops: seq<Op>, e: Entry)
    requires Setting(t, c) && Enumerates(listing) && Succeeds(t, cfg, listing, ops) && GoodOps(t, ops)
    requires e in RunEntries(t, cfg, ops)
    ensures var b := Run(t, cfg, listing, ops);
            e.location in b && LastAdded(t, ops, e.location) == Some(b[e.location])
  {
    hide Run, RunEntries, Succeeds, Documented, Blank, WithinCap, Unique, ProperEntry, PoolPath, Faithful, GoodOp,
      LastAdded;
    FaithfulIs(t, c);
    RunRepresents(t, c, cfg, listing, ops);
    ListedIsLastAdded(t, cfg, ops);
    var b := Run(t, cfg, listing, ops);
    assert Stored(t, b, e);
    var data := LastAdded(t, ops, e.location).value;
    assert t.sha256(data) == e.meta.sha256 == t.sha256(b[e.location]);
  }
}
