/**
 Builds that are added again at another epoch. Pruning after every Add is pruning once at the end exactly as long as
 no Add takes a listed build down below one that is not listed any more: that one is newer now, and gone.
 */
module YumEpochs {
  import opened Wrappers
  import opened Storage
  import opened Retention
  import opened RetentionLaws
  import opened Ranking
  import opened Yum
  import opened YumKeys
  import opened YumPublisher
  import opened YumSafety
  import opened YumState
  import opened YumRuns
  import opened YumRetention
  import Arrivals

  ghost function Newest(cfg: Config, s: set<Identity>): set<Identity> {
    Top(s, Newer(IdentityKey, CompareIdentities), cfg.keepVersions)
  }

  /** The Add of this number takes a build from among the newest down below one that stands and is not among them. */
  ghost predicate FallsAt(t: Tools, cfg: Config, ops: seq<Op>, n: nat)
    requires n < |ops|
  {
    Adds(t, ops[n]) &&
    Falls(Standing(t, cfg, ops[..n]), Newer(IdentityKey, CompareIdentities), FileOf, cfg.keepVersions,
          IdentityOf(Added(t, ops[n])))
  }

  /** At no time do two builds that stand tie. */
  ghost predicate NeverTies(t: Tools, cfg: Config, ops: seq<Op>) {
    forall n | 0 <= n <= |ops| :: Untied(Standing(t, cfg, ops[..n]))
  }

  /** The manifest lists the newest of those standing. */
  ghost predicate ListsNewest(t: Tools, cfg: Config, ops: seq<Op>) {
    Identities(RunEntries(t, cfg, ops)) == Newest(cfg, Standing(t, cfg, ops))
  }

  // ----- one operation

  lemma UntiedChains(s: set<Identity>)
    requires AllAreProper(s) && Untied(s)
    ensures Chains(s, Newer(IdentityKey, CompareIdentities), IdentityKey)
  {
    hide Proper, IdentityKey, CompareIdentities;
    ProperOrder(s);
    NewerMeans(IdentityKey, CompareIdentities);
  }

  /** Distinct entries are distinct builds. */
  lemma ListableIsStrict(all: seq<Entry>, s: set<Identity>)
    requires Listable(all) && Identities(all) <= s && Untied(s)
    ensures Strict(Map(IdentityOf, all), IdentityKey, CompareIdentities)
  {
    hide Listable, IdentityOf, CompareIdentities, IdentityKey, FileOf;
    var ids := Map(IdentityOf, all);
    ListableApart(all);
    forall i, j | 0 <= i < |ids| && 0 <= j < |ids| && i != j && IdentityKey(ids[i]) == IdentityKey(ids[j])
      ensures CompareIdentities(ids[i], ids[j]) != 0
    {
      assert ids[i] in Elements(ids) && ids[j] in Elements(ids);
      assert ids[if i < j then i else j] != ids[if i < j then j else i];
    }
  }

  /** Pruning keeps the newest builds. */
  lemma KeptIdentities(cfg: Config, all: seq<Entry>, s: set<Identity>)
    requires cfg.keepVersions > 0 && Listable(all) && Identities(all) <= s && AllAreProper(s) && Untied(s)
    ensures Identities(KeptOf(cfg, all)) == Newest(cfg, Identities(all))
  {
    hide Retained, KeptOf, Orders, Listable, Untied, Strict, Top, Newer, AllAreProper, Arrivals.OrdersSet, IdentityOf;
    var ids := Map(IdentityOf, all);
    IdentitiesKept(cfg, all);
    ProperOrder(s);
    Arrivals.OrdersList(s, ids, CompareIdentities);
    ListableIsStrict(all, s);
    RetainedIsTop(ids, cfg.keepVersions, IdentityKey, CompareIdentities);
  }

  lemma ArriveJoins(s: set<Identity>, x: Identity)
    requires AllAreProper(s) && Proper(x) && Apart(s, FileOf) && Untied(s) && Untied(Arrive(s, FileOf, x))
    ensures Joins(s, Newer(IdentityKey, CompareIdentities), IdentityKey, FileOf, x)
    ensures AllAreProper(Arrive(s, FileOf, x))
  {
    hide Proper, IdentityKey, CompareIdentities, FileOf, Untied, Chains, Apart;
    UntiedChains(s);
    UntiedChains(Arrive(s, FileOf, x));
    forall w | w in s && FileOf(w) == FileOf(x) ensures IdentityKey(w) == IdentityKey(x) {
      SameFile(w, x);
    }
  }

  lemma SameFile(w: Identity, x: Identity)
    requires FileOf(w) == FileOf(x)
    ensures IdentityKey(w) == IdentityKey(x)
  {
  }

  /** What an Add leaves of the newest, it leaves of what is listed. */
  lemma AddLists(t: Tools, c: Client, cfg: Config, l: seq<Entry>, e: Entry, s: set<Identity>)
    requires Setting(t, c) && cfg.keepVersions > 0 && Listable(l)
    requires ProperEntry(e) && e.location == PoolPath(e.meta.header)
    requires AllAreProper(s) && Identities(l) == Newest(cfg, s) && Untied(Arrive(s, FileOf, IdentityOf(e)))
    ensures Identities(AddTo(t, cfg, l, e)) == Newest(cfg, Arrive(Newest(cfg, s), FileOf, IdentityOf(e)))
  {
    hide Identities, Newest, Untied, Faithful, Listable, ProperEntry, PoolPath, KeptOf, ReplaceOrAppend, IdentityOf,
      FileOf, Proper;
    FaithfulIs(t, c);
    var all, x := ReplaceOrAppend(l, e), IdentityOf(e);
    ProperIdentity(e);
    NewestStand(cfg, s);
    IdentitiesArrive(l, e);
    ReplacedListable(l, e);
    KeptIdentities(cfg, all, Arrive(s, FileOf, x));
    SortedIdentities(t, KeptOf(cfg, all));
  }

  lemma NewestStand(cfg: Config, s: set<Identity>)
    ensures Newest(cfg, s) <= s
  {
    hide Newer;
    TopSubset(s, Newer(IdentityKey, CompareIdentities), cfg.keepVersions);
  }

  /** Some of the newest are the newest of themselves. */
  lemma NewestOfSome(cfg: Config, s: set<Identity>, r: set<Identity>)
    requires r <= Newest(cfg, s)
    ensures Newest(cfg, r) == r
  {
    hide Newer;
    var before := Newer(IdentityKey, CompareIdentities);
    forall x | x in r ensures x in Top(r, before, cfg.keepVersions) {
      Arrivals.MoreRivals(r, s, before, x);
    }
  }

  /** The newest are listed after an operation as they were before it exactly if it is no Add that makes one fall. */
  lemma StepExact(t: Tools, c: Client, cfg: Config, ops: seq<Op>)
    requires Setting(t, c) && cfg.keepVersions > 0 && GoodOps(t, ops) && ops != []
    requires ListsNewest(t, cfg, ops[..|ops| - 1])
    requires Untied(Standing(t, cfg, ops[..|ops| - 1])) && Untied(Standing(t, cfg, ops))
    ensures ListsNewest(t, cfg, ops) <==> !FallsAt(t, cfg, ops, |ops| - 1)
  {
    hide Faithful, Sorts, GoodOps, RunEntries, Adds, Identities, EverAdded, IdentityOf, Proper, Listable, AddTo,
      RemoveFrom, ProperEntry, PoolPath, Newer, Untied, FileOf, Top, Joins, Apart, Arrive, AllAreProper, Falls;
    var n := |ops| - 1;
    var front, op := ops[..n], ops[n];
    var before, s := RunEntries(t, cfg, front), Standing(t, cfg, front);
    GoodFront(t, ops);
    StandingAre(t, c, cfg, front);
    if op.RemoveOp? {
      FaithfulIs(t, c);
      RemoveStep(t, cfg, ops, op.name, op.version, op.ts);
      RemoveFromMembers(t, before, op.name, op.version);
      MembersIdentities(before, RunEntries(t, cfg, ops));
      NewestOfSome(cfg, s, Identities(RunEntries(t, cfg, ops)));
      AddsAreAdds(t, op);
    } else {
      EntriesStep(t, cfg, ops);
      if Adds(t, op) {
        var e := Added(t, op);
        RunListable(t, c, cfg, front);
        AddedIsProper(t, op);
        ProperIdentity(e);
        AddLists(t, c, cfg, before, e, s);
        ArriveJoins(s, IdentityOf(e));
        StreamStepExact(s, Newer(IdentityKey, CompareIdentities), IdentityKey, FileOf, cfg.keepVersions, IdentityOf(e));
      }
    }
  }

  lemma AddsAreAdds(t: Tools, op: Op)
    ensures Adds(t, op) ==> op.AddOp?
  {
  }

  // ----- whole runs

  lemma NothingListed(t: Tools, cfg: Config)
    ensures ListsNewest(t, cfg, [])
  {
  }

  lemma PrefixIsGood(t: Tools, ops: seq<Op>, n: nat)
    requires GoodOps(t, ops) && n <= |ops|
    ensures GoodOps(t, ops[..n])
  {
    hide GoodOp;
  }

  lemma StepAt(t: Tools, c: Client, cfg: Config, ops: seq<Op>, n: nat)
    requires Setting(t, c) && cfg.keepVersions > 0 && GoodOps(t, ops) && NeverTies(t, cfg, ops) && n < |ops|
    requires ListsNewest(t, cfg, ops[..n])
    ensures ListsNewest(t, cfg, ops[..n + 1]) <==> !FallsAt(t, cfg, ops, n)
  {
    hide Setting, GoodOps, ListsNewest, Falls, Standing, Adds, Newer;
    var more := ops[..n + 1];
    assert more[..n] == ops[..n] && more[n] == ops[n];
    PrefixIsGood(t, ops, n + 1);
    StepExact(t, c, cfg, more);
  }

  lemma {:induction false} UnlessOneFalls(t: Tools, c: Client, cfg: Config, ops: seq<Op>, n: nat)
    requires Setting(t, c) && cfg.keepVersions > 0 && GoodOps(t, ops) && NeverTies(t, cfg, ops) && n <= |ops|
    requires forall k | 0 <= k < n :: !FallsAt(t, cfg, ops, k)
    ensures ListsNewest(t, cfg, ops[..n])
  {
    hide Setting, GoodOps, ListsNewest, FallsAt, NeverTies;
    if n == 0 {
      NothingListed(t, cfg);
      assert ops[..0] == [];
    } else {
      UnlessOneFalls(t, c, cfg, ops, n - 1);
      StepAt(t, c, cfg, ops, n - 1);
    }
  }

  lemma {:induction false} PrefixSucceeds(t: Tools, cfg: Config, listing: set<string> -> seq<string>, ops: seq<Op>,
                                          n: nat)
    requires Succeeds(t, cfg, listing, ops) && n <= |ops|
    ensures Succeeds(t, cfg, listing, ops[..n])
    decreases |ops|
  {
    hide PlanOf, Run;
    if n == |ops| {
      assert ops[..n] == ops;
    } else {
      assert ops[..|ops| - 1][..n] == ops[..n];
      PrefixSucceeds(t, cfg, listing, ops[..|ops| - 1], n);
    }
  }

  /** What the stored manifest should list: the newest of those standing. */
  ghost predicate PublishesNewest(t: Tools, cfg: Config, listing: set<string> -> seq<string>, ops: seq<Op>) {
    Published(t, Run(t, cfg, listing, ops)) == Some(Newest(cfg, Standing(t, cfg, ops)))
  }

  lemma PublishesWhatItLists(t: Tools, c: Client, cfg: Config, listing: set<string> -> seq<string>, ops: seq<Op>)
    requires Setting(t, c) && Enumerates(listing) && Succeeds(t, cfg, listing, ops) && GoodOps(t, ops)
    ensures PublishesNewest(t, cfg, listing, ops) <==> ListsNewest(t, cfg, ops)
  {
    hide Setting, Published, Run, RunEntries, Standing, Newest, Identities, Succeeds, GoodOps;
    PublishedIs(t, c, cfg, listing, ops);
  }

  /** Where no two builds tie, the stored manifest lists the newest keepVersions of each name and architecture among
      those standing, each as it was added last, all through a run, exactly if no Add in it makes a build fall. */
  lemma OnlineIsOfflineExact(t: Tools, c: Client, cfg: Config, listing: set<string> -> seq<string>, ops: seq<Op>)
    requires Setting(t, c) && Enumerates(listing) && Succeeds(t, cfg, listing, ops) && cfg.keepVersions > 0
    requires GoodOps(t, ops) && NeverTies(t, cfg, ops)
    ensures (forall n | 0 <= n <= |ops| :: PublishesNewest(t, cfg, listing, ops[..n])) <==>
            (forall n | 0 <= n < |ops| :: !FallsAt(t, cfg, ops, n))
  {
    hide Setting, Succeeds, GoodOps, ListsNewest, FallsAt, NeverTies, PublishesNewest;
    forall n | 0 <= n <= |ops| ensures PublishesNewest(t, cfg, listing, ops[..n]) <==> ListsNewest(t, cfg, ops[..n]) {
      PrefixSucceeds(t, cfg, listing, ops, n);
      PrefixIsGood(t, ops, n);
      PublishesWhatItLists(t, c, cfg, listing, ops[..n]);
    }
    if forall n | 0 <= n < |ops| :: !FallsAt(t, cfg, ops, n) {
      forall n | 0 <= n <= |ops| ensures ListsNewest(t, cfg, ops[..n]) {
        UnlessOneFalls(t, c, cfg, ops, n);
      }
    } else {
      var n :| 0 <= n < |ops| && FallsAt(t, cfg, ops, n);
      if ListsNewest(t, cfg, ops[..n]) {
        StepAt(t, c, cfg, ops, n);
      }
      assert !PublishesNewest(t, cfg, listing, ops[..n]) || !PublishesNewest(t, cfg, listing, ops[..n + 1]);
    }
  }

  /** When one does fall, it is listed where it has fallen to, and one that is newer now is not. */
  lemma LoweredEpochLosesNewer(t: Tools, c: Client, cfg: Config, listing: set<string> -> seq<string>, ops: seq<Op>)
      returns (lost: Identity)
    requires Setting(t, c) && Enumerates(listing) && Succeeds(t, cfg, listing, ops) && cfg.keepVersions > 0
    requires GoodOps(t, ops) && ops != []
    requires Untied(Standing(t, cfg, ops[..|ops| - 1])) && Untied(Standing(t, cfg, ops))
    requires PublishesNewest(t, cfg, listing, ops[..|ops| - 1]) && FallsAt(t, cfg, ops, |ops| - 1)
    ensures Adds(t, ops[|ops| - 1])
    ensures var p, x := Published(t, Run(t, cfg, listing, ops)), IdentityOf(Added(t, ops[|ops| - 1]));
            && p == Some(Newest(cfg, Arrive(Newest(cfg, Standing(t, cfg, ops[..|ops| - 1])), FileOf, x)))
            && x in p.value && lost !in p.value
            && lost in Newest(cfg, Standing(t, cfg, ops)) && Newer(IdentityKey, CompareIdentities)(lost, x)
  {
    hide Faithful, Sorts, GoodOps, RunEntries, Adds, Identities, EverAdded, IdentityOf, Proper, Listable, AddTo,
      ProperEntry, PoolPath, Newer, Untied, FileOf, Top, Joins, Apart, Arrive, AllAreProper, Falls, Run, Published,
      Succeeds;
    var n := |ops| - 1;
    var front, op := ops[..n], ops[n];
    var before, s, newer := RunEntries(t, cfg, front), Standing(t, cfg, front), Newer(IdentityKey, CompareIdentities);
    AddsAreAdds(t, op);
    GoodFront(t, ops);
    PrefixSucceeds(t, cfg, listing, ops, n);
    PublishesWhatItLists(t, c, cfg, listing, front);
    PublishedIs(t, c, cfg, listing, ops);
    StandingAre(t, c, cfg, front);
    EntriesStep(t, cfg, ops);
    var e := Added(t, op);
    RunListable(t, c, cfg, front);
    AddedIsProper(t, op);
    ProperIdentity(e);
    AddLists(t, c, cfg, before, e, s);
    ArriveJoins(s, IdentityOf(e));
    lost := FallingLoses(s, newer, IdentityKey, FileOf, cfg.keepVersions, IdentityOf(e));
    FallenStays(s, newer, IdentityKey, FileOf, cfg.keepVersions, IdentityOf(e));
    NewestStand(cfg, Arrive(Newest(cfg, s), FileOf, IdentityOf(e)));
  }

  /** An epoch that is not lowered makes nothing fall. */
  lemma RaisedNeverFalls(t: Tools, c: Client, cfg: Config, ops: seq<Op>, n: nat)
    requires Setting(t, c) && GoodOps(t, ops) && NeverTies(t, cfg, ops) && n < |ops|
    requires Adds(t, ops[n]) ==> Raises(Standing(t, cfg, ops[..n]), IdentityOf(Added(t, ops[n])))
    ensures !FallsAt(t, cfg, ops, n)
  {
    hide Setting, GoodOps, RunEntries, Adds, EverAdded, IdentityOf, Proper, ProperEntry, PoolPath, Untied, FileOf,
      IdentityKey, CompareIdentities, Standing, Apart, Joins, Arrive, Arrivals.OrdersSet, StrictOrder, Falls;
    if Adds(t, ops[n]) {
      var s, more := Standing(t, cfg, ops[..n]), ops[..n + 1];
      var x, newer := IdentityOf(Added(t, ops[n])), Newer(IdentityKey, CompareIdentities);
      assert more[..n] == ops[..n] && more[n] == ops[n];
      PrefixIsGood(t, ops, n);
      PrefixIsGood(t, ops, n + 1);
      GoodFront(t, more);
      StandingAre(t, c, cfg, ops[..n]);
      AddedIsProper(t, ops[n]);
      ProperIdentity(Added(t, ops[n]));
      StandingStep(t, cfg, more);
      ArriveJoins(s, x);
      forall w, y | w in s && FileOf(w) == FileOf(x) && y in s && newer(y, x) ensures newer(y, w) {
        EpochDecides(w, x);
        IdentityLaws(x, w, w);
        IdentityLaws(y, w, x);
      }
      RisingNeverFalls(s, newer, IdentityKey, FileOf, cfg.keepVersions, x);
    }
  }

  lemma StandingStep(t: Tools, cfg: Config, ops: seq<Op>)
    requires ops != [] && Adds(t, ops[|ops| - 1])
    ensures Standing(t, cfg, ops) ==
            Arrive(Standing(t, cfg, ops[..|ops| - 1]), FileOf, IdentityOf(Added(t, ops[|ops| - 1])))
  {
    hide IdentityOf, FileOf, Arrive;
  }
}
