/**
 Pruning after every Add is pruning once at the end, as far as what stands decides it: of what the last Remove left and
 what was added since, an index holds all versions with fewer than keepVersions rivals and only such as have fewer than
 keepVersions newer ones. Between the two bounds, and only there, the order of the Adds decides.
 */
module AptRetention {
  import opened Wrappers
  import opened Storage
  import opened Retention
  import opened RetentionLaws
  import opened Ranking
  import opened Apt
  import opened AptKeys
  import opened AptState
  import opened AptInvariant
  import opened AptRuns
  import opened Control
  import opened Numbers
  import Arrivals
  import DebVersion

  datatype Identity = Identity(name: string, version: string)

  function IdentityOf(d: Deb): Identity {
    Identity(d.pkg.name, d.pkg.version)
  }

  function IdentityName(x: Identity): string {
    x.name
  }

  function CompareIdentities(x: Identity, y: Identity): int {
    DebVersion.CompareVersions(x.version, y.version)
  }

  predicate AddsTo(t: Tools, op: Op, id: IndexId) {
    && op.AddOp?
    && ParseDeb(t, op.data).Some?
    && IndexId(ComponentOf(op.component), ParseDeb(t, op.data).value.architecture) == id
  }

  function Added(t: Tools, op: Op): Deb
    requires op.AddOp? && ParseDeb(t, op.data).Some?
  {
    Deb(ParseDeb(t, op.data).value, op.data)
  }

  /** Everything that a run ever added to an index. */
  ghost function EverAdded(t: Tools, ops: seq<Op>, id: IndexId): set<Identity> {
    set op | op in ops && AddsTo(t, op, id) :: IdentityOf(Added(t, op))
  }

  /** What an operation brings to an index. */
  function Brings(t: Tools, id: IndexId): Op -> Option<Identity> {
    (op: Op) => if AddsTo(t, op, id) then Some(IdentityOf(Added(t, op))) else None
  }

  predicate AddsAs(t: Tools, op: Op, id: IndexId, x: Identity) {
    AddsTo(t, op, id) && IdentityOf(Added(t, op)) == x
  }

  /** What a run last added to an index under a name and a version. */
  function LastAdded(t: Tools, ops: seq<Op>, id: IndexId, x: Identity): Option<Deb> {
    if ops == [] then None
    else
      var op := ops[|ops| - 1];
      if AddsAs(t, op, id, x) then Some(Added(t, op))
      else LastAdded(t, ops[..|ops| - 1], id, x)
  }

  lemma EverAddedArrived(t: Tools, ops: seq<Op>, id: IndexId)
    ensures Elements(Arrivals.Arrived(ops, Brings(t, id))) == EverAdded(t, ops, id)
  {
    hide AddsTo, IdentityOf, ParseDeb, Arrivals.Arrived;
    AddsToMeans();
    var brings := Brings(t, id);
    Arrivals.ArrivedAre(ops, brings);
    forall x | x in EverAdded(t, ops, id) ensures x in Arrivals.Arrived(ops, brings) {
      var op :| op in ops && AddsTo(t, op, id) && x == IdentityOf(Added(t, op));
      assert brings(op) == Some(x);
    }
    forall x | x in Arrivals.Arrived(ops, brings) ensures x in EverAdded(t, ops, id) {
      var op :| op in ops && brings(op) == Some(x);
      assert AddsTo(t, op, id) && x == IdentityOf(Added(t, op));
    }
  }

  ghost predicate OnlyAdds(t: Tools, ops: seq<Op>) {
    forall op | op in ops :: op.AddOp? && GoodOp(t, op)
  }

  ghost predicate GoodOps(t: Tools, ops: seq<Op>) {
    forall op | op in ops :: GoodOp(t, op)
  }

  lemma AddsToMeans()
    ensures forall t: Tools, op: Op, id: IndexId :: AddsTo(t, op, id) ==> op.AddOp? && ParseDeb(t, op.data).Some?
  {
    hide ParseDeb;
  }

  lemma EverAddedOrders(t: Tools, ops: seq<Op>, id: IndexId)
    requires GoodOps(t, ops)
    ensures Arrivals.OrdersSet(EverAdded(t, ops, id), CompareIdentities)
  {
    hide DebVersion.CompareVersions, DebVersion.NonNegativeEpoch, DebVersion.EpochsNear, GoodPackage, ParseDeb;
    var s := EverAdded(t, ops, id);
    forall x, y | x in s && y in s ensures DebVersion.EpochsNear(x.version, y.version) {
      DebVersion.NonNegativeIsNear(x.version, y.version);
    }
    forall x, y | x in s && y in s ensures CompareIdentities(x, y) < 0 <==> CompareIdentities(y, x) > 0 {
      DebVersion.CompareAntisymmetric(x.version, y.version);
    }
    forall x, y, z | x in s && y in s && z in s && CompareIdentities(x, y) <= 0 && CompareIdentities(y, z) <= 0
      ensures CompareIdentities(x, z) <= 0
    {
      DebVersion.CompareTransitive(x.version, y.version, z.version);
    }
  }

  ghost function Identities(l: seq<Deb>): set<Identity> {
    Elements(Map(IdentityOf, l))
  }

  lemma EverAddedStep(t: Tools, ops: seq<Op>, id: IndexId)
    requires ops != []
    ensures var n := |ops| - 1;
            EverAdded(t, ops, id) ==
            if AddsTo(t, ops[n], id) then EverAdded(t, ops[..n], id) + {IdentityOf(Added(t, ops[n]))}
            else EverAdded(t, ops[..n], id)
  {
    hide IdentityOf, ParseDeb, AddsTo;
    AddsToMeans();
    var n := |ops| - 1;
    assert forall op :: op in ops <==> op in ops[..n] || op == ops[n];
  }

  lemma RunRepoRemove(t: Tools, cfg: Config, ops: seq<Op>, id: IndexId, component: string, name: string,
                      version: string, date: string)
    requires ops != [] && ops[|ops| - 1] == RemoveOp(component, name, version, date)
    ensures var before := Listed(RunRepo(t, cfg, ops[..|ops| - 1]), id);
            Listed(RunRepo(t, cfg, ops), id) ==
            if id.component == ComponentOf(component) then WithoutDebs(before, name, version) else before
  {
    hide WithoutDebs;
    WithoutNothing(name, version);
  }

  lemma WithoutNothing(name: string, version: string)
    ensures WithoutDebs([], name, version) == []
  {
  }

  lemma RunRepoStep(t: Tools, cfg: Config, ops: seq<Op>, id: IndexId)
    requires ops != [] && ops[|ops| - 1].AddOp?
    ensures var n := |ops| - 1; var before := RunRepo(t, cfg, ops[..n]);
            Listed(RunRepo(t, cfg, ops), id) ==
            if AddsTo(t, ops[n], id) then KeptDebs(cfg, AllDebs(before, id, Added(t, ops[n]))) else Listed(before, id)
  {
    hide KeptDebs, AllDebs, ParseDeb;
  }

  // ----- what stands

  /** What the last Remove left in an index, and what was added to it since. */
  ghost function Standing(t: Tools, cfg: Config, ops: seq<Op>, id: IndexId): set<Identity> {
    if ops == [] then {}
    else
      var before, op := Standing(t, cfg, ops[..|ops| - 1], id), ops[|ops| - 1];
      if op.RemoveOp? then Identities(Listed(RunRepo(t, cfg, ops), id))
      else if AddsTo(t, op, id) then before + {IdentityOf(Added(t, op))}
      else before
  }

  /** Of Adds only everything stands that was ever added. */
  lemma {:induction false} AddsStand(t: Tools, cfg: Config, ops: seq<Op>, id: IndexId)
    requires OnlyAdds(t, ops)
    ensures Standing(t, cfg, ops, id) == EverAdded(t, ops, id)
  {
    hide EverAdded, AddsTo, IdentityOf, GoodOp;
    if ops == [] {
      NothingAdded(t, id);
    } else {
      var n := |ops| - 1;
      assert ops[n] in ops;
      EverAddedStep(t, ops, id);
      AddsStand(t, cfg, ops[..n], id);
    }
  }

  lemma NothingAdded(t: Tools, id: IndexId)
    ensures EverAdded(t, [], id) == {}
  {
  }

  lemma {:induction false} RunSettled(t: Tools, cfg: Config, ops: seq<Op>, id: IndexId, v: set<Identity>)
    requires cfg.keepVersions > 0 && EverAdded(t, ops, id) <= v && Arrivals.OrdersSet(v, CompareIdentities)
    ensures Arrivals.Unrepeated(Map(IdentityOf, Listed(RunRepo(t, cfg, ops), id)))
    ensures Arrivals.Settled(v, Standing(t, cfg, ops, id), Identities(Listed(RunRepo(t, cfg, ops), id)),
                             cfg.keepVersions, IdentityName, CompareIdentities)
  {
    hide RunRepo, KeptDebs, AllDebs, AddsTo, ParseDeb, EverAdded, Listed, IdentityOf, Arrivals.Settled,
      Arrivals.Unrepeated, Arrivals.OrdersSet, WithoutDebs, Map, Elements;
    var keep := cfg.keepVersions;
    if ops == [] {
      NoneListed(t, cfg, id);
      MapNil(IdentityOf);
      Arrivals.NothingThere<Identity>();
      Arrivals.NothingSettled(v, keep, IdentityName, CompareIdentities);
    } else {
      var n := |ops| - 1;
      var front, op := ops[..n], ops[n];
      EverAddedStep(t, ops, id);
      RunSettled(t, cfg, front, id, v);
      var before, s := Listed(RunRepo(t, cfg, front), id), Standing(t, cfg, front, id);
      if op.RemoveOp? {
        RunRepoRemove(t, cfg, ops, id, op.component, op.name, op.version, op.date);
        RemoveIdentities(before, op.name, op.version);
        WithoutUnrepeated(before, op.name, op.version);
        Arrivals.SettledAgain(v, s, Identities(before), Identities(Listed(RunRepo(t, cfg, ops), id)), keep,
                              IdentityName, CompareIdentities);
      } else {
        RunRepoStep(t, cfg, ops, id);
        if AddsTo(t, op, id) {
          AddsToMeans();
          AddSettled(t, cfg, RunRepo(t, cfg, front), id, Added(t, op), v, s);
        }
      }
    }
  }

  lemma RemoveIdentities(l: seq<Deb>, name: string, version: string)
    ensures Identities(WithoutDebs(l, name, version)) == Identities(l) - {Identity(name, version)}
  {
    hide Arrivals.Without, WithoutDebs, Map, IdentityOf;
    IdentitiesWithout(l, name, version);
    Arrivals.WithoutAre(Map(IdentityOf, l), Identity(name, version));
  }

  lemma WithoutUnrepeated(l: seq<Deb>, name: string, version: string)
    requires Arrivals.Unrepeated(Map(IdentityOf, l))
    ensures Arrivals.Unrepeated(Map(IdentityOf, WithoutDebs(l, name, version)))
  {
    hide Arrivals.Unrepeated, Arrivals.Without, WithoutDebs, Map, IdentityOf;
    IdentitiesWithout(l, name, version);
    Arrivals.WithoutAre(Map(IdentityOf, l), Identity(name, version));
  }

  lemma AddSettled(t: Tools, cfg: Config, repo: Repo, id: IndexId, d: Deb, v: set<Identity>, s: set<Identity>)
    requires cfg.keepVersions > 0 && IdentityOf(d) in v && Arrivals.OrdersSet(v, CompareIdentities)
    requires Arrivals.Unrepeated(Map(IdentityOf, Listed(repo, id)))
    requires Arrivals.Settled(v, s, Identities(Listed(repo, id)), cfg.keepVersions, IdentityName, CompareIdentities)
    ensures var kept := KeptDebs(cfg, AllDebs(repo, id, d));
            && Arrivals.Unrepeated(Map(IdentityOf, kept))
            && Arrivals.Settled(v, s + {IdentityOf(d)}, Identities(kept), cfg.keepVersions, IdentityName,
                                CompareIdentities)
  {
    hide KeptDebs, AllDebs, Listed, IdentityOf, Arrivals.Settled, Arrivals.Unrepeated, Arrivals.OrdersSet,
      Arrivals.Joined, Retained, Map, Elements, Arrive, Apart, Arrivals.Rises;
    var ids, x := Map(IdentityOf, Listed(repo, id)), IdentityOf(d);
    IdentitiesJoined(repo, id, d);
    IdentitiesKept(cfg, AllDebs(repo, id, d));
    SettledIsWithin(v, s, Identities(Listed(repo, id)), cfg.keepVersions);
    Arrivals.ItselfArrives(v, s, ids, x, IdentityName, CompareIdentities);
    Arrivals.SettledStep(v, s, Elements(ids), Arrivals.Joined(ids, x), Arrivals.Itself, x, cfg.keepVersions,
                         IdentityName, CompareIdentities);
    Arrivals.RetainedUnrepeated(Arrivals.Joined(ids, x), cfg.keepVersions, IdentityName, CompareIdentities);
  }

  lemma SettledIsWithin(v: set<Identity>, s: set<Identity>, listed: set<Identity>, keep: int)
    requires Arrivals.Settled(v, s, listed, keep, IdentityName, CompareIdentities)
    ensures s <= v
  {
  }

  // ----- what an index lists is what the arrivals leave

  lemma {:induction false} IdentitiesWithout(l: seq<Deb>, name: string, version: string)
    ensures Map(IdentityOf, WithoutDebs(l, name, version)) ==
            Arrivals.Without(Map(IdentityOf, l), Identity(name, version))
  {
    if l == [] {
      MapNil(IdentityOf);
    } else {
      var d, rest := l[0], l[1..];
      IdentitiesWithout(rest, name, version);
      assert l == [d] + rest;
      MapCons(IdentityOf, d, rest);
      MapCons(IdentityOf, d, WithoutDebs(rest, name, version));
      assert Map(IdentityOf, l)[1..] == Map(IdentityOf, rest);
    }
  }

  lemma IdentitiesJoined(repo: Repo, id: IndexId, d: Deb)
    ensures Map(IdentityOf, AllDebs(repo, id, d)) == Arrivals.Joined(Map(IdentityOf, Listed(repo, id)), IdentityOf(d))
  {
    hide WithoutDebs, Arrivals.Without;
    IdentitiesWithout(Listed(repo, id), d.pkg.name, d.pkg.version);
    MapSnoc(IdentityOf, WithoutDebs(Listed(repo, id), d.pkg.name, d.pkg.version), d);
  }

  lemma IdentitiesKept(cfg: Config, all: seq<Deb>)
    requires cfg.keepVersions > 0
    ensures Map(IdentityOf, KeptDebs(cfg, all)) ==
            Retained(Map(IdentityOf, all), cfg.keepVersions, IdentityName, CompareIdentities)
  {
    hide Retained, Removed, DebVersion.CompareVersions;
    PruneMap(IdentityOf, all, cfg.keepVersions, DebName, CompareDebs, IdentityName, CompareIdentities);
  }

  /** The names and versions that a run lists, in order. */
  ghost function Runs(t: Tools, cfg: Config, id: IndexId): seq<Op> -> seq<Identity> {
    (ops: seq<Op>) => Map(IdentityOf, Listed(RunRepo(t, cfg, ops), id))
  }

  lemma {:induction false} ListedIsLeft(t: Tools, cfg: Config, ops: seq<Op>, id: IndexId)
    requires cfg.keepVersions > 0 && OnlyAdds(t, ops)
    ensures Arrivals.Leaves(Arrivals.Arrived(ops, Brings(t, id)), Runs(t, cfg, id)(ops), cfg.keepVersions, IdentityName,
                            CompareIdentities)
  {
    hide RunRepo, KeptDebs, AllDebs, AddsTo, ParseDeb, GoodOp, Retained, Listed, IdentityOf, Arrivals.Leaves,
      Arrivals.Arrived;
    var keep := cfg.keepVersions;
    if ops == [] {
      NothingLeft(t, cfg, id);
    } else {
      var n := |ops| - 1;
      var front, op := ops[..n], ops[n];
      assert op in ops && ops == front + [op];
      ListedIsLeft(t, cfg, front, id);
      RunRepoStep(t, cfg, ops, id);
      Arrivals.ArrivedSnoc(front, op, Brings(t, id));
      if AddsTo(t, op, id) {
        AddsToMeans();
        var before, d := RunRepo(t, cfg, front), Added(t, op);
        IdentitiesJoined(before, id, d);
        IdentitiesKept(cfg, AllDebs(before, id, d));
        Arrivals.LeavesSnoc(Arrivals.Arrived(front, Brings(t, id)), Runs(t, cfg, id)(front), IdentityOf(d),
                            Runs(t, cfg, id)(ops), keep, IdentityName, CompareIdentities);
      }
    }
  }

  lemma NothingLeft(t: Tools, cfg: Config, id: IndexId)
    ensures Runs(t, cfg, id)([]) == [] && Arrivals.Arrived([], Brings(t, id)) == []
    ensures Arrivals.Leaves([], [], cfg.keepVersions, IdentityName, CompareIdentities)
  {
  }

  lemma NoneListed(t: Tools, cfg: Config, id: IndexId)
    ensures Listed(RunRepo(t, cfg, []), id) == []
  {
  }

  lemma Reordered(t: Tools, ops: seq<Op>, other: seq<Op>)
    requires multiset(other) == multiset(ops) && OnlyAdds(t, ops)
    ensures OnlyAdds(t, other)
  {
    hide GoodOp;
    Arrivals.ReorderedAre(ops, other);
    forall op | op in other ensures op in ops {
      assert op in Elements(other);
    }
  }

  lemma AddsAreGood(t: Tools, ops: seq<Op>)
    requires OnlyAdds(t, ops)
    ensures GoodOps(t, ops)
  {
    hide GoodOp;
  }

  lemma RunsList(t: Tools, cfg: Config, ops: seq<Op>, id: IndexId)
    requires cfg.keepVersions > 0 && OnlyAdds(t, ops)
    ensures Arrivals.Lists(ops, Brings(t, id), Runs(t, cfg, id), cfg.keepVersions, IdentityName, CompareIdentities)
    ensures Arrivals.OrdersSet(Elements(Arrivals.Arrived(ops, Brings(t, id))), CompareIdentities)
  {
    hide OnlyAdds, Arrivals.Leaves, Arrivals.Arrived, Arrivals.OrdersSet, RunRepo, EverAdded, AddsTo, Listed;
    forall other | multiset(other) == multiset(ops)
      ensures Arrivals.Leaves(Arrivals.Arrived(other, Brings(t, id)), Runs(t, cfg, id)(other), cfg.keepVersions,
                              IdentityName, CompareIdentities)
    {
      Reordered(t, ops, other);
      ListedIsLeft(t, cfg, other, id);
    }
    AddsAreGood(t, ops);
    EverAddedOrders(t, ops, id);
    EverAddedArrived(t, ops, id);
  }

  /** The versions that fewer than keepVersions others of their name are at least as new as. */
  ghost function Certain(cfg: Config, s: set<Identity>): set<Identity> {
    Arrivals.Certain(s, cfg.keepVersions, IdentityName, CompareIdentities)
  }

  /** The versions that fewer than keepVersions others of their name are newer than. */
  ghost function Possible(cfg: Config, s: set<Identity>): set<Identity> {
    Arrivals.Possible(s, cfg.keepVersions, IdentityName, CompareIdentities)
  }

  /** A version that is among the newest keepVersions or not as those equal to it count as newer or not. */
  ghost predicate TieAtCut(cfg: Config, s: set<Identity>) {
    Arrivals.TieAtCut(s, cfg.keepVersions, IdentityName, CompareIdentities)
  }

  /** Different versions may compare as equal: with room for one, these two spellings are a tie at the cut. */
  lemma SpellingsTie(cfg: Config, name: string)
    requires cfg.keepVersions == 1
    ensures TieAtCut(cfg, {Identity(name, "1"), Identity(name, "01")})
  {
    hide DebVersion.CompareVersions, Arrivals.TieAtCut;
    assert Value("1") == 1 && Value("01") == 1;
    DebVersion.NumbersCompare("1", "01");
    DebVersion.NumbersCompare("1", "1");
    DebVersion.NumbersCompare("01", "1");
    Arrivals.PairTies(Identity(name, "1"), Identity(name, "01"), IdentityName, CompareIdentities);
  }

  /** What is listed is what was last added under its name and version. */
  lemma {:induction false} ListedIsLastAdded(t: Tools, cfg: Config, ops: seq<Op>, id: IndexId)
    ensures forall d | d in Listed(RunRepo(t, cfg, ops), id) :: LastAdded(t, ops, id, IdentityOf(d)) == Some(d)
  {
    hide RunRepo, KeptDebs, AddsTo, ParseDeb, WithoutDebs;
    if ops == [] {
      NoneListed(t, cfg, id);
    } else {
      var n := |ops| - 1;
      var front, op := ops[..n], ops[n];
      ListedIsLastAdded(t, cfg, front, id);
      AddsToMeans();
      if op.RemoveOp? {
        RunRepoRemove(t, cfg, ops, id, op.component, op.name, op.version, op.date);
        WithoutIs(Listed(RunRepo(t, cfg, front), id), op.name, op.version);
      } else {
        RunRepoStep(t, cfg, ops, id);
        if AddsTo(t, op, id) {
          var before, d := RunRepo(t, cfg, front), Added(t, op);
          KeptIsSubset(cfg, AllDebs(before, id, d));
          WithoutIs(Listed(before, id), d.pkg.name, d.pkg.version);
        }
      }
    }
  }

  lemma KeptIsSubset(cfg: Config, all: seq<Deb>)
    ensures forall d | d in KeptDebs(cfg, all) :: d in all
  {
    hide Retained;
    forall d | d in KeptDebs(cfg, all) ensures d in all {
      RetainedMember(all, cfg.keepVersions, DebName, CompareDebs, d);
    }
  }

  // ----- as read from the bucket

  /** The names and versions that the stored index lists. */
  ghost function Published(cfg: Config, b: Bucket, id: IndexId): Option<set<Identity>> {
    var r := ReadPackages(b, IndexKey(cfg, id));
    if r.None? then None else Some(set p | p in r.value :: Identity(p.name, p.version))
  }

  lemma PublishedIsListed(t: Tools, cfg: Config, listing: set<string> -> seq<string>, ops: seq<Op>, id: IndexId)
    requires Setting(t, cfg) && Enumerates(listing) && GoodId(id) && GoodOps(t, ops)
    ensures Published(cfg, Run(t, cfg, listing, map[], ops), id) == Some(Identities(Listed(RunRepo(t, cfg, ops), id)))
  {
    hide Represents, Run, RunRepo, GoodOp, Listed, ReadPackages, PackagesKey, EntryOf, Setting;
    RunRepresents(t, cfg, listing, ops);
    var l := Listed(RunRepo(t, cfg, ops), id);
    ReadsListed(t, cfg, Run(t, cfg, listing, map[], ops), RunRepo(t, cfg, ops), id);
    EntriesIdentities(t, id.component, l);
  }

  lemma EntriesIdentities(t: Tools, component: string, l: seq<Deb>)
    ensures (set p | p in Entries(t, component, l) :: Identity(p.name, p.version)) == Identities(l)
  {
    hide PoolPath, PoolFields;
    var es, m := Entries(t, component, l), Map(IdentityOf, l);
    assert forall i :: 0 <= i < |l| ==> Identity(es[i].name, es[i].version) == m[i];
    forall p | p in es ensures Identity(p.name, p.version) in m {
      var i :| 0 <= i < |es| && es[i] == p;
      assert m[i] == Identity(p.name, p.version);
    }
    forall x | x in m ensures exists p :: p in es && x == Identity(p.name, p.version) {
      var i :| 0 <= i < |m| && m[i] == x;
      assert es[i] in es;
    }
  }

  /** After any Adds and Removes the stored index lists every version with fewer than keepVersions rivals among those
      standing, and only versions with fewer than keepVersions newer ones among them. */
  lemma OnlineBounds(t: Tools, cfg: Config, listing: set<string> -> seq<string>, ops: seq<Op>, id: IndexId)
    requires Setting(t, cfg) && Enumerates(listing) && GoodId(id) && cfg.keepVersions > 0 && GoodOps(t, ops)
    ensures var p, s := Published(cfg, Run(t, cfg, listing, map[], ops), id), Standing(t, cfg, ops, id);
            p.Some? && Certain(cfg, s) <= p.value <= Possible(cfg, s)
  {
    hide Setting, GoodOps, Published, Run, RunRepo, EverAdded, Standing, Top, Listed, Arrivals.Settled, Identities,
      Arrivals.OrdersSet, AddsTo;
    PublishedIsListed(t, cfg, listing, ops, id);
    EverAddedOrders(t, ops, id);
    RunSettled(t, cfg, ops, id, EverAdded(t, ops, id));
    Arrivals.SettledBounds(EverAdded(t, ops, id), Standing(t, cfg, ops, id),
                           Identities(Listed(RunRepo(t, cfg, ops), id)), cfg.keepVersions, IdentityName,
                           CompareIdentities);
  }

  /** Without a tie at the cut the index lists exactly the newest keepVersions versions of each name among those
      standing. */
  lemma OnlineIsOffline(t: Tools, cfg: Config, listing: set<string> -> seq<string>, ops: seq<Op>, id: IndexId)
    requires Setting(t, cfg) && Enumerates(listing) && GoodId(id) && cfg.keepVersions > 0 && GoodOps(t, ops)
    requires !TieAtCut(cfg, Standing(t, cfg, ops, id))
    ensures Published(cfg, Run(t, cfg, listing, map[], ops), id) ==
            Some(Top(Standing(t, cfg, ops, id), Newer(IdentityName, CompareIdentities), cfg.keepVersions))
  {
    hide Setting, GoodOps, Published, Run, Standing, Arrivals.Certain, Arrivals.TieAtCut;
    OnlineBounds(t, cfg, listing, ops, id);
    Arrivals.NoTieAtCut(Standing(t, cfg, ops, id), cfg.keepVersions, IdentityName, CompareIdentities);
    var p := Published(cfg, Run(t, cfg, listing, map[], ops), id);
    assert p.value == Possible(cfg, Standing(t, cfg, ops, id));
  }

  /** Without a cap all that stands is listed. */
  lemma UncappedListsAll(t: Tools, cfg: Config, listing: set<string> -> seq<string>, ops: seq<Op>, id: IndexId)
    requires Setting(t, cfg) && Enumerates(listing) && GoodId(id) && cfg.keepVersions <= 0 && GoodOps(t, ops)
    ensures Published(cfg, Run(t, cfg, listing, map[], ops), id) == Some(Standing(t, cfg, ops, id))
  {
    hide Setting, GoodOps, Published, Run, RunRepo, Standing, Listed, Identities;
    PublishedIsListed(t, cfg, listing, ops, id);
    AllIsListed(t, cfg, ops, id);
  }

  lemma {:induction false} AllIsListed(t: Tools, cfg: Config, ops: seq<Op>, id: IndexId)
    requires cfg.keepVersions <= 0
    ensures Identities(Listed(RunRepo(t, cfg, ops), id)) == Standing(t, cfg, ops, id)
  {
    hide RunRepo, AllDebs, AddsTo, ParseDeb, Listed, IdentityOf, Map, Elements, Arrivals.Without;
    if ops == [] {
      NoneListed(t, cfg, id);
      MapNil(IdentityOf);
      Arrivals.NothingThere<Identity>();
    } else {
      var n := |ops| - 1;
      var front, op := ops[..n], ops[n];
      AllIsListed(t, cfg, front, id);
      if op.AddOp? {
        RunRepoStep(t, cfg, ops, id);
        if AddsTo(t, op, id) {
          AddsToMeans();
          IdentitiesJoined(RunRepo(t, cfg, front), id, Added(t, op));
          Arrivals.JoinedAre(Map(IdentityOf, Listed(RunRepo(t, cfg, front), id)), IdentityOf(Added(t, op)));
        }
      }
    }
  }

  /** What a Remove frees is not filled from what has been pruned: it takes what it names, and lists nothing more. */
  lemma RemoveBringsNothingBack(t: Tools, cfg: Config, listing: set<string> -> seq<string>, ops: seq<Op>, id: IndexId,
                                component: string, name: string, version: string, date: string)
    requires Setting(t, cfg) && Enumerates(listing) && GoodId(id) && GoodOps(t, ops)
    requires GoodComponent(ComponentOf(component))
    ensures var remove := RemoveOp(component, name, version, date);
            var p, q := Published(cfg, Run(t, cfg, listing, map[], ops), id),
                        Published(cfg, Run(t, cfg, listing, map[], ops + [remove]), id);
            p.Some? && q == Some(if id.component == ComponentOf(component) then p.value - {Identity(name, version)}
                                 else p.value)
  {
    hide Setting, GoodOp, Published, Run, RunRepo, Listed, IdentityOf, Identities, WithoutDebs, GoodComponent;
    var all := ops + [RemoveOp(component, name, version, date)];
    assert all[..|ops|] == ops;
    RemovesAreGood(t, all[|ops|]);
    PublishedIsListed(t, cfg, listing, ops, id);
    PublishedIsListed(t, cfg, listing, all, id);
    RunRepoRemove(t, cfg, all, id, component, name, version, date);
    RemoveIdentities(Listed(RunRepo(t, cfg, ops), id), name, version);
  }

  lemma RemovesAreGood(t: Tools, op: Op)
    requires op.RemoveOp? && GoodComponent(ComponentOf(op.component))
    ensures GoodOp(t, op)
  {
  }

  /** The order of the Adds decides what the index lists exactly when there is a tie at the cut. */
  lemma OrderMattersExactlyForTies(t: Tools, cfg: Config, listing: set<string> -> seq<string>, ops: seq<Op>,
                                   id: IndexId)
    requires Setting(t, cfg) && Enumerates(listing) && GoodId(id) && cfg.keepVersions > 0 && OnlyAdds(t, ops)
    ensures (exists other :: multiset(other) == multiset(ops) &&
               Published(cfg, Run(t, cfg, listing, map[], other), id) !=
               Published(cfg, Run(t, cfg, listing, map[], ops), id))
            <==> TieAtCut(cfg, Standing(t, cfg, ops, id))
  {
    hide Standing, Setting, OnlyAdds, Published, Run, RunRepo, EverAdded, Listed, Arrivals.Arrived, Arrivals.TieAtCut,
      Arrivals.Lists, Arrivals.OrdersSet, AddsTo, Elements;
    var runs := Runs(t, cfg, id);
    forall other | multiset(other) == multiset(ops)
      ensures Published(cfg, Run(t, cfg, listing, map[], other), id) == Some(Elements(runs(other)))
    {
      Reordered(t, ops, other);
      AddsAreGood(t, other);
      PublishedIsListed(t, cfg, listing, other, id);
    }
    AddsStand(t, cfg, ops, id);
    EverAddedArrived(t, ops, id);
    RunsList(t, cfg, ops, id);
    Arrivals.OrderMattersExactlyForTies(ops, Brings(t, id), runs, cfg.keepVersions, IdentityName, CompareIdentities);
    if TieAtCut(cfg, EverAdded(t, ops, id)) {
      var other :| multiset(other) == multiset(ops) && Elements(runs(other)) != Elements(runs(ops));
      assert Published(cfg, Run(t, cfg, listing, map[], other), id) !=
             Published(cfg, Run(t, cfg, listing, map[], ops), id);
    } else {
      forall other | multiset(other) == multiset(ops)
        ensures Published(cfg, Run(t, cfg, listing, map[], other), id) ==
                Published(cfg, Run(t, cfg, listing, map[], ops), id)
      {
        assert Elements(runs(other)) == Elements(runs(ops));
      }
    }
  }

  /** An entry of the stored index names a file, and its bytes are those last added under the entry's name and
      version. */
  lemma StoredIsLastAdded(t: Tools, cfg: Config, listing: set<string> -> seq<string>, ops: seq<Op>, id: IndexId)
    requires Setting(t, cfg) && Enumerates(listing) && GoodId(id) && GoodOps(t, ops)
    ensures var b := Run(t, cfg, listing, map[], ops);
            var r := ReadPackages(b, IndexKey(cfg, id));
            r.Some? && forall e | e in r.value ::
              var fn, last := Get(e.fields, "Filename"), LastAdded(t, ops, id, Identity(e.name, e.version));
              fn.Some? && last.Some? && Has(b, fn.value, last.value.data)
  {
    hide Represents, Run, RunRepo, GoodOp, ReadPackages, PackagesKey, Setting, Get, PoolPath, PoolFields, LastAdded,
      ParseDeb, GoodPackage, DebVersion.NonNegativeEpoch;
    RunRepresents(t, cfg, listing, ops);
    ListedIsLastAdded(t, cfg, ops, id);
    var b, repo := Run(t, cfg, listing, map[], ops), RunRepo(t, cfg, ops);
    ReadsListed(t, cfg, b, repo, id);
    var l := Listed(repo, id);
    var es := Entries(t, id.component, l);
    forall e | e in es
      ensures var fn, last := Get(e.fields, "Filename"), LastAdded(t, ops, id, Identity(e.name, e.version));
              fn.Some? && last.Some? && Has(b, fn.value, last.value.data)
    {
      var i :| 0 <= i < |es| && es[i] == e;
      assert l[i] in l;
      RepresentedIsValid(t, cfg, b, repo, id);
      PoolIsThere(t, cfg, b, repo, id);
      GoodIsPublishable(t, l[i]);
      EntryFields(t, id.component, l[i]);
    }
  }
}
