/**
 An apt and a yum repository in one bucket. Whatever the order in which their store calls reach it, neither notices
 the other.
 */
module Coexistence {
  import opened Text
  import opened Storage
  import opened Interleaving
  import Apt
  import AptInvariant
  import AptRuns
  import AptProgram
  import Yum
  import YumSafety
  import YumRuns
  import YumProgram

  /** No key belongs to both. */
  lemma RegionsDisjoint()
    ensures Disjoint(AptProgram.AptRegion, YumProgram.YumRegion)
  {
    forall k ensures !(AptProgram.AptRegion(k) && YumProgram.YumRegion(k)) {
      if AptProgram.AptRegion(k) {
        assert k[0] == 'p' || k[0] == 'd';
      }
      if YumProgram.YumRegion(k) {
        assert k[0] == 'P' || k[0] == 'r';
      }
    }
  }

  /** At any moment, each repository is as its own publisher alone would have left it after the calls it has made. */
  lemma NeitherNotices(a: Apt.Tools, ac: Apt.Config, aptOps: seq<AptRuns.Op>,
                       y: Yum.Tools, c: YumSafety.Client, yc: Yum.Config, yumOps: seq<YumSafety.Op>,
                       listing: set<string> -> seq<string>, schedule: seq<bool>)
    requires Enumerates(listing)
    requires AptInvariant.Setting(a, ac) && forall op | op in aptOps :: AptRuns.GoodOp(a, op)
    requires YumSafety.Faithful(y, c) && forall op | op in yumOps :: YumSafety.SafeOp(y, op)
    ensures var p, q := AptProgram.RunProgram(a, ac, listing, aptOps), YumProgram.RunProgram(y, yc, listing, yumOps);
            var z := Together(p, q, map[], schedule);
            var apt, yum := Alone(p, map[], Turns(schedule, true)), Alone(q, map[], Turns(schedule, false));
            && z.left == apt.program && Part(z.bucket, AptProgram.AptRegion) == Part(apt.bucket, AptProgram.AptRegion)
            && z.right == yum.program && Part(z.bucket, YumProgram.YumRegion) == Part(yum.bucket, YumProgram.YumRegion)
            && forall k | k in z.bucket :: AptProgram.AptRegion(k) || YumProgram.YumRegion(k)
  {
    hide AptRuns.Run, YumRuns.Run, Reaches, KeepsTo, Alone, Together, Part, Turns, AptProgram.RunProgram,
      YumProgram.RunProgram,
      AptRuns.GoodOp, YumSafety.SafeOp, AptProgram.AptRegion, YumProgram.YumRegion, YumSafety.Faithful,
      AptInvariant.Setting;
    var p, q := AptProgram.RunProgram(a, ac, listing, aptOps), YumProgram.RunProgram(y, yc, listing, yumOps);
    AptProgram.AloneIsRun(a, ac, listing, aptOps);
    YumProgram.AloneIsRun(y, c, yc, listing, yumOps);
    var _ := ReachesEnd(p, map[], AptRuns.Run(a, ac, listing, map[], aptOps), AptProgram.AptRegion);
    var _ := ReachesEnd(q, map[], YumRuns.Run(y, yc, listing, yumOps), YumProgram.YumRegion);
    RegionsDisjoint();
    EachAsIfAlone(p, q, map[], schedule, AptProgram.AptRegion, YumProgram.YumRegion);
    var z := Together(p, q, map[], schedule);
    forall k | k in z.bucket ensures AptProgram.AptRegion(k) || YumProgram.YumRegion(k) {
      assert !Neither(AptProgram.AptRegion, YumProgram.YumRegion, k);
    }
  }

  /** Once both have made all their calls, in whatever order, the bucket is the apt repository of a bucket of its own
      and the yum repository of a bucket of its own. */
  lemma EachItsOwnRepository(a: Apt.Tools, ac: Apt.Config, aptOps: seq<AptRuns.Op>,
                             y: Yum.Tools, c: YumSafety.Client, yc: Yum.Config, yumOps: seq<YumSafety.Op>,
                             listing: set<string> -> seq<string>) returns (m: nat, n: nat)
    requires Enumerates(listing)
    requires AptInvariant.Setting(a, ac) && forall op | op in aptOps :: AptRuns.GoodOp(a, op)
    requires YumSafety.Faithful(y, c) && forall op | op in yumOps :: YumSafety.SafeOp(y, op)
    ensures var p, q := AptProgram.RunProgram(a, ac, listing, aptOps), YumProgram.RunProgram(y, yc, listing, yumOps);
            forall schedule | Turns(schedule, true) >= m && Turns(schedule, false) >= n ::
              Together(p, q, map[], schedule) ==
              Pair(Done, Done, AptRuns.Run(a, ac, listing, map[], aptOps) + YumRuns.Run(y, yc, listing, yumOps))
  {
    hide AptRuns.Run, YumRuns.Run, Reaches, Together, Turns, AptProgram.RunProgram, YumProgram.RunProgram,
      AptRuns.GoodOp, YumSafety.SafeOp, YumSafety.Faithful, AptInvariant.Setting;
    AptProgram.AloneIsRun(a, ac, listing, aptOps);
    YumProgram.AloneIsRun(y, c, yc, listing, yumOps);
    RegionsDisjoint();
    m, n := BothToTheEnd(AptProgram.RunProgram(a, ac, listing, aptOps), YumProgram.RunProgram(y, yc, listing, yumOps),
                         AptRuns.Run(a, ac, listing, map[], aptOps), YumRuns.Run(y, yc, listing, yumOps),
                         AptProgram.AptRegion, YumProgram.YumRegion);
  }
}
