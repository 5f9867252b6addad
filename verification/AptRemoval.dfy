/**
 A Remove that is stopped and run again. Its memory are the indexes, which it rewrites one after the other, each before
 its compressed copy: an index that has been rewritten is passed over. What has been stopped heals exactly as long as
 some index still lists the package, except for the copy of an index after which it was stopped.
 */
module AptRemoval {
  import opened Wrappers
  import opened Text
  import opened Paths
  import opened Storage
  import opened Control
  import opened RetentionLaws
  import opened Apt
  import opened AptKeys
  import opened AptState
  import opened AptInvariant
  import opened AptRuns
  import AptHealing

  /** A Remove in a bucket that holds a repository. */
  datatype Task = Task(t: Tools, cfg: Config, b: Bucket, repo: Repo, component: string, name: string, version: string)

  ghost predicate Sound(j: Task) {
    Setting(j.t, j.cfg) && Represents(j.t, j.cfg, j.b, j.repo) && Plain(j.component)
  }

  /** The indexes that list the package. */
  ghost function Matched(j: Task): set<IndexId> {
    set id | id in j.repo && id.component == j.component && MatchingDebs(j.repo[id], j.name, j.version) != []
  }

  function Index(j: Task, id: IndexId): string {
    FileKey(j.cfg, id, "Packages")
  }

  function Copy(j: Task, id: IndexId): string {
    FileKey(j.cfg, id, "Packages.gz")
  }

  /** What is written for an index, and as its copy. */
  function Content(j: Task, id: IndexId): string {
    BuildPackages(Entries(j.t, id.component, WithoutDebs(Listed(j.repo, id), j.name, j.version)))
  }

  function Zipped(j: Task, id: IndexId): string {
    j.t.gzip(Content(j, id))
  }

  /** The files that are deleted for an index. */
  function Files(j: Task, id: IndexId): seq<string> {
    Map(PoolOf(id.component), MatchingDebs(Listed(j.repo, id), j.name, j.version))
  }

  ghost predicate IsFile(j: Task, k: string) {
    exists id :: id in Matched(j) && k in Files(j, id)
  }

  ghost predicate IsIndex(j: Task, k: string) {
    exists id :: id in Matched(j) && (k == Index(j, id) || k == Copy(j, id))
  }

  ghost predicate IsRelease(j: Task, k: string) {
    exists f :: IsReleaseName(f) && k == ReleaseKey(j.cfg, f)
  }

  /** The indexes that have been rewritten. */
  ghost function Done(j: Task, x: Bucket): set<IndexId> {
    set id | id in Matched(j) && Has(x, Index(j, id), Content(j, id))
  }

  /** Those of them of which the copy has not been. */
  ghost function Torn(j: Task, x: Bucket): set<IndexId> {
    set id | id in Done(j, x) && !Has(x, Copy(j, id), Zipped(j, id))
  }

  /** Where attempts at the Remove may have got to. The Release files are written once all indexes are. */
  ghost predicate Removing(j: Task, x: Bucket) {
    && (forall id | id in Matched(j) && id !in Done(j, x) :: Same(j.b, x, Index(j, id)) && Same(j.b, x, Copy(j, id)))
    && (forall id | id in Done(j, x) ::
          && (forall k | k in Files(j, id) :: k !in x)
          && (Same(j.b, x, Copy(j, id)) || Has(x, Copy(j, id), Zipped(j, id))))
    && (forall k | !IsFile(j, k) && !IsIndex(j, k) && !(IsRelease(j, k) && Done(j, x) == Matched(j)) :: Same(j.b, x, k))
  }

  // ----- keys

  /** Files, indexes and Release files have keys of their own. */
  ghost predicate KeysApart(j: Task) {
    && (forall id, ie | id in Matched(j) && ie in Matched(j) ::
          (Index(j, id) == Index(j, ie) || Copy(j, id) == Copy(j, ie) ==> id == ie) && Index(j, id) != Copy(j, ie))
    && (forall k | IsFile(j, k) :: !IsIndex(j, k) && !IsRelease(j, k))
    && (forall k | IsRelease(j, k) :: !IsIndex(j, k))
  }

  lemma MatchedIsGood(j: Task, id: IndexId)
    requires Sound(j) && id in Matched(j)
    ensures GoodId(id) && id in j.repo && ValidIndex(j.t, j.cfg, id, j.repo[id])
    ensures forall d | d in MatchingDebs(j.repo[id], j.name, j.version) ::
              d in j.repo[id] && GoodDeb(j.t, d) && d.pkg.architecture == id.arch
  {
    hide Represents, GoodDeb, MatchingDebs, Setting, SameIdentity, RetentionLaws.Capped;
    RepresentedIsValid(j.t, j.cfg, j.b, j.repo, id);
    WithoutIs(j.repo[id], j.name, j.version);
    var l := j.repo[id];
    forall d | d in l ensures GoodDeb(j.t, d) && d.pkg.architecture == id.arch {
      var i :| 0 <= i < |l| && l[i] == d;
    }
  }

  lemma FileIsInPool(j: Task, id: IndexId, k: string)
    requires Sound(j) && id in Matched(j) && k in Files(j, id)
    ensures HasPrefix(k, "pool/")
  {
    hide Represents, GoodDeb, MatchingDebs, PoolFiles, HasPrefix, Setting, ValidIndex, GoodId;
    var l := MatchingDebs(j.repo[id], j.name, j.version);
    MatchedIsGood(j, id);
    PoolFilesAre(id.component, l);
    PoolFilesInPool(j.t, id, l);
    assert k in Elements(Files(j, id));
  }

  lemma KeysAreApart(j: Task)
    requires Sound(j)
    ensures KeysApart(j)
  {
    hide Represents, Matched, FileKey, Files, ReleaseKey, ValidIndex, GoodDeb, GoodId, DistDir, MatchingDebs, Base;
    forall id, ie | id in Matched(j) && ie in Matched(j)
      ensures (Index(j, id) == Index(j, ie) || Copy(j, id) == Copy(j, ie) ==> id == ie) && Index(j, id) != Copy(j, ie)
    {
      MatchedIsGood(j, id);
      MatchedIsGood(j, ie);
      IndexesApart(j, id, ie);
    }
    forall k | IsFile(j, k) ensures !IsIndex(j, k) && !IsRelease(j, k) {
      var id :| id in Matched(j) && k in Files(j, id);
      FileIsInPool(j, id, k);
      if ie :| ie in Matched(j) && (k == Index(j, ie) || k == Copy(j, ie)) {
        MatchedIsGood(j, ie);
        IndexKeyInDist(j.cfg, ie, "Packages");
        IndexKeyInDist(j.cfg, ie, "Packages.gz");
        PoolIsNotDist(k, k);
      }
      if f :| IsReleaseName(f) && k == ReleaseKey(j.cfg, f) {
        ReleaseKeyIs(j.cfg, f);
        DistDirIs(j.cfg);
        PoolIsNotDist(k, k);
      }
    }
    forall k | IsRelease(j, k) ensures !IsIndex(j, k) {
      var f :| IsReleaseName(f) && k == ReleaseKey(j.cfg, f);
      forall id | id in Matched(j) ensures k != Index(j, id) && k != Copy(j, id) {
        MatchedIsGood(j, id);
        ReleaseIsNoIndex(j.cfg, f, id, "Packages");
        ReleaseIsNoIndex(j.cfg, f, id, "Packages.gz");
      }
    }
  }

  lemma IndexesApart(j: Task, id: IndexId, ie: IndexId)
    requires Plain(j.cfg.distribution) && GoodId(id) && GoodId(ie)
    ensures Index(j, id) == Index(j, ie) || Copy(j, id) == Copy(j, ie) ==> id == ie
    ensures Index(j, id) != Copy(j, ie)
  {
    hide FileKey, GoodId;
    if Index(j, id) == Index(j, ie) {
      IndexKeyInjective(j.cfg, id, "Packages", ie, "Packages");
    }
    if Copy(j, id) == Copy(j, ie) {
      IndexKeyInjective(j.cfg, id, "Packages.gz", ie, "Packages.gz");
    }
    if Index(j, id) == Copy(j, ie) {
      IndexKeyInjective(j.cfg, id, "Packages", ie, "Packages.gz");
    }
  }

  // ----- the writes for one index

  function StepsOf(j: Task, id: IndexId): seq<Step> {
    Deletes(Files(j, id)) + [Put(Index(j, id), Content(j, id)), Put(Copy(j, id), Zipped(j, id))]
  }

  /** The bucket after the first so many of them. */
  lemma CutSteps(j: Task, x: Bucket, id: IndexId, k: nat)
    requires k <= |StepsOf(j, id)|
    ensures var n, y := |Files(j, id)|, Apply(x, StepsOf(j, id)[..k]);
            && |StepsOf(j, id)| == n + 2
            && (k <= n ==> y == x - Elements(Files(j, id)[..k]))
            && (k == n + 1 ==> y == (x - Elements(Files(j, id)))[Index(j, id) := Content(j, id)])
            && (k == n + 2 ==>
                  y == (x - Elements(Files(j, id)))[Index(j, id) := Content(j, id)][Copy(j, id) := Zipped(j, id)])
  {
    hide Files, Index, Copy, Content, Zipped, Apply;
    var fs := Files(j, id);
    var n, steps := |fs|, StepsOf(j, id);
    var p, q := Put(Index(j, id), Content(j, id)), Put(Copy(j, id), Zipped(j, id));
    ApplyDeletes(x, fs);
    if k <= n {
      assert steps[..k] == Deletes(fs[..k]);
      ApplyDeletes(x, fs[..k]);
    } else if k == n + 1 {
      assert steps[..k] == Deletes(fs) + [p];
      ApplyConcat(x, Deletes(fs), [p]);
      ApplyOne(Apply(x, Deletes(fs)), p);
    } else {
      assert steps[..k] == Deletes(fs) + [p, q];
      TwoPuts(x, Deletes(fs), p.key, p.body, q.key, q.body);
    }
  }

  /** What the first so many of them leave: the index's own keys apart, things as they were. */
  ghost predicate Progress(j: Task, x: Bucket, id: IndexId, k: nat, y: Bucket) {
    var n := |Files(j, id)|;
    && (forall key | key !in Files(j, id) && key != Index(j, id) && key != Copy(j, id) :: Same(x, y, key))
    && (forall key | key in Files(j, id) :: Same(x, y, key) || key !in y)
    && (if k > n then Has(y, Index(j, id), Content(j, id)) && forall key | key in Files(j, id) :: key !in y
        else Same(x, y, Index(j, id)))
    && (if k > n + 1 then Has(y, Copy(j, id), Zipped(j, id)) else Same(x, y, Copy(j, id)))
  }

  lemma CutProgress(j: Task, x: Bucket, id: IndexId, k: nat)
    requires KeysApart(j) && id in Matched(j) && k <= |StepsOf(j, id)|
    ensures Progress(j, x, id, k, Apply(x, StepsOf(j, id)[..k]))
  {
    hide Matched, Files, Index, Copy, Content, Zipped, IsRelease, IsIndex, IsFile, KeysApart, StepsOf, Apply;
    CutSteps(j, x, id, k);
    OwnKeys(j, id);
    var y, fs := Apply(x, StepsOf(j, id)[..k]), Files(j, id);
    var n := |fs|;
    assert k <= n ==> forall key | key in Elements(fs[..k]) :: key in fs;
  }

  lemma OwnKeys(j: Task, id: IndexId)
    requires KeysApart(j) && id in Matched(j)
    ensures Index(j, id) != Copy(j, id)
    ensures forall key | key in Files(j, id) :: IsFile(j, key) && key != Index(j, id) && key != Copy(j, id)
    ensures IsIndex(j, Index(j, id)) && IsIndex(j, Copy(j, id))
  {
    hide Matched, Files, Index, Copy, IsRelease;
    forall key | key in Files(j, id) ensures IsFile(j, key) && key != Index(j, id) && key != Copy(j, id) {
      assert IsFile(j, key);
      assert !IsIndex(j, key);
    }
  }

  lemma OthersKeys(j: Task, id: IndexId, ie: IndexId)
    requires KeysApart(j) && id in Matched(j) && ie in Matched(j) && id != ie
    ensures Index(j, ie) !in Files(j, id) && Index(j, ie) != Index(j, id) && Index(j, ie) != Copy(j, id)
    ensures Copy(j, ie) !in Files(j, id) && Copy(j, ie) != Index(j, id) && Copy(j, ie) != Copy(j, id)
  {
    hide Matched, Files, Index, Copy, IsRelease;
    assert IsIndex(j, Index(j, ie)) && IsIndex(j, Copy(j, ie));
    assert forall key | key in Files(j, id) :: IsFile(j, key);
  }

  lemma ProgressDone(j: Task, x: Bucket, id: IndexId, k: nat, y: Bucket)
    requires KeysApart(j) && id in Matched(j) && id !in Done(j, x) && Progress(j, x, id, k, y)
    ensures Done(j, y) == Done(j, x) + if k > |Files(j, id)| then {id} else {}
    ensures k != |Files(j, id)| + 1 ==> Torn(j, y) == Torn(j, x)
    ensures forall ie | ie in Matched(j) && ie != id :: Same(x, y, Index(j, ie)) && Same(x, y, Copy(j, ie))
  {
    hide Matched, Files, Index, Copy, Content, Zipped, IsRelease, KeysApart;
    OwnKeys(j, id);
    forall ie | ie in Matched(j) && ie != id ensures Same(x, y, Index(j, ie)) && Same(x, y, Copy(j, ie)) {
      OthersKeys(j, id, ie);
    }
  }

  /** Stopped in the writes for an index: it has been rewritten or not, and so has its copy. */
  lemma CutIndex(j: Task, x: Bucket, id: IndexId, k: nat)
    requires KeysApart(j) && Removing(j, x) && id in Matched(j) && id !in Done(j, x) && k <= |StepsOf(j, id)|
    ensures var y, n := Apply(x, StepsOf(j, id)[..k]), |Files(j, id)|;
            && Removing(j, y)
            && Done(j, y) == Done(j, x) + (if k > n then {id} else {})
            && (k != n + 1 ==> Torn(j, y) == Torn(j, x))
  {
    hide Matched, Files, Index, Copy, Content, Zipped, IsRelease, StepsOf, Apply, KeysApart, Done, Torn;
    var y := Apply(x, StepsOf(j, id)[..k]);
    CutProgress(j, x, id, k);
    ProgressDone(j, x, id, k, y);
    DoneStays(j, x, id, k, y);
    assert Done(j, x) != Matched(j);
    forall ie | ie in Matched(j) && ie !in Done(j, y)
      ensures Same(j.b, y, Index(j, ie)) && Same(j.b, y, Copy(j, ie))
    {
      assert Same(j.b, x, Index(j, ie)) && Same(j.b, x, Copy(j, ie));
    }
    DoneIsMatched(j, x);
    forall ie | ie in Done(j, y) ensures Same(j.b, y, Copy(j, ie)) || Has(y, Copy(j, ie), Zipped(j, ie)) {
      assert ie == id || ie in Done(j, x);
    }
    OwnKeys(j, id);
    forall key | !IsFile(j, key) && !IsIndex(j, key) ensures Same(j.b, y, key) {
      assert key !in Files(j, id);
      assert Same(j.b, x, key) && Same(x, y, key);
    }
  }

  lemma DoneIsMatched(j: Task, x: Bucket)
    ensures Done(j, x) <= Matched(j)
  {
    hide Matched;
  }

  lemma DoneStays(j: Task, x: Bucket, id: IndexId, k: nat, y: Bucket)
    requires KeysApart(j) && id in Matched(j) && Progress(j, x, id, k, y)
    requires forall ie | ie in Done(j, x) :: forall f | f in Files(j, ie) :: f !in x
    ensures forall ie | ie in Done(j, x) :: forall f | f in Files(j, ie) :: f !in y
  {
    hide Matched, Files, Index, Copy, Content, Zipped, IsRelease;
    forall ie, f | ie in Done(j, x) && f in Files(j, ie) ensures f !in y {
      assert IsFile(j, f);
      assert IsIndex(j, Index(j, id)) && IsIndex(j, Copy(j, id));
    }
  }

  // ----- one index after the other

  function StepsFor(j: Task, todo: seq<IndexId>): seq<Step> {
    if todo == [] then [] else StepsOf(j, todo[0]) + StepsFor(j, todo[1..])
  }

  /** The indexes that are still to be rewritten. */
  ghost function Pending(j: Task, x: Bucket): set<IndexId> {
    Matched(j) - Done(j, x)
  }

  /** Some of them, none twice. */
  ghost predicate InTurn(j: Task, x: Bucket, todo: seq<IndexId>) {
    (forall id | id in todo :: id in Pending(j, x)) && forall m, n :: 0 <= m < n < |todo| ==> todo[m] != todo[n]
  }

  lemma NextInTurn(j: Task, x: Bucket, z: Bucket, todo: seq<IndexId>)
    requires todo != [] && InTurn(j, x, todo)
    ensures todo[0] in Matched(j) && todo[0] !in Done(j, x)
    ensures Done(j, z) == Done(j, x) + {todo[0]} ==>
              InTurn(j, z, todo[1..]) && Pending(j, z) == Pending(j, x) - {todo[0]}
    ensures Elements(todo) == {todo[0]} + Elements(todo[1..])
  {
    hide Matched, Done;
    assert todo[0] in todo && todo == [todo[0]] + todo[1..];
    if Done(j, z) == Done(j, x) + {todo[0]} {
      NextsPending(j, x, z, todo);
    }
  }

  lemma NextsPending(j: Task, x: Bucket, z: Bucket, todo: seq<IndexId>)
    requires todo != [] && InTurn(j, x, todo) && Done(j, z) == Done(j, x) + {todo[0]}
    ensures InTurn(j, z, todo[1..])
  {
    hide Matched, Done;
    forall id | id in todo[1..] ensures id in Pending(j, z) {
      var m :| 0 <= m < |todo| - 1 && todo[1..][m] == id;
      assert todo[m + 1] == id && todo[m + 1] in todo && todo[0] != todo[m + 1];
    }
  }

  lemma NoElements()
    ensures Elements<IndexId>([]) == {}
  {
  }

  lemma {:induction false} CutFor(j: Task, x: Bucket, todo: seq<IndexId>, k: nat)
    requires KeysApart(j) && Removing(j, x) && InTurn(j, x, todo) && k <= |StepsFor(j, todo)|
    ensures var y := Apply(x, StepsFor(j, todo)[..k]);
            && Removing(j, y)
            && (k == |StepsFor(j, todo)| ==>
                  Done(j, y) == Done(j, x) + Elements(todo) && Torn(j, y) == Torn(j, x))
    decreases |todo|
  {
    hide KeysApart, Removing, Matched, Done, Torn, StepsOf, Apply, InTurn, Elements;
    if todo == [] {
      ApplyNothing(x);
      assert StepsFor(j, todo)[..k] == [];
      NoElements();
    } else {
      var id, first, rest := todo[0], StepsOf(j, todo[0]), StepsFor(j, todo[1..]);
      NextInTurn(j, x, Apply(x, first), todo);
      if k < |first| {
        assert StepsFor(j, todo)[..k] == first[..k];
        CutIndex(j, x, id, k);
      } else {
        var z := Apply(x, first);
        assert first[..|first|] == first && StepsFor(j, todo)[..k] == first + rest[..k - |first|];
        CutSteps(j, x, id, |first|);
        CutIndex(j, x, id, |first|);
        ApplyConcat(x, first, rest[..k - |first|]);
        CutFor(j, z, todo[1..], k - |first|);
      }
    }
  }

  // ----- what a Remove finds

  ghost predicate ListedKey(j: Task, k: string) {
    && Known(j.cfg, j.repo.Keys, k)
    && forall id | id in j.repo && k == Index(j, id) :: id.component == j.component
  }

  lemma {:induction false} MatchingLength(l: seq<Deb>, name: string, version: string)
    ensures |WithoutDebs(l, name, version)| + |MatchingDebs(l, name, version)| == |l|
    ensures MatchingDebs(WithoutDebs(l, name, version), name, version) == []
  {
    hide Matches;
    if l != [] {
      var rest := WithoutDebs(l[1..], name, version);
      MatchingLength(l[1..], name, version);
      if !Matches(l[0].pkg, name, version) {
        assert ([l[0]] + rest)[1..] == rest;
      } else {
        assert [] + rest == rest;
      }
    }
  }

  /** An index that has been rewritten reads as what was written, and lists the package no more. */
  lemma ReadsContent(j: Task, x: Bucket, id: IndexId)
    requires Sound(j) && id in Matched(j) && Has(x, Index(j, id), Content(j, id))
    ensures ReadPackages(x, Index(j, id)) ==
            Some(Entries(j.t, id.component, WithoutDebs(j.repo[id], j.name, j.version)))
  {
    hide Represents, ValidIndex, GoodDeb, GoodId, FileKey, Entries, WithoutDebs, MatchingDebs, BuildPackages,
      ParseControlFile, Plain;
    MatchedIsGood(j, id);
    WithoutValid(j.t, j.cfg, id, j.repo[id], j.name, j.version);
    IndexReadsBack(j.t, j.cfg, id, WithoutDebs(j.repo[id], j.name, j.version));
  }

  /** An index of the repository, as it was. */
  lemma ReadsAsBefore(j: Task, x: Bucket, id: IndexId)
    requires Sound(j) && id in j.repo && Same(j.b, x, Index(j, id))
    ensures GoodId(id) && ReadPackages(x, Index(j, id)) == Some(Entries(j.t, id.component, j.repo[id]))
  {
    hide Represents, ValidIndex, GoodDeb, GoodId, FileKey, PackagesKey, Entries, ReadPackages, Plain;
    RepresentedIsValid(j.t, j.cfg, j.b, j.repo, id);
    ReadsListed(j.t, j.cfg, j.b, j.repo, id);
    assert Plain(j.cfg.distribution);
    FileKeyIs(j.cfg, id);
    AptHealing.ReadSame(j.b, x, Index(j, id));
  }

  /** No index is as it will be rewritten. */
  lemma NothingDone(j: Task)
    requires Sound(j)
    ensures Done(j, j.b) == {} && Torn(j, j.b) == {}
  {
    hide Represents, GoodDeb, Matched, FileKey, Entries, WithoutDebs, MatchingDebs, BuildPackages, ReadPackages,
      Setting;
    if id :| id in Done(j, j.b) {
      MatchedIsGood(j, id);
      ReadsContent(j, j.b, id);
      ReadsAsBefore(j, j.b, id);
      MatchingLength(j.repo[id], j.name, j.version);
      EntriesEmpty(j.t, id.component, j.repo[id]);
      EntriesEmpty(j.t, id.component, WithoutDebs(j.repo[id], j.name, j.version));
      MatchedLists(j, id);
      assert false;
    }
  }

  lemma MatchedLists(j: Task, id: IndexId)
    requires id in Matched(j)
    ensures id in j.repo && id.component == j.component && |MatchingDebs(j.repo[id], j.name, j.version)| > 0
  {
    hide MatchingDebs;
  }

  lemma StartsRemoving(j: Task)
    requires Sound(j)
    ensures Removing(j, j.b)
  {
    hide Sound, Matched, Files, Index, Copy, Content, Zipped, Done;
    NothingDone(j);
  }

  /** What a Remove plans for one of the keys it lists: to rewrite an index that still lists the package, or nothing. */
  lemma RemoveOneIs(j: Task, x: Bucket, k: string)
    requires Sound(j) && KeysApart(j) && Removing(j, x) && ListedKey(j, k)
    ensures (forall id | id in Pending(j, x) :: Index(j, id) != k) ==>
              RemoveOne(j.t, x, k, j.name, j.version) == Removal(Plan([], true), 0)
    ensures forall id | id in Pending(j, x) && Index(j, id) == k ::
              RemoveOne(j.t, x, k, j.name, j.version) ==
              Removal(Plan(StepsOf(j, id), true), |MatchingDebs(Listed(j.repo, id), j.name, j.version)|)
  {
    hide Represents, Matched, Files, FileKey, Content, Zipped, Done, RemoveOne, StepsOf, Known, MatchingDebs, Removing,
      KeysApart, Setting;
    if id :| id in j.repo && Index(j, id) == k {
      forall ie | ie in Pending(j, x) && Index(j, ie) == k ensures ie == id {
        SameIndex(j, id, ie);
      }
      if id in Pending(j, x) {
        RemovePending(j, x, id);
      } else {
        RemovePassed(j, x, id);
      }
    } else {
      assert Setting(j.t, j.cfg) by {
        assert Sound(j);
      }
      RemoveSkips(j.t, j.cfg, x, j.repo.Keys, k, j.name, j.version);
      forall id | id in Pending(j, x) ensures Index(j, id) != k {
        MatchedLists(j, id);
      }
    }
  }

  lemma SameIndex(j: Task, id: IndexId, ie: IndexId)
    requires Sound(j) && id in j.repo && ie in Matched(j) && Index(j, id) == Index(j, ie)
    ensures id == ie
  {
    hide Represents, Matched, FileKey, GoodId, ValidIndex, GoodDeb;
    RepresentedIsValid(j.t, j.cfg, j.b, j.repo, id);
    MatchedIsGood(j, ie);
    IndexesApart(j, id, ie);
  }

  lemma RemovePending(j: Task, x: Bucket, id: IndexId)
    requires Sound(j) && Removing(j, x) && id in Pending(j, x)
    ensures RemoveOne(j.t, x, Index(j, id), j.name, j.version) ==
            Removal(Plan(StepsOf(j, id), true), |MatchingDebs(Listed(j.repo, id), j.name, j.version)|)
  {
    hide Represents, FileKey, Done, MatchingDebs, WithoutDebs, Entries, BuildPackages, ReadPackages, RewriteIndex,
      Without, Matching, Base, PackagesKey, GoodDeb, GoodId, Plain, Matched, KeysApart, Setting, ValidIndex;
    MatchedLists(j, id);
    var l, key := j.repo[id], Index(j, id);
    var kept, removed := WithoutDebs(l, j.name, j.version), MatchingDebs(l, j.name, j.version);
    assert Same(j.b, x, key);
    MatchedIsGood(j, id);
    SettingIs(j);
    ReadsAsBefore(j, x, id);
    WithoutCommutes(j.t, id.component, l, j.name, j.version);
    EntriesEmpty(j.t, id.component, removed);
    FileKeyIs(j.cfg, id);
    IndexKeyInDist(j.cfg, id, "Packages");
    forall m | 0 <= m < |removed| ensures Publishable(removed[m].pkg) {
      assert removed[m] in removed;
      GoodIsPublishable(j.t, removed[m]);
    }
    hide Publishable;
    AptHealing.RewriteParts(j.t, j.cfg, id, kept, removed);
  }

  lemma SettingIs(j: Task)
    requires Sound(j)
    ensures Setting(j.t, j.cfg) && Plain(j.cfg.distribution) && Represents(j.t, j.cfg, j.b, j.repo)
    ensures Plain(j.component)
  {
    hide Represents;
  }

  /** An index of the component that has been rewritten, or never listed the package. */
  lemma RemovePassed(j: Task, x: Bucket, id: IndexId)
    requires Sound(j) && KeysApart(j) && Removing(j, x)
    requires id in j.repo && id.component == j.component && id !in Pending(j, x)
    ensures RemoveOne(j.t, x, Index(j, id), j.name, j.version) == Removal(Plan([], true), 0)
  {
    hide Represents, FileKey, MatchingDebs, WithoutDebs, Entries, BuildPackages, ReadPackages, RewriteIndex,
      Without, Matching, Base, PackagesKey, GoodDeb, GoodId, Plain, Setting, ValidIndex, KeysApart, Files;
    var l, c := j.repo[id], id.component;
    SettingIs(j);
    var now: seq<Deb>;
    if id in Matched(j) {
      now := WithoutDebs(l, j.name, j.version);
      ReadsContent(j, x, id);
      MatchingLength(l, j.name, j.version);
    } else {
      now := l;
      UnmatchedIsKept(j, x, id);
      ReadsAsBefore(j, x, id);
    }
    WithoutCommutes(j.t, c, now, j.name, j.version);
    EntriesEmpty(j.t, c, MatchingDebs(now, j.name, j.version));
  }

  lemma UnmatchedIsKept(j: Task, x: Bucket, id: IndexId)
    requires Sound(j) && Removing(j, x) && id in j.repo && id !in Matched(j)
    ensures Same(j.b, x, Index(j, id))
  {
    hide Represents, FileKey, MatchingDebs, GoodDeb, GoodId, Plain, Setting, ValidIndex, Files, Done, Matched,
      ReleaseKey, HasPrefix;
    var k := Index(j, id);
    SettingIs(j);
    RepresentedIsValid(j.t, j.cfg, j.b, j.repo, id);
    IndexKeyInDist(j.cfg, id, "Packages");
    if IsFile(j, k) {
      var ie :| ie in Matched(j) && k in Files(j, ie);
      FileIsInPool(j, ie, k);
      PoolIsNotDist(k, k);
    }
    if IsIndex(j, k) {
      var ie :| ie in Matched(j) && (k == Index(j, ie) || k == Copy(j, ie));
      MatchedIsGood(j, ie);
      IndexesApart(j, id, ie);
    }
    if f :| IsReleaseName(f) && k == ReleaseKey(j.cfg, f) {
      ReleaseIsNoIndex(j.cfg, f, id, "Packages");
    }
  }

  /** The indexes to be rewritten, in the order in which their keys are listed. */
  ghost function Todo(j: Task, x: Bucket, keys: seq<string>): seq<IndexId> {
    if keys == [] then []
    else
      (if exists id :: id in Pending(j, x) && Index(j, id) == keys[0]
       then [var id :| id in Pending(j, x) && Index(j, id) == keys[0]; id]
       else []) + Todo(j, x, keys[1..])
  }

  /** How many entries they lose. */
  function CountFor(j: Task, todo: seq<IndexId>): nat {
    if todo == [] then 0
    else |MatchingDebs(Listed(j.repo, todo[0]), j.name, j.version)| + CountFor(j, todo[1..])
  }

  ghost predicate Unrepeated(keys: seq<string>) {
    forall m, n :: 0 <= m < n < |keys| ==> keys[m] != keys[n]
  }

  lemma InTurnCons(j: Task, x: Bucket, id: IndexId, todo: seq<IndexId>)
    requires InTurn(j, x, todo) && id in Pending(j, x) && id !in todo
    ensures InTurn(j, x, [id] + todo)
  {
    hide Pending;
  }

  lemma TodoSkip(j: Task, x: Bucket, keys: seq<string>)
    requires keys != [] && forall id | id in Pending(j, x) :: Index(j, id) != keys[0]
    ensures Todo(j, x, keys) == Todo(j, x, keys[1..])
  {
    hide Pending, Index;
    assert [] + Todo(j, x, keys[1..]) == Todo(j, x, keys[1..]);
  }

  lemma NoTodo(j: Task, x: Bucket)
    ensures Todo(j, x, []) == [] && InTurn(j, x, [])
  {
  }

  lemma {:induction false} TodoAre(j: Task, x: Bucket, keys: seq<string>)
    requires KeysApart(j) && Unrepeated(keys)
    ensures forall id :: id in Todo(j, x, keys) <==> id in Pending(j, x) && Index(j, id) in keys
    ensures InTurn(j, x, Todo(j, x, keys))
  {
    hide Pending, Index, KeysApart, Todo, InTurn;
    if keys == [] {
      NoTodo(j, x);
    } else {
      var k, rest := keys[0], Todo(j, x, keys[1..]);
      TodoAre(j, x, keys[1..]);
      assert keys == [k] + keys[1..] && k !in keys[1..];
      if id :| id in Pending(j, x) && Index(j, id) == k {
        TodoCons(j, x, keys, id);
        InTurnCons(j, x, id, rest);
        forall ie | ie in Pending(j, x) && Index(j, ie) == k ensures ie == id {
          IndexTells(j, x, id, ie);
        }
      } else {
        TodoSkip(j, x, keys);
      }
    }
  }

  lemma IndexTells(j: Task, x: Bucket, id: IndexId, ie: IndexId)
    requires KeysApart(j) && id in Pending(j, x) && ie in Pending(j, x) && Index(j, id) == Index(j, ie)
    ensures id == ie
  {
    hide Matched, Done, FileKey, Files, IsRelease, ReleaseKey;
  }

  /** Rewriting an index leaves the others to be done. */
  lemma {:induction false} TodoFrame(j: Task, x: Bucket, y: Bucket, id: IndexId, keys: seq<string>)
    requires KeysApart(j) && Pending(j, y) == Pending(j, x) - {id} && id in Matched(j) && Index(j, id) !in keys
    ensures Todo(j, y, keys) == Todo(j, x, keys)
  {
    hide Matched, Done, FileKey, Files, IsRelease, ReleaseKey;
    if keys != [] {
      TodoFrame(j, x, y, id, keys[1..]);
      assert keys[0] in keys;
      forall ie, ig | ie in Pending(j, x) && ig in Pending(j, x) && Index(j, ie) == Index(j, ig) == keys[0]
        ensures ie == ig
      {
      }
      assert forall ie | ie in Pending(j, x) && Index(j, ie) == keys[0] :: ie in Pending(j, y);
    }
  }

  lemma TodoCons(j: Task, x: Bucket, keys: seq<string>, id: IndexId)
    requires KeysApart(j) && keys != [] && id in Pending(j, x) && Index(j, id) == keys[0]
    ensures Todo(j, x, keys) == [id] + Todo(j, x, keys[1..])
  {
    hide Matched, Done, FileKey, Files, IsRelease, ReleaseKey;
    forall ie | ie in Pending(j, x) && Index(j, ie) == keys[0] ensures ie == id {
    }
  }

  lemma StepsCons(j: Task, id: IndexId, todo: seq<IndexId>)
    ensures StepsFor(j, [id] + todo) == StepsOf(j, id) + StepsFor(j, todo)
    ensures CountFor(j, [id] + todo) == |MatchingDebs(Listed(j.repo, id), j.name, j.version)| + CountFor(j, todo)
  {
    hide StepsOf, MatchingDebs;
    assert ([id] + todo)[1..] == todo;
  }

  /** A Remove goes through the indexes that still list the package, and passes over all others. */
  lemma {:induction false} RemoveAllIs(j: Task, x: Bucket, keys: seq<string>)
    requires Sound(j) && KeysApart(j) && Removing(j, x) && Unrepeated(keys) && forall k | k in keys :: ListedKey(j, k)
    ensures var todo := Todo(j, x, keys);
            RemoveAll(j.t, x, keys, j.name, j.version) == Removal(Plan(StepsFor(j, todo), true), CountFor(j, todo))
    decreases |keys|
  {
    hide Sound, KeysApart, Removing, Matched, Done, Torn, StepsOf, Apply, RemoveOne, ListedKey, Index, MatchingDebs;
    if keys != [] {
      var k, rest := keys[0], keys[1..];
      RemoveOneIs(j, x, k);
      var one := RemoveOne(j.t, x, k, j.name, j.version);
      assert [] + Todo(j, x, rest) == Todo(j, x, rest);
      if id :| id in Pending(j, x) && Index(j, id) == k {
        var steps := StepsOf(j, id);
        var y := Apply(x, steps);
        assert steps[..|steps|] == steps;
        CutSteps(j, x, id, |steps|);
        CutIndex(j, x, id, |steps|);
        assert Pending(j, y) == Pending(j, x) - {id};
        TodoFrame(j, x, y, id, rest);
        TodoCons(j, x, keys, id);
        StepsCons(j, id, Todo(j, x, rest));
        RemoveAllIs(j, y, rest);
      } else {
        ApplyNothing(x);
        RemoveAllIs(j, x, rest);
        var more := RemoveAll(j.t, x, rest, j.name, j.version);
        assert [] + more.plan.steps == more.plan.steps;
      }
    }
  }

  /** Whatever has been stopped where, what is listed are keys of indexes and Release files. */
  lemma ListsKnown(j: Task, x: Bucket, k: string)
    requires Sound(j) && Removing(j, x) && k in x && HasPrefix(k, ComponentDir(j.cfg, j.component))
    ensures ListedKey(j, k)
  {
    hide Represents, FileKey, ReleaseKey, DistDir, ComponentDir, Files, Done, Matched, GoodId, Plain, ValidIndex,
      GoodDeb;
    SettingIs(j);
    ComponentDirIs(j.cfg, j.component);
    DistDirIs(j.cfg);
    if id :| id in Matched(j) && k in Files(j, id) {
      FileIsInPool(j, id, k);
      PoolIsNotDist(k, k);
    }
    if id :| id in Matched(j) && (k == Index(j, id) || k == Copy(j, id)) {
      MatchedIsGood(j, id);
      assert IsKeyOf(j.cfg, id, k);
    } else if !IsRelease(j, k) {
      assert Same(j.b, x, k);
      KnownInRepository(j, k);
    }
    forall id | id in j.repo && k == Index(j, id) ensures id.component == j.component {
      RepresentedIsValid(j.t, j.cfg, j.b, j.repo, id);
      ComponentDirExact(j.cfg, j.component, id, "Packages");
    }
  }

  lemma KnownInRepository(j: Task, k: string)
    requires Sound(j) && k in j.b && HasPrefix(k, DistDir(j.cfg))
    ensures Known(j.cfg, j.repo.Keys, k)
  {
    hide GoodIndex, NoOrphans, IsKeyOf, ReleaseKey, DistDir;
    if id :| id in j.repo.Keys && IsKeyOf(j.cfg, id, k) {
      RepresentedIsValid(j.t, j.cfg, j.b, j.repo, id);
    }
  }

  /** An index that is pending is among them. */
  lemma PendingIsListed(j: Task, x: Bucket, id: IndexId)
    requires Sound(j) && Removing(j, x) && id in Pending(j, x)
    ensures Index(j, id) in x && HasPrefix(Index(j, id), ComponentDir(j.cfg, j.component))
  {
    hide Represents, FileKey, DistDir, ComponentDir, Files, Done, Matched, GoodId, Plain, ValidIndex, GoodDeb;
    SettingIs(j);
    MatchedLists(j, id);
    MatchedIsGood(j, id);
    WrittenIsThere(j.t, j.cfg, j.b, j.repo, id);
    ComponentDirExact(j.cfg, j.component, id, "Packages");
    assert Same(j.b, x, Index(j, id));
  }

  // ----- whole Removes

  /** The keys that a Remove lists. */
  function Listing(j: Task, listing: set<string> -> seq<string>, x: Bucket): seq<string> {
    listing(Keys(x, ComponentDir(j.cfg, j.component)))
  }

  ghost function Plans(j: Task, listing: set<string> -> seq<string>, x: Bucket, date: string): Removal {
    RemovePlan(j.t, j.cfg, x, listing, j.component, j.name, j.version, date)
  }

  lemma PendingIsTodo(j: Task, listing: set<string> -> seq<string>, x: Bucket)
    requires Sound(j) && Enumerates(listing) && Removing(j, x)
    ensures var todo := Todo(j, x, Listing(j, listing, x));
            && InTurn(j, x, todo) && Elements(todo) == Pending(j, x) && KeysApart(j)
            && RemoveAll(j.t, x, Listing(j, listing, x), j.name, j.version) ==
               Removal(Plan(StepsFor(j, todo), true), CountFor(j, todo))
  {
    hide Sound, KeysApart, Removing, Pending, StepsFor, CountFor, RemoveAll, ComponentDir, HasPrefix, Todo, InTurn,
      ListedKey, Index;
    var dir := ComponentDir(j.cfg, j.component);
    var keys := Listing(j, listing, x);
    KeysAreApart(j);
    forall k | k in keys ensures ListedKey(j, k) {
      assert k in Keys(x, dir);
      ListsKnown(j, x, k);
    }
    forall id | id in Pending(j, x) ensures Index(j, id) in keys {
      PendingIsListed(j, x, id);
      assert Index(j, id) in Keys(x, dir);
    }
    TodoAre(j, x, keys);
    RemoveAllIs(j, x, keys);
  }

  lemma {:induction false} CountIsPositive(j: Task, x: Bucket, todo: seq<IndexId>)
    requires InTurn(j, x, todo)
    ensures CountFor(j, todo) > 0 <==> todo != []
  {
    hide MatchingDebs, Done, Matched;
    if todo != [] {
      assert todo[0] in todo;
      MatchedLists(j, todo[0]);
    }
  }

  /** What a Remove plans, whatever has been stopped where. */
  lemma PlanIs(j: Task, listing: set<string> -> seq<string>, x: Bucket, date: string)
    requires Sound(j) && Enumerates(listing) && Removing(j, x)
    ensures var todo := Todo(j, x, Listing(j, listing, x)); var steps := StepsFor(j, todo);
            var release := ReleasePlan(j.t, j.cfg, Apply(x, steps), date);
            && InTurn(j, x, todo) && Elements(todo) == Pending(j, x) && KeysApart(j)
            && (Pending(j, x) == {} ==> Plans(j, listing, x, date) == Removal(Plan([], true), 0))
            && (Pending(j, x) != {} ==>
                  Plans(j, listing, x, date) ==
                  Removal(Plan(steps + release.steps, release.complete), CountFor(j, todo)))
            && (CountFor(j, todo) > 0 <==> Pending(j, x) != {})
  {
    hide Sound, KeysApart, Removing, Pending, CountFor, RemoveAll, ComponentDir, Todo, InTurn, ReleasePlan, Apply,
      StepsOf;
    var todo := Todo(j, x, Listing(j, listing, x));
    PendingIsTodo(j, listing, x);
    CountIsPositive(j, x, todo);
    if todo != [] {
      assert todo[0] in Elements(todo);
    } else {
      assert Elements(todo) == {};
    }
  }

  /** The bucket with all indexes rewritten. */
  lemma Rewrites(j: Task, x: Bucket, todo: seq<IndexId>)
    requires KeysApart(j) && Removing(j, x) && InTurn(j, x, todo) && Elements(todo) == Pending(j, x)
    ensures var y := Apply(x, StepsFor(j, todo));
            Removing(j, y) && Done(j, y) == Matched(j) && Torn(j, y) == Torn(j, x)
  {
    hide KeysApart, Removing, Matched, Done, Torn, StepsFor, InTurn;
    var steps := StepsFor(j, todo);
    assert steps[..|steps|] == steps;
    CutFor(j, x, todo, |steps|);
    DoneIsMatched(j, x);
  }

  /** Writing Release files then leaves the rest as it is. */
  lemma ReleaseKeepsDone(j: Task, y: Bucket, steps: seq<Step>)
    requires KeysApart(j) && forall k | k in KeysOf(steps) :: IsRelease(j, k)
    ensures var z := Apply(y, steps);
            && Done(j, z) == Done(j, y) && Torn(j, z) == Torn(j, y)
            && (forall k | !IsRelease(j, k) :: Same(y, z, k))
            && (forall id | id in Matched(j) :: Same(y, z, Index(j, id)) && Same(y, z, Copy(j, id)))
  {
    hide Matched, Files, Index, Copy, Content, Zipped, IsRelease, Apply;
    var z := Apply(y, steps);
    StepsAgree(y, steps);
    forall k | !IsRelease(j, k) ensures Same(y, z, k) {
    }
    forall id | id in Matched(j) ensures Same(y, z, Index(j, id)) && Same(y, z, Copy(j, id)) {
      assert IsIndex(j, Index(j, id)) && IsIndex(j, Copy(j, id));
    }
  }

  lemma ReleaseKeepsRemoving(j: Task, y: Bucket, steps: seq<Step>)
    requires KeysApart(j) && Removing(j, y) && Done(j, y) == Matched(j)
    requires forall k | k in KeysOf(steps) :: IsRelease(j, k)
    ensures Removing(j, Apply(y, steps))
  {
    hide Matched, Files, Index, Copy, Content, Zipped, IsRelease, Apply, Done, Torn, KeysApart;
    var z := Apply(y, steps);
    ReleaseKeepsDone(j, y, steps);
    forall id | id in Done(j, z) ensures Same(j.b, z, Copy(j, id)) || Has(z, Copy(j, id), Zipped(j, id)) {
      assert Same(y, z, Copy(j, id));
    }
    forall id, k | id in Done(j, z) && k in Files(j, id) ensures k !in z {
      FilesAreNoRelease(j, id, k);
      assert Same(y, z, k);
    }
    forall k | !IsFile(j, k) && !IsIndex(j, k) && !IsRelease(j, k) ensures Same(j.b, z, k) {
      assert Same(j.b, y, k) && Same(y, z, k);
    }
  }

  lemma FilesAreNoRelease(j: Task, id: IndexId, k: string)
    requires KeysApart(j) && id in Matched(j) && k in Files(j, id)
    ensures IsFile(j, k) && !IsRelease(j, k)
  {
    hide Matched, Files, Index, Copy, IsRelease;
    assert IsFile(j, k);
  }

  // ----- attempts

  function Cut(steps: seq<Step>, writes: nat): seq<Step> {
    if writes <= |steps| then steps[..writes] else steps
  }

  /** The bucket after some tries at the same Remove. */
  ghost function Attempted(j: Task, listing: set<string> -> seq<string>, tries: seq<AptHealing.Try>): Bucket {
    if tries == [] then j.b
    else
      var x, a := Attempted(j, listing, tries[..|tries| - 1]), tries[|tries| - 1];
      Apply(x, Cut(Plans(j, listing, x, a.date).plan.steps, a.writes))
  }

  lemma ReleaseKeysAre(j: Task, x: Bucket, date: string)
    ensures forall k | k in KeysOf(ReleasePlan(j.t, j.cfg, x, date).steps) :: IsRelease(j, k)
  {
    hide ReleaseSteps, ReleaseText, ReleaseKey;
    var text := ReleaseText(j.t, j.cfg, x, date);
    var steps := ReleaseSteps(j.cfg, text).steps;
    ReleaseStepsAre(j.cfg, text);
    forall s | s in steps ensures IsRelease(j, s.key) {
      var i :| 0 <= i < |steps| && steps[i] == s;
      assert IsReleasePut(j.cfg, steps[i]);
    }
  }

  /** Wherever an attempt is stopped. */
  lemma AttemptKeeps(j: Task, listing: set<string> -> seq<string>, x: Bucket, date: string, writes: nat)
    requires Sound(j) && Enumerates(listing) && Removing(j, x)
    ensures Removing(j, Apply(x, Cut(Plans(j, listing, x, date).plan.steps, writes)))
  {
    hide Sound, KeysApart, Removing, Pending, Matched, Done, Torn, StepsFor, Todo, InTurn, Plans, ReleasePlan, Apply,
      CountFor, Listing;
    PlanIs(j, listing, x, date);
    if Pending(j, x) == {} {
      ApplyNothing(x);
      assert Cut(Plans(j, listing, x, date).plan.steps, writes) == [];
    } else {
      var todo := Todo(j, x, Listing(j, listing, x));
      var steps := StepsFor(j, todo);
      var y := Apply(x, steps);
      var release := ReleasePlan(j.t, j.cfg, y, date).steps;
      if writes <= |steps| {
        assert Cut(steps + release, writes) == steps[..writes];
        CutFor(j, x, todo, writes);
      } else {
        var some := Cut(release, writes - |steps|);
        assert Cut(steps + release, writes) == steps + some;
        ApplyConcat(x, steps, some);
        Rewrites(j, x, todo);
        ReleaseKeysAre(j, y, date);
        forall k | k in KeysOf(some) ensures k in KeysOf(release) {
        }
        ReleaseKeepsRemoving(j, y, some);
      }
    }
  }

  lemma {:induction false} AttemptedRemoving(j: Task, listing: set<string> -> seq<string>, tries: seq<AptHealing.Try>)
    requires Sound(j) && Enumerates(listing)
    ensures Removing(j, Attempted(j, listing, tries))
  {
    hide Sound, Removing, Plans, Apply, Cut;
    if tries == [] {
      StartsRemoving(j);
    } else {
      var n := |tries| - 1;
      AttemptedRemoving(j, listing, tries[..n]);
      AttemptKeeps(j, listing, Attempted(j, listing, tries[..n]), tries[n].date, tries[n].writes);
    }
  }

  // ----- what running it again does

  lemma StepsOfKeys(j: Task, id: IndexId)
    requires id in Matched(j)
    ensures forall k | k in KeysOf(StepsOf(j, id)) :: IsFile(j, k) || IsIndex(j, k)
  {
    hide Matched, Files, Index, Copy, Content, Zipped;
    forall s | s in StepsOf(j, id) ensures IsFile(j, s.key) || IsIndex(j, s.key) {
      if s in Deletes(Files(j, id)) {
        var i :| 0 <= i < |Files(j, id)| && Deletes(Files(j, id))[i] == s;
        assert s.key in Files(j, id);
      }
    }
  }

  lemma {:induction false} StepsForKeys(j: Task, x: Bucket, todo: seq<IndexId>)
    requires forall id | id in todo :: id in Matched(j)
    ensures forall k | k in KeysOf(StepsFor(j, todo)) :: IsFile(j, k) || IsIndex(j, k)
  {
    hide Matched, IsFile, IsIndex, StepsOf;
    if todo != [] {
      assert todo[0] in todo;
      StepsOfKeys(j, todo[0]);
      StepsForKeys(j, x, todo[1..]);
      forall s | s in StepsFor(j, todo) ensures IsFile(j, s.key) || IsIndex(j, s.key) {
        assert s.key in KeysOf(StepsOf(j, todo[0])) || s.key in KeysOf(StepsFor(j, todo[1..]));
      }
    }
  }

  /** With all indexes rewritten, and all copies, the bucket is determined but for the Release files. */
  lemma SameEnd(j: Task, y: Bucket, z: Bucket)
    requires KeysApart(j) && Removing(j, y) && Removing(j, z) && Done(j, y) == Matched(j) == Done(j, z)
    requires Torn(j, y) == {} == Torn(j, z) && forall k | IsRelease(j, k) :: Same(y, z, k)
    ensures y == z
  {
    hide Matched, Files, Index, Copy, Content, Zipped, IsRelease, KeysApart;
    forall k ensures Same(y, z, k) {
      if IsFile(j, k) {
        assert k !in y && k !in z;
      } else if id :| id in Matched(j) && (k == Index(j, id) || k == Copy(j, id)) {
        assert id in Done(j, y) && id in Done(j, z) && id !in Torn(j, y) && id !in Torn(j, z);
      } else if !IsRelease(j, k) {
        assert Same(j.b, y, k) && Same(j.b, z, k);
      }
    }
    SameBucket(y, z);
  }

  /** All indexes rewritten, the Release files are still as they were before the Remove. */
  lemma RewritesKeepRelease(j: Task, x: Bucket, todo: seq<IndexId>)
    requires KeysApart(j) && Removing(j, x) && Pending(j, x) != {} && InTurn(j, x, todo)
    ensures forall k | IsRelease(j, k) :: Same(j.b, Apply(x, StepsFor(j, todo)), k)
  {
    hide Matched, Files, Index, Copy, Content, Zipped, IsRelease, StepsFor, Apply;
    StepsForKeys(j, x, todo);
    StepsAgree(x, StepsFor(j, todo));
    forall k | IsRelease(j, k) ensures Same(j.b, Apply(x, StepsFor(j, todo)), k) {
      assert !IsFile(j, k) && !IsIndex(j, k);
      assert Same(j.b, x, k);
    }
  }

  /** A Remove in such a bucket, up to the Release files. */
  lemma Completes(j: Task, listing: set<string> -> seq<string>, x: Bucket, date: string) returns (y: Bucket)
    requires Sound(j) && Enumerates(listing) && Removing(j, x) && Pending(j, x) != {}
    ensures KeysApart(j) && Removing(j, y) && Done(j, y) == Matched(j) && Torn(j, y) == Torn(j, x)
    ensures forall k | IsRelease(j, k) :: Same(j.b, y, k)
    ensures var all, release := Plans(j, listing, x, date), ReleasePlan(j.t, j.cfg, y, date);
            && all.plan.complete == release.complete && Apply(x, all.plan.steps) == Apply(y, release.steps)
            && all.count == CountFor(j, Todo(j, x, Listing(j, listing, x))) > 0
  {
    hide Sound, KeysApart, Removing, Pending, Matched, Done, Torn, StepsFor, Todo, InTurn, Plans, ReleasePlan, Apply,
      CountFor, Listing;
    PlanIs(j, listing, x, date);
    var todo := Todo(j, x, Listing(j, listing, x));
    y := Apply(x, StepsFor(j, todo));
    Rewrites(j, x, todo);
    RewritesKeepRelease(j, x, todo);
    ApplyConcat(x, StepsFor(j, todo), ReleasePlan(j.t, j.cfg, y, date).steps);
  }

  /** After any tries at a Remove, stopped wherever they were. As long as some index still lists the package, running it
      again does what is left, and reports that much; what it leaves is what a Remove leaves that was never stopped
      exactly if no copy of an index was left behind. Once no index lists the package it does nothing and reports 0:
      Release files that were not written then are not written any more. */
  lemma RetriedRemoveExact(j: Task, listing: set<string> -> seq<string>, tries: seq<AptHealing.Try>, later: string)
    requires Sound(j) && Enumerates(listing)
    ensures var x := Attempted(j, listing, tries);
            var again, whole := Plans(j, listing, x, later), Plans(j, listing, j.b, later);
            if Pending(j, x) == {} then again == Removal(Plan([], true), 0)
            else
              && again.count == CountFor(j, Todo(j, x, Listing(j, listing, x))) > 0
              && (Apply(x, again.plan.steps) == Apply(j.b, whole.plan.steps) <==> Torn(j, x) == {})
              && (Torn(j, x) == {} ==> again.plan.complete == whole.plan.complete)
  {
    hide Sound, KeysApart, Removing, Matched, Done, Torn, Todo, Plans, ReleasePlan, Apply, CountFor, Listing,
      Attempted;
    var x := Attempted(j, listing, tries);
    AttemptedRemoving(j, listing, tries);
    StartsRemoving(j);
    NothingDone(j);
    if Pending(j, x) == {} {
      PlanIs(j, listing, x, later);
    } else {
      var y := Completes(j, listing, x, later);
      var z := Completes(j, listing, j.b, later);
      ReleaseKeysAre(j, y, later);
      ReleaseKeysAre(j, z, later);
      ReleaseKeepsDone(j, y, ReleasePlan(j.t, j.cfg, y, later).steps);
      ReleaseKeepsDone(j, z, ReleasePlan(j.t, j.cfg, z, later).steps);
      if Torn(j, x) == {} {
        SameReleases(j, y, z);
        SameEnd(j, y, z);
      }
    }
  }

  lemma SameReleases(j: Task, y: Bucket, z: Bucket)
    requires (forall k | IsRelease(j, k) :: Same(j.b, y, k)) && forall k | IsRelease(j, k) :: Same(j.b, z, k)
    ensures forall k | IsRelease(j, k) :: Same(y, z, k)
  {
    hide IsRelease;
  }

  // ----- where it was stopped

  /** Indexes and copies are written with their contents, and never deleted. */
  ghost predicate RightPuts(j: Task, steps: seq<Step>) {
    forall s, id | s in steps && id in Matched(j) ::
      && (s.key == Index(j, id) ==> s == Put(Index(j, id), Content(j, id)))
      && (s.key == Copy(j, id) ==> s == Put(Copy(j, id), Zipped(j, id)))
  }

  lemma StepsOfRight(j: Task, id: IndexId)
    requires KeysApart(j) && id in Matched(j)
    ensures RightPuts(j, StepsOf(j, id))
  {
    hide Matched, Files, Index, Copy, Content, Zipped, IsRelease;
    OwnKeys(j, id);
    forall s, ie | s in StepsOf(j, id) && ie in Matched(j)
      ensures s.key == Index(j, ie) ==> s == Put(Index(j, ie), Content(j, ie))
      ensures s.key == Copy(j, ie) ==> s == Put(Copy(j, ie), Zipped(j, ie))
    {
      if ie != id {
        OthersKeys(j, id, ie);
      }
      if s in Deletes(Files(j, id)) {
        var i :| 0 <= i < |Files(j, id)| && Deletes(Files(j, id))[i] == s;
        assert s.key in Files(j, id);
      }
    }
  }

  lemma RightConcat(j: Task, x: seq<Step>, y: seq<Step>)
    requires RightPuts(j, x) && RightPuts(j, y)
    ensures RightPuts(j, x + y)
  {
    hide Matched, Index, Copy, Content, Zipped;
  }

  lemma {:induction false} StepsForRight(j: Task, todo: seq<IndexId>)
    requires KeysApart(j) && forall id | id in todo :: id in Matched(j)
    ensures RightPuts(j, StepsFor(j, todo))
  {
    hide Matched, StepsOf, KeysApart, RightPuts;
    if todo == [] {
      NothingRight(j);
    } else {
      assert todo[0] in todo;
      StepsOfRight(j, todo[0]);
      StepsForRight(j, todo[1..]);
      RightConcat(j, StepsOf(j, todo[0]), StepsFor(j, todo[1..]));
    }
  }

  lemma NothingRight(j: Task)
    ensures RightPuts(j, [])
  {
  }

  lemma ReleaseRight(j: Task, steps: seq<Step>)
    requires KeysApart(j) && forall k | k in KeysOf(steps) :: IsRelease(j, k)
    ensures RightPuts(j, steps)
  {
    hide Matched, Files, Index, Copy, Content, Zipped, IsRelease;
    forall s, id | s in steps && id in Matched(j) ensures s.key != Index(j, id) && s.key != Copy(j, id) {
      assert IsRelease(j, s.key);
      assert IsIndex(j, Index(j, id)) && IsIndex(j, Copy(j, id));
    }
  }

  lemma PlanRight(j: Task, listing: set<string> -> seq<string>, x: Bucket, date: string)
    requires Sound(j) && Enumerates(listing) && Removing(j, x)
    ensures RightPuts(j, Plans(j, listing, x, date).plan.steps)
  {
    hide Sound, KeysApart, Removing, Pending, Matched, Done, StepsFor, Todo, Plans, ReleasePlan, Apply, CountFor,
      Listing, RightPuts;
    PlanIs(j, listing, x, date);
    NothingRight(j);
    if Pending(j, x) != {} {
      var todo := Todo(j, x, Listing(j, listing, x));
      PendingMatched(j, x, todo);
      StepsForRight(j, todo);
      var y := Apply(x, StepsFor(j, todo));
      ReleaseKeysAre(j, y, date);
      ReleaseRight(j, ReleasePlan(j.t, j.cfg, y, date).steps);
      RightConcat(j, StepsFor(j, todo), ReleasePlan(j.t, j.cfg, y, date).steps);
    }
  }

  lemma PendingMatched(j: Task, x: Bucket, todo: seq<IndexId>)
    requires InTurn(j, x, todo)
    ensures forall id | id in todo :: id in Matched(j)
  {
    hide Matched, Done;
  }

  /** What is only ever written with one content. */
  lemma {:induction false} HasOnceWritten(x: Bucket, steps: seq<Step>, key: string, body: string)
    requires forall s | s in steps && s.key == key :: s == Put(key, body)
    ensures if key in KeysOf(steps) then Has(Apply(x, steps), key, body) else Same(x, Apply(x, steps), key)
  {
    if steps != [] {
      var n := |steps| - 1;
      assert steps == steps[..n] + [steps[n]];
      HasOnceWritten(x, steps[..n], key, body);
      assert KeysOf(steps) == KeysOf(steps[..n]) + {steps[n].key};
    }
  }

  /** The point at which an attempt is stopped decides: an index is done with once it has been written, and torn when
      its copy has not been; nothing changes that was not written. */
  lemma AttemptExact(j: Task, listing: set<string> -> seq<string>, x: Bucket, date: string, writes: nat)
    requires Sound(j) && Enumerates(listing) && Removing(j, x)
    ensures var cut := Cut(Plans(j, listing, x, date).plan.steps, writes); var y := Apply(x, cut);
            && Done(j, y) == Done(j, x) + (set id | id in Matched(j) && Index(j, id) in KeysOf(cut))
            && Torn(j, y) == (set id | id in Done(j, y) && Copy(j, id) !in KeysOf(cut) &&
                                       !Has(x, Copy(j, id), Zipped(j, id)))
            && AgreeOutside(x, y, KeysOf(cut))
  {
    hide Sound, Removing, Matched, Plans, Apply, Index, Copy, Content, Zipped;
    var steps := Plans(j, listing, x, date).plan.steps;
    var cut := Cut(steps, writes);
    PlanRight(j, listing, x, date);
    assert forall s | s in cut :: s in steps;
    forall id | id in Matched(j)
      ensures if Index(j, id) in KeysOf(cut) then Has(Apply(x, cut), Index(j, id), Content(j, id))
              else Same(x, Apply(x, cut), Index(j, id))
      ensures if Copy(j, id) in KeysOf(cut) then Has(Apply(x, cut), Copy(j, id), Zipped(j, id))
              else Same(x, Apply(x, cut), Copy(j, id))
    {
      HasOnceWritten(x, cut, Index(j, id), Content(j, id));
      HasOnceWritten(x, cut, Copy(j, id), Zipped(j, id));
    }
    StepsAgree(x, cut);
  }
}
