/**
 The apt publisher at work on a store: every method makes exactly the writes its plan lists, in order, or is cut
 off after some of them.
 */
module AptPublisher {
  import opened Wrappers
  import opened Text
  import opened Paths
  import opened Storage
  import opened Outcome
  import opened Control
  import opened Retention
  import opened Sorting
  import opened Apt
  import DebVersion
  import Ar
  import Numbers

  ghost function VersionsOf(pkgs: seq<Package>): set<string> {
    set p | p in pkgs :: p.version
  }

  /** Versions whose epochs machine subtraction orders as they are. */
  ghost predicate AllNear(versions: set<string>) {
    forall u, v | u in versions && v in versions :: DebVersion.EpochsNear(u, v)
  }

  lemma AllNearOrder(pkgs: seq<Package>, versions: set<string>)
    requires AllNear(versions) && VersionsOf(pkgs) <= versions
    ensures Orders(pkgs, CompareByVersion)
  {
    hide DebVersion.CompareVersions, DebVersion.EpochsNear;
    forall p | p in pkgs ensures p.version in versions {
      assert p.version in VersionsOf(pkgs);
    }
    forall p, q | p in pkgs && q in pkgs ensures CompareByVersion(p, q) < 0 <==> CompareByVersion(q, p) > 0 {
      DebVersion.CompareAntisymmetric(p.version, q.version);
    }
    forall p, q, r | p in pkgs && q in pkgs && r in pkgs && CompareByVersion(p, q) <= 0 && CompareByVersion(q, r) <= 0
      ensures CompareByVersion(p, r) <= 0
    {
      DebVersion.CompareTransitive(p.version, q.version, r.version);
    }
  }

  /** The versions that an Add is going to compare can be ordered: those of the index it rewrites, and its own. */
  ghost predicate OrderedIndex(b: Bucket, key: string, version: string) {
    ReadPackages(b, key).Some? ==> AllNear(VersionsOf(ReadPackages(b, key).value) + {version})
  }

  lemma WithoutStep(pkgs: seq<Package>, i: nat, name: string, version: string)
    requires i < |pkgs|
    ensures var x := if Matches(pkgs[i], name, version) then [] else [pkgs[i]];
            var y := if Matches(pkgs[i], name, version) then [pkgs[i]] else [];
            Without(pkgs[i..], name, version) == x + Without(pkgs[i + 1..], name, version) &&
            Matching(pkgs[i..], name, version) == y + Matching(pkgs[i + 1..], name, version)
  {
    assert pkgs[i..][1..] == pkgs[i + 1..];
  }

  lemma NothingLeft(name: string, version: string)
    ensures Without([], name, version) == [] && Matching([], name, version) == []
  {
  }

  lemma {:induction false} WithoutSubset(pkgs: seq<Package>, name: string, version: string)
    ensures forall p :: p in Without(pkgs, name, version) <==> p in pkgs && !Matches(p, name, version)
  {
    if pkgs != [] {
      WithoutSubset(pkgs[1..], name, version);
      assert pkgs == [pkgs[0]] + pkgs[1..];
    }
  }

  method SplitMatching(existing: seq<Package>, name: string, version: string) returns (kept: seq<Package>,
                       drop: seq<Package>)
    ensures kept == Without(existing, name, version)
    ensures drop == Matching(existing, name, version)
  {
    hide Without, Matching;
    kept, drop := [], [];
    assert existing[0..] == existing;
    for i := 0 to |existing|
      invariant kept + Without(existing[i..], name, version) == Without(existing, name, version)
      invariant drop + Matching(existing[i..], name, version) == Matching(existing, name, version)
    {
      var pk := existing[i];
      WithoutStep(existing, i, name, version);
      ghost var x, y := Without(existing[i + 1..], name, version), Matching(existing[i + 1..], name, version);
      assert kept + ([pk] + x) == (kept + [pk]) + x && kept + ([] + x) == kept + x;
      assert drop + ([pk] + y) == (drop + [pk]) + y && drop + ([] + y) == drop + y;
      if Matches(pk, name, version) {
        drop := drop + [pk];
      } else {
        kept := kept + [pk];
      }
    }
    assert existing[|existing|..] == [];
    NothingLeft(name, version);
  }

  lemma FilenamesStep(pkgs: seq<Package>, i: nat)
    requires i < |pkgs|
    ensures var fn := Get(pkgs[i].fields, "Filename");
            Filenames(pkgs[..i + 1]) == if fn.Some? then Filenames(pkgs[..i]) + [fn.value] else Filenames(pkgs[..i])
  {
    hide Get;
    assert pkgs[..i + 1][..i] == pkgs[..i];
  }

  /** `slices.SortFunc` by path, for entries whose paths differ. */
  method SortEntries(entries: seq<ReleaseEntry>) returns (r: seq<ReleaseEntry>)
    requires forall i, j :: 0 <= i < j < |entries| ==> entries[i].path != entries[j].path
    ensures Elements(r) == Elements(entries)
    ensures AscendingPaths(r)
  {
    hide Compare, AscendingPaths;
    r := [];
    NoEntries();
    for n := 0 to |entries|
      invariant Elements(r) == Elements(entries[..n])
      invariant AscendingPaths(r)
    {
      var e := entries[n];
      assert entries[..n + 1] == entries[..n] + [e];
      forall i | 0 <= i < |r| ensures r[i].path != e.path {
        assert r[i] in Elements(r);
        assert r[i] in Elements(entries[..n]);
      }
      r := InsertEntry(r, e);
      assert Elements(entries[..n + 1]) == Elements(entries[..n]) + {e};
    }
    assert entries[..|entries|] == entries;
  }

  lemma NoEntries()
    ensures AscendingPaths([])
  {
  }

  ghost predicate AscendingPaths(entries: seq<ReleaseEntry>) {
    forall i, j :: 0 <= i < j < |entries| ==> Compare(entries[i].path, entries[j].path) < 0
  }

  method InsertEntry(sorted: seq<ReleaseEntry>, e: ReleaseEntry) returns (r: seq<ReleaseEntry>)
    requires AscendingPaths(sorted)
    requires forall i :: 0 <= i < |sorted| ==> sorted[i].path != e.path
    ensures Elements(r) == Elements(sorted) + {e}
    ensures AscendingPaths(r)
  {
    hide Compare, Elements, AscendingPaths;
    var p := |sorted|;
    while p > 0 && Compare(e.path, sorted[p - 1].path) < 0
      invariant 0 <= p <= |sorted|
      invariant forall q :: p <= q < |sorted| ==> Compare(e.path, sorted[q].path) < 0
    {
      p := p - 1;
    }
    r := sorted[..p] + [e] + sorted[p..];
    PlaceFound(sorted, e, p);
  }

  lemma PlaceFound(sorted: seq<ReleaseEntry>, e: ReleaseEntry, p: nat)
    requires p <= |sorted| && AscendingPaths(sorted)
    requires forall q :: p <= q < |sorted| ==> Compare(e.path, sorted[q].path) < 0
    requires p > 0 ==> Compare(e.path, sorted[p - 1].path) >= 0 && sorted[p - 1].path != e.path
    ensures AscendingPaths(sorted[..p] + [e] + sorted[p..])
    ensures Elements(sorted[..p] + [e] + sorted[p..]) == Elements(sorted) + {e}
  {
    hide Compare, Elements;
    var x, y := sorted[..p], sorted[p..];
    assert sorted == x + y;
    if p > 0 {
      CompareAntisymmetric(e.path, sorted[p - 1].path);
      forall q | 0 <= q < p ensures Compare(sorted[q].path, e.path) < 0 {
        if q < p - 1 {
          Below(sorted[q].path, sorted[p - 1].path, e.path);
        }
      }
    }
    Spliced(x, e, y);
    AscendingSpliced(x, e, y);
  }

  lemma Spliced<T>(x: seq<T>, e: T, y: seq<T>)
    ensures Elements(x + [e] + y) == Elements(x + y) + {e}
  {
  }

  lemma AscendingSpliced(x: seq<ReleaseEntry>, e: ReleaseEntry, y: seq<ReleaseEntry>)
    requires AscendingPaths(x + y)
    requires forall q :: 0 <= q < |x| ==> Compare(x[q].path, e.path) < 0
    requires forall q :: 0 <= q < |y| ==> Compare(e.path, y[q].path) < 0
    ensures AscendingPaths(x + [e] + y)
  {
    hide Compare;
    var s, r := x + y, x + [e] + y;
    assert forall q :: 0 <= q < |x| ==> r[q] == x[q] == s[q];
    assert r[|x|] == e;
    assert forall q :: |x| < q < |r| ==> r[q] == y[q - |x| - 1] == s[q - 1];
  }

  /** `writeChecksums`. */
  method WriteChecksums(entries: seq<ReleaseEntry>, pick: ReleaseEntry -> string) returns (b: string)
    ensures b == ChecksumLines(entries, pick)
  {
    b := "";
    for i := 0 to |entries|
      invariant b == ChecksumLines(entries[..i], pick)
    {
      var e := entries[i];
      assert entries[..i + 1][..i] == entries[..i];
      b := b + " " + pick(e) + " " + Numbers.Itoa(e.size) + " " + e.path + "\n";
    }
    assert entries[..|entries|] == entries;
  }

  lemma DeletesSnoc(keys: seq<string>, k: string)
    ensures Deletes(keys + [k]) == Deletes(keys) + [Delete(k)]
  {
  }

  // ----- collecting the indexes for a Release file

  /** The entries for the index files among keys. */
  function Collect(t: Tools, cfg: Config, b: Bucket, keys: seq<string>): seq<ReleaseEntry> {
    if keys == [] then []
    else
      var before, k := Collect(t, cfg, b, keys[..|keys| - 1]), keys[|keys| - 1];
      if IsIndexFile(k) then before + [DigestEntry(t, TrimPrefix(k, DistDir(cfg)), ContentOf(b, k))] else before
  }

  ghost function PathsIn(cfg: Config, keys: seq<string>): set<string> {
    set k | k in keys && IsIndexFile(k) :: TrimPrefix(k, DistDir(cfg))
  }

  lemma CollectStep(t: Tools, cfg: Config, b: Bucket, keys: seq<string>, i: nat)
    requires i < |keys|
    ensures var rel := TrimPrefix(keys[i], DistDir(cfg)); var before := Collect(t, cfg, b, keys[..i]);
            Collect(t, cfg, b, keys[..i + 1]) ==
              if IsIndexFile(keys[i]) then before + [DigestEntry(t, rel, ContentOf(b, keys[i]))] else before
    ensures PathsIn(cfg, keys[..i + 1]) ==
            if IsIndexFile(keys[i]) then PathsIn(cfg, keys[..i]) + {TrimPrefix(keys[i], DistDir(cfg))}
            else PathsIn(cfg, keys[..i])
  {
    hide DistDir, IsIndexFile, DigestEntry;
    assert keys[..i + 1] == keys[..i] + [keys[i]];
    assert keys[..i + 1][..i] == keys[..i];
  }

  lemma SetsStep(cfg: Config, rels: set<string>, rel: string)
    ensures var s := SplitBinaryPath(rel);
            ArchesOf(rels + {rel}) == (if s.Some? then ArchesOf(rels) + {s.value.1} else ArchesOf(rels)) &&
            ComponentsOf(cfg, rels + {rel}) ==
              if s.Some? then ComponentsOf(cfg, rels) + {s.value.0} else ComponentsOf(cfg, rels)
  {
    hide SplitBinaryPath;
  }

  /** Keys all below the distribution, none of them twice. */
  ghost predicate BelowDist(cfg: Config, keys: seq<string>) {
    && (forall k | k in keys :: HasPrefix(k, DistDir(cfg)))
    && (forall i, j :: 0 <= i < j < |keys| ==> keys[i] != keys[j])
  }

  lemma {:induction false} CollectIs(t: Tools, cfg: Config, b: Bucket, keys: seq<string>)
    requires BelowDist(cfg, keys)
    ensures var es := Collect(t, cfg, b, keys);
            && (forall x | x in es ::
                  x == DigestEntry(t, x.path, ContentOf(b, DistDir(cfg) + x.path)) && DistDir(cfg) + x.path in keys)
            && (forall i, j :: 0 <= i < j < |es| ==> es[i].path != es[j].path)
            && (set x | x in es :: x.path) == PathsIn(cfg, keys)
  {
    hide DistDir, IsIndexFile, DigestEntry, ContentOf, HasPrefix, TrimPrefix, Collect, PathsIn;
    StartCollecting(t, cfg, b);
    if keys != [] {
      var n := |keys| - 1;
      var front, k := keys[..n], keys[n];
      assert keys[..n + 1] == keys;
      CollectStep(t, cfg, b, keys, n);
      CollectIs(t, cfg, b, front);
      var rel := TrimPrefix(k, DistDir(cfg));
      assert k in keys;
      assert HasPrefix(k, DistDir(cfg));
      TrimmedPrefix(k, DistDir(cfg));
      DigestPath(t, rel, ContentOf(b, k));
      assert k !in front;
    }
  }

  lemma TrimmedPrefix(k: string, dir: string)
    requires HasPrefix(k, dir)
    ensures k == dir + TrimPrefix(k, dir)
  {
  }

  lemma DigestPath(t: Tools, rel: string, data: string)
    ensures DigestEntry(t, rel, data).path == rel
  {
  }

  /** Sorted by path, the collected entries are those of the plan. */
  lemma CollectedIsPlanned(t: Tools, cfg: Config, b: Bucket, keys: seq<string>, es: seq<ReleaseEntry>)
    requires BelowDist(cfg, keys)
    requires Elements(keys) == Keys(b, DistDir(cfg))
    requires Elements(es) == Elements(Collect(t, cfg, b, keys)) && AscendingPaths(es)
    ensures PathsIn(cfg, keys) == IndexPaths(cfg, b)
    ensures es == Digests(t, cfg, b, Sorted(IndexPaths(cfg, b)))
  {
    hide DistDir, IsIndexFile, DigestEntry, ContentOf, Collect, Compare;
    CollectIs(t, cfg, b, keys);
    SamePaths(cfg, b, keys);
    var rels := IndexPaths(cfg, b);
    var paths := seq(|es|, i requires 0 <= i < |es| => es[i].path);
    assert forall x :: x in es <==> x in Elements(es);
    forall r | r in paths ensures r in rels {
      var i :| 0 <= i < |es| && es[i].path == r;
      assert es[i] in es;
    }
    forall r | r in rels ensures r in paths {
      var x :| x in Elements(es) && x.path == r;
      var i :| 0 <= i < |es| && es[i] == x;
      assert paths[i] == r;
    }
    assert Elements(paths) == rels;
    SortedIs(rels, paths);
    forall i | 0 <= i < |es| ensures es[i] == DigestEntry(t, paths[i], ContentOf(b, DistDir(cfg) + paths[i])) {
      assert es[i] in es;
    }
  }

  lemma SamePaths(cfg: Config, b: Bucket, keys: seq<string>)
    requires Elements(keys) == Keys(b, DistDir(cfg))
    ensures PathsIn(cfg, keys) == IndexPaths(cfg, b)
  {
    hide DistDir, IsIndexFile;
    assert forall k :: k in keys <==> k in Keys(b, DistDir(cfg));
  }

  class Publisher {
    const store: Store
    const t: Tools
    const cfg: Config

    /** `New`: the components default to main. */
    constructor (store: Store, t: Tools, cfg: Config)
      ensures this.store == store && this.t == t
      ensures this.cfg == if cfg.components == [] then cfg.(components := [DEFAULT_COMPONENT]) else cfg
    {
      this.store := store;
      this.t := t;
      this.cfg := if cfg.components == [] then cfg.(components := [DEFAULT_COMPONENT]) else cfg;
    }

    method Write(key: string, body: string) returns (e: Option<PublishError>)
      modifies store
      ensures Ends(Plan([Put(key, body)], true), old(store.objects), old(store.trace), store.objects, store.trace,
                   store.calls, e)
      ensures store.asked == old(store.asked)
    {
      FollowsNothing(store.objects, store.trace, [Put(key, body)]);
      var ok := store.Put(key, body);
      return if ok then None else Some(BackendFailed);
    }

    /** `readPackages`. */
    method ReadIndex(key: string) returns (r: Result<seq<Package>, PublishError>)
      modifies store`calls, store`asked
      ensures match r
              case Ok(pkgs) => ReadPackages(store.objects, key) == Some(pkgs)
              case Err(BackendFailed) => store.calls == 0
              case Err(e) => e == BadState && ReadPackages(store.objects, key).None?
      ensures store.asked == old(store.asked) + {key}
    {
      var got := store.Get(key);
      if got == Err(NotExist) {
        return Ok([]);
      }
      if got.Err? {
        return Err(BackendFailed);
      }
      var pkgs := ParseFile(got.value);
      return if pkgs.Ok? then Ok(pkgs.value) else Err(BadState);
    }

    /** The deletion of the pool files that entries name. */
    method DeleteFiles(pkgs: seq<Package>) returns (e: Option<PublishError>)
      modifies store
      ensures Ends(Plan(Deletes(Filenames(pkgs)), true), old(store.objects), old(store.trace), store.objects,
                   store.trace, store.calls, e)
      ensures store.asked == old(store.asked)
      ensures e.None? <==> |store.trace| - |old(store.trace)| >= |Filenames(pkgs)|
    {
      hide Filenames, Get, Ends, Finishes, Follows, Deletes;
      ghost var b0, tr0 := store.objects, store.trace;
      FollowsNothing(b0, tr0, []);
      NoFiles();
      for i := 0 to |pkgs|
        invariant Finishes(b0, tr0, store.objects, store.trace, Deletes(Filenames(pkgs[..i])))
        invariant store.asked == old(store.asked)
      {
        FilenamesStep(pkgs, i);
        var fn := Get(pkgs[i].fields, "Filename");
        if fn.Some? {
          ghost var b1, tr1 := store.objects, store.trace;
          DeletesSnoc(Filenames(pkgs[..i]), fn.value);
          var ok := store.Delete(fn.value);
          if !ok {
            FilenamesPrefix(pkgs, i);
            StoppedAt(b0, tr0, store.objects, store.trace, Deletes(Filenames(pkgs[..i])), Deletes(Filenames(pkgs)),
                      store.calls);
            FinishesLength(b0, tr0, store.objects, store.trace, Deletes(Filenames(pkgs[..i])));
            FewerFiles(pkgs, i);
            return Some(BackendFailed);
          }
          FinishesThen(b0, tr0, b1, tr1, store.objects, store.trace, Deletes(Filenames(pkgs[..i])), [Delete(fn.value)]);
        }
      }
      assert pkgs[..|pkgs|] == pkgs;
      AllDone(b0, tr0, store.objects, store.trace, store.calls, Deletes(Filenames(pkgs)));
      FinishesLength(b0, tr0, store.objects, store.trace, Deletes(Filenames(pkgs)));
      return None;
    }

    /** Rewriting an index: the pool files it loses go first, then come the index and its compressed copy. The flag
        tells whether the files are gone. */
    method Rewrite(key: string, kept: seq<Package>, removed: seq<Package>) returns (deleted: bool,
                   e: Option<PublishError>)
      modifies store
      ensures deleted <==> |store.trace| - |old(store.trace)| >= |Filenames(removed)|
      ensures e.None? ==> deleted
      ensures Ends(Plan(RewriteIndex(t, key, kept, removed), true), old(store.objects), old(store.trace), store.objects,
                   store.trace, store.calls, e)
      ensures store.asked == old(store.asked)
    {
      hide Ends, Finishes, Follows, Filenames, BuildPackages, Deletes;
      ghost var b0, tr0 := store.objects, store.trace;
      var content := WritePackages(kept);
      ghost var d := Plan(Deletes(Filenames(removed)), true);
      ghost var p := Plan([Put(key, content)], true);
      ghost var z := Plan([Put(key + ".gz", t.gzip(content))], true);
      RewriteIs(t, key, kept, removed);
      e := DeleteFiles(removed);
      deleted := e.None?;
      if e.Some? {
        EndsEarly(d, Then(p, z), b0, tr0, store.objects, store.trace, store.calls, e.value);
        return;
      }
      ghost var b1, tr1 := store.objects, store.trace;
      Completed(d, b0, tr0, b1, tr1, store.calls);
      e := Write(key, content);
      EndsLater(p, b1, tr1, store.objects, store.trace, store.calls, e);
      if e.Some? {
        EndsEarly(p, z, b1, tr1, store.objects, store.trace, store.calls, e.value);
        EndsThen(d, Then(p, z), b0, tr0, b1, tr1, store.objects, store.trace, store.calls, e);
        return;
      }
      ghost var b2, tr2 := store.objects, store.trace;
      Completed(p, b1, tr1, b2, tr2, store.calls);
      e := Write(key + ".gz", t.gzip(content));
      EndsLater(z, b2, tr2, store.objects, store.trace, store.calls, e);
      EndsThen(p, z, b1, tr1, b2, tr2, store.objects, store.trace, store.calls, e);
      EndsThen(d, Then(p, z), b0, tr0, b1, tr1, store.objects, store.trace, store.calls, e);
    }

    /** `updateIndex`. */
    method UpdateIndex(component: string, entry: Package) returns (e: Option<PublishError>)
      requires cfg.keepVersions > 0 ==>
                 OrderedIndex(store.objects, PackagesKey(cfg.distribution, component, entry.architecture),
                              entry.version)
      modifies store
      ensures Ends(IndexPlan(t, cfg, old(store.objects), component, entry), old(store.objects), old(store.trace),
                   store.objects, store.trace, store.calls, e)
      ensures store.asked == old(store.asked) + {PackagesKey(cfg.distribution, component, entry.architecture)}
    {
      hide Ends, ReadPackages, RewriteIndex, Retained, Removed, Without, AllNear;
      ghost var b0, tr0 := store.objects, store.trace;
      var key := PackagesKey(cfg.distribution, component, entry.architecture);
      var existing := ReadIndex(key);
      if existing.Err? {
        Unstarted(IndexPlan(t, cfg, b0, component, entry), b0, tr0, store.calls, existing.error);
        return Some(existing.error);
      }
      var kept, _ := SplitMatching(existing.value, entry.name, entry.version);
      WithoutSubset(existing.value, entry.name, entry.version);
      kept := kept + [entry];
      var removed: seq<Package> := [];
      if cfg.keepVersions > 0 {
        AllNearOrder(kept, VersionsOf(existing.value) + {entry.version});
        kept, removed := Prune(kept, cfg.keepVersions, NameOf, CompareByVersion);
      }
      var deleted;
      deleted, e := Rewrite(key, kept, removed);
    }

    /** `publishRelease`: what the Release file says is gathered from the store as it is now. */
    method PublishRelease(date: string) returns (e: Option<PublishError>)
      requires Enumerates(store.listing)
      modifies store
      ensures Ends(ReleasePlan(t, cfg, old(store.objects), date), old(store.objects), old(store.trace), store.objects,
                   store.trace, store.calls, e)
      ensures ReadsBelow(old(store.asked), store.asked, {}, {DistDir(cfg)})
    {
      hide Ends, DistDir, IsIndexFile, SplitBinaryPath, ArchesOf, ComponentsOf, PathsIn, Collect, IndexPaths,
        ReleaseSteps, RenderRelease, ReadsBelow, HasPrefix;
      ghost var b := store.objects;
      ListReads(store.asked, DistDir(cfg), {DistDir(cfg)});
      var listed := store.List(DistDir(cfg));
      if listed.Err? {
        Unstarted(ReleasePlan(t, cfg, b, date), b, store.trace, store.calls, BackendFailed);
        return Some(BackendFailed);
      }
      var keys := listed.value;
      ListingIsBelow(cfg, b, store.listing);
      StartCollecting(t, cfg, b);
      var entries: seq<ReleaseEntry> := [];
      var archSet: set<string> := {};
      var componentSet: set<string> := set c | c in cfg.components;
      for i := 0 to |keys|
        invariant store.objects == b && store.trace == old(store.trace)
        invariant entries == Collect(t, cfg, b, keys[..i])
        invariant archSet == ArchesOf(PathsIn(cfg, keys[..i]))
        invariant componentSet == ComponentsOf(cfg, PathsIn(cfg, keys[..i]))
        invariant ReadsBelow(old(store.asked), store.asked, {}, {DistDir(cfg)})
      {
        var key := keys[i];
        CollectStep(t, cfg, b, keys, i);
        if !IsIndexFile(key) {
          continue;
        }
        ReadsKey(old(store.asked), store.asked, {}, {DistDir(cfg)}, key);
        var got := store.Get(key);
        assert key in Elements(keys);
        if got.Err? {
          Unstarted(ReleasePlan(t, cfg, b, date), b, store.trace, store.calls, BackendFailed);
          return Some(BackendFailed);
        }
        var rel := TrimPrefix(key, DistDir(cfg));
        entries := entries + [DigestEntry(t, rel, got.value)];
        SetsStep(cfg, PathsIn(cfg, keys[..i]), rel);
        var s := SplitBinaryPath(rel);
        if s.Some? {
          componentSet := componentSet + {s.value.0};
          archSet := archSet + {s.value.1};
        }
      }
      assert keys[..|keys|] == keys;
      CollectIs(t, cfg, b, keys);
      var components := SortedKeys(componentSet);
      var arches := SortedKeys(archSet);
      var sorted := SortEntries(entries);
      CollectedIsPlanned(t, cfg, b, keys, sorted);
      var text := BuildRelease(Release(components, arches, sorted), date);
      e := PutRelease(text);
    }

    /** `buildRelease`, after the entries have been sorted. */
    method BuildRelease(r: Release, date: string) returns (text: string)
      ensures text == RenderRelease(cfg, date, r)
    {
      text := ReleaseField("Origin", cfg.origin) + ReleaseField("Label", cfg.repoLabel)
        + ReleaseField("Suite", cfg.distribution) + ReleaseField("Codename", cfg.distribution)
        + ReleaseField("Date", date)
        + ReleaseField("Architectures", Join(r.arches, ' ')) + ReleaseField("Components", Join(r.components, ' '))
        + ReleaseField("Description", cfg.description);
      var md5 := WriteChecksums(r.entries, Md5Of);
      var sha1 := WriteChecksums(r.entries, Sha1Of);
      var sha256 := WriteChecksums(r.entries, Sha256Of);
      text := text + "MD5Sum:\n" + md5 + "SHA1:\n" + sha1 + "SHA256:\n" + sha256;
    }

    /** `Add`: upload, index, Release. */
    method Add(component: string, data: string, date: string) returns (e: Option<PublishError>)
      requires Enumerates(store.listing)
      requires cfg.keepVersions > 0 && ParseDeb(t, data).Some? ==>
                 var pkg := ParseDeb(t, data).value;
                 var c := ComponentOf(component);
                 OrderedIndex(store.objects[PoolPath(c, pkg) := data],
                              PackagesKey(cfg.distribution, c, pkg.architecture), pkg.version)
      modifies store
      ensures ParseDeb(t, data).None? ==> e == Some(BadPackage) && unchanged(store)
      ensures ParseDeb(t, data).Some? ==>
                Ends(AddPlan(t, cfg, old(store.objects), ComponentOf(component), ParseDeb(t, data).value, data, date),
                     old(store.objects), old(store.trace), store.objects, store.trace, store.calls, e)
      ensures ParseDeb(t, data).Some? ==>
                var index := PackagesKey(cfg.distribution, ComponentOf(component),
                                         ParseDeb(t, data).value.architecture);
                ReadsBelow(old(store.asked), store.asked, {index}, {DistDir(cfg)})
    {
      hide Ends, Finishes, Follows, ParseDeb, PoolPath, PackagesKey, IndexPlan, ReleasePlan, OrderedIndex,
        PoolFields;
      var c := ComponentOf(component);
      var parsed := ParseDeb(t, data);
      if parsed.None? {
        return Some(BadPackage);
      }
      var pkg := parsed.value;
      var filename := PoolPath(c, pkg);
      ghost var b0, tr0 := store.objects, store.trace;
      ghost var upload := Plan([Put(filename, data)], true);
      ApplyOne(b0, Put(filename, data));
      var entry := IndexEntry(t, c, pkg, data);
      ghost var b1 := Apply(b0, upload.steps);
      ghost var index := IndexPlan(t, cfg, b1, c, entry);
      ghost var b2 := Apply(b1, index.steps);
      ghost var release := ReleasePlan(t, cfg, b2, date);
      e := Write(filename, data);
      if e.Some? {
        EndsEarly(upload, Then(index, release), b0, tr0, store.objects, store.trace, store.calls, e.value);
        return;
      }
      ghost var tr1 := store.trace;
      Completed(upload, b0, tr0, store.objects, tr1, store.calls);
      FinishesAt(b0, tr0, store.objects, tr1, upload.steps);
      e := UpdateIndex(c, entry);
      if e.Some? {
        EndsEarly(index, release, b1, tr1, store.objects, store.trace, store.calls, e.value);
        EndsThen(upload, Then(index, release), b0, tr0, b1, tr1, store.objects, store.trace, store.calls, e);
        return;
      }
      ghost var tr2 := store.trace;
      Completed(index, b1, tr1, store.objects, tr2, store.calls);
      FinishesAt(b1, tr1, store.objects, tr2, index.steps);
      e := PublishRelease(date);
      EndsThen(index, release, b1, tr1, b2, tr2, store.objects, store.trace, store.calls, e);
      EndsThen(upload, Then(index, release), b0, tr0, b1, tr1, store.objects, store.trace, store.calls, e);
    }

    /** One index of a `Remove`. */
    method RemoveFromIndex(key: string, name: string, version: string) returns (removed: nat, e: Option<PublishError>)
      modifies store
      ensures var one := RemoveOne(t, old(store.objects), key, name, version);
              && Ends(one.plan, old(store.objects), old(store.trace), store.objects, store.trace, store.calls, e)
              && CountedOne(one, removed, |store.trace| - |old(store.trace)|) && (e.None? ==> removed == one.count)
      ensures store.asked == old(store.asked) || store.asked == old(store.asked) + {key}
    {
      hide Ends, ReadPackages, RewriteIndex, Without, Matching, Base;
      ghost var b0, tr0 := store.objects, store.trace;
      ghost var one := RemoveOne(t, b0, key, name, version);
      removed := 0;
      if Base(key) != "Packages" {
        Idle(b0, tr0, store.calls);
        return 0, None;
      }
      var existing := ReadIndex(key);
      if existing.Err? {
        Unstarted(one.plan, b0, tr0, store.calls, existing.error);
        return 0, Some(existing.error);
      }
      var kept, drop := SplitMatching(existing.value, name, version);
      if |drop| == 0 {
        Idle(b0, tr0, store.calls);
        return 0, None;
      }
      var deleted;
      deleted, e := Rewrite(key, kept, drop);
      RewriteLength(t, key, kept, drop);
      removed := if deleted then |drop| else 0;
    }

    /** The indexes of a `Remove`, one after the other. */
    method RemoveFromIndexes(keys: seq<string>, name: string, version: string) returns (removed: nat,
                             e: Option<PublishError>)
      modifies store
      ensures var all := RemoveAll(t, old(store.objects), keys, name, version);
              && Ends(all.plan, old(store.objects), old(store.trace), store.objects, store.trace, store.calls, e)
              && (e.None? ==> removed == all.count)
      ensures Counts(t, old(store.objects), keys, name, version, removed, |store.trace| - |old(store.trace)|)
      ensures store.asked <= old(store.asked) + Elements(keys)
    {
      hide Ends, Finishes, Follows, RemoveOne, RemoveAll, Counts, CountedOne;
      ghost var b0, tr0 := store.objects, store.trace;
      ghost var all := RemoveAll(t, b0, keys, name, version);
      ghost var done := Removal(Plan([], true), 0);
      removed := 0;
      FollowsNothing(b0, tr0, []);
      assert keys[..0] == [] && keys[..|keys|] == keys;
      RemoveNothing(t, b0, name, version);
      for i := 0 to |keys|
        invariant done == RemoveAll(t, b0, keys[..i], name, version) && done.plan.complete && removed == done.count
        invariant Finishes(b0, tr0, store.objects, store.trace, done.plan.steps)
        invariant store.asked <= old(store.asked) + Elements(keys)
      {
        ghost var b1, tr1 := store.objects, store.trace;
        ghost var one := RemoveOne(t, b1, keys[i], name, version);
        FinishesAt(b0, tr0, b1, tr1, done.plan.steps);
        FinishesLength(b0, tr0, b1, tr1, done.plan.steps);
        RemoveAllSnoc(t, b0, keys, i, name, version);
        assert keys[i] in Elements(keys);
        var n;
        n, e := RemoveFromIndex(keys[i], name, version);
        EndsLater(one.plan, b1, tr1, store.objects, store.trace, store.calls, e);
        EndsThen(done.plan, one.plan, b0, tr0, b1, tr1, store.objects, store.trace, store.calls, e);
        if e.Some? {
          RemovalCut(t, b0, keys, i + 1, name, version, tr0, store.objects, store.trace, store.calls, e.value);
          CountedWithin(t, b0, keys, name, version, i, one, n, |store.trace| - |tr1|);
          return removed + n, e;
        }
        Completed(Both(done, one).plan, b0, tr0, store.objects, store.trace, store.calls);
        Completed(one.plan, b1, tr1, store.objects, store.trace, store.calls);
        done := Both(done, one);
        removed := removed + n;
      }
      AllDone(b0, tr0, store.objects, store.trace, store.calls, done.plan.steps);
      FinishesLength(b0, tr0, store.objects, store.trace, done.plan.steps);
      CountedAll(t, b0, keys, name, version, done.count, |done.plan.steps|);
      return removed, None;
    }

    /** `Remove`: every index of the component, then the Release if anything went. */
    method Remove(component: string, name: string, version: string, date: string) returns (removed: nat,
                  e: Option<PublishError>)
      requires Enumerates(store.listing)
      modifies store
      ensures var all := RemovePlan(t, cfg, old(store.objects), store.listing, ComponentOf(component), name, version,
                                    date);
              && Ends(all.plan, old(store.objects), old(store.trace), store.objects, store.trace, store.calls, e)
              && (e.None? ==> removed == all.count)
      ensures Counts(t, old(store.objects),
                     store.listing(Keys(old(store.objects), ComponentDir(cfg, ComponentOf(component)))), name, version,
                     removed, |store.trace| - |old(store.trace)|)
      ensures ReadsBelow(old(store.asked), store.asked, {}, RemoveDirs(cfg, ComponentOf(component)))
    {
      hide Ends, Finishes, Follows, RemoveAll, ComponentDir, DistDir, ReleasePlan, ReadsBelow, RemoveDirs, Elements,
        Counts;
      var c := ComponentOf(component);
      ghost var b0, tr0, asked0 := store.objects, store.trace, store.asked;
      ghost var whole := RemovePlan(t, cfg, b0, store.listing, c, name, version, date);
      RemoveDirsAre(cfg, c);
      ListReads(asked0, ComponentDir(cfg, c), RemoveDirs(cfg, c));
      var listed := store.List(ComponentDir(cfg, c));
      if listed.Err? {
        Unstarted(whole.plan, b0, tr0, store.calls, BackendFailed);
        NothingCounted(t, b0, store.listing(Keys(b0, ComponentDir(cfg, c))), name, version);
        return 0, Some(BackendFailed);
      }
      var keys := listed.value;
      ghost var all := RemoveAll(t, b0, keys, name, version);
      ghost var asked1 := store.asked;
      removed, e := RemoveFromIndexes(keys, name, version);
      IndexesRead(asked0, asked1, store.asked, cfg, b0, store.listing, c);
      if e.Some? {
        RemovalEarly(t, cfg, b0, all, tr0, store.objects, store.trace, store.calls, e.value, date);
        return;
      }
      ghost var b1, tr1, asked2 := store.objects, store.trace, store.asked;
      Completed(all.plan, b0, tr0, b1, tr1, store.calls);
      if removed == 0 {
        return;
      }
      FinishesAt(b0, tr0, b1, tr1, all.plan.steps);
      FinishesLength(b0, tr0, b1, tr1, all.plan.steps);
      e := PublishRelease(date);
      EndsLater(ReleasePlan(t, cfg, b1, date), b1, tr1, store.objects, store.trace, store.calls, e);
      CountedAll(t, b0, keys, name, version, all.count, |store.trace| - |tr0|);
      ReleaseReads(asked0, asked2, store.asked, cfg, c);
      EndsThen(all.plan, ReleasePlan(t, cfg, b1, date), b0, tr0, b1, tr1, store.objects, store.trace, store.calls, e);
    }

    /** `signRelease`, after the Release file has been written. */
    method PutRelease(text: string) returns (e: Option<PublishError>)
      modifies store
      ensures Ends(ReleaseSteps(cfg, text), old(store.objects), old(store.trace), store.objects, store.trace,
                   store.calls, e)
      ensures store.asked == old(store.asked)
    {
      hide Ends, Finishes, Follows, ReleaseKey;
      ghost var b0, tr0 := store.objects, store.trace;
      ghost var all := ReleaseSteps(cfg, text);
      ghost var p := Plan([Put(ReleaseKey(cfg, "Release"), text)], true);
      e := Write(ReleaseKey(cfg, "Release"), text);
      if e.Some? {
        ghost var rest := Plan(all.steps[1..], all.complete);
        assert Then(p, rest) == all;
        EndsEarly(p, rest, b0, tr0, store.objects, store.trace, store.calls, e.value);
        return;
      }
      ghost var b1, tr1 := store.objects, store.trace;
      Completed(p, b0, tr0, b1, tr1, store.calls);
      if cfg.signer.None? {
        AllDone(b0, tr0, b1, tr1, store.calls, p.steps);
        return None;
      }
      var clear := cfg.signer.value.clearSign(text);
      if clear.None? {
        Stuck(all, b0, tr0, b1, tr1, store.calls);
        return Some(SigningFailed);
      }
      ghost var q := Plan([Put(ReleaseKey(cfg, "InRelease"), clear.value)], true);
      ghost var rest := Plan(all.steps[1..], all.complete);
      assert Then(p, rest) == all;
      e := Write(ReleaseKey(cfg, "InRelease"), clear.value);
      if e.Some? {
        ghost var last := Plan(rest.steps[1..], rest.complete);
        assert Then(q, last) == rest;
        EndsEarly(q, last, b1, tr1, store.objects, store.trace, store.calls, e.value);
        EndsThen(p, rest, b0, tr0, b1, tr1, store.objects, store.trace, store.calls, e);
        return;
      }
      ghost var b2, tr2 := store.objects, store.trace;
      Completed(q, b1, tr1, b2, tr2, store.calls);
      var detached := cfg.signer.value.detachSign(text);
      if detached.None? {
        FinishesThen(b0, tr0, b1, tr1, b2, tr2, p.steps, q.steps);
        assert all.steps == p.steps + q.steps;
        Stuck(all, b0, tr0, b2, tr2, store.calls);
        return Some(SigningFailed);
      }
      ghost var r := Plan([Put(ReleaseKey(cfg, "Release.gpg"), detached.value)], true);
      assert Then(q, r) == rest;
      e := Write(ReleaseKey(cfg, "Release.gpg"), detached.value);
      EndsThen(q, r, b1, tr1, b2, tr2, store.objects, store.trace, store.calls, e);
      EndsThen(p, rest, b0, tr0, b1, tr1, store.objects, store.trace, store.calls, e);
    }
  }

  /** One removal after another. */
  function Both(x: Removal, y: Removal): Removal {
    if x.plan.complete then Removal(Then(x.plan, y.plan), x.count + y.count) else x
  }

  lemma RemovalLaws(x: Removal, y: Removal, z: Removal)
    ensures Both(Removal(Plan([], true), 0), x) == x
    ensures x.plan.complete ==> Both(x, Removal(Plan([], true), 0)) == x
    ensures Both(Both(x, y), z) == Both(x, Both(y, z))
  {
    assert [] + x.plan.steps == x.plan.steps && x.plan.steps + [] == x.plan.steps;
    assert (x.plan.steps + y.plan.steps) + z.plan.steps == x.plan.steps + (y.plan.steps + z.plan.steps);
  }

  lemma RemoveAllFirst(t: Tools, b: Bucket, keys: seq<string>, name: string, version: string)
    requires keys != []
    ensures var one := RemoveOne(t, b, keys[0], name, version);
            RemoveAll(t, b, keys, name, version) ==
            Both(one, RemoveAll(t, Apply(b, one.plan.steps), keys[1..], name, version))
  {
    hide RemoveOne, Apply;
  }

  /** What is counted for one index: its entries if its pool files are gone, else nothing. */
  ghost predicate CountedOne(one: Removal, removed: nat, writes: int) {
    || (removed == one.count && writes + 2 >= |one.plan.steps|)
    || (removed == 0 && (writes <= 0 || writes + 2 < |one.plan.steps|))
  }

  /** What is counted in all: the entries of the first n indexes, which are those whose pool files are gone. */
  ghost predicate Counted(t: Tools, b: Bucket, keys: seq<string>, name: string, version: string, n: nat, removed: nat,
                          writes: int) {
    n <= |keys| &&
    var done := RemoveAll(t, b, keys[..n], name, version);
    && done.count == removed && |done.plan.steps| <= writes + 2
    && (n < |keys| ==>
          var one := RemoveOne(t, Apply(b, done.plan.steps), keys[n], name, version);
          writes <= |done.plan.steps| || writes + 2 < |done.plan.steps| + |one.plan.steps|)
  }

  ghost predicate Counts(t: Tools, b: Bucket, keys: seq<string>, name: string, version: string, removed: nat,
                         writes: int) {
    exists n :: Counted(t, b, keys, name, version, n, removed, writes)
  }

  lemma NothingCounted(t: Tools, b: Bucket, keys: seq<string>, name: string, version: string)
    ensures Counts(t, b, keys, name, version, 0, 0)
  {
    hide RemoveOne;
    assert keys[..0] == [];
    assert Counted(t, b, keys, name, version, 0, 0, 0);
  }

  lemma CountedAll(t: Tools, b: Bucket, keys: seq<string>, name: string, version: string, removed: nat, writes: int)
    requires var all := RemoveAll(t, b, keys, name, version); removed == all.count && writes >= |all.plan.steps|
    ensures Counts(t, b, keys, name, version, removed, writes)
  {
    hide RemoveOne, RemoveAll;
    assert keys[..|keys|] == keys;
    assert Counted(t, b, keys, name, version, |keys|, removed, writes);
  }

  /** A Remove is that of the first so many indexes, then that of the others. */
  lemma {:induction false} RemoveAllInTwo(t: Tools, b: Bucket, keys: seq<string>, i: nat, name: string, version: string)
    requires i <= |keys|
    ensures var done := RemoveAll(t, b, keys[..i], name, version);
            RemoveAll(t, b, keys, name, version) ==
            Both(done, RemoveAll(t, Apply(b, done.plan.steps), keys[i..], name, version))
    decreases i
  {
    hide RemoveOne, Apply, RemoveAll;
    RemoveNothing(t, b, name, version);
    ApplyNothing(b);
    if i == 0 {
      assert keys[..0] == [] && keys[0..] == keys;
      RemovalLaws(RemoveAll(t, b, keys, name, version), RemoveAll(t, b, [], name, version),
                  RemoveAll(t, b, [], name, version));
    } else {
      var one, rest := RemoveOne(t, b, keys[0], name, version), keys[1..];
      var b1 := Apply(b, one.plan.steps);
      RemoveAllFirst(t, b, keys, name, version);
      RemoveAllFirst(t, b, keys[..i], name, version);
      assert keys[..i][1..] == rest[..i - 1] && rest[i - 1..] == keys[i..];
      RemoveAllInTwo(t, b1, rest, i - 1, name, version);
      var more := RemoveAll(t, b1, rest[..i - 1], name, version);
      ApplyConcat(b, one.plan.steps, more.plan.steps);
      RemovalLaws(one, more, RemoveAll(t, Apply(b1, more.plan.steps), keys[i..], name, version));
    }
  }

  lemma RemoveAllSnoc(t: Tools, b: Bucket, keys: seq<string>, i: nat, name: string, version: string)
    requires i < |keys|
    ensures var done := RemoveAll(t, b, keys[..i], name, version);
            RemoveAll(t, b, keys[..i + 1], name, version) ==
            Both(done, RemoveOne(t, Apply(b, done.plan.steps), keys[i], name, version))
  {
    hide RemoveOne, Apply, RemoveAll;
    var front := keys[..i + 1];
    var b1 := Apply(b, RemoveAll(t, b, keys[..i], name, version).plan.steps);
    var one := RemoveOne(t, b1, keys[i], name, version);
    assert front[..i] == keys[..i] && front[i..] == [keys[i]] && [keys[i]][1..] == [];
    RemoveAllInTwo(t, b, front, i, name, version);
    RemoveAllFirst(t, b1, [keys[i]], name, version);
    RemoveNothing(t, Apply(b1, one.plan.steps), name, version);
    RemovalLaws(one, one, one);
  }

  lemma RemovalCut(t: Tools, b0: Bucket, keys: seq<string>, i: nat, name: string, version: string, tr0: seq<Step>,
                   b: Bucket, tr: seq<Step>, calls: nat, e: PublishError)
    requires i <= |keys|
    requires Ends(RemoveAll(t, b0, keys[..i], name, version).plan, b0, tr0, b, tr, calls, Some(e))
    ensures Ends(RemoveAll(t, b0, keys, name, version).plan, b0, tr0, b, tr, calls, Some(e))
  {
    hide Ends, RemoveAll, Apply;
    var done := RemoveAll(t, b0, keys[..i], name, version);
    var more := RemoveAll(t, Apply(b0, done.plan.steps), keys[i..], name, version);
    RemoveAllInTwo(t, b0, keys, i, name, version);
    EndsEarly(done.plan, more.plan, b0, tr0, b, tr, calls, e);
  }

  lemma CountedWithin(t: Tools, b: Bucket, keys: seq<string>, name: string, version: string, i: nat, one: Removal,
                      removed: nat, writes: nat)
    requires i < |keys|
    requires var done := RemoveAll(t, b, keys[..i], name, version);
             && done.plan.complete && one == RemoveOne(t, Apply(b, done.plan.steps), keys[i], name, version)
             && CountedOne(one, removed, writes) && writes <= |one.plan.steps|
    ensures var done := RemoveAll(t, b, keys[..i], name, version);
            Counts(t, b, keys, name, version, done.count + removed, |done.plan.steps| + writes)
  {
    hide RemoveOne, RemoveAll;
    var done := RemoveAll(t, b, keys[..i], name, version);
    RemoveAllSnoc(t, b, keys, i, name, version);
    if removed == 0 && (writes <= 0 || writes + 2 < |one.plan.steps|) {
      assert Counted(t, b, keys, name, version, i, done.count + removed, |done.plan.steps| + writes);
    } else {
      assert Counted(t, b, keys, name, version, i + 1, done.count + removed, |done.plan.steps| + writes);
    }
  }

  lemma RemoveNothing(t: Tools, b: Bucket, name: string, version: string)
    ensures RemoveAll(t, b, [], name, version) == Removal(Plan([], true), 0)
  {
  }

  lemma RemovalEarly(t: Tools, cfg: Config, b0: Bucket, all: Removal, tr0: seq<Step>, b: Bucket, tr: seq<Step>,
                     calls: nat, e: PublishError, date: string)
    requires Ends(all.plan, b0, tr0, b, tr, calls, Some(e))
    ensures var whole := if all.count == 0 || !all.plan.complete then all
                         else Removal(Then(all.plan, ReleasePlan(t, cfg, Apply(b0, all.plan.steps), date)), all.count);
            Ends(whole.plan, b0, tr0, b, tr, calls, Some(e))
  {
    hide Ends, ReleasePlan;
    EndsEarly(all.plan, ReleasePlan(t, cfg, Apply(b0, all.plan.steps), date), b0, tr0, b, tr, calls, e);
  }

  lemma StartCollecting(t: Tools, cfg: Config, b: Bucket)
    ensures Collect(t, cfg, b, []) == [] && PathsIn(cfg, []) == {} && ArchesOf({}) == {}
    ensures ComponentsOf(cfg, {}) == Elements(cfg.components)
  {
  }

  /** The directories below which a Remove reads. */
  function RemoveDirs(cfg: Config, component: string): set<string> {
    {ComponentDir(cfg, component), DistDir(cfg)}
  }

  lemma RemoveDirsAre(cfg: Config, component: string)
    ensures ComponentDir(cfg, component) in RemoveDirs(cfg, component)
  {
    hide ComponentDir, DistDir;
  }

  lemma ListReads(asked: set<string>, dir: string, dirs: set<string>)
    requires dir in dirs
    ensures ReadsBelow(asked, asked + {dir}, {}, dirs)
  {
    assert HasPrefix(dir, dir);
  }

  lemma IndexesRead(before: set<string>, middle: set<string>, after: set<string>, cfg: Config, b: Bucket,
                    listing: set<string> -> seq<string>, component: string)
    requires Enumerates(listing) && ReadsBelow(before, middle, {}, RemoveDirs(cfg, component))
    requires after <= middle + Elements(listing(Keys(b, ComponentDir(cfg, component))))
    ensures ReadsBelow(before, after, {}, RemoveDirs(cfg, component))
  {
    hide ComponentDir, DistDir, HasPrefix;
    var dir := ComponentDir(cfg, component);
    forall k | k in after && k !in before ensures exists d :: d in RemoveDirs(cfg, component) && HasPrefix(k, d) {
      if k !in middle {
        assert k in Keys(b, dir);
      }
    }
  }

  lemma ReleaseReads(before: set<string>, middle: set<string>, after: set<string>, cfg: Config, component: string)
    requires ReadsBelow(before, middle, {}, RemoveDirs(cfg, component))
    requires ReadsBelow(middle, after, {}, {DistDir(cfg)})
    ensures ReadsBelow(before, after, {}, RemoveDirs(cfg, component))
  {
    hide ComponentDir, DistDir;
    ReadsThen(before, middle, after, {}, RemoveDirs(cfg, component), DistDir(cfg));
  }

  lemma ListingIsBelow(cfg: Config, b: Bucket, listing: set<string> -> seq<string>)
    requires Enumerates(listing)
    ensures var keys := listing(Keys(b, DistDir(cfg))); BelowDist(cfg, keys) && Elements(keys) == Keys(b, DistDir(cfg))
  {
    hide DistDir;
  }

  lemma NoFiles()
    ensures Filenames([]) == [] && Deletes([]) == []
  {
  }

  lemma {:induction false} FilenamesPrefixAll(pkgs: seq<Package>, i: nat)
    requires i <= |pkgs|
    ensures Filenames(pkgs[..i]) <= Filenames(pkgs)
    decreases |pkgs| - i
  {
    hide Filenames, Get;
    if i < |pkgs| {
      FilenamesStep(pkgs, i);
      FilenamesPrefixAll(pkgs, i + 1);
    } else {
      assert pkgs[..i] == pkgs;
    }
  }

  lemma FilenamesPrefix(pkgs: seq<Package>, i: nat)
    requires i <= |pkgs|
    ensures Deletes(Filenames(pkgs[..i])) <= Deletes(Filenames(pkgs))
  {
    FilenamesPrefixAll(pkgs, i);
  }

  lemma RewriteLength(t: Tools, key: string, kept: seq<Package>, removed: seq<Package>)
    ensures |RewriteIndex(t, key, kept, removed)| == |Filenames(removed)| + 2
  {
    hide Filenames, BuildPackages;
  }

  lemma FewerFiles(pkgs: seq<Package>, i: nat)
    requires i < |pkgs| && Get(pkgs[i].fields, "Filename").Some?
    ensures |Filenames(pkgs[..i])| < |Filenames(pkgs)|
  {
    hide Filenames, Get;
    FilenamesStep(pkgs, i);
    FilenamesPrefixAll(pkgs, i + 1);
  }

  lemma RewriteIs(t: Tools, key: string, kept: seq<Package>, removed: seq<Package>)
    ensures var content := BuildPackages(kept);
            Then(Plan(Deletes(Filenames(removed)), true),
                 Then(Plan([Put(key, content)], true), Plan([Put(key + ".gz", t.gzip(content))], true)))
            == Plan(RewriteIndex(t, key, kept, removed), true)
  {
  }
}
