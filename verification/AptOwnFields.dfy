/**
 What becomes of a .deb whose control paragraph has a field of its own called Filename: its index entry names that file,
 and pruning deletes it, whatever it is.
 */
module AptOwnFields {
  import opened Wrappers
  import opened Text
  import opened Numbers
  import opened Paths
  import opened Storage
  import opened Control
  import opened ControlRoundTrip
  import opened Retention
  import opened RetentionLaws
  import opened Apt
  import opened AptKeys
  import opened AptState
  import opened AptInvariant
  import opened AptRuns
  import opened AptInstance
  import AptPublisher
  import DebVersion

  lemma {:induction false} FilenamesMember(pkgs: seq<Package>, e: Package, f: string)
    requires e in pkgs && Get(e.fields, "Filename") == Some(f)
    ensures f in Filenames(pkgs)
  {
    hide Get;
    var n := |pkgs| - 1;
    assert pkgs == pkgs[..n] + [pkgs[n]];
    if e != pkgs[n] {
      FilenamesMember(pkgs[..n], e, f);
    }
  }

  /** The entry of such a package names the file that the control paragraph does. */
  lemma OwnFilenameIsNamed(t: Tools, component: string, d: Deb, f: string)
    requires Get(d.pkg.fields, "Filename") == Some(f)
    ensures Get(EntryOf(t, component)(d).fields, "Filename") == Some(f)
  {
    hide Get, PoolFields, PoolPath;
    GetConcat(d.pkg.fields, PoolFields(t, PoolPath(component, d.pkg), d.data), "Filename");
  }

  /** An Add that prunes an entry deletes the file that the entry names, in whatever bucket. */
  lemma NamedIsDeleted(t: Tools, cfg: Config, b: Bucket, id: IndexId, d: Deb, date: string, existing: seq<Package>,
                       e: Package, f: string)
    requires Setting(t, cfg) && GoodId(id) && d.pkg.architecture == id.arch
    requires ReadPackages(b[PoolPath(id.component, d.pkg) := d.data], IndexKey(cfg, id)) == Some(existing)
    requires e in RemovedOf(cfg, Without(existing, d.pkg.name, d.pkg.version) + [EntryOf(t, id.component)(d)])
    requires Get(e.fields, "Filename") == Some(f) && HasPrefix(f, "pool/")
    ensures f !in Apply(b, AddPlan(t, cfg, b, id.component, d.pkg, d.data, date).steps)
  {
    hide ReadPackages, Without, RemovedOf, KeptOf, Get, PoolPath, BuildPackages, Apply, PoolFields, Filenames,
      HasPrefix, AddPlan, FileKey, ReleaseOf, RenderRelease, PackagesKey, GoodId;
    var c, key := id.component, IndexKey(cfg, id);
    var b1 := b[PoolPath(c, d.pkg) := d.data];
    var all := Without(existing, d.pkg.name, d.pkg.version) + [EntryOf(t, c)(d)];
    var content := BuildPackages(KeptOf(cfg, all));
    var gone, puts := Filenames(RemovedOf(cfg, all)), [Put(key, content), Put(key + ".gz", t.gzip(content))];
    var index := IndexPlan(t, cfg, b1, c, IndexEntry(t, c, d.pkg, d.data));
    AddPlanSteps(t, cfg, b, c, d.pkg, d.data, date);
    FilenamesMember(RemovedOf(cfg, all), e, f);
    assert index == Plan(Deletes(gone) + puts, true);
    FileKeyIs(cfg, id);
    IndexKeyInDist(cfg, id, "Packages");
    IndexKeyInDist(cfg, id, "Packages.gz");
    PoolIsNotDist(f, key);
    PoolIsNotDist(f, key + ".gz");
    ApplyConcat(b1, Deletes(gone), puts);
    ApplyDeletes(b1, gone);
    StaysAbsent(b1 - Elements(gone), puts, f);
    var b2 := Apply(b1, index.steps);
    ReleaseLeavesPool(t, cfg, b2, date, f);
    StaysAbsent(b2, ReleasePlan(t, cfg, b2, date).steps, f);
  }

  lemma ReleaseLeavesPool(t: Tools, cfg: Config, b: Bucket, date: string, f: string)
    requires Setting(t, cfg) && HasPrefix(f, "pool/")
    ensures forall s | s in ReleasePlan(t, cfg, b, date).steps :: s.Put? && s.key != f
  {
    hide ReleaseSteps, ReleaseText, ReleaseKey, HasPrefix, DistDir;
    var text := ReleaseText(t, cfg, b, date);
    var steps := ReleaseSteps(cfg, text).steps;
    ReleaseStepsAre(cfg, text);
    forall s | s in steps ensures s.Put? && s.key != f {
      var i :| 0 <= i < |steps| && steps[i] == s;
      assert IsReleasePut(cfg, steps[i]);
      var name :| IsReleaseName(name) && s.key == ReleaseKey(cfg, name);
      InDists(cfg, name);
      PoolIsNotDist(f, s.key);
    }
  }

  lemma InDists(cfg: Config, name: string)
    requires Plain(cfg.distribution) && IsReleaseName(name)
    ensures HasPrefix(ReleaseKey(cfg, name), "dists/")
  {
    hide ReleaseKey, DistDir;
    ReleaseKeyIs(cfg, name);
    DistDirIs(cfg);
  }

  // ----- two Adds, file by file

  /** a 1, with a field of its own that Add appends under a name that folds to the same. */
  function Naming(f: string): Package {
    Package("a", "1", "b",
            [Field("Package", "a"), Field("Version", "1"), Field("Architecture", "b"), Field("FILENAME", f)])
  }

  predicate ShortKey(f: string) {
    '\n' !in f && !HasSuffix(f, "\r") && |f| <= 50
  }

  lemma OwnNameFolds()
    ensures EqualFold("FILENAME", "Filename")
    ensures !EqualFold("FILENAME", "Package") && !EqualFold("FILENAME", "Version")
    ensures !EqualFold("FILENAME", "Architecture")
    ensures !EqualFold("Package", "Filename") && !EqualFold("Version", "Filename")
    ensures !EqualFold("Architecture", "Filename")
  {
    assert |"FILENAME"| == 8 && |"Package"| == 7 && |"Version"| == 7 && |"Architecture"| == 12 && |"Filename"| == 8;
  }

  lemma NamingCoherent(f: string)
    ensures Coherent(Naming(f)) && Get(Naming(f).fields, "Filename") == Some(f)
  {
    var fields := Naming(f).fields;
    FieldNamesApart();
    OwnNameFolds();
    FoldReflexive("Package");
    FoldReflexive("Version");
    FoldReflexive("Architecture");
    hide EqualFold;
    GetAt(fields, 0, "Package");
    GetAt(fields, 1, "Version");
    GetAt(fields, 2, "Architecture");
    GetAt(fields, 3, "Filename");
  }

  lemma NamingPrintable(f: string)
    requires ShortKey(f)
    ensures Printable(Naming(f)) && GoodPackage(Naming(f))
  {
    hide Coherent, WellFormed, NoCR;
    NamingCoherent(f);
    NamedFields("1");
    OneLineField("FILENAME", f);
    var fields := Naming(f).fields;
    assert |fields| == 4 && fields[0] == Field("Package", "a") && fields[1] == Field("Version", "1");
    assert fields[2] == Field("Architecture", "b") && fields[3] == Field("FILENAME", f);
  }

  lemma NamingIsShort(f: string)
    requires ShortKey(f)
    ensures |ControlText(Naming(f).fields)| < Pow10(10)
  {
    hide Split, Pow10, HasSuffix;
    var fields := Naming(f).fields;
    OneLineSplit("a");
    OneLineSplit("1");
    OneLineSplit("b");
    OneLineSplit(f);
    var w, x, y, z := FieldLines(fields[0]), FieldLines(fields[1]), FieldLines(fields[2]), FieldLines(fields[3]);
    assert |w| == 1 && |x| == 1 && |y| == 1 && |z| == 1;
    assert |w[0]| == 10 && |x[0]| == 10 && |y[0]| == 15 && |z[0]| <= 60;
    hide FieldLines;
    assert fields[1..] == [fields[1], fields[2], fields[3]];
    ThreeFields(fields[1], fields[2], fields[3]);
    assert StanzaLines(fields) == w + (x + (y + z)) == [w[0], x[0], y[0], z[0]];
    assert [w[0], x[0], y[0], z[0]][1..] == [x[0], y[0], z[0]];
    ThreeLines(x[0], y[0], z[0]);
    assert Unlines([w[0], x[0], y[0], z[0]]) == w[0] + "\n" + Unlines([x[0], y[0], z[0]]);
    TenDigits();
  }

  function NamingDeb(f: string): Deb {
    Deb(Naming(f), DebFile(Naming(f)))
  }

  function NextDeb(): Deb {
    Deb(Versioned("2"), DebFile(Versioned("2")))
  }

  lemma BothAreRead(f: string)
    requires ShortKey(f)
    ensures ParseDeb(Library(), NamingDeb(f).data) == Some(Naming(f))
    ensures ParseDeb(Library(), NextDeb().data) == Some(Versioned("2"))
  {
    hide ParseDeb, Printable, ControlText, Pow10, DebFile, HasSuffix;
    NamingPrintable(f);
    NamingIsShort(f);
    EveryPackageHasADeb(Naming(f));
    DigitsAreNoCR("2");
    VersionedPrintable("2");
    VersionedIsShort("2");
    EveryPackageHasADeb(Versioned("2"));
  }

  /** Updating an index that is not there yet. */
  lemma FirstPlan(t: Tools, b: Bucket, d: Deb)
    requires d.pkg.version == "1" && d.pkg.architecture == "b"
    requires IndexKey(Distribution(1), IndexId("main", "b")) !in b
    ensures var cfg, key := Distribution(1), IndexKey(Distribution(1), IndexId("main", "b"));
            var content := BuildPackages([EntryOf(t, "main")(d)]);
            var index := IndexPlan(t, cfg, b, "main", IndexEntry(t, "main", d.pkg, d.data));
            index.complete && Apply(b, index.steps) == b[key := content][key + ".gz" := t.gzip(content)]
  {
    hide PoolPath, BuildPackages, Apply, PackagesKey, KeptOf, RemovedOf, EntryOf;
    var cfg, key := Distribution(1), IndexKey(Distribution(1), IndexId("main", "b"));
    var e := EntryOf(t, "main")(d);
    var puts := [Put(key, BuildPackages([e])), Put(key + ".gz", t.gzip(BuildPackages([e])))];
    EntryIs(t, d);
    OneIsKept(e);
    assert Without([], d.pkg.name, d.pkg.version) + [e] == [e];
    AptPublisher.NoFiles();
    assert Deletes([]) + puts == puts && [] + puts == puts;
    TwoPuts(b, [], key, BuildPackages([e]), key + ".gz", t.gzip(BuildPackages([e])));
    ApplyNothing(b);
  }

  lemma FirstReads(t: Tools, f: string)
    requires CleanDigests(t) && ShortKey(f) && ParseDeb(t, NamingDeb(f).data) == Some(Naming(f))
    ensures var e := EntryOf(t, "main")(NamingDeb(f)); ParseControlFile(BuildPackages([e])) == Ok([e])
  {
    hide BuildPackages, ParseDeb, DebFile, Printable, WellFormed, NoCR, Coherent, ParseControlFile, HasSuffix, EntryOf,
      GoodPackage, AllWellFormed, CleanDigests;
    NamingPrintable(f);
    NamingNoCR(f);
    EntryWellFormed(t, "main", NamingDeb(f));
    RoundTripExact([EntryOf(t, "main")(NamingDeb(f))]);
  }

  /** The index that the first Add leaves. */
  lemma FirstIndex(f: string, b: Bucket)
    requires ShortKey(f) && IndexKey(Distribution(1), IndexId("main", "b")) !in b
    ensures var t, cfg, id, d := Library(), Distribution(1), IndexId("main", "b"), NamingDeb(f);
            ReadPackages(Apply(b, AddPlan(t, cfg, b, "main", d.pkg, d.data, "").steps), IndexKey(cfg, id)) ==
            Some([EntryOf(t, "main")(d)])
  {
    hide PoolPath, BuildPackages, Apply, AddPlan, FileKey, ReleasePlan, PackagesKey, ParseDeb, DebFile, Printable,
      ParseControlFile, HasSuffix, HasPrefix, Library, EntryOf, GoodPackage, IndexPlan, IndexEntry, Coherent;
    var t, cfg, id, d := Library(), Distribution(1), IndexId("main", "b"), NamingDeb(f);
    var key, file := IndexKey(cfg, id), PoolPath("main", d.pkg);
    HypothesesHold(1);
    MainIsGood();
    BothAreRead(f);
    NamingPrintable(f);
    InPoolKey(d);
    FileKeyIs(cfg, id);
    IndexKeyInDist(cfg, id, "Packages");
    PoolIsNotDist(file, key);
    AddPlanSteps(t, cfg, b, "main", d.pkg, d.data, "");
    var b1 := b[file := d.data];
    FirstPlan(t, b1, d);
    var b2 := Apply(b1, IndexPlan(t, cfg, b1, "main", IndexEntry(t, "main", d.pkg, d.data)).steps);
    assert |key + ".gz"| != |key|;
    ReleaseLeavesIndex(t, cfg, b2, id);
    FirstReads(t, f);
  }

  lemma EntryIs(t: Tools, d: Deb)
    ensures EntryOf(t, "main")(d) == IndexEntry(t, "main", d.pkg, d.data)
    ensures EntryOf(t, "main")(d).name == d.pkg.name && EntryOf(t, "main")(d).version == d.pkg.version
  {
  }

  lemma NamingNoCR(f: string)
    requires Printable(Naming(f))
    ensures forall i :: 0 <= i < |Naming(f).fields| ==> NoCR(Naming(f).fields[i].value)
  {
    hide NoCR;
  }

  lemma InPoolKey(d: Deb)
    requires GoodPackage(d.pkg)
    ensures HasPrefix(PoolPath("main", d.pkg), "pool/")
  {
    hide PoolPath, HasPrefix;
    PoolPathIs("main", d.pkg);
  }

  lemma ReleaseLeavesIndex(t: Tools, cfg: Config, b: Bucket, id: IndexId)
    requires Plain(cfg.distribution) && GoodId(id)
    ensures Same(b, Apply(b, ReleasePlan(t, cfg, b, "").steps), FileKey(cfg, id, "Packages"))
  {
    hide ReleaseSteps, ReleaseText, ReleaseKey, FileKey, GoodId, Apply;
    var text := ReleaseText(t, cfg, b, "");
    var steps := ReleaseSteps(cfg, text).steps;
    ReleaseStepsAre(cfg, text);
    StepsAgree(b, steps);
    forall s | s in steps ensures s.key != FileKey(cfg, id, "Packages") {
      var i :| 0 <= i < |steps| && steps[i] == s;
      assert IsReleasePut(cfg, steps[i]);
      var name :| IsReleaseName(name) && s.key == ReleaseKey(cfg, name);
      ReleaseIsNoIndex(cfg, name, id, "Packages");
    }
  }

  lemma OneIsKept(e: Package)
    requires e.version == "1"
    ensures KeptOf(Distribution(1), [e]) == [e] && RemovedOf(Distribution(1), [e]) == []
  {
    hide Retained, Removed, DebVersion.CompareVersions;
    DebVersion.NumbersCompare("1", "1");
    forall g: string ensures Count([e], InGroup(NameOf, g)) <= 1 {
      CountSnoc([], e, InGroup(NameOf, g));
      assert [] + [e] == [e];
    }
    PruneAgain([e], 1, NameOf, CompareByVersion);
  }

  /** With room for one, a 2 drives out a 1. */
  lemma NextRemovesFirst(e: Package, n: Package)
    requires e.name == n.name == "a" && e.version == "1" && n.version == "2"
    ensures e in RemovedOf(Distribution(1), [e, n])
  {
    hide DebVersion.CompareVersions, Pick;
    var all := [e, n];
    assert Value("1") == 1 && Value("2") == 2;
    DebVersion.NumbersCompare("2", "1");
    assert Precedes(all, NameOf, CompareByVersion, 1, 0);
    assert 1 in Ahead(all, NameOf, CompareByVersion, 0);
    assert |Ahead(all, NameOf, CompareByVersion, 0)| > 0;
    assert 0 in Dropped(all, 1, NameOf, CompareByVersion);
    PickMember(all, Dropped(all, 1, NameOf, CompareByVersion), 2, e);
  }

  /** Whatever object a control paragraph names as its file, room being for one version: once the next version is added,
      that object is gone. */
  lemma OwnFilenameDeletes(listing: set<string> -> seq<string>, f: string, b: Bucket)
    requires ShortKey(f) && HasPrefix(f, "pool/") && IndexKey(Distribution(1), IndexId("main", "b")) !in b
    ensures var ops := [AddOp("", NamingDeb(f).data, ""), AddOp("", NextDeb().data, "")];
            && ParseDeb(Library(), NamingDeb(f).data) == Some(Naming(f))
            && f !in Run(Library(), Distribution(1), listing, b, ops)
  {
    hide PoolPath, BuildPackages, Apply, AddPlan, FileKey, PackagesKey, ParseDeb, DebFile, HasSuffix, HasPrefix,
      Library, EntryOf, ReadPackages, RemovedOf, CleanDigests, GoodPackage, Get;
    var t, cfg, id := Library(), Distribution(1), IndexId("main", "b");
    var d, n := NamingDeb(f), NextDeb();
    var ops := [AddOp("", d.data, ""), AddOp("", n.data, "")];
    BothAreRead(f);
    var c := Apply(b, AddPlan(t, cfg, b, "main", d.pkg, d.data, "").steps);
    assert ops[..1] == [ops[0]] && ops[..1][..0] == [];
    assert Run(t, cfg, listing, b, ops[..1]) == c;
    FirstIndex(f, b);
    NextIsGood();
    IndexUntouched(t, cfg, c, id, n);
    var e, m := EntryOf(t, "main")(d), EntryOf(t, "main")(n);
    EntryIs(t, d);
    EntryIs(t, n);
    OtherStays(e);
    NextRemovesFirst(e, m);
    NamingCoherent(f);
    OwnFilenameIsNamed(t, "main", d, f);
    assert [e] + [m] == [e, m];
    NamedIsDeleted(t, cfg, c, id, n, "", [e], e, f);
  }

  lemma OtherStays(e: Package)
    requires e.name == "a" && e.version == "1"
    ensures Without([e], "a", "2") == [e]
  {
    assert [e][1..] == [];
  }

  lemma NextIsGood()
    ensures Setting(Library(), Distribution(1)) && GoodId(IndexId("main", "b")) && GoodDeb(Library(), NextDeb())
  {
    hide ParseDeb, Publishable, DebFile, CleanDigests;
    HypothesesHold(1);
    MainIsGood();
    VersionedPublishable("2");
    BothAreRead("");
  }
}
