/**
 The state an apt repository is meant to be in: for each index the packages it lists, with their .deb files.
 Here: what an index entry is, and that a written index reads back as its entries.
 */
module AptState {
  import opened Wrappers
  import opened Numbers
  import opened Text
  import opened Paths
  import opened Storage
  import opened Control
  import opened ControlRoundTrip
  import opened Retention
  import opened RetentionLaws
  import opened Apt
  import opened AptKeys
  import AptPublisher
  import DebVersion
  import Ar

  datatype AnyDeb = Deb(pkg: Package, data: string)

  /** A .deb file and its control paragraph, which has a name. */
  type Deb = d: AnyDeb | d.pkg.name != "" witness Deb(Package("a", "", "", []), "")

  type Repo = map<IndexId, seq<Deb>>

  // ----- hypotheses on what is published

  /** The fields that Add appends, which a control paragraph does not have itself. */
  predicate Reserved(name: string) {
    EqualFold(name, "Filename") || EqualFold(name, "Size") || EqualFold(name, "MD5sum")
    || EqualFold(name, "SHA1") || EqualFold(name, "SHA256")
  }

  /** A package that follows the Debian rules for names and versions, with plain line ends. */
  ghost predicate Publishable(p: Package) {
    && GoodPackage(p)
    && DebVersion.NonNegativeEpoch(p.version)
    && (forall i :: 0 <= i < |p.fields| ==> NoCR(p.fields[i].value) && !Reserved(p.fields[i].name))
  }

  ghost predicate GoodDeb(t: Tools, d: Deb) {
    ParseDeb(t, d.data) == Some(d.pkg) && Publishable(d.pkg)
  }

  predicate OneLine(s: string) {
    '\n' !in s && '\r' !in s
  }

  /** Digests are printed on one line. */
  ghost predicate CleanDigests(t: Tools) {
    forall x: string :: OneLine(t.md5(x)) && OneLine(t.sha1(x)) && OneLine(t.sha256(x))
  }

  // ----- entries

  function EntryOf(t: Tools, component: string): Deb -> Package {
    (d: Deb) => IndexEntry(t, component, d.pkg, d.data)
  }

  function PoolOf(component: string): Deb -> string {
    (d: Deb) => PoolPath(component, d.pkg)
  }

  function Entries(t: Tools, component: string, l: seq<Deb>): seq<Package> {
    Map(EntryOf(t, component), l)
  }

  function DebName(d: Deb): string {
    d.pkg.name
  }

  function CompareDebs(d: Deb, e: Deb): int {
    DebVersion.CompareVersions(d.pkg.version, e.pkg.version)
  }

  predicate SameIdentity(d: Deb, e: Deb) {
    d.pkg.name == e.pkg.name && d.pkg.version == e.pkg.version
  }

  function WithoutDebs(l: seq<Deb>, name: string, version: string): (r: seq<Deb>)
  {
    if l == [] then []
    else (if Matches(l[0].pkg, name, version) then [] else [l[0]]) + WithoutDebs(l[1..], name, version)
  }

  function MatchingDebs(l: seq<Deb>, name: string, version: string): seq<Deb> {
    if l == [] then []
    else (if Matches(l[0].pkg, name, version) then [l[0]] else []) + MatchingDebs(l[1..], name, version)
  }

  function KeptDebs(cfg: Config, all: seq<Deb>): seq<Deb> {
    if cfg.keepVersions > 0 then Retained(all, cfg.keepVersions, DebName, CompareDebs) else all
  }

  function RemovedDebs(cfg: Config, all: seq<Deb>): seq<Deb> {
    if cfg.keepVersions > 0 then Removed(all, cfg.keepVersions, DebName, CompareDebs) else []
  }

  /** No name and version is listed twice. */
  ghost predicate Distinct(l: seq<Deb>) {
    forall i, j :: 0 <= i < j < |l| ==> !SameIdentity(l[i], l[j])
  }

  /** What an index may list. */
  ghost predicate ValidIndex(t: Tools, cfg: Config, id: IndexId, l: seq<Deb>) {
    && (forall i :: 0 <= i < |l| ==> GoodDeb(t, l[i]) && l[i].pkg.architecture == id.arch)
    && Distinct(l)
    && (cfg.keepVersions > 0 ==> Capped(l, cfg.keepVersions, DebName))
  }

  // ----- parsed packages

  lemma ParsedDeb(t: Tools, data: string)
    ensures var r := ParseDeb(t, data);
            r.Some? ==> Coherent(r.value) && AllWellFormed(r.value.fields)
  {
    hide Coherent, AllWellFormed;
    var ms := Ar.Archive(data);
    if ms.Ok? {
      ParsedMember(t, ms.value);
    }
  }

  lemma {:induction false} ParsedMember(t: Tools, ms: seq<Ar.Member>)
    ensures var r := ControlMember(t, ms);
            r.Some? ==> Coherent(r.value) && AllWellFormed(r.value.fields)
  {
    hide Coherent, AllWellFormed, ParseControl;
    if ms != [] {
      if HasPrefix(ms[0].name, "control.tar") {
        var control := t.readControl(ms[0].name, ms[0].data);
        if control.Some? {
          ParsedControlIsWellFormed(control.value);
        }
      } else {
        ParsedMember(t, ms[1..]);
      }
    }
  }

  // ----- the fields of an entry

  const POOL_FIELDS := ["Filename", "Size", "MD5sum", "SHA1", "SHA256"]
  const KEY_FIELDS := ["Package", "Version", "Architecture"]

  lemma FieldNamesDiffer()
    ensures forall i, j :: 0 <= i < j < 5 ==> !EqualFold(POOL_FIELDS[i], POOL_FIELDS[j])
    ensures forall i, j :: 0 <= i < 5 && 0 <= j < 3 ==> !EqualFold(POOL_FIELDS[i], KEY_FIELDS[j])
  {
    var sha1, size, md5, sha256 := "SHA1", "Size", "MD5sum", "SHA256";
    assert LowerChar(size[1]) != LowerChar(sha1[1]);
    assert LowerChar(md5[0]) != LowerChar(sha256[0]);
  }

  /** The appended fields are found under their names, and under no others. */
  lemma GetPoolFields(t: Tools, filename: string, data: string)
    ensures var fs := PoolFields(t, filename, data);
            && (forall k :: 0 <= k < 5 ==> Get(fs, POOL_FIELDS[k]) == Some(fs[k].value))
            && (forall k :: 0 <= k < 3 ==> Get(fs, KEY_FIELDS[k]).None?)
  {
    hide Itoa, EqualFold, Get;
    var fs := PoolFields(t, filename, data);
    FieldNamesDiffer();
    assert forall i :: 0 <= i < 5 ==> fs[i].name == POOL_FIELDS[i];
    forall k | 0 <= k < 5 ensures Get(fs, POOL_FIELDS[k]) == Some(fs[k].value) {
      assert fs[k].name == POOL_FIELDS[k];
      FoldReflexive(POOL_FIELDS[k]);
      GetAt(fs, k, POOL_FIELDS[k]);
    }
    forall k | 0 <= k < 3 ensures Get(fs, KEY_FIELDS[k]).None? {
      GetAbsent(fs, KEY_FIELDS[k]);
    }
  }

  /** An entry says what file it is of, and its size and digests. */
  ghost predicate Describes(e: Package, filename: string, t: Tools, data: string) {
    && Get(e.fields, "Filename") == Some(filename)
    && Get(e.fields, "Size") == Some(Itoa(|data|))
    && Get(e.fields, "MD5sum") == Some(t.md5(data))
    && Get(e.fields, "SHA1") == Some(t.sha1(data))
    && Get(e.fields, "SHA256") == Some(t.sha256(data))
  }

  /** Where the control paragraph has a field of one of the names that Add appends, it says the same in it. */
  ghost predicate OwnFieldsAgree(t: Tools, component: string, d: Deb) {
    var fs := PoolFields(t, PoolPath(component, d.pkg), d.data);
    forall k | 0 <= k < 5 ::
      Get(d.pkg.fields, POOL_FIELDS[k]).None? || Get(d.pkg.fields, POOL_FIELDS[k]) == Some(fs[k].value)
  }

  /** What a client reads in an entry is of the file that was added if and only if the control paragraph does not say
      otherwise: the first field of a name is the one that is read. */
  lemma EntryFieldsExact(t: Tools, component: string, d: Deb)
    ensures Describes(EntryOf(t, component)(d), PoolPath(component, d.pkg), t, d.data) <==>
            OwnFieldsAgree(t, component, d)
  {
    hide Get, PoolPath, Itoa, EqualFold;
    var filename := PoolPath(component, d.pkg);
    var fs := PoolFields(t, filename, d.data);
    GetPoolFields(t, filename, d.data);
    forall k | 0 <= k < 5
      ensures Get(d.pkg.fields + fs, POOL_FIELDS[k]) ==
              if Get(d.pkg.fields, POOL_FIELDS[k]).Some? then Get(d.pkg.fields, POOL_FIELDS[k])
              else Some(fs[k].value)
    {
      GetConcat(d.pkg.fields, fs, POOL_FIELDS[k]);
    }
    assert POOL_FIELDS[0] == "Filename" && POOL_FIELDS[1] == "Size" && POOL_FIELDS[2] == "MD5sum" &&
           POOL_FIELDS[3] == "SHA1" && POOL_FIELDS[4] == "SHA256";
  }

  /** A control paragraph without such fields says nothing otherwise. */
  lemma EntryFields(t: Tools, component: string, d: Deb)
    requires Publishable(d.pkg)
    ensures Describes(EntryOf(t, component)(d), PoolPath(component, d.pkg), t, d.data)
  {
    hide Get, PoolPath, Itoa, EqualFold, Describes;
    forall k | 0 <= k < 5 ensures Get(d.pkg.fields, POOL_FIELDS[k]).None? {
      GetAbsent(d.pkg.fields, POOL_FIELDS[k]);
    }
    EntryFieldsExact(t, component, d);
  }

  lemma EntryCoherent(t: Tools, component: string, d: Deb)
    requires Coherent(d.pkg)
    ensures Coherent(EntryOf(t, component)(d))
  {
    hide Get, PoolPath, PoolFields, Itoa;
    var filename := PoolPath(component, d.pkg);
    var fs := PoolFields(t, filename, d.data);
    GetPoolFields(t, filename, d.data);
    forall k | 0 <= k < 3 ensures Get(d.pkg.fields + fs, KEY_FIELDS[k]) == Get(d.pkg.fields, KEY_FIELDS[k]) {
      GetConcat(d.pkg.fields, fs, KEY_FIELDS[k]);
    }
    assert KEY_FIELDS[0] == "Package" && KEY_FIELDS[1] == "Version" && KEY_FIELDS[2] == "Architecture";
  }

  // ----- an index reads back as its entries

  lemma {:induction false} JoinNoLineFeed(parts: seq<string>)
    requires forall i :: 0 <= i < |parts| ==> '\n' !in parts[i]
    ensures '\n' !in Join(parts, '/')
  {
    if |parts| > 1 {
      JoinNoLineFeed(parts[1..]);
    }
  }

  lemma {:induction false} JoinLast(parts: seq<string>, suffix: string)
    requires parts != [] && HasSuffix(parts[|parts| - 1], suffix)
    ensures HasSuffix(Join(parts, '/'), suffix)
  {
    if |parts| > 1 {
      JoinLast(parts[1..], suffix);
      var j, more := Join(parts, '/'), Join(parts[1..], '/');
      assert j == (parts[0] + "/") + more;
    }
  }

  lemma PoolPathOneLine(component: string, p: Package)
    requires Plain(component) && '\n' !in component && GoodPackage(p)
    ensures '\n' !in PoolPath(component, p) && !HasSuffix(PoolPath(component, p), "\r")
  {
    hide PoolPath, Join;
    PoolPathIs(component, p);
    var parts := PoolParts(component, p);
    JoinNoLineFeed(parts);
    JoinLast(parts, "b");
    var path := PoolPath(component, p);
    assert path[|path| - 1..] == "b";
  }

  lemma ItoaOneLine(n: nat)
    ensures OneLine(Itoa(n))
  {
    forall c | c in Itoa(n) ensures c != '\n' && c != '\r' {
      ItoaChars(n, c);
    }
  }

  lemma NoCREnd(s: string)
    requires '\r' !in s
    ensures !HasSuffix(s, "\r")
  {
    assert s != "" ==> s[|s| - 1] in s;
  }

  lemma WordField(name: string, value: string)
    requires ':' !in name && '\n' !in name && !IsContinuation(name) && OneLine(value)
    ensures WellFormed(Field(name, value)) && NoCR(value)
  {
    hide WellFormed, NoCR;
    NoCREnd(value);
    OneLineField(name, value);
  }

  lemma PoolFieldsWellFormed(t: Tools, component: string, d: Deb)
    requires CleanDigests(t) && Plain(component) && '\n' !in component && GoodPackage(d.pkg)
    ensures var fs := PoolFields(t, PoolPath(component, d.pkg), d.data);
            AllWellFormed(fs) && forall i :: 0 <= i < |fs| ==> NoCR(fs[i].value)
  {
    hide PoolPath, Itoa, WellFormed, NoCR, OneLine;
    PoolPathOneLine(component, d.pkg);
    ItoaOneLine(|d.data|);
    OneLineField("Filename", PoolPath(component, d.pkg));
    WordField("Size", Itoa(|d.data|));
    WordField("MD5sum", t.md5(d.data));
    WordField("SHA1", t.sha1(d.data));
    WordField("SHA256", t.sha256(d.data));
    var fs := PoolFields(t, PoolPath(component, d.pkg), d.data);
    assert fs[0] == Field("Filename", PoolPath(component, d.pkg)) && fs[1] == Field("Size", Itoa(|d.data|));
    assert fs[2] == Field("MD5sum", t.md5(d.data)) && fs[3] == Field("SHA1", t.sha1(d.data));
    assert fs[4] == Field("SHA256", t.sha256(d.data));
  }

  lemma EntryWellFormed(t: Tools, component: string, d: Deb)
    requires CleanDigests(t) && Plain(component) && '\n' !in component
    requires ParseDeb(t, d.data) == Some(d.pkg) && GoodPackage(d.pkg)
    requires forall i :: 0 <= i < |d.pkg.fields| ==> NoCR(d.pkg.fields[i].value)
    ensures var e := EntryOf(t, component)(d);
            e.fields != [] && AllWellFormed(e.fields) && Coherent(e) &&
            forall k :: 0 <= k < |e.fields| ==> NoCR(e.fields[k].value)
  {
    hide PoolPath, WellFormed, NoCR, ParseDeb, Coherent;
    ParsedDeb(t, d.data);
    PoolFieldsWellFormed(t, component, d);
    EntryCoherent(t, component, d);
  }

  lemma GoodIsWellFormed(t: Tools, component: string, d: Deb)
    requires CleanDigests(t) && Plain(component) && '\n' !in component && GoodDeb(t, d)
    ensures var e := EntryOf(t, component)(d);
            e.fields != [] && AllWellFormed(e.fields) && Coherent(e) &&
            forall k :: 0 <= k < |e.fields| ==> NoCR(e.fields[k].value)
  {
    hide NoCR, ParseDeb, GoodPackage, Coherent, AllWellFormed, PoolPath;
    EntryWellFormed(t, component, d);
  }

  /** The only memory of the publisher is good: an index reads back as what was written. */
  lemma IndexReadsBack(t: Tools, cfg: Config, id: IndexId, l: seq<Deb>)
    requires CleanDigests(t) && GoodId(id) && ValidIndex(t, cfg, id, l)
    ensures ParseControlFile(BuildPackages(Entries(t, id.component, l))) == Ok(Entries(t, id.component, l))
  {
    hide AllWellFormed, NoCR, Coherent, GoodDeb, BuildPackages, ParseControlFile, EntryOf;
    var es := Entries(t, id.component, l);
    forall i | 0 <= i < |es|
      ensures es[i].fields != [] && AllWellFormed(es[i].fields) && Coherent(es[i])
      ensures forall k :: 0 <= k < |es[i].fields| ==> NoCR(es[i].fields[k].value)
    {
      GoodIsWellFormed(t, id.component, l[i]);
      assert es[i] == EntryOf(t, id.component)(l[i]);
    }
    RoundTripExact(es);
  }

  // ----- the operations of an index, on .deb files and on entries

  lemma {:induction false} WithoutCommutes(t: Tools, component: string, l: seq<Deb>, name: string, version: string)
    ensures Without(Entries(t, component, l), name, version) == Entries(t, component, WithoutDebs(l, name, version))
    ensures Matching(Entries(t, component, l), name, version) == Entries(t, component, MatchingDebs(l, name, version))
  {
    hide Map, EntryOf, Matches;
    if l != [] {
      var d, rest := l[0], l[1..];
      WithoutCommutes(t, component, rest, name, version);
      MapCons(EntryOf(t, component), d, rest);
      MapCons(EntryOf(t, component), d, WithoutDebs(rest, name, version));
      MapCons(EntryOf(t, component), d, MatchingDebs(rest, name, version));
      assert l == [d] + rest;
      EntryMatches(t, component, d, name, version);
      WithoutCons(Entries(t, component, l), name, version);
      assert Entries(t, component, l)[1..] == Entries(t, component, rest);
      assert [] + WithoutDebs(rest, name, version) == WithoutDebs(rest, name, version);
      assert [] + MatchingDebs(rest, name, version) == MatchingDebs(rest, name, version);
    } else {
      MapNil(EntryOf(t, component));
    }
  }

  lemma WithoutCons(pkgs: seq<Package>, name: string, version: string)
    requires pkgs != []
    ensures Without(pkgs, name, version) ==
            if Matches(pkgs[0], name, version) then Without(pkgs[1..], name, version)
            else [pkgs[0]] + Without(pkgs[1..], name, version)
    ensures Matching(pkgs, name, version) ==
            if Matches(pkgs[0], name, version) then [pkgs[0]] + Matching(pkgs[1..], name, version)
            else Matching(pkgs[1..], name, version)
  {
    hide Matches;
    assert [] + Without(pkgs[1..], name, version) == Without(pkgs[1..], name, version);
    assert [] + Matching(pkgs[1..], name, version) == Matching(pkgs[1..], name, version);
  }

  lemma EntryMatches(t: Tools, component: string, d: Deb, name: string, version: string)
    ensures Matches(EntryOf(t, component)(d), name, version) == Matches(d.pkg, name, version)
  {
  }

  lemma MapCons<A, B>(f: A -> B, x: A, l: seq<A>)
    ensures Map(f, [x] + l) == [f(x)] + Map(f, l)
  {
  }

  lemma MapNil<A, B>(f: A -> B)
    ensures Map(f, []) == []
  {
  }

  lemma PruneCommutes(t: Tools, cfg: Config, component: string, all: seq<Deb>)
    ensures KeptOf(cfg, Entries(t, component, all)) == Entries(t, component, KeptDebs(cfg, all))
    ensures RemovedOf(cfg, Entries(t, component, all)) == Entries(t, component, RemovedDebs(cfg, all))
  {
    hide Retained, Removed, DebVersion.CompareVersions;
    PruneMap(EntryOf(t, component), all, cfg.keepVersions, DebName, CompareDebs, NameOf, CompareByVersion);
    assert Entries(t, component, []) == [];
  }

  lemma {:induction false} FilenamesAre(t: Tools, component: string, l: seq<Deb>)
    requires forall i :: 0 <= i < |l| ==> Publishable(l[i].pkg)
    ensures Filenames(Entries(t, component, l)) == Map(PoolOf(component), l)
  {
    hide Publishable, Get, PoolPath, Filenames, Map, EntryOf;
    if l == [] {
      MapNil(EntryOf(t, component));
      MapNil(PoolOf(component));
      AptPublisher.NoFiles();
    } else {
      var n := |l| - 1;
      var front, d := l[..n], l[n];
      var es := Entries(t, component, l);
      FilenamesAre(t, component, front);
      assert l == front + [d];
      MapSnoc(EntryOf(t, component), front, d);
      MapSnoc(PoolOf(component), front, d);
      EntryFields(t, component, d);
      AptPublisher.FilenamesStep(es, n);
      assert es[..n + 1] == es && es[..n] == Entries(t, component, front);
    }
  }

  lemma MapSnoc<A, B>(f: A -> B, l: seq<A>, x: A)
    ensures Map(f, l + [x]) == Map(f, l) + [f(x)]
  {
  }

  lemma {:induction false} WithoutIs(l: seq<Deb>, name: string, version: string)
    ensures forall d :: d in WithoutDebs(l, name, version) <==> d in l && !Matches(d.pkg, name, version)
    ensures forall d :: d in MatchingDebs(l, name, version) <==> d in l && Matches(d.pkg, name, version)
  {
    if l != [] {
      WithoutIs(l[1..], name, version);
      assert l == [l[0]] + l[1..];
    }
  }

  lemma {:induction false} WithoutDistinct(l: seq<Deb>, name: string, version: string)
    requires Distinct(l)
    ensures Distinct(WithoutDebs(l, name, version))
  {
    hide Distinct;
    if l == [] {
      DistinctCons(Deb(Package("a", "", "", []), ""), []);
    } else {
      var more := WithoutDebs(l[1..], name, version);
      assert l == [l[0]] + l[1..];
      DistinctCons(l[0], l[1..]);
      WithoutDistinct(l[1..], name, version);
      WithoutIs(l[1..], name, version);
      DistinctCons(l[0], more);
      assert [] + more == more;
    }
  }

  lemma DistinctCons(d: Deb, l: seq<Deb>)
    ensures Distinct([d] + l) <==> Distinct(l) && forall e | e in l :: !SameIdentity(d, e)
    ensures Distinct([])
  {
    hide SameIdentity;
    var all := [d] + l;
    if Distinct(all) {
      forall e | e in l ensures !SameIdentity(d, e) {
        var i :| 0 <= i < |l| && l[i] == e;
        assert all[i + 1] == e;
        assert !SameIdentity(all[0], all[i + 1]);
      }
      forall i, j | 0 <= i < j < |l| ensures !SameIdentity(l[i], l[j]) {
        assert all[i + 1] == l[i] && all[j + 1] == l[j];
      }
    }
    if Distinct(l) && forall e | e in l :: !SameIdentity(d, e) {
      forall i, j | 0 <= i < j < |all| ensures !SameIdentity(all[i], all[j]) {
        assert all[j] == l[j - 1];
      }
    }
  }
}
