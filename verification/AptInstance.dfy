/**
 The hypotheses on the apt publisher's libraries can be met, packages can be published under them, and two Adds can tie.
 */
module AptInstance {
  import opened Wrappers
  import opened Text
  import opened Numbers
  import opened Paths
  import opened Storage
  import opened Control
  import opened ControlRoundTrip
  import opened Apt
  import opened AptKeys
  import opened AptState
  import opened AptInvariant
  import opened AptRuns
  import opened AptRetention
  import opened DebFiles
  import Ar
  import DebVersion

  function Library(): Tools {
    var length := (x: string) => Itoa(|x|);
    Tools(length, length, length, (x: string) => x, (name: string, data: string) => Some(data))
  }

  function Distribution(keepVersions: int): Config {
    Config("stable", ["main"], "", "", "", keepVersions, None)
  }

  lemma HypothesesHold(keepVersions: int)
    ensures Setting(Library(), Distribution(keepVersions))
  {
    hide Itoa;
    forall x: string ensures OneLine(Itoa(|x|)) {
      ItoaOneLine(|x|);
    }
  }

  // ----- every package has a .deb

  function ControlText(fields: seq<Field>): string {
    Unlines(StanzaLines(fields))
  }

  ghost predicate Printable(p: Package) {
    && Coherent(p) && p.fields != [] && AllWellFormed(p.fields)
    && forall i :: 0 <= i < |p.fields| ==> NoCR(p.fields[i].value)
  }

  lemma ControlReads(p: Package)
    requires Printable(p)
    ensures ParseControl(ControlText(p.fields)) == Ok(p)
  {
    hide AllWellFormed, NoCR, NewPackage, StanzaLines, Unlines, FormatStanza, SplitLines, Paragraph;
    StanzaIsLines(p.fields);
    StanzaReadsBack(p.fields);
  }

  /** The three members of a .deb. */
  function DebMembers(control: string): seq<Ar.Member> {
    [Ar.Member("debian-binary", "2.0\n"), Ar.Member("control.tar", control), Ar.Member("data.tar", "")]
  }

  function DebFile(p: Package): string {
    "!<arch>\n" + Ar.MembersText(DebMembers(ControlText(p.fields)))
  }

  lemma EveryPackageHasADeb(p: Package)
    requires Printable(p) && |ControlText(p.fields)| < Pow10(10)
    ensures ParseDeb(Library(), DebFile(p)) == Some(p)
  {
    hide Printable, ControlText, Ar.MembersText, Ar.Writable, ParseControl, ParseDeb, Pow10;
    var ms := DebMembers(ControlText(p.fields));
    ControlReads(p);
    TenDigits();
    forall m | m in ms ensures Ar.Writable(m) {
      Ar.WritableExact(m);
    }
    assert ms == ms[..1] + [ms[1]] + ms[2..];
    var first, second := "debian-binary", "control.tar";
    assert first[0] != second[0] && ms[0].name == first && ms[1].name == second;
    FirstControlCounts(Library(), ms[..1], ms[1], ms[2..]);
  }

  // ----- two Adds that tie

  function Versioned(v: string): Package {
    Package("a", v, "b", [Field("Package", "a"), Field("Version", v), Field("Architecture", "b")])
  }

  lemma VersionedCoherent(v: string)
    requires v != ""
    ensures Coherent(Versioned(v))
  {
    var fields := Versioned(v).fields;
    FieldNamesApart();
    FoldReflexive("Package");
    FoldReflexive("Version");
    FoldReflexive("Architecture");
    hide EqualFold;
    GetAt(fields, 0, "Package");
    GetAt(fields, 1, "Version");
    GetAt(fields, 2, "Architecture");
  }

  lemma FieldNamesApart()
    ensures !EqualFold("Package", "Version") && !EqualFold("Package", "Architecture")
    ensures !EqualFold("Version", "Architecture")
    ensures !Reserved("Package") && !Reserved("Version") && !Reserved("Architecture")
  {
    FieldNamesDiffer();
    var keys, pool := KEY_FIELDS, POOL_FIELDS;
    assert keys[0] == "Package" && keys[1] == "Version" && keys[2] == "Architecture";
    assert pool[0] == "Filename" && pool[1] == "Size" && pool[2] == "MD5sum" && pool[3] == "SHA1" &&
           pool[4] == "SHA256";
    FoldSymmetric();
    assert |"Package"| == 7 && |"Version"| == 7 && |"Architecture"| == 12;
    var x, y := "Package", "Version";
    assert LowerChar(x[0]) != LowerChar(y[0]);
  }

  lemma FoldSymmetric()
    ensures forall s, t :: EqualFold(s, t) ==> EqualFold(t, s)
  {
  }

  lemma VersionedPrintable(v: string)
    requires AllDigits(v) && v != ""
    ensures Printable(Versioned(v))
  {
    hide Coherent, WellFormed, NoCR, AllDigits;
    VersionedCoherent(v);
    NamedFields(v);
    var fields := Versioned(v).fields;
    assert |fields| == 3 && fields[0] == Field("Package", "a");
    assert fields[1] == Field("Version", v) && fields[2] == Field("Architecture", "b");
  }

  lemma NamedFields(v: string)
    requires AllDigits(v) && v != ""
    ensures WellFormed(Field("Package", "a")) && NoCR("a")
    ensures WellFormed(Field("Version", v)) && NoCR(v)
    ensures WellFormed(Field("Architecture", "b")) && NoCR("b")
  {
    hide WellFormed, NoCR, AllDigits;
    DigitsAreNoCR(v);
    OneLineField("Package", "a");
    OneLineField("Version", v);
    OneLineField("Architecture", "b");
  }

  lemma DigitsAreNoCR(v: string)
    requires AllDigits(v) && v != ""
    ensures '\n' !in v && !HasSuffix(v, "\r") && '/' !in v && '_' !in v
  {
    NoCREnd(v);
  }

  lemma VersionedPublishable(v: string)
    requires AllDigits(v) && v != ""
    ensures Publishable(Versioned(v))
  {
    hide DebVersion.Split, NoCR, Reserved;
    VersionedPrintable(v);
    DigitsAreNoCR(v);
    DebVersion.NumberSplit(v);
    FieldNamesApart();
    var fields := Versioned(v).fields;
    forall i | 0 <= i < |fields| ensures NoCR(fields[i].value) && !Reserved(fields[i].name) {
      assert i == 0 || i == 1 || i == 2;
    }
  }

  lemma VersionedIsShort(v: string)
    requires '\n' !in v && v != "" && |v| <= 2
    ensures |ControlText(Versioned(v).fields)| < Pow10(10)
  {
    hide Split, Pow10;
    var fields := Versioned(v).fields;
    OneLineSplit("a");
    OneLineSplit(v);
    OneLineSplit("b");
    var x, y, z := FieldLines(fields[0]), FieldLines(fields[1]), FieldLines(fields[2]);
    assert |x| == 1 && |y| == 1 && |z| == 1;
    assert |x[0]| == 10 && |y[0]| <= 11 && |z[0]| == 15;
    hide FieldLines;
    ThreeFields(fields[0], fields[1], fields[2]);
    ThreeLines(x[0], y[0], z[0]);
    assert StanzaLines(fields) == [x[0], y[0], z[0]];
    TenDigits();
  }

  lemma ThreeFields(f: Field, g: Field, h: Field)
    ensures StanzaLines([f, g, h]) == FieldLines(f) + (FieldLines(g) + FieldLines(h))
  {
    hide FieldLines;
    assert [f, g, h][1..] == [g, h] && [g, h][1..] == [h] && [h][1..] == [];
    assert StanzaLines([f, g, h]) == FieldLines(f) + StanzaLines([g, h]);
    assert StanzaLines([g, h]) == FieldLines(g) + StanzaLines([h]);
    assert StanzaLines([h]) == FieldLines(h) + StanzaLines([]) == FieldLines(h) + [] == FieldLines(h);
  }

  lemma ThreeLines(x: string, y: string, z: string)
    ensures |Unlines([x, y, z])| == |x| + |y| + |z| + 3
  {
    assert [x, y, z][1..] == [y, z] && [y, z][1..] == [z] && [z][1..] == [];
    assert Unlines([x, y, z]) == x + "\n" + Unlines([y, z]);
    assert Unlines([y, z]) == y + "\n" + Unlines([z]);
    assert Unlines([z]) == z + "\n" + Unlines([]);
  }

  lemma TenDigits()
    ensures Pow10(10) >= 100
  {
    assert Pow10(10) == 10 * Pow10(9) && Pow10(9) == 10 * Pow10(8);
  }

  function AddVersion(v: string): Op {
    AddOp("", DebFile(Versioned(v)), "")
  }

  lemma AddedVersion(v: string)
    requires AllDigits(v) && v != "" && |v| <= 2
    ensures var id := IndexId("main", "b");
            && GoodOp(Library(), AddVersion(v)) && AddsTo(Library(), AddVersion(v), id)
            && IdentityOf(Added(Library(), AddVersion(v))) == Identity("a", v)
  {
    hide ParseDeb, Publishable, Printable, ControlText, Pow10, DebFile;
    VersionedPrintable(v);
    VersionedPublishable(v);
    DigitsAreNoCR(v);
    VersionedIsShort(v);
    EveryPackageHasADeb(Versioned(v));
    assert ParseDeb(Library(), DebFile(Versioned(v))) == Some(Versioned(v));
  }

  /** Two Adds of one package, its version spelt 1 and 01: with room for one, which of them is listed depends on which
      came first. */
  lemma TiedAdds(listing: set<string> -> seq<string>)
    requires Enumerates(listing)
    ensures var t, cfg, id := Library(), Distribution(1), IndexId("main", "b");
            var ops := [AddVersion("1"), AddVersion("01")];
            && OnlyAdds(t, ops) && EverAdded(t, ops, id) == {Identity("a", "1"), Identity("a", "01")}
            && exists other :: multiset(other) == multiset(ops) &&
                 Published(cfg, Run(t, cfg, listing, map[], other), id) !=
                 Published(cfg, Run(t, cfg, listing, map[], ops), id)
  {
    hide AddVersion, GoodOp, AddsTo, Added, IdentityOf, Published, Run, TieAtCut, Setting, Plain, EverAdded, ParseDeb,
      Standing;
    var t, cfg, id := Library(), Distribution(1), IndexId("main", "b");
    var ops := [AddVersion("1"), AddVersion("01")];
    HypothesesHold(1);
    AddedVersion("1");
    AddedVersion("01");
    MainIsGood();
    AddsToMeans();
    AddedTwo(t, AddVersion("1"), AddVersion("01"), id);
    SpellingsTie(cfg, "a");
    AddsStand(t, cfg, ops, id);
    OrderMattersExactlyForTies(t, cfg, listing, ops, id);
  }

  lemma MainIsGood()
    ensures GoodId(IndexId("main", "b"))
  {
  }

  lemma AddedTwo(t: Tools, x: Op, y: Op, id: IndexId)
    requires AddsTo(t, x, id) && AddsTo(t, y, id)
    ensures EverAdded(t, [x, y], id) == {IdentityOf(Added(t, x)), IdentityOf(Added(t, y))}
  {
    hide AddsTo, IdentityOf, ParseDeb;
    AddsToMeans();
    assert x in [x, y] && y in [x, y];
  }
}
