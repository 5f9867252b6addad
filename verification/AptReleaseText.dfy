/**
 The Release file as a reader of control paragraphs finds it: which field says what.
 */
module AptReleaseText {
  import opened Wrappers
  import opened Numbers
  import opened Text
  import opened Control
  import opened ControlRoundTrip
  import opened Apt
  import opened AptState

  // ----- what a reader finds

  /** The fields of a text that is one paragraph. */
  function FieldsOf(text: string): Option<seq<Field>> {
    var p := Paragraph(SplitLines(text), []);
    if p.Ok? && p.value.rest == [""] then Some(p.value.fields) else None
  }

  /** Fields without a value are left out. */
  function Given(value: string): Option<string> {
    if value == "" then None else Some(value)
  }

  /** One line of a checksum field. */
  function SumLine(digest: string, size: nat, path: string): string {
    " " + digest + " " + Itoa(size) + " " + path
  }

  /** The field holds these lines, each on a line of its own below its name. */
  ghost predicate HoldsLines(fields: seq<Field>, name: string, lines: seq<string>) {
    Get(fields, name).Some? && Split(Get(fields, name).value, '\n') == [""] + lines
  }

  function SumLines(entries: seq<ReleaseEntry>, pick: ReleaseEntry -> string): (r: seq<string>)
    ensures |r| == |entries|
    ensures forall i :: 0 <= i < |r| ==> r[i] == SumLine(pick(entries[i]), entries[i].size, entries[i].path)
  {
    seq(|entries|, i requires 0 <= i < |entries| => SumLine(pick(entries[i]), entries[i].size, entries[i].path))
  }

  /** What the eight fields of a Release file say. */
  ghost predicate SaysOf(fields: seq<Field>, cfg: Config, date: string, arches: seq<string>, components: seq<string>) {
    && Get(fields, "Origin") == Given(cfg.origin) && Get(fields, "Label") == Given(cfg.repoLabel)
    && Get(fields, "Suite") == Get(fields, "Codename") == Given(cfg.distribution)
    && Get(fields, "Date") == Given(date) && Get(fields, "Description") == Given(cfg.description)
    && Get(fields, "Architectures") == Given(Join(arches, ' '))
    && Get(fields, "Components") == Given(Join(components, ' '))
  }

  /** Text that stays on one line. */
  ghost predicate OneLineEach(values: seq<string>) {
    forall i :: 0 <= i < |values| ==> OneLine(values[i])
  }

  ghost predicate OneLineSettings(cfg: Config, date: string) {
    OneLineEach([cfg.origin, cfg.repoLabel, cfg.distribution, date, cfg.description]) && OneLineEach(cfg.components)
  }

  ghost predicate OneLineEntries(entries: seq<ReleaseEntry>) {
    forall e | e in entries :: OneLine(e.md5) && OneLine(e.sha1) && OneLine(e.sha256) && OneLine(e.path)
  }

  // ----- the text as a stanza

  /** The names of the fields, in the order they are written in. */
  function FieldName(k: nat): string
    requires k < 11
  {
    ["Origin", "Label", "Suite", "Codename", "Date", "Architectures", "Components", "Description", "MD5Sum", "SHA1",
     "SHA256"][k]
  }

  function Values(cfg: Config, date: string, r: Release): (vs: seq<string>)
    ensures |vs| == 8
  {
    [cfg.origin, cfg.repoLabel, cfg.distribution, cfg.distribution, date, Join(r.arches, ' '), Join(r.components, ' '),
     cfg.description]
  }

  /** The first n fields, those without a value left out. */
  function Present(values: seq<string>, n: nat): seq<Field>
    requires n <= |values| == 8
  {
    if n == 0 then []
    else if values[n - 1] == "" then Present(values, n - 1)
    else Present(values, n - 1) + [Field(FieldName(n - 1), values[n - 1])]
  }

  function SumField(name: string, lines: seq<string>): Field {
    Field(name, Join([""] + lines, '\n'))
  }

  function SumFields(entries: seq<ReleaseEntry>): seq<Field> {
    [SumField("MD5Sum", SumLines(entries, Md5Of)), SumField("SHA1", SumLines(entries, Sha1Of)),
     SumField("SHA256", SumLines(entries, Sha256Of))]
  }

  lemma FieldIsLine(name: string, value: string)
    requires OneLine(value) && value != ""
    ensures FormatStanza([Field(name, value)]) == ReleaseField(name, value)
  {
    hide FormatStanza, Split;
    StanzaOfOne(Field(name, value));
    OneLineSplit(value);
    assert [value][1..] == [];
  }

  function Lines(values: seq<string>, n: nat): string
    requires n <= |values| == 8
  {
    if n == 0 then "" else Lines(values, n - 1) + ReleaseField(FieldName(n - 1), values[n - 1])
  }

  lemma {:induction false} PresentAreLines(values: seq<string>, n: nat)
    requires n <= |values| == 8 && OneLineEach(values)
    ensures FormatStanza(Present(values, n)) == Lines(values, n)
  {
    hide FormatStanza, ReleaseField, OneLine, FieldName;
    if n == 0 {
      NoLines();
    } else {
      PresentAreLines(values, n - 1);
      if values[n - 1] == "" {
        NoLine(FieldName(n - 1));
      } else {
        FieldIsLine(FieldName(n - 1), values[n - 1]);
        StanzaConcat(Present(values, n - 1), [Field(FieldName(n - 1), values[n - 1])]);
      }
    }
  }

  lemma NoLine(name: string)
    ensures ReleaseField(name, "") == ""
  {
  }

  lemma {:induction false} SumsAreLines(entries: seq<ReleaseEntry>, pick: ReleaseEntry -> string)
    ensures ChecksumLines(entries, pick) == Unlines(SumLines(entries, pick))
  {
    hide SumLine, Itoa, Unlines;
    if entries == [] {
      NoLines();
    } else {
      var n := |entries| - 1;
      var e := entries[n];
      var line := SumLine(pick(e), e.size, e.path);
      SumsAreLines(entries[..n], pick);
      assert SumLines(entries, pick) == SumLines(entries[..n], pick) + [line];
      UnlinesConcat(SumLines(entries[..n], pick), [line]);
      OneUnline(line);
      LineText(ChecksumLines(entries[..n], pick), pick(e), e.size, e.path);
    }
  }

  lemma OneUnline(line: string)
    ensures Unlines([line]) == line + "\n"
  {
    assert [line][1..] == [];
  }

  lemma LineText(before: string, digest: string, size: nat, path: string)
    ensures before + " " + digest + " " + Itoa(size) + " " + path + "\n" ==
            before + (SumLine(digest, size, path) + "\n")
  {
    hide Itoa;
  }

  lemma SumFieldText(name: string, lines: seq<string>)
    requires NoLineFeed(lines)
    ensures FormatStanza([SumField(name, lines)]) == name + ":\n" + Unlines(lines)
  {
    hide Split, Join, Unlines, FormatStanza;
    StanzaOfOne(SumField(name, lines));
    SplitJoin([""] + lines, '\n');
    assert ([""] + lines)[1..] == lines;
  }

  lemma SumsText(entries: seq<ReleaseEntry>)
    requires OneLineEntries(entries)
    ensures FormatStanza(SumFields(entries)) ==
            ("MD5Sum:\n" + ChecksumLines(entries, Md5Of)) + ("SHA1:\n" + ChecksumLines(entries, Sha1Of))
            + ("SHA256:\n" + ChecksumLines(entries, Sha256Of))
  {
    hide FormatStanza, ChecksumLines, SumLines, SumField, Unlines, OneLineEntries;
    var x, y, z := SumLines(entries, Md5Of), SumLines(entries, Sha1Of), SumLines(entries, Sha256Of);
    SumsAreOneLine(entries);
    SumsAreLines(entries, Md5Of);
    SumsAreLines(entries, Sha1Of);
    SumsAreLines(entries, Sha256Of);
    SumFieldText("MD5Sum", x);
    SumFieldText("SHA1", y);
    SumFieldText("SHA256", z);
    var f, g, h := SumField("MD5Sum", x), SumField("SHA1", y), SumField("SHA256", z);
    StanzaConcat([f], [g]);
    StanzaConcat([f] + [g], [h]);
    assert [f] + [g] + [h] == [f, g, h];
  }

  /** The text is the stanza of these fields. */
  lemma TextIsStanza(cfg: Config, date: string, r: Release)
    requires OneLineEach(Values(cfg, date, r)) && OneLineEntries(r.entries)
    ensures RenderRelease(cfg, date, r) == FormatStanza(Present(Values(cfg, date, r), 8) + SumFields(r.entries))
  {
    hide FormatStanza, ReleaseField, ChecksumLines, SumFields, Present, Join, OneLineEach, OneLineEntries, Lines;
    var values := Values(cfg, date, r);
    PresentAreLines(values, 8);
    EightLines(values);
    SumsText(r.entries);
    StanzaConcat(Present(values, 8), SumFields(r.entries));
    ConcatSix(Lines(values, 8), "MD5Sum:\n", ChecksumLines(r.entries, Md5Of), "SHA1:\n",
              ChecksumLines(r.entries, Sha1Of), "SHA256:\n", ChecksumLines(r.entries, Sha256Of));
  }

  lemma ConcatSix(x: string, a: string, b: string, c: string, d: string, e: string, f: string)
    ensures x + a + b + c + d + e + f == x + ((a + b) + (c + d) + (e + f))
  {
    Assoc(x, a, b);
    Assoc(x + (a + b), c, d);
    Assoc(x, a + b, c + d);
    Assoc(x + ((a + b) + (c + d)), e, f);
    Assoc(x, (a + b) + (c + d), e + f);
  }

  lemma EightLines(v: seq<string>)
    requires |v| == 8
    ensures Lines(v, 8) ==
            ReleaseField("Origin", v[0]) + ReleaseField("Label", v[1]) + ReleaseField("Suite", v[2])
            + ReleaseField("Codename", v[3]) + ReleaseField("Date", v[4]) + ReleaseField("Architectures", v[5])
            + ReleaseField("Components", v[6]) + ReleaseField("Description", v[7])
  {
    hide ReleaseField, FieldName;
    TheNames();
    LinesStep(v, 0);
    LinesStep(v, 1);
    LinesStep(v, 2);
    LinesStep(v, 3);
    LinesStep(v, 4);
    LinesStep(v, 5);
    LinesStep(v, 6);
    LinesStep(v, 7);
    hide Lines;
    assert Lines(v, 1) == ReleaseField("Origin", v[0]);
  }

  lemma LinesStep(v: seq<string>, n: nat)
    requires n < |v| == 8
    ensures Lines(v, 0) == "" && Lines(v, n + 1) == Lines(v, n) + ReleaseField(FieldName(n), v[n])
  {
    hide ReleaseField, FieldName;
  }

  lemma TheNames()
    ensures FieldName(0) == "Origin" && FieldName(1) == "Label" && FieldName(2) == "Suite"
    ensures FieldName(3) == "Codename" && FieldName(4) == "Date" && FieldName(5) == "Architectures"
    ensures FieldName(6) == "Components" && FieldName(7) == "Description"
    ensures FieldName(8) == "MD5Sum" && FieldName(9) == "SHA1" && FieldName(10) == "SHA256"
  {
  }

  // ----- reading it back

  lemma SumLineIs(digest: string, size: nat, path: string)
    requires OneLine(digest) && OneLine(path)
    ensures var line := SumLine(digest, size, path); OneLine(line) && IsFolded(line)
  {
    hide Itoa;
    ItoaOneLine(size);
    ItoaStarts(size);
    var line := SumLine(digest, size, path);
    var at := |digest| + 2;
    assert line[at] == Itoa(size)[0];
  }

  lemma ItoaStarts(size: nat)
    ensures Itoa(size) != "" && IsDigit(Itoa(size)[0])
  {
  }

  lemma SumsAreOneLine(entries: seq<ReleaseEntry>)
    requires OneLineEntries(entries)
    ensures forall line |
      line in SumLines(entries, Md5Of) || line in SumLines(entries, Sha1Of) || line in SumLines(entries, Sha256Of) ::
              OneLine(line) && IsFolded(line)
    ensures NoLineFeed(SumLines(entries, Md5Of)) && NoLineFeed(SumLines(entries, Sha1Of))
    ensures NoLineFeed(SumLines(entries, Sha256Of))
  {
    hide OneLine, IsFolded, SumLine;
    forall i | 0 <= i < |entries|
      ensures forall line | line == SumLines(entries, Md5Of)[i] || line == SumLines(entries, Sha1Of)[i] ||
                line == SumLines(entries, Sha256Of)[i] :: OneLine(line) && IsFolded(line)
    {
      var e := entries[i];
      assert e in entries;
      SumLineIs(e.md5, e.size, e.path);
      SumLineIs(e.sha1, e.size, e.path);
      SumLineIs(e.sha256, e.size, e.path);
    }
    EachOneLine(SumLines(entries, Md5Of));
    EachOneLine(SumLines(entries, Sha1Of));
    EachOneLine(SumLines(entries, Sha256Of));
  }

  lemma EachOneLine(lines: seq<string>)
    requires forall line | line in lines :: OneLine(line)
    ensures NoLineFeed(lines)
  {
    assert forall i :: 0 <= i < |lines| ==> lines[i] in lines;
  }

  lemma SumFieldReads(name: string, lines: seq<string>)
    requires ':' !in name && '\n' !in name && !IsContinuation(name)
    requires forall line | line in lines :: OneLine(line) && IsFolded(line)
    ensures WellFormed(SumField(name, lines)) && NoCR(SumField(name, lines).value)
    ensures Split(SumField(name, lines).value, '\n') == [""] + lines
  {
    hide Split, Join, IsFolded;
    var parts := [""] + lines;
    forall k | 0 <= k < |parts|
      ensures '\n' !in parts[k] && !HasSuffix(parts[k], "\r") && (k >= 1 ==> IsFolded(parts[k]))
    {
      if k > 0 {
        assert parts[k] == lines[k - 1] && lines[k - 1] in lines;
        NoCREnd(parts[k]);
      }
    }
    SplitJoin(parts, '\n');
  }

  lemma NameIsProper(k: nat)
    requires k < 11
    ensures ':' !in FieldName(k) && '\n' !in FieldName(k) && !IsContinuation(FieldName(k))
  {
    TheNames();
    hide FieldName;
    ProperWords();
    assert k == 0 || k == 1 || k == 2 || k == 3 || k == 4 || k == 5 || k == 6 || k == 7 || k == 8 || k == 9 || k == 10;
  }

  lemma ProperWords()
    ensures forall w | w in {"Origin", "Label", "Suite", "Codename", "Date", "Architectures", "Components",
                             "Description", "MD5Sum", "SHA1", "SHA256"} ::
              ':' !in w && '\n' !in w && !IsContinuation(w)
  {
  }

  lemma {:induction false} PresentRead(values: seq<string>, n: nat)
    requires n <= |values| == 8 && OneLineEach(values)
    ensures AllWellFormed(Present(values, n))
    ensures forall i :: 0 <= i < |Present(values, n)| ==> NoCR(Present(values, n)[i].value)
  {
    hide WellFormed, NoCR, OneLine, FieldName, IsContinuation;
    if n > 0 {
      PresentRead(values, n - 1);
      NameIsProper(n - 1);
      WordField(FieldName(n - 1), values[n - 1]);
    }
  }

  lemma SumFieldsRead(entries: seq<ReleaseEntry>)
    requires OneLineEntries(entries)
    ensures AllWellFormed(SumFields(entries))
    ensures |SumFields(entries)| == 3 && forall i :: 0 <= i < 3 ==> NoCR(SumFields(entries)[i].value)
    ensures Split(SumFields(entries)[0].value, '\n') == [""] + SumLines(entries, Md5Of)
    ensures Split(SumFields(entries)[1].value, '\n') == [""] + SumLines(entries, Sha1Of)
    ensures Split(SumFields(entries)[2].value, '\n') == [""] + SumLines(entries, Sha256Of)
  {
    hide WellFormed, NoCR, SumLines, SumField, OneLine, IsFolded, Split;
    SumsAreOneLine(entries);
    SumFieldReads("MD5Sum", SumLines(entries, Md5Of));
    SumFieldReads("SHA1", SumLines(entries, Sha1Of));
    SumFieldReads("SHA256", SumLines(entries, Sha256Of));
  }

  ghost predicate NamesApart() {
    forall i: nat, j: nat :: i < 11 && j < 11 ==> (EqualFold(FieldName(i), FieldName(j)) <==> i == j)
  }

  /** No two names are the same but for case. */
  lemma NamesDiffer()
    ensures NamesApart()
  {
    TheNames();
    NameLengths();
    FirstLetters();
    hide FieldName;
  }

  /** What tells the names apart: their lengths and first letters. */
  lemma NameLengths()
    ensures |FieldName(0)| == 6 && |FieldName(1)| == 5 && |FieldName(2)| == 5 && |FieldName(3)| == 8
    ensures |FieldName(4)| == 4 && |FieldName(5)| == 13 && |FieldName(6)| == 10 && |FieldName(7)| == 11
    ensures |FieldName(8)| == 6 && |FieldName(9)| == 4 && |FieldName(10)| == 6
  {
    TheNames();
    hide FieldName;
  }

  lemma FirstLetters()
    ensures FieldName(0) != "" && FieldName(0)[0] == 'O'
    ensures FieldName(1) != "" && FieldName(1)[0] == 'L'
    ensures FieldName(2) != "" && FieldName(2)[0] == 'S'
    ensures FieldName(4) != "" && FieldName(4)[0] == 'D'
    ensures FieldName(8) != "" && FieldName(8)[0] == 'M'
    ensures FieldName(9) != "" && FieldName(9)[0] == 'S'
    ensures FieldName(10) != "" && FieldName(10)[0] == 'S'
  {
    TheNames();
    hide FieldName;
  }

  lemma {:induction false} GetPresent(values: seq<string>, n: nat, m: nat)
    requires n <= |values| == 8 && m < 11 && NamesApart()
    ensures Get(Present(values, n), FieldName(m)) == if m < n then Given(values[m]) else None
  {
    hide EqualFold, FieldName;
    if n > 0 {
      GetPresent(values, n - 1, m);
      if values[n - 1] != "" {
        GetConcat(Present(values, n - 1), [Field(FieldName(n - 1), values[n - 1])], FieldName(m));
        GetOne(Field(FieldName(n - 1), values[n - 1]), FieldName(m));
      }
    }
  }

  lemma GetOne(f: Field, name: string)
    ensures Get([f], name) == if EqualFold(f.name, name) then Some(f.value) else None
  {
    hide EqualFold;
  }

  lemma GetSums(entries: seq<ReleaseEntry>, m: nat)
    requires m < 11 && NamesApart()
    ensures Get(SumFields(entries), FieldName(m)) == if m < 8 then None else Some(SumFields(entries)[m - 8].value)
  {
    hide EqualFold, SumLines, FieldName, Join;
    TheNames();
    var f := SumFields(entries);
    assert f[0].name == FieldName(8) && f[1].name == FieldName(9) && f[2].name == FieldName(10);
    GetConcat([f[0]], [f[1]], FieldName(m));
    GetConcat([f[0]] + [f[1]], [f[2]], FieldName(m));
    GetOne(f[0], FieldName(m));
    GetOne(f[1], FieldName(m));
    GetOne(f[2], FieldName(m));
    assert f == [f[0]] + [f[1]] + [f[2]];
  }

  lemma GetField(values: seq<string>, entries: seq<ReleaseEntry>, m: nat)
    requires |values| == 8 && m < 11 && NamesApart()
    ensures Get(Present(values, 8) + SumFields(entries), FieldName(m)) ==
            if m < 8 then Given(values[m]) else Some(SumFields(entries)[m - 8].value)
  {
    hide Get, NamesApart, Present, SumFields, FieldName;
    GetPresent(values, 8, m);
    GetSums(entries, m);
    GetConcat(Present(values, 8), SumFields(entries), FieldName(m));
  }

  /** A Release file is one paragraph, and what its fields say is this. */
  lemma ReleaseReadsBack(cfg: Config, date: string, r: Release)
    requires OneLineSettings(cfg, date) && OneLineEach(r.arches) && OneLineEach(r.components)
    requires OneLineEntries(r.entries)
    ensures var fields := FieldsOf(RenderRelease(cfg, date, r));
            && fields.Some? && SaysOf(fields.value, cfg, date, r.arches, r.components)
            && HoldsLines(fields.value, "MD5Sum", SumLines(r.entries, (e: ReleaseEntry) => e.md5))
            && HoldsLines(fields.value, "SHA1", SumLines(r.entries, (e: ReleaseEntry) => e.sha1))
            && HoldsLines(fields.value, "SHA256", SumLines(r.entries, (e: ReleaseEntry) => e.sha256))
  {
    hide Paragraph, SplitLines, RenderRelease, Present, SumFields, Get, Split, Join, FormatStanza, SumLines,
      OneLineEntries, OneLineEach, AllWellFormed, NoCR, NamesApart, FieldName;
    var values, sums := Values(cfg, date, r), SumFields(r.entries);
    ValuesAreOneLine(cfg, date, r);
    TextIsStanza(cfg, date, r);
    PresentRead(values, 8);
    SumFieldsRead(r.entries);
    var fields := Present(values, 8) + sums;
    BothWellFormed(Present(values, 8), sums);
    StanzaReadsBack(fields);
    NamesDiffer();
    TheNames();
    forall m: nat | m < 11
      ensures Get(fields, FieldName(m)) == if m < 8 then Given(values[m]) else Some(sums[m - 8].value)
    {
      GetField(values, r.entries, m);
    }
    SameSums(r.entries);
  }

  lemma SameSums(entries: seq<ReleaseEntry>)
    ensures SumLines(entries, (e: ReleaseEntry) => e.md5) == SumLines(entries, Md5Of)
    ensures SumLines(entries, (e: ReleaseEntry) => e.sha1) == SumLines(entries, Sha1Of)
    ensures SumLines(entries, (e: ReleaseEntry) => e.sha256) == SumLines(entries, Sha256Of)
  {
    hide SumLine;
  }

  lemma BothWellFormed(x: seq<Field>, y: seq<Field>)
    requires AllWellFormed(x) && AllWellFormed(y)
    requires forall i :: 0 <= i < |x| ==> NoCR(x[i].value)
    requires forall i :: 0 <= i < |y| ==> NoCR(y[i].value)
    ensures AllWellFormed(x + y) && forall i :: 0 <= i < |x + y| ==> NoCR((x + y)[i].value)
  {
    hide WellFormed, NoCR;
  }

  lemma ValuesAreOneLine(cfg: Config, date: string, r: Release)
    requires OneLineSettings(cfg, date) && OneLineEach(r.arches) && OneLineEach(r.components)
    ensures OneLineEach(Values(cfg, date, r))
  {
    hide OneLine, Join;
    JoinOneLine(r.arches);
    JoinOneLine(r.components);
    var settings := [cfg.origin, cfg.repoLabel, cfg.distribution, date, cfg.description];
    assert OneLine(settings[0]) && OneLine(settings[1]) && OneLine(settings[2]) && OneLine(settings[3]) &&
           OneLine(settings[4]);
  }

  lemma {:induction false} JoinOneLine(words: seq<string>)
    requires OneLineEach(words)
    ensures OneLine(Join(words, ' '))
  {
    if |words| > 1 {
      JoinOneLine(words[1..]);
    }
  }
}
