/**
 internal/deb/control.go: control paragraphs, their parser and their printer, and the Packages files that
 internal/apt/apt.go prints with them. Printing and parsing are inverses exactly when no line ends in CR.
 */
module Control {
  import opened Wrappers
  import opened Text

  datatype Field = Field(name: string, value: string)

  datatype Package = Package(name: string, version: string, architecture: string, fields: seq<Field>)

  datatype ControlError = ContinuationBeforeField | NoColon | MissingField

  // ----- lines

  /** `splitLines`: the lines of data without their line feeds and one trailing CR each. */
  function SplitLines(data: string): seq<string> {
    StripAll(Split(data, '\n'))
  }

  function StripCR(line: string): string {
    TrimSuffix(line, "\r")
  }

  function StripAll(lines: seq<string>): (r: seq<string>)
    ensures |r| == |lines|
    ensures forall i :: 0 <= i < |r| ==> r[i] == StripCR(lines[i])
  {
    seq(|lines|, i requires 0 <= i < |lines| => StripCR(lines[i]))
  }

  function Unlines(lines: seq<string>): string {
    if lines == [] then "" else lines[0] + "\n" + Unlines(lines[1..])
  }

  ghost predicate NoLineFeed(lines: seq<string>) {
    forall i :: 0 <= i < |lines| ==> '\n' !in lines[i]
  }

  // ----- parsing

  predicate IsContinuation(line: string) {
    line != "" && (line[0] == ' ' || line[0] == '\t')
  }

  /** A folded line joins the value of the last field. */
  function AppendLine(fields: seq<Field>, line: string): seq<Field>
    requires fields != []
  {
    var last := fields[|fields| - 1];
    fields[..|fields| - 1] + [Field(last.name, last.value + "\n" + line)]
  }

  /** The field on a line with a colon. */
  function FieldOf(line: string): Field
    requires ':' in line
  {
    var colon := IndexByte(line, ':');
    Field(line[..colon], TrimPrefix(line[colon + 1..], " "))
  }

  datatype Parsed = Parsed(fields: seq<Field>, rest: seq<string>)

  /** The fields up to the first blank line, added to those read so far, and the lines left. */
  function Paragraph(lines: seq<string>, fields: seq<Field>): Result<Parsed, ControlError> {
    if lines == [] || IsBlank(lines[0]) then Ok(Parsed(fields, lines))
    else if IsContinuation(lines[0]) then
      if fields == [] then Err(ContinuationBeforeField)
      else Paragraph(lines[1..], AppendLine(fields, lines[0]))
    else if ':' !in lines[0] then Err(NoColon)
    else Paragraph(lines[1..], fields + [FieldOf(lines[0])])
  }

  function Get(fields: seq<Field>, name: string): Option<string> {
    if fields == [] then None
    else if EqualFold(fields[0].name, name) then Some(fields[0].value)
    else Get(fields[1..], name)
  }

  function GetOrEmpty(fields: seq<Field>, name: string): string {
    var v := Get(fields, name);
    if v.Some? then v.value else ""
  }

  function NewPackage(fields: seq<Field>): Result<Package, ControlError> {
    var name, version, arch :=
      GetOrEmpty(fields, "Package"), GetOrEmpty(fields, "Version"), GetOrEmpty(fields, "Architecture");
    if name == "" || version == "" || arch == "" then Err(MissingField)
    else Ok(Package(name, version, arch, fields))
  }

  /** `ParseControl`: one paragraph. */
  function ParseControl(data: string): Result<Package, ControlError> {
    var p := Paragraph(SplitLines(data), []);
    if p.Err? then Err(p.error) else NewPackage(p.value.fields)
  }

  /** Every paragraph of a file, blank lines between them skipped. */
  function Paragraphs(lines: seq<string>): Result<seq<Package>, ControlError>
    decreases |lines|
  {
    if lines == [] then Ok([])
    else if IsBlank(lines[0]) then Paragraphs(lines[1..])
    else
      var p := Paragraph(lines, []);
      if p.Err? then Err(p.error)
      else
        ParagraphConsumes(lines, []);
        var pkg := NewPackage(p.value.fields);
        if pkg.Err? then Err(pkg.error)
        else
          var more := Paragraphs(p.value.rest);
          if more.Err? then Err(more.error) else Ok([pkg.value] + more.value)
  }

  function ParseControlFile(data: string): Result<seq<Package>, ControlError> {
    Paragraphs(SplitLines(data))
  }

  /** A paragraph that starts on a line that is not blank takes that line, or fails. */
  lemma {:induction false} ParagraphConsumes(lines: seq<string>, fields: seq<Field>)
    ensures var p := Paragraph(lines, fields);
            p.Ok? ==> |p.value.rest| <= |lines| && p.value.rest == lines[|lines| - |p.value.rest|..] &&
                      (lines != [] && !IsBlank(lines[0]) ==> |p.value.rest| < |lines|)
    decreases |lines|
  {
    if lines != [] && !IsBlank(lines[0]) {
      if IsContinuation(lines[0]) {
        if fields != [] {
          ParagraphConsumes(lines[1..], AppendLine(fields, lines[0]));
        }
      } else if ':' in lines[0] {
        ParagraphConsumes(lines[1..], fields + [FieldOf(lines[0])]);
      }
    }
  }

  /** What one line of a paragraph does. */
  lemma ParagraphStep(lines: seq<string>, pos: nat, fields: seq<Field>)
    requires pos < |lines|
    ensures var line := lines[pos];
            Paragraph(lines[pos..], fields) ==
              if IsBlank(line) then Ok(Parsed(fields, lines[pos..]))
              else if IsContinuation(line) then
                if fields == [] then Err(ContinuationBeforeField)
                else Paragraph(lines[pos + 1..], AppendLine(fields, line))
              else if ':' !in line then Err(NoColon)
              else Paragraph(lines[pos + 1..], fields + [FieldOf(line)])
  {
    assert lines[pos..][1..] == lines[pos + 1..];
  }

  lemma ParagraphEnd(fields: seq<Field>)
    ensures Paragraph([], fields) == Ok(Parsed(fields, []))
  {
  }

  /** `parseParagraph`, which walks an index over the lines. */
  method ParseParagraph(lines: seq<string>, start: nat) returns (r: Result<seq<Field>, ControlError>, next: nat)
    requires start <= |lines|
    ensures start <= next <= |lines|
    ensures var p := Paragraph(lines[start..], []);
            if p.Err? then r == Err(p.error) else r == Ok(p.value.fields) && lines[next..] == p.value.rest
    ensures r.Ok? && start < |lines| && !IsBlank(lines[start]) ==> start < next
  {
    hide Paragraph, IsBlank;
    var fields: seq<Field> := [];
    var pos := start;
    while pos < |lines|
      invariant start <= pos <= |lines|
      invariant Paragraph(lines[pos..], fields) == Paragraph(lines[start..], [])
      invariant pos == start ==> fields == []
    {
      var line := lines[pos];
      ParagraphStep(lines, pos, fields);
      if IsBlank(line) {
        return Ok(fields), pos;
      }
      NotBlank(line);
      if line[0] == ' ' || line[0] == '\t' {
        if fields == [] {
          return Err(ContinuationBeforeField), pos;
        }
        fields := AppendLine(fields, line);
        pos := pos + 1;
        continue;
      }
      var colon := IndexByte(line, ':');
      if colon < 0 {
        return Err(NoColon), pos;
      }
      var name := line[..colon];
      var value := TrimPrefix(line[colon + 1..], " ");
      fields := fields + [Field(name, value)];
      pos := pos + 1;
    }
    assert lines[pos..] == [];
    ParagraphEnd(fields);
    return Ok(fields), pos;
  }

  lemma NotBlank(line: string)
    requires !IsBlank(line)
    ensures line != ""
  {
  }

  /** `ParseControlFile`, one paragraph after the other. */
  method ParseFile(data: string) returns (r: Result<seq<Package>, ControlError>)
    ensures r == ParseControlFile(data)
  {
    var lines := SplitLines(data);
    var pkgs: seq<Package> := [];
    var pos := 0;
    FromStart(data);
    hide Paragraphs, Paragraph, NewPackage, SplitLines;
    while pos < |lines|
      invariant 0 <= pos <= |lines|
      invariant ParseControlFile(data) == After(pkgs, Paragraphs(lines[pos..]))
      decreases |lines| - pos
    {
      ParagraphsStep(lines[pos..]);
      assert lines[pos..][1..] == lines[pos + 1..];
      if IsBlank(lines[pos]) {
        pos := pos + 1;
        continue;
      }
      var fields, next := ParseParagraph(lines, pos);
      if fields.Err? {
        return Err(fields.error);
      }
      var pkg := NewPackage(fields.value);
      if pkg.Err? {
        return Err(pkg.error);
      }
      AfterLaws(pkgs, pkg.value, Paragraphs(lines[next..]));
      pkgs := pkgs + [pkg.value];
      pos := next;
    }
    assert lines[pos..] == [];
    NothingLeft();
    assert pkgs + [] == pkgs;
    return Ok(pkgs);
  }

  lemma NothingLeft()
    ensures Paragraphs([]) == Ok([])
  {
  }

  /** Packages already read, followed by those of the remaining lines unless these fail. */
  function After(pkgs: seq<Package>, more: Result<seq<Package>, ControlError>): Result<seq<Package>, ControlError> {
    if more.Err? then more else Ok(pkgs + more.value)
  }

  lemma AfterLaws(pkgs: seq<Package>, pkg: Package, more: Result<seq<Package>, ControlError>)
    ensures After([], more) == more
    ensures After(pkgs, Ok([])) == Ok(pkgs)
    ensures After(pkgs, After([pkg], more)) == After(pkgs + [pkg], more)
  {
    assert pkgs + [] == pkgs;
    if more.Ok? {
      assert [] + more.value == more.value;
      assert pkgs + ([pkg] + more.value) == (pkgs + [pkg]) + more.value;
    }
  }

  lemma FromStart(data: string)
    ensures var lines := SplitLines(data); ParseControlFile(data) == After([], Paragraphs(lines[0..]))
  {
    hide SplitLines, Paragraphs;
    var lines := SplitLines(data);
    assert lines[0..] == lines;
    if Paragraphs(lines).Ok? {
      assert [] + Paragraphs(lines).value == Paragraphs(lines).value;
    }
  }

  lemma ParagraphsStep(lines: seq<string>)
    requires lines != []
    ensures IsBlank(lines[0]) ==> Paragraphs(lines) == Paragraphs(lines[1..])
    ensures !IsBlank(lines[0]) ==>
              var p := Paragraph(lines, []);
              Paragraphs(lines) ==
                if p.Err? then Err(p.error)
                else
                  var pkg := NewPackage(p.value.fields);
                  if pkg.Err? then Err(pkg.error) else After([pkg.value], Paragraphs(p.value.rest))
  {
    hide NewPackage, Paragraph;
    if !IsBlank(lines[0]) {
      ParagraphConsumes(lines, []);
    }
  }

  // ----- printing

  function FormatField(f: Field): string {
    var lines := Split(f.value, '\n');
    f.name + ":" + (if lines[0] != "" then " " + lines[0] else "") + "\n" + Unlines(lines[1..])
  }

  function FormatStanza(fields: seq<Field>): string {
    if fields == [] then "" else FormatField(fields[0]) + FormatStanza(fields[1..])
  }

  lemma StanzaStep(fields: seq<Field>, i: nat)
    requires i < |fields|
    ensures FormatStanza(fields[i..]) == FormatField(fields[i]) + FormatStanza(fields[i + 1..])
  {
    hide FormatField;
    assert fields[i..][1..] == fields[i + 1..];
  }

  lemma UnlinesStep(lines: seq<string>, k: nat)
    requires k < |lines|
    ensures Unlines(lines[k..]) == (lines[k] + "\n") + Unlines(lines[k + 1..])
  {
    assert lines[k..][1..] == lines[k + 1..];
  }

  /** The part of a field before its folded lines. */
  function HeadLine(f: Field, first: string): string {
    f.name + ":" + (if first != "" then " " + first else "") + "\n"
  }

  /** `FormatStanza`, writing into a builder. */
  method WriteStanza(fields: seq<Field>) returns (b: string)
    ensures b == FormatStanza(fields)
  {
    hide FormatStanza, FormatField, Unlines, Split;
    b := "";
    assert fields[0..] == fields;
    for i := 0 to |fields|
      invariant b + FormatStanza(fields[i..]) == FormatStanza(fields)
    {
      var f := fields[i];
      ghost var was := b;
      StanzaStep(fields, i);
      var lines := Split(f.value, '\n');
      b := b + f.name + ":";
      if lines[0] != "" {
        b := b + " " + lines[0];
      }
      b := b + "\n";
      ghost var part := HeadLine(f, lines[0]);
      FieldText(f);
      assert b == was + part;
      for k := 1 to |lines|
        invariant b == was + part && part + Unlines(lines[k..]) == FormatField(f)
      {
        UnlinesStep(lines, k);
        Assoc(part, lines[k] + "\n", Unlines(lines[k + 1..]));
        Assoc(was, part, lines[k] + "\n");
        part := part + (lines[k] + "\n");
        b := b + (lines[k] + "\n");
      }
      assert lines[|lines|..] == [];
      NoLines();
      Assoc(was, FormatField(f), FormatStanza(fields[i + 1..]));
    }
    assert fields[|fields|..] == [];
    NoLines();
  }

  lemma FieldText(f: Field)
    ensures var lines := Split(f.value, '\n'); FormatField(f) == HeadLine(f, lines[0]) + Unlines(lines[1..])
  {
  }

  lemma NoLines()
    ensures Unlines([]) == "" && FormatStanza([]) == "" && forall first :: Render([], first) == ""
  {
  }

  /** The stanzas from here on, each but the first of the file after a blank line. */
  function Render(pkgs: seq<Package>, first: bool): string {
    if pkgs == [] then ""
    else (if first then "" else "\n") + FormatStanza(pkgs[0].fields) + Render(pkgs[1..], false)
  }

  /** `buildPackages`: a Packages file. */
  function BuildPackages(pkgs: seq<Package>): string {
    Render(pkgs, true)
  }

  lemma RenderStep(pkgs: seq<Package>, i: nat, first: bool)
    requires i < |pkgs|
    ensures Render(pkgs[i..], first) ==
            ((if first then "" else "\n") + FormatStanza(pkgs[i].fields)) + Render(pkgs[i + 1..], false)
  {
    hide FormatStanza;
    assert pkgs[i..][1..] == pkgs[i + 1..];
  }

  /** `buildPackages`, writing into a buffer. */
  method WritePackages(pkgs: seq<Package>) returns (b: string)
    ensures b == BuildPackages(pkgs)
  {
    hide Render, FormatStanza;
    b := "";
    assert pkgs[0..] == pkgs;
    for i := 0 to |pkgs|
      invariant b + Render(pkgs[i..], i == 0) == BuildPackages(pkgs)
    {
      ghost var was := b;
      RenderStep(pkgs, i, i == 0);
      ghost var part := (if i == 0 then "" else "\n") + FormatStanza(pkgs[i].fields);
      if i > 0 {
        b := b + "\n";
      }
      var stanza := WriteStanza(pkgs[i].fields);
      b := b + stanza;
      assert b == was + part;
      Assoc(was, part, Render(pkgs[i + 1..], false));
    }
    assert pkgs[|pkgs|..] == [];
    NoLines();
  }
}
