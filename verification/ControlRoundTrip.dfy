/**
 Reading back a printed Packages file. The apt publisher has no other memory than the text it wrote last, so
 everything it does rests on this.
 */
module ControlRoundTrip {
  import opened Wrappers
  import opened Text
  import opened Control

  // ----- what the parser produces

  /** A field the parser can have produced, except for CR at line ends: see NoCR. */
  ghost predicate WellFormed(f: Field) {
    && ':' !in f.name && '\n' !in f.name && !IsContinuation(f.name)
    && forall k :: 1 <= k < |Split(f.value, '\n')| ==> IsFolded(Split(f.value, '\n')[k])
  }

  predicate IsFolded(line: string) {
    IsContinuation(line) && !IsBlank(line)
  }

  ghost predicate AllWellFormed(fields: seq<Field>) {
    forall i :: 0 <= i < |fields| ==> WellFormed(fields[i])
  }

  /** No line of the value ends in CR. */
  predicate NoCR(value: string) {
    forall k :: 0 <= k < |Split(value, '\n')| ==> !HasSuffix(Split(value, '\n')[k], "\r")
  }

  /** The package that the paragraph with these fields describes. */
  ghost predicate Coherent(p: Package) {
    NewPackage(p.fields) == Ok(p)
  }

  lemma {:induction false} SplitPieces(s: string, sep: char)
    ensures forall k :: 0 <= k < |Split(s, sep)| ==> sep !in Split(s, sep)[k]
  {
    var i := IndexByte(s, sep);
    if i >= 0 {
      SplitPieces(s[i + 1..], sep);
    }
  }

  lemma {:induction false} JoinSplit(s: string, sep: char)
    ensures Join(Split(s, sep), sep) == s
  {
    var i := IndexByte(s, sep);
    SplitStep(s, sep);
    hide Split, Join, IndexByte;
    if i >= 0 {
      var head, more := s[..i], s[i + 1..];
      JoinSplit(more, sep);
      JoinCons(head, Split(more, sep), sep);
      assert s == head + [sep] + more;
    } else {
      JoinSingle(s, sep);
    }
  }

  lemma SplitStep(s: string, sep: char)
    ensures var i := IndexByte(s, sep); Split(s, sep) == if i < 0 then [s] else [s[..i]] + Split(s[i + 1..], sep)
  {
    hide IndexByte;
  }

  lemma JoinSingle(s: string, sep: char)
    ensures Join([s], sep) == s
  {
  }

  lemma JoinCons(first: string, parts: seq<string>, sep: char)
    requires parts != []
    ensures Join([first] + parts, sep) == first + [sep] + Join(parts, sep)
  {
    assert ([first] + parts)[1..] == parts;
  }

  lemma {:induction false} JoinSnoc(parts: seq<string>, last: string, sep: char)
    requires parts != []
    ensures Join(parts + [last], sep) == Join(parts, sep) + [sep] + last
  {
    if |parts| > 1 {
      JoinSnoc(parts[1..], last, sep);
      assert (parts + [last])[1..] == parts[1..] + [last];
    }
  }

  lemma SplitSnoc(s: string, last: string, sep: char)
    requires sep !in last
    ensures Split(s + [sep] + last, sep) == Split(s, sep) + [last]
  {
    hide Split, Join;
    SplitPieces(s, sep);
    JoinSplit(s, sep);
    JoinSnoc(Split(s, sep), last, sep);
    SplitJoin(Split(s, sep) + [last], sep);
  }

  lemma FieldOfIsWellFormed(line: string)
    requires ':' in line && '\n' !in line && !IsContinuation(line)
    ensures WellFormed(FieldOf(line))
  {
    var f := FieldOf(line);
    if f.name != "" {
      assert f.name[0] == line[0];
    }
    assert '\n' !in f.value;
    assert Split(f.value, '\n') == [f.value];
  }

  lemma AppendIsWellFormed(fields: seq<Field>, line: string)
    requires fields != [] && AllWellFormed(fields)
    requires IsFolded(line) && '\n' !in line
    ensures AllWellFormed(AppendLine(fields, line))
  {
    hide Split, IsFolded;
    var last := fields[|fields| - 1];
    SplitSnoc(last.value, line, '\n');
    assert last.value + "\n" + line == last.value + ['\n'] + line;
    assert WellFormed(last);
  }

  /** Every field of a parsed paragraph is well formed. */
  lemma {:induction false} ParsedIsWellFormed(lines: seq<string>, fields: seq<Field>)
    requires NoLineFeed(lines) && AllWellFormed(fields)
    ensures var p := Paragraph(lines, fields); p.Ok? ==> AllWellFormed(p.value.fields)
    decreases |lines|
  {
    hide WellFormed, AppendLine, FieldOf;
    if lines != [] && !IsBlank(lines[0]) {
      if IsContinuation(lines[0]) {
        if fields != [] {
          AppendIsWellFormed(fields, lines[0]);
          ParsedIsWellFormed(lines[1..], AppendLine(fields, lines[0]));
        }
      } else if ':' in lines[0] {
        FieldOfIsWellFormed(lines[0]);
        ParsedIsWellFormed(lines[1..], fields + [FieldOf(lines[0])]);
      }
    }
  }

  /** The packages that a control file, or a paragraph of an index, can hold. */
  lemma ParsedControlIsWellFormed(data: string)
    ensures var p := ParseControl(data); p.Ok? ==> Coherent(p.value) && AllWellFormed(p.value.fields)
  {
    hide Paragraph, NewPackage;
    SplitPieces(data, '\n');
    var lines := SplitLines(data);
    assert NoLineFeed(lines);
    ParsedIsWellFormed(lines, []);
    if ParseControl(data).Ok? {
      NewPackageKeepsFields(Paragraph(lines, []).value.fields);
    }
  }

  lemma NewPackageKeepsFields(fields: seq<Field>)
    ensures NewPackage(fields).Ok? ==> NewPackage(fields).value.fields == fields
  {
  }

  // ----- what printing and splitting does to a field

  function StripField(f: Field): Field {
    Field(f.name, Join(StripAll(Split(f.value, '\n')), '\n'))
  }

  function StripFields(fields: seq<Field>): (r: seq<Field>)
    ensures |r| == |fields|
    ensures forall i :: 0 <= i < |r| ==> r[i] == StripField(fields[i])
  {
    seq(|fields|, i requires 0 <= i < |fields| => StripField(fields[i]))
  }

  /** Stripping changes nothing exactly when there is nothing to strip. */
  lemma StripFieldExact(f: Field)
    ensures StripField(f) == f <==> NoCR(f.value)
  {
    hide Split, Join;
    var lines := Split(f.value, '\n');
    var stripped := StripAll(lines);
    JoinSplit(f.value, '\n');
    SplitPieces(f.value, '\n');
    SplitJoin(stripped, '\n');
    forall k | 0 <= k < |lines| ensures stripped[k] == lines[k] <==> !HasSuffix(lines[k], "\r") {
    }
    if NoCR(f.value) {
      assert stripped == lines;
    }
  }

  function HeadOf(f: Field, first: string): string {
    f.name + ":" + if first != "" then " " + first else ""
  }

  function FieldLines(f: Field): (r: seq<string>)
    ensures |r| >= 1
  {
    var lines := Split(f.value, '\n');
    [HeadOf(f, lines[0])] + lines[1..]
  }

  function StanzaLines(fields: seq<Field>): seq<string> {
    if fields == [] then [] else FieldLines(fields[0]) + StanzaLines(fields[1..])
  }

  function RenderLines(pkgs: seq<Package>, first: bool): seq<string> {
    if pkgs == [] then []
    else (if first then [] else [""]) + StanzaLines(pkgs[0].fields) + RenderLines(pkgs[1..], false)
  }

  lemma {:induction false} UnlinesConcat(x: seq<string>, y: seq<string>)
    ensures Unlines(x + y) == Unlines(x) + Unlines(y)
  {
    if x == [] {
      assert x + y == y;
    } else {
      UnlinesConcat(x[1..], y);
      assert (x + y)[1..] == x[1..] + y;
      Assoc(x[0] + "\n", Unlines(x[1..]), Unlines(y));
    }
  }

  lemma FieldIsLines(f: Field)
    ensures FormatField(f) == Unlines(FieldLines(f))
  {
    hide Split;
    var lines := Split(f.value, '\n');
    assert FieldLines(f)[1..] == lines[1..];
  }

  lemma {:induction false} StanzaIsLines(fields: seq<Field>)
    ensures FormatStanza(fields) == Unlines(StanzaLines(fields))
  {
    hide FormatField, FieldLines, Unlines;
    if fields == [] {
      NoLines();
    } else {
      FieldIsLines(fields[0]);
      StanzaIsLines(fields[1..]);
      UnlinesConcat(FieldLines(fields[0]), StanzaLines(fields[1..]));
    }
  }

  lemma {:induction false} RenderIsLines(pkgs: seq<Package>, first: bool)
    ensures Render(pkgs, first) == Unlines(RenderLines(pkgs, first))
    decreases |pkgs|
  {
    hide FormatStanza, StanzaLines, Unlines;
    if pkgs == [] {
      NoLines();
    } else {
      var gap: seq<string> := if first then [] else [""];
      var stanza, more := StanzaLines(pkgs[0].fields), RenderLines(pkgs[1..], false);
      RenderIsLines(pkgs[1..], false);
      StanzaIsLines(pkgs[0].fields);
      UnlinesConcat(gap + stanza, more);
      UnlinesConcat(gap, stanza);
      GapText();
    }
  }

  lemma GapText()
    ensures Unlines([]) == "" && Unlines([""]) == "\n"
  {
    assert [""][1..] == [];
  }

  lemma {:induction false} SplitUnlinesThen(lines: seq<string>, more: string)
    requires NoLineFeed(lines)
    ensures Split(Unlines(lines) + more, '\n') == lines + Split(more, '\n')
  {
    hide Split, Unlines;
    if lines == [] {
      SplitNothing();
      assert Unlines(lines) + more == more;
    } else {
      var rest := Unlines(lines[1..]);
      SplitUnlinesThen(lines[1..], more);
      UnlinesStep(lines, 0);
      assert lines[0..] == lines;
      assert (lines[0] + "\n") + rest + more == lines[0] + ['\n'] + (rest + more);
      SplitOfCut(lines[0], rest + more, '\n');
      ConcatAssoc([lines[0]], lines[1..], Split(more, '\n'));
    }
  }

  lemma SplitUnlines(lines: seq<string>)
    requires NoLineFeed(lines)
    ensures Split(Unlines(lines), '\n') == lines + [""]
  {
    hide Split, Unlines;
    SplitUnlinesThen(lines, "");
    SplitNothing();
    assert Unlines(lines) + "" == Unlines(lines);
  }

  lemma SplitNothing()
    ensures Unlines([]) == "" && Split("", '\n') == [""]
  {
  }

  lemma FieldLinesNoLineFeed(f: Field)
    requires WellFormed(f)
    ensures NoLineFeed(FieldLines(f))
  {
    hide Split;
    SplitPieces(f.value, '\n');
  }

  lemma {:induction false} StanzaNoLineFeed(fields: seq<Field>)
    requires AllWellFormed(fields)
    ensures NoLineFeed(StanzaLines(fields))
  {
    hide FieldLines, WellFormed;
    if fields != [] {
      FieldLinesNoLineFeed(fields[0]);
      StanzaNoLineFeed(fields[1..]);
    }
  }

  ghost predicate PackagesWellFormed(pkgs: seq<Package>) {
    forall i :: 0 <= i < |pkgs| ==> pkgs[i].fields != [] && AllWellFormed(pkgs[i].fields)
  }

  lemma {:induction false} RenderNoLineFeed(pkgs: seq<Package>, first: bool)
    requires PackagesWellFormed(pkgs)
    ensures NoLineFeed(RenderLines(pkgs, first))
    decreases |pkgs|
  {
    hide StanzaLines, AllWellFormed;
    if pkgs != [] {
      StanzaNoLineFeed(pkgs[0].fields);
      RenderNoLineFeed(pkgs[1..], false);
    }
  }

  // ----- parsing the printed lines

  lemma StripConcat(x: seq<string>, y: seq<string>)
    ensures StripAll(x + y) == StripAll(x) + StripAll(y)
  {
  }

  lemma StripCons(line: string, lines: seq<string>, rest: seq<string>)
    ensures StripAll([line] + lines) + rest == [StripCR(line)] + (StripAll(lines) + rest)
  {
  }

  lemma StripNone(rest: seq<string>)
    ensures StripAll([]) + rest == rest
  {
  }

  lemma ConcatAssoc<T>(x: seq<T>, y: seq<T>, z: seq<T>)
    ensures (x + y) + z == x + (y + z)
  {
  }

  /** The printed first line of a field reads back as the field's first line, stripped. */
  lemma HeadParses(f: Field, first: string)
    requires WellFormed(f)
    ensures var line := StripCR(HeadOf(f, first));
            !IsBlank(line) && !IsContinuation(line) && ':' in line && FieldOf(line) == Field(f.name, StripCR(first))
  {
    hide Split, Join, IndexByte, HeadOf, StripCR;
    var line := StripCR(HeadOf(f, first));
    var rest := if first == "" then "" else " " + StripCR(first);
    StripNothing();
    HeadStripped(f, first);
    IndexOfCut(f.name, rest, ':');
    assert line[|f.name|] == ':';
    assert line[..|f.name|] == f.name && line[|f.name| + 1..] == rest;
    if f.name != "" {
      assert line[0] == f.name[0];
    }
    assert first != "" ==> rest[1..] == StripCR(first);
  }

  lemma StripNothing()
    ensures StripCR("") == ""
  {
  }

  lemma HeadStripped(f: Field, first: string)
    ensures StripCR(HeadOf(f, first)) == f.name + [':'] + if first == "" then "" else " " + StripCR(first)
  {
    var head := HeadOf(f, first);
    if first == "" {
      assert head[|head| - 1] == ':';
    } else {
      assert head[|head| - 1] == first[|first| - 1];
      if HasSuffix(first, "\r") {
        assert first[|first| - 1] == '\r';
        assert head[..|head| - 1] == f.name + ":" + " " + first[..|first| - 1];
      }
    }
  }

  lemma FoldedStripped(line: string)
    requires IsFolded(line)
    ensures IsFolded(StripCR(line))
  {
    if HasSuffix(line, "\r") {
      var i :| 0 <= i < |line| && !IsSpace(line[i]);
      var s := line[..|line| - 1];
      assert line[|line| - 1] == '\r';
      assert s == StripCR(line);
      assert s[i] == line[i] && s[0] == line[0];
    }
  }

  /** Folded lines extend the last field, one after the other. */
  lemma {:induction false} FoldedParse(fields: seq<Field>, name: string, parts: seq<string>, folded: seq<string>,
                                       rest: seq<string>)
    requires parts != []
    requires forall k :: 0 <= k < |folded| ==> IsFolded(folded[k])
    ensures Paragraph(StripAll(folded) + rest, fields + [Field(name, Join(parts, '\n'))]) ==
            Paragraph(rest, fields + [Field(name, Join(parts + StripAll(folded), '\n'))])
    decreases |folded|
  {
    hide Join, IsFolded, Paragraph, IsBlank, StripAll;
    var now := fields + [Field(name, Join(parts, '\n'))];
    if folded == [] {
      StripNone(rest);
      assert StripAll(folded) + [] == StripAll(folded);
      StripNone([]);
      assert parts + [] == parts;
    } else {
      var line, more := StripCR(folded[0]), folded[1..];
      var lines := [line] + (StripAll(more) + rest);
      assert folded == [folded[0]] + more;
      StripCons(folded[0], more, rest);
      StripCons(folded[0], more, []);
      FoldedStripped(folded[0]);
      FoldedIs(line);
      FoldedStep(fields, name, parts, line, StripAll(more) + rest);
      FoldedParse(fields, name, parts + [line], more, rest);
      ConcatAssoc(parts, [line], StripAll(more));
      assert StripAll(folded) + [] == StripAll(folded) && StripAll(more) + [] == StripAll(more);
    }
  }

  lemma FoldedStep(fields: seq<Field>, name: string, parts: seq<string>, line: string, rest: seq<string>)
    requires parts != [] && IsContinuation(line) && !IsBlank(line)
    ensures Paragraph([line] + rest, fields + [Field(name, Join(parts, '\n'))]) ==
            Paragraph(rest, fields + [Field(name, Join(parts + [line], '\n'))])
  {
    hide Join, Paragraph, IsBlank;
    var lines := [line] + rest;
    var now := fields + [Field(name, Join(parts, '\n'))];
    JoinSnoc(parts, line, '\n');
    assert AppendLine(now, line) == fields + [Field(name, Join(parts + [line], '\n'))];
    ParagraphStep(lines, 0, now);
    assert lines[0..] == lines && lines[1..] == rest;
  }

  lemma FoldedIs(line: string)
    ensures IsFolded(line) <==> IsContinuation(line) && !IsBlank(line)
  {
  }

  /** The printed lines of one field read back as that field, stripped. */
  lemma FieldParses(fields: seq<Field>, f: Field, rest: seq<string>)
    requires WellFormed(f)
    ensures Paragraph(StripAll(FieldLines(f)) + rest, fields) == Paragraph(rest, fields + [StripField(f)])
  {
    hide Split, Join, IsFolded, Paragraph, IsBlank, HeadOf, FieldOf, StripAll;
    var parts := Split(f.value, '\n');
    var head, first, more := HeadOf(f, parts[0]), StripCR(parts[0]), parts[1..];
    HeadParses(f, parts[0]);
    StripCons(head, more, rest);
    var lines := [StripCR(head)] + (StripAll(more) + rest);
    ParagraphStep(lines, 0, fields);
    assert lines[0..] == lines && lines[1..] == StripAll(more) + rest;
    JoinSingle(first, '\n');
    forall k | 0 <= k < |more| ensures IsFolded(more[k]) {
      assert more[k] == parts[k + 1];
    }
    FoldedParse(fields, f.name, [first], more, rest);
    assert parts == [parts[0]] + more;
    StripCons(parts[0], more, []);
    assert StripAll(more) + [] == StripAll(more) && StripAll(parts) + [] == StripAll(parts);
  }

  lemma StripFieldsCons(fields: seq<Field>)
    ensures StripFields(fields) == if fields == [] then [] else [StripField(fields[0])] + StripFields(fields[1..])
  {
    hide StripField;
  }

  /** A printed stanza before a blank line, or the end, reads back as its fields, stripped. */
  lemma {:induction false} StanzaParses(done: seq<Field>, fields: seq<Field>, rest: seq<string>)
    requires AllWellFormed(fields)
    requires rest == [] || IsBlank(rest[0])
    ensures Paragraph(StripAll(StanzaLines(fields)) + rest, done) == Ok(Parsed(done + StripFields(fields), rest))
    decreases |fields|
  {
    hide FieldLines, WellFormed, StripField, IsBlank, StripAll, StripFields;
    StripFieldsCons(fields);
    if fields == [] {
      StripNone(rest);
      assert done + [] == done;
    } else {
      hide Paragraph;
      var x, y := FieldLines(fields[0]), StanzaLines(fields[1..]);
      StripConcat(x, y);
      ConcatAssoc(StripAll(x), StripAll(y), rest);
      FieldParses(done, fields[0], StripAll(y) + rest);
      var next := done + [StripField(fields[0])];
      StanzaParses(next, fields[1..], rest);
      ConcatAssoc(done, [StripField(fields[0])], StripFields(fields[1..]));
    }
  }

  /** A printed stanza reads back as its fields, when no line of a value ends in CR. */
  lemma StanzaReadsBack(fields: seq<Field>)
    requires AllWellFormed(fields) && forall i :: 0 <= i < |fields| ==> NoCR(fields[i].value)
    ensures Paragraph(SplitLines(FormatStanza(fields)), []) == Ok(Parsed(fields, [""]))
  {
    hide AllWellFormed, NoCR, StanzaLines, FormatStanza, Unlines, SplitLines, StripAll, Paragraph, StripFields;
    StanzaIsLines(fields);
    StanzaNoLineFeed(fields);
    LinesThen(StanzaLines(fields), "");
    NoText();
    assert Unlines(StanzaLines(fields)) + "" == FormatStanza(fields);
    StanzaParses([], fields, [""]);
    StripFieldsExact(fields);
    assert [] + fields == fields;
  }

  /** The lines of a text that begins with whole lines. */
  lemma LinesThen(lines: seq<string>, more: string)
    requires NoLineFeed(lines)
    ensures SplitLines(Unlines(lines) + more) == StripAll(lines) + SplitLines(more)
  {
    hide Split, Unlines;
    SplitUnlinesThen(lines, more);
    StripConcat(lines, Split(more, '\n'));
  }

  lemma NoText()
    ensures SplitLines("") == [""] && StripAll([""]) == [""]
  {
  }

  /** What reading back gives in general: every package re-derived from its stripped fields. */
  function ReadBack(pkgs: seq<Package>): Result<seq<Package>, ControlError> {
    if pkgs == [] then Ok([])
    else
      var p := NewPackage(StripFields(pkgs[0].fields));
      if p.Err? then Err(p.error) else After([p.value], ReadBack(pkgs[1..]))
  }

  lemma FirstLineNotBlank(fields: seq<Field>)
    requires fields != [] && AllWellFormed(fields)
    ensures StanzaLines(fields) != [] && !IsBlank(StripCR(StanzaLines(fields)[0]))
  {
    hide Split, IsBlank;
    HeadParses(fields[0], Split(fields[0].value, '\n')[0]);
  }

  lemma RenderedLines(pkgs: seq<Package>, first: bool)
    requires pkgs != []
    ensures var body := StripAll(StanzaLines(pkgs[0].fields)) + (StripAll(RenderLines(pkgs[1..], false)) + [""]);
            StripAll(RenderLines(pkgs, first)) + [""] == if first then body else [""] + body
  {
    hide StanzaLines, StripAll, RenderLines;
    var stanza, more := StanzaLines(pkgs[0].fields), RenderLines(pkgs[1..], false);
    RenderLinesStep(pkgs, first);
    StripConcat(stanza, more);
    ConcatAssoc(StripAll(stanza), StripAll(more), [""]);
    StripCons("", stanza + more, [""]);
  }

  lemma RenderLinesStep(pkgs: seq<Package>, first: bool)
    requires pkgs != []
    ensures var lines := StanzaLines(pkgs[0].fields) + RenderLines(pkgs[1..], false);
            RenderLines(pkgs, first) == if first then lines else [""] + lines
  {
    hide StanzaLines;
    var stanza, more := StanzaLines(pkgs[0].fields), RenderLines(pkgs[1..], false);
    ConcatAssoc([""], stanza, more);
    assert [] + stanza == stanza;
  }

  /** A printed stanza at the front of the lines, read as one package. */
  lemma OneStanza(fields: seq<Field>, rest: seq<string>)
    requires fields != [] && AllWellFormed(fields)
    requires rest != [] && IsBlank(rest[0])
    ensures var p := NewPackage(StripFields(fields));
            Paragraphs(StripAll(StanzaLines(fields)) + rest) ==
              if p.Err? then Err(p.error) else After([p.value], Paragraphs(rest))
  {
    hide StanzaLines, AllWellFormed, StripFields, NewPackage, Paragraphs, Paragraph;
    FirstLineNotBlank(fields);
    StanzaParses([], fields, rest);
    assert [] + StripFields(fields) == StripFields(fields);
    ParagraphsStep(StripAll(StanzaLines(fields)) + rest);
  }

  lemma {:induction false} RenderParses(pkgs: seq<Package>, first: bool)
    requires PackagesWellFormed(pkgs)
    ensures Paragraphs(StripAll(RenderLines(pkgs, first)) + [""]) == ReadBack(pkgs)
    decreases |pkgs|
  {
    hide StanzaLines, AllWellFormed, StripFields, NewPackage, StripAll, Paragraphs;
    if pkgs == [] {
      StripNone([""]);
      ParagraphsStep([""]);
      assert [""][1..] == [];
      NothingLeft();
    } else {
      hide RenderLines;
      var rest := StripAll(RenderLines(pkgs[1..], false)) + [""];
      var body := StripAll(StanzaLines(pkgs[0].fields)) + rest;
      RenderedLines(pkgs, first);
      if !first {
        ParagraphsStep([""] + body);
        assert ([""] + body)[1..] == body;
      }
      RenderParses(pkgs[1..], false);
      RestStartsBlank(pkgs[1..]);
      OneStanza(pkgs[0].fields, rest);
    }
  }

  lemma RestStartsBlank(pkgs: seq<Package>)
    ensures IsBlank((StripAll(RenderLines(pkgs, false)) + [""])[0])
  {
    hide StanzaLines;
  }

  /** Reading back a printed file, in general. */
  lemma ReadBackWhatWasWritten(pkgs: seq<Package>)
    requires PackagesWellFormed(pkgs)
    ensures ParseControlFile(BuildPackages(pkgs)) == ReadBack(pkgs)
  {
    hide Render, RenderLines, Unlines, Split, Paragraphs, ReadBack, AllWellFormed;
    RenderIsLines(pkgs, true);
    RenderNoLineFeed(pkgs, true);
    var lines := RenderLines(pkgs, true);
    SplitUnlines(lines);
    StripConcat(lines, [""]);
    assert StripAll([""]) == [""];
    RenderParses(pkgs, true);
  }

  ghost predicate PackagesNoCR(pkgs: seq<Package>) {
    forall i, k :: 0 <= i < |pkgs| && 0 <= k < |pkgs[i].fields| ==> NoCR(pkgs[i].fields[k].value)
  }

  lemma StripFieldsExact(fields: seq<Field>)
    ensures StripFields(fields) == fields <==> forall k :: 0 <= k < |fields| ==> NoCR(fields[k].value)
  {
    hide StripField, NoCR;
    forall k | 0 <= k < |fields| ensures StripField(fields[k]) == fields[k] <==> NoCR(fields[k].value) {
      StripFieldExact(fields[k]);
    }
    if StripFields(fields) == fields {
      forall k | 0 <= k < |fields| ensures NoCR(fields[k].value) {
        assert StripFields(fields)[k] == fields[k];
      }
    }
  }

  lemma {:induction false} ReadBackExact(pkgs: seq<Package>)
    requires forall i :: 0 <= i < |pkgs| ==> Coherent(pkgs[i])
    ensures ReadBack(pkgs) == Ok(pkgs) <==> PackagesNoCR(pkgs)
  {
    hide NewPackage, NoCR, StripFields;
    if pkgs != [] {
      var fields := pkgs[0].fields;
      StripFieldsExact(fields);
      NewPackageKeepsFields(StripFields(fields));
      ReadBackExact(pkgs[1..]);
      assert pkgs == [pkgs[0]] + pkgs[1..];
      assert Coherent(pkgs[0]);
      assert PackagesNoCR(pkgs) <==> PackagesNoCR(pkgs[1..]) && forall k :: 0 <= k < |fields| ==> NoCR(fields[k].value);
    }
  }

  /** A printed list of packages reads back as the same list exactly when no line of a value ends in CR. */
  lemma RoundTripExact(pkgs: seq<Package>)
    requires PackagesWellFormed(pkgs)
    requires forall i :: 0 <= i < |pkgs| ==> Coherent(pkgs[i])
    ensures ParseControlFile(BuildPackages(pkgs)) == Ok(pkgs) <==> PackagesNoCR(pkgs)
  {
    hide AllWellFormed, ReadBack, NewPackage, NoCR;
    ReadBackWhatWasWritten(pkgs);
    ReadBackExact(pkgs);
  }

  /** Of two CRs at the end of a line one stays in the value: the parser does produce what printing loses. */
  lemma DoubleCRStays(line: string)
    requires '\n' !in line && ':' in line && !IsSpace(line[0]) && HasSuffix(line, "\r")
    ensures SplitLines(line + "\r\n") == [line, ""]
    ensures Paragraph([line, ""], []) == Ok(Parsed([FieldOf(line)], [""]))
    ensures !NoCR(FieldOf(line).value)
  {
    hide Split, FieldOf;
    var whole := line + "\r";
    assert line + "\r\n" == whole + ['\n'] + "";
    SplitOfCut(whole, "", '\n');
    OneLineSplit("");
    assert whole[|line|..] == "\r" && whole[..|line|] == line;
    assert SplitLines(line + "\r\n") == [StripCR(whole), StripCR("")];
    ParagraphOfOne(line);
    ValueKeepsCR(line);
    var value := FieldOf(line).value;
    OneLineSplit(value);
    assert Split(value, '\n')[0] == value;
  }

  lemma OneLineSplit(s: string)
    requires '\n' !in s
    ensures Split(s, '\n') == [s]
  {
  }

  lemma EndsInCR(s: string)
    ensures HasSuffix(s, "\r") <==> s != "" && s[|s| - 1] == '\r'
  {
    assert s != "" ==> s[|s| - 1..] == [s[|s| - 1]];
  }

  lemma TrimKeepsEnd(s: string)
    requires s != "" && s[|s| - 1] == '\r' && '\n' !in s
    ensures var r := TrimPrefix(s, " "); r != "" && r[|r| - 1] == '\r' && '\n' !in r
  {
    assert s[0] == ' ' ==> |s| > 1;
  }

  lemma ValueKeepsCR(line: string)
    requires '\n' !in line && ':' in line && HasSuffix(line, "\r")
    ensures HasSuffix(FieldOf(line).value, "\r") && '\n' !in FieldOf(line).value
  {
    hide HasSuffix, TrimPrefix;
    EndsInCR(line);
    var tail := line[IndexByte(line, ':') + 1..];
    assert tail != "" && tail[|tail| - 1] == line[|line| - 1];
    TrimKeepsEnd(tail);
    EndsInCR(FieldOf(line).value);
  }

  lemma ParagraphOfOne(line: string)
    requires line != "" && !IsSpace(line[0]) && ':' in line
    ensures Paragraph([line, ""], []) == Ok(Parsed([FieldOf(line)], [""]))
  {
    hide FieldOf;
    assert [line, ""][1..] == [""];
    assert [] + [FieldOf(line)] == [FieldOf(line)];
    assert IsBlank("") && !IsBlank(line);
  }

  // ----- looking a field up

  lemma {:induction false} GetConcat(x: seq<Field>, y: seq<Field>, name: string)
    ensures Get(x + y, name) == if Get(x, name).Some? then Get(x, name) else Get(y, name)
  {
    hide EqualFold;
    if x == [] {
      assert x + y == y;
    } else {
      assert (x + y)[1..] == x[1..] + y;
      GetConcat(x[1..], y, name);
    }
  }

  lemma {:induction false} GetAbsent(fields: seq<Field>, name: string)
    requires forall i :: 0 <= i < |fields| ==> !EqualFold(fields[i].name, name)
    ensures Get(fields, name).None?
  {
    hide EqualFold;
    if fields != [] {
      GetAbsent(fields[1..], name);
    }
  }

  lemma {:induction false} GetAt(fields: seq<Field>, k: nat, name: string)
    requires k < |fields| && EqualFold(fields[k].name, name)
    requires forall i :: 0 <= i < k ==> !EqualFold(fields[i].name, name)
    ensures Get(fields, name) == Some(fields[k].value)
  {
    hide EqualFold;
    if k > 0 {
      GetAt(fields[1..], k - 1, name);
    }
  }

  lemma FoldReflexive(name: string)
    ensures EqualFold(name, name)
  {
  }

  // ----- the text of a control file

  lemma {:induction false} StanzaConcat(x: seq<Field>, y: seq<Field>)
    ensures FormatStanza(x + y) == FormatStanza(x) + FormatStanza(y)
  {
    hide FormatField;
    if x == [] {
      assert x + y == y;
    } else {
      StanzaConcat(x[1..], y);
      assert (x + y)[1..] == x[1..] + y;
      Assoc(FormatField(x[0]), FormatStanza(x[1..]), FormatStanza(y));
    }
  }

  lemma StanzaOfOne(f: Field)
    ensures FormatStanza([f]) == FormatField(f)
  {
    hide FormatField;
    assert [f][1..] == [];
  }

  lemma OneLineField(name: string, value: string)
    requires ':' !in name && '\n' !in name && !IsContinuation(name)
    requires '\n' !in value && !HasSuffix(value, "\r")
    ensures WellFormed(Field(name, value)) && NoCR(value)
  {
    OneLineSplit(value);
  }

  lemma {:induction false} UnlinesJoin(lines: seq<string>)
    requires lines != []
    ensures Unlines(lines) == Join(lines, '\n') + "\n"
  {
    if |lines| > 1 {
      UnlinesJoin(lines[1..]);
      assert lines[0] + "\n" + (Join(lines[1..], '\n') + "\n") == (lines[0] + ['\n'] + Join(lines[1..], '\n')) + "\n";
    } else {
      assert lines[1..] == [];
    }
  }

  /** A field is printed as its name, a colon, and its value after a blank, which is left out before an empty line. */
  lemma PrintedField(name: string, value: string)
    ensures FormatField(Field(name, value)) ==
            name + ":" + (if value == "" || value[0] == '\n' then "" else " ") + value + "\n"
  {
    hide Split, Join, Unlines;
    var lines := Split(value, '\n');
    JoinSplit(value, '\n');
    SplitPieces(value, '\n');
    FirstLine(value);
    if |lines| == 1 {
      assert lines == [lines[0]] && lines[1..] == [];
      JoinSingle(lines[0], '\n');
      NoLines();
    } else {
      UnlinesJoin(lines[1..]);
      JoinCons(lines[0], lines[1..], '\n');
      assert lines == [lines[0]] + lines[1..];
    }
  }

  lemma FirstLine(value: string)
    ensures Split(value, '\n')[0] == "" <==> value == "" || value[0] == '\n'
  {
    SplitStep(value, '\n');
    hide Split;
  }

  /** Between the stanzas of a file there is one empty line each. */
  lemma {:induction false} FileText(pkgs: seq<Package>, more: seq<Package>)
    requires pkgs != [] && more != []
    ensures BuildPackages(pkgs + more) == BuildPackages(pkgs) + "\n" + BuildPackages(more)
    ensures |pkgs| == 1 ==> BuildPackages(pkgs) == FormatStanza(pkgs[0].fields)
  {
    hide FormatStanza, Render;
    RenderConcat(pkgs, more, true);
    NotFirst(more);
    if |pkgs| == 1 {
      RenderStep(pkgs, 0, true);
      NoLines();
      assert pkgs[0..] == pkgs && pkgs[1..] == [];
    }
  }

  lemma NotFirst(pkgs: seq<Package>)
    requires pkgs != []
    ensures Render(pkgs, false) == "\n" + Render(pkgs, true)
  {
    hide FormatStanza;
    Assoc("\n", FormatStanza(pkgs[0].fields), Render(pkgs[1..], false));
    assert Render(pkgs, true) == FormatStanza(pkgs[0].fields) + Render(pkgs[1..], false);
  }

  lemma {:induction false} RenderConcat(pkgs: seq<Package>, more: seq<Package>, first: bool)
    requires pkgs != []
    ensures Render(pkgs + more, first) == Render(pkgs, first) + Render(more, false)
    decreases |pkgs|
  {
    hide FormatStanza;
    var all := pkgs + more;
    var head := (if first then "" else "\n") + FormatStanza(pkgs[0].fields);
    assert all[1..] == pkgs[1..] + more;
    if |pkgs| == 1 {
      assert pkgs[1..] == [] && all[1..] == more;
    } else {
      RenderConcat(pkgs[1..], more, false);
      Assoc(head, Render(pkgs[1..], false), Render(more, false));
    }
  }

  // ----- what the lines of a paragraph say

  /** A line with a name, a colon and a value adds a field; one blank after the colon does not belong to the value. */
  lemma FieldLine(fields: seq<Field>, name: string, value: string, rest: seq<string>)
    requires ':' !in name && (name == "" || (name[0] != ' ' && name[0] != '\t'))
    ensures Paragraph([name + ": " + value] + rest, fields) == Paragraph(rest, fields + [Field(name, value)])
    ensures value == "" || value[0] != ' ' ==>
              Paragraph([name + ":" + value] + rest, fields) == Paragraph(rest, fields + [Field(name, value)])
  {
    hide Paragraph, IndexByte;
    LineAdds(fields, name, " " + value, rest);
    assert name + ":" + (" " + value) == name + ": " + value && (" " + value)[1..] == value;
    if value == "" || value[0] != ' ' {
      LineAdds(fields, name, value, rest);
    }
  }

  lemma LineAdds(fields: seq<Field>, name: string, tail: string, rest: seq<string>)
    requires ':' !in name && (name == "" || (name[0] != ' ' && name[0] != '\t'))
    ensures Paragraph([name + ":" + tail] + rest, fields) ==
            Paragraph(rest, fields + [Field(name, if tail != "" && tail[0] == ' ' then tail[1..] else tail)])
  {
    hide Paragraph, IndexByte;
    var line := name + ":" + tail;
    IndexOfCut(name, tail, ':');
    assert line == name + [':'] + tail && line[|name|] == ':' && line[..|name|] == name && line[|name| + 1..] == tail;
    assert name != "" ==> line[0] == name[0];
    ParagraphStep([line] + rest, 0, fields);
    assert ([line] + rest)[0..] == [line] + rest && ([line] + rest)[1..] == rest;
  }

  /** A line that starts with a blank or a tab belongs to the field before it, as it is, unless there is none. */
  lemma FoldedLine(fields: seq<Field>, f: Field, line: string, rest: seq<string>)
    requires line != "" && (line[0] == ' ' || line[0] == '\t') && !IsWhite(line)
    ensures Paragraph([line] + rest, fields + [f]) ==
            Paragraph(rest, fields + [Field(f.name, f.value + "\n" + line)])
    ensures Paragraph([line] + rest, []) == Err(ContinuationBeforeField)
  {
    hide Paragraph;
    ParagraphStep([line] + rest, 0, fields + [f]);
    ParagraphStep([line] + rest, 0, []);
    assert ([line] + rest)[0..] == [line] + rest && ([line] + rest)[1..] == rest;
    assert AppendLine(fields + [f], line) == fields + [Field(f.name, f.value + "\n" + line)];
  }

  /** Any other line must have a colon. */
  lemma NoColonLine(fields: seq<Field>, line: string, rest: seq<string>)
    requires ':' !in line && line != "" && line[0] != ' ' && line[0] != '\t'
    requires !IsWhite(line)
    ensures Paragraph([line] + rest, fields) == Err(NoColon)
  {
    hide Paragraph;
    ParagraphStep([line] + rest, 0, fields);
    assert ([line] + rest)[0..] == [line] + rest;
  }

  /** A blank line ends a paragraph, and in a file any number of them may stand before one. */
  lemma BlankLine(fields: seq<Field>, line: string, rest: seq<string>)
    requires IsWhite(line)
    ensures Paragraph([line] + rest, fields) == Ok(Parsed(fields, [line] + rest))
    ensures Paragraphs([line] + rest) == Paragraphs(rest)
  {
    hide Paragraph, Paragraphs;
    ParagraphStep([line] + rest, 0, fields);
    ParagraphsStep([line] + rest);
    assert ([line] + rest)[0..] == [line] + rest && ([line] + rest)[1..] == rest;
  }

  /** A stanza is read up to the first empty line, whatever comes after it. */
  lemma StanzaReadsFirst(fields: seq<Field>, more: string)
    requires AllWellFormed(fields) && forall i :: 0 <= i < |fields| ==> NoCR(fields[i].value)
    ensures Paragraph(SplitLines(FormatStanza(fields) + "\n" + more), []) ==
            Ok(Parsed(fields, [""] + SplitLines(more)))
  {
    hide AllWellFormed, NoCR, StanzaLines, FormatStanza, Unlines, SplitLines, StripAll, Paragraph, StripFields;
    var lines := StanzaLines(fields);
    StanzaIsLines(fields);
    StanzaNoLineFeed(fields);
    LinesThen(lines, "\n" + more);
    LinesThen([""], more);
    GapText();
    NoText();
    Assoc(Unlines(lines), "\n", more);
    StanzaParses([], fields, [""] + SplitLines(more));
    StripFieldsExact(fields);
    assert [] + fields == fields;
  }

  /** What starts with a blank line is no control file. */
  lemma BlankStart(blank: string, rest: string)
    requires IsWhite(blank) && '\n' !in blank
    ensures ParseControl(blank + "\n" + rest) == Err(MissingField)
  {
    hide Split, Paragraph;
    SplitOfCut(blank, rest, '\n');
    assert blank + ['\n'] + rest == blank + "\n" + rest;
    var lines := SplitLines(blank + "\n" + rest);
    assert lines == [lines[0]] + lines[1..] && lines[0] == StripCR(blank);
    BlankLine([], lines[0], lines[1..]);
  }

  /** A control file must say the name, the version and the architecture of its package, whatever else it says. */
  lemma ControlNeeds(name: string, version: string, arch: string, more: seq<Field>)
    requires '\n' !in name && '\n' !in version && '\n' !in arch
    requires !HasSuffix(name, "\r") && !HasSuffix(version, "\r") && !HasSuffix(arch, "\r")
    requires AllWellFormed(more) && forall i :: 0 <= i < |more| ==> NoCR(more[i].value)
    ensures var fields := [Field("Package", name), Field("Version", version), Field("Architecture", arch)] + more;
            ParseControl(FormatStanza(fields)) ==
            if name == "" || version == "" || arch == "" then Err(MissingField)
            else Ok(Package(name, version, arch, fields))
    ensures var fields := [Field("Package", name), Field("Version", version), Field("Architecture", arch)] + more;
            forall rest :: ParseControl(FormatStanza(fields) + "\n" + rest) == ParseControl(FormatStanza(fields))
  {
    hide Paragraph, SplitLines, FormatStanza, WellFormed, NoCR, HasSuffix, Get;
    var keys := [Field("Package", name), Field("Version", version), Field("Architecture", arch)];
    var fields := keys + more;
    OneLineField("Package", name);
    OneLineField("Version", version);
    OneLineField("Architecture", arch);
    assert AllWellFormed(keys) && forall i :: 0 <= i < |keys| ==> NoCR(keys[i].value);
    StanzaReadsBack(fields);
    forall rest ensures ParseControl(FormatStanza(fields) + "\n" + rest) == ParseControl(FormatStanza(fields)) {
      StanzaReadsFirst(fields, rest);
    }
    KeysFound(name, version, arch, more);
  }

  lemma KeysFound(name: string, version: string, arch: string, more: seq<Field>)
    ensures var fields := [Field("Package", name), Field("Version", version), Field("Architecture", arch)] + more;
            && Get(fields, "Package") == Some(name) && Get(fields, "Version") == Some(version)
            && Get(fields, "Architecture") == Some(arch)
  {
    var fields := [Field("Package", name), Field("Version", version), Field("Architecture", arch)] + more;
    var p, v, a := "Package", "Version", "Architecture";
    FoldReflexive(p);
    FoldReflexive(v);
    FoldReflexive(a);
    assert LowerChar(p[0]) != LowerChar(v[0]) && |p| != |a| && |v| != |a|;
    hide EqualFold, Get;
    GetAt(fields, 0, p);
    GetAt(fields, 1, v);
    GetAt(fields, 2, a);
  }
}
