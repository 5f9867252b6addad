/**
 internal/deb/ar.go: the reader of ar archives, and the writer of internal/testing/debtest/debtest.go that it
 inverts.
 */
module Ar {
  import opened Wrappers
  import opened Numbers
  import opened Text

  const MAGIC := "!<arch>\n"
  const HEADER_LENGTH: nat := 60

  datatype Member = Member(name: string, data: string)

  datatype ArError = BadMagic | TruncatedHeader | BadHeaderMagic | BadSize | SizeExceedsArchive

  // ----- reading

  /** Names are padded with blanks; GNU ar also appends a slash. */
  function StoredName(field: string): string {
    TrimSuffix(TrimRightBlanks(field), "/")
  }

  /** What a header of 60 bytes says about a member whose data starts at the given offset of the archive. */
  function ReadHeader(header: string, available: nat): Result<(string, nat), ArError>
    requires |header| == HEADER_LENGTH
  {
    if header[58..60] != "`\n" then Err(BadHeaderMagic)
    else
      var size := Atoi(TrimSpace(header[48..58]));
      if size.None? then Err(BadSize)
      else if size.value < 0 || size.value > available then Err(SizeExceedsArchive)
      else Ok((StoredName(header[..16]), size.value))
  }

  /** The length of a member's data with its padding, which may be missing at the end of the archive. */
  function Padded(size: nat, available: nat): (n: nat)
    requires size <= available
    ensures size <= n <= available
  {
    if size % 2 == 1 && size < available then size + 1 else size
  }

  /** The members in what is left of an archive. */
  function Members(rest: string): Result<seq<Member>, ArError>
    decreases |rest|
  {
    if rest == "" then Ok([])
    else if |rest| < HEADER_LENGTH then (if IsBlank(rest) then Ok([]) else Err(TruncatedHeader))
    else
      var body := rest[HEADER_LENGTH..];
      var h := ReadHeader(rest[..HEADER_LENGTH], |body|);
      if h.Err? then Err(h.error)
      else
        var (name, size) := h.value;
        After([Member(name, body[..size])], Members(body[Padded(size, |body|)..]))
  }

  /** Members already read, followed by those of the rest unless these fail. */
  function After(members: seq<Member>, more: Result<seq<Member>, ArError>): Result<seq<Member>, ArError> {
    if more.Err? then more else Ok(members + more.value)
  }

  function Archive(data: string): Result<seq<Member>, ArError> {
    if !HasPrefix(data, MAGIC) then Err(BadMagic) else Members(data[|MAGIC|..])
  }

  function From(data: string, pos: nat): string {
    if pos <= |data| then data[pos..] else ""
  }

  lemma AfterLaws(members: seq<Member>, m: Member, more: Result<seq<Member>, ArError>)
    ensures After([], more) == more
    ensures After(members, Ok([])) == Ok(members)
    ensures After(members, After([m], more)) == After(members + [m], more)
  {
    assert members + [] == members;
    if more.Ok? {
      assert [] + more.value == more.value;
      assert members + ([m] + more.value) == (members + [m]) + more.value;
    }
  }

  /** The member whose header is at pos, and where the next header is. */
  function MemberAt(data: string, pos: nat): Result<(Member, nat), ArError>
    requires pos + HEADER_LENGTH <= |data|
  {
    var start := pos + HEADER_LENGTH;
    var h := ReadHeader(data[pos..start], |data| - start);
    if h.Err? then Err(h.error)
    else
      HeaderFits(data[pos..start], |data| - start);
      var (name, size) := h.value;
      Ok((Member(name, data[start..start + size]), start + size + size % 2))
  }

  /** One header and its data, by position. */
  lemma MembersStep(data: string, pos: nat)
    requires pos < |data|
    ensures pos + HEADER_LENGTH > |data| ==>
              Members(From(data, pos)) == if IsBlank(data[pos..]) then Ok([]) else Err(TruncatedHeader)
    ensures pos + HEADER_LENGTH <= |data| ==>
              var m := MemberAt(data, pos);
              Members(From(data, pos)) ==
                if m.Err? then Err(m.error) else After([m.value.0], Members(From(data, m.value.1)))
  {
    hide ReadHeader, After, IsBlank;
    if pos + HEADER_LENGTH <= |data| {
      var rest, start := data[pos..], pos + HEADER_LENGTH;
      var body := rest[HEADER_LENGTH..];
      assert rest[..HEADER_LENGTH] == data[pos..start] && body == data[start..];
      var h := ReadHeader(data[pos..start], |data| - start);
      if h.Ok? {
        HeaderFits(data[pos..start], |data| - start);
        var size := h.value.1;
        assert body[..size] == data[start..start + size];
        assert body[Padded(size, |body|)..] == From(data, start + size + size % 2);
      }
    }
  }

  lemma HeaderFits(header: string, available: nat)
    requires |header| == HEADER_LENGTH
    ensures var h := ReadHeader(header, available); h.Ok? ==> h.value.1 <= available
  {
  }

  /** Reading has got to a position with the members so far: the archive holds these and what is read from there. */
  ghost predicate ReadTo(data: string, pos: nat, members: seq<Member>) {
    Archive(data) == After(members, Members(From(data, pos)))
  }

  /** Where reading starts. */
  lemma ReadStart(data: string)
    ensures if HasPrefix(data, MAGIC) then ReadTo(data, |MAGIC|, []) else Archive(data) == Err(BadMagic)
  {
    hide Members;
    AfterLaws([], Member("", ""), Members(From(data, |MAGIC|)));
  }

  /** Fewer bytes are left than a header has. */
  lemma ReadEnd(data: string, pos: nat, members: seq<Member>)
    requires pos < |data| < pos + HEADER_LENGTH && ReadTo(data, pos, members)
    ensures Archive(data) == if IsBlank(data[pos..]) then Ok(members) else Err(TruncatedHeader)
  {
    hide Members, IsBlank, From, Archive;
    MembersStep(data, pos);
    assert members + [] == members;
  }

  /** A header is left: what it says, and where reading goes on behind the member and its padding. */
  lemma ReadOn(data: string, pos: nat, members: seq<Member>)
    requires pos + HEADER_LENGTH <= |data| && ReadTo(data, pos, members)
    ensures var start := pos + HEADER_LENGTH; var h := ReadHeader(data[pos..start], |data| - start);
            if h.Err? then Archive(data) == Err(h.error)
            else
              var (name, size) := h.value;
              size <= |data| - start &&
              ReadTo(data, start + size + size % 2, members + [Member(name, data[start..start + size])])
  {
    hide Members, From, Archive, ReadHeader, After, MemberAt;
    MembersStep(data, pos);
    MemberAtIs(data, pos);
    var at := MemberAt(data, pos);
    if at.Ok? {
      AfterLaws(members, at.value.0, Members(From(data, at.value.1)));
    } else {
      AfterError(members, at.error);
    }
  }

  lemma MemberAtIs(data: string, pos: nat)
    requires pos + HEADER_LENGTH <= |data|
    ensures var start := pos + HEADER_LENGTH; var h := ReadHeader(data[pos..start], |data| - start);
            var m := MemberAt(data, pos);
            if h.Err? then m == Err(h.error)
            else
              var (name, size) := h.value;
              size <= |data| - start && m == Ok((Member(name, data[start..start + size]), start + size + size % 2))
  {
    hide ReadHeader;
    HeaderFits(data[pos..pos + HEADER_LENGTH], |data| - pos - HEADER_LENGTH);
  }

  lemma AfterError(members: seq<Member>, e: ArError)
    ensures After(members, Err(e)) == Err(e)
  {
  }

  lemma ReadAll(data: string, pos: nat, members: seq<Member>)
    requires pos >= |data| && ReadTo(data, pos, members)
    ensures Archive(data) == Ok(members)
  {
    hide Archive;
    NothingFrom(data, pos);
    assert members + [] == members;
  }

  /** `readAr`, one position moving through the archive. */
  method ReadAr(data: string) returns (r: Result<seq<Member>, ArError>)
    ensures r == Archive(data)
  {
    hide HasPrefix, ReadTo, Archive, ReadHeader, IsBlank;
    ReadStart(data);
    if !HasPrefix(data, MAGIC) {
      return Err(BadMagic);
    }
    var members: seq<Member> := [];
    var pos: nat := |MAGIC|;
    while pos < |data|
      invariant ReadTo(data, pos, members)
      decreases |data| + 1 - pos
    {
      if pos + HEADER_LENGTH > |data| {
        ReadEnd(data, pos, members);
        if IsBlank(data[pos..]) {
          return Ok(members);
        }
        return Err(TruncatedHeader);
      }
      ReadOn(data, pos, members);
      var header := data[pos..pos + HEADER_LENGTH];
      pos := pos + HEADER_LENGTH;
      var h := ReadHeader(header, |data| - pos);
      if h.Err? {
        return Err(h.error);
      }
      var (name, size) := h.value;
      members := members + [Member(name, data[pos..pos + size])];
      pos := pos + size;
      if size % 2 == 1 {
        pos := pos + 1;
      }
    }
    ReadAll(data, pos, members);
    return Ok(members);
  }

  lemma NothingFrom(data: string, pos: nat)
    requires pos >= |data|
    ensures Members(From(data, pos)) == Ok([])
  {
  }

  lemma NoMembers()
    ensures Members("") == Ok([])
  {
  }

  // ----- the members are slices

  /** Member k is the slice of data at offset offs[k]; a whole header lies between one slice and the next. */
  ghost predicate AreSlices(data: string, members: seq<Member>, offs: seq<nat>, first: nat) {
    && |offs| == |members|
    && (forall k :: 0 <= k < |offs| ==>
          offs[k] + |members[k].data| <= |data| && data[offs[k]..offs[k] + |members[k].data|] == members[k].data)
    && (forall k :: 0 <= k < |offs| ==> first + HEADER_LENGTH <= offs[k])
    && (forall k, m :: 0 <= k < m < |offs| ==> offs[k] + |members[k].data| + HEADER_LENGTH <= offs[m])
  }

  lemma {:induction false} MembersAreSlices(data: string, pos: nat) returns (offs: seq<nat>)
    ensures var r := Members(From(data, pos)); r.Ok? ==> AreSlices(data, r.value, offs, pos)
    decreases |data| + 1 - pos
  {
    hide Members, MemberAt, From, ReadHeader;
    offs := [];
    if pos >= |data| {
      NothingFrom(data, pos);
    } else {
      MembersStep(data, pos);
      if pos + HEADER_LENGTH <= |data| {
        var m := MemberAt(data, pos);
        MemberIsSlice(data, pos);
        if m.Ok? {
          var more := MembersAreSlices(data, m.value.1);
          offs := [pos + HEADER_LENGTH] + more;
          var r := Members(From(data, m.value.1));
          if r.Ok? {
            SliceInFront(data, m.value.0, r.value, more, pos, m.value.1);
          }
        }
      }
    }
  }

  lemma MemberIsSlice(data: string, pos: nat)
    requires pos + HEADER_LENGTH <= |data|
    ensures var start := pos + HEADER_LENGTH; var r := MemberAt(data, pos);
            r.Ok? ==>
              var (m, next) := r.value;
              start + |m.data| <= |data| && data[start..start + |m.data|] == m.data && next >= start + |m.data|
  {
    hide ReadHeader;
    var start := pos + HEADER_LENGTH;
    var h := ReadHeader(data[pos..start], |data| - start);
    HeaderFits(data[pos..start], |data| - start);
    if h.Ok? {
      var (name, size) := h.value;
      assert MemberAt(data, pos).value.0.data == data[start..start + size];
    }
  }

  lemma SliceInFront(data: string, m: Member, members: seq<Member>, offs: seq<nat>, pos: nat, next: nat)
    requires AreSlices(data, members, offs, next)
    requires var start := pos + HEADER_LENGTH;
             start + |m.data| <= |data| && data[start..start + |m.data|] == m.data && next >= start + |m.data|
    ensures AreSlices(data, [m] + members, [pos + HEADER_LENGTH] + offs, pos)
  {
  }

  /** Whatever the input, the members are disjoint slices of it, in order. */
  lemma ArchiveIsSliced(data: string) returns (offs: seq<nat>)
    ensures var r := Archive(data); r.Ok? ==> AreSlices(data, r.value, offs, |MAGIC|)
  {
    offs := MembersAreSlices(data, |MAGIC|);
  }

  // ----- writing

  /** `%-ns`: s, filled up with blanks. */
  function Blanks(n: int): (s: string)
    ensures |s| == if n > 0 then n else 0
  {
    if n <= 0 then "" else Blanks(n - 1) + " "
  }

  function Pad(s: string, n: nat): (r: string)
    ensures |r| == if |s| > n then |s| else n
  {
    s + Blanks(n - |s|)
  }

  function Header(m: Member): string {
    Pad(m.name, 16) + Pad("0", 12) + Pad("0", 6) + Pad("0", 6) + Pad("100644", 8) + Pad(Itoa(|m.data|), 10) + "`\n"
  }

  /** The writer's own assertion. */
  predicate Writable(m: Member) {
    |Header(m)| == HEADER_LENGTH
  }

  /** A header has its length exactly when the name and the size fit their fields. */
  lemma WritableExact(m: Member)
    ensures Writable(m) <==> |m.name| <= 16 && |m.data| < Pow10(10)
  {
    NatToStringLength(|m.data|, 10);
  }

  function MemberText(m: Member): string {
    Header(m) + m.data + if |m.data| % 2 == 1 then "\n" else ""
  }

  function MembersText(ms: seq<Member>): string {
    if ms == [] then "" else MemberText(ms[0]) + MembersText(ms[1..])
  }

  /** `writeArMember`. */
  method WriteArMember(buf: string, m: Member) returns (r: string)
    requires Writable(m)
    ensures r == buf + MemberText(m)
  {
    hide Header;
    r := buf + Header(m);
    r := r + m.data;
    if |m.data| % 2 == 1 {
      r := r + "\n";
    }
  }

  /** `BuildWith` without the compression: the magic, then every member. */
  method WriteAr(ms: seq<Member>) returns (r: string)
    requires forall m | m in ms :: Writable(m)
    ensures r == MAGIC + MembersText(ms)
  {
    hide MemberText;
    r := MAGIC;
    assert ms[0..] == ms;
    for i := 0 to |ms|
      invariant r + MembersText(ms[i..]) == MAGIC + MembersText(ms)
    {
      assert ms[i..][1..] == ms[i + 1..];
      Assoc(r, MemberText(ms[i]), MembersText(ms[i + 1..]));
      r := WriteArMember(r, ms[i]);
    }
  }

  // ----- reading what was written

  lemma {:induction false} TrimBlanks(s: string, n: int)
    ensures TrimRightBlanks(s + Blanks(n)) == TrimRightBlanks(s)
  {
    if n > 0 {
      assert (s + Blanks(n))[..|s| + n - 1] == s + Blanks(n - 1);
      TrimBlanks(s, n - 1);
    } else {
      assert s + Blanks(n) == s;
    }
  }

  lemma {:induction false} TrimSpaceBlanks(s: string, n: int)
    requires s != "" && !IsSpace(s[|s| - 1])
    ensures TrimRightSpace(s + Blanks(n)) == s
  {
    if n > 0 {
      assert (s + Blanks(n))[..|s| + n - 1] == s + Blanks(n - 1);
      TrimSpaceBlanks(s, n - 1);
    } else {
      assert s + Blanks(n) == s;
    }
  }

  lemma PaddedNumber(n: nat, width: nat)
    ensures Atoi(TrimSpace(Pad(Itoa(n), width))) == Atoi(Itoa(n))
  {
    hide Atoi;
    var s := Itoa(n);
    assert AllDigits(s) && s != "";
    TrimSpaceBlanks(s, width - |s|);
    assert Pad(s, width)[0] == s[0];
    assert IsDigit(s[0]);
  }

  /** What the fields of a written header hold. */
  lemma HeaderFields(m: Member)
    requires Writable(m)
    ensures var h := Header(m);
            h[..16] == Pad(m.name, 16) && h[48..58] == Pad(Itoa(|m.data|), 10) && h[58..60] == "`\n"
  {
    hide Pad, Itoa;
    WritableExact(m);
    NatToStringLength(|m.data|, 10);
    HeaderCut(Pad(m.name, 16), Pad("0", 12) + Pad("0", 6) + Pad("0", 6) + Pad("100644", 8), Pad(Itoa(|m.data|), 10));
    assert Header(m) == Pad(m.name, 16) + (Pad("0", 12) + Pad("0", 6) + Pad("0", 6) + Pad("100644", 8)) +
           Pad(Itoa(|m.data|), 10) + "`\n";
  }

  lemma HeaderCut(a: string, b: string, c: string)
    requires |a| == 16 && |b| == 32 && |c| == 10
    ensures var h := a + b + c + "`\n"; h[..16] == a && h[48..58] == c && h[58..60] == "`\n"
  {
  }

  lemma WrittenHeader(m: Member, available: nat)
    requires Writable(m) && |m.data| <= available
    ensures ReadHeader(Header(m), available) == Ok((StoredName(m.name), |m.data|))
  {
    hide Header, Pad, StoredName;
    HeaderFields(m);
    PaddedName(m.name);
    PaddedNumber(|m.data|, 10);
    WritableExact(m);
    assert Pow10(10) <= MAX_INT64 by {
      assert Pow10(5) == 100000;
    }
    AtoiItoa(|m.data|);
  }

  lemma PaddedName(name: string)
    ensures StoredName(Pad(name, 16)) == StoredName(name)
  {
    TrimBlanks(name, 16 - |name|);
  }

  function AsRead(ms: seq<Member>): (r: seq<Member>)
    ensures |r| == |ms|
    ensures forall k :: 0 <= k < |ms| ==> r[k] == Member(StoredName(ms[k].name), ms[k].data)
  {
    seq(|ms|, k requires 0 <= k < |ms| => Member(StoredName(ms[k].name), ms[k].data))
  }

  lemma ReadWrittenMember(m: Member, more: string)
    requires Writable(m)
    ensures Members(MemberText(m) + more) == After([Member(StoredName(m.name), m.data)], Members(more))
  {
    hide Header, StoredName, ReadHeader, After, Members;
    var pad := if |m.data| % 2 == 1 then "\n" else "";
    var data := MemberText(m) + more;
    var header := Header(m);
    assert data == header + (m.data + pad + more);
    assert data[0..HEADER_LENGTH] == header;
    var size := |m.data|;
    WrittenHeader(m, |data| - HEADER_LENGTH);
    MembersStep(data, 0);
    assert From(data, 0) == data;
    assert data[HEADER_LENGTH..HEADER_LENGTH + size] == m.data;
    assert MemberAt(data, 0) == Ok((Member(StoredName(m.name), m.data), HEADER_LENGTH + size + size % 2));
    assert From(data, HEADER_LENGTH + size + size % 2) == more;
  }

  /** What is read back: the members written, with their names as stored. */
  lemma {:induction false} ReadWritten(ms: seq<Member>)
    requires forall m | m in ms :: Writable(m)
    ensures Members(MembersText(ms)) == Ok(AsRead(ms))
  {
    hide StoredName, Members, MemberText, Writable;
    if ms == [] {
      NoMembers();
    } else {
      ReadWritten(ms[1..]);
      assert ms[0] in ms;
      ReadWrittenMember(ms[0], MembersText(ms[1..]));
      assert AsRead(ms) == [Member(StoredName(ms[0].name), ms[0].data)] + AsRead(ms[1..]);
    }
  }

  lemma StoredNameExact(name: string)
    ensures StoredName(name) == name <==> name == "" || (name[|name| - 1] != ' ' && name[|name| - 1] != '/')
  {
    TrimRightBlanksShorter(name);
  }

  lemma {:induction false} TrimRightBlanksShorter(s: string)
    ensures |TrimRightBlanks(s)| <= |s|
    ensures TrimRightBlanks(s) == s <==> s == "" || s[|s| - 1] != ' '
  {
    if s != "" && s[|s| - 1] == ' ' {
      TrimRightBlanksShorter(s[..|s| - 1]);
    }
  }

  /** Reading returns exactly the members written, exactly when no name ends in a blank or a slash. */
  lemma ArRoundTripExact(ms: seq<Member>)
    requires forall m | m in ms :: Writable(m)
    ensures Archive(MAGIC + MembersText(ms)) == Ok(ms) <==>
            forall k :: 0 <= k < |ms| ==> ms[k].name == "" || ms[k].name[|ms[k].name| - 1] !in [' ', '/']
  {
    hide Members, MembersText, StoredName, Writable;
    ReadWritten(ms);
    assert (MAGIC + MembersText(ms))[|MAGIC|..] == MembersText(ms);
    forall k | 0 <= k < |ms|
      ensures AsRead(ms)[k] == ms[k] <==> ms[k].name == "" || ms[k].name[|ms[k].name| - 1] !in [' ', '/']
    {
      StoredNameExact(ms[k].name);
    }
    if AsRead(ms) == ms {
      assert forall k :: 0 <= k < |ms| ==> AsRead(ms)[k] == ms[k];
    }
  }

  // ----- what a damaged archive says

  /** Whole members at the front are read, whatever follows. */
  lemma {:induction false} ReadFront(ms: seq<Member>, rest: string)
    requires forall m | m in ms :: Writable(m)
    ensures Members(MembersText(ms) + rest) == After(AsRead(ms), Members(rest))
  {
    hide StoredName, Members, MemberText, Writable;
    if ms == [] {
      assert MembersText(ms) + rest == rest;
      AfterLaws([], Member("", ""), Members(rest));
    } else {
      var first := Member(StoredName(ms[0].name), ms[0].data);
      assert ms[0] in ms;
      ReadFront(ms[1..], rest);
      ReadWrittenMember(ms[0], MembersText(ms[1..]) + rest);
      Assoc(MemberText(ms[0]), MembersText(ms[1..]), rest);
      assert AsRead(ms) == [first] + AsRead(ms[1..]);
      if Members(rest).Ok? {
        assert [first] + (AsRead(ms[1..]) + Members(rest).value) == AsRead(ms) + Members(rest).value;
      }
    }
  }

  lemma ArchiveFront(ms: seq<Member>, rest: string)
    requires forall m | m in ms :: Writable(m)
    ensures Archive("!<arch>\n" + MembersText(ms) + rest) == After(AsRead(ms), Members(rest))
  {
    hide Members, MembersText, Writable;
    ReadFront(ms, rest);
    var data := "!<arch>\n" + MembersText(ms) + rest;
    assert data == MAGIC + (MembersText(ms) + rest) && data[|MAGIC|..] == MembersText(ms) + rest;
  }

  /** After the last member there may be white space, shorter than a header, and nothing else. */
  lemma ShortTail(ms: seq<Member>, tail: string)
    requires (forall m | m in ms :: Writable(m)) && tail != "" && |tail| < 60
    ensures Archive("!<arch>\n" + MembersText(ms) + tail) ==
            if IsWhite(tail) then Ok(AsRead(ms)) else Err(TruncatedHeader)
  {
    hide MembersText, Writable, Archive;
    ArchiveFront(ms, tail);
    assert AsRead(ms) + [] == AsRead(ms);
  }

  /** The last member may lack its padding. */
  lemma PaddingMayLack(ms: seq<Member>, m: Member)
    requires (forall x | x in ms :: Writable(x)) && Writable(m)
    ensures Archive("!<arch>\n" + MembersText(ms) + (Header(m) + m.data)) == Ok(AsRead(ms + [m]))
  {
    hide MembersText, Writable, Archive, Header, StoredName, Members;
    ArchiveFront(ms, Header(m) + m.data);
    OneHeader(m, m.data);
    NoMembers();
    var last := Member(StoredName(m.name), m.data);
    assert m.data[..|m.data|] == m.data && m.data[|m.data|..] == "";
    assert AsRead(ms + [m]) == AsRead(ms) + [last];
    AfterLaws(AsRead(ms), last, Ok([]));
    AfterLaws(AsRead(ms) + [last], last, Ok([]));
  }

  /** A header in front of fewer bytes than it states, or just as many. */
  lemma OneHeader(m: Member, body: string)
    requires Writable(m) && |body| <= |m.data|
    ensures |body| < |m.data| ==> Members(Header(m) + body) == Err(SizeExceedsArchive)
    ensures |body| == |m.data| ==> Members(Header(m) + body) == After([Member(StoredName(m.name), body)], Members(""))
  {
    hide Header, StoredName, ReadHeader, After, Members, IsBlank;
    var data := Header(m) + body;
    assert data[0..HEADER_LENGTH] == Header(m) && data[HEADER_LENGTH..] == body;
    MembersStep(data, 0);
    assert From(data, 0) == data;
    var size := |m.data|;
    if |body| == size {
      WrittenHeader(m, size);
      assert data[HEADER_LENGTH..HEADER_LENGTH + size] == body;
      assert From(data, HEADER_LENGTH + size + size % 2) == "";
    } else {
      ShortOfData(m, |body|);
    }
  }

  lemma ShortOfData(m: Member, available: nat)
    requires Writable(m) && available < |m.data|
    ensures ReadHeader(Header(m), available) == Err(SizeExceedsArchive)
  {
    hide Header, Pad, StoredName;
    HeaderFields(m);
    PaddedNumber(|m.data|, 10);
    WritableExact(m);
    assert Pow10(10) <= MAX_INT64 by {
      assert Pow10(5) == 100000;
    }
    AtoiItoa(|m.data|);
  }

  /** A member that is cut short fails the whole archive. */
  lemma CutShort(ms: seq<Member>, m: Member, body: string)
    requires (forall x | x in ms :: Writable(x)) && Writable(m) && |body| < |m.data|
    ensures Archive("!<arch>\n" + MembersText(ms) + (Header(m) + body)) == Err(SizeExceedsArchive)
  {
    hide MembersText, Writable, Archive, Header, Members;
    ArchiveFront(ms, Header(m) + body);
    OneHeader(m, body);
  }

  /** So does a header that does not end as headers do, or, if it does, that states no size. */
  lemma BadHeader(ms: seq<Member>, front: string, size: string, end: string, body: string)
    requires (forall x | x in ms :: Writable(x)) && |front| == 48 && |size| == 10 && |end| == 2
    ensures end != "`\n" ==> Archive("!<arch>\n" + MembersText(ms) + (front + size + end + body)) == Err(BadHeaderMagic)
    ensures end == "`\n" && Atoi(TrimSpace(size)).None? ==>
              Archive("!<arch>\n" + MembersText(ms) + (front + size + end + body)) == Err(BadSize)
  {
    hide MembersText, Writable, Archive, Atoi, TrimSpace, StoredName;
    var rest := front + size + end + body;
    ArchiveFront(ms, rest);
    assert rest[..60] == front + size + end && rest[..60][48..58] == size && rest[..60][58..60] == end;
  }

  /** What is no archive at all. */
  lemma NoArchive(data: string)
    requires |data| < 8 || data[..8] != "!<arch>\n"
    ensures Archive(data) == Err(BadMagic)
  {
  }

  /** The header that is written. */
  lemma HeaderText(m: Member)
    ensures Header(m) ==
            Pad(m.name, 16) + "0           0     0     100644  " + Pad(Itoa(|m.data|), 10) + "`\n"
    ensures forall n: nat, s: string | |s| <= n ::
              Pad(s, n)[..|s|] == s && forall i :: |s| <= i < n ==> Pad(s, n)[i] == ' '
  {
    hide Itoa, Pad, Blanks;
    assert Pad("0", 12) + Pad("0", 6) + Pad("0", 6) + Pad("100644", 8) == "0           0     0     100644  " by {
      PadIs("0", 12);
      PadIs("0", 6);
      PadIs("100644", 8);
    }
    forall n: nat, s: string | |s| <= n
      ensures Pad(s, n)[..|s|] == s && forall i :: |s| <= i < n ==> Pad(s, n)[i] == ' '
    {
      PadIs(s, n);
    }
  }

  /** What follows it: the data, and a line feed where that is needed for the next member to start at an even offset. */
  lemma MembersAreAligned(ms: seq<Member>)
    requires forall m | m in ms :: Writable(m)
    ensures |"!<arch>\n" + MembersText(ms)| % 2 == 0
    ensures forall m :: MemberText(m) == Header(m) + m.data || MemberText(m) == Header(m) + m.data + "\n"
  {
    hide Header;
    if ms != [] {
      assert ms[0] in ms;
      MembersAreAligned(ms[1..]);
    }
    forall m ensures MemberText(m) == Header(m) + m.data || MemberText(m) == Header(m) + m.data + "\n" {
      assert Header(m) + m.data + "" == Header(m) + m.data;
    }
  }

  lemma PadIs(s: string, n: nat)
    requires |s| <= n
    ensures |Pad(s, n)| == n && Pad(s, n)[..|s|] == s && forall i :: |s| <= i < n ==> Pad(s, n)[i] == ' '
  {
    BlanksAre(n - |s|);
  }

  lemma {:induction false} BlanksAre(n: int)
    ensures forall i :: 0 <= i < |Blanks(n)| ==> Blanks(n)[i] == ' '
  {
    if n > 0 {
      BlanksAre(n - 1);
    }
  }
}
