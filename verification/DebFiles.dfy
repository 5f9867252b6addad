/**
 What of a .deb file counts: the first member whose name begins with control.tar, wherever it stands among the others.
 */
module DebFiles {
  import opened Wrappers
  import opened Text
  import opened Control
  import opened Apt
  import Ar

  predicate IsControlTar(m: Ar.Member) {
    HasPrefix(m.name, "control.tar")
  }

  /** The package that the text of a control file describes. */
  function Described(control: Option<string>): Option<Package> {
    if control.None? then None
    else
      var p := ParseControl(control.value);
      if p.Ok? then Some(p.value) else None
  }

  /** Whatever stands before and after it, the first such member says what package the file holds, and when it cannot be
      read or describes none, the file holds none. */
  lemma FirstControlCounts(t: Tools, before: seq<Ar.Member>, m: Ar.Member, after: seq<Ar.Member>)
    requires forall x | x in before + [m] + after :: Ar.Writable(x)
    requires IsControlTar(m) && forall x | x in before :: !IsControlTar(x)
    ensures ParseDeb(t, "!<arch>\n" + Ar.MembersText(before + [m] + after)) ==
            Described(t.readControl(Ar.StoredName(m.name), m.data))
    ensures m.name[|m.name| - 1] !in [' ', '/'] ==> Ar.StoredName(m.name) == m.name
  {
    hide ParseControl, Ar.StoredName, Ar.Writable, Ar.MembersText, ControlMember, IsControlTar;
    var ms := before + [m] + after;
    AsRead(t, ms);
    var x, y, z := Ar.AsRead(before), Ar.AsRead([m]), Ar.AsRead(after);
    assert Ar.AsRead(ms) == x + (y + z);
    forall r | r in x ensures !IsControlTar(r) {
      var k :| 0 <= k < |x| && x[k] == r;
      assert before[k] in before;
      StoredAsItIs(before[k]);
    }
    OthersSkipped(t, x, y + z);
    StoredAsItIs(m);
    ControlTaken(t, y + z);
    LongName(m);
    Ar.StoredNameExact(m.name);
  }

  /** A file without such a member holds no package. */
  lemma NoControl(t: Tools, ms: seq<Ar.Member>)
    requires forall x | x in ms :: Ar.Writable(x) && !IsControlTar(x)
    ensures ParseDeb(t, "!<arch>\n" + Ar.MembersText(ms)) == None
  {
    hide Ar.StoredName, Ar.Writable, Ar.MembersText, ControlMember, IsControlTar;
    AsRead(t, ms);
    var x := Ar.AsRead(ms);
    forall r | r in x ensures !IsControlTar(r) {
      var k :| 0 <= k < |x| && x[k] == r;
      assert ms[k] in ms;
      StoredAsItIs(ms[k]);
    }
    OthersSkipped(t, x, []);
    assert x + [] == x;
    NoneLeft(t);
  }

  lemma NoneLeft(t: Tools)
    ensures ControlMember(t, []) == None
  {
  }

  lemma AsRead(t: Tools, ms: seq<Ar.Member>)
    requires forall x | x in ms :: Ar.Writable(x)
    ensures ParseDeb(t, "!<arch>\n" + Ar.MembersText(ms)) == ControlMember(t, Ar.AsRead(ms))
  {
    hide Ar.Writable, Ar.MembersText, Ar.Members, ControlMember;
    Ar.ReadWritten(ms);
    assert (Ar.MAGIC + Ar.MembersText(ms))[|Ar.MAGIC|..] == Ar.MembersText(ms);
  }

  lemma {:induction false} OthersSkipped(t: Tools, before: seq<Ar.Member>, rest: seq<Ar.Member>)
    requires forall x | x in before :: !IsControlTar(x)
    ensures ControlMember(t, before + rest) == ControlMember(t, rest)
  {
    hide ParseControl;
    if before == [] {
      assert before + rest == rest;
    } else {
      assert before[0] in before && (before + rest)[1..] == before[1..] + rest;
      OthersSkipped(t, before[1..], rest);
    }
  }

  lemma ControlTaken(t: Tools, ms: seq<Ar.Member>)
    requires ms != [] && IsControlTar(ms[0])
    ensures ControlMember(t, ms) == Described(t.readControl(ms[0].name, ms[0].data))
  {
    hide ParseControl;
  }

  lemma LongName(m: Ar.Member)
    requires IsControlTar(m)
    ensures m.name != ""
  {
  }

  /** The blanks and the slash that reading takes off a name do not make it another kind of member. */
  lemma StoredAsItIs(m: Ar.Member)
    ensures IsControlTar(Ar.Member(Ar.StoredName(m.name), m.data)) <==> IsControlTar(m)
  {
    hide TrimRightBlanks;
    TrimmedFront(m.name, "control.tar");
    var p, s := "control.tar", TrimRightBlanks(m.name);
    if HasPrefix(s, p) && HasSuffix(s, "/") {
      assert s[|s| - 1] == '/' && p[|p| - 1] == s[|p| - 1];
    }
  }

  lemma {:induction false} TrimmedFront(s: string, p: string)
    requires p != "" && p[|p| - 1] != ' '
    ensures TrimRightBlanks(s) <= s
    ensures HasPrefix(TrimRightBlanks(s), p) <==> HasPrefix(s, p)
  {
    if s != "" && s[|s| - 1] == ' ' {
      TrimmedFront(s[..|s| - 1], p);
    }
  }
}
