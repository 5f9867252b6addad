/**
 Byte strings and the few functions of Go's `strings` package that the repository uses.
 A byte is a `char`; every statement holds for all characters, in particular for the 256 bytes.
 */
module Text {

  predicate HasPrefix(s: string, p: string) {
    p <= s
  }

  predicate HasSuffix(s: string, p: string) {
    |p| <= |s| && s[|s| - |p|..] == p
  }

  function TrimPrefix(s: string, p: string): string {
    if p <= s then s[|p|..] else s
  }

  function TrimSuffix(s: string, p: string): string {
    if HasSuffix(s, p) then s[..|s| - |p|] else s
  }

  /** The first position of c, or -1. */
  function IndexByte(s: string, c: char): (i: int)
    ensures -1 <= i < |s|
    ensures i >= 0 ==> s[i] == c && c !in s[..i]
    ensures i < 0 <==> c !in s
  {
    if s == "" then -1
    else if s[0] == c then 0
    else
      var k := IndexByte(s[1..], c);
      if k < 0 then -1 else k + 1
  }

  /** The last position of c, or -1. */
  function LastIndexByte(s: string, c: char): (i: int)
    ensures -1 <= i < |s|
    ensures i >= 0 ==> s[i] == c && c !in s[i + 1..]
    ensures i < 0 <==> c !in s
  {
    if s == "" then -1
    else if s[|s| - 1] == c then |s| - 1
    else LastIndexByte(s[..|s| - 1], c)
  }

  /** The ASCII white space of `strings.TrimSpace`. */
  predicate IsSpace(c: char) {
    c == ' ' || '\t' <= c <= '\r'
  }

  /** Whether `strings.TrimSpace` leaves nothing of s. */
  predicate IsBlank(s: string) {
    forall i :: 0 <= i < |s| ==> IsSpace(s[i])
  }

  function TrimLeftSpace(s: string): string {
    if s != "" && IsSpace(s[0]) then TrimLeftSpace(s[1..]) else s
  }

  function TrimRightSpace(s: string): string {
    if s != "" && IsSpace(s[|s| - 1]) then TrimRightSpace(s[..|s| - 1]) else s
  }

  function TrimSpace(s: string): string {
    TrimRightSpace(TrimLeftSpace(s))
  }

  /** `strings.TrimRight(s, " ")`. */
  function TrimRightBlanks(s: string): string {
    if s != "" && s[|s| - 1] == ' ' then TrimRightBlanks(s[..|s| - 1]) else s
  }

  function LowerChar(c: char): char {
    if 'A' <= c <= 'Z' then c + 32 as char else c
  }

  function ToLower(s: string): (r: string)
    ensures |r| == |s|
  {
    if s == "" then "" else [LowerChar(s[0])] + ToLower(s[1..])
  }

  /** `strings.EqualFold` on ASCII strings. */
  predicate EqualFold(s: string, t: string) {
    |s| == |t| && forall i :: 0 <= i < |s| ==> LowerChar(s[i]) == LowerChar(t[i])
  }

  /** `strings.Split(s, sep)` for a one-byte separator: the pieces between separators. */
  function Split(s: string, sep: char): (parts: seq<string>)
    ensures |parts| >= 1
  {
    var i := IndexByte(s, sep);
    if i < 0 then [s] else [s[..i]] + Split(s[i + 1..], sep)
  }

  /** `strings.Join(parts, sep)` for a one-byte separator. */
  function Join(parts: seq<string>, sep: char): string {
    if |parts| == 0 then ""
    else if |parts| == 1 then parts[0]
    else parts[0] + [sep] + Join(parts[1..], sep)
  }

  /** `strings.Compare`: -1, 0 or 1 in byte order, a proper prefix being smaller. */
  function Compare(s: string, t: string): (r: int)
    ensures -1 <= r <= 1
    ensures r == 0 <==> s == t
  {
    if s == "" && t == "" then 0
    else if s == "" then -1
    else if t == "" then 1
    else if s[0] < t[0] then -1
    else if s[0] > t[0] then 1
    else
      assert s == [s[0]] + s[1..] && t == [t[0]] + t[1..];
      Compare(s[1..], t[1..])
  }

  /** The first byte that differs decides, and the end comes before every byte. */
  lemma {:induction false} CompareFirstDifference(p: string, c: char, x: string, d: char, y: string)
    ensures c < d ==> Compare(p + [c] + x, p + [d] + y) == -1
    ensures Compare(p, p + [c] + x) == -1
  {
    if p != "" {
      CompareFirstDifference(p[1..], c, x, d, y);
      assert (p + [c] + x)[1..] == p[1..] + [c] + x && (p + [d] + y)[1..] == p[1..] + [d] + y;
    }
  }

  lemma {:induction false} CompareAntisymmetric(s: string, t: string)
    ensures Compare(s, t) == -Compare(t, s)
    decreases |s|
  {
    if s != "" && t != "" {
      CompareAntisymmetric(s[1..], t[1..]);
    }
  }

  lemma {:induction false} CompareTransitive(s: string, t: string, u: string)
    requires Compare(s, t) <= 0 && Compare(t, u) <= 0
    ensures Compare(s, u) <= 0
    decreases |s|
  {
    if s != "" && t != "" && u != "" && s[0] == t[0] == u[0] {
      CompareTransitive(s[1..], t[1..], u[1..]);
    }
  }

  /** Tabs, line and page breaks, carriage returns and blanks only, by their bytes. */
  predicate IsWhite(s: string) {
    forall i :: 0 <= i < |s| ==> s[i] == ' ' || 9 <= s[i] as int <= 13
  }

  /** White space at both ends goes, and none that stands within. */
  lemma TrimSpaceExact(before: string, s: string, after: string)
    requires IsWhite(before) && IsWhite(after)
    requires s == "" || (!IsWhite(s[..1]) && !IsWhite(s[|s| - 1..]))
    ensures TrimSpace(before + s + after) == s
  {
    assert before + s + after == before + (s + after);
    if s == "" {
      TrimLeftWhite(before, after);
      TrimLeftWhite(after, "");
      TrimRightWhite("", after);
      assert s + after == after && after + "" == after && "" + after == after;
    } else {
      TrimLeftWhite(before, s + after);
      TrimRightWhite(s, after);
    }
  }

  lemma {:induction false} TrimLeftWhite(before: string, s: string)
    requires IsWhite(before)
    ensures TrimLeftSpace(before + s) == TrimLeftSpace(s)
  {
    if before == "" {
      assert before + s == s;
    } else {
      assert (before + s)[1..] == before[1..] + s;
      TrimLeftWhite(before[1..], s);
    }
  }

  lemma {:induction false} TrimRightWhite(s: string, after: string)
    requires IsWhite(after)
    ensures TrimRightSpace(s + after) == TrimRightSpace(s)
    decreases |after|
  {
    var n := |after|;
    if after == "" {
      assert s + after == s;
    } else {
      assert (s + after)[..|s| + n - 1] == s + after[..n - 1];
      TrimRightWhite(s, after[..n - 1]);
    }
  }

  lemma Assoc(s: string, t: string, u: string)
    ensures (s + t) + u == s + (t + u)
  {
  }

  /** Two strings cut at their first separator agree piece by piece. */
  lemma CutInjective(u: string, x: string, v: string, y: string, sep: char)
    requires sep !in u && sep !in v
    requires u + [sep] + x == v + [sep] + y
    ensures u == v && x == y
  {
    var s := u + [sep] + x;
    var t := v + [sep] + y;
    assert s[|u|] == sep && t[|v|] == sep;
    assert forall k :: 0 <= k < |u| ==> s[k] == u[k] && u[k] != sep;
    assert forall k :: 0 <= k < |v| ==> t[k] == v[k] && v[k] != sep;
    assert |u| == |v|;
    assert u == s[..|u|] && v == t[..|v|];
    assert x == s[|u| + 1..] && y == t[|v| + 1..];
  }

  /** Two strings cut at their last separator agree piece by piece. */
  lemma CutLastInjective(x: string, u: string, y: string, v: string, sep: char)
    requires sep !in u && sep !in v
    requires x + [sep] + u == y + [sep] + v
    ensures x == y && u == v
  {
    var s := x + [sep] + u;
    var t := y + [sep] + v;
    assert |x| + |u| == |y| + |v|;
    assert s[|x|] == sep && t[|y|] == sep;
    assert forall k :: |x| < k < |s| ==> s[k] == u[k - |x| - 1] && s[k] != sep;
    assert forall k :: |y| < k < |t| ==> t[k] == v[k - |y| - 1] && t[k] != sep;
    assert |x| == |y|;
    assert x == s[..|x|] && y == t[..|y|];
    assert u == s[|x| + 1..] && v == t[|y| + 1..];
  }

  /** Cutting at the first separator finds exactly the prefix that has none. */
  lemma IndexOfCut(u: string, x: string, sep: char)
    requires sep !in u
    ensures IndexByte(u + [sep] + x, sep) == |u|
  {
    var s := u + [sep] + x;
    var i := IndexByte(s, sep);
    assert s[|u|] == sep;
    assert forall k :: 0 <= k < |u| ==> s[k] == u[k] && u[k] != sep;
    assert s == s[..i] + [sep] + s[i + 1..];
    CutInjective(u, x, s[..i], s[i + 1..], sep);
  }

  lemma {:induction false} SplitOfCut(u: string, x: string, sep: char)
    requires sep !in u
    ensures Split(u + [sep] + x, sep) == [u] + Split(x, sep)
  {
    IndexOfCut(u, x, sep);
    var s := u + [sep] + x;
    assert s[..|u|] == u && s[|u| + 1..] == x;
  }

  /** Split undoes Join on pieces without the separator. */
  lemma {:induction false} SplitJoin(parts: seq<string>, sep: char)
    requires |parts| >= 1
    requires forall i :: 0 <= i < |parts| ==> sep !in parts[i]
    ensures Split(Join(parts, sep), sep) == parts
  {
    if |parts| == 1 {
      assert parts == [parts[0]];
    } else {
      SplitJoin(parts[1..], sep);
      SplitOfCut(parts[0], Join(parts[1..], sep), sep);
      assert parts == [parts[0]] + parts[1..];
    }
  }
}
