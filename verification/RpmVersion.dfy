/**
 The RPM version order of internal/rpm/version.go, and the printers of internal/rpm/metadata.go it depends on.
 The segment walk is proved equal to a lexicographic comparison of token lists.
 */
module RpmVersion {
  import opened Wrappers
  import opened Numbers
  import opened Lexicographic
  import Text

  // ----- the normal form

  /** What a version is made of, in increasing order. End is where a token list has stopped. */
  datatype Token = Tilde | End | Caret | Alpha(text: string) | Num(value: int)

  predicate IsAlpha(c: char) {
    'a' <= c <= 'z' || 'A' <= c <= 'Z'
  }

  predicate IsAlnum(c: char) {
    IsDigit(c) || IsAlpha(c)
  }

  predicate IsSeparator(c: char) {
    !IsAlnum(c) && c != '~' && c != '^'
  }

  /** The length of the leading run of letters. */
  function AlphaRun(s: string): (n: nat)
    ensures n <= |s|
    ensures forall k :: 0 <= k < n ==> IsAlpha(s[k])
    ensures n < |s| ==> !IsAlpha(s[n])
  {
    if s == "" || !IsAlpha(s[0]) then 0 else 1 + AlphaRun(s[1..])
  }

  /** The length of the token at the front. */
  function TokenLength(s: string): (n: nat)
    requires s != "" && !IsSeparator(s[0])
    ensures 0 < n <= |s|
  {
    if IsDigit(s[0]) then Digits(s) else if IsAlpha(s[0]) then AlphaRun(s) else 1
  }

  function FirstToken(s: string): (t: Token)
    requires s != "" && !IsSeparator(s[0])
    ensures t != End
  {
    if s[0] == '~' then Tilde
    else if s[0] == '^' then Caret
    else if IsDigit(s[0]) then Num(Value(s[..TokenLength(s)]))
    else Alpha(s[..TokenLength(s)])
  }

  /** Separators only keep tokens apart. */
  function Tokens(s: string): (ts: seq<Token>)
    ensures End !in ts
  {
    if s == "" then []
    else if IsSeparator(s[0]) then Tokens(s[1..])
    else [FirstToken(s)] + Tokens(s[TokenLength(s)..])
  }

  function Rank(t: Token): int {
    match t
    case Tilde => 0
    case End => 1
    case Caret => 2
    case Alpha(_) => 3
    case Num(_) => 4
  }

  function TokenOrder(x: Token, y: Token): int {
    if x.Alpha? && y.Alpha? then Text.Compare(x.text, y.text)
    else if x.Num? && y.Num? then Sign(x.value - y.value)
    else Sign(Rank(x) - Rank(y))
  }

  /** What `vercmp` computes: token lists compared token by token. */
  function ComponentOrder(a: string, b: string): int {
    Padded(Tokens(a), Tokens(b), End, TokenOrder)
  }

  lemma TokenOrderIsTotal()
    ensures TotalOrder(TokenOrder)
  {
    hide Text.Compare;
    forall x: Token, y: Token
      ensures TokenOrder(x, y) == -TokenOrder(y, x)
    {
      if x.Alpha? && y.Alpha? {
        Text.CompareAntisymmetric(x.text, y.text);
      }
    }
    forall x: Token, y: Token, z: Token | TokenOrder(x, y) <= 0 && TokenOrder(y, z) <= 0
      ensures TokenOrder(x, z) <= 0
    {
      if x.Alpha? && y.Alpha? && z.Alpha? {
        Text.CompareTransitive(x.text, y.text, z.text);
      }
    }
  }

  // ----- vercmp

  lemma OrderStep(a: string, b: string)
    requires a != "" && !IsSeparator(a[0])
    requires b != "" && !IsSeparator(b[0])
    ensures var c := TokenOrder(FirstToken(a), FirstToken(b));
            ComponentOrder(a, b) == if c != 0 then c else ComponentOrder(a[TokenLength(a)..], b[TokenLength(b)..])
  {
    hide FirstToken, TokenOrder, TokenLength;
  }

  /** When only one side is left, its first token against the end decides. */
  lemma OrderAtEnd(a: string, b: string)
    requires a != "" ==> !IsSeparator(a[0])
    requires b != "" ==> !IsSeparator(b[0])
    requires a == "" || b == ""
    ensures ComponentOrder(a, b) ==
            if a == "" && b == "" then 0
            else if a == "" then Sign(1 - Rank(FirstToken(b)))
            else Sign(Rank(FirstToken(a)) - 1)
  {
    hide FirstToken, TokenLength;
  }

  /** Where separators that start at i end; what follows them is what the whole is made of. */
  method SkipSeparators(s: string, i: nat) returns (k: nat)
    requires i <= |s|
    ensures i <= k <= |s| && (k < |s| ==> !IsSeparator(s[k]))
    ensures Tokens(s[i..]) == Tokens(s[k..])
  {
    hide Tokens;
    k := i;
    while k < |s| && !IsAlnum(s[k]) && s[k] != '~' && s[k] != '^'
      invariant i <= k <= |s|
      invariant Tokens(s[i..]) == Tokens(s[k..])
    {
      TokensSkip(s, k);
      k := k + 1;
    }
  }

  lemma TokensSkip(s: string, k: nat)
    requires k < |s| && IsSeparator(s[k])
    ensures Tokens(s[k..]) == Tokens(s[k + 1..])
  {
    hide FirstToken, TokenLength;
    assert s[k..][1..] == s[k + 1..];
  }

  lemma SameTokens(a: string, b: string, a': string, b': string)
    requires Tokens(a) == Tokens(a') && Tokens(b) == Tokens(b')
    ensures ComponentOrder(a, b) == ComponentOrder(a', b')
  {
  }

  /** `compareTilde`: whether a tilde is involved, and the result if that decides. */
  function CompareTilde(a: string, i: nat, b: string, j: nat): (r: (int, bool))
    requires i <= |a| && j <= |b|
  {
    var aTilde := i < |a| && a[i] == '~';
    var bTilde := j < |b| && b[j] == '~';
    if !aTilde && !bTilde then (0, false)
    else if !aTilde then (1, true)
    else if !bTilde then (-1, true)
    else (0, true)
  }

  /** `compareCaret`: whether a caret is involved, and the result if that decides. */
  function CompareCaret(a: string, i: nat, b: string, j: nat): (r: (int, bool))
    requires i <= |a| && j <= |b|
  {
    var aCaret := i < |a| && a[i] == '^';
    var bCaret := j < |b| && b[j] == '^';
    if !aCaret && !bCaret then (0, false)
    else if i >= |a| then (-1, true)
    else if j >= |b| then (1, true)
    else if !aCaret then (1, true)
    else if !bCaret then (-1, true)
    else (0, true)
  }

  /** What a matched tilde or caret says is the order of what remains, or the order after it. */
  predicate MarkDecides(a: string, i: nat, b: string, j: nat, r: int)
    requires i <= |a| && j <= |b|
  {
    if r != 0 then ComponentOrder(a[i..], b[j..]) == r
    else i < |a| && j < |b| && ComponentOrder(a[i..], b[j..]) == ComponentOrder(a[i + 1..], b[j + 1..])
  }

  lemma MarkStep(a: string, i: nat, b: string, j: nat)
    requires i <= |a| && j <= |b|
    requires i < |a| ==> !IsSeparator(a[i])
    requires j < |b| ==> !IsSeparator(b[j])
    ensures CompareTilde(a, i, b, j).1 ==> MarkDecides(a, i, b, j, CompareTilde(a, i, b, j).0)
    ensures !CompareTilde(a, i, b, j).1 && CompareCaret(a, i, b, j).1 ==>
              MarkDecides(a, i, b, j, CompareCaret(a, i, b, j).0)
  {
    hide ComponentOrder;
    var x, y := a[i..], b[j..];
    if x == "" || y == "" {
      OrderAtEnd(x, y);
    } else {
      OrderStep(x, y);
      if x[0] == y[0] && (x[0] == '~' || x[0] == '^') {
        assert x[1..] == a[i + 1..] && y[1..] == b[j + 1..];
      }
    }
  }

  /** `compareSegment`: the two tokens compared, the kind of run being read off the first side only. */
  method CompareSegment(a: string, i: nat, b: string, j: nat) returns (ni: nat, nj: nat, r: int)
    requires i < |a| && IsAlnum(a[i])
    requires j < |b| && IsAlnum(b[j])
    ensures r == TokenOrder(FirstToken(a[i..]), FirstToken(b[j..]))
    ensures r == 0 ==> ni == i + TokenLength(a[i..]) && nj == j + TokenLength(b[j..])
  {
    hide TokenLength, FirstToken, TokenOrder, Digits, AlphaRun, TrimZeros, Text.Compare, AllDigitsFrom, AllAlphaFrom;
    ni, nj := i, j;
    EmptyRuns(a, i);
    EmptyRuns(b, j);
    var isNum := IsDigit(a[i]);
    if isNum {
      while ni < |a| && IsDigit(a[ni])
        invariant i <= ni <= |a| && AllDigitsFrom(a, i, ni)
      {
        LongerRuns(a, i, ni);
        ni := ni + 1;
      }
      while nj < |b| && IsDigit(b[nj])
        invariant j <= nj <= |b| && AllDigitsFrom(b, j, nj)
      {
        LongerRuns(b, j, nj);
        nj := nj + 1;
      }
      DigitRunIs(a, i, ni);
      DigitRunIs(b, j, nj);
    } else {
      while ni < |a| && IsAlpha(a[ni])
        invariant i <= ni <= |a| && AllAlphaFrom(a, i, ni)
      {
        LongerRuns(a, i, ni);
        ni := ni + 1;
      }
      while nj < |b| && IsAlpha(b[nj])
        invariant j <= nj <= |b| && AllAlphaFrom(b, j, nj)
      {
        LongerRuns(b, j, nj);
        nj := nj + 1;
      }
      AlphaRunIs(a, i, ni);
      AlphaRunIs(b, j, nj);
    }
    var segA, segB := a[i..ni], b[j..nj];
    SegmentsCompare(a, i, ni, b, j, nj, isNum);
    if |segB| == 0 {
      return ni, nj, if isNum then 1 else -1;
    }
    if isNum {
      segA, segB := TrimZeros(segA), TrimZeros(segB);
      if |segA| != |segB| {
        return ni, nj, if |segA| > |segB| then 1 else -1;
      }
    }
    r := Text.Compare(segA, segB);
  }

  ghost predicate AllDigitsFrom(s: string, i: nat, e: nat)
    requires i <= e <= |s|
  {
    forall k :: i <= k < e ==> IsDigit(s[k])
  }

  ghost predicate AllAlphaFrom(s: string, i: nat, e: nat)
    requires i <= e <= |s|
  {
    forall k :: i <= k < e ==> IsAlpha(s[k])
  }

  lemma EmptyRuns(s: string, i: nat)
    requires i <= |s|
    ensures AllDigitsFrom(s, i, i) && AllAlphaFrom(s, i, i)
  {
  }

  lemma LongerRuns(s: string, i: nat, e: nat)
    requires i <= e < |s|
    ensures AllDigitsFrom(s, i, e) && IsDigit(s[e]) ==> AllDigitsFrom(s, i, e + 1)
    ensures AllAlphaFrom(s, i, e) && IsAlpha(s[e]) ==> AllAlphaFrom(s, i, e + 1)
  {
  }

  lemma DigitRunIs(s: string, i: nat, e: nat)
    requires i <= e <= |s| && AllDigitsFrom(s, i, e)
    requires e < |s| ==> !IsDigit(s[e])
    ensures Digits(s[i..]) == e - i
  {
    hide Digits;
    var t, d := s[i..], Digits(s[i..]);
    assert forall k :: 0 <= k < d ==> IsDigit(t[..d][k]) && t[..d][k] == t[k];
    assert forall k :: 0 <= k < |t| ==> t[k] == s[i + k];
  }

  lemma AlphaRunIs(s: string, i: nat, e: nat)
    requires i <= e <= |s| && AllAlphaFrom(s, i, e)
    requires e < |s| ==> !IsAlpha(s[e])
    ensures AlphaRun(s[i..]) == e - i
  {
    hide AlphaRun;
    var t, d := s[i..], AlphaRun(s[i..]);
    assert forall k :: 0 <= k < |t| ==> t[k] == s[i + k];
  }

  /** The run of digits, or of letters, from i to e is the first token there. */
  lemma RunToken(s: string, i: nat, e: nat, isNum: bool)
    requires i < e <= |s|
    requires isNum ==> IsDigit(s[i]) && Digits(s[i..]) == e - i
    requires !isNum ==> IsAlpha(s[i]) && AlphaRun(s[i..]) == e - i
    ensures TokenLength(s[i..]) == e - i
    ensures FirstToken(s[i..]) == if isNum then Num(Value(s[i..e])) else Alpha(s[i..e])
  {
    hide Digits, AlphaRun, Value;
    assert s[i..][..e - i] == s[i..e];
  }

  /** The first token of a is the run up to ni; that of b the run up to nj, or of the other kind if that is empty. */
  lemma SegmentsCompare(a: string, i: nat, ni: nat, b: string, j: nat, nj: nat, isNum: bool)
    requires i < ni <= |a| && IsAlnum(a[i]) && IsDigit(a[i]) == isNum && j <= nj <= |b| && j < |b| && IsAlnum(b[j])
    requires if isNum then Digits(a[i..]) == ni - i && Digits(b[j..]) == nj - j
             else AlphaRun(a[i..]) == ni - i && AlphaRun(b[j..]) == nj - j
    ensures var c := TokenOrder(FirstToken(a[i..]), FirstToken(b[j..])); var segA, segB := a[i..ni], b[j..nj];
            && TokenLength(a[i..]) == ni - i && (nj > j ==> TokenLength(b[j..]) == nj - j)
            && c == if nj == j then (if isNum then 1 else -1)
                    else if !isNum then Text.Compare(segA, segB)
                    else if |TrimZeros(segA)| != |TrimZeros(segB)|
                    then (if |TrimZeros(segA)| > |TrimZeros(segB)| then 1 else -1)
                    else Text.Compare(TrimZeros(segA), TrimZeros(segB))
  {
    hide TokenLength, FirstToken, Digits, AlphaRun, Value, TrimZeros, Text.Compare;
    RunToken(a, i, ni, isNum);
    if nj == j {
      EmptyRun(b, j, isNum);
      OtherKind(b, j, isNum);
    } else {
      StartOfRun(b, j, isNum);
      RunToken(b, j, nj, isNum);
      if isNum {
        DigitsInRun(a, i, ni);
        DigitsInRun(b, j, nj);
        NumericOrder(a[i..ni], b[j..nj]);
      }
    }
  }

  lemma EmptyRun(s: string, i: nat, isNum: bool)
    requires i < |s| && IsAlnum(s[i]) && (if isNum then Digits(s[i..]) == 0 else AlphaRun(s[i..]) == 0)
    ensures IsDigit(s[i]) == !isNum
  {
  }

  lemma StartOfRun(s: string, i: nat, isNum: bool)
    requires i < |s| && (if isNum then Digits(s[i..]) > 0 else AlphaRun(s[i..]) > 0)
    ensures if isNum then IsDigit(s[i]) else IsAlpha(s[i])
  {
  }

  lemma DigitsInRun(s: string, i: nat, e: nat)
    requires i <= e <= |s| && Digits(s[i..]) == e - i
    ensures AllDigits(s[i..e])
  {
    hide Digits;
    assert s[i..][..e - i] == s[i..e];
  }

  lemma OtherKind(s: string, i: nat, isNum: bool)
    requires i < |s| && IsAlnum(s[i]) && IsDigit(s[i]) == !isNum
    ensures if isNum then FirstToken(s[i..]).Alpha? else FirstToken(s[i..]).Num?
  {
    hide TokenLength, Value;
  }

  /** Zeros trimmed, the longer run of digits is larger, and equally long ones compare byte by byte. */
  lemma NumericOrder(s: string, t: string)
    requires AllDigits(s) && AllDigits(t)
    ensures var u, v := TrimZeros(s), TrimZeros(t);
            Sign(Value(s) - Value(t)) ==
            if |u| != |v| then (if |u| > |v| then 1 else -1) else Text.Compare(u, v)
  {
    hide Value, TrimZeros, Text.Compare;
    var u, v := TrimZeros(s), TrimZeros(t);
    ValueOfTrimZeros(s);
    ValueOfTrimZeros(t);
    if |u| > |v| {
      LongerIsLarger(u, v);
    } else if |u| < |v| {
      LongerIsLarger(v, u);
    } else {
      ByteOrderIsNumeric(u, v);
    }
  }

  function EndResult(a: string, i: nat, b: string, j: nat): int {
    if i >= |a| && j >= |b| then 0 else if i >= |a| then -1 else 1
  }

  lemma EndResultIs(a: string, i: nat, b: string, j: nat)
    requires i <= |a| && j <= |b| && (i == |a| || j == |b|)
    requires i < |a| ==> IsAlnum(a[i])
    requires j < |b| ==> IsAlnum(b[j])
    ensures EndResult(a, i, b, j) == ComponentOrder(a[i..], b[j..])
  {
    hide ComponentOrder, TokenLength;
    OrderAtEnd(a[i..], b[j..]);
  }

  lemma SegmentStep(a: string, i: nat, b: string, j: nat)
    requires i < |a| && IsAlnum(a[i])
    requires j < |b| && IsAlnum(b[j])
    ensures var c := TokenOrder(FirstToken(a[i..]), FirstToken(b[j..]));
            var na, nb := i + TokenLength(a[i..]), j + TokenLength(b[j..]);
            na <= |a| && nb <= |b| &&
            ComponentOrder(a[i..], b[j..]) == if c != 0 then c else ComponentOrder(a[na..], b[nb..])
  {
    hide ComponentOrder, FirstToken, TokenLength, TokenOrder;
    OrderStep(a[i..], b[j..]);
    var la, lb := TokenLength(a[i..]), TokenLength(b[j..]);
    assert a[i..][la..] == a[i + la..] && b[j..][lb..] == b[j + lb..];
  }

  /** The comparison of two versions or releases, as the source does it with two moving indices. */
  method VerCmp(a: string, b: string) returns (r: int)
    ensures r == ComponentOrder(a, b)
  {
    hide ComponentOrder, Tokens, TokenOrder, FirstToken, TokenLength;
    ComponentOrderZero(a, b);
    if a == b {
      return 0;
    }
    ghost var goal := ComponentOrder(a, b);
    assert a[0..] == a && b[0..] == b;
    var i: nat, j: nat := 0, 0;
    while i < |a| || j < |b|
      invariant i <= |a| && j <= |b|
      invariant ComponentOrder(a[i..], b[j..]) == goal
      decreases |a| - i + |b| - j
    {
      var si := SkipSeparators(a, i);
      var sj := SkipSeparators(b, j);
      SameTokens(a[i..], b[j..], a[si..], b[sj..]);
      i, j := si, sj;

      MarkStep(a, i, b, j);
      var (tilde, tildeMatched) := CompareTilde(a, i, b, j);
      if tildeMatched {
        if tilde != 0 {
          return tilde;
        }
        i, j := i + 1, j + 1;
        continue;
      }
      var (caret, caretMatched) := CompareCaret(a, i, b, j);
      if caretMatched {
        if caret != 0 {
          return caret;
        }
        i, j := i + 1, j + 1;
        continue;
      }
      if i >= |a| || j >= |b| {
        EndResultIs(a, i, b, j);
        break;
      }
      SegmentStep(a, i, b, j);
      var ni, nj, c := CompareSegment(a, i, b, j);
      if c != 0 {
        return c;
      }
      i, j := ni, nj;
    }
    if i == |a| && j == |b| {
      EndResultIs(a, i, b, j);
    }
    return EndResult(a, i, b, j);
  }

  /** vercmp is 0 exactly when the token lists agree. */
  lemma ComponentOrderZero(a: string, b: string)
    ensures ComponentOrder(a, b) == 0 <==> Tokens(a) == Tokens(b)
  {
    hide Tokens, TokenOrder, Padded;
    TokenOrderIsTotal();
    PaddedZero(Tokens(a), Tokens(b), End, TokenOrder);
    NoEnd(Tokens(a));
    NoEnd(Tokens(b));
  }

  // ----- what comes before what

  /** Where a string may be cut: not inside a run of digits, nor inside a run of letters. */
  predicate Apart(s: string, x: string) {
    s == "" || x == "" ||
    (var c, d := s[|s| - 1], x[0]; !(IsDigit(c) && IsDigit(d)) && !(IsAlpha(c) && IsAlpha(d)))
  }

  /** What comes before and after such a cut is read on its own. */
  lemma {:induction false} TokensConcat(s: string, x: string)
    requires Apart(s, x)
    ensures Tokens(s + x) == Tokens(s) + Tokens(x)
    decreases |s|
  {
    hide FirstToken, TokenLength;
    var u := s + x;
    if s == "" {
      assert u == x;
    } else if IsSeparator(s[0]) {
      assert u[1..] == s[1..] + x;
      TokensConcat(s[1..], x);
    } else {
      var n := TokenLength(s);
      TokenStops(s, x);
      assert u[n..] == s[n..] + x;
      TokensConcat(s[n..], x);
      TokensStep(u);
      TokensStep(s);
      assert [FirstToken(s)] + (Tokens(s[n..]) + Tokens(x)) == ([FirstToken(s)] + Tokens(s[n..])) + Tokens(x);
    }
  }

  lemma TokensStep(s: string)
    requires s != "" && !IsSeparator(s[0])
    ensures Tokens(s) == [FirstToken(s)] + Tokens(s[TokenLength(s)..])
  {
    hide TokenLength, FirstToken;
  }

  /** A token ends where the string may be cut. */
  lemma TokenStops(s: string, x: string)
    requires s != "" && !IsSeparator(s[0]) && Apart(s, x)
    ensures TokenLength(s + x) == TokenLength(s) && FirstToken(s + x) == FirstToken(s)
  {
    hide Value;
    var u := s + x;
    if IsDigit(s[0]) {
      DigitsStop(s, x);
    } else if IsAlpha(s[0]) {
      LettersStop(s, x);
    }
    assert u[0] == s[0] && u[..TokenLength(s)] == s[..TokenLength(s)];
  }

  lemma DigitsStop(s: string, x: string)
    requires s != "" && IsDigit(s[0]) && Apart(s, x)
    ensures Digits(s + x) == Digits(s)
  {
    hide Digits;
    var u, d := s + x, Digits(s);
    assert forall k :: 0 <= k < d ==> IsDigit(s[..d][k]) && s[..d][k] == s[k];
    assert AllDigitsFrom(u, 0, d);
    assert d < |s| ==> u[d] == s[d];
    assert d == |s| ==> IsDigit(s[|s| - 1]) && (x != "" ==> u[d] == x[0]);
    assert u[0..] == u;
    DigitRunIs(u, 0, d);
  }

  lemma LettersStop(s: string, x: string)
    requires s != "" && IsAlpha(s[0]) && Apart(s, x)
    ensures AlphaRun(s + x) == AlphaRun(s)
  {
    hide AlphaRun;
    var u, n := s + x, AlphaRun(s);
    assert AllAlphaFrom(u, 0, n);
    assert n < |s| ==> u[n] == s[n];
    assert n == |s| ==> IsAlpha(s[|s| - 1]) && (x != "" ==> u[n] == x[0]);
    assert u[0..] == u;
    AlphaRunIs(u, 0, n);
  }

  /** What two components begin with alike does not matter, unless a run is cut in two. */
  lemma CommonFront(s: string, x: string, y: string)
    requires Apart(s, x) && Apart(s, y)
    ensures ComponentOrder(s + x, s + y) == ComponentOrder(x, y)
  {
    hide Tokens, TokenOrder;
    TokensConcat(s, x);
    TokensConcat(s, y);
    TokenOrderIsTotal();
    PaddedFront(Tokens(s), Tokens(x), Tokens(y), End, TokenOrder);
  }

  /** A component that starts with a separator is the same without it. */
  lemma SeparatorDropped(c: char, s: string, b: string)
    requires IsSeparator(c)
    ensures ComponentOrder([c] + s, b) == ComponentOrder(s, b) && ComponentOrder(b, [c] + s) == ComponentOrder(b, s)
  {
    assert ([c] + s)[1..] == s;
  }

  /** A tilde comes before everything, the end included. */
  lemma TildeComesFirst(s: string, t: string, c: char, u: string)
    ensures ComponentOrder(s + "~" + t, s) == -1
    ensures ComponentOrder(s + "~" + t, s + "^" + u) == -1
    ensures 'a' <= c <= 'z' || 'A' <= c <= 'Z' || '0' <= c <= '9' ==>
              ComponentOrder(s + "~" + t, s + "." + [c] + u) == -1
  {
    hide ComponentOrder;
    var x := "~" + t;
    CommonFront(s, x, "");
    OrderAtEnd(x, "");
    CommonFront(s, x, "^" + u);
    OrderStep(x, "^" + u);
    assert s + x == s + "~" + t && s + "" == s && s + ("^" + u) == s + "^" + u;
    if IsAlnum(c) {
      CommonFront(s, x, "." + ([c] + u));
      SeparatorDropped('.', [c] + u, x);
      OrderStep(x, [c] + u);
      assert s + ("." + ([c] + u)) == s + "." + [c] + u;
    }
  }

  /** A caret comes after the end and before everything else but a tilde. */
  lemma CaretComesNext(s: string, t: string, c: char, u: string)
    ensures ComponentOrder(s, s + "^" + t) == -1
    ensures 'a' <= c <= 'z' || 'A' <= c <= 'Z' || '0' <= c <= '9' ==>
              ComponentOrder(s + "^" + t, s + "." + [c] + u) == -1
  {
    hide ComponentOrder;
    var x := "^" + t;
    CommonFront(s, "", x);
    OrderAtEnd("", x);
    assert s + x == s + "^" + t && s + "" == s;
    if IsAlnum(c) {
      CommonFront(s, x, "." + ([c] + u));
      SeparatorDropped('.', [c] + u, x);
      OrderStep(x, [c] + u);
      assert s + ("." + ([c] + u)) == s + "." + [c] + u;
    }
  }

  /** The shorter of two components that begin alike comes first, and words come before numbers. */
  lemma WordsComeBeforeNumbers(s: string, c: char, t: string, d: char, u: string)
    requires 'a' <= c <= 'z' || 'A' <= c <= 'Z'
    requires '0' <= d <= '9'
    ensures ComponentOrder(s, s + "." + [c] + t) == -1
    ensures ComponentOrder(s, s + "." + [d] + u) == -1
    ensures ComponentOrder(s + "." + [c] + t, s + "." + [d] + u) == -1
  {
    hide ComponentOrder;
    var x, y := [c] + t, [d] + u;
    CommonFront(s, "", "." + x);
    CommonFront(s, "", "." + y);
    CommonFront(s + ".", x, y);
    SeparatorDropped('.', x, "");
    SeparatorDropped('.', y, "");
    OrderAtEnd("", x);
    OrderAtEnd("", y);
    OrderStep(x, y);
    assert s + "" == s && s + ("." + x) == s + "." + x && s + ("." + y) == s + "." + y;
    assert s + "." + x == s + "." + [c] + t && s + "." + y == s + "." + [d] + u;
  }

  /** Whole words in the same place decide by their bytes, and when these are the same, what follows does. */
  lemma WordsDecide(s: string, v: string, t: string, w: string, u: string)
    requires v != "" && forall c | c in v :: 'a' <= c <= 'z' || 'A' <= c <= 'Z'
    requires w != "" && forall c | c in w :: 'a' <= c <= 'z' || 'A' <= c <= 'Z'
    requires Apart(v, t) && Apart(w, u)
    ensures ComponentOrder(s + "." + v + t, s + "." + w + u) ==
            if v != w then Text.Compare(v, w) else ComponentOrder(t, u)
  {
    hide ComponentOrder, Text.Compare;
    CommonFront(s + ".", v + t, w + u);
    LeadingWord(v, t);
    LeadingWord(w, u);
    OrderStep(v + t, w + u);
    assert s + "." + (v + t) == s + "." + v + t && s + "." + (w + u) == s + "." + w + u;
  }

  lemma LeadingWord(v: string, t: string)
    requires v != "" && Apart(v, t) && forall c | c in v :: IsAlpha(c)
    ensures IsAlpha((v + t)[0]) && TokenLength(v + t) == |v| && FirstToken(v + t) == Alpha(v) && (v + t)[|v|..] == t
  {
    hide AlphaRun;
    TokenStops(v, t);
    assert IsAlpha(v[0]) && AlphaRun(v) == |v| && v[..|v|] == v;
  }

  /** Whole numbers in the same place decide by their values, and when these are the same, what follows does. */
  lemma NumbersDecide(s: string, m: string, t: string, n: string, u: string)
    requires m != "" && n != "" && AllDigits(m) && AllDigits(n)
    requires Apart(m, t) && Apart(n, u)
    ensures ComponentOrder(s + "." + m + t, s + "." + n + u) ==
            if Value(m) != Value(n) then Sign(Value(m) - Value(n)) else ComponentOrder(t, u)
  {
    hide ComponentOrder, Value;
    CommonFront(s + ".", m + t, n + u);
    LeadingNumber(m, t);
    LeadingNumber(n, u);
    OrderStep(m + t, n + u);
    assert s + "." + (m + t) == s + "." + m + t && s + "." + (n + u) == s + "." + n + u;
  }

  lemma LeadingNumber(m: string, t: string)
    requires m != "" && Apart(m, t) && AllDigits(m)
    ensures IsDigit((m + t)[0]) && TokenLength(m + t) == |m| && FirstToken(m + t) == Num(Value(m)) &&
            (m + t)[|m|..] == t
  {
    hide Value, Digits;
    TokenStops(m, t);
    assert IsDigit(m[0]) && Digits(m) == |m| && m[..|m|] == m;
  }

  /** Any other character only separates: which one it is does not matter, and between digits and letters, or before
      a tilde or a caret, it may be missing. */
  lemma SeparatorsTie(s: string, c: char, d: char, t: string)
    requires forall e | e in [c, d] ::
               !('a' <= e <= 'z' || 'A' <= e <= 'Z' || '0' <= e <= '9' || e == '~' || e == '^')
    ensures ComponentOrder(s + [c] + t, s + [d] + t) == 0
    ensures Apart(s, t) ==> ComponentOrder(s + [c] + t, s + t) == 0
  {
    hide Tokens, ComponentOrder;
    assert c in [c, d] && d in [c, d];
    var x, y := [c] + t, [d] + t;
    SeparatorDropped(c, t, y);
    SeparatorDropped(d, t, t);
    ComponentOrderZero(t, t);
    CommonFront(s, x, y);
    assert s + x == s + [c] + t && s + y == s + [d] + t;
    if Apart(s, t) {
      SeparatorDropped(c, t, t);
      CommonFront(s, x, t);
    }
  }

  /** A number, however it is written, is one token. */
  lemma NumberTokens(d: string)
    requires AllDigits(d) && d != ""
    ensures Tokens(d) == [Num(Value(d))]
  {
    hide Value, Digits, AlphaRun;
    assert IsDigit(d[0]);
    assert Digits(d) == |d|;
    assert d[..|d|] == d && d[|d|..] == "";
    TokensStep(d);
  }

  /** Numbers compare as numbers, however they are written. */
  lemma NumbersCompare(s: string, t: string)
    requires AllDigits(s) && AllDigits(t) && s != "" && t != ""
    ensures ComponentOrder(s, t) == Sign(Value(s) - Value(t))
  {
    hide Tokens, Value;
    NumberTokens(s);
    NumberTokens(t);
    var x, y: seq<Token> := [Num(Value(s))], [Num(Value(t))];
    assert x[1..] == [] && y[1..] == [];
    assert Padded<Token>([], [], End, TokenOrder) == 0;
    assert ComponentOrder(s, t) == Padded(x, y, End, TokenOrder);
  }

  lemma NoEnd(ts: seq<Token>)
    requires End !in ts
    ensures Trim(ts, End) == ts
  {
    if ts != [] {
      assert ts[|ts| - 1] in ts;
    }
  }

  lemma ComponentOrderAntisymmetric(a: string, b: string)
    ensures ComponentOrder(a, b) == -ComponentOrder(b, a)
  {
    TokenOrderIsTotal();
    PaddedAntisymmetric(Tokens(a), Tokens(b), End, TokenOrder);
  }

  lemma ComponentOrderTransitive(a: string, b: string, c: string)
    requires ComponentOrder(a, b) <= 0 && ComponentOrder(b, c) <= 0
    ensures ComponentOrder(a, c) <= 0
  {
    hide Tokens, TokenOrder;
    TokenOrderIsTotal();
    PaddedTransitive(Tokens(a), Tokens(b), Tokens(c), End, TokenOrder);
  }

  // ----- whole versions

  datatype EVR = EVR(epoch: int, version: string, release: string)

  function SplitEVR(s: string): (r: EVR)
    ensures FitsInt64(r.epoch)
  {
    var i := Text.IndexByte(s, ':');
    var e := if i >= 0 then Atoi(s[..i]) else None;
    var epoch := if e.Some? then e.value else 0;
    var w := if e.Some? then s[i + 1..] else s;
    var k := Text.IndexByte(w, '-');
    if k >= 0 then EVR(epoch, w[..k], w[k + 1..]) else EVR(epoch, w, "")
  }

  /** The comparison of split versions, with the machine subtraction of the epochs. */
  function CompareEVR(x: EVR, y: EVR): int {
    if x.epoch != y.epoch then Sign(Wrap64(x.epoch - y.epoch))
    else
      var c := ComponentOrder(x.version, y.version);
      if c != 0 then c else ComponentOrder(x.release, y.release)
  }

  function CompareVersions(a: string, b: string): int {
    CompareEVR(SplitEVR(a), SplitEVR(b))
  }

  /** The walks of `vercmp` put together as the source does. */
  method CompareVersionStrings(a: string, b: string) returns (r: int)
    ensures r == CompareVersions(a, b)
  {
    var va, vb := SplitEVR(a), SplitEVR(b);
    if va.epoch != vb.epoch {
      return Sign(Wrap64(va.epoch - vb.epoch));
    }
    r := VerCmp(va.version, vb.version);
    if r != 0 {
      return r;
    }
    r := VerCmp(va.release, vb.release);
  }

  /** Versions compared field by field, epochs as mathematical integers. */
  function TrueOrder(x: EVR, y: EVR): int {
    if x.epoch != y.epoch then Sign(x.epoch - y.epoch)
    else
      var c := ComponentOrder(x.version, y.version);
      if c != 0 then c else ComponentOrder(x.release, y.release)
  }

  /** CompareVersions is the fieldwise order exactly when the epoch subtraction does not overflow. */
  lemma CompareIsTrueOrderExact(x: EVR, y: EVR)
    requires FitsInt64(x.epoch) && FitsInt64(y.epoch)
    ensures CompareEVR(x, y) == TrueOrder(x, y) <==> FitsInt64(x.epoch - y.epoch)
  {
    hide ComponentOrder;
    WrappedSignExact(x.epoch, y.epoch);
  }

  /** The epochs RPM allows, in a version that has been split. */
  predicate ProperEpoch(x: EVR) {
    0 <= x.epoch <= MAX_INT64
  }

  /** Epochs that machine subtraction orders as they are. */
  predicate EpochsNear(x: EVR, y: EVR) {
    Near(x.epoch, y.epoch)
  }

  /** 0 exactly on the same epoch and the same tokens, and antisymmetric unless the epochs are 2^63 apart. */
  lemma CompareAntisymmetric(x: EVR, y: EVR)
    requires FitsInt64(x.epoch) && FitsInt64(y.epoch)
    ensures CompareEVR(x, y) == 0 <==>
              x.epoch == y.epoch && Tokens(x.version) == Tokens(y.version) && Tokens(x.release) == Tokens(y.release)
    ensures CompareEVR(x, y) == -CompareEVR(y, x) <==>
              x.epoch - y.epoch != TWO_TO_63 && y.epoch - x.epoch != TWO_TO_63
    ensures EpochsNear(x, y) ==> CompareEVR(x, y) == -CompareEVR(y, x)
  {
    hide ComponentOrder, Tokens, Wrap64;
    WrappedSignTurnsExact(x.epoch, y.epoch);
    ComponentOrderAntisymmetric(x.version, y.version);
    ComponentOrderAntisymmetric(x.release, y.release);
    ComponentOrderZero(x.version, y.version);
    ComponentOrderZero(x.release, y.release);
  }

  lemma CompareTransitive(x: EVR, y: EVR, z: EVR)
    requires FitsInt64(x.epoch) && FitsInt64(y.epoch) && FitsInt64(z.epoch)
    requires EpochsNear(x, y) && EpochsNear(y, z) && EpochsNear(x, z)
    requires CompareEVR(x, y) <= 0 && CompareEVR(y, z) <= 0
    ensures CompareEVR(x, z) <= 0
  {
    hide ComponentOrder, Tokens, Wrap64;
    CompareIsTrueOrderExact(x, y);
    CompareIsTrueOrderExact(y, z);
    CompareIsTrueOrderExact(x, z);
    if x.epoch == y.epoch == z.epoch {
      ComponentOrderTransitive(x.version, y.version, z.version);
      ComponentOrderAntisymmetric(x.version, y.version);
      ComponentOrderAntisymmetric(y.version, z.version);
      ComponentOrderAntisymmetric(x.version, z.version);
      if ComponentOrder(x.version, z.version) == 0 {
        ComponentOrderTransitive(y.version, z.version, x.version);
        ComponentOrderTransitive(z.version, x.version, y.version);
        ComponentOrderTransitive(x.release, y.release, z.release);
      }
    }
  }

  lemma ProperIsNear(x: EVR, y: EVR)
    requires ProperEpoch(x) && ProperEpoch(y)
    ensures FitsInt64(x.epoch) && FitsInt64(y.epoch) && EpochsNear(x, y)
  {
  }

  // ----- EVR strings

  function PrintEVR(x: EVR): string {
    Itoa(x.epoch) + ":" + x.version + "-" + x.release
  }

  /** Splitting what EVR() prints gives back the fields exactly when the version has no '-'. */
  lemma SplitOfPrint(x: EVR)
    requires FitsInt64(x.epoch)
    ensures SplitEVR(PrintEVR(x)) == x <==> '-' !in x.version
  {
    hide Itoa, Atoi;
    var e, w := Itoa(x.epoch), x.version + "-" + x.release;
    assert PrintEVR(x) == e + [':'] + w;
    forall c | c in e ensures c != ':' {
      ItoaChars(x.epoch, c);
    }
    Text.IndexOfCut(e, w, ':');
    AtoiItoa(x.epoch);
    assert (e + [':'] + w)[..|e|] == e && (e + [':'] + w)[|e| + 1..] == w;
    CutAtDash(x.version, x.release);
  }

  lemma CutAtDash(v: string, r: string)
    ensures var w := v + "-" + r; var k := Text.IndexByte(w, '-');
            k >= 0 && (w[..k] == v && w[k + 1..] == r <==> '-' !in v)
  {
    var w := v + "-" + r;
    var k := Text.IndexByte(w, '-');
    assert w[|v|] == '-';
    if '-' !in v {
      Text.IndexOfCut(v, r, '-');
    }
  }

  /** What is no number before a colon is no epoch, and belongs to the version. */
  lemma SplitLeniently(s: string)
    requires ':' in s ==> Atoi(s[..Text.IndexByte(s, ':')]).None?
    ensures '-' !in s ==> SplitEVR(s) == EVR(0, s, "")
    ensures forall v, r | s == v + "-" + r && '-' !in v :: SplitEVR(s) == EVR(0, v, r)
  {
    hide Atoi;
    forall v, r | s == v + "-" + r && '-' !in v ensures SplitEVR(s) == EVR(0, v, r) {
      CutAtDash(v, r);
    }
  }

  /** Without epochs the versions are compared, and the releases when these do not differ. */
  lemma VersionComesFirst(v: string, r: string, w: string, q: string)
    requires ':' !in v && ':' !in w && ':' !in r && ':' !in q && '-' !in v && '-' !in w
    ensures CompareVersions(v + "-" + r, w + "-" + q) ==
            if ComponentOrder(v, w) != 0 then ComponentOrder(v, w) else ComponentOrder(r, q)
  {
    hide SplitEVR, ComponentOrder;
    SplitLeniently(v + "-" + r);
    SplitLeniently(w + "-" + q);
  }

  /** Epochs come before all else. */
  lemma EpochComesFirst(x: EVR, y: EVR)
    requires FitsInt64(x.epoch) && FitsInt64(y.epoch) && FitsInt64(x.epoch - y.epoch) && x.epoch != y.epoch
    ensures CompareEVR(x, y) == Sign(x.epoch - y.epoch)
  {
    WrappedSignExact(x.epoch, y.epoch);
  }

  /** Comparing the printed strings is comparing the parsed fields. */
  lemma ComparePrinted(x: EVR, y: EVR)
    requires FitsInt64(x.epoch) && FitsInt64(y.epoch) && '-' !in x.version && '-' !in y.version
    ensures CompareVersions(PrintEVR(x), PrintEVR(y)) == CompareEVR(x, y)
  {
    hide PrintEVR, SplitEVR, CompareEVR;
    SplitOfPrint(x);
    SplitOfPrint(y);
  }
}
