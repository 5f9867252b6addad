/**
 The Debian version order of internal/deb/version.go (section 5.6.12 of the Debian Policy Manual).
 The index-juggling loops are proved equal to a lexicographic comparison of normal forms.
 */
module DebVersion {
  import opened Wrappers
  import opened Numbers
  import opened Lexicographic
  import Text

  // ----- the normal form

  /** The sort weight of a character that is not a digit. Weight 0 is the end of a run. */
  type Weight = w: int | w != 0 witness 1

  /** One round of the comparison: a run of non-digits, then the number that follows it. */
  datatype Part = Part(text: seq<Weight>, number: int)

  const NoPart := Part([], 0)

  function Order(c: char): (w: int)
    ensures w == 0 <==> IsDigit(c)
  {
    if IsDigit(c) then 0
    else if 'a' <= c <= 'z' || 'A' <= c <= 'Z' then c as int
    else if c == '~' then -1
    else c as int + 256
  }

  /** The length of the leading run of non-digits. */
  function NonDigits(s: string): (n: nat)
    ensures n <= |s|
    ensures forall k :: 0 <= k < n ==> !IsDigit(s[k])
    ensures n < |s| ==> IsDigit(s[n])
  {
    if s == "" || IsDigit(s[0]) then 0 else 1 + NonDigits(s[1..])
  }

  function Weights(s: string): (ws: seq<Weight>)
    requires forall k :: 0 <= k < |s| ==> !IsDigit(s[k])
    ensures |ws| == |s|
  {
    if s == "" then [] else [Order(s[0])] + Weights(s[1..])
  }

  function FirstPart(s: string): Part {
    var n := NonDigits(s);
    Part(Weights(s[..n]), Value(s[n..][..Digits(s[n..])]))
  }

  function AfterPart(s: string): (r: string)
    ensures s != "" ==> |r| < |s|
    ensures s == "" ==> r == ""
  {
    var n := NonDigits(s);
    s[n..][Digits(s[n..])..]
  }

  function Parts(s: string): seq<Part> {
    if s == "" then [] else [FirstPart(s)] + Parts(AfterPart(s))
  }

  /** The parts of a version component, a missing part and ("", 0) being the same. */
  function Normal(s: string): seq<Part> {
    Trim(Parts(s), NoPart)
  }

  function IntOrder(x: int, y: int): int {
    Sign(x - y)
  }

  function PartOrder(p: Part, q: Part): int {
    var c := Padded<int>(p.text, q.text, 0, IntOrder);
    if c != 0 then c else IntOrder(p.number, q.number)
  }

  /** What `verrevcmp` computes: normal forms compared part by part. */
  function ComponentOrder(a: string, b: string): int {
    Padded(Normal(a), Normal(b), NoPart, PartOrder)
  }

  // ----- the normal forms are totally ordered

  lemma IntOrderIsTotal()
    ensures TotalOrder(IntOrder)
  {
  }

  lemma NoTrailingZero(ws: seq<Weight>)
    ensures Trim<int>(ws, 0) == ws
  {
    var r := Trim<int>(ws, 0);
    assert forall w: Weight :: w in ws ==> w != 0;
    assert forall i :: |r| <= i < |ws| ==> ws[i] in ws;
  }

  lemma PartOrderIsTotal()
    ensures TotalOrder(PartOrder)
  {
    IntOrderIsTotal();
    forall p: Part, q: Part
      ensures PartOrder(p, q) == 0 <==> p == q
      ensures PartOrder(p, q) == -PartOrder(q, p)
    {
      PaddedZero<int>(p.text, q.text, 0, IntOrder);
      NoTrailingZero(p.text);
      NoTrailingZero(q.text);
      PaddedAntisymmetric<int>(p.text, q.text, 0, IntOrder);
    }
    forall p: Part, q: Part, r: Part | PartOrder(p, q) <= 0 && PartOrder(q, r) <= 0
      ensures PartOrder(p, r) <= 0
    {
      PaddedTransitive<int>(p.text, q.text, r.text, 0, IntOrder);
      PaddedZero<int>(p.text, r.text, 0, IntOrder);
      PaddedZero<int>(p.text, q.text, 0, IntOrder);
      PaddedZero<int>(q.text, r.text, 0, IntOrder);
      NoTrailingZero(p.text);
      NoTrailingZero(q.text);
      NoTrailingZero(r.text);
      PaddedAntisymmetric<int>(p.text, q.text, 0, IntOrder);
      PaddedAntisymmetric<int>(q.text, r.text, 0, IntOrder);
    }
  }

  // ----- verrevcmp

  /** The order of two remaining inputs, before trailing padding is dropped. */
  function Remaining(a: string, b: string): int {
    Padded(Parts(a), Parts(b), NoPart, PartOrder)
  }

  lemma RemainingIsOrder(a: string, b: string)
    ensures Remaining(a, b) == ComponentOrder(a, b)
  {
    PartOrderIsTotal();
    PaddedTrim(Parts(a), Parts(b), NoPart, PartOrder);
  }

  /** An input read part by part; beyond its end every part is missing. */
  lemma PartsOf(s: string)
    ensures Head(Parts(s), NoPart) == FirstPart(s)
    ensures Tail(Parts(s)) == Parts(AfterPart(s))
  {
    if s == "" {
      assert FirstPart(s) == NoPart;
    }
  }

  lemma RunStep(s: string)
    requires s != "" && !IsDigit(s[0])
    ensures FirstPart(s).text == [Order(s[0])] + FirstPart(s[1..]).text
    ensures FirstPart(s).number == FirstPart(s[1..]).number
    ensures AfterPart(s) == AfterPart(s[1..])
  {
    var n := NonDigits(s);
    assert n == 1 + NonDigits(s[1..]);
    assert s[..n][1..] == s[1..][..n - 1];
    assert s[..n][0] == s[0];
    assert s[n..] == s[1..][n - 1..];
  }

  /** Equal weights at the front of a non-digit run can be dropped on both sides. */
  lemma SameWeight(a: string, b: string)
    requires a != "" && b != "" && !IsDigit(a[0]) && Order(a[0]) == Order(b[0])
    ensures Remaining(a, b) == Remaining(a[1..], b[1..])
  {
    RunStep(a);
    RunStep(b);
    var p, q := FirstPart(a).text, FirstPart(b).text;
    var x, y := FirstPart(a[1..]).text, FirstPart(b[1..]).text;
    SameHead(p, q, x, y);
    UnrollRemaining(a, b);
    UnrollRemaining(a[1..], b[1..]);
  }

  lemma SameHead(p: seq<int>, q: seq<int>, x: seq<int>, y: seq<int>)
    requires |p| > 0 && |q| > 0 && p[0] == q[0] && p[1..] == x && q[1..] == y
    ensures Padded(p, q, 0, IntOrder) == Padded(x, y, 0, IntOrder)
  {
  }

  lemma UnrollRemaining(a: string, b: string)
    ensures var c := PartOrder(FirstPart(a), FirstPart(b));
            Remaining(a, b) == if c != 0 then c else Remaining(AfterPart(a), AfterPart(b))
  {
    PartsOf(a);
    PartsOf(b);
    PartOrderIsTotal();
    PaddedStep(Parts(a), Parts(b), NoPart, PartOrder);
  }

  lemma NothingRemains(a: string, b: string)
    requires a == "" && b == ""
    ensures Remaining(a, b) == 0
  {
  }

  function WeightAt(s: string, i: nat): int
    requires i <= |s|
  {
    if i < |s| then Order(s[i]) else 0
  }

  /** Different weights at the front decide, the end of a run weighing 0. */
  lemma DifferentWeight(a: string, b: string)
    requires WeightAt(a, 0) != WeightAt(b, 0)
    ensures Remaining(a, b) == Sign(WeightAt(a, 0) - WeightAt(b, 0))
  {
    UnrollRemaining(a, b);
    HeadWeight(a);
    HeadWeight(b);
    var p, q := FirstPart(a).text, FirstPart(b).text;
    assert Head<int>(p, 0) != Head<int>(q, 0);
    assert Padded<int>(p, q, 0, IntOrder) == IntOrder(Head<int>(p, 0), Head<int>(q, 0));
  }

  lemma HeadWeight(s: string)
    ensures Head<int>(FirstPart(s).text, 0) == WeightAt(s, 0)
  {
    if s != "" && !IsDigit(s[0]) {
      RunStep(s);
    }
  }

  /** When neither side starts with a non-digit, the numbers decide, and then the rest. */
  lemma AtNumbers(a: string, b: string)
    requires a != "" ==> IsDigit(a[0])
    requires b != "" ==> IsDigit(b[0])
    ensures var da, db := Digits(a), Digits(b); var c := Sign(Value(a[..da]) - Value(b[..db]));
            Remaining(a, b) == if c != 0 then c else Remaining(a[da..], b[db..])
  {
    NumberFirst(a);
    NumberFirst(b);
    UnrollRemaining(a, b);
    assert Padded<int>([], [], 0, IntOrder) == 0;
  }

  lemma NumberFirst(s: string)
    requires s != "" ==> IsDigit(s[0])
    ensures FirstPart(s) == Part([], Value(s[..Digits(s)]))
    ensures AfterPart(s) == s[Digits(s)..]
  {
    assert s[0..] == s && s[..0] == "";
  }

  /** One pass of the non-digit loop: the weights at i and j decide, or both indices advance. */
  lemma RunPass(a: string, i: nat, b: string, j: nat)
    requires i <= |a| && j <= |b|
    requires (i < |a| && !IsDigit(a[i])) || (j < |b| && !IsDigit(b[j]))
    ensures WeightAt(a, i) != WeightAt(b, j) ==> Remaining(a[i..], b[j..]) == Sign(WeightAt(a, i) - WeightAt(b, j))
    ensures WeightAt(a, i) == WeightAt(b, j) ==>
              i < |a| && j < |b| && Remaining(a[i..], b[j..]) == Remaining(a[i + 1..], b[j + 1..])
  {
    if WeightAt(a, i) != WeightAt(b, j) {
      DifferentWeight(a[i..], b[j..]);
    } else {
      SameWeight(a[i..], b[j..]);
      assert a[i..][1..] == a[i + 1..] && b[j..][1..] == b[j + 1..];
    }
  }

  /** The end of the digits that start at i. */
  function NumberEnd(s: string, i: nat): (e: nat)
    requires i <= |s|
    ensures i <= e <= |s|
    ensures forall k :: i <= k < e ==> IsDigit(s[k])
    ensures e < |s| ==> !IsDigit(s[e])
  {
    var d := Digits(s[i..]);
    assert forall k :: i <= k < i + d ==> s[k] == s[i..][..d][k - i];
    i + d
  }

  lemma NumberEndIsLast(s: string, i: nat, k: nat)
    requires i <= k <= |s| && k <= NumberEnd(s, i)
    ensures (k < |s| && IsDigit(s[k])) <==> k < NumberEnd(s, i)
  {
    hide NumberEnd;
  }

  /** The digit loops of one pass together: the numbers at i and j decide, or the rest does. */
  lemma NumberPass(a: string, i: nat, b: string, j: nat)
    requires i <= |a| && j <= |b|
    requires i < |a| ==> IsDigit(a[i])
    requires j < |b| ==> IsDigit(b[j])
    ensures var ea, eb := NumberEnd(a, i), NumberEnd(b, j); var c := Sign(Value(a[i..ea]) - Value(b[j..eb]));
            Remaining(a[i..], b[j..]) == if c != 0 then c else Remaining(a[ea..], b[eb..])
  {
    hide Remaining;
    AtNumbers(a[i..], b[j..]);
    var da, db := Digits(a[i..]), Digits(b[j..]);
    assert a[i..][..da] == a[i..i + da] && b[j..][..db] == b[j..j + db];
    assert a[i..][da..] == a[i + da..] && b[j..][db..] == b[j + db..];
  }

  lemma SkipZero(s: string, i: nat, e: nat)
    requires i < e <= |s| && s[i] == '0'
    ensures Value(s[i..e]) == Value(s[i + 1..e])
  {
    ValueDropZero(s[i..e]);
    assert s[i..e][1..] == s[i + 1..e];
  }

  lemma NothingRead(a: string, i: nat, b: string, j: nat)
    requires i <= |a| && j <= |b|
    ensures Value(a[i..i]) == Value(b[j..j])
  {
  }

  /** One more digit on each side keeps the first difference decisive. */
  lemma DigitPass(a: string, i2: nat, i: nat, b: string, j2: nat, j: nat, firstDiff: int)
    requires i2 <= i < |a| && j2 <= j < |b| && IsDigit(a[i]) && IsDigit(b[j])
    requires Sign(firstDiff) == Sign(Value(a[i2..i]) - Value(b[j2..j]))
    ensures var d := if firstDiff == 0 then a[i] as int - b[j] as int else firstDiff;
            Sign(d) == Sign(Value(a[i2..i + 1]) - Value(b[j2..j + 1]))
  {
    hide Value;
    ValueSnoc(a[i2..i], a[i]);
    ValueSnoc(b[j2..j], b[j]);
    assert a[i2..i] + [a[i]] == a[i2..i + 1] && b[j2..j] + [b[j]] == b[j2..j + 1];
  }

  /** The comparison of two version components, as the source does it with two moving indices. */
  method VerRevCmp(a: string, b: string) returns (r: int)
    ensures r == ComponentOrder(a, b)
  {
    hide Remaining, ComponentOrder, NumberEnd, Value;
    RemainingIsOrder(a, b);
    ghost var goal := ComponentOrder(a, b);
    assert a[0..] == a && b[0..] == b;
    var i, j := 0, 0;
    while i < |a| || j < |b|
      invariant i <= |a| && j <= |b|
      invariant Remaining(a[i..], b[j..]) == goal
      decreases |a| - i + |b| - j
    {
      ghost var i0, j0 := i, j;
      var firstDiff := 0;
      while (i < |a| && !IsDigit(a[i])) || (j < |b| && !IsDigit(b[j]))
        invariant i0 <= i <= |a| && j0 <= j <= |b|
        invariant Remaining(a[i..], b[j..]) == goal
        decreases |a| - i
      {
        var ac := if i < |a| then Order(a[i]) else 0;
        var bc := if j < |b| then Order(b[j]) else 0;
        RunPass(a, i, b, j);
        if ac != bc {
          return Sign(ac - bc);
        }
        i := i + 1;
        j := j + 1;
      }

      NumberPass(a, i, b, j);
      ghost var i1, j1, ea, eb := i, j, NumberEnd(a, i), NumberEnd(b, j);
      NumberEndIsLast(a, i1, i);
      NumberEndIsLast(b, j1, j);
      while i < |a| && a[i] == '0'
        invariant i1 <= i <= ea && Value(a[i..ea]) == Value(a[i1..ea])
      {
        NumberEndIsLast(a, i1, i);
        SkipZero(a, i, ea);
        i := i + 1;
      }
      while j < |b| && b[j] == '0'
        invariant j1 <= j <= eb && Value(b[j..eb]) == Value(b[j1..eb])
      {
        NumberEndIsLast(b, j1, j);
        SkipZero(b, j, eb);
        j := j + 1;
      }

      ghost var i2, j2 := i, j;
      NothingRead(a, i, b, j);
      while i < |a| && IsDigit(a[i]) && j < |b| && IsDigit(b[j])
        invariant i2 <= i <= ea && j2 <= j <= eb && i - i2 == j - j2
        invariant Sign(firstDiff) == Sign(Value(a[i2..i]) - Value(b[j2..j]))
      {
        NumberEndIsLast(a, i1, i);
        NumberEndIsLast(b, j1, j);
        DigitPass(a, i2, i, b, j2, j, firstDiff);
        if firstDiff == 0 {
          firstDiff := a[i] as int - b[j] as int;
        }
        i := i + 1;
        j := j + 1;
      }
      NumberEndIsLast(a, i1, i);
      NumberEndIsLast(b, j1, j);
      LongerNumber(a, i1, i2, i, b, j1, j2, j);
      if i < |a| && IsDigit(a[i]) {
        return 1;
      }
      if j < |b| && IsDigit(b[j]) {
        return -1;
      }
      if firstDiff != 0 {
        return Sign(firstDiff);
      }
    }
    NothingRemains(a[i..], b[j..]);
    return 0;
  }

  /** After the common digits, the side that still has digits has the larger number. */
  lemma LongerNumber(a: string, i1: nat, i2: nat, i: nat, b: string, j1: nat, j2: nat, j: nat)
    requires i1 <= i2 <= i <= |a| && j1 <= j2 <= j <= |b| && i - i2 == j - j2
    requires i <= NumberEnd(a, i1) && j <= NumberEnd(b, j1)
    requires i == NumberEnd(a, i1) || j == NumberEnd(b, j1)
    requires i2 < |a| ==> a[i2] != '0'
    requires j2 < |b| ==> b[j2] != '0'
    ensures i < NumberEnd(a, i1) ==> Value(a[i2..NumberEnd(a, i1)]) > Value(b[j2..NumberEnd(b, j1)])
    ensures j < NumberEnd(b, j1) ==> Value(a[i2..NumberEnd(a, i1)]) < Value(b[j2..NumberEnd(b, j1)])
  {
    hide Value;
    var ea, eb := NumberEnd(a, i1), NumberEnd(b, j1);
    hide NumberEnd;
    var u, v := a[i2..ea], b[j2..eb];
    assert AllDigits(u) && AllDigits(v);
    if i < ea {
      LongerIsLarger(u, v);
    } else if j < eb {
      LongerIsLarger(v, u);
    }
  }

  /** verrevcmp is 0 exactly when the normal forms agree. */
  lemma ComponentOrderZero(a: string, b: string)
    ensures ComponentOrder(a, b) == 0 <==> Normal(a) == Normal(b)
  {
    PartOrderIsTotal();
    PaddedZero(Normal(a), Normal(b), NoPart, PartOrder);
    assert Trim(Normal(a), NoPart) == Normal(a) && Trim(Normal(b), NoPart) == Normal(b);
  }

  lemma ComponentOrderAntisymmetric(a: string, b: string)
    ensures ComponentOrder(a, b) == -ComponentOrder(b, a)
  {
    PartOrderIsTotal();
    PaddedAntisymmetric(Normal(a), Normal(b), NoPart, PartOrder);
  }

  lemma ComponentOrderTransitive(a: string, b: string, c: string)
    requires ComponentOrder(a, b) <= 0 && ComponentOrder(b, c) <= 0
    ensures ComponentOrder(a, c) <= 0
  {
    PartOrderIsTotal();
    PaddedTransitive(Normal(a), Normal(b), Normal(c), NoPart, PartOrder);
  }

  // ----- what comes before what

  /** What two components begin with alike does not matter, unless a number is cut in two. */
  lemma {:induction false} CommonFront(p: string, x: string, y: string)
    requires p != "" && IsDigit(p[|p| - 1]) ==> (x == "" || !IsDigit(x[0])) && (y == "" || !IsDigit(y[0]))
    ensures ComponentOrder(p + x, p + y) == ComponentOrder(x, y)
    decreases |p|
  {
    hide ComponentOrder, Digits;
    if p == "" {
      assert p + x == x && p + y == y;
    } else if !IsDigit(p[0]) {
      SameCharacter(p, x, y);
      CommonFront(p[1..], x, y);
    } else {
      DigitsOfFront(p, x);
      DigitsOfFront(p, y);
      SameNumber(p, x, y);
      CommonFront(p[Digits(p)..], x, y);
    }
  }

  lemma SameCharacter(p: string, x: string, y: string)
    requires p != "" && !IsDigit(p[0])
    ensures ComponentOrder(p + x, p + y) == ComponentOrder(p[1..] + x, p[1..] + y)
  {
    hide ComponentOrder, Remaining, Order;
    var a, b := p + x, p + y;
    SameWeight(a, b);
    assert a[1..] == p[1..] + x && b[1..] == p[1..] + y;
    RemainingIsOrder(a, b);
    RemainingIsOrder(a[1..], b[1..]);
  }

  lemma SameNumber(p: string, x: string, y: string)
    requires p != "" && IsDigit(p[0]) && Digits(p + x) == Digits(p + y) == Digits(p)
    ensures ComponentOrder(p + x, p + y) == ComponentOrder(p[Digits(p)..] + x, p[Digits(p)..] + y)
  {
    hide ComponentOrder, Remaining, Digits, Value;
    var a, b, d := p + x, p + y, Digits(p);
    AtNumbers(a, b);
    assert a[..d] == b[..d] && a[d..] == p[d..] + x && b[d..] == p[d..] + y;
    RemainingIsOrder(a, b);
    RemainingIsOrder(a[d..], b[d..]);
  }

  lemma DigitsOfFront(p: string, x: string)
    requires p != "" && IsDigit(p[0])
    requires IsDigit(p[|p| - 1]) ==> x == "" || !IsDigit(x[0])
    ensures 0 < Digits(p) && Digits(p + x) == Digits(p)
  {
    hide Digits;
    var s := p + x;
    var d, e := Digits(p), Digits(s);
    assert forall k :: 0 <= k < d ==> IsDigit(p[..d][k]) && p[..d][k] == p[k] == s[k];
    assert forall k :: 0 <= k < e ==> IsDigit(s[..e][k]) && s[..e][k] == s[k];
    if d < |p| {
      assert s[d] == p[d];
    } else if x != "" {
      assert s[d] == x[0] && p[d - 1] == p[|p| - 1];
    }
  }

  predicate IsLetter(c: char) {
    'a' <= c <= 'z' || 'A' <= c <= 'Z'
  }

  /** A tilde comes before everything, the end included. */
  lemma TildeComesFirst(s: string, t: string, c: char, u: string)
    ensures ComponentOrder(s + "~" + t, s) == -1
    ensures c != '~' && !IsDigit(c) ==> ComponentOrder(s + "~" + t, s + [c] + u) == -1
  {
    hide ComponentOrder;
    FirstDiffers(s, "~" + t, "");
    assert s + ("~" + t) == s + "~" + t && s + "" == s;
    if c != '~' && !IsDigit(c) {
      FirstDiffers(s, "~" + t, [c] + u);
      assert s + ([c] + u) == s + [c] + u;
    }
  }

  /** The end comes before everything but a tilde. */
  lemma EndComesNext(s: string, c: char, t: string)
    requires c != '~' && !IsDigit(c)
    ensures ComponentOrder(s, s + [c] + t) == -1
  {
    hide ComponentOrder;
    FirstDiffers(s, "", [c] + t);
    assert s + ([c] + t) == s + [c] + t && s + "" == s;
  }

  /** Letters come in the order of their bytes, before all other characters, and these in that of theirs. */
  lemma LettersComeBeforeOthers(s: string, c: char, t: string, d: char, u: string)
    requires c != '~' && d != '~' && !IsDigit(c) && !IsDigit(d)
    requires if IsLetter(c) == IsLetter(d) then c < d else IsLetter(c)
    requires c < 256 as char && d < 256 as char
    ensures ComponentOrder(s + [c] + t, s + [d] + u) == -1
  {
    hide ComponentOrder;
    FirstDiffers(s, [c] + t, [d] + u);
    assert s + ([c] + t) == s + [c] + t && s + ([d] + u) == s + [d] + u;
  }

  lemma FirstDiffers(s: string, x: string, y: string)
    requires (x == "" || !IsDigit(x[0])) && (y == "" || !IsDigit(y[0]))
    requires WeightAt(x, 0) != WeightAt(y, 0)
    ensures ComponentOrder(s + x, s + y) == Sign(WeightAt(x, 0) - WeightAt(y, 0))
  {
    hide ComponentOrder, Remaining, WeightAt;
    CommonFront(s, x, y);
    RemainingIsOrder(x, y);
    DifferentWeight(x, y);
  }

  /** Where a number stands against another character, that character decides: a tilde for less, any other for more. */
  lemma NumberAgainstOther(s: string, c: char, t: string, d: char, u: string)
    requires (s == "" || !IsDigit(s[|s| - 1])) && !IsDigit(c) && IsDigit(d)
    ensures ComponentOrder(s + [c] + t, s + [d] + u) == if c == '~' then -1 else 1
  {
    hide ComponentOrder, Remaining;
    var x, y := [c] + t, [d] + u;
    CommonFront(s, x, y);
    RemainingIsOrder(x, y);
    DifferentWeight(x, y);
    assert s + x == s + [c] + t && s + y == s + [d] + u;
  }

  /** Whole numbers in the same place decide by their values, and when these are the same, what follows does. */
  lemma NumbersDecide(s: string, m: string, t: string, n: string, u: string)
    requires (s == "" || !IsDigit(s[|s| - 1])) && AllDigits(m) && AllDigits(n) && m != "" && n != ""
    requires (t == "" || !IsDigit(t[0])) && (u == "" || !IsDigit(u[0]))
    ensures ComponentOrder(s + m + t, s + n + u) ==
            if Value(m) != Value(n) then Sign(Value(m) - Value(n)) else ComponentOrder(t, u)
  {
    hide ComponentOrder;
    CommonFront(s, m + t, n + u);
    LeadingNumbers(m, t, n, u);
    assert s + (m + t) == s + m + t && s + (n + u) == s + n + u;
  }

  lemma LeadingNumbers(m: string, t: string, n: string, u: string)
    requires AllDigits(m) && AllDigits(n) && m != "" && n != ""
    requires (t == "" || !IsDigit(t[0])) && (u == "" || !IsDigit(u[0]))
    ensures ComponentOrder(m + t, n + u) ==
            if Value(m) != Value(n) then Sign(Value(m) - Value(n)) else ComponentOrder(t, u)
  {
    hide ComponentOrder, Remaining, Value, Digits;
    var x, y := m + t, n + u;
    AllAreDigits(m);
    AllAreDigits(n);
    DigitsOfFront(m, t);
    DigitsOfFront(n, u);
    AtNumbers(x, y);
    assert x[..|m|] == m && y[..|n|] == n && x[|m|..] == t && y[|n|..] == u;
    RemainingIsOrder(x, y);
    RemainingIsOrder(t, u);
  }

  lemma AllAreDigits(d: string)
    requires AllDigits(d)
    ensures Digits(d) == |d|
  {
    hide Digits;
  }

  // ----- whole versions

  datatype Version = Version(epoch: int, upstream: string, revision: string)

  function Split(v: string): (r: Version)
    ensures FitsInt64(r.epoch)
  {
    var i := Text.IndexByte(v, ':');
    var e := if i >= 0 then Atoi(v[..i]) else None;
    var epoch := if e.Some? then e.value else 0;
    var w := if e.Some? then v[i + 1..] else v;
    var k := Text.LastIndexByte(w, '-');
    if k >= 0 then Version(epoch, w[..k], w[k + 1..]) else Version(epoch, w, "")
  }

  /** `CompareVersions`, with the machine subtraction of the epochs. */
  function CompareVersions(a: string, b: string): int {
    var va, vb := Split(a), Split(b);
    if va.epoch != vb.epoch then Sign(Wrap64(va.epoch - vb.epoch))
    else
      var c := ComponentOrder(va.upstream, vb.upstream);
      if c != 0 then c else ComponentOrder(va.revision, vb.revision)
  }

  /** A version is cut at the last dash, after the epoch: printed versions are taken apart as they were put together
      exactly when the revision has no dash. */
  lemma SplitOfPrint(e: int, u: string, r: string)
    requires FitsInt64(e)
    ensures Split(Itoa(e) + ":" + u + "-" + r) == Version(e, u, r) <==> '-' !in r
  {
    hide Itoa, Atoi;
    var p, w := Itoa(e), u + "-" + r;
    var v := p + [':'] + w;
    assert v == p + ":" + u + "-" + r;
    forall c | c in p ensures c != ':' {
      ItoaChars(e, c);
    }
    Text.IndexOfCut(p, w, ':');
    AtoiItoa(e);
    assert v[..|p|] == p && v[|p| + 1..] == w;
    CutAtLastDash(u, r);
  }

  lemma CutAtLastDash(u: string, r: string)
    ensures var w := u + "-" + r; var k := Text.LastIndexByte(w, '-');
            k >= 0 && (w[..k] == u && w[k + 1..] == r <==> '-' !in r)
  {
    var w := u + "-" + r;
    var k := Text.LastIndexByte(w, '-');
    assert w[|u|] == '-';
    if '-' !in r {
      assert w == w[..k] + ['-'] + w[k + 1..];
      Text.CutLastInjective(w[..k], w[k + 1..], u, r, '-');
    }
  }

  /** What is no number before a colon is no epoch, and belongs to the version. */
  lemma SplitLeniently(v: string)
    requires ':' in v ==> Atoi(v[..Text.IndexByte(v, ':')]).None?
    ensures '-' !in v ==> Split(v) == Version(0, v, "")
    ensures forall u, r | v == u + "-" + r && '-' !in r :: Split(v) == Version(0, u, r)
  {
    hide Atoi;
    forall u, r | v == u + "-" + r && '-' !in r ensures Split(v) == Version(0, u, r) {
      CutAtLastDash(u, r);
    }
  }

  /** Without epochs the upstream versions are compared, and the revisions when these do not differ. */
  lemma UpstreamComesFirst(u: string, r: string, v: string, q: string)
    requires ':' !in u && ':' !in v && ':' !in r && ':' !in q && '-' !in r && '-' !in q
    ensures CompareVersions(u + "-" + r, v + "-" + q) ==
            if ComponentOrder(u, v) != 0 then ComponentOrder(u, v) else ComponentOrder(r, q)
  {
    hide Split, ComponentOrder;
    SplitLeniently(u + "-" + r);
    SplitLeniently(v + "-" + q);
  }

  /** Epochs come before all else. */
  lemma EpochComesFirst(e: int, v: string, f: int, w: string)
    requires FitsInt64(e) && FitsInt64(f) && FitsInt64(e - f) && e != f
    ensures CompareVersions(Itoa(e) + ":" + v, Itoa(f) + ":" + w) == Sign(e - f)
  {
    hide Split, Itoa, Wrap64;
    SplitWithEpoch(e, v);
    SplitWithEpoch(f, w);
    WrappedSignExact(e, f);
  }

  /** The loops of `verrevcmp` put together as the source does. */
  method CompareVersionStrings(a: string, b: string) returns (r: int)
    ensures r == CompareVersions(a, b)
  {
    var va, vb := Split(a), Split(b);
    if va.epoch != vb.epoch {
      return Sign(Wrap64(va.epoch - vb.epoch));
    }
    r := VerRevCmp(va.upstream, vb.upstream);
    if r != 0 {
      return r;
    }
    r := VerRevCmp(va.revision, vb.revision);
  }

  /** What a version stands for: versions with equal keys are interchangeable. */
  datatype Key = Key(epoch: int, upstream: seq<Part>, revision: seq<Part>)

  function KeyOf(v: string): Key {
    var s := Split(v);
    Key(s.epoch, Normal(s.upstream), Normal(s.revision))
  }

  /** Keys compared field by field, epochs as mathematical integers. */
  function KeyOrder(x: Key, y: Key): int {
    if x.epoch != y.epoch then IntOrder(x.epoch, y.epoch)
    else
      var c := Padded(x.upstream, y.upstream, NoPart, PartOrder);
      if c != 0 then c else Padded(x.revision, y.revision, NoPart, PartOrder)
  }

  /** CompareVersions is the order of the keys exactly when the epoch subtraction does not overflow. */
  lemma CompareIsKeyOrderExact(a: string, b: string)
    ensures CompareVersions(a, b) == KeyOrder(KeyOf(a), KeyOf(b)) <==> FitsInt64(Split(a).epoch - Split(b).epoch)
  {
    hide Normal, Split, Padded, Wrap64;
    var va, vb := Split(a), Split(b);
    WrappedSignExact(va.epoch, vb.epoch);
    assert KeyOf(a).upstream == Normal(va.upstream) && KeyOf(b).upstream == Normal(vb.upstream);
    assert KeyOf(a).revision == Normal(va.revision) && KeyOf(b).revision == Normal(vb.revision);
  }

  /** The epochs that Debian versions have. */
  predicate NonNegativeEpoch(v: string) {
    Split(v).epoch >= 0
  }

  /** Epochs, of any sign, that machine subtraction orders as they are. */
  predicate EpochsNear(a: string, b: string) {
    Near(Split(a).epoch, Split(b).epoch)
  }

  lemma NonNegativeIsNear(a: string, b: string)
    requires NonNegativeEpoch(a) && NonNegativeEpoch(b)
    ensures EpochsNear(a, b)
  {
    hide Split;
  }

  /** 0 exactly on versions with the same key, and antisymmetric unless the epochs are 2^63 apart. */
  lemma CompareAntisymmetric(a: string, b: string)
    ensures CompareVersions(a, b) == 0 <==> KeyOf(a) == KeyOf(b)
    ensures CompareVersions(a, b) == -CompareVersions(b, a) <==>
              Split(a).epoch - Split(b).epoch != TWO_TO_63 && Split(b).epoch - Split(a).epoch != TWO_TO_63
    ensures EpochsNear(a, b) ==> CompareVersions(a, b) == -CompareVersions(b, a)
  {
    hide Normal, Split, Padded, ComponentOrder, Wrap64;
    var va, vb := Split(a), Split(b);
    WrappedSignTurnsExact(va.epoch, vb.epoch);
    ComponentOrderAntisymmetric(va.upstream, vb.upstream);
    ComponentOrderAntisymmetric(va.revision, vb.revision);
    ComponentOrderZero(va.upstream, vb.upstream);
    ComponentOrderZero(va.revision, vb.revision);
  }

  lemma CompareTransitive(a: string, b: string, c: string)
    requires EpochsNear(a, b) && EpochsNear(b, c) && EpochsNear(a, c)
    requires CompareVersions(a, b) <= 0 && CompareVersions(b, c) <= 0
    ensures CompareVersions(a, c) <= 0
  {
    hide Normal, Split, Padded, ComponentOrder, Wrap64;
    var va, vb, vc := Split(a), Split(b), Split(c);
    WrappedSignExact(va.epoch, vb.epoch);
    WrappedSignExact(vb.epoch, vc.epoch);
    WrappedSignExact(va.epoch, vc.epoch);
    if va.epoch == vb.epoch == vc.epoch {
      ComponentOrderTransitive(va.upstream, vb.upstream, vc.upstream);
      ComponentOrderAntisymmetric(va.upstream, vb.upstream);
      ComponentOrderAntisymmetric(vb.upstream, vc.upstream);
      ComponentOrderAntisymmetric(va.upstream, vc.upstream);
      if ComponentOrder(va.upstream, vc.upstream) == 0 {
        ComponentOrderTransitive(vb.upstream, vc.upstream, va.upstream);
        ComponentOrderTransitive(vc.upstream, va.upstream, vb.upstream);
        ComponentOrderTransitive(va.revision, vb.revision, vc.revision);
      }
    }
  }

  /** Versions that are numbers compare as numbers, however they are written. */
  lemma NumbersCompare(a: string, b: string)
    requires AllDigits(a) && AllDigits(b) && a != "" && b != ""
    ensures CompareVersions(a, b) == Sign(Value(a) - Value(b))
  {
    hide Split, Parts, Value, ComponentOrder;
    NumberSplit(a);
    NumberSplit(b);
    NumberParts(a);
    NumberParts(b);
    RemainingIsOrder(a, b);
    ComponentOrderZero("", "");
    var x, y := Part([], Value(a)), Part([], Value(b));
    assert [x][1..] == [] && [y][1..] == [];
    assert Padded<Part>([], [], NoPart, PartOrder) == 0;
    assert Padded([x], [y], NoPart, PartOrder) == PartOrder(x, y) == Sign(Value(a) - Value(b));
  }

  lemma NumberSplit(d: string)
    requires AllDigits(d)
    ensures Split(d) == Version(0, d, "")
  {
    assert ':' !in d && '-' !in d;
  }

  lemma NumberParts(d: string)
    requires AllDigits(d) && d != ""
    ensures Parts(d) == [Part([], Value(d))]
  {
    hide Value;
    assert NonDigits(d) == 0 && Digits(d) == |d|;
    assert d[0..] == d && d[..|d|] == d && d[..0] == "";
    assert FirstPart(d) == Part([], Value(d));
    assert AfterPart(d) == "" && Parts("") == [];
    assert Parts(d) == [FirstPart(d)] + [] == [FirstPart(d)];
  }

  /** With a signed epoch the order breaks: each of these two versions sorts before the other. */
  lemma SignedEpochsBreakTheOrder(m: int)
    requires m == MAX_INT64
    ensures CompareVersions(Itoa(m) + ":" + "0", "-1" + ":" + "0") == -1
    ensures CompareVersions("-1" + ":" + "0", Itoa(m) + ":" + "0") == -1
  {
    hide Split, Itoa;
    SplitWithEpoch(m, "0");
    SplitWithEpoch(-1, "0");
    ItoaOfMinusOne();
    WrappedSignExact(m, -1);
    assert Wrap64(m - -1) == MIN_INT64 && Wrap64(-1 - m) == MIN_INT64;
  }

  lemma ItoaOfMinusOne()
    ensures Itoa(-1) == "-1"
  {
  }

  lemma SplitWithEpoch(e: int, w: string)
    requires FitsInt64(e)
    ensures Split(Itoa(e) + ":" + w).epoch == e
  {
    AtoiItoa(e);
    forall c | c in Itoa(e) ensures c != ':' {
      ItoaChars(e, c);
    }
    Text.IndexOfCut(Itoa(e), w, ':');
    assert (Itoa(e) + ":" + w)[..|Itoa(e)|] == Itoa(e);
  }
}
