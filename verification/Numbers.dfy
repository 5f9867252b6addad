/**
 Decimal numerals: their value, Go's `strconv.Itoa` and `strconv.Atoi`, and int64 arithmetic.
 */
module Numbers {
  import opened Wrappers
  import opened Text

  const MIN_INT64: int := -0x8000_0000_0000_0000
  const MAX_INT64: int := 0x7fff_ffff_ffff_ffff
  const TWO_TO_63: int := 0x8000_0000_0000_0000

  predicate FitsInt64(x: int) {
    MIN_INT64 <= x <= MAX_INT64
  }

  /** The int64 that machine arithmetic leaves in place of x. */
  function Wrap64(x: int): (r: int)
    ensures FitsInt64(r)
  {
    (x + 0x8000_0000_0000_0000) % 0x1_0000_0000_0000_0000 - 0x8000_0000_0000_0000
  }

  function Sign(x: int): int {
    if x < 0 then -1 else if x > 0 then 1 else 0
  }

  /** The sign of a machine difference is the sign of the true difference exactly when it does not overflow. */
  lemma WrappedSignExact(x: int, y: int)
    requires FitsInt64(x) && FitsInt64(y)
    ensures Sign(Wrap64(x - y)) == Sign(x - y) <==> FitsInt64(x - y)
  {
    WrappedDifference(x - y);
  }

  /** Machine subtraction tells x from y, and its sign turns with the operands except at a distance of 2^63. */
  lemma WrappedSignTurnsExact(x: int, y: int)
    requires FitsInt64(x) && FitsInt64(y)
    ensures Sign(Wrap64(x - y)) == 0 <==> x == y
    ensures Sign(Wrap64(x - y)) == -Sign(Wrap64(y - x)) <==> x - y != TWO_TO_63 && y - x != TWO_TO_63
  {
    WrappedDifference(x - y);
    WrappedDifference(y - x);
  }

  lemma WrappedDifference(d: int)
    requires -2 * TWO_TO_63 < d < 2 * TWO_TO_63
    ensures Wrap64(d) == if d > MAX_INT64 then d - 2 * TWO_TO_63 else if d < MIN_INT64 then d + 2 * TWO_TO_63 else d
  {
  }

  /** Numbers whose differences are the same in machine arithmetic. */
  predicate Near(x: int, y: int) {
    FitsInt64(x - y) && FitsInt64(y - x)
  }

  predicate IsDigit(c: char) {
    '0' <= c <= '9'
  }

  predicate AllDigits(s: string) {
    forall i :: 0 <= i < |s| ==> IsDigit(s[i])
  }

  /** The length of the leading run of digits. */
  function Digits(s: string): (n: nat)
    ensures n <= |s|
    ensures AllDigits(s[..n])
    ensures n < |s| ==> !IsDigit(s[n])
  {
    if s == "" || !IsDigit(s[0]) then 0
    else
      var n := 1 + Digits(s[1..]);
      assert forall k :: 0 < k < n ==> s[..n][k] == s[1..][..n - 1][k - 1];
      n
  }

  function Digit(c: char): int {
    c as int - '0' as int
  }

  /** The number a run of digits denotes, whatever its length. */
  function Value(s: string): int {
    if s == "" then 0 else 10 * Value(s[..|s| - 1]) + Digit(s[|s| - 1])
  }

  function Pow10(n: nat): (p: nat)
    ensures p >= 1
  {
    if n == 0 then 1 else 10 * Pow10(n - 1)
  }

  lemma {:induction false} ValueBounds(s: string)
    requires AllDigits(s)
    ensures 0 <= Value(s) < Pow10(|s|)
    ensures s != "" && s[0] != '0' ==> Value(s) >= Pow10(|s| - 1)
  {
    if |s| == 1 {
      assert s[..0] == "";
    } else if |s| > 1 {
      ValueBounds(s[..|s| - 1]);
    }
  }

  /** Appending one digit. */
  lemma ValueSnoc(s: string, c: char)
    ensures Value(s + [c]) == 10 * Value(s) + Digit(c)
  {
    assert (s + [c])[..|s|] == s;
  }

  lemma {:induction false} ValueDropZero(s: string)
    requires s != "" && s[0] == '0'
    ensures Value(s) == Value(s[1..])
  {
    if |s| > 1 {
      var t := s[..|s| - 1];
      ValueDropZero(t);
      assert s[1..][..|s| - 2] == t[1..];
    } else {
      assert s[..0] == "";
    }
  }

  /** Without a leading zero, the longer run of digits is the larger number. */
  lemma LongerIsLarger(s: string, t: string)
    requires AllDigits(s) && AllDigits(t)
    requires |s| > |t| && s[0] != '0'
    ensures Value(s) > Value(t)
  {
    ValueBounds(s);
    ValueBounds(t);
    Pow10Monotone(|t|, |s| - 1);
  }

  function TrimZeros(s: string): (r: string)
    ensures |r| <= |s| && r == s[|s| - |r|..]
    ensures r != "" ==> r[0] != '0'
  {
    if s != "" && s[0] == '0' then TrimZeros(s[1..]) else s
  }

  lemma {:induction false} ValueOfTrimZeros(s: string)
    ensures Value(TrimZeros(s)) == Value(s)
  {
    if s != "" && s[0] == '0' {
      ValueDropZero(s);
      ValueOfTrimZeros(s[1..]);
    }
  }

  lemma {:induction false} CompareSnoc(s: string, t: string, c: char, d: char)
    requires |s| == |t|
    ensures var r := Compare(s, t);
            Compare(s + [c], t + [d]) == if r != 0 then r else Sign(c as int - d as int)
    decreases |s|
  {
    if s == "" {
      assert s + [c] == [c] && t + [d] == [d];
    } else {
      CompareSnoc(s[1..], t[1..], c, d);
      assert (s + [c])[1..] == s[1..] + [c] && (t + [d])[1..] == t[1..] + [d];
    }
  }

  /** Between runs of digits of one length, byte order is numeric order. */
  lemma {:induction false} ByteOrderIsNumeric(s: string, t: string)
    requires AllDigits(s) && AllDigits(t) && |s| == |t|
    ensures Compare(s, t) == Sign(Value(s) - Value(t))
    decreases |s|
  {
    hide Compare;
    if s == "" {
      assert s == t;
    } else {
      var u, v := s[..|s| - 1], t[..|t| - 1];
      var c, d := s[|s| - 1], t[|t| - 1];
      ByteOrderIsNumeric(u, v);
      CompareSnoc(u, v, c, d);
      assert s == u + [c] && t == v + [d];
    }
  }

  lemma {:induction false} Pow10Monotone(m: nat, n: nat)
    requires m <= n
    ensures Pow10(m) <= Pow10(n)
  {
    if m < n {
      Pow10Monotone(m, n - 1);
    }
  }

  // ----- strconv.Itoa and strconv.Atoi

  function DigitChar(d: int): (c: char)
    requires 0 <= d <= 9
    ensures IsDigit(c) && Digit(c) == d
  {
    '0' + d as char
  }

  function NatToString(n: nat): (s: string)
    ensures AllDigits(s) && s != ""
    ensures n > 0 ==> s[0] != '0'
    ensures n < 10 ==> |s| == 1
  {
    if n < 10 then [DigitChar(n)] else NatToString(n / 10) + [DigitChar(n % 10)]
  }

  function Itoa(n: int): string {
    if n < 0 then "-" + NatToString(-n) else NatToString(n)
  }

  /** `strconv.Atoi` on a 64-bit machine: an optional sign, then digits only, inside int64. */
  function Atoi(s: string): Option<int> {
    var negative := s != "" && s[0] == '-';
    var digits := if s != "" && (s[0] == '-' || s[0] == '+') then s[1..] else s;
    if digits == "" || !AllDigits(digits) then None
    else
      var n := if negative then -Value(digits) else Value(digits);
      if FitsInt64(n) then Some(n) else None
  }

  lemma {:induction false} ValueOfNatToString(n: nat)
    ensures Value(NatToString(n)) == n
  {
    if n < 10 {
      assert [DigitChar(n)][..0] == "";
    } else {
      ValueOfNatToString(n / 10);
      ValueSnoc(NatToString(n / 10), DigitChar(n % 10));
    }
  }

  /** Atoi reads back every int64 that Itoa prints. */
  lemma AtoiItoa(n: int)
    ensures Atoi(Itoa(n)) == if FitsInt64(n) then Some(n) else None
  {
    hide NatToString, Value;
    var m: nat := if n < 0 then -n else n;
    var digits := NatToString(m);
    ValueOfNatToString(m);
    if n < 0 {
      assert Itoa(n) == ['-'] + digits && Itoa(n)[1..] == digits;
    } else {
      assert IsDigit(digits[0]);
    }
  }

  /** What Atoi accepts: digits, after a sign or none, whose number is an int64. */
  lemma AtoiAccepts(sign: string, digits: string)
    requires sign == "" || sign == "+" || sign == "-"
    requires digits == "" || (digits[0] != '+' && digits[0] != '-')
    ensures var n := if sign == "-" then -Value(digits) else Value(digits);
            Atoi(sign + digits) ==
            if digits != "" && (forall c | c in digits :: '0' <= c <= '9')
               && -0x8000_0000_0000_0000 <= n <= 0x7fff_ffff_ffff_ffff
            then Some(n) else None
  {
    hide Value;
    var s := sign + digits;
    assert AllDigits(digits) <==> forall c | c in digits :: '0' <= c <= '9' by {
      assert forall i :: 0 <= i < |digits| ==> digits[i] in digits;
    }
    assert sign == "" ==> s == digits;
    assert sign != "" ==> s[0] == sign[0] && s[1..] == digits;
  }

  lemma {:induction false} NatToStringLength(n: nat, d: nat)
    requires d >= 1
    ensures |NatToString(n)| <= d <==> n < Pow10(d)
    decreases n
  {
    if n < 10 {
      Pow10Monotone(1, d);
      assert Pow10(1) == 10;
    } else if d == 1 {
      assert Pow10(1) == 10;
    } else {
      NatToStringLength(n / 10, d - 1);
      assert Pow10(d) == 10 * Pow10(d - 1);
    }
  }

  lemma ItoaChars(n: int, c: char)
    requires c in Itoa(n)
    ensures IsDigit(c) || c == '-'
  {
  }
}
