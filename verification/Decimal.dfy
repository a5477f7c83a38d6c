/** Decimal text: what a digit string is worth, and the printing and parsing that Go's library does. */
module Decimal {
  import opened GoInt64
  import opened GoStrings

  datatype Option<+T> = None | Some(value: T)

  predicate IsDigit(c: char) {
    '0' <= c <= '9'
  }

  predicate AllDigits(s: string) {
    forall i :: 0 <= i < |s| ==> IsDigit(s[i])
  }

  function DigitValue(c: char): (d: nat)
    ensures d <= 9
  {
    if IsDigit(c) then c as int - '0' as int else 0
  }

  function DigitChar(d: nat): (c: char)
    requires d <= 9
    ensures IsDigit(c) && DigitValue(c) == d
  {
    (d + '0' as int) as char
  }

  lemma DigitsInOrder(d: nat)
    requires d <= 9
    ensures DigitChar(d) == "0123456789"[d]
  {
  }

  /** The number a digit string denotes, read most significant digit first. */
  function NatOf(s: string): nat {
    if s == "" then 0 else NatOf(s[..|s| - 1]) * 10 + DigitValue(s[|s| - 1])
  }

  /** The shortest digits of a natural number. */
  function FormatNat(n: nat): (s: string)
    ensures |s| >= 1 && AllDigits(s)
  {
    if n < 10 then [DigitChar(n)] else FormatNat(n / 10) + [DigitChar(n % 10)]
  }

  /** `strconv.FormatInt(x, 10)` and the `%d` verb. */
  function FormatInt(x: int): string {
    if x >= 0 then FormatNat(x) else "-" + FormatNat(-x)
  }

  /** The `%0<width>d` verb: zeros go between the sign and the digits, and the sign counts. */
  function FormatPadded(x: int, width: nat): string {
    var digits := FormatNat(if x >= 0 then x else -x);
    var sign := if x >= 0 then "" else "-";
    var used := |sign| + |digits|;
    sign + Repeat('0', if used < width then width - used else 0) + digits
  }

  /** `strconv.ParseInt(s, 10, 64)`: optional sign, digits only, in range. */
  function ParseInt(s: string): Option<int64> {
    var digits := if HasPrefix(s, '-') || HasPrefix(s, '+') then s[1..] else s;
    if digits == "" || !AllDigits(digits) then None
    else
      var magnitude: int := NatOf(digits);
      var n := if HasPrefix(s, '-') then -magnitude else magnitude;
      if InInt64(n) then Some(n) else None
  }

  /** No superfluous leading zero. */
  predicate IsShortest(s: string) {
    s != "" && AllDigits(s) && (|s| > 1 ==> s[0] != '0')
  }

  lemma {:induction false} NatOfFormat(n: nat)
    ensures NatOf(FormatNat(n)) == n
    ensures IsShortest(FormatNat(n))
    ensures n > 0 ==> FormatNat(n)[0] != '0'
  {
    if n >= 10 {
      NatOfFormat(n / 10);
      var s := FormatNat(n);
      assert s[..|s| - 1] == FormatNat(n / 10);
    } else {
      assert FormatNat(n)[..0] == "";
    }
  }

  lemma {:induction false} FormatOfNat(s: string)
    requires IsShortest(s)
    ensures FormatNat(NatOf(s)) == s
    ensures s[0] != '0' ==> NatOf(s) > 0
  {
    if |s| == 1 {
      assert s[..0] == "";
      assert NatOf(s) == DigitValue(s[0]);
    } else {
      var head := s[..|s| - 1];
      FormatOfNat(head);
      assert NatOf(s) / 10 == NatOf(head) && NatOf(s) % 10 == DigitValue(s[|s| - 1]);
      assert s == head + [s[|s| - 1]];
    }
  }

  lemma {:induction false} LeadingZeros(n: nat, s: string)
    ensures NatOf(Repeat('0', n) + s) == NatOf(s)
  {
    var t := Repeat('0', n) + s;
    if s != "" {
      assert t[..|t| - 1] == Repeat('0', n) + s[..|s| - 1];
      LeadingZeros(n, s[..|s| - 1]);
    } else if n > 0 {
      assert t[..|t| - 1] == Repeat('0', n - 1) + s;
      LeadingZeros(n - 1, s);
    }
  }

  lemma DigitValueInjective(c: char, d: char)
    requires IsDigit(c) && IsDigit(d) && DigitValue(c) == DigitValue(d)
    ensures c == d
  {
  }

  lemma LastDigit(a: nat, d: nat, b: nat, e: nat)
    requires d <= 9 && e <= 9 && a * 10 + d == b * 10 + e
    ensures a == b && d == e
  {
  }

  /** Digit strings of equal length are told apart by their value. */
  lemma {:induction false} SameLengthSameValue(s: string, t: string)
    requires |s| == |t| && AllDigits(s) && AllDigits(t) && NatOf(s) == NatOf(t)
    ensures s == t
  {
    if s != "" {
      var n := |s| - 1;
      LastDigit(NatOf(s[..n]), DigitValue(s[n]), NatOf(t[..n]), DigitValue(t[n]));
      SameLengthSameValue(s[..n], t[..n]);
      DigitValueInjective(s[n], t[n]);
      assert s == s[..n] + [s[n]] && t == t[..n] + [t[n]];
    }
  }

  function Pow10(n: nat): nat {
    if n == 0 then 1 else 10 * Pow10(n - 1)
  }

  /** The first digit counts most: each digit after it multiplies it by ten. */
  lemma {:induction false} FirstDigitCounts(s: string)
    requires s != ""
    ensures NatOf(s) == DigitValue(s[0]) * Pow10(|s| - 1) + NatOf(s[1..])
  {
    var n := |s| - 1;
    if n == 0 {
      assert s[..0] == "" && s[1..] == "";
    } else {
      FirstDigitCounts(s[..n]);
      assert s[..n][1..] == s[1..][..n - 1];
      assert DigitValue(s[0]) * Pow10(n) == DigitValue(s[0]) * Pow10(n - 1) * 10;
    }
  }

  lemma {:induction false} NatOfBound(s: string)
    ensures NatOf(s) < Pow10(|s|)
  {
    if s != "" {
      NatOfBound(s[..|s| - 1]);
    }
  }

  /** A number below ten to the k prints in at most k digits. */
  lemma {:induction false} FormatLength(n: nat, k: nat)
    requires k >= 1 && n < Pow10(k)
    ensures |FormatNat(n)| <= k
  {
    if n >= 10 {
      assert Pow10(1) == 10 * Pow10(0);
      FormatLength(n / 10, k - 1);
    }
  }

  /** Padding a small number gives exactly `width` digits of the same value. */
  lemma PaddedDigits(n: nat, width: nat)
    requires width >= 1 && n < Pow10(width)
    ensures |FormatPadded(n, width)| == width
    ensures AllDigits(FormatPadded(n, width))
    ensures NatOf(FormatPadded(n, width)) == n
  {
    FormatLength(n, width);
    NatOfFormat(n);
    var digits := FormatNat(n);
    LeadingZeros(width - |digits|, digits);
    assert FormatPadded(n, width) == Repeat('0', width - |digits|) + digits;
  }

  lemma FormatIntInjective(x: int, y: int)
    requires FormatInt(x) == FormatInt(y)
    ensures x == y
  {
    NatOfFormat(if x >= 0 then x else -x);
    NatOfFormat(if y >= 0 then y else -y);
    assert IsDigit(FormatNat(if x >= 0 then x else -x)[0]);
    assert IsDigit(FormatNat(if y >= 0 then y else -y)[0]);
    if x < 0 && y < 0 {
      assert FormatInt(x)[1..] == FormatNat(-x) && FormatInt(y)[1..] == FormatNat(-y);
    }
  }
}
