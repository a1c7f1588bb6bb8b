/** Numbers as the source prints and parses them. */
module Decimals {
  import opened Wrappers

  predicate IsDigit(c: char) { '0' <= c <= '9' }

  predicate AllDigits(s: string) { forall i :: 0 <= i < |s| ==> IsDigit(s[i]) }

  function DigitValue(c: char): (n: nat)
    requires IsDigit(c)
    ensures n < 10
  {
    (c - '0') as nat
  }

  function Value(digits: string): nat
    requires AllDigits(digits)
  {
    if digits == "" then 0 else 10 * Value(digits[..|digits| - 1]) + DigitValue(digits[|digits| - 1])
  }

  function Digit(n: nat): (c: char)
    requires n < 10
    ensures IsDigit(c)
  {
    '0' + n as char
  }

  /** `{n}`: decimal, without leading zeros. */
  function Decimal(n: nat): (s: string)
    ensures AllDigits(s) && s != ""
  {
    if n < 10 then [Digit(n)] else Decimal(n / 10) + [Digit(n % 10)]
  }

  function Zeros(n: nat): string { seq(n, _ => '0') }

  /** `{n:0width$}`: padded with zeros to the width, and longer when the number is. */
  function Padded(n: nat, width: nat): (s: string)
    ensures AllDigits(s) && |s| >= width && s != ""
  {
    var s := Decimal(n);
    if |s| < width then Zeros(width - |s|) + s else s
  }

  function Pow10(w: nat): nat { if w == 0 then 1 else 10 * Pow10(w - 1) }

  lemma {:induction false} ValueBelow(s: string)
    requires AllDigits(s)
    ensures Value(s) < Pow10(|s|)
  {
    if s != "" { ValueBelow(s[..|s| - 1]); }
  }

  lemma {:induction false} DecimalIs(n: nat)
    ensures Value(Decimal(n)) == n
    ensures n > 0 ==> Decimal(n)[0] != '0'
  {
    if n >= 10 {
      DecimalIs(n / 10);
      assert Decimal(n)[..|Decimal(n)| - 1] == Decimal(n / 10);
    }
  }

  lemma {:induction false} LeadingZeros(k: nat, s: string)
    requires AllDigits(s)
    ensures AllDigits(Zeros(k) + s) && Value(Zeros(k) + s) == Value(s)
  {
    if s != "" {
      LeadingZeros(k, s[..|s| - 1]);
      assert (Zeros(k) + s)[..|Zeros(k) + s| - 1] == Zeros(k) + s[..|s| - 1];
    } else if k > 0 {
      LeadingZeros(k - 1, s);
      assert (Zeros(k) + s)[..k - 1] == Zeros(k - 1) + s;
    }
  }

  lemma {:induction false} PaddedIs(n: nat, width: nat)
    ensures Value(Padded(n, width)) == n
  {
    DecimalIs(n);
    if |Decimal(n)| < width { LeadingZeros(width - |Decimal(n)|, Decimal(n)); }
  }

  /** As many digits as a number has. */
  lemma {:induction false} DecimalLength(n: nat, width: nat)
    requires width > 0
    ensures |Decimal(n)| <= width <==> n < Pow10(width)
    decreases width
  {
    if width == 1 {
      assert Pow10(1) == 10;
    } else if n >= 10 {
      DecimalLength(n / 10, width - 1);
    } else {
      ValueBelow(Zeros(width));
      LeadingZeros(width, "");
      PowersGrow(width);
    }
  }

  lemma {:induction false} PowersGrow(width: nat)
    requires width > 0
    ensures Pow10(width) >= 10
  {
    if width > 1 { PowersGrow(width - 1); }
  }

  /** Digits of the same length spelling the same number are the same. */
  lemma {:induction false} SameValueSameDigits(a: string, b: string)
    requires AllDigits(a) && AllDigits(b) && |a| == |b| && Value(a) == Value(b)
    ensures a == b
  {
    if a != "" {
      var n := |a| - 1;
      assert DigitValue(a[n]) < 10 && DigitValue(b[n]) < 10;
      SameValueSameDigits(a[..n], b[..n]);
      assert a == a[..n] + [a[n]] && b == b[..n] + [b[n]];
    }
  }

  /** Printing the number that digits spell, at their width, gives the digits back. */
  lemma {:induction false} PaddedUndoesValue(digits: string)
    requires AllDigits(digits) && digits != ""
    ensures Padded(Value(digits), |digits|) == digits
  {
    var n := Value(digits);
    ValueBelow(digits);
    DecimalLength(n, |digits|);
    PaddedIs(n, |digits|);
    SameValueSameDigits(Padded(n, |digits|), digits);
  }

  /** `parse::<u64>` of digits. */
  function ParseU64(digits: string): Option<nat>
    requires AllDigits(digits)
  {
    if digits != "" && Value(digits) < U64_RANGE then Some(Value(digits)) else None
  }
}
