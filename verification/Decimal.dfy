/** Zero-padded decimal numbers, as fmt's %06d prints them. */
module Decimal {

  function DigitChar(d: nat): char
    requires d < 10
  {
    '0' + d as char
  }

  function DigitValue(c: char): int {
    c as int - '0' as int
  }

  function Digits(n: nat): string {
    if n < 10 then [DigitChar(n)] else Digits(n / 10) + [DigitChar(n % 10)]
  }

  function Zeros(k: nat): string {
    if k == 0 then "" else Zeros(k - 1) + "0"
  }

  /** At least `width` characters, padded with zeros on the left. */
  function Padded(n: nat, width: nat): string {
    var d := Digits(n);
    (if |d| < width then Zeros(width - |d|) else "") + d
  }

  function Value(s: string): int {
    if s == "" then 0 else 10 * Value(s[..|s| - 1]) + DigitValue(s[|s| - 1])
  }

  lemma {:induction false} ValueAfterZeros(k: nat, s: string)
    ensures Value(Zeros(k) + s) == Value(s)
    decreases k, |s|
  {
    if s != "" {
      assert (Zeros(k) + s)[..|Zeros(k) + s| - 1] == Zeros(k) + s[..|s| - 1];
      ValueAfterZeros(k, s[..|s| - 1]);
    } else if k > 0 {
      assert Zeros(k) + s == Zeros(k - 1) + "0";
      assert (Zeros(k - 1) + "0")[..|Zeros(k - 1)|] == Zeros(k - 1) + "";
      ValueAfterZeros(k - 1, "");
    } else {
      assert Zeros(k) + s == "";
    }
  }

  lemma {:induction false} ValueOfDigits(n: nat)
    ensures Value(Digits(n)) == n
  {
    if n >= 10 {
      ValueOfDigits(n / 10);
      assert Digits(n)[..|Digits(n)| - 1] == Digits(n / 10);
    } else {
      assert Digits(n)[..0] == "";
    }
  }

  /** A printed number reads back as itself. */
  lemma {:induction false} ValueOfPadded(n: nat, width: nat)
    ensures Value(Padded(n, width)) == n
  {
    ValueOfDigits(n);
    var d := Digits(n);
    if |d| < width {
      ValueAfterZeros(width - |d|, d);
    } else {
      assert "" + d == d;
    }
  }

  /** At least the wanted width, and no padding beyond it. */
  lemma {:induction false} PaddedWidth(n: nat, width: nat)
    ensures width <= |Padded(n, width)|
    ensures width < |Padded(n, width)| && 1 < |Padded(n, width)| ==> Padded(n, width)[0] != '0'
  {
    NoLeadingZero(n);
    if |Digits(n)| < width {
      ZerosLength(width - |Digits(n)|);
    } else {
      assert "" + Digits(n) == Digits(n);
    }
  }

  lemma {:induction false} ZerosLength(k: nat)
    ensures |Zeros(k)| == k
  {
    if k == 0 {
    } else {
      ZerosLength(k - 1);
    }
  }

  lemma {:induction false} NoLeadingZero(n: nat)
    ensures |Digits(n)| >= 1 && (n > 0 ==> Digits(n)[0] != '0')
    ensures n == 0 ==> |Digits(n)| == 1
  {
    if n >= 10 {
      NoLeadingZero(n / 10);
    }
  }

  lemma {:induction false} DigitsAreDigits(n: nat)
    ensures forall c :: c in Digits(n) ==> '0' <= c <= '9'
  {
    if n < 10 {
    } else {
      DigitsAreDigits(n / 10);
    }
  }

  lemma {:induction false} ZerosAreZeros(k: nat)
    ensures forall c :: c in Zeros(k) ==> c == '0'
  {
    if k == 0 {
    } else {
      ZerosAreZeros(k - 1);
    }
  }

  lemma {:induction false} PaddedAreDigits(n: nat, width: nat)
    ensures forall c :: c in Padded(n, width) ==> '0' <= c <= '9'
  {
    DigitsAreDigits(n);
    if |Digits(n)| < width {
      ZerosAreZeros(width - |Digits(n)|);
    }
  }
}
