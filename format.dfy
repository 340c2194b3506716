/** Python's `'%0<w>d'` integer conversion, used for the alignment parameter
    keys (`'%02d'`) and the section image file names (`'%04d'`, `'%d'`),
    together with the decimal parser that inverts it. */
module Format {
  import opened Wrappers

  predicate IsDigit(c: char) {
    '0' <= c <= '9'
  }

  predicate AllDigits(s: string) {
    forall i :: 0 <= i < |s| ==> IsDigit(s[i])
  }

  function DigitChar(d: nat): char
    requires d < 10
  {
    "0123456789"[d]
  }

  function DigitValue(c: char): nat
    requires IsDigit(c)
  {
    (c as int - '0' as int) as nat
  }

  /** The shortest decimal spelling of `n` (Python's `str(n)` for n >= 0). */
  function Digits(n: nat): (s: string)
    ensures |s| >= 1 && AllDigits(s)
    decreases n
  {
    if n < 10 then [DigitChar(n)] else Digits(n / 10) + [DigitChar(n % 10)]
  }

  function Zeros(k: nat): (s: string)
    ensures |s| == k && AllDigits(s)
  {
    seq(k, _ => '0')
  }

  /** Left-pads with '0' up to `width` characters. */
  function PadLeft(s: string, width: int): string {
    if |s| >= width then s else Zeros(width - |s|) + s
  }

  /** `'%0<width>d' % n`: zero padding counts the sign in the width, so
      `'%04d' % -5 == '-005'`; `'%d' % n` is width 0. */
  function ZeroPadded(n: int, width: int): (s: string)
    ensures |s| >= width
    ensures n >= 0 ==> AllDigits(s)
  {
    if n >= 0 then PadLeft(Digits(n), width) else "-" + PadLeft(Digits(-n), width - 1)
  }

  /** The value of a digit string, read most significant digit first. */
  function DecimalValue(s: string): nat
    requires AllDigits(s)
  {
    if s == [] then 0 else DecimalValue(s[..|s| - 1]) * 10 + DigitValue(s[|s| - 1])
  }

  /** Python's `int(s)` restricted to an optional '-' followed by digits. */
  function ParseInt(s: string): Option<int> {
    if |s| > 0 && s[0] == '-' then
      if |s| > 1 && AllDigits(s[1..]) then Some(0 - DecimalValue(s[1..])) else None
    else if |s| > 0 && AllDigits(s) then Some(DecimalValue(s))
    else None
  }

  lemma {:induction false} DigitsValue(n: nat)
    ensures DecimalValue(Digits(n)) == n
    decreases n
  {
    var s := Digits(n);
    DigitCharValue(n % 10);
    if n >= 10 {
      assert s[..|s| - 1] == Digits(n / 10);
      DigitsValue(n / 10);
      assert DecimalValue(s) == (n / 10) * 10 + n % 10;
    } else {
      assert s[..0] == [];
    }
  }

  lemma DigitCharValue(d: nat)
    requires d < 10
    ensures DigitValue(DigitChar(d)) == d
  {
  }

  lemma {:induction false} ZerosValue(k: nat)
    ensures DecimalValue(Zeros(k)) == 0
  {
    if k > 0 {
      assert Zeros(k)[..k - 1] == Zeros(k - 1);
      ZerosValue(k - 1);
    }
  }

  /** Leading zeros do not change a decimal value. */
  lemma {:induction false} LeadingZerosValue(k: nat, s: string)
    requires AllDigits(s)
    ensures AllDigits(Zeros(k) + s)
    ensures DecimalValue(Zeros(k) + s) == DecimalValue(s)
  {
    var t := Zeros(k) + s;
    assert AllDigits(t) by {
      forall i | 0 <= i < |t| ensures IsDigit(t[i]) {
        if i < k { assert t[i] == Zeros(k)[i]; } else { assert t[i] == s[i - k]; }
      }
    }
    if s == [] {
      assert t == Zeros(k);
      ZerosValue(k);
    } else {
      assert t[..|t| - 1] == Zeros(k) + s[..|s| - 1];
      LeadingZerosValue(k, s[..|s| - 1]);
    }
  }

  lemma PadLeftValue(n: nat, width: int)
    ensures AllDigits(PadLeft(Digits(n), width))
    ensures DecimalValue(PadLeft(Digits(n), width)) == n
  {
    DigitsValue(n);
    var s := Digits(n);
    if |s| < width {
      assert PadLeft(s, width) == Zeros(width - |s|) + s;
      LeadingZerosValue(width - |s|, s);
    } else {
      assert PadLeft(s, width) == s;
    }
  }

  /** The conversion is inverted by parsing: `int('%0<w>d' % n) == n`. */
  lemma ParseZeroPadded(n: int, width: int)
    ensures ParseInt(ZeroPadded(n, width)) == Some(n)
  {
    var s := ZeroPadded(n, width);
    if n >= 0 {
      PadLeftValue(n, width);
      assert s == PadLeft(Digits(n), width);
      assert s[0] != '-' by { assert IsDigit(s[0]); }
    } else {
      var t := PadLeft(Digits(-n), width - 1);
      PadLeftValue(-n, width - 1);
      assert s == "-" + t && s[1..] == t && |t| >= 1;
    }
  }

  /** Distinct integers never share a spelling, whatever the width. */
  lemma ZeroPaddedInjective(m: int, n: int, width: int)
    requires ZeroPadded(m, width) == ZeroPadded(n, width)
    ensures m == n
  {
    ParseZeroPadded(m, width);
    ParseZeroPadded(n, width);
  }

  function Pow10(k: nat): (r: nat)
    ensures r >= 1
  {
    if k == 0 then 1 else 10 * Pow10(k - 1)
  }

  /** A number below `10^k` needs at most `k` digits. */
  lemma {:induction false} DigitsLength(n: nat, k: nat)
    requires k >= 1 && n < Pow10(k)
    ensures |Digits(n)| <= k
    decreases k
  {
    if n >= 10 {
      DigitsLength(n / 10, k - 1);
    }
  }

  /** `'%0<w>d' % n` of a non-negative `n` below `10^w` has exactly `w` digits. */
  lemma PaddedWidth(n: nat, width: nat)
    requires width >= 1 && n < Pow10(width)
    ensures |ZeroPadded(n, width)| == width
  {
    DigitsLength(n, width);
  }

  /** Only digits and a leading minus sign appear in the spelling. */
  lemma PaddedCharacters(n: int, width: int)
    ensures forall i :: 0 <= i < |ZeroPadded(n, width)| ==>
      IsDigit(ZeroPadded(n, width)[i]) || (i == 0 && ZeroPadded(n, width)[i] == '-')
  {
    if n < 0 {
      PadLeftValue(-n, width - 1);
    }
  }
}
