/**
 * The parts of the Java runtime's number/text conversions that the views rely on:
 * `String.valueOf(int)`, `Integer.parseInt(String)` and the `%0<w>d` conversion of
 * `String.format`. Digits are ASCII decimal digits throughout.
 */
module JavaText {
  import opened Wrappers

  const IntMin: int := -0x8000_0000
  const IntMax: int := 0x7FFF_FFFF

  /** The range of a Java `int`. */
  predicate IsInt32(n: int) {
    IntMin <= n <= IntMax
  }

  predicate IsDigit(c: char) {
    '0' <= c <= '9'
  }

  predicate AllDigits(s: string) {
    forall i :: 0 <= i < |s| ==> IsDigit(s[i])
  }

  function DigitChar(k: nat): (c: char)
    requires k < 10
    ensures IsDigit(c) && c as int - '0' as int == k
  {
    ('0' as int + k) as char
  }

  function Pow10(k: nat): (p: nat)
    ensures p >= 1
  {
    if k == 0 then 1 else 10 * Pow10(k - 1)
  }

  /** The decimal digits of `n`, most significant first, with no leading zero. */
  function Digits(n: nat): (s: string)
    ensures |s| >= 1 && AllDigits(s)
    ensures |s| > 1 ==> s[0] != '0'
    decreases n
  {
    if n < 10 then [DigitChar(n)] else Digits(n / 10) + [DigitChar(n % 10)]
  }

  /** The number a string of decimal digits denotes (leading zeros allowed). */
  function ValueOf(s: string): nat
    requires AllDigits(s)
  {
    if s == [] then 0 else ValueOf(s[..|s| - 1]) * 10 + (s[|s| - 1] as int - '0' as int)
  }

  /** `String.valueOf(int)`: an optional minus sign followed by the digits. */
  function IntToString(n: int): (s: string)
    ensures |s| >= 1 && (s[0] == '-' <==> n < 0)
    ensures n < 0 ==> s[1..] == Digits(-n)
    ensures n >= 0 ==> AllDigits(s) && (|s| > 1 ==> s[0] != '0')
  {
    if n < 0 then "-" + Digits(-n) else Digits(n)
  }

  /**
   * `Integer.parseInt(String)`: an optional `+` or `-`, then at least one digit, and
   * the value must fit in an `int`; anything else throws `NumberFormatException`,
   * which is `None` here.
   */
  function ParseInt(s: string): (r: Option<int>)
    ensures r.Some? ==> IsInt32(r.value) && |s| >= 1
    ensures r.Some? && IsDigit(s[0]) ==> r.value >= 0
  {
    if |s| == 0 then None
    else if s[0] == '-' || s[0] == '+' then
      var body := s[1..];
      if |body| == 0 || !AllDigits(body) then None
      else
        var v: int := if s[0] == '-' then -(ValueOf(body) as int) else ValueOf(body);
        if IsInt32(v) then Some(v) else None
    else if AllDigits(s) && ValueOf(s) <= IntMax then Some(ValueOf(s))
    else None
  }

  /** `k` zero characters (none when `k` is not positive). */
  function Zeros(k: int): (s: string)
    ensures |s| == if k > 0 then k else 0
    ensures AllDigits(s)
    decreases k
  {
    if k <= 0 then "" else "0" + Zeros(k - 1)
  }

  /**
   * `String.format("%0<width>d", n)`: the digits of `|n|`, left-padded with zeros so
   * that sign and digits together take at least `width` characters.
   */
  function FormatZeroPadded(n: int, width: nat): (s: string)
    ensures |s| >= width
    ensures n >= 0 ==> AllDigits(s) && |s| == (if width > |Digits(n)| then width else |Digits(n)|)
    ensures n < 0 ==> |s| >= 2 && s[0] == '-' && AllDigits(s[1..])
  {
    if n < 0 then
      AllDigitsAppend(Zeros(width - 1 - |Digits(-n)|), Digits(-n));
      assert ("-" + Zeros(width - 1 - |Digits(-n)|) + Digits(-n))[1..] == Zeros(width - 1 - |Digits(-n)|) + Digits(-n);
      "-" + Zeros(width - 1 - |Digits(-n)|) + Digits(-n)
    else
      AllDigitsAppend(Zeros(width - |Digits(n)|), Digits(n));
      Zeros(width - |Digits(n)|) + Digits(n)
  }

  lemma AllDigitsAppend(a: string, b: string)
    requires AllDigits(a) && AllDigits(b)
    ensures AllDigits(a + b)
  {
    forall i | 0 <= i < |a + b| ensures IsDigit((a + b)[i]) {
      if i < |a| { assert (a + b)[i] == a[i]; } else { assert (a + b)[i] == b[i - |a|]; }
    }
  }

  lemma ShiftDigit(va: int, p: int, vb: int, last: int)
    ensures (va * p + vb) * 10 + last == va * (p * 10) + (vb * 10 + last)
  {
  }

  /** The value of a concatenation: the left part shifted by the length of the right part. */
  lemma {:induction false} ValueOfAppend(a: string, b: string)
    requires AllDigits(a) && AllDigits(b)
    ensures AllDigits(a + b)
    ensures ValueOf(a + b) == ValueOf(a) * Pow10(|b|) + ValueOf(b)
    decreases |b|
  {
    AllDigitsAppend(a, b);
    if b == [] {
      assert a + b == a;
    } else {
      var b' := b[..|b| - 1];
      var last := b[|b| - 1] as int - '0' as int;
      assert (a + b)[..|a + b| - 1] == a + b';
      assert (a + b)[|a + b| - 1] == b[|b| - 1];
      ValueOfAppend(a, b');
      assert ValueOf(a + b) == ValueOf(a + b') * 10 + last;
      assert ValueOf(b) == ValueOf(b') * 10 + last;
      assert Pow10(|b|) == Pow10(|b'|) * 10;
      ShiftDigit(ValueOf(a), Pow10(|b'|), ValueOf(b'), last);
    }
  }

  lemma {:induction false} ValueOfZeros(k: int)
    ensures ValueOf(Zeros(k)) == 0
    decreases k
  {
    if k > 0 {
      ValueOfZeros(k - 1);
      ValueOfAppend("0", Zeros(k - 1));
    }
  }

  /** Reading back the digits of `n` gives `n`. */
  lemma {:induction false} ValueOfDigits(n: nat)
    ensures ValueOf(Digits(n)) == n
    decreases n
  {
    if n >= 10 {
      var s := Digits(n);
      assert s[..|s| - 1] == Digits(n / 10);
      ValueOfDigits(n / 10);
    }
  }

  /** More than `k` digits are needed only for numbers of at least `10^k`. */
  lemma {:induction false} DigitsLength(n: nat, k: nat)
    requires 1 <= k && n < Pow10(k)
    ensures |Digits(n)| <= k
    decreases k
  {
    if n >= 10 {
      DigitsLength(n / 10, k - 1);
    }
  }

  /** A number of at least `10^(k-1)` has at least `k` digits. */
  lemma {:induction false} DigitsLengthAtLeast(n: nat, k: nat)
    requires 1 <= k && Pow10(k - 1) <= n
    ensures |Digits(n)| >= k
    decreases k
  {
    if k > 1 {
      DigitsLengthAtLeast(n / 10, k - 1);
    }
  }

  /** `Integer.parseInt(String.valueOf(n)) == n` for every Java `int`. */
  lemma ParseIntOfIntToString(n: int)
    requires IsInt32(n)
    ensures ParseInt(IntToString(n)) == Some(n)
  {
    if n < 0 {
      ParseIntOfNegative(n);
    } else {
      ValueOfDigits(n);
      ParseIntOfDigitString(Digits(n));
    }
  }

  lemma ParseIntOfNegative(n: int)
    requires IntMin <= n < 0
    ensures ParseInt("-" + Digits(-n)) == Some(n)
  {
    var s := "-" + Digits(-n);
    assert s[0] == '-' && s[1..] == Digits(-n);
    ValueOfDigits(-n);
    assert -(ValueOf(s[1..]) as int) == n;
  }

  /** An unsigned digit string within range parses to the number it denotes. */
  lemma ParseIntOfDigitString(s: string)
    requires |s| >= 1 && AllDigits(s) && ValueOf(s) <= IntMax
    ensures ParseInt(s) == Some(ValueOf(s))
  {
    assert IsDigit(s[0]);
  }

  /** Leading zeros do not change the value of a digit string. */
  lemma ValueOfPadded(k: int, n: nat)
    ensures AllDigits(Zeros(k) + Digits(n)) && ValueOf(Zeros(k) + Digits(n)) == n
  {
    var z, d := Zeros(k), Digits(n);
    ValueOfZeros(k);
    ValueOfDigits(n);
    ValueOfAppend(z, d);
    var p := Pow10(|d|);
    assert ValueOf(z) * p == 0 by { assert ValueOf(z) == 0; }
    assert ValueOf(z + d) == ValueOf(d);
  }

  /** Zero padding keeps the value: `Integer.parseInt` reads a padded number back. */
  lemma ParseIntOfZeroPadded(n: nat, width: nat)
    requires n <= IntMax
    ensures var s := FormatZeroPadded(n, width);
      |s| == (if width > |Digits(n)| then width else |Digits(n)|) && ParseInt(s) == Some(n)
  {
    var s := Zeros(width - |Digits(n)|) + Digits(n);
    assert s == FormatZeroPadded(n, width);
    ValueOfPadded(width - |Digits(n)|, n);
    ParseIntOfDigitString(s);
  }
}
