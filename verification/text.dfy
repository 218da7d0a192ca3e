/** Decimal digit strings: Python's `str(int)` and the zero-padded numeric
    fields that `strftime` writes. */
module Text {

  import opened Wrappers

  predicate IsDigit(c: char) {
    '0' <= c <= '9'
  }

  predicate AllDigits(s: string) {
    forall i :: 0 <= i < |s| ==> IsDigit(s[i])
  }

  function DigitChar(d: int): (c: char)
    requires 0 <= d < 10
    ensures IsDigit(c)
  {
    ('0' as int + d) as char
  }

  function DigitValue(c: char): (d: nat)
    requires IsDigit(c)
    ensures d < 10
  {
    c as int - '0' as int
  }

  lemma DigitRoundTrip(d: int)
    requires 0 <= d < 10
    ensures DigitValue(DigitChar(d)) == d
  {
  }

  /** The number a string of decimal digits denotes (leading zeros allowed). */
  function Value(s: string): nat
    requires AllDigits(s)
  {
    if s == [] then 0 else Value(s[..|s| - 1]) * 10 + DigitValue(s[|s| - 1])
  }

  function Pow10(n: nat): (p: nat)
    ensures p >= 1
  {
    if n == 0 then 1 else 10 * Pow10(n - 1)
  }

  /** `n` written with exactly `width` digits, zero-padded on the left,
      as `%04d` / `%02d` do. */
  function Pad(n: nat, width: nat): (s: string)
    requires n < Pow10(width)
    ensures |s| == width
    ensures AllDigits(s)
    ensures Value(s) == n
  {
    if width == 0 then []
    else
      var s := Pad(n / 10, width - 1) + [DigitChar(n % 10)];
      assert s[..|s| - 1] == Pad(n / 10, width - 1);
      DigitRoundTrip(n % 10);
      s
  }

  /** The shortest decimal representation of `n`: no leading zero except for 0 itself. */
  function Digits(n: nat): (s: string)
    ensures |s| >= 1
    ensures AllDigits(s)
    ensures Value(s) == n
    ensures s[0] == '0' ==> s == "0"
  {
    if n < 10 then
      DigitRoundTrip(n);
      [DigitChar(n)]
    else
      var s := Digits(n / 10) + [DigitChar(n % 10)];
      assert s[..|s| - 1] == Digits(n / 10);
      DigitRoundTrip(n % 10);
      s
  }

  /** The form `str` gives an integer: an optional minus sign, then digits with
      no leading zero, where only 0 itself starts with `0` and there is no `-0`. */
  predicate Canonical(s: string) {
    && |s| >= 1
    && (s[0] == '-' ==> |s| >= 2 && AllDigits(s[1..]) && s[1] != '0')
    && (s[0] != '-' ==> AllDigits(s) && (s[0] == '0' ==> s == "0"))
  }

  /** Python's `str(i)` for an integer. */
  function IntToString(i: int): (s: string)
    ensures |s| >= 1
    ensures Canonical(s)
    ensures i >= 0 <==> s[0] != '-'
    ensures i >= 0 ==> (s[0] == '0' ==> s == "0")
    ensures i >= 0 ==> AllDigits(s) && Value(s) == i
    ensures i < 0 ==> AllDigits(s[1..]) && Value(s[1..]) == -i && |s| >= 2 && s[1] != '0'
  {
    if i < 0 then "-" + Digits(-i) else Digits(i)
  }

  /** Reads back what `IntToString` writes: an optional minus sign followed by digits. */
  function ParseInt(s: string): (r: Option<int>)
  {
    if |s| >= 2 && s[0] == '-' && AllDigits(s[1..]) then Some(0 - Value(s[1..]))
    else if |s| >= 1 && AllDigits(s) then Some(Value(s) as int)
    else None
  }

  lemma IntToStringRoundTrip(i: int)
    ensures ParseInt(IntToString(i)) == Some(i)
  {
    var s := IntToString(i);
    if i >= 0 {
      assert !IsDigit('-');
      assert s[0] != '-';
    }
  }

  lemma IntToStringInjective(i: int, j: int)
    requires IntToString(i) == IntToString(j)
    ensures i == j
  {
    IntToStringRoundTrip(i);
    IntToStringRoundTrip(j);
  }

  /** A digit string that does not start with `0` denotes a positive number. */
  lemma {:induction false} ValuePositive(s: string)
    requires |s| >= 1 && AllDigits(s) && s[0] != '0'
    ensures Value(s) >= 1
  {
    if |s| > 1 {
      ValuePositive(s[..|s| - 1]);
    }
  }

  /** A digit string without a leading zero is the shortest representation of its value. */
  lemma {:induction false} CanonicalDigits(s: string)
    requires |s| >= 1 && AllDigits(s) && (s[0] == '0' ==> s == "0")
    ensures s == Digits(Value(s))
  {
    var n := Value(s);
    if |s| == 1 {
      DigitRoundTrip(DigitValue(s[0]));
    } else {
      var init := s[..|s| - 1];
      ValuePositive(init);
      CanonicalDigits(init);
      DigitRoundTrip(DigitValue(s[|s| - 1]));
      assert n / 10 == Value(init) && n % 10 == DigitValue(s[|s| - 1]);
      assert s == init + [s[|s| - 1]];
    }
  }

  /** Every canonical string is what `str` writes for the integer it denotes. */
  lemma CanonicalIsIntToString(s: string)
    requires Canonical(s)
    ensures ParseInt(s).Some?
    ensures IntToString(ParseInt(s).value) == s
  {
    if s[0] == '-' {
      var t := s[1..];
      ValuePositive(t);
      CanonicalDigits(t);
      assert s == "-" + t;
    } else {
      CanonicalDigits(s);
    }
  }

  /** Two canonical strings that read back as the same integer are the same string. */
  lemma CanonicalUnique(a: string, b: string)
    requires Canonical(a) && Canonical(b)
    requires ParseInt(a) == ParseInt(b)
    ensures a == b
  {
    CanonicalIsIntToString(a);
    CanonicalIsIntToString(b);
  }
}
