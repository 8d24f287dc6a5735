/** The `int()` conversion the `NUMBER` input kind applies to a submitted
    string: an optional sign followed by decimal digits. */
module Decimal {
  import opened Wrappers

  predicate IsDigit(c: char) {
    '0' <= c <= '9'
  }

  predicate AllDigits(s: string) {
    forall i | 0 <= i < |s| :: IsDigit(s[i])
  }

  function DigitValue(c: char): (d: nat)
    requires IsDigit(c)
    ensures d < 10
  {
    (c - '0') as nat
  }

  function DigitChar(d: nat): (c: char)
    requires d < 10
    ensures IsDigit(c) && DigitValue(c) == d
  {
    ('0' as int + d) as char
  }

  /** The number a string of digits denotes, most significant digit first. */
  function DigitsValue(s: string): nat
    requires AllDigits(s)
  {
    if |s| == 0 then 0 else DigitsValue(s[..|s| - 1]) * 10 + DigitValue(s[|s| - 1])
  }

  /** An optional `+` or `-` followed by at least one digit. */
  predicate WellFormed(s: string) {
    if |s| > 0 && (s[0] == '+' || s[0] == '-') then |s| > 1 && AllDigits(s[1..])
    else |s| > 0 && AllDigits(s)
  }

  /** `int(s)` for a string: the signed value of the digits, or the
      `ValueError` Python raises for anything else. */
  function Parse(s: string): (r: Result<int>)
    ensures r.Ok? <==> WellFormed(s)
    ensures r.Err? ==> r.error.ValueError?
    ensures r.Ok? && s[0] == '-' ==> r.value <= 0
    ensures r.Ok? && s[0] != '-' ==> r.value >= 0
  {
    if !WellFormed(s) then Err(ValueError("invalid literal for int() with base 10: " + s))
    else if s[0] == '-' then Ok(0 - DigitsValue(s[1..]))
    else if s[0] == '+' then Ok(DigitsValue(s[1..]))
    else Ok(DigitsValue(s))
  }

  /** The shortest decimal spelling of a natural number. */
  function Digits(n: nat): (s: string)
    ensures |s| > 0
    decreases n
  {
    if n < 10 then [DigitChar(n)] else Digits(n / 10) + [DigitChar(n % 10)]
  }

  /** `str(n)`. */
  function Format(n: int): string {
    if n < 0 then "-" + Digits(-n) else Digits(n)
  }

  lemma {:induction false} DigitsRoundTrip(n: nat)
    ensures AllDigits(Digits(n)) && DigitsValue(Digits(n)) == n
    decreases n
  {
    if n >= 10 {
      DigitsRoundTrip(n / 10);
      var s := Digits(n);
      assert s[..|s| - 1] == Digits(n / 10);
    }
  }

  /** Parsing a formatted integer gives the integer back. */
  lemma ParseFormat(n: int)
    ensures Parse(Format(n)) == Ok(n)
  {
    var d := if n < 0 then -n else n;
    DigitsRoundTrip(d);
    var s := Digits(d);
    assert IsDigit(s[0]);
    if n < 0 {
      var f := "-" + s;
      assert f[1..] == s;
      assert WellFormed(f);
    } else {
      assert WellFormed(s);
    }
  }
  /** A run of `k` zero digits. */
  function Zeros(k: nat): (z: string)
    ensures |z| == k && forall i | 0 <= i < k :: z[i] == '0'
  {
    seq(k, i requires 0 <= i < k => '0')
  }

  lemma {:induction false} ZerosValue(k: nat)
    ensures AllDigits(Zeros(k)) && DigitsValue(Zeros(k)) == 0
    decreases k
  {
    if k > 0 {
      assert Zeros(k)[..k - 1] == Zeros(k - 1);
      ZerosValue(k - 1);
    }
  }

  /** Leading zeros do not change the number a digit string denotes. */
  lemma {:induction false} LeadingZeros(k: nat, s: string)
    requires AllDigits(s)
    ensures AllDigits(Zeros(k) + s) && DigitsValue(Zeros(k) + s) == DigitsValue(s)
    decreases |s|
  {
    var t := Zeros(k) + s;
    if |s| == 0 {
      assert t == Zeros(k);
      ZerosValue(k);
    } else {
      assert t[..|t| - 1] == Zeros(k) + s[..|s| - 1];
      LeadingZeros(k, s[..|s| - 1]);
    }
  }

  /** A sign in front of a digit string: `+` or nothing keeps its value,
      `-` negates it. */
  lemma ParseSigned(sign: string, body: string)
    requires sign == "" || sign == "+" || sign == "-"
    requires |body| > 0 && AllDigits(body)
    ensures Parse(sign + body) == Ok(if sign == "-" then 0 - DigitsValue(body) else DigitsValue(body))
  {
    var s := sign + body;
    assert IsDigit(body[0]);
    if sign == "" {
      assert s == body;
      assert WellFormed(s) && s[0] != '-' && s[0] != '+';
    } else if sign == "+" {
      assert s[0] == '+' && s[1..] == body;
      assert WellFormed(s);
    } else {
      assert s[0] == '-' && s[1..] == body;
      assert WellFormed(s);
    }
  }

  /** `int()` accepts a leading `+` or `-` and any number of leading zeros:
      `+` and the zeros leave the value unchanged and `-` negates it, so
      `"007"` is 7, `"+5"` is 5 and `"-0"` is 0. */
  lemma ParseSignedZeros(sign: string, k: nat, n: nat)
    requires sign == "" || sign == "+" || sign == "-"
    ensures Parse(sign + Zeros(k) + Digits(n)) == Ok(if sign == "-" then 0 - n else n)
  {
    var d := Digits(n);
    DigitsRoundTrip(n);
    LeadingZeros(k, d);
    var body := Zeros(k) + d;
    assert |body| > 0 && AllDigits(body) && DigitsValue(body) == n;
    var s := sign + Zeros(k) + d;
    assert s == sign + body;
    ParseSigned(sign, body);
    assert Parse(s) == Parse(sign + body);
  }
}
