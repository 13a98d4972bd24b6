/** The pieces of JavaScript number handling the connector relies on:
    `parseInt(s, 10)`, `parseFloat(s)` restricted to an optional sign followed by
    a decimal digit prefix (and, for `parseFloat`, an optional fraction),
    `Math.round`, and the JavaScript number values NaN and the infinities.
    Numbers are exact reals: IEEE-754 rounding is not modelled. */
module JsNumbers {
  import opened Wrappers

  /** A JavaScript number as a caller may pass it: finite, NaN or infinite. */
  datatype JsNum = Finite(v: real) | NaN | PosInf | NegInf

  predicate IsDigit(c: char) {
    '0' <= c <= '9'
  }

  function DigitValue(c: char): (d: nat)
    requires IsDigit(c)
    ensures d < 10
  {
    c as int - '0' as int
  }

  function DigitChar(d: nat): (c: char)
    requires d < 10
    ensures IsDigit(c) && DigitValue(c) == d
  {
    ('0' as int + d) as char
  }

  predicate AllDigits(s: string) {
    forall i :: 0 <= i < |s| ==> IsDigit(s[i])
  }

  predicate StartsWithDigit(s: string) {
    |s| > 0 && IsDigit(s[0])
  }

  /** Reads the leading decimal digits of `s`, base 10, on top of the value
      `acc` already read; returns the value and the text after the digits. */
  function ReadDigits(s: string, acc: nat): (r: (nat, string))
    ensures |r.1| <= |s| && !StartsWithDigit(r.1)
  {
    if StartsWithDigit(s) then ReadDigits(s[1..], 10 * acc + DigitValue(s[0])) else (acc, s)
  }

  /** The value of the leading digits of `s` read as a base-10 integer. */
  function DecimalValue(s: string): nat {
    ReadDigits(s, 0).0
  }

  /** The value of the leading digits of `s` read after a decimal point: "25" is 0.25. */
  function FractionValue(s: string): (f: real)
    ensures 0.0 <= f <= 1.0
  {
    if StartsWithDigit(s) then (DigitValue(s[0]) as real + FractionValue(s[1..])) / 10.0 else 0.0
  }

  /** 1 when `s` starts with a sign character, else 0. */
  function SignLength(s: string): (n: nat)
    ensures n <= |s|
  {
    if |s| > 0 && (s[0] == '+' || s[0] == '-') then 1 else 0
  }

  predicate IsNegative(s: string) {
    |s| > 0 && s[0] == '-'
  }

  /** `parseInt(s, 10)`: `None` stands for NaN. It gives a number exactly when
      a digit follows the optional sign, and the number has the sign's sign. */
  function ParseIntPrefix(s: string): (r: Option<int>)
    ensures r.Some? <==> SignLength(s) < |s| && IsDigit(s[SignLength(s)])
    ensures r.Some? && IsNegative(s) ==> r.value <= 0
    ensures r.Some? && !IsNegative(s) ==> r.value >= 0
  {
    var body := s[SignLength(s)..];
    assert |body| > 0 ==> body[0] == s[SignLength(s)];
    if !StartsWithDigit(body) then None
    else
      var magnitude: int := DecimalValue(body);
      Some(if IsNegative(s) then -magnitude else magnitude)
  }

  /** `parseFloat(s)` without exponents or the literal "Infinity": `None`
      stands for NaN. It gives a number exactly when a digit, or a '.' and a
      digit, follows the optional sign, and the number has the sign's sign.
      "12.5%" gives 12.5, ".5" gives 0.5, "." gives NaN. */
  function ParseFloatPrefix(s: string): (r: Option<real>)
    ensures r.Some? <==>
      var k := SignLength(s);
      (k < |s| && IsDigit(s[k])) || (k + 1 < |s| && s[k] == '.' && IsDigit(s[k + 1]))
    ensures r.Some? && IsNegative(s) ==> r.value <= 0.0
    ensures r.Some? && !IsNegative(s) ==> r.value >= 0.0
  {
    var k := SignLength(s);
    var body := s[k..];
    assert |body| > 0 ==> body[0] == s[k];
    assert |body| > 1 ==> body[1..][0] == s[k + 1];
    var (whole, rest) := ReadDigits(body, 0);
    var point := |rest| > 0 && rest[0] == '.';
    if !StartsWithDigit(body) && !(point && StartsWithDigit(rest[1..])) then None
    else
      var magnitude := whole as real + (if point then FractionValue(rest[1..]) else 0.0);
      Some(if IsNegative(s) then -magnitude else magnitude)
  }

  function Pow10(n: nat): (p: nat)
    ensures p > 0
  {
    if n == 0 then 1 else 10 * Pow10(n - 1)
  }

  /** `Math.round(r)`: the nearest integer, halves rounded towards +infinity. */
  function Round(r: real): (n: int)
    ensures r - 0.5 < n as real <= r + 0.5
  {
    (r + 0.5).Floor
  }

  /** `Math.round` is unique: the only integer at most half a unit above and
      less than half a unit below. */
  lemma RoundUnique(r: real, n: int)
    requires r - 0.5 < n as real <= r + 0.5
    ensures Round(r) == n
  {
  }

  lemma RoundOfInt(n: int)
    ensures Round(n as real) == n
  {
  }

  /** For an integer sum, `Math.round((a + b) / 2)` is the upper middle:
      twice it is `a + b` or `a + b + 1`, and it lies between `a` and `b`. */
  lemma RoundHalf(a: int, b: int)
    ensures var m := Round((a + b) as real / 2.0);
      m == (a + b + 1) / 2 &&
      (2 * m == a + b || 2 * m == a + b + 1) &&
      (if a <= b then a <= m <= b else b <= m <= a)
  {
    var m := Round((a + b) as real / 2.0);
    assert (a + b - 1) as real < 2.0 * m as real <= (a + b + 1) as real;
    assert a + b - 1 < 2 * m <= a + b + 1;
  }

  /** The decimal digits of `n`, without leading zeros. */
  function ShowNat(n: nat): (s: string)
    ensures |s| > 0 && AllDigits(s)
  {
    if n < 10 then [DigitChar(n)] else ShowNat(n / 10) + [DigitChar(n % 10)]
  }

  /** The decimal form of `n`, with a leading '-' when it is negative. */
  function ShowInt(n: int): string {
    if n < 0 then "-" + ShowNat(-n) else ShowNat(n)
  }

  /** Reading a run of digits and then more text is reading the run, then the text. */
  lemma {:induction false} ReadDigitsAppend(d: string, t: string, acc: nat)
    requires AllDigits(d)
    ensures ReadDigits(d, acc).1 == ""
    ensures ReadDigits(d + t, acc) == ReadDigits(t, ReadDigits(d, acc).0)
  {
    if |d| > 0 {
      assert (d + t)[0] == d[0] && (d + t)[1..] == d[1..] + t;
      ReadDigitsAppend(d[1..], t, 10 * acc + DigitValue(d[0]));
    } else {
      assert d + t == t;
    }
  }

  /** `ShowNat` writes what `DecimalValue` reads. */
  lemma {:induction false} DecimalValueOfShowNat(n: nat)
    ensures DecimalValue(ShowNat(n)) == n
  {
    if n >= 10 {
      var d := [DigitChar(n % 10)];
      var high := ShowNat(n / 10);
      assert ShowNat(n) == high + d;
      DecimalValueOfShowNat(n / 10);
      ReadDigitsAppend(high, d, 0);
      assert ReadDigits(high, 0).0 == n / 10;
      assert d[1..] == "";
      assert ReadDigits(d, n / 10) == ReadDigits("", 10 * (n / 10) + n % 10);
      assert ReadDigits(high + d, 0) == (n, "");
    } else {
      var d := [DigitChar(n)];
      assert d[1..] == "";
      assert ReadDigits(d, 0) == ReadDigits("", n);
    }
  }

  /** `parseInt` reads the value of a run of digits, with no sign, a '+' or a
      '-', whatever non-digit text follows. */
  lemma ParseIntDigits(d: string, t: string)
    requires |d| > 0 && AllDigits(d)
    requires !StartsWithDigit(t)
    ensures ParseIntPrefix(d + t) == Some(DecimalValue(d))
    ensures ParseIntPrefix("+" + d + t) == Some(DecimalValue(d))
    ensures ParseIntPrefix("-" + d + t) == Some(-(DecimalValue(d) as int))
  {
    ReadDigitsAppend(d, t, 0);
    var s := d + t;
    assert s[0] == d[0] && s[0..] == s;
    var p := "+" + d + t;
    assert p[1..] == s;
    var m := "-" + d + t;
    assert m[1..] == s;
  }

  /** `parseInt` reads back what `ShowInt` writes, whatever non-digit text follows. */
  lemma ParseIntShowInt(n: int, t: string)
    requires !StartsWithDigit(t)
    ensures ParseIntPrefix(ShowInt(n) + t) == Some(n)
  {
    var m: nat := if n < 0 then -n else n;
    ParseIntDigits(ShowNat(m), t);
    DecimalValueOfShowNat(m);
  }

  /** `parseFloat` reads a run of digits, with no sign, a '+' or a '-', as its
      integer value, whatever follows that starts neither with a digit nor with
      a '.'. */
  lemma ParseFloatDigits(d: string, t: string)
    requires |d| > 0 && AllDigits(d)
    requires !StartsWithDigit(t) && (|t| == 0 || t[0] != '.')
    ensures ParseFloatPrefix(d + t) == Some(DecimalValue(d) as real)
    ensures ParseFloatPrefix("+" + d + t) == Some(DecimalValue(d) as real)
    ensures ParseFloatPrefix("-" + d + t) == Some(-(DecimalValue(d) as real))
  {
    ReadDigitsAppend(d, t, 0);
    var s := d + t;
    assert s[0] == d[0] && s[0..] == s;
    var p := "+" + d + t;
    assert p[1..] == s;
    var m := "-" + d + t;
    assert m[1..] == s;
  }

  /** Reading digits on top of `acc` shifts `acc` left by one decimal place per digit. */
  lemma {:induction false} ReadDigitsAcc(d: string, acc: nat)
    requires AllDigits(d)
    ensures ReadDigits(d, acc).0 == acc * Pow10(|d|) + DecimalValue(d)
  {
    if |d| > 0 {
      var c, rest := DigitValue(d[0]), d[1..];
      ReadDigitsAcc(rest, 10 * acc + c);
      ReadDigitsAcc(rest, c);
      var p := Pow10(|rest|);
      assert Pow10(|d|) == 10 * p;
      Distribute(acc, c, p);
    }
  }

  lemma Distribute(a: nat, c: nat, p: nat)
    ensures (10 * a + c) * p == a * (10 * p) + c * p
  {
  }

  /** `n` moved `k` decimal places to the right, that is `n / 10^k`, one
      division by ten at a time. */
  function Shifted(n: real, k: nat): real {
    if k == 0 then n else Shifted(n, k - 1) / 10.0
  }

  /** `Shifted(n, k)` is the quotient of `n` by the k-th power of ten. */
  lemma {:induction false} ShiftedIsQuotient(n: real, k: nat)
    ensures Shifted(n, k) == n / Pow10(k) as real
  {
    if k > 0 {
      ShiftedIsQuotient(n, k - 1);
      var p := Pow10(k - 1) as real;
      assert Pow10(k) as real == 10.0 * p;
      assert (n / p) / 10.0 == n / (10.0 * p);
    }
  }

  lemma {:induction false} ShiftedAdd(x: real, y: real, k: nat)
    ensures Shifted(x + y, k) == Shifted(x, k) + Shifted(y, k)
  {
    if k > 0 {
      ShiftedAdd(x, y, k - 1);
    }
  }

  lemma {:induction false} ShiftedPower(c: nat, k: nat)
    decreases k
    ensures Shifted((c * Pow10(k)) as real, k) == c as real
  {
    if k == 0 {
      assert Pow10(k) == 1;
    } else {
      var d, j := 10 * c, k - 1;
      ShiftedPower(d, j);
      var x := c * Pow10(k);
      assert Pow10(k) == 10 * Pow10(j);
      assert x == d * Pow10(j);
      assert Shifted(x as real, k) == Shifted(x as real, j) / 10.0;
    }
  }

  lemma {:induction false} ShiftedFraction(f: string, t: string)
    requires AllDigits(f) && !StartsWithDigit(t)
    ensures FractionValue(f + t) == Shifted(DecimalValue(f) as real, |f|)
  {
    if |f| == 0 {
      assert f + t == t;
    } else {
      var c, rest := DigitValue(f[0]), f[1..];
      var k := |rest|;
      assert (f + t)[0] == f[0] && (f + t)[1..] == rest + t;
      assert FractionValue(f + t) == (c as real + FractionValue(rest + t)) / 10.0;
      ShiftedFraction(rest, t);
      var v := DecimalValue(rest);
      assert ReadDigits(f, 0) == ReadDigits(rest, c);
      ReadDigitsAcc(rest, c);
      var cp := c * Pow10(k);
      assert DecimalValue(f) == cp + v;
      ShiftedAdd(cp as real, v as real, k);
      ShiftedPower(c, k);
      assert Shifted((cp + v) as real, k) == c as real + Shifted(v as real, k);
    }
  }

  /** A sign in front of unsigned text: '+' changes nothing, '-' negates. */
  lemma ParseFloatSigned(sign: string, b: string)
    requires sign == "" || sign == "+" || sign == "-"
    requires SignLength(b) == 0
    ensures var u := ParseFloatPrefix(b);
      ParseFloatPrefix(sign + b) == if u.Some? && sign == "-" then Some(-u.value) else u
  {
    var s := sign + b;
    assert |sign| == 0 ==> s == b;
    assert |sign| > 0 ==> s[0] == sign[0];
    assert s[|sign|..] == b && b[0..] == b;
  }

  lemma ParseFloatPointParts(d: string, f: string, t: string)
    requires AllDigits(d) && (|d| > 0 || |f| > 0) && AllDigits(f) && !StartsWithDigit(t)
    ensures var b := d + (['.'] + (f + t));
      SignLength(b) == 0 && ParseFloatPrefix(b) == Some(DecimalValue(d) as real + FractionValue(f + t))
  {
    var ft := f + t;
    var tail := ['.'] + ft;
    var b := d + tail;
    assert SignLength(b) == 0 by {
      assert b[0] == if |d| > 0 then d[0] else '.';
    }
    assert ReadDigits(b, 0) == (DecimalValue(d), tail) by {
      ReadDigitsAppend(d, tail, 0);
      assert ReadDigits(tail, DecimalValue(d)) == (DecimalValue(d), tail);
    }
    assert tail[1..] == ft;
    assert b[0..] == b;
    if |d| > 0 {
      assert b[0] == d[0];
    } else {
      assert ft[0] == f[0];
    }
  }

  /** The digits after a decimal point, up to the first non-digit, are read as
      their integer value over the matching power of ten: "25%" is 25 / 100. */
  lemma FractionOfDigits(f: string, t: string)
    requires AllDigits(f) && !StartsWithDigit(t)
    ensures FractionValue(f + t) == DecimalValue(f) as real / Pow10(|f|) as real
  {
    ShiftedFraction(f, t);
    ShiftedIsQuotient(DecimalValue(f) as real, |f|);
  }

  /** `ParseFloatSigned` for a string `s` already known to be the sign
      followed by unsigned text `b` read as `u`. */
  lemma ParseFloatSignedValue(s: string, sign: string, b: string, u: real)
    requires sign == "" || sign == "+" || sign == "-"
    requires s == sign + b && SignLength(b) == 0 && ParseFloatPrefix(b) == Some(u)
    ensures ParseFloatPrefix(s) == Some(if sign == "-" then -u else u)
  {
    ParseFloatSigned(sign, b);
  }

  lemma SignBefore(sign: string, d: string, f: string, t: string)
    ensures sign + d + "." + f + t == sign + (d + (['.'] + (f + t)))
  {
  }

  /** `parseFloat` reads an optional sign, whole digits, a point and fraction
      digits (either run may be empty, not both) as the whole part plus the
      fraction (whose value `FractionOfDigits` gives, 0 for no digits), negated
      after '-'. "+12.25%" gives 12 + 25 / 100 and "50.%" gives 50. */
  lemma ParseFloatFraction(sign: string, d: string, f: string, t: string)
    requires sign == "" || sign == "+" || sign == "-"
    requires AllDigits(d) && (|d| > 0 || |f| > 0) && AllDigits(f) && !StartsWithDigit(t)
    ensures var v := DecimalValue(d) as real + FractionValue(f + t);
      ParseFloatPrefix(sign + d + "." + f + t) == Some(if sign == "-" then -v else v)
  {
    var b := d + (['.'] + (f + t));
    var u := DecimalValue(d) as real + FractionValue(f + t);
    assert SignLength(b) == 0 && ParseFloatPrefix(b) == Some(u) by {
      ParseFloatPointParts(d, f, t);
    }
    assert sign + d + "." + f + t == sign + b by {
      SignBefore(sign, d, f, t);
    }
    ParseFloatSignedValue(sign + d + "." + f + t, sign, b, u);
  }

  /** `parseFloat` reads back the decimal form of a natural number. */
  lemma ParseFloatShowNat(n: nat, t: string)
    requires !StartsWithDigit(t) && (|t| == 0 || t[0] != '.')
    ensures ParseFloatPrefix(ShowNat(n) + t) == Some(n as real)
  {
    ParseFloatDigits(ShowNat(n), t);
    DecimalValueOfShowNat(n);
  }

  /** Examples: a fraction followed by other text, a sign with no integer
      part, a lone point and no digits at all. */
  lemma ParseFloatExamples()
    ensures ParseFloatPrefix("12.5%") == Some(12.5)
    ensures ParseFloatPrefix("-.5") == Some(-0.5)
    ensures ParseFloatPrefix(".") == None
    ensures ParseFloatPrefix("abc") == None
  {
    var s := "12.5%";
    assert s[0..] == s && s[1..] == "2.5%" && "2.5%"[1..] == ".5%" && ".5%"[1..] == "5%" && "5%"[1..] == "%";
    assert ReadDigits(s, 0) == (12, ".5%");
    assert FractionValue("5%") == 0.5;
    var t := "-.5";
    assert t[1..] == ".5" && ".5"[1..] == "5" && "5"[1..] == "";
    assert ReadDigits(".5", 0) == (0, ".5");
    assert FractionValue("5") == 0.5;
    assert "."[0..] == "." && "."[1..] == "";
  }

  /** A point with no digits after it adds nothing: "50.%" reads as 50 and
      "-7." as -7. */
  lemma TrailingPointExamples()
    ensures ParseFloatPrefix("50.%") == Some(50.0)
    ensures ParseFloatPrefix("-7.") == Some(-7.0)
  {
    var u := "50.%";
    assert u[0..] == u && u[1..] == "0.%" && "0.%"[1..] == ".%" && ".%"[1..] == "%";
    assert ReadDigits(u, 0) == (50, ".%");
    var v := "-7.";
    assert v[1..] == "7." && "7."[1..] == "." && "."[1..] == "";
    assert ReadDigits("7.", 0) == (7, ".");
  }


}
