/** Decimal text of integers as .NET writes and reads it: Int32.ToString(),
    the "D<n>" and "00" format strings, and Convert.ToInt32(string). */
module Decimal {
  import opened Common

  predicate IsDigit(c: char) { '0' <= c <= '9' }

  predicate AllDigits(s: string) {
    forall i :: 0 <= i < |s| ==> IsDigit(s[i])
  }

  function DigitChar(d: nat): (c: char)
    requires d < 10
    ensures IsDigit(c)
  {
    (48 + d) as char
  }

  function DigitValue(c: char): (d: nat)
    requires IsDigit(c)
    ensures d < 10
  {
    c as int - 48
  }

  function Pow10(k: nat): (p: nat)
    ensures p >= 1
  {
    if k == 0 then 1 else 10 * Pow10(k - 1)
  }

  /** The number a string of decimal digits denotes, most significant first. */
  function Value(s: string): nat
    requires AllDigits(s)
  {
    if s == [] then 0 else 10 * Value(s[..|s| - 1]) + DigitValue(s[|s| - 1])
  }

  /** Int32.ToString() of a non-negative value: no sign, no leading zero. */
  function DecimalString(n: nat): (r: string)
    ensures 1 <= |r| && AllDigits(r)
  {
    if n < 10 then [DigitChar(n)] else DecimalString(n / 10) + [DigitChar(n % 10)]
  }

  lemma {:induction false} ValueOfDecimalString(n: nat)
    ensures Value(DecimalString(n)) == n
  {
    if n >= 10 {
      ValueOfDecimalString(n / 10);
      var s := DecimalString(n);
      assert s[..|s| - 1] == DecimalString(n / 10);
    }
  }

  /** The length of n.ToString(), the `digits` of the page-name padding. */
  function Digits(n: nat): nat {
    |DecimalString(n)|
  }

  lemma {:induction false} DigitsBounds(n: nat)
    ensures Digits(n) >= 1
    ensures n < Pow10(Digits(n))
    ensures Digits(n) > 1 ==> Pow10(Digits(n) - 1) <= n
  {
    if n >= 10 {
      DigitsBounds(n / 10);
    }
  }

  lemma {:induction false} DigitsMonotone(a: nat, b: nat)
    requires a <= b
    ensures Digits(a) <= Digits(b)
  {
    if a >= 10 {
      DigitsMonotone(a / 10, b / 10);
    }
  }

  /** A number below 10^k has at most k digits. */
  lemma {:induction false} DigitsBelowPow10(n: nat, k: nat)
    requires 1 <= k && n < Pow10(k)
    ensures Digits(n) <= k
  {
    if n >= 10 {
      DigitsBelowPow10(n / 10, k - 1);
    }
  }

  /** Division by m is unique: a quotient and a remainder below m are the ones. */
  lemma MulDiffAtLeast(a: int, b: int, m: int)
    requires m > 0 && a > b
    ensures a * m - b * m >= m
  {
    var d := a - b;
    assert a * m - b * m == d * m;
    assert d * m == (d - 1) * m + m;
    assert (d - 1) * m >= 0;
  }

  lemma DivUnique(x: int, m: int, q: int, r: int)
    requires m > 0 && 0 <= r < m && x == q * m + r
    ensures x / m == q && x % m == r
  {
    var q', r' := x / m, x % m;
    assert x == q' * m + r';
    if q' < q {
      MulDiffAtLeast(q, q', m);
    } else if q < q' {
      MulDiffAtLeast(q', q, m);
    }
  }

  /** Adding whole multiples of m moves the quotient and keeps the remainder. */
  lemma DivAddMultiple(a: nat, k: nat, m: nat)
    requires m > 0
    ensures (a + k * m) / m == a / m + k
    ensures (a + k * m) % m == a % m
  {
    DivUnique(a + k * m, m, a / m + k, a % m);
  }

  function Zeros(k: nat): (r: string)
    ensures |r| == k && AllDigits(r)
    ensures forall i :: 0 <= i < k ==> r[i] == '0'
  {
    if k == 0 then [] else Zeros(k - 1) + ['0']
  }

  /** n.ToString("D" + width): the decimal digits, left-padded with zeros to `width`. */
  function PadD(n: nat, width: nat): (r: string)
    ensures AllDigits(r)
  {
    if Digits(n) < width then Zeros(width - Digits(n)) + DecimalString(n) else DecimalString(n)
  }

  /** n.ToString("D" + width) of any Int32: a minus sign before the padded magnitude. */
  function FormatD(n: int, width: nat): (r: string)
    ensures n >= 0 ==> r == PadD(n, width)
  {
    if n < 0 then "-" + PadD(-n, width) else PadD(n, width)
  }

  /** A number that fits the width is padded to exactly that width. */
  lemma PadWidth(n: nat, width: nat)
    requires Digits(n) <= width
    ensures |PadD(n, width)| == width
  {
  }

  lemma {:induction false} ValueOfZeros(k: nat)
    ensures Value(Zeros(k)) == 0
  {
    if k > 0 {
      ValueOfZeros(k - 1);
      assert Zeros(k)[..k - 1] == Zeros(k - 1);
    }
  }

  lemma {:induction false} ValueLeadingZeros(k: nat, s: string)
    requires AllDigits(s)
    ensures Value(Zeros(k) + s) == Value(s)
  {
    if s == [] {
      assert Zeros(k) + s == Zeros(k);
      ValueOfZeros(k);
    } else {
      var t := Zeros(k) + s;
      assert t[..|t| - 1] == Zeros(k) + s[..|s| - 1];
      ValueLeadingZeros(k, s[..|s| - 1]);
    }
  }

  /** Reading the padded text back gives the number. */
  lemma PadValue(n: nat, width: nat)
    ensures Value(PadD(n, width)) == n
  {
    ValueOfDecimalString(n);
    if Digits(n) < width {
      ValueLeadingZeros(width - Digits(n), DecimalString(n));
    }
  }

  /** Padding to one width never maps two numbers to the same text. */
  lemma PadInjective(a: nat, b: nat, width: nat)
    requires PadD(a, width) == PadD(b, width)
    ensures a == b
  {
    PadValue(a, width);
    PadValue(b, width);
  }

  lemma {:induction false} ValueBound(s: string)
    requires AllDigits(s)
    ensures Value(s) < Pow10(|s|)
  {
    if s != [] {
      ValueBound(s[..|s| - 1]);
    }
  }

  lemma Regroup(d: int, p: int, v: int, e: int)
    ensures 10 * (d * p + v) + e == d * (10 * p) + (10 * v + e)
  {
  }

  lemma {:induction false} ValueFront(c: char, t: string)
    requires IsDigit(c) && AllDigits(t)
    ensures AllDigits([c] + t)
    ensures Value([c] + t) == DigitValue(c) * Pow10(|t|) + Value(t)
  {
    var s := [c] + t;
    if t != [] {
      var t' := t[..|t| - 1];
      assert s[..|s| - 1] == [c] + t';
      ValueFront(c, t');
      var e := DigitValue(t[|t| - 1]);
      assert Value(s) == 10 * Value([c] + t') + e;
      assert Value(t) == 10 * Value(t') + e;
      Regroup(DigitValue(c), Pow10(|t'|), Value(t'), e);
    } else {
      assert s[..0] == [];
    }
  }

  lemma FrontDigitDecides(dx: nat, dy: nat, p: nat, vx: nat, vy: nat)
    requires dx < dy && vx < p && vy < p
    ensures dx * p + vx < dy * p + vy
  {
    assert (dx + 1) * p <= dy * p;
  }

  /** For digit strings of one length, text order is number order. */
  lemma {:induction false} LexLessDigits(x: string, y: string)
    requires |x| == |y| && AllDigits(x) && AllDigits(y)
    ensures LexLess(x, y) <==> Value(x) < Value(y)
  {
    if x != [] {
      var n := |x| - 1;
      var p := Pow10(n);
      var x', y' := x[1..], y[1..];
      assert x == [x[0]] + x' && y == [y[0]] + y';
      ValueFront(x[0], x');
      ValueFront(y[0], y');
      ValueBound(x');
      ValueBound(y');
      LexLessDigits(x', y');
      var dx, dy := DigitValue(x[0]), DigitValue(y[0]);
      if dx < dy {
        FrontDigitDecides(dx, dy, p, Value(x'), Value(y'));
      } else if dy < dx {
        FrontDigitDecides(dy, dx, p, Value(y'), Value(x'));
      }
    }
  }

  /** Zero-padded numbers of one width sort as text exactly as they sort as numbers. */
  lemma PadOrder(a: nat, b: nat, width: nat)
    requires Digits(a) <= width && Digits(b) <= width
    ensures LexLess(PadD(a, width), PadD(b, width)) <==> a < b
  {
    PadWidth(a, width);
    PadWidth(b, width);
    PadValue(a, width);
    PadValue(b, width);
    LexLessDigits(PadD(a, width), PadD(b, width));
  }

  /** Every number below the page count fits the count's digit width. */
  lemma FitsCountWidth(page: nat, count: nat)
    requires page < count
    ensures Digits(page) <= Digits(count)
  {
    DigitsMonotone(page, count);
  }

  const Int32Max: int := 0x7FFF_FFFF
  const Int32Min: int := -0x8000_0000

  /** The white space Int32.Parse skips at either end (NumberStyles.Integer). */
  predicate IsParseWhite(c: char) {
    ('\t' <= c <= '\r') || c == ' '
  }

  function TrimStart(s: string): (r: string)
    ensures |r| <= |s|
  {
    if s != [] && IsParseWhite(s[0]) then TrimStart(s[1..]) else s
  }

  function TrimEnd(s: string): (r: string)
    ensures |r| <= |s|
  {
    if s != [] && IsParseWhite(s[|s| - 1]) then TrimEnd(s[..|s| - 1]) else s
  }

  /** Convert.ToInt32(string): optional surrounding white space, an optional
      sign, at least one digit, and a value within the 32-bit range. */
  function ParseInt32(s: string): (r: Result<int>)
    ensures r.Ok? ==> Int32Min <= r.value <= Int32Max
    ensures r.Err? ==> r.error == FormatError || r.error == OverflowError
  {
    var t := TrimEnd(TrimStart(s));
    if t == [] then Err(FormatError)
    else
      var body := if t[0] == '-' || t[0] == '+' then t[1..] else t;
      if body == [] || !AllDigits(body) then Err(FormatError)
      else
        var v: int := if t[0] == '-' then -(Value(body) as int) else Value(body) as int;
        if v < Int32Min || v > Int32Max then Err(OverflowError) else Ok(v)
  }

  /** Convert.ToInt32 reads back any zero-padded 32-bit page number. */
  lemma ParsePadD(n: nat, width: nat)
    requires n <= Int32Max
    ensures ParseInt32(PadD(n, width)) == Ok(n)
  {
    var s := PadD(n, width);
    assert |s| >= 1;
    assert TrimStart(s) == s;
    assert TrimEnd(s) == s;
    PadValue(n, width);
  }
}
