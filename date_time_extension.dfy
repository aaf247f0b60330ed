/** DateTimeExtension.GetDateNowEngFormat: the date written
    "yyyy-MM-dd HH:mm:ss" with every run of '-', ':' and white space
    removed, i.e. "yyyyMMddHHmmss". The culture's time separator is ':'. */
module DateTimeExtension {
  import opened Common
  import opened Decimal

  /** A DateTime at one-second resolution (the format shows no fraction). */
  datatype DateTime = DateTime(year: nat, month: nat, day: nat, hour: nat, minute: nat, second: nat) {
    /** The ranges System.DateTime guarantees for its components. */
    predicate Valid() {
      1 <= year <= 9999 && 1 <= month <= 12 && 1 <= day <= 31
      && hour < 24 && minute < 60 && second < 60
    }
  }

  /** The components in the order the format writes them, and their widths. */
  function Fields(d: DateTime): (f: seq<nat>)
    ensures |f| == 6
  {
    [d.year, d.month, d.day, d.hour, d.minute, d.second]
  }

  const Widths: seq<nat> := [4, 2, 2, 2, 2, 2]

  /** The zero-padded fields written one after the other. */
  function Concat(fields: seq<nat>, widths: seq<nat>): (r: string)
    requires |fields| == |widths|
    ensures AllDigits(r)
  {
    if fields == [] then [] else PadD(fields[0], widths[0]) + Concat(fields[1..], widths[1..])
  }

  /** date.ToString("yyyy-MM-dd HH:mm:ss"). */
  function Formatted(d: DateTime): string {
    PadD(d.year, 4) + ("-" + (PadD(d.month, 2) + ("-" + (PadD(d.day, 2) + (" "
      + (PadD(d.hour, 2) + (":" + (PadD(d.minute, 2) + (":" + PadD(d.second, 2))))))))))
  }

  predicate IsSeparator(c: char) {
    c == '-' || c == ':' || IsWhiteSpace(c)
  }

  /** Regex.Replace(s, "[-:\s]+", ""): every separator character goes. */
  function StripSeparators(s: string): (r: string)
    ensures forall i :: 0 <= i < |r| ==> !IsSeparator(r[i])
  {
    if s == [] then []
    else (if IsSeparator(s[0]) then [] else [s[0]]) + StripSeparators(s[1..])
  }

  function GetDateNowEngFormat(d: DateTime): string {
    StripSeparators(Formatted(d))
  }

  lemma {:induction false} StripAppend(a: string, b: string)
    ensures StripSeparators(a + b) == StripSeparators(a) + StripSeparators(b)
  {
    if a == [] {
      assert a + b == b;
    } else {
      assert (a + b)[1..] == a[1..] + b;
      StripAppend(a[1..], b);
    }
  }

  lemma {:induction false} StripDigits(s: string)
    requires AllDigits(s)
    ensures StripSeparators(s) == s
  {
    if s != [] {
      StripDigits(s[1..]);
      assert s == [s[0]] + s[1..];
    }
  }

  /** Stripping a padded field, a separator and the rest keeps the field and strips the rest. */
  lemma StripField(n: nat, w: nat, sep: char, rest: string)
    requires IsSeparator(sep)
    ensures StripSeparators(PadD(n, w) + ([sep] + rest)) == PadD(n, w) + StripSeparators(rest)
  {
    StripAppend(PadD(n, w), [sep] + rest);
    StripDigits(PadD(n, w));
    assert ([sep] + rest)[1..] == rest;
  }

  /** The six fields zero-padded and written one after the other. */
  function Padded(d: DateTime): string {
    PadD(d.year, 4) + (PadD(d.month, 2) + (PadD(d.day, 2) + (PadD(d.hour, 2)
      + (PadD(d.minute, 2) + PadD(d.second, 2)))))
  }

  /** The result is the six zero-padded components, nothing between them. */
  lemma CompactForm(d: DateTime)
    ensures GetDateNowEngFormat(d) == Concat(Fields(d), Widths)
  {
    StrippedFormat(d);
    ConcatFields(d);
  }

  /** Stripping the separators from the formatted date leaves the padded fields. */
  lemma StrippedFormat(d: DateTime)
    ensures StripSeparators(Formatted(d)) == Padded(d)
  {
    var se := PadD(d.second, 2);
    var t4 := PadD(d.minute, 2) + (":" + se);
    var t3 := PadD(d.hour, 2) + (":" + t4);
    var t2 := PadD(d.day, 2) + (" " + t3);
    var t1 := PadD(d.month, 2) + ("-" + t2);
    assert Formatted(d) == PadD(d.year, 4) + ("-" + t1);
    StripDigits(se);
    StripField(d.minute, 2, ':', se);
    StripField(d.hour, 2, ':', t4);
    StripField(d.day, 2, ' ', t3);
    StripField(d.month, 2, '-', t2);
    StripField(d.year, 4, '-', t1);
  }

  /** Concat over the fields and widths gives the same padded fields. */
  lemma ConcatFields(d: DateTime)
    ensures Concat(Fields(d), Widths) == Padded(d)
  {
    var f := Fields(d);
    var w := Widths;
    assert Concat(f[5..], w[5..]) == PadD(d.second, 2) by {
      ConcatStep(f, w, 5);
      assert f[6..] == [] && w[6..] == [];
    }
    ConcatStep(f, w, 4);
    ConcatStep(f, w, 3);
    ConcatStep(f, w, 2);
    ConcatStep(f, w, 1);
    assert Concat(f, w) == Padded(d) by {
      ConcatStep(f, w, 0);
      assert f[0..] == f && w[0..] == w;
    }
  }

  /** Concat from field k on: field k padded, then the rest. */
  lemma ConcatStep(f: seq<nat>, w: seq<nat>, k: nat)
    requires k < |f| == |w|
    ensures Concat(f[k..], w[k..]) == PadD(f[k], w[k]) + Concat(f[k + 1..], w[k + 1..])
  {
    assert f[k..][1..] == f[k + 1..] && w[k..][1..] == w[k + 1..];
  }

  predicate FieldsFit(fields: seq<nat>, widths: seq<nat>)
    requires |fields| == |widths|
  {
    forall i :: 0 <= i < |fields| ==> Digits(fields[i]) <= widths[i]
  }

  lemma {:induction false} ConcatLength(fields: seq<nat>, widths: seq<nat>)
    requires |fields| == |widths| && FieldsFit(fields, widths)
    ensures |Concat(fields, widths)| == Sum(widths)
  {
    if fields != [] {
      PadWidth(fields[0], widths[0]);
      ConcatLength(fields[1..], widths[1..]);
    }
  }

  function Sum(s: seq<nat>): nat {
    if s == [] then 0 else s[0] + Sum(s[1..])
  }

  /** For every DateTime the result is exactly 14 decimal digits. */
  lemma FourteenDigits(d: DateTime)
    requires d.Valid()
    ensures |GetDateNowEngFormat(d)| == 14 && AllDigits(GetDateNowEngFormat(d))
  {
    CompactForm(d);
    FieldsOfValidFit(d);
    ConcatLength(Fields(d), Widths);
  }

  lemma FieldsOfValidFit(d: DateTime)
    requires d.Valid()
    ensures FieldsFit(Fields(d), Widths)
  {
    assert Pow10(4) == 10000 && Pow10(2) == 100;
    DigitsBelowPow10(d.year, 4);
    DigitsBelowPow10(d.month, 2);
    DigitsBelowPow10(d.day, 2);
    DigitsBelowPow10(d.hour, 2);
    DigitsBelowPow10(d.minute, 2);
    DigitsBelowPow10(d.second, 2);
  }

  /** Lexicographic order on equally long sequences of numbers. */
  predicate FieldsBefore(a: seq<nat>, b: seq<nat>)
    requires |a| == |b|
  {
    a != [] && (a[0] < b[0] || (a[0] == b[0] && FieldsBefore(a[1..], b[1..])))
  }

  /** Chronological order at one-second resolution. */
  predicate Earlier(a: DateTime, b: DateTime) {
    FieldsBefore(Fields(a), Fields(b))
  }

  lemma {:induction false} ConcatOrder(f: seq<nat>, g: seq<nat>, widths: seq<nat>)
    requires |f| == |g| == |widths|
    requires FieldsFit(f, widths) && FieldsFit(g, widths)
    ensures LexLess(Concat(f, widths), Concat(g, widths)) <==> FieldsBefore(f, g)
  {
    if f != [] {
      var pf, pg := PadD(f[0], widths[0]), PadD(g[0], widths[0]);
      PadWidth(f[0], widths[0]);
      PadWidth(g[0], widths[0]);
      LexLessEqualLengthHeads(pf, Concat(f[1..], widths[1..]), pg, Concat(g[1..], widths[1..]));
      PadOrder(f[0], g[0], widths[0]);
      if pf == pg {
        PadInjective(f[0], g[0], widths[0]);
      }
      ConcatOrder(f[1..], g[1..], widths[1..]);
    }
  }

  /** Comparing two results as text compares the two moments in time. */
  lemma TextOrderIsTimeOrder(a: DateTime, b: DateTime)
    requires a.Valid() && b.Valid()
    ensures LexLess(GetDateNowEngFormat(a), GetDateNowEngFormat(b)) <==> Earlier(a, b)
  {
    CompactForm(a);
    CompactForm(b);
    FieldsOfValidFit(a);
    FieldsOfValidFit(b);
    ConcatOrder(Fields(a), Fields(b), Widths);
  }

  /** Different moments give different texts. */
  lemma Injective(a: DateTime, b: DateTime)
    requires a.Valid() && b.Valid() && GetDateNowEngFormat(a) == GetDateNowEngFormat(b)
    ensures a == b
  {
    TextOrderIsTimeOrder(a, b);
    TextOrderIsTimeOrder(b, a);
    LexLessIrreflexive(GetDateNowEngFormat(a));
    TotalFields(Fields(a), Fields(b));
  }

  lemma {:induction false} TotalFields(a: seq<nat>, b: seq<nat>)
    requires |a| == |b|
    ensures a == b || FieldsBefore(a, b) || FieldsBefore(b, a)
  {
    if a != [] {
      TotalFields(a[1..], b[1..]);
      if a[0] == b[0] && a[1..] == b[1..] {
        assert a == [a[0]] + a[1..] && b == [b[0]] + b[1..];
      }
    }
  }
}
