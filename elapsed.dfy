/** The run-time text the services attach to OCR results:
    string.Format("{0:00}:{1:00}:{2:00}.{3:00}", el.Hours, el.Minutes,
    el.Seconds, el.Milliseconds / 10) of a stopwatch's elapsed TimeSpan. */
module Elapsed {
  import opened Common
  import opened Decimal

  /** An elapsed interval at millisecond resolution. */
  datatype TimeSpan = TimeSpan(totalMilliseconds: nat) {
    /** The hour component: whole days are not part of it. */
    function Hours(): nat { (totalMilliseconds / 3_600_000) % 24 }
    function Minutes(): nat { (totalMilliseconds / 60_000) % 60 }
    function Seconds(): nat { (totalMilliseconds / 1000) % 60 }
    function Milliseconds(): nat { totalMilliseconds % 1000 }
  }

  const MillisecondsPerDay: nat := 86_400_000

  /** The "HH:MM:SS.cc" text of an elapsed interval, cc being hundredths. */
  function FormatElapsed(el: TimeSpan): (r: string)
    ensures |r| == 11
  {
    TwoDigits(el);
    PadWidth(el.Hours(), 2);
    PadWidth(el.Minutes(), 2);
    PadWidth(el.Seconds(), 2);
    PadWidth(el.Milliseconds() / 10, 2);
    PadD(el.Hours(), 2) + ":" + PadD(el.Minutes(), 2) + ":" + PadD(el.Seconds(), 2)
      + "." + PadD(el.Milliseconds() / 10, 2)
  }

  lemma TwoDigits(el: TimeSpan)
    ensures Digits(el.Hours()) <= 2 && Digits(el.Minutes()) <= 2
    ensures Digits(el.Seconds()) <= 2 && Digits(el.Milliseconds() / 10) <= 2
  {
    assert Pow10(2) == 100;
    DigitsBelowPow10(el.Hours(), 2);
    DigitsBelowPow10(el.Minutes(), 2);
    DigitsBelowPow10(el.Seconds(), 2);
    DigitsBelowPow10(el.Milliseconds() / 10, 2);
  }

  /** Two digits hold every component, so the text always has 11 characters
      and each field reads back as its component. */
  lemma FormatElapsedFields(el: TimeSpan)
    ensures var r := FormatElapsed(el);
      r[2] == ':' && r[5] == ':' && r[8] == '.'
      && AllDigits(r[0..2]) && Value(r[0..2]) == el.Hours()
      && AllDigits(r[3..5]) && Value(r[3..5]) == el.Minutes()
      && AllDigits(r[6..8]) && Value(r[6..8]) == el.Seconds()
      && AllDigits(r[9..11]) && Value(r[9..11]) == el.Milliseconds() / 10
  {
    TwoDigits(el);
    PadWidth(el.Hours(), 2);
    PadWidth(el.Minutes(), 2);
    PadWidth(el.Seconds(), 2);
    PadWidth(el.Milliseconds() / 10, 2);
    var h, m, s, c := PadD(el.Hours(), 2), PadD(el.Minutes(), 2), PadD(el.Seconds(), 2), PadD(el.Milliseconds() / 10, 2);
    FieldSlices(h, m, s, c);
    PadValue(el.Hours(), 2);
    PadValue(el.Minutes(), 2);
    PadValue(el.Seconds(), 2);
    PadValue(el.Milliseconds() / 10, 2);
  }

  /** Where the four two-character fields and their separators sit. */
  lemma FieldSlices(h: string, m: string, s: string, c: string)
    requires |h| == 2 && |m| == 2 && |s| == 2 && |c| == 2
    ensures var r := h + ":" + m + ":" + s + "." + c;
      r[2] == ':' && r[5] == ':' && r[8] == '.'
      && r[0..2] == h && r[3..5] == m && r[6..8] == s && r[9..11] == c
  {
  }

  /** Whole days vanish from the text: a run of a day and a second reads as one second. */
  lemma DaysDropped(ms: nat, days: nat)
    ensures FormatElapsed(TimeSpan(ms + days * MillisecondsPerDay)) == FormatElapsed(TimeSpan(ms))
  {
    var a, b := TimeSpan(ms), TimeSpan(ms + days * MillisecondsPerDay);
    assert b.Hours() == a.Hours() by {
      assert b.totalMilliseconds == ms + (days * 24) * 3_600_000;
      DivAddMultiple(ms, days * 24, 3_600_000);
      DivAddMultiple(ms / 3_600_000, days, 24);
    }
    assert b.Minutes() == a.Minutes() by {
      assert b.totalMilliseconds == ms + (days * 1440) * 60_000;
      DivAddMultiple(ms, days * 1440, 60_000);
      DivAddMultiple(ms / 60_000, days * 24, 60);
    }
    assert b.Seconds() == a.Seconds() by {
      assert b.totalMilliseconds == ms + (days * 86400) * 1000;
      DivAddMultiple(ms, days * 86400, 1000);
      DivAddMultiple(ms / 1000, days * 1440, 60);
    }
    assert b.Milliseconds() == a.Milliseconds() by {
      assert b.totalMilliseconds == ms + (days * 86400) * 1000;
      DivAddMultiple(ms, days * 86400, 1000);
    }
  }
}
