/** Calendar timestamps at second resolution and the `yyyyMMdd_HHmmss` text
    both backup services put into file and directory names: writing it, and
    reading it back the way `LocalDateTime.parse` with the same pattern does
    (the default, "smart" resolution). */
module Timestamps {
  import opened Outcomes
  import opened Text

  datatype DateTime = DateTime(year: int, month: int, day: int, hour: int, minute: int, second: int)

  /** Leap years of the proleptic Gregorian calendar. */
  predicate IsLeap(year: int)
  {
    year % 4 == 0 && (year % 100 != 0 || year % 400 == 0)
  }

  function DaysInMonth(year: int, month: int): (r: int)
    requires 1 <= month <= 12
    ensures 28 <= r <= 31
  {
    if month == 2 then (if IsLeap(year) then 29 else 28)
    else if month == 4 || month == 6 || month == 9 || month == 11 then 30
    else 31
  }

  /** A date and time that exists in the calendar. */
  predicate Valid(t: DateTime)
  {
    1 <= t.month <= 12 && 1 <= t.day <= DaysInMonth(t.year, t.month)
    && 0 <= t.hour < 24 && 0 <= t.minute < 60 && 0 <= t.second < 60
  }

  /** A valid timestamp whose year the pattern writes as four unsigned digits. */
  predicate Writable(t: DateTime)
  {
    Valid(t) && 1 <= t.year <= 9999
  }

  /** `yyyyMMdd_HHmmss`. */
  function Format(t: DateTime): (r: string)
    requires Writable(t)
    ensures |r| == 15 && r[8] == '_'
    ensures AllDigits(r[..8]) && AllDigits(r[9..])
  {
    var r := PadDigits(t.year, 4) + PadDigits(t.month, 2) + PadDigits(t.day, 2) + "_"
             + PadDigits(t.hour, 2) + PadDigits(t.minute, 2) + PadDigits(t.second, 2);
    assert r[..8] == PadDigits(t.year, 4) + PadDigits(t.month, 2) + PadDigits(t.day, 2);
    assert r[9..] == PadDigits(t.hour, 2) + PadDigits(t.minute, 2) + PadDigits(t.second, 2);
    r
  }

  /** Eight digits, an underscore and six digits: the only texts the pattern
      reads. */
  predicate StampShape(s: string)
  {
    |s| == 15 && s[8] == '_' && AllDigits(s[..8]) && AllDigits(s[9..])
  }

  /** The day after `t`, at the same time of day. */
  function NextDay(t: DateTime): (r: DateTime)
    requires Valid(t)
    ensures Valid(r)
    ensures r.hour == t.hour && r.minute == t.minute && r.second == t.second
    ensures Key(t) < Key(r)
  {
    if t.day < DaysInMonth(t.year, t.month) then t.(day := t.day + 1)
    else if t.month < 12 then t.(month := t.month + 1, day := 1)
    else t.(year := t.year + 1, month := 1, day := 1)
  }

  function Field(s: string, from: nat, to: nat): nat
    requires from <= to <= |s| && AllDigits(s[from..to])
  {
    DigitsValue(s[from..to])
  }

  /** `LocalDateTime.parse(s, yyyyMMdd_HHmmss)`, `None` where it throws. The
      year of era must be at least 1, the month 1..12, the day 1..31 (a day
      past the end of the month is moved back to the last day), the minute
      and second 0..59, and the hour 0..23, except that 24:00:00 is
      midnight of the next day. */
  function Parse(s: string): (r: Option<DateTime>)
    ensures r.Some? ==> Valid(r.value) && StampShape(s)
    ensures r.Some? ==> r.value.year >= 1
  {
    if !StampShape(s) then None
    else
      assert s[..8][0..4] == s[0..4] && s[..8][4..6] == s[4..6] && s[..8][6..8] == s[6..8];
      assert s[9..][0..2] == s[9..11] && s[9..][2..4] == s[11..13] && s[9..][4..6] == s[13..15];
      var year := Field(s, 0, 4);
      var month := Field(s, 4, 6);
      var day := Field(s, 6, 8);
      var hour := Field(s, 9, 11);
      var minute := Field(s, 11, 13);
      var second := Field(s, 13, 15);
      if year < 1 || month < 1 || month > 12 || day < 1 || day > 31 || minute > 59 || second > 59 then None
      else
        var clamped := if day > DaysInMonth(year, month) then DaysInMonth(year, month) else day;
        if hour == 24 && minute == 0 && second == 0 then Some(NextDay(DateTime(year, month, clamped, 0, 0, 0)))
        else if hour > 23 then None
        else Some(DateTime(year, month, clamped, hour, minute, second))
  }

  /** Reading back a written timestamp gives it unchanged. */
  lemma {:induction false} ParseFormat(t: DateTime)
    requires Writable(t)
    ensures Parse(Format(t)) == Some(t)
  {
    var s := Format(t);
    PadDigitsValue(t.year, 4);
    PadDigitsValue(t.month, 2);
    PadDigitsValue(t.day, 2);
    PadDigitsValue(t.hour, 2);
    PadDigitsValue(t.minute, 2);
    PadDigitsValue(t.second, 2);
    assert s[0..4] == PadDigits(t.year, 4);
    assert s[4..6] == PadDigits(t.month, 2);
    assert s[6..8] == PadDigits(t.day, 2);
    assert s[9..11] == PadDigits(t.hour, 2);
    assert s[11..13] == PadDigits(t.minute, 2);
    assert s[13..15] == PadDigits(t.second, 2);
  }

  /** The six fields of a text of the right shape. */
  function Fields(s: string): (t: DateTime)
    requires StampShape(s)
  {
    assert s[..8][0..4] == s[0..4] && s[..8][4..6] == s[4..6] && s[..8][6..8] == s[6..8];
    assert s[9..][0..2] == s[9..11] && s[9..][2..4] == s[11..13] && s[9..][4..6] == s[13..15];
    DateTime(Field(s, 0, 4), Field(s, 4, 6), Field(s, 6, 8), Field(s, 9, 11), Field(s, 11, 13), Field(s, 13, 15))
  }

  /** Writing the fields of a text back at their widths gives the text. */
  lemma {:induction false} FieldsWriteBack(s: string)
    requires StampShape(s) && Writable(Fields(s))
    ensures Format(Fields(s)) == s
  {
    StampPieces(s);
    DigitsPadRoundTrip(s[0..4]);
    DigitsPadRoundTrip(s[4..6]);
    DigitsPadRoundTrip(s[6..8]);
    DigitsPadRoundTrip(s[9..11]);
    DigitsPadRoundTrip(s[11..13]);
    DigitsPadRoundTrip(s[13..15]);
  }

  /** A text of the right shape is its six digit fields around the
      underscore. */
  lemma StampPieces(s: string)
    requires StampShape(s)
    ensures AllDigits(s[0..4]) && AllDigits(s[4..6]) && AllDigits(s[6..8])
    ensures AllDigits(s[9..11]) && AllDigits(s[11..13]) && AllDigits(s[13..15])
    ensures s == s[0..4] + s[4..6] + s[6..8] + "_" + s[9..11] + s[11..13] + s[13..15]
  {
    assert s[..8][0..4] == s[0..4] && s[..8][4..6] == s[4..6] && s[..8][6..8] == s[6..8];
    assert s[9..][0..2] == s[9..11] && s[9..][2..4] == s[11..13] && s[9..][4..6] == s[13..15];
    assert s == s[0..4] + s[4..6] + s[6..8] + "_" + s[9..11] + s[11..13] + s[13..15];
  }

  /** Conversely, a text that is read without correction (its day exists in
      its month and its hour is below 24) is exactly what writing the
      timestamp read from it produces. */
  lemma FormatParse(s: string)
    requires Parse(s).Some?
    requires Valid(Fields(s))
    ensures Parse(s).value == Fields(s)
    ensures Writable(Parse(s).value) && Format(Parse(s).value) == s
  {
    assert s[..8][0..4] == s[0..4];
    DigitsPadRoundTrip(s[0..4]);
    assert Pow10(4) == 10000;
    FieldsWriteBack(s);
  }

  /** A number that orders timestamps as `LocalDateTime.compareTo` does:
      by date, then by time of day. */
  function Key(t: DateTime): int
  {
    ((((t.year * 13 + t.month) * 32 + t.day) * 24 + t.hour) * 60 + t.minute) * 60 + t.second
  }

  /** Lexicographic order on (year, month, day, hour, minute, second). */
  predicate Earlier(a: DateTime, b: DateTime)
  {
    a.year < b.year
    || (a.year == b.year && a.month < b.month)
    || (a.year == b.year && a.month == b.month && a.day < b.day)
    || (a.year == b.year && a.month == b.month && a.day == b.day && a.hour < b.hour)
    || (a.year == b.year && a.month == b.month && a.day == b.day && a.hour == b.hour && a.minute < b.minute)
    || (a.year == b.year && a.month == b.month && a.day == b.day && a.hour == b.hour && a.minute == b.minute
        && a.second < b.second)
  }

  /** On valid timestamps the key order is the calendar order, and equal keys
      mean equal timestamps. */
  lemma KeyOrder(a: DateTime, b: DateTime)
    requires Valid(a) && Valid(b)
    ensures Key(a) < Key(b) <==> Earlier(a, b)
    ensures Key(a) == Key(b) <==> a == b
  {
  }
}
