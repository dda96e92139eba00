/** The backup list as the administration page shows it: the creation time
    read back out of a backup's name, and file sizes in binary units. */
module BackupListing {
  import opened Outcomes
  import opened Text
  import opened JsNumbers
  import opened Timestamps

  // ---------------------------------------------------------------------
  // Reading a backup name
  // ---------------------------------------------------------------------

  /** The arguments handed to `new Date(year, monthIndex, day, hour, minute,
      second)`; the month is counted from 0. */
  datatype DateArgs = DateArgs(year: JsNum, monthIndex: JsNum, day: JsNum, hour: JsNum, minute: JsNum, second: JsNum)

  /** A listed backup: its name and, when the name has the right shape, the
      time it was taken. */
  datatype ListedBackup = ListedBackup(name: string, createdAt: Option<DateArgs>)

  /** JavaScript `x - 1`. */
  function MinusOne(x: JsNum): (r: JsNum)
    ensures x.Num? ==> r == Num(x.value - 1.0)
    ensures x.NaN? <==> r.NaN?
  {
    match x
    case Num(v) => Num(v - 1.0)
    case _ => x
  }

  const Prefix: string := "backup_"

  /** `parseBackupName`: a name `backup_` + eight characters + `_` + six
      characters has its date and time fields read with `parseInt`; any other
      name is listed without a time. */
  function ParseBackupName(name: string): (b: ListedBackup)
    ensures b.name == name
    ensures b.createdAt.Some? <==>
              StartsWith(name, Prefix) && |SplitAll(name[7..], '_')| == 2
              && |SplitAll(name[7..], '_')[0]| == 8 && |SplitAll(name[7..], '_')[1]| == 6
  {
    if !StartsWith(name, Prefix) then ListedBackup(name, None)
    else
      var parts := SplitAll(name[7..], '_');
      if |parts| != 2 || |parts[0]| != 8 || |parts[1]| != 6 then ListedBackup(name, None)
      else
        ListedBackup(name, Some(StampArgs(parts[0], parts[1])))
  }

  /** The creation time of every backup the backup service names is read
      back exactly, with the month counted from 0. */
  lemma ParseServiceBackupName(now: DateTime)
    requires Writable(now)
    ensures ParseBackupName("backup_" + Format(now)).createdAt
            == Some(DateArgs(Num(now.year as real), Num((now.month - 1) as real), Num(now.day as real),
                             Num(now.hour as real), Num(now.minute as real), Num(now.second as real)))
  {
    ParseStamp(Format(now));
    StampArgsOf(now);
  }

  /** The `Date` arguments read from the date and time parts of a stamp. */
  function StampArgs(date: string, time: string): DateArgs
    requires |date| == 8 && |time| == 6
  {
    DateArgs(ParseInt(date[0..4]), MinusOne(ParseInt(date[4..6])), ParseInt(date[6..8]),
             ParseInt(time[0..2]), ParseInt(time[2..4]), ParseInt(time[4..6]))
  }

  lemma StampArgsOf(now: DateTime)
    requires Writable(now)
    ensures StampArgs(Format(now)[..8], Format(now)[9..])
            == DateArgs(Num(now.year as real), Num((now.month - 1) as real), Num(now.day as real),
                        Num(now.hour as real), Num(now.minute as real), Num(now.second as real))
  {
    ReadDate(now);
    ReadTime(now);
    MonthIndex(now.month);
  }

  /** A backup name made of the prefix and a timestamp has its fields read
      from the timestamp's date and time. */
  lemma MonthIndex(month: int)
    ensures MinusOne(Num(month as real)) == Num((month - 1) as real)
  {
  }

  lemma ParseStamp(stamp: string)
    requires |stamp| == 15 && stamp[8] == '_' && AllDigits(stamp[..8]) && AllDigits(stamp[9..])
    ensures ParseBackupName("backup_" + stamp).createdAt == Some(StampArgs(stamp[..8], stamp[9..]))
  {
    var name := "backup_" + stamp;
    assert name[7..] == stamp;
    SplitStamp(stamp);
    ParseShaped(name, stamp[..8], stamp[9..]);
  }

  /** A name of the right shape has its fields read from the given places. */
  lemma ParseShaped(name: string, date: string, time: string)
    requires StartsWith(name, Prefix) && SplitAll(name[7..], '_') == [date, time]
    requires |date| == 8 && |time| == 6
    ensures ParseBackupName(name).createdAt == Some(StampArgs(date, time))
  {
  }

  lemma ReadDate(now: DateTime)
    requires Writable(now)
    ensures var date := Format(now)[..8];
            ParseInt(date[0..4]) == Num(now.year as real) && ParseInt(date[4..6]) == Num(now.month as real)
            && ParseInt(date[6..8]) == Num(now.day as real)
  {
    var date := Format(now)[..8];
    var y := PadDigits(now.year, 4);
    var mo := PadDigits(now.month, 2);
    var d := PadDigits(now.day, 2);
    assert date == y + mo + d;
    assert date[0..4] == y && date[4..6] == mo && date[6..8] == d;
    ReadPadded(now.year, 4);
    ReadPadded(now.month, 2);
    ReadPadded(now.day, 2);
  }

  lemma ReadTime(now: DateTime)
    requires Writable(now)
    ensures var time := Format(now)[9..];
            ParseInt(time[0..2]) == Num(now.hour as real) && ParseInt(time[2..4]) == Num(now.minute as real)
            && ParseInt(time[4..6]) == Num(now.second as real)
  {
    var time := Format(now)[9..];
    var h := PadDigits(now.hour, 2);
    var mi := PadDigits(now.minute, 2);
    var s := PadDigits(now.second, 2);
    assert time == h + mi + s;
    assert time[0..2] == h && time[2..4] == mi && time[4..6] == s;
    ReadPadded(now.hour, 2);
    ReadPadded(now.minute, 2);
    ReadPadded(now.second, 2);
  }

  /** A timestamp splits at its one underscore into the date and the time. */
  lemma SplitStamp(stamp: string)
    requires |stamp| == 15 && stamp[8] == '_' && AllDigits(stamp[..8]) && AllDigits(stamp[9..])
    ensures SplitAll(stamp, '_') == [stamp[..8], stamp[9..]]
  {
    NoUnderscore(stamp[..8]);
    NoUnderscore(stamp[9..]);
    assert stamp == stamp[..8] + ['_'] + stamp[9..];
    FirstUnderscore(stamp[..8], stamp[9..]);
  }

  lemma NoUnderscore(s: string)
    requires AllDigits(s)
    ensures '_' !in s
  {
    forall k | 0 <= k < |s| ensures s[k] != '_' { assert IsDigit(s[k]); }
  }

  lemma FirstUnderscore(a: string, b: string)
    requires '_' !in a && '_' !in b
    ensures SplitAll(a + ['_'] + b, '_') == [a, b]
  {
    var s := a + ['_'] + b;
    assert s[|a|] == '_';
    IndexOfAt(s, '_', |a|);
    assert s[..|a|] == a && s[|a| + 1..] == b;
  }

  lemma ReadPadded(n: nat, width: nat)
    requires width > 0 && n < Pow10(width)
    ensures ParseInt(PadDigits(n, width)) == Num(n as real)
  {
    PadDigitsValue(n, width);
    ParseIntOfDigits(PadDigits(n, width));
  }

  /** A name without the prefix, or with another underscore after the time,
      is listed without a time. */
  lemma ParseMisnamedBackup(name: string)
    requires !StartsWith(name, Prefix) || (StartsWith(name, Prefix) && |SplitAll(name[7..], '_')| > 2)
    ensures ParseBackupName(name).createdAt.None?
  {
  }

  /** A name of the right shape whose year has a non-digit after its first
      `k` digits still gets a time: `parseInt` reads the year only up to that
      character, so `backup_20x50101_120000` hands `new Date` the year 20. */
  lemma LetterInYear(date: string, time: string, k: nat)
    requires |date| == 8 && |time| == 6 && '_' !in date && '_' !in time
    requires 0 < k < 4 && AllDigits(date[..k]) && !IsDigit(date[k])
    requires k == 1 && date[0] == '0' ==> date[1] != 'x' && date[1] != 'X'
    ensures ParseBackupName(Prefix + date + "_" + time).createdAt.Some?
    ensures ParseBackupName(Prefix + date + "_" + time).createdAt.value.year == Num(DigitsValue(date[..k]) as real)
  {
    ShapedName(date, time);
    YearToLetter(date, time, k);
  }

  lemma YearToLetter(date: string, time: string, k: nat)
    requires |date| == 8 && |time| == 6
    requires 0 < k < 4 && AllDigits(date[..k]) && !IsDigit(date[k])
    requires k == 1 && date[0] == '0' ==> date[1] != 'x' && date[1] != 'X'
    ensures StampArgs(date, time).year == Num(DigitsValue(date[..k]) as real)
  {
    assert date[0..4] == date[..k] + date[k..4];
    ParseIntDigitsThen(date[..k], date[k..4]);
  }

  /** `backup_` + eight characters + `_` + six characters is read as a
      date and a time, whatever the characters. */
  lemma ShapedName(date: string, time: string)
    requires |date| == 8 && |time| == 6 && '_' !in date && '_' !in time
    ensures ParseBackupName(Prefix + date + "_" + time).createdAt == Some(StampArgs(date, time))
  {
    var name := Prefix + date + "_" + time;
    assert name[7..] == date + ['_'] + time;
    FirstUnderscore(date, time);
    ParseShaped(name, date, time);
  }

  // ---------------------------------------------------------------------
  // File sizes
  // ---------------------------------------------------------------------

  const KiB: nat := 1024

  /** The integer `toFixed(2)` renders for a non-negative `x`: the nearest
      multiple of 1/100, the larger one on a tie. */
  function Hundredths(x: real): (n: nat)
    requires x >= 0.0
    ensures n as real / 100.0 - x <= 0.005 && x - n as real / 100.0 < 0.005
  {
    (x * 100.0 + 0.5).Floor
  }

  /** `x.toFixed(2)` for `0 <= x < 10^21`. */
  function Fixed2(x: real): string
    requires x >= 0.0
  {
    var n := Hundredths(x);
    NatToString(n / 100) + "." + PadDigits(n % 100, 2)
  }

  /** `formatFileSize`: bytes below 1 KiB as an integer, otherwise the
      largest of КБ, МБ and ГБ (powers of 1024) that the size reaches, with
      two decimals. */
  function FormatFileSize(bytes: nat): (r: string)
    ensures EndsWith(r, " Б") <==> bytes < KiB
    ensures EndsWith(r, " КБ") <==> KiB <= bytes < KiB * KiB
    ensures EndsWith(r, " МБ") <==> KiB * KiB <= bytes < KiB * KiB * KiB
    ensures EndsWith(r, " ГБ") <==> KiB * KiB * KiB <= bytes
  {
    var unit := if bytes < KiB then " Б" else if bytes < KiB * KiB then " КБ" else if bytes < KiB * KiB * KiB then " МБ" else " ГБ";
    var shown := if bytes < KiB then NatToString(bytes)
                 else Fixed2(bytes as real / UnitOf(bytes) as real);
    UnitSuffixes(shown, unit);
    shown + unit
  }

  /** Which of the unit suffixes a text ending in one of them ends with. */
  lemma UnitSuffixes(x: string, u: string)
    requires u == " Б" || u == " КБ" || u == " МБ" || u == " ГБ"
    ensures EndsWith(x + u, " Б") <==> u == " Б"
    ensures EndsWith(x + u, " КБ") <==> u == " КБ"
    ensures EndsWith(x + u, " МБ") <==> u == " МБ"
    ensures EndsWith(x + u, " ГБ") <==> u == " ГБ"
  {
    var s := x + u;
    assert s[|s| - |u|..] == u;
    if |u| == 2 {
      assert s[|s| - 2] == ' ';
    } else {
      assert s[|s| - 2] == u[1] && s[|s| - 3] == ' ';
    }
  }

  /** The unit `formatFileSize` chooses for a size. */
  function UnitOf(bytes: nat): (unit: nat)
    ensures unit == 1 || unit == KiB || unit == KiB * KiB || unit == KiB * KiB * KiB
    ensures unit <= bytes || bytes < KiB
    ensures bytes < unit * KiB || unit == KiB * KiB * KiB
  {
    if bytes < KiB then 1 else if bytes < KiB * KiB then KiB else if bytes < KiB * KiB * KiB then KiB * KiB else KiB * KiB * KiB
  }

  /** The number `formatFileSize` shows, before its unit. */
  function Shown(bytes: nat): string
  {
    if bytes < KiB then NatToString(bytes) else Fixed2(bytes as real / UnitOf(bytes) as real)
  }

  lemma ShownThenUnit(bytes: nat) returns (u: string)
    ensures |u| > 0 && u[0] == ' ' && FormatFileSize(bytes) == Shown(bytes) + u
  {
    u := if bytes < KiB then " Б" else if bytes < KiB * KiB then " КБ" else if bytes < KiB * KiB * KiB then " МБ" else " ГБ";
  }

  /** Reading the shown size back with `parseFloat` gives the size in its
      unit to within half a hundredth; sizes under 1 KiB exactly. */
  lemma ReadFileSize(bytes: nat)
    ensures ParseFloat(FormatFileSize(bytes)).Num?
    ensures var shown := ParseFloat(FormatFileSize(bytes)).value;
            var exact := bytes as real / UnitOf(bytes) as real;
            shown - exact <= 0.005 && exact - shown < 0.005
    ensures bytes < KiB ==> ParseFloat(FormatFileSize(bytes)) == Num(bytes as real)
  {
    var u := ShownThenUnit(bytes);
    if bytes < KiB {
      ReadBytes(bytes, u);
    } else {
      ReadScaled(bytes, u);
    }
  }

  lemma ReadBytes(bytes: nat, u: string)
    requires bytes < KiB && |u| > 0 && u[0] == ' '
    ensures ParseFloat(NatToString(bytes) + u) == Num(bytes as real / UnitOf(bytes) as real)
    ensures ParseFloat(NatToString(bytes) + u) == Num(bytes as real)
  {
    assert UnitOf(bytes) == 1;
    assert bytes as real / 1 as real == bytes as real;
    assert !IsDigit(u[0]);
    NatToStringValue(bytes);
    ParseFloatDigitsThen(NatToString(bytes), u);
  }

  lemma ReadScaled(bytes: nat, u: string)
    requires bytes >= KiB && |u| > 0 && u[0] == ' '
    ensures var x := bytes as real / UnitOf(bytes) as real;
            var shown := Hundredths(x) as real / 100.0;
            ParseFloat(Fixed2(x) + u) == Num(shown) && shown - x <= 0.005 && x - shown < 0.005
  {
    ReadFixed2(bytes as real / UnitOf(bytes) as real, u);
  }

  /** `parseFloat` reads `x.toFixed(2)` back as the rounded value, whatever
      text starting with a blank follows it. */
  lemma ReadFixed2(x: real, suffix: string)
    requires x >= 0.0 && |suffix| > 0 && suffix[0] == ' '
    ensures ParseFloat(Fixed2(x) + suffix) == Num(Hundredths(x) as real / 100.0)
  {
    var n := Hundredths(x);
    CentsValue(n);
    ReadPoint(NatToString(n / 100), PadDigits(n % 100, 2), suffix);
  }

  /** `parseFloat` of `whole.cents` followed by a blank. */
  lemma ReadPoint(whole: string, cents: string, suffix: string)
    requires |whole| > 0 && AllDigits(whole) && |cents| == 2 && AllDigits(cents)
    requires |suffix| > 0 && suffix[0] == ' '
    ensures AllDigits(whole + cents)
    ensures ParseFloat(whole + "." + cents + suffix) == Num(DigitsValue(whole + cents) as real / 100.0)
  {
    var s := whole + "." + cents + suffix;
    PointPrefix(whole, cents, suffix, s);
    var d := Finite(false, DigitsValue(whole + cents), -2);
    assert UnsignedPrefix(s, false).1 == d;
    ParseFloatUnsigned(s);
    assert ParseFloat(s) == DecimalValue(d);
    Hundredth(DigitsValue(whole + cents));
  }

  lemma PointPrefix(whole: string, cents: string, suffix: string, s: string)
    requires |whole| > 0 && AllDigits(whole) && |cents| == 2 && AllDigits(cents)
    requires |suffix| > 0 && suffix[0] == ' '
    requires s == whole + "." + cents + suffix
    ensures AllDigits(whole + cents) && IsDigit(s[0])
    ensures UnsignedPrefix(s, false) == (|whole| + 3, Finite(false, DigitsValue(whole + cents), -2))
  {
    var a := |whole|;
    PointPieces(whole, cents, suffix);
    UnsignedPoint(s, a, 2);
    assert s[..a] + s[a + 1..a + 1 + 2] == whole + cents;
  }

  lemma Hundredth(m: nat)
    ensures DecimalValue(Finite(false, m, -2)) == Num(m as real / 100.0)
  {
    assert Pow10(2) == 100 by { assert Pow10(1) == 10; }
  }

  lemma PointPieces(whole: string, cents: string, suffix: string)
    requires |whole| > 0 && |cents| == 2 && |suffix| > 0 && suffix[0] == ' '
    ensures var s := whole + "." + cents + suffix; var a := |whole|;
            s[..a] == whole && s[a] == '.' && s[a + 1..a + 3] == cents && s[a + 3] == ' ' && s[0] == whole[0]
  {
    var s := whole + "." + cents + suffix;
    var a := |whole|;
    assert s[..a] == whole && s[a] == '.' && s[a + 1..a + 3] == cents && s[a + 3] == ' ';
  }

  lemma CentsValue(n: nat)
    ensures AllDigits(NatToString(n / 100) + PadDigits(n % 100, 2))
    ensures DigitsValue(NatToString(n / 100) + PadDigits(n % 100, 2)) == n
  {
    NatToStringValue(n / 100);
    PadDigitsValue(n % 100, 2);
    DigitsValueAppend(NatToString(n / 100), PadDigits(n % 100, 2));
  }

  /** The value of two digit strings written one after the other. */
  lemma {:induction false} DigitsValueAppend(a: string, b: string)
    requires AllDigits(a) && AllDigits(b)
    ensures AllDigits(a + b) && DigitsValue(a + b) == DigitsValue(a) * Pow10(|b|) + DigitsValue(b)
  {
    if |b| > 0 {
      var front := b[..|b| - 1];
      var d := DigitValue(b[|b| - 1]);
      assert (a + b)[..|a + b| - 1] == a + front;
      DigitsValueAppend(a, front);
      assert DigitsValue(a + b) == DigitsValue(a + front) * 10 + d;
      assert DigitsValue(b) == DigitsValue(front) * 10 + d;
      calc {
        DigitsValue(a + front) * 10 + d;
        (DigitsValue(a) * Pow10(|front|) + DigitsValue(front)) * 10 + d;
        { MulAssoc(DigitsValue(a), Pow10(|front|), 10); }
        DigitsValue(a) * Pow10(|b|) + DigitsValue(b);
      }
    } else {
      assert a + b == a;
    }
  }

  lemma MulAssoc(x: nat, y: nat, z: nat)
    ensures (x * y) * z == x * (z * y)
  {
  }
}
