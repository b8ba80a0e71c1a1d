/** Clock readings and the two textual forms the routes store in cells:
    the date `YYYY-MM-DD` (what `toISOString().split("T")[0]` yields) and the
    UTC timestamp `YYYY-MM-DDTHH:MM:SS.sssZ` (what `toISOString()` yields),
    with the parse that `new Date(text).getTime()` performs on those two
    forms of the ECMAScript date time string format. */
module IsoTime {
  import opened Calendar
  import opened Http

  const MsPerHour := 3600000
  const MsPerDay := 86400000

  /** A wall-clock reading, passed to every handler that reads the time:
      the calendar date and the milliseconds elapsed since its midnight. */
  datatype Clock = Clock(today: Date, msOfDay: int)

  /** Years stay within four digits even one month after `today`. */
  predicate ValidClock(c: Clock)
  {
    ValidDate(c.today) && 0 <= c.today.year <= 9998 && 0 <= c.msOfDay < MsPerDay
  }

  /** The time value of a date's midnight. */
  function DayStart(d: Date): int
    requires 1 <= d.month <= 12
  {
    DayNumber(d) * MsPerDay
  }

  /** The time value `t` milliseconds after the midnight of `d`. */
  function TimeValue(d: Date, t: int): int
    requires 1 <= d.month <= 12
  {
    DayStart(d) + t
  }

  /** `Date.now()`: milliseconds since the epoch. */
  function Millis(c: Clock): int
    requires 1 <= c.today.month <= 12
  {
    TimeValue(c.today, c.msOfDay)
  }

  predicate IsDigit(ch: char)
  {
    '0' <= ch <= '9'
  }

  predicate AllDigits(s: string)
  {
    forall i :: 0 <= i < |s| ==> IsDigit(s[i])
  }

  function DigitChar(n: int): char
    requires 0 <= n < 10
  {
    ('0' as int + n) as char
  }

  function Pow10(width: nat): nat
  {
    if width == 0 then 1 else 10 * Pow10(width - 1)
  }

  /** The number a string of decimal digits denotes. */
  function Value(s: string): nat
    requires AllDigits(s)
  {
    if s == [] then 0 else 10 * Value(s[..|s| - 1]) + (s[|s| - 1] as int - '0' as int)
  }

  /** `n` written with exactly `width` digits, zero-padded on the left. */
  function Digits(n: nat, width: nat): (s: string)
    requires n < Pow10(width)
    ensures |s| == width
    decreases width
  {
    if width == 0 then [] else Digits(n / 10, width - 1) + [DigitChar(n % 10)]
  }

  /** `Digits` writes decimal digits that denote `n`. */
  lemma {:induction false} DigitsValue(n: nat, width: nat)
    requires n < Pow10(width)
    ensures AllDigits(Digits(n, width)) && Value(Digits(n, width)) == n
    decreases width
  {
    if width > 0 {
      var s := Digits(n, width);
      DigitsValue(n / 10, width - 1);
      assert s[..|s| - 1] == Digits(n / 10, width - 1);
    }
  }

  /** Fixed-width digits are the only spelling of their value. */
  lemma {:induction false} DigitsOfValue(s: string)
    requires AllDigits(s)
    ensures Value(s) < Pow10(|s|)
    ensures Digits(Value(s), |s|) == s
  {
    if s != [] {
      var init, last := s[..|s| - 1], s[|s| - 1];
      var v, digit := Value(init), last as int - '0' as int;
      assert AllDigits(init);
      DigitsOfValue(init);
      assert Value(s) == 10 * v + digit;
      assert Value(s) / 10 == v && Value(s) % 10 == digit;
      assert DigitChar(digit) == last;
      assert s == init + [last];
    }
  }

  /** `YYYY-MM-DD`. */
  function FormatDate(d: Date): (s: string)
    requires ValidDate(d) && 0 <= d.year <= 9999
    ensures |s| == 10
  {
    Digits(d.year, 4) + "-" + Digits(d.month, 2) + "-" + Digits(d.day, 2)
  }

  /** Reads `YYYY-MM-DD`; anything else, or a day the month lacks, is no date. */
  function ParseDate(s: string): Option<Date>
  {
    if |s| == 10 && s[4] == '-' && s[7] == '-'
       && AllDigits(s[..4]) && AllDigits(s[5..7]) && AllDigits(s[8..])
    then
      var d := Date(Value(s[..4]), Value(s[5..7]), Value(s[8..]));
      if ValidDate(d) then Some(d) else None
    else None
  }

  /** `ParseDate` reads a text built from three digit groups. */
  lemma ParseDateOfGroups(y: string, m: string, dd: string)
    requires |y| == 4 && |m| == 2 && |dd| == 2 && AllDigits(y) && AllDigits(m) && AllDigits(dd)
    ensures var d := Date(Value(y), Value(m), Value(dd));
      ParseDate(y + "-" + m + "-" + dd) == if ValidDate(d) then Some(d) else None
  {
    var s := y + "-" + m + "-" + dd;
    assert s[..4] == y && s[5..7] == m && s[8..] == dd;
  }

  lemma DateRoundTrip(d: Date)
    requires ValidDate(d) && 0 <= d.year <= 9999
    ensures ParseDate(FormatDate(d)) == Some(d)
  {
    DigitsValue(d.year, 4);
    DigitsValue(d.month, 2);
    DigitsValue(d.day, 2);
    ParseDateOfGroups(Digits(d.year, 4), Digits(d.month, 2), Digits(d.day, 2));
  }

  /** Every text `ParseDate` accepts is the formatting of the date it yields. */
  lemma DateRoundTripBack(s: string)
    requires ParseDate(s).Some?
    ensures 0 <= ParseDate(s).value.year <= 9999
    ensures FormatDate(ParseDate(s).value) == s
  {
    DigitsOfValue(s[..4]);
    DigitsOfValue(s[5..7]);
    DigitsOfValue(s[8..]);
    assert s == s[..4] + "-" + s[5..7] + "-" + s[8..];
  }

  /** `HH:MM:SS.sss` of the milliseconds since midnight. */
  function TimeText(t: int): (s: string)
    requires 0 <= t < MsPerDay
    ensures |s| == 12
  {
    Digits(t / MsPerHour, 2) + ":" + Digits(t / 60000 % 60, 2) + ":" + Digits(t / 1000 % 60, 2)
      + "." + Digits(t % 1000, 3)
  }

  /** Reads `HH:MM:SS.sss` back into milliseconds since midnight. */
  function ParseTime(s: string): Option<int>
  {
    if |s| == 12 && s[2] == ':' && s[5] == ':' && s[8] == '.'
    then TimeOfGroups(s[..2], s[3..5], s[6..8], s[9..])
    else None
  }

  /** The milliseconds since midnight that hour, minute, second and
      millisecond digit groups denote, if they are digits and in range. */
  function TimeOfGroups(h: string, mi: string, se: string, ms: string): Option<int>
  {
    if AllDigits(h) && AllDigits(mi) && AllDigits(se) && AllDigits(ms)
       && Value(h) < 24 && Value(mi) < 60 && Value(se) < 60
    then Some(Value(h) * MsPerHour + Value(mi) * 60000 + Value(se) * 1000 + Value(ms))
    else None
  }

  /** `toISOString()` of the clock reading. */
  function FormatTimestamp(c: Clock): (s: string)
    requires ValidClock(c)
    ensures |s| == 24
    ensures s[..10] == FormatDate(c.today) && s[10] == 'T'
    ensures s[11..23] == TimeText(c.msOfDay) && s[23] == 'Z'
  {
    var date, time := FormatDate(c.today), TimeText(c.msOfDay);
    TimestampParts(date, time);
    date + "T" + time + "Z"
  }

  lemma TimestampParts(date: string, time: string)
    requires |date| == 10 && |time| == 12
    ensures var s := date + "T" + time + "Z";
      s[..10] == date && s[10] == 'T' && s[11..23] == time && s[23] == 'Z'
  {
    var s := date + "T" + time + "Z";
    assert s[..10] == date;
    assert s[11..23] == time;
  }

  /** `new Date(s).getTime()` on the two ISO forms the routes write; any
      other text is an invalid date (NaN), here `None`. A date-only form
      denotes UTC midnight. */
  function ParseInstant(s: string): Option<int>
  {
    if |s| != 10 && !(|s| == 24 && s[10] == 'T' && s[23] == 'Z') then None
    else
      match ParseDate(s[..10])
      case None => None
      case Some(d) =>
        if |s| == 10 then Some(DayStart(d))
        else
          match ParseTime(s[11..23])
          case Some(t) => Some(TimeValue(d, t))
          case None => None
  }

  /** The parse of a cell; an undefined cell is an invalid date. */
  function ParseCell(cell: Option<string>): Option<int>
  {
    match cell
    case Some(s) => ParseInstant(s)
    case None => None
  }

  lemma TimeOfDaySplit(t: int)
    requires 0 <= t < MsPerDay
    ensures t / MsPerHour < 24 && t / 60000 % 60 < 60 && t / 1000 % 60 < 60
    ensures t / MsPerHour * MsPerHour + t / 60000 % 60 * 60000 + t / 1000 % 60 * 1000 + t % 1000 == t
  {
    var s := t / 1000;
    var m := s / 60;
    assert t == s * 1000 + t % 1000;
    assert s == m * 60 + s % 60;
    assert m == t / 60000;
    assert m / 60 == t / MsPerHour;
    assert m == m / 60 * 60 + m % 60;
  }

  /** `ParseTime` reads a text built from four digit groups. */
  lemma ParseTimeOfGroups(h: string, mi: string, se: string, ms: string)
    requires |h| == 2 && |mi| == 2 && |se| == 2 && |ms| == 3
    ensures ParseTime(h + ":" + mi + ":" + se + "." + ms) == TimeOfGroups(h, mi, se, ms)
  {
    var a := h + ":";
    var b := a + mi + ":";
    var c := b + se + ".";
    var s := c + ms;
    assert s[9..] == ms && s[..9] == c by { SliceOfJoin(c, ms); }
    assert c[6..8] == se && c[..6] == b by { SliceOfJoin(b + se, "."); SliceOfJoin(b, se); }
    assert b[3..5] == mi && b[..3] == a by { SliceOfJoin(a + mi, ":"); SliceOfJoin(a, mi); }
    assert a[..2] == h by { SliceOfJoin(h, ":"); }
    assert s[6..8] == c[6..8] && s[3..5] == b[3..5] && s[..2] == a[..2];
  }

  lemma SliceOfJoin(a: string, b: string)
    ensures (a + b)[..|a|] == a && (a + b)[|a|..] == b
  {
  }

  lemma TimeRoundTrip(t: int)
    requires 0 <= t < MsPerDay
    ensures ParseTime(TimeText(t)) == Some(t)
  {
    var h, mi, se, ms := t / MsPerHour, t / 60000 % 60, t / 1000 % 60, t % 1000;
    TimeOfDaySplit(t);
    DigitsValue(h, 2);
    DigitsValue(mi, 2);
    DigitsValue(se, 2);
    DigitsValue(ms, 3);
    ParseTimeOfGroups(Digits(h, 2), Digits(mi, 2), Digits(se, 2), Digits(ms, 3));
  }

  /** A timestamp reads back as the clock reading it was written from. */
  lemma TimestampRoundTrip(c: Clock)
    requires ValidClock(c)
    ensures ParseInstant(FormatTimestamp(c)) == Some(Millis(c))
  {
    TimeRoundTrip(c.msOfDay);
    DateRoundTrip(c.today);
    InstantOfText(FormatDate(c.today), TimeText(c.msOfDay), c.today, c.msOfDay);
  }

  lemma InstantOfText(date: string, time: string, d: Date, t: int)
    requires |date| == 10 && |time| == 12 && 1 <= d.month <= 12
    requires ParseDate(date) == Some(d) && ParseTime(time) == Some(t)
    ensures ParseInstant(date + "T" + time + "Z") == Some(TimeValue(d, t))
  {
    TimestampParts(date, time);
  }

  /** A date written by a route reads back as that day's midnight. */
  lemma DateInstant(d: Date)
    requires ValidDate(d) && 0 <= d.year <= 9999
    ensures ParseInstant(FormatDate(d)) == Some(DayStart(d))
  {
    DateRoundTrip(d);
    assert FormatDate(d)[..10] == FormatDate(d);
  }

  /** `s.split("T")[0]`: the text before the first `T`. */
  function DatePart(s: string): string
  {
    if s == [] || s[0] == 'T' then [] else [s[0]] + DatePart(s[1..])
  }

  lemma {:induction false} DatePartOfPrefix(a: string, b: string)
    requires NoSeparator(a)
    requires b != [] && b[0] == 'T'
    ensures DatePart(a + b) == a
  {
    if a != [] {
      assert (a + b)[1..] == a[1..] + b;
      DatePartOfPrefix(a[1..], b);
    } else {
      assert a + b == b;
    }
  }

  /** No character of `s` is the `T` that `DatePart` splits at. */
  predicate NoSeparator(s: string)
  {
    forall i :: 0 <= i < |s| ==> s[i] != 'T'
  }

  lemma JoinNoSeparator(a: string, b: string)
    requires NoSeparator(a) && NoSeparator(b)
    ensures NoSeparator(a + b)
  {
    assert forall i :: |a| <= i < |a + b| ==> (a + b)[i] == b[i - |a|];
  }

  lemma DigitsHaveNoSeparator(n: nat, width: nat)
    requires n < Pow10(width)
    ensures NoSeparator(Digits(n, width))
  {
    var s := Digits(n, width);
    DigitsValue(n, width);
    assert forall i :: 0 <= i < width ==> IsDigit(s[i]);
  }

  /** A formatted date holds only digits and dashes. */
  lemma DateHasNoSeparator(d: Date)
    requires ValidDate(d) && 0 <= d.year <= 9999
    ensures NoSeparator(FormatDate(d))
  {
    var y, m, dd := Digits(d.year, 4), Digits(d.month, 2), Digits(d.day, 2);
    DigitsHaveNoSeparator(d.year, 4);
    DigitsHaveNoSeparator(d.month, 2);
    DigitsHaveNoSeparator(d.day, 2);
    JoinNoSeparator(y, "-");
    JoinNoSeparator(y + "-", m);
    JoinNoSeparator(y + "-" + m, "-");
    JoinNoSeparator(y + "-" + m + "-", dd);
  }

  lemma DatePartBeforeTime(date: string, time: string)
    requires NoSeparator(date)
    ensures DatePart(date + "T" + time + "Z") == date
  {
    DatePartOfPrefix(date, "T" + time + "Z");
    assert date + ("T" + time + "Z") == date + "T" + time + "Z";
  }

  /** The date part of a timestamp is the clock's date. */
  lemma DateOfTimestamp(c: Clock)
    requires ValidClock(c)
    ensures DatePart(FormatTimestamp(c)) == FormatDate(c.today)
  {
    DateHasNoSeparator(c.today);
    DatePartBeforeTime(FormatDate(c.today), TimeText(c.msOfDay));
  }
}
