/**
 * `parseDateTimeForSort`: a timeline entry's `MM/DD/YYYY` date and `HH:MM:SS` time
 * are split into fields and handed to `new Date(year, month - 1, day, hours, minutes,
 * seconds)`; the sort key is the resulting time value, in milliseconds since the epoch.
 * The arithmetic is the Date constructor's (MakeDay, MakeTime, MakeDate and TimeClip in
 * section 21.4.1 of ECMA-262, 13th edition), with local time read as UTC.
 */
module DateKey {

  import opened Wrappers
  import opened Text

  /** TimeClip's bound: 100 000 000 days either side of the epoch. */
  const MaxTime := 8_640_000_000_000_000

  predicate InLeapYear(y: int) {
    y % 4 == 0 && (y % 100 != 0 || y % 400 == 0)
  }

  function DaysInYear(y: int): (n: int)
    ensures n == 365 || n == 366
    ensures n == 366 <==> InLeapYear(y)
  {
    if InLeapYear(y) then 366 else 365
  }

  /** The day number of 1 January of year `y`; the divisions round down, as Dafny's do
      for a positive divisor. */
  function DayFromYear(y: int): int {
    365 * (y - 1970) + (y - 1969) / 4 - (y - 1901) / 100 + (y - 1601) / 400
  }

  /** The length of month `m` (0 is January) in year `y`. */
  function DaysInMonth(y: int, m: int): (n: int)
    requires 0 <= m < 12
    ensures 28 <= n <= 31
    ensures m == 1 ==> (n == 29 <==> InLeapYear(y))
  {
    if m == 1 then (if InLeapYear(y) then 29 else 28)
    else if m == 3 || m == 5 || m == 8 || m == 10 then 30
    else 31
  }

  /** The days of year `y` before the first of month `m`: the cumulative month lengths of
      a common year, one more from March on in a leap year. */
  function DaysBeforeMonth(y: int, m: int): int
    requires 0 <= m <= 12
  {
    [0, 31, 59, 90, 120, 151, 181, 212, 243, 273, 304, 334, 365][m]
      + (if m >= 2 && InLeapYear(y) then 1 else 0)
  }

  /** The table agrees with the month lengths, and the twelve months fill the year. */
  lemma MonthTable(y: int, m: int)
    requires 0 <= m < 12
    ensures DaysBeforeMonth(y, m + 1) == DaysBeforeMonth(y, m) + DaysInMonth(y, m)
    ensures DaysBeforeMonth(y, 12) == DaysInYear(y)
  {
  }

  /** A later month starts after the whole of an earlier one. */
  lemma {:induction false} DaysBeforeMonthMonotone(y: int, m1: int, m2: int)
    requires 0 <= m1 < m2 <= 12
    ensures DaysBeforeMonth(y, m1) + DaysInMonth(y, m1) <= DaysBeforeMonth(y, m2)
  {
    MonthTable(y, m1);
  }

  /** Stepping a floor quotient: `(x + 1) / d` grows by one exactly when `d` divides `x + 1`. */
  lemma FourStep(y: int)
    ensures (y - 1968) / 4 == (y - 1969) / 4 + (if y % 4 == 0 then 1 else 0)
  {
  }

  lemma HundredStep(y: int)
    ensures (y - 1900) / 100 == (y - 1901) / 100 + (if y % 100 == 0 then 1 else 0)
  {
  }

  lemma FourHundredStep(y: int)
    ensures (y - 1600) / 400 == (y - 1601) / 400 + (if y % 400 == 0 then 1 else 0)
  {
  }

  /** A multiple of `d * e` is a multiple of `d`. */
  lemma MultipleOf(y: int, d: int, e: int)
    requires 0 < d && 0 < e && y % (d * e) == 0
    ensures y % d == 0
  {
    var q := y / (d * e);
    assert y == (d * e) * q;
    assert y == d * (e * q);
  }

  /** Consecutive years are `DaysInYear` apart: the closed form agrees with counting days. */
  lemma DayFromYearStep(y: int)
    ensures DayFromYear(y + 1) == DayFromYear(y) + DaysInYear(y)
  {
    FourStep(y);
    HundredStep(y);
    FourHundredStep(y);
    if y % 400 == 0 {
      MultipleOf(y, 100, 4);
    }
    if y % 100 == 0 {
      MultipleOf(y, 4, 25);
    }
    var a, b, c := (y - 1969) / 4, (y - 1901) / 100, (y - 1601) / 400;
    assert DayFromYear(y) == 365 * (y - 1970) + a - b + c;
    assert DayFromYear(y + 1) == 365 * (y - 1969) + (y - 1968) / 4 - (y - 1900) / 100 + (y - 1600) / 400;
  }

  /** A later year starts after the whole of an earlier one. */
  lemma {:induction false} DayFromYearMonotone(y1: int, y2: int)
    requires y1 < y2
    ensures DayFromYear(y1) + DaysInYear(y1) <= DayFromYear(y2)
    decreases y2 - y1
  {
    DayFromYearStep(y1);
    if y2 > y1 + 1 {
      DayFromYearMonotone(y1 + 1, y2);
    }
  }

  /** MakeDay: the day number of day `date` of month `month` (0-based, possibly out of
      0..11, which carries into the year) of `year`. */
  function MakeDay(year: int, month: int, date: int): int {
    var ym := year + month / 12;
    var mn := month % 12;
    DayFromYear(ym) + DaysBeforeMonth(ym, mn) + date - 1
  }

  /** MakeTime with no milliseconds: 1000 ms a second, 60 000 a minute, 3 600 000 an hour. */
  function MakeTime(hours: int, minutes: int, seconds: int): int {
    hours * 3_600_000 + minutes * 60_000 + seconds * 1000
  }

  /** MakeDate: 86 400 000 ms a day. */
  function MakeDate(day: int, time: int): int {
    day * 86_400_000 + time
  }

  /** TimeClip: a time value beyond the bound is NaN, here `None`. */
  function TimeClip(t: int): (r: Option<int>)
    ensures r.Some? <==> -MaxTime <= t <= MaxTime
    ensures r.Some? ==> r.value == t
  {
    if -MaxTime <= t <= MaxTime then Some(t) else None
  }

  /** `new Date(year, month, day, hours, minutes, seconds)` on whole numbers; a year
      from 0 to 99 means 1900 to 1999. */
  function DateValue(year: int, month: int, day: int, hours: int, minutes: int, seconds: int): Option<int> {
    var fullYear := if 0 <= year <= 99 then 1900 + year else year;
    TimeClip(MakeDate(MakeDay(fullYear, month, day), MakeTime(hours, minutes, seconds)))
  }

  /** The six numbers read from the date and time texts, as written: the month is 1-based. */
  datatype Stamp = Stamp(month: nat, day: nat, year: nat, hours: nat, minutes: nat, seconds: nat)

  /** `Number(text)` for a digit string with white space around it; text that is only
      white space is 0. Other text (signs, decimals, NaN) is outside the model: `None`. */
  function FieldNumber(text: string): (r: Option<nat>)
    ensures AllWhitespace(text) ==> r == Some(0)
    ensures r.Some? <==> AllDigits(Trim(text))
  {
    TrimSpec(text);
    ParseNumber(Trim(text))
  }

  /** The destructuring of `dateStr.split('/')` and `timeStr.split(':')`. A missing part is
      `undefined`, which makes the date NaN: `None`, as is a part outside the model. */
  function ReadStamp(date: string, time: string): (r: Option<Stamp>)
    ensures |Split(date, '/')| < 3 || |Split(time, ':')| < 3 ==> r == None
  {
    var d := Split(date, '/');
    var t := Split(time, ':');
    if |d| < 3 || |t| < 3 then None
    else
      var month, day, year := FieldNumber(d[0]), FieldNumber(d[1]), FieldNumber(d[2]);
      var hours, minutes, seconds := FieldNumber(t[0]), FieldNumber(t[1]), FieldNumber(t[2]);
      if month.Some? && day.Some? && year.Some? && hours.Some? && minutes.Some? && seconds.Some?
      then Some(Stamp(month.value, day.value, year.value, hours.value, minutes.value, seconds.value))
      else None
  }

  /** `new Date(year, month - 1, day, hours, minutes, seconds)` on the fields read. */
  function StampValue(st: Stamp): Option<int> {
    DateValue(st.year, st.month - 1, st.day, st.hours, st.minutes, st.seconds)
  }

  /** `parseDateTimeForSort`: the sort key, or `None` where it is NaN or not modelled. */
  function ParseDateTimeForSort(date: string, time: string): Option<int> {
    match ReadStamp(date, time)
    case None => None
    case Some(st) => StampValue(st)
  }

  /** The texts of a stamp in the shape the timeline stores: `MM/DD/YYYY` and `HH:MM:SS`
      written here without zero padding. `ReadKey` covers padded texts, whose fields
      read as the same numbers. */
  function ShowDate(st: Stamp): string
  {
    ShowNat(st.month) + "/" + ShowNat(st.day) + "/" + ShowNat(st.year)
  }

  function ShowTime(st: Stamp): string
  {
    ShowNat(st.hours) + ":" + ShowNat(st.minutes) + ":" + ShowNat(st.seconds)
  }

  /** A shown number reads back as itself. */
  lemma {:induction false} FieldNumberShown(n: nat)
    ensures FieldNumber(ShowNat(n)) == Some(n)
  {
    var s := ShowNat(n);
    assert !IsWhitespace(s[0]) && !IsWhitespace(s[|s| - 1]) by {
      assert IsDigit(s[0]) && IsDigit(s[|s| - 1]);
    }
    TrimNoWhitespace(s);
    ShowNatRoundTrip(n);
  }

  lemma {:induction false} DigitsAvoid(n: nat, sep: char)
    requires !IsDigit(sep)
    ensures sep !in ShowNat(n)
  {
  }

  lemma {:induction false} JoinThree(a: string, b: string, c: string, sep: char)
    ensures Join([a, b, c], sep) == a + [sep] + b + [sep] + c
  {
    var parts := [a, b, c];
    assert parts[1..] == [b, c] && parts[1..][1..] == [c];
    assert Join([c], sep) == c;
    assert Join([b, c], sep) == b + [sep] + c;
  }

  /** Reading the texts of a stamp gives the stamp back. */
  lemma {:induction false} ReadShownStamp(st: Stamp)
    ensures ReadStamp(ShowDate(st), ShowTime(st)) == Some(st)
  {
    var dparts := [ShowNat(st.month), ShowNat(st.day), ShowNat(st.year)];
    var tparts := [ShowNat(st.hours), ShowNat(st.minutes), ShowNat(st.seconds)];
    DigitsAvoid(st.month, '/');
    DigitsAvoid(st.day, '/');
    DigitsAvoid(st.year, '/');
    DigitsAvoid(st.hours, ':');
    DigitsAvoid(st.minutes, ':');
    DigitsAvoid(st.seconds, ':');
    JoinThree(ShowNat(st.month), ShowNat(st.day), ShowNat(st.year), '/');
    JoinThree(ShowNat(st.hours), ShowNat(st.minutes), ShowNat(st.seconds), ':');
    SplitJoin(dparts, '/');
    SplitJoin(tparts, ':');
    FieldNumberShown(st.month);
    FieldNumberShown(st.day);
    FieldNumberShown(st.year);
    FieldNumberShown(st.hours);
    FieldNumberShown(st.minutes);
    FieldNumberShown(st.seconds);
  }

  /** A calendar date and clock time with a four-digit year from 100 on: the fields the
      timeline holds. */
  predicate Valid(st: Stamp) {
    && 100 <= st.year <= 9999
    && 1 <= st.month <= 12
    && 1 <= st.day <= DaysInMonth(st.year, st.month - 1)
    && st.hours < 24 && st.minutes < 60 && st.seconds < 60
  }

  /** `a` comes before `b` in the order of (year, month, day, hours, minutes, seconds). */
  predicate Before(a: Stamp, b: Stamp) {
    || a.year < b.year
    || (a.year == b.year && a.month < b.month)
    || (a.year == b.year && a.month == b.month && a.day < b.day)
    || (a.year == b.year && a.month == b.month && a.day == b.day && a.hours < b.hours)
    || (a.year == b.year && a.month == b.month && a.day == b.day && a.hours == b.hours
        && a.minutes < b.minutes)
    || (a.year == b.year && a.month == b.month && a.day == b.day && a.hours == b.hours
        && a.minutes == b.minutes && a.seconds < b.seconds)
  }

  /** The day number of a stamp. */
  function StampDay(st: Stamp): int {
    MakeDay(st.year, st.month - 1, st.day)
  }

  /** For a valid stamp the month does not carry into the year. */
  lemma {:induction false} StampDayOfValid(st: Stamp)
    requires Valid(st)
    ensures StampDay(st) == DayFromYear(st.year) + DaysBeforeMonth(st.year, st.month - 1) + st.day - 1
  {
    var m := st.month - 1;
    assert m / 12 == 0 && m % 12 == m;
  }

  /** A valid stamp's day lies within its year. */
  lemma {:induction false} StampDayInYear(st: Stamp)
    requires Valid(st)
    ensures DayFromYear(st.year) <= StampDay(st) < DayFromYear(st.year) + DaysInYear(st.year)
  {
    var m := st.month - 1;
    StampDayOfValid(st);
    if m < 11 {
      DaysBeforeMonthMonotone(st.year, m, 12);
    }
    MonthTable(st.year, m);
  }

  /** Day numbers of valid stamps follow the order of (year, month, day). */
  lemma {:induction false} StampDayOrder(a: Stamp, b: Stamp)
    requires Valid(a) && Valid(b)
    requires a.year < b.year || (a.year == b.year && a.month < b.month)
      || (a.year == b.year && a.month == b.month && a.day < b.day)
    ensures StampDay(a) < StampDay(b)
  {
    if a.year < b.year {
      StampDayInYear(a);
      StampDayInYear(b);
      DayFromYearMonotone(a.year, b.year);
    } else {
      StampDayOfValid(a);
      StampDayOfValid(b);
      if a.month < b.month {
        DaysBeforeMonthMonotone(a.year, a.month - 1, b.month - 1);
      }
    }
  }

  /** The sort key of a valid stamp is in TimeClip's range. */
  lemma {:induction false} StampKeyClipped(st: Stamp)
    requires Valid(st)
    ensures StampValue(st) == Some(MakeDate(StampDay(st), MakeTime(st.hours, st.minutes, st.seconds)))
  {
    StampDayInYear(st);
    if st.year > 100 {
      DayFromYearMonotone(100, st.year);
    }
    if st.year < 9999 {
      DayFromYearMonotone(st.year, 9999);
    }
    assert DayFromYear(100) == -683_003;
    assert DayFromYear(9999) == 2_932_532;
  }

  /** The key of a valid stamp. */
  function Key(st: Stamp): int {
    MakeDate(StampDay(st), MakeTime(st.hours, st.minutes, st.seconds))
  }

  lemma {:induction false} KeyBefore(a: Stamp, b: Stamp)
    requires Valid(a) && Valid(b) && Before(a, b)
    ensures Key(a) < Key(b)
  {
    if a.year < b.year || (a.year == b.year && a.month < b.month)
      || (a.year == b.year && a.month == b.month && a.day < b.day) {
      StampDayOrder(a, b);
    }
  }

  /** Once the fields are read, the key is the Date constructor's value for them. */
  lemma {:induction false} KeyOfRead(date: string, time: string, st: Stamp)
    requires ReadStamp(date, time) == Some(st)
    ensures ParseDateTimeForSort(date, time) == StampValue(st)
  {
  }

  /** Any texts whose fields read as a valid stamp, zero-padded or not, parse to its key. */
  lemma {:induction false} ReadKey(date: string, time: string, st: Stamp)
    requires ReadStamp(date, time) == Some(st) && Valid(st)
    ensures ParseDateTimeForSort(date, time) == Some(Key(st))
  {
    KeyOfRead(date, time, st);
    StampKeyClipped(st);
  }

  /** Two pairs of texts that read as valid stamps parse to keys that order the stamps:
      a strictly smaller key exactly for an earlier stamp, an equal key exactly for the
      same stamp. */
  lemma {:induction false} ReadKeysOrder(date1: string, time1: string, a: Stamp,
                                         date2: string, time2: string, b: Stamp)
    requires ReadStamp(date1, time1) == Some(a) && Valid(a)
    requires ReadStamp(date2, time2) == Some(b) && Valid(b)
    ensures ParseDateTimeForSort(date1, time1) == Some(Key(a))
    ensures ParseDateTimeForSort(date2, time2) == Some(Key(b))
    ensures Key(a) < Key(b) <==> Before(a, b)
    ensures Key(a) == Key(b) <==> a == b
  {
    ReadKey(date1, time1, a);
    ReadKey(date2, time2, b);
    if Before(a, b) {
      KeyBefore(a, b);
    } else if Before(b, a) {
      KeyBefore(b, a);
    } else {
      assert a == b;
    }
  }

  /** The texts of a valid stamp parse to its key. */
  lemma {:induction false} ParseShownStamp(st: Stamp)
    requires Valid(st)
    ensures ParseDateTimeForSort(ShowDate(st), ShowTime(st)) == Some(Key(st))
  {
    var date, time := ShowDate(st), ShowTime(st);
    ReadShownStamp(st);
    StampKeyClipped(st);
    KeyOfRead(date, time, st);
  }

  /** For valid stamps, `parseDateTimeForSort` on their texts gives a key, and the keys
      order the stamps as (year, month, day, hours, minutes, seconds) does: a strictly
      smaller key exactly for an earlier stamp, an equal key exactly for the same stamp. */
  lemma {:induction false} SortKeyOrder(a: Stamp, b: Stamp)
    requires Valid(a) && Valid(b)
    ensures ParseDateTimeForSort(ShowDate(a), ShowTime(a)) == Some(Key(a))
    ensures ParseDateTimeForSort(ShowDate(b), ShowTime(b)) == Some(Key(b))
    ensures Key(a) < Key(b) <==> Before(a, b)
    ensures Key(a) == Key(b) <==> a == b
  {
    ParseShownStamp(a);
    ParseShownStamp(b);
    if Before(a, b) {
      KeyBefore(a, b);
    } else if Before(b, a) {
      KeyBefore(b, a);
    } else {
      assert a == b;
    }
  }
}
