/** The timestamp of a log entry: seconds since 1970 turned into a calendar date and printed for RFC 3339. */
module CivilDates {

  datatype Date = Date(year: int, month: int, day: int)

  // ---------- the calendar, independently of the arithmetic ----------

  /** The leap rule of Appendix C of RFC 3339. */
  predicate IsLeap(year: int) {
    year % 4 == 0 && (year % 100 != 0 || year % 400 == 0)
  }

  function DaysInMonth(year: int, month: int): (n: int)
    requires 1 <= month <= 12
    ensures 28 <= n <= 31
  {
    if month == 2 then (if IsLeap(year) then 29 else 28)
    else if month == 4 || month == 6 || month == 9 || month == 11 then 30
    else 31
  }

  /** The field ranges of section 5.7 of RFC 3339. */
  predicate ValidDate(d: Date) {
    1 <= d.month <= 12 && 1 <= d.day <= DaysInMonth(d.year, d.month)
  }

  /** The next day of the calendar. */
  function NextDay(d: Date): (r: Date)
    requires ValidDate(d)
    ensures ValidDate(r)
  {
    if d.day < DaysInMonth(d.year, d.month) then d.(day := d.day + 1)
    else if d.month < 12 then Date(d.year, d.month + 1, 1)
    else Date(d.year + 1, 1, 1)
  }

  // ---------- the arithmetic of the log layer ----------

  /** Day of the 400-year era, counted from 1 March. */
  function DayOfEra(days: nat): (r: nat)
    ensures r < 146_097
  {
    (days + 719_468) % 146_097
  }

  function Era(days: nat): (r: nat) {
    (days + 719_468) / 146_097
  }

  function YearOfEra(doe: nat): (r: int) {
    (doe - doe / 1_460 + doe / 36_524 - doe / 146_096) / 365
  }

  /** The first day of a year of the era. */
  function YearStart(yoe: int): (r: int) {
    365 * yoe + yoe / 4 - yoe / 100
  }

  function DayOfYear(doe: nat): (r: int) {
    doe - YearStart(YearOfEra(doe))
  }

  function MonthPart(doy: int): (r: int) {
    (5 * doy + 2) / 153
  }

  function CivilDate(days: nat): (r: Date) {
    var doe := DayOfEra(days);
    var yoe := YearOfEra(doe);
    var doy := DayOfYear(doe);
    var mp := MonthPart(doy);
    var day := doy - (153 * mp + 2) / 5 + 1;
    var month := if mp < 10 then mp + 3 else mp - 9;
    Date(yoe + Era(days) * 400 + (if month <= 2 then 1 else 0), month, day)
  }

  // ---------- why it is the calendar ----------

  /** Day `s` of four-year cycle `b` of century `c` of the era; only the era's very last day has no such form. */
  lemma YearInCycle(c: int, b: int, s: int)
    requires 0 <= c <= 3 && 0 <= b <= 24 && 0 <= s < 1_461 && (b == 24 ==> s < 1_460)
    ensures var doe := 36_524 * c + 1_461 * b + s;
      var e := if s == 1_460 then 3 else s / 365;
      0 <= doe < 146_096 && YearOfEra(doe) == 100 * c + 4 * b + e
  {
    var doe := 36_524 * c + 1_461 * b + s;
    var late := if 24 * c + b + s >= 1_460 then 1 else 0;
    assert doe / 36_524 == c;
    assert doe / 146_096 == 0;
    assert doe / 1_460 == 25 * c + b + late;
    assert doe - doe / 1_460 + doe / 36_524 - doe / 146_096 == 365 * (100 * c + 4 * b) + (s - late);
  }

  lemma StartOfYear(c: int, b: int, e: int)
    requires 0 <= c && 0 <= b <= 24 && 0 <= e <= 3
    ensures YearStart(100 * c + 4 * b + e) == 36_524 * c + 1_461 * b + 365 * e
  {
  }

  /** The year found contains the day: `yoe` is a year of the era, and `doy` counts the days of that year from March. */
  lemma YearContainsDay(doe: nat) returns (c: int, b: int, e: int)
    requires doe < 146_097
    ensures 0 <= c <= 3 && 0 <= b <= 24 && 0 <= e <= 3
    ensures YearOfEra(doe) == 100 * c + 4 * b + e
    ensures 0 <= DayOfYear(doe) == doe - (36_524 * c + 1_461 * b + 365 * e)
    ensures DayOfYear(doe) < 365 || (DayOfYear(doe) == 365 && e == 3 && (b < 24 || c == 3))
  {
    if doe == 146_096 {
      c, b, e := 3, 24, 3;
      assert YearOfEra(doe) == 399;
    } else {
      c := doe / 36_524;
      var r := doe - 36_524 * c;
      b := r / 1_461;
      var s := r - 1_461 * b;
      e := if s == 1_460 then 3 else s / 365;
      YearInCycle(c, b, s);
    }
    StartOfYear(c, b, e);
  }

  /** The year that starts on 1 March has a 29 February at its end. */
  predicate LongYear(c: int, b: int, e: int) {
    e == 3 && (b < 24 || c == 3)
  }

  lemma LongYearIsLeap(era: nat, c: int, b: int, e: int)
    requires 0 <= c <= 3 && 0 <= b <= 24 && 0 <= e <= 3
    ensures LongYear(c, b, e) <==> IsLeap(400 * era + 100 * c + 4 * b + e + 1)
  {
    var y := 400 * era + 100 * c + 4 * b + e + 1;
    assert y % 4 == 0 <==> e == 3 by {
      assert y == 4 * (100 * era + 25 * c + b) + (e + 1);
    }
    if e == 3 {
      assert y % 100 == 0 <==> b == 24 by {
        assert y == 100 * (4 * era + c) + 4 * (b + 1);
      }
      assert b == 24 ==> (y % 400 == 0 <==> c == 3) by {
        assert y == 400 * era + 100 * c + 4 * (b + 1);
      }
    }
  }

  /** Every day of a year of the era is attributed to that year. */
  lemma YearOfDay(c: int, b: int, e: int, doy: int)
    requires 0 <= c <= 3 && 0 <= b <= 24 && 0 <= e <= 3
    requires 0 <= doy < (if LongYear(c, b, e) then 366 else 365)
    ensures var doe := 36_524 * c + 1_461 * b + 365 * e + doy;
      0 <= doe < 146_097 && YearOfEra(doe) == 100 * c + 4 * b + e && DayOfYear(doe) == doy
  {
    var s := 365 * e + doy;
    if s == 1_460 && b == 24 {
      assert 36_524 * c + 1_461 * b + s == 146_096;
      assert YearOfEra(146_096) == 399;
    } else {
      YearInCycle(c, b, s);
    }
    StartOfYear(c, b, e);
  }

  /** The date of day `doy` of the year that starts on 1 March `y`. */
  function FromMarch(y: int, doy: int): (r: Date) {
    var mp := MonthPart(doy);
    var month := if mp < 10 then mp + 3 else mp - 9;
    Date(y + (if month <= 2 then 1 else 0), month, doy - (153 * mp + 2) / 5 + 1)
  }

  lemma FromMarchValid(y: int, doy: int)
    requires 0 <= doy < (if IsLeap(y + 1) then 366 else 365)
    ensures ValidDate(FromMarch(y, doy))
    ensures 0 <= MonthPart(doy) <= 11
  {
  }

  lemma FromMarchNext(y: int, doy: int)
    requires 0 <= doy < (if IsLeap(y + 1) then 366 else 365)
    ensures ValidDate(FromMarch(y, doy))
    ensures NextDay(FromMarch(y, doy)) ==
            if doy + 1 < (if IsLeap(y + 1) then 366 else 365) then FromMarch(y, doy + 1) else FromMarch(y + 1, 0)
  {
    FromMarchValid(y, doy);
    var mp := MonthPart(doy);
    assert 153 * mp <= 5 * doy + 2 < 153 * (mp + 1);
    assert MonthPart(doy + 1) == mp || MonthPart(doy + 1) == mp + 1;
    assert MonthPart(0) == 0;
  }

  /** Day 0 is 1 January 1970. */
  lemma EpochDay()
    ensures CivilDate(0) == Date(1970, 1, 1)
  {
    DateInYear(0, 4, 3, 17, 1, 306);
    assert FromMarch(1969, 306) == Date(1970, 1, 1);
  }

  lemma DateInYear(days: nat, era: nat, c: int, b: int, e: int, doy: int)
    requires 0 <= c <= 3 && 0 <= b <= 24 && 0 <= e <= 3
    requires 0 <= doy < (if LongYear(c, b, e) then 366 else 365)
    requires days + 719_468 == 146_097 * era + 36_524 * c + 1_461 * b + 365 * e + doy
    ensures CivilDate(days) == FromMarch(400 * era + 100 * c + 4 * b + e, doy)
  {
    hide YearOfEra, DayOfYear, MonthPart, IsLeap, LongYear, Era, DayOfEra;
    YearOfDay(c, b, e, doy);
    EraAndDay(days, era, 36_524 * c + 1_461 * b + 365 * e + doy);
  }

  lemma EraAndDay(days: nat, era: nat, doe: nat)
    requires doe < 146_097 && days + 719_468 == 146_097 * era + doe
    ensures Era(days) == era && DayOfEra(days) == doe
  {
  }

  /** Main result: each day is the calendar successor of the day before, and every date is a real one. */
  lemma DaysFollowTheCalendar(days: nat)
    ensures ValidDate(CivilDate(days))
    ensures CivilDate(days + 1) == NextDay(CivilDate(days))
  {
    hide CivilDate, FromMarch, NextDay, ValidDate, IsLeap, YearOfEra, DayOfYear;
    var era, doe := Era(days), DayOfEra(days);
    var c, b, e := YearContainsDay(doe);
    var doy := DayOfYear(doe);
    LongYearIsLeap(era, c, b, e);
    DateInYear(days, era, c, b, e, doy);
    FromMarchNext(400 * era + 100 * c + 4 * b + e, doy);
    if doy + 1 < (if LongYear(c, b, e) then 366 else 365) {
      DateInYear(days + 1, era, c, b, e, doy + 1);
    } else if e < 3 {
      DateInYear(days + 1, era, c, b, e + 1, 0);
    } else if b < 24 {
      DateInYear(days + 1, era, c, b + 1, 0, 0);
    } else if c < 3 {
      DateInYear(days + 1, era, c + 1, 0, 0, 0);
    } else {
      DateInYear(days + 1, era + 1, 0, 0, 0, 0);
    }
  }

  /** The calendar by its definition: day after day from 1 January 1970. */
  function Calendar(days: nat): (r: Date)
    ensures ValidDate(r)
  {
    if days == 0 then Date(1970, 1, 1) else NextDay(Calendar(days - 1))
  }

  /** The closed form is the calendar, for every day. */
  lemma {:induction false} CivilDateIsCalendar(days: nat)
    ensures CivilDate(days) == Calendar(days)
  {
    hide CivilDate, NextDay, ValidDate;
    if days == 0 {
      EpochDay();
    } else {
      CivilDateIsCalendar(days - 1);
      DaysFollowTheCalendar(days - 1);
    }
  }

  // ---------- in the machine's integers ----------

  newtype u32 = x: int | 0 <= x < 0x1_0000_0000
  newtype u64 = x: int | 0 <= x < 0x1_0000_0000_0000_0000
  newtype i64 = x: int | -0x8000_0000_0000_0000 <= x < 0x8000_0000_0000_0000

  /** One UTC time in broken-down form. */
  datatype Time = Time(date: Date, hour: int, minute: int, second: int)

  /** The reading of a second count as a calendar time. */
  function TimeOf(secs: nat): (t: Time) {
    var rest := secs % 86_400;
    Time(CivilDate(secs / 86_400), rest / 3_600, rest % 3_600 / 60, rest % 60)
  }

  lemma EraQuotient(z: int)
    requires 0 <= z
    ensures z / 146_097 * 146_097 <= z < z / 146_097 * 146_097 + 146_097
    ensures z - z / 146_097 * 146_097 == z % 146_097
  {
  }

  /** The year of the era and the day of that year, in unsigned 32-bit steps that never underflow. */
  method YearAndDay(doe: u32) returns (yoe: u32, doy: u32)
    requires doe < 146_097
    ensures yoe as int == YearOfEra(doe as int) && doy as int == DayOfYear(doe as int)
    ensures yoe < 400 && doy <= 365
  {
    ghost var c, b, e := YearContainsDay(doe as int);
    yoe := (doe - doe / 1_460 + doe / 36_524 - doe / 146_096) / 365;
    StartOfYear(c, b, e);
    doy := doe - (365 * yoe + yoe / 4 - yoe / 100);
  }

  method MonthAndDay(doy: u32) returns (month: u32, day: u32)
    requires doy <= 365
    ensures var d := FromMarch(0, doy as int); month as int == d.month && day as int == d.day
    ensures 1 <= month <= 12
  {
    MonthRange(doy as int);
    var mp := (5 * doy + 2) / 153;
    day := doy - (153 * mp + 2) / 5 + 1;
    month := if mp < 10 then mp + 3 else mp - 9;
  }

  /** The computation step by step: no step of it wraps or underflows, whatever the second count. */
  method BreakDown(secs: u64) returns (year: i64, month: u32, day: u32, hours: u64, minutes: u64, seconds: u64)
    ensures var t := TimeOf(secs as int);
      && Date(year as int, month as int, day as int) == t.date
      && hours as int == t.hour && minutes as int == t.minute && seconds as int == t.second
    ensures ValidDate(Date(year as int, month as int, day as int)) && year >= 1970
    ensures hours < 24 && minutes < 60 && seconds < 60
  {
    hide ValidDate, YearOfEra, DayOfYear, FromMarch;
    var days := (secs / 86_400) as i64;
    var timeOfDay := secs % 86_400;
    hours, minutes, seconds := timeOfDay / 3_600, (timeOfDay % 3_600) / 60, timeOfDay % 60;
    DaysFollowTheCalendar(days as int);
    NotBeforeEpoch(days as int);
    var z := days + 719_468;
    EraQuotient(z as int);
    // `z` is never negative, so the adjustment for eras before year 0 never applies.
    var era := z / 146_097;
    var doe := (z - era * 146_097) as u32;
    var yoe, doy := YearAndDay(doe);
    year := (yoe as i64) + era * 400;
    month, day := MonthAndDay(doy);
    CivilDateByParts(days as int);
    year := year + (if month <= 2 then 1 else 0);
  }

  lemma CivilDateByParts(days: nat)
    ensures var d := FromMarch(0, DayOfYear(DayOfEra(days)));
      CivilDate(days) == d.(year := YearOfEra(DayOfEra(days)) + Era(days) * 400 + (if d.month <= 2 then 1 else 0))
  {
  }

  lemma MonthRange(doy: int)
    requires 0 <= doy <= 365
    ensures var mp := MonthPart(doy); 0 <= mp <= 11 && (153 * mp + 2) / 5 <= doy
  {
  }

  // ---------- timestamps sort chronologically ----------

  /** `d` is an earlier calendar day than `e`. */
  predicate EarlierDate(d: Date, e: Date) {
    d.year < e.year || (d.year == e.year && (d.month < e.month || (d.month == e.month && d.day < e.day)))
  }

  lemma {:induction false} DatesIncrease(a: nat, b: nat)
    requires a < b
    ensures EarlierDate(CivilDate(a), CivilDate(b))
    decreases b
  {
    hide CivilDate;
    DaysFollowTheCalendar(b - 1);
    if a < b - 1 {
      DatesIncrease(a, b - 1);
    }
  }

  lemma NotBeforeEpoch(days: nat)
    ensures CivilDate(days).year >= 1970
  {
    EpochDay();
    if days > 0 { DatesIncrease(0, days); }
  }

  /** Lexicographic order on strings. */
  predicate TextBefore(a: string, b: string) {
    b != "" && (a == "" || a[0] < b[0] || (a[0] == b[0] && TextBefore(a[1..], b[1..])))
  }

  function Digit(n: int): (c: char)
    requires 0 <= n <= 9
  {
    (n + '0' as int) as char
  }

  function Power10(w: nat): (r: nat)
    ensures r >= 1
  {
    if w == 0 then 1 else 10 * Power10(w - 1)
  }

  /** Decimal digits of `n`, padded with zeros to at least `w` characters. */
  function Padded(n: nat, w: nat): (r: string)
    decreases n + w
  {
    if w <= 1 && n < 10 then [Digit(n)]
    else Padded(n / 10, if w > 0 then w - 1 else 0) + [Digit(n % 10)]
  }

  lemma {:induction false} PaddedLength(n: nat, w: nat)
    requires 1 <= w && n < Power10(w)
    ensures |Padded(n, w)| == w
    decreases w
  {
    if w > 1 {
      PaddedLength(n / 10, w - 1);
    }
  }

  /** On equally long heads the comparison looks at the heads first. */
  lemma {:induction false} TextBeforeSplit(a: string, b: string, x: string, y: string)
    requires |a| == |b|
    ensures TextBefore(a + x, b + y) <==> TextBefore(a, b) || (a == b && TextBefore(x, y))
  {
    if a == "" {
      assert a + x == x && b + y == y;
    } else {
      assert (a + x)[1..] == a[1..] + x && (b + y)[1..] == b[1..] + y;
      assert a == [a[0]] + a[1..] && b == [b[0]] + b[1..];
      TextBeforeSplit(a[1..], b[1..], x, y);
    }
  }

  /** Equally wide numbers compare as texts exactly as they compare as numbers. */
  lemma {:induction false} PaddedOrder(m: nat, n: nat, w: nat)
    requires 1 <= w && m < Power10(w) && n < Power10(w)
    ensures TextBefore(Padded(m, w), Padded(n, w)) <==> m < n
    ensures Padded(m, w) == Padded(n, w) <==> m == n
    decreases w
  {
    PaddedLength(m, w);
    PaddedLength(n, w);
    if w > 1 {
      var pm, pn := Padded(m / 10, w - 1), Padded(n / 10, w - 1);
      PaddedOrder(m / 10, n / 10, w - 1);
      PaddedLength(m / 10, w - 1);
      PaddedLength(n / 10, w - 1);
      TextBeforeSplit(pm, pn, [Digit(m % 10)], [Digit(n % 10)]);
      assert Padded(m, w)[..w - 1] == pm && Padded(n, w)[..w - 1] == pn;
      assert Padded(m, w)[w - 1] == Digit(m % 10) && Padded(n, w)[w - 1] == Digit(n % 10);
    }
  }

  /** A printed field: its value, its width, and the separator after it. */
  datatype Field = Field(value: nat, width: nat, separator: char)

  function Printed(fields: seq<Field>): (r: string) {
    if fields == [] then ""
    else Padded(fields[0].value, fields[0].width) + [fields[0].separator] + Printed(fields[1..])
  }

  predicate SameLayout(a: seq<Field>, b: seq<Field>) {
    && |a| == |b|
    && forall i :: 0 <= i < |a| ==>
         && a[i].width == b[i].width >= 1 && a[i].separator == b[i].separator
         && a[i].value < Power10(a[i].width) && b[i].value < Power10(b[i].width)
  }

  /** Some field is smaller and all fields before it agree. */
  predicate FieldsBefore(a: seq<Field>, b: seq<Field>)
    requires |a| == |b|
  {
    a != [] && (a[0].value < b[0].value || (a[0].value == b[0].value && FieldsBefore(a[1..], b[1..])))
  }

  lemma {:induction false} PrintedOrder(a: seq<Field>, b: seq<Field>)
    requires SameLayout(a, b)
    ensures TextBefore(Printed(a), Printed(b)) <==> FieldsBefore(a, b)
  {
    hide Padded, Power10;
    if a != [] {
      var w, c := a[0].width, a[0].separator;
      var pa, pb := Padded(a[0].value, w), Padded(b[0].value, w);
      PaddedLength(a[0].value, w);
      PaddedLength(b[0].value, w);
      PaddedOrder(a[0].value, b[0].value, w);
      PrintedOrder(a[1..], b[1..]);
      TextBeforeSplit([c], [c], Printed(a[1..]), Printed(b[1..]));
      TextBeforeSplit(pa, pb, [c] + Printed(a[1..]), [c] + Printed(b[1..]));
      assert Printed(a) == pa + ([c] + Printed(a[1..])) && Printed(b) == pb + ([c] + Printed(b[1..]));
    }
  }

  /** The fields of a timestamp in print order. */
  function TimestampFields(secs: nat, millis: nat): (r: seq<Field>)
    ensures |r| == 7
  {
    var t := TimeOf(secs);
    NotBeforeEpoch(secs / 86_400);
    DaysFollowTheCalendar(secs / 86_400);
    [Field(t.date.year, 4, '-'), Field(t.date.month, 2, '-'), Field(t.date.day, 2, 'T'),
     Field(t.hour, 2, ':'), Field(t.minute, 2, ':'), Field(t.second, 2, '.'), Field(millis, 3, 'Z')]
  }

  /** The `ts` text of a log entry. */
  function Timestamp(secs: nat, millis: nat): (r: string) {
    Printed(TimestampFields(secs, millis))
  }

  /** The comparison reaches field `k` when all fields before it agree. */
  lemma {:induction false} FirstDifference(a: seq<Field>, b: seq<Field>, k: nat)
    requires |a| == |b| && k < |a|
    requires forall i :: 0 <= i < k ==> a[i].value == b[i].value
    requires a[k].value != b[k].value
    ensures FieldsBefore(a, b) <==> a[k].value < b[k].value
  {
    if k > 0 {
      FirstDifference(a[1..], b[1..], k - 1);
    }
  }

  lemma {:induction false} NoDifference(a: seq<Field>, b: seq<Field>)
    requires |a| == |b|
    requires forall i :: 0 <= i < |a| ==> a[i].value == b[i].value
    ensures !FieldsBefore(a, b)
  {
    if a != [] {
      NoDifference(a[1..], b[1..]);
    }
  }

  /** Hour, minute and second of a day count up together with the second of the day. */
  lemma ClockParts(rest: nat)
    requires rest < 86_400
    ensures rest == 3_600 * (rest / 3_600) + 60 * (rest % 3_600 / 60) + rest % 60
    ensures rest / 3_600 < 24 && rest % 3_600 / 60 < 60
  {
  }

  lemma InstantOrder(s1: nat, s2: nat)
    ensures s1 < s2 <==> s1 / 86_400 < s2 / 86_400 || (s1 / 86_400 == s2 / 86_400 && s1 % 86_400 < s2 % 86_400)
    ensures s1 == s2 <==> s1 / 86_400 == s2 / 86_400 && s1 % 86_400 == s2 % 86_400
  {
  }

  lemma FieldsFollowTime(s1: nat, m1: nat, s2: nat, m2: nat)
    requires m1 < 1_000 && m2 < 1_000
    ensures FieldsBefore(TimestampFields(s1, m1), TimestampFields(s2, m2)) <==>
            s1 < s2 || (s1 == s2 && m1 < m2)
  {
    hide CivilDate;
    var a, b := TimestampFields(s1, m1), TimestampFields(s2, m2);
    var d1, d2 := s1 / 86_400, s2 / 86_400;
    InstantOrder(s1, s2);
    ClockParts(s1 % 86_400);
    ClockParts(s2 % 86_400);
    if d1 < d2 { DatesIncrease(d1, d2); }
    if d2 < d1 { DatesIncrease(d2, d1); }
    if a[0].value != b[0].value { FirstDifference(a, b, 0); }
    else if a[1].value != b[1].value { FirstDifference(a, b, 1); }
    else if a[2].value != b[2].value { FirstDifference(a, b, 2); }
    else {
      assert d1 == d2;
      if a[3].value != b[3].value { FirstDifference(a, b, 3); }
      else if a[4].value != b[4].value { FirstDifference(a, b, 4); }
      else if a[5].value != b[5].value { FirstDifference(a, b, 5); }
      else {
        assert s1 == s2;
        if m1 != m2 { FirstDifference(a, b, 6); } else { NoDifference(a, b); }
      }
    }
  }

  /** Every timestamp has the same widths and separators, and up to the year 9999 every field fits its width. */
  lemma TimestampLayout(secs: nat, millis: nat)
    requires millis < 1_000 && TimeOf(secs).date.year <= 9_999
    ensures forall i :: 0 <= i < 7 ==>
              var f := TimestampFields(secs, millis)[i];
              f.width == [4, 2, 2, 2, 2, 2, 3][i] && f.separator == "--T::.Z"[i] && f.value < Power10(f.width)
  {
    hide CivilDate, NextDay, IsLeap;
    DaysFollowTheCalendar(secs / 86_400);
    ClockParts(secs % 86_400);
    assert Power10(2) == 100 && Power10(3) == 1_000 && Power10(4) == 10_000;
  }

  /** Main result: up to the year 9999 comparing timestamps as texts is comparing the instants. */
  lemma TimestampsSort(s1: nat, m1: nat, s2: nat, m2: nat)
    requires m1 < 1_000 && m2 < 1_000
    requires TimeOf(s1).date.year <= 9_999 && TimeOf(s2).date.year <= 9_999
    ensures TextBefore(Timestamp(s1, m1), Timestamp(s2, m2)) <==> s1 < s2 || (s1 == s2 && m1 < m2)
  {
    hide TimestampFields, TimeOf, Printed, TextBefore, FieldsBefore, Power10;
    FieldsFollowTime(s1, m1, s2, m2);
    TimestampLayout(s1, m1);
    TimestampLayout(s2, m2);
    PrintedOrder(TimestampFields(s1, m1), TimestampFields(s2, m2));
  }

  // ---------- reading a timestamp back ----------

  /** The number that decimal digits stand for. */
  function Number(digits: string): (r: int) {
    if digits == "" then 0
    else 10 * Number(digits[..|digits| - 1]) + (digits[|digits| - 1] as int - '0' as int)
  }

  /** A padded number consists of digits and reads back as it was. */
  lemma {:induction false} PaddedReads(n: nat, w: nat)
    requires 1 <= w && n < Power10(w)
    ensures |Padded(n, w)| == w && Number(Padded(n, w)) == n
    ensures forall i :: 0 <= i < w ==> '0' <= Padded(n, w)[i] <= '9'
    decreases w
  {
    PaddedLength(n, w);
    if w > 1 {
      PaddedReads(n / 10, w - 1);
      assert Padded(n, w)[..w - 1] == Padded(n / 10, w - 1);
      forall i | 0 <= i < w
        ensures '0' <= Padded(n, w)[i] <= '9'
      {
        assert i < w - 1 ==> Padded(n, w)[i] == Padded(n / 10, w - 1)[i];
      }
    } else {
      assert Padded(n, w)[..0] == "";
    }
  }

  /** A field is followed by its separator and the rest. */
  lemma PrintedFirst(fields: seq<Field>)
    requires fields != [] && fields[0].width >= 1 && fields[0].value < Power10(fields[0].width)
    ensures var w, text := fields[0].width, Printed(fields);
            && |text| == w + 1 + |Printed(fields[1..])|
            && Number(text[..w]) == fields[0].value && text[w] == fields[0].separator
            && text[w + 1..] == Printed(fields[1..])
            && forall i :: 0 <= i < w ==> '0' <= text[i] <= '9'
  {
    PaddedReads(fields[0].value, fields[0].width);
    hide Number, Power10, Padded;
    assert Printed(fields)[..fields[0].width] == Padded(fields[0].value, fields[0].width);
  }

  /** A text without its first `k` fields. */
  lemma {:induction false} PrintedFrom(fields: seq<Field>, k: nat, at: nat)
    requires k < |fields| && at <= |Printed(fields)| && Printed(fields)[at..] == Printed(fields[k..])
    requires fields[k].width >= 1 && fields[k].value < Power10(fields[k].width)
    ensures var w, text := fields[k].width, Printed(fields);
            && at + w < |text| && Number(text[at..at + w]) == fields[k].value && text[at + w] == fields[k].separator
            && text[at + w + 1..] == Printed(fields[k + 1..])
            && forall i :: at <= i < at + w ==> '0' <= text[i] <= '9'
  {
    hide Printed, Number, Power10;
    PrintedFirst(fields[k..]);
    var w, text, rest := fields[k].width, Printed(fields), Printed(fields[k..]);
    assert fields[k..][1..] == fields[k + 1..];
    assert text[at..at + w] == text[at..][..w];
    assert text[at + w + 1..] == text[at..][w + 1..];
    forall i | at <= i < at + w
      ensures '0' <= text[i] <= '9'
    {
      assert text[i] == text[at..][i - at];
    }
  }

  /**
    Reading a timestamp by section 5.6 of RFC 3339 gives the instant that was printed: the date is the one that counting
    day by day from 1 January 1970 reaches, and the time of day makes up the rest of the seconds.
   */
  lemma TimestampReads(secs: nat, millis: nat)
    requires millis < 1_000 && TimeOf(secs).date.year <= 9_999
    ensures var text := Timestamp(secs, millis);
            && |text| == 24
            && text[4] == text[7] == '-' && text[10] == 'T' && text[13] == text[16] == ':'
            && text[19] == '.' && text[23] == 'Z'
            && (forall i :: 0 <= i < 24 && i !in {4, 7, 10, 13, 16, 19, 23} ==> '0' <= text[i] <= '9')
            && Date(Number(text[..4]), Number(text[5..7]), Number(text[8..10])) == Calendar(secs / 86_400)
            && Number(text[11..13]) < 24 && Number(text[14..16]) < 60 && Number(text[17..19]) < 60
            && 3_600 * Number(text[11..13]) + 60 * Number(text[14..16]) + Number(text[17..19]) == secs % 86_400
            && Number(text[20..23]) == millis
  {
    var fields := TimestampFields(secs, millis);
    TimestampLayout(secs, millis);
    ClockParts(secs % 86_400);
    CivilDateIsCalendar(secs / 86_400);
    hide CivilDate, Calendar, Printed, Number, Power10;
    LayoutReads(fields);
  }

  /** Any seven fields of the layout of a timestamp read back. */
  lemma LayoutReads(fields: seq<Field>)
    requires |fields| == 7
    requires forall i :: 0 <= i < 7 ==>
               && fields[i].width == [4, 2, 2, 2, 2, 2, 3][i] && fields[i].separator == "--T::.Z"[i]
               && fields[i].value < Power10(fields[i].width)
    ensures var text := Printed(fields);
            && |text| == 24
            && text[4] == text[7] == '-' && text[10] == 'T' && text[13] == text[16] == ':'
            && text[19] == '.' && text[23] == 'Z'
            && (forall i :: 0 <= i < 24 && i !in {4, 7, 10, 13, 16, 19, 23} ==> '0' <= text[i] <= '9')
            && Number(text[..4]) == fields[0].value && Number(text[5..7]) == fields[1].value
            && Number(text[8..10]) == fields[2].value && Number(text[11..13]) == fields[3].value
            && Number(text[14..16]) == fields[4].value && Number(text[17..19]) == fields[5].value
            && Number(text[20..23]) == fields[6].value
  {
    NothingPrinted();
    hide Printed, Number, Power10;
    assert fields[0..] == fields && Printed(fields)[0..] == Printed(fields);
    PrintedFrom(fields, 0, 0);
    PrintedFrom(fields, 1, 5);
    PrintedFrom(fields, 2, 8);
    PrintedFrom(fields, 3, 11);
    PrintedFrom(fields, 4, 14);
    PrintedFrom(fields, 5, 17);
    PrintedFrom(fields, 6, 20);
    assert Printed(fields)[24..] == "" by { assert fields[7..] == []; }
    assert Printed(fields)[..4] == Printed(fields)[0..4];
  }

  lemma NothingPrinted()
    ensures Printed([]) == ""
  {
  }
}
