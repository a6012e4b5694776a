/** Card dates: days since 1970 for every Gregorian date, negative years included, and the
    eight-byte date a PS2 card keeps. */
module Calendar {
  import opened Bytes

  datatype Date = Date(year: int, month: int, day: int)

  /* ---- The Gregorian calendar ---------------------------------------------------------------------------- */

  predicate Leap(y: int) {
    y % 4 == 0 && (y % 100 != 0 || y % 400 == 0)
  }

  function MonthDays(y: int, m: int): int {
    if m == 2 then (if Leap(y) then 29 else 28)
    else if m == 4 || m == 6 || m == 9 || m == 11 then 30
    else 31
  }

  predicate IsDate(t: Date) {
    1 <= t.month <= 12 && 1 <= t.day <= MonthDays(t.year, t.month)
  }

  /** The day after. */
  function NextDay(t: Date): (n: Date)
    requires IsDate(t)
    ensures IsDate(n)
  {
    if t.day < MonthDays(t.year, t.month) then t.(day := t.day + 1)
    else if t.month < 12 then Date(t.year, t.month + 1, 1)
    else Date(t.year + 1, 1, 1)
  }

  /* ---- The conversions -------------------------------------------------------------------------------------- */

  /** Days before day 1 of month `mp`, in a year that starts in March. */
  function MonthStart(mp: int): int {
    (153 * mp + 2) / 5
  }

  /** Days before year `yoe` of a 400-year era. */
  function YearStart(yoe: int): int {
    yoe * 365 + yoe / 4 - yoe / 100
  }

  /** Division that truncates, as C's does. */
  function Truncated(a: int, b: int): int
    requires b > 0
  {
    if a >= 0 then a / b else -((-a) / b)
  }

  function DaysFromCivil(t: Date): int {
    var y := if t.month <= 2 then t.year - 1 else t.year;
    var era := Truncated(if y >= 0 then y else y - 399, 400);
    var yoe := y - era * 400;
    var doy := MonthStart(t.month + if t.month > 2 then -3 else 9) + t.day - 1;
    era * 146097 + YearStart(yoe) + doy - 719468
  }

  /** The year of an era that its day `doe` falls in. */
  function YearAt(doe: int): int {
    (doe - doe / 1460 + doe / 36524 - doe / 146096) / 365
  }

  /** Day `doy` of the year from March. */
  function DateAt(era: int, yoe: int, doy: int): Date {
    var mp := (5 * doy + 2) / 153;
    var m := if mp < 10 then mp + 3 else mp - 9;
    Date(yoe + era * 400 + if m <= 2 then 1 else 0, m, doy - MonthStart(mp) + 1)
  }

  function CivilFromDays(days: int): Date {
    var z := days + 719468;
    var era := Truncated(if z >= 0 then z else z - 146096, 146097);
    var doe := z - era * 146097;
    DateAt(era, YearAt(doe), doe - YearStart(YearAt(doe)))
  }

  /* ---- Eras, years and months -------------------------------------------------------------------------------- */

  lemma EraOf(era: int, r: int, n: int)
    requires 0 <= r < n && n in {400, 146097}
    ensures (era * n + r) / n == era
  {
  }

  /** The shifted truncating division floors, for negative years and days as well. */
  lemma Floors(a: int, era: int, r: int, n: int)
    requires 0 <= r < n && n in {400, 146097} && a == era * n + r
    ensures Truncated(if a >= 0 then a else a - (n - 1), n) == era
  {
    if a >= 0 {
      EraOf(era, r, n);
    } else {
      EraOf(-era, n - 1 - r, n);
    }
  }

  /** Days in the year, from March to February, `yoe` of an era. */
  function YearDays(yoe: int): int {
    if Leap(yoe + 1) then 366 else 365
  }

  lemma YearStartNext(yoe: int)
    requires 0 <= yoe < 400
    ensures YearStart(yoe + 1) + (if yoe == 399 then 1 else 0) == YearStart(yoe) + YearDays(yoe)
  {
  }

  lemma DoeQuotients(c: int, q: int, e: int, doe: int)
    requires 0 <= c < 4 && 0 <= q < 25 && doe == 1460 * (25 * c + q) + e && 0 <= e < 2920
    ensures doe / 1460 == 25 * c + q + if e >= 1460 then 1 else 0
  {
  }

  lemma CenturyQuotients(c: int, f: int, doe: int)
    requires 0 <= c < 4 && doe == 36524 * c + f && 0 <= f <= 36524 && (f == 36524 ==> c == 3)
    ensures doe / 36524 - doe / 146096 == c
  {
  }

  /** The year a day of an era falls in. */
  lemma YearOf(yoe: int, doy: int)
    requires 0 <= yoe < 400 && 0 <= doy < YearDays(yoe)
    ensures var doe := YearStart(yoe) + doy;
            0 <= doe < 146097 && YearAt(doe) == yoe
  {
    var c, q, r := yoe / 100, yoe % 100 / 4, yoe % 4;
    YearParts(yoe, c, q, r, doy);
    var doe := YearStart(yoe) + doy;
    DoeQuotients(c, q, 24 * c + q + 365 * r + doy, doe);
    CenturyQuotients(c, 1461 * q + 365 * r + doy, doe);
  }

  lemma YearParts(yoe: int, c: int, q: int, r: int, doy: int)
    requires 0 <= yoe < 400 && 0 <= doy < YearDays(yoe)
    requires c == yoe / 100 && q == yoe % 100 / 4 && r == yoe % 4
    ensures yoe == 100 * c + 4 * q + r && 0 <= c < 4 && 0 <= q < 25 && 0 <= r < 4
    ensures YearStart(yoe) == 36524 * c + 1461 * q + 365 * r
    ensures doy == 365 ==> r == 3 && (q < 24 || c == 3)
  {
  }

  /** Months counted from March, 0 to 11. */
  function FromMarch(m: int): int {
    m + if m > 2 then -3 else 9
  }

  function ToMonth(mp: int): int {
    if mp < 10 then mp + 3 else mp - 9
  }

  /** A date as its era, its year in it, and its day in that year from March. */
  predicate Parts(t: Date, era: int, yoe: int, doy: int) {
    && 0 <= yoe < 400 && t.year == era * 400 + yoe + (if t.month <= 2 then 1 else 0)
    && doy == MonthStart(FromMarch(t.month)) + t.day - 1
  }

  lemma Shift(k: int, y: int, n: int)
    requires n in {4, 100, 400}
    ensures (k * n + y) % n == y % n
  {
  }

  lemma LeapInEra(era: int, y: int)
    ensures Leap(era * 400 + y) == Leap(y)
  {
    Shift(100 * era, y, 4);
    Shift(4 * era, y, 100);
    Shift(era, y, 400);
  }

  /** A date's day of the year is inside the year, and gives the month and the day back. */
  lemma DateParts(t: Date, era: int, yoe: int, doy: int)
    requires IsDate(t) && Parts(t, era, yoe, doy)
    ensures 0 <= doy < YearDays(yoe)
    ensures (5 * doy + 2) / 153 == FromMarch(t.month) && doy - MonthStart(FromMarch(t.month)) + 1 == t.day
  {
    LeapInEra(era, yoe + 1);
  }

  /** Every day of a year is a date. */
  lemma PartsDate(era: int, yoe: int, doy: int) returns (t: Date)
    requires 0 <= yoe < 400 && 0 <= doy < YearDays(yoe)
    ensures IsDate(t) && Parts(t, era, yoe, doy)
    ensures t.month == ToMonth((5 * doy + 2) / 153)
  {
    LeapInEra(era, yoe + 1);
    var mp := (5 * doy + 2) / 153;
    var m := ToMonth(mp);
    t := Date(era * 400 + yoe + if m <= 2 then 1 else 0, m, doy - MonthStart(mp) + 1);
  }

  /** The day number of a date, by its parts. */
  lemma DaysOfParts(t: Date, era: int, yoe: int, doy: int)
    requires Parts(t, era, yoe, doy)
    ensures DaysFromCivil(t) == era * 146097 + YearStart(yoe) + doy - 719468
  {
    Floors(if t.month <= 2 then t.year - 1 else t.year, era, yoe, 400);
  }

  lemma DateAtParts(t: Date, era: int, yoe: int, doy: int)
    requires IsDate(t) && Parts(t, era, yoe, doy)
    ensures DateAt(era, yoe, doy) == t
  {
    DateParts(t, era, yoe, doy);
  }

  lemma CivilInEra(days: int, era: int, doe: int)
    requires 0 <= doe < 146097 && days + 719468 == era * 146097 + doe
    ensures CivilFromDays(days) == DateAt(era, YearAt(doe), doe - YearStart(YearAt(doe)))
  {
    hide DateAt, YearAt, YearStart;
    Floors(days + 719468, era, doe, 146097);
  }

  /** A day number's date, by the same parts. */
  lemma CivilOfParts(t: Date, era: int, yoe: int, doy: int)
    requires IsDate(t) && Parts(t, era, yoe, doy)
    ensures CivilFromDays(era * 146097 + YearStart(yoe) + doy - 719468) == t
  {
    hide DateAt, YearAt, YearStart, CivilFromDays;
    DateParts(t, era, yoe, doy);
    YearOf(yoe, doy);
    CivilInEra(era * 146097 + YearStart(yoe) + doy - 719468, era, YearStart(yoe) + doy);
    DateAtParts(t, era, yoe, doy);
  }

  /** Every date has its parts. */
  lemma HasParts(t: Date) returns (era: int, yoe: int, doy: int)
    requires IsDate(t)
    ensures Parts(t, era, yoe, doy)
  {
    var y := if t.month <= 2 then t.year - 1 else t.year;
    era, yoe := y / 400, y % 400;
    doy := MonthStart(FromMarch(t.month)) + t.day - 1;
  }

  /** Every Gregorian date comes back from its day number. */
  lemma CivilInverse(t: Date)
    requires IsDate(t)
    ensures CivilFromDays(DaysFromCivil(t)) == t
  {
    hide CivilFromDays, DaysFromCivil;
    var era, yoe, doy := HasParts(t);
    DaysOfParts(t, era, yoe, doy);
    CivilOfParts(t, era, yoe, doy);
  }

  /** The year of an era that day `doe` falls in, at or before `upto`. */
  lemma {:induction false} FindYear(doe: int, upto: int) returns (yoe: int)
    requires 0 <= doe && 0 <= upto < 400 && doe < YearStart(upto) + YearDays(upto)
    ensures 0 <= yoe <= upto && YearStart(yoe) <= doe < YearStart(yoe) + YearDays(yoe)
    decreases upto
  {
    if YearStart(upto) <= doe {
      yoe := upto;
    } else {
      YearStartNext(upto - 1);
      yoe := FindYear(doe, upto - 1);
    }
  }

  lemma DaysInEra(days: int, era: int, doe: int)
    requires 0 <= doe < 146097 && days == era * 146097 + doe - 719468
    ensures IsDate(CivilFromDays(days)) && DaysFromCivil(CivilFromDays(days)) == days
  {
    hide CivilFromDays, DaysFromCivil;
    var yoe := FindYear(doe, 399);
    var doy := doe - YearStart(yoe);
    var t := PartsDate(era, yoe, doy);
    DaysOfParts(t, era, yoe, doy);
    CivilOfParts(t, era, yoe, doy);
  }

  /** Every day number is some date's. */
  lemma DaysInverse(days: int)
    ensures IsDate(CivilFromDays(days)) && DaysFromCivil(CivilFromDays(days)) == days
  {
    var z := days + 719468;
    DaysInEra(days, z / 146097, z % 146097);
  }

  lemma MarchFirst(era: int, yoe: int, n: Date)
    requires 0 <= yoe < 400 && n == Date(era * 400 + yoe + 1, 3, 1)
    ensures DaysFromCivil(n) == era * 146097 + YearStart(yoe) + YearDays(yoe) - 719468
  {
    YearStartNext(yoe);
    if yoe == 399 {
      DaysOfParts(n, era + 1, 0, 0);
    } else {
      DaysOfParts(n, era, yoe + 1, 0);
    }
  }

  /** The day after is the next day of the same March-based year, or the first of the next. */
  lemma NextParts(t: Date, era: int, yoe: int, doy: int)
    requires IsDate(t) && Parts(t, era, yoe, doy)
    ensures if t.month == 2 && NextDay(t).month == 3
            then doy + 1 == YearDays(yoe) && NextDay(t) == Date(era * 400 + yoe + 1, 3, 1)
            else Parts(NextDay(t), era, yoe, doy + 1)
  {
    LeapInEra(era, yoe + 1);
  }

  lemma PartsNext(t: Date, n: Date, era: int, yoe: int, doy: int)
    requires Parts(t, era, yoe, doy) && Parts(n, era, yoe, doy + 1)
    ensures DaysFromCivil(n) == DaysFromCivil(t) + 1
  {
    DaysOfParts(t, era, yoe, doy);
    DaysOfParts(n, era, yoe, doy + 1);
  }

  lemma MarchNext(t: Date, era: int, yoe: int, doy: int)
    requires Parts(t, era, yoe, doy) && doy + 1 == YearDays(yoe)
    ensures DaysFromCivil(Date(era * 400 + yoe + 1, 3, 1)) == DaysFromCivil(t) + 1
  {
    DaysOfParts(t, era, yoe, doy);
    MarchFirst(era, yoe, Date(era * 400 + yoe + 1, 3, 1));
  }

  lemma NextIsNext(t: Date, n: Date, era: int, yoe: int, doy: int)
    requires IsDate(t) && Parts(t, era, yoe, doy) && n == NextDay(t)
    ensures DaysFromCivil(n) == DaysFromCivil(t) + 1
  {
    NextParts(t, era, yoe, doy);
    if t.month == 2 && n.month == 3 {
      MarchNext(t, era, yoe, doy);
    } else {
      PartsNext(t, n, era, yoe, doy);
    }
  }

  lemma Epoch()
    ensures DaysFromCivil(Date(1970, 1, 1)) == 0
  {
  }

  /** Day numbers count days: the next day's is one more, and 1 January 1970 is day 0. */
  lemma DaysNext(t: Date)
    requires IsDate(t)
    ensures DaysFromCivil(NextDay(t)) == DaysFromCivil(t) + 1
    ensures DaysFromCivil(Date(1970, 1, 1)) == 0
  {
    var era, yoe, doy := HasParts(t);
    NextIsNext(t, NextDay(t), era, yoe, doy);
    Epoch();
  }

  /** `s` is an earlier day than `t`. */
  predicate Before(s: Date, t: Date) {
    s.year < t.year || (s.year == t.year && (s.month < t.month || (s.month == t.month && s.day < t.day)))
  }

  lemma BeforeOn(s: Date, t: Date, u: Date)
    requires (s == t || Before(s, t)) && Before(t, u)
    ensures Before(s, u)
  {
  }

  /** Later day numbers are later days. */
  lemma {:induction false} CivilRises(d: int, n: nat)
    ensures n > 0 ==> Before(CivilFromDays(d), CivilFromDays(d + n))
  {
    hide CivilFromDays, DaysFromCivil;
    if n > 0 {
      CivilRises(d, n - 1);
      var t := CivilFromDays(d + n - 1);
      DaysInverse(d + n - 1);
      DaysNext(t);
      CivilInverse(NextDay(t));
      BeforeOn(CivilFromDays(d), t, NextDay(t));
    }
  }

  /** Days are numbered in order. */
  lemma DaysInOrder(s: Date, t: Date)
    requires IsDate(s) && IsDate(t)
    ensures DaysFromCivil(s) < DaysFromCivil(t) <==> Before(s, t)
  {
    hide CivilFromDays, DaysFromCivil;
    CivilInverse(s);
    CivilInverse(t);
    var m, n := DaysFromCivil(s), DaysFromCivil(t);
    if m < n {
      CivilRises(m, n - m);
    } else if n < m {
      CivilRises(n, m - n);
    }
  }

  /* ---- Card dates -------------------------------------------------------------------------------------------- */

  /** A card date: an unused byte, second, minute, hour, day, month, and a 16-bit year. */
  type Tod = t: seq<u8> | |t| == 8 witness Zeros(8)

  function TodDate(t: Tod): Date {
    Date(Le16(t, 6), t[5], t[4])
  }

  /** Seconds since midnight. */
  function Seconds(t: Tod): int {
    var h: int, m: int := t[3], t[2];
    h * 3600 + m * 60 + t[1]
  }

  function TodToUnix(t: Tod): int {
    var days := DaysFromCivil(Date(Le16(t, 6), if t[5] == 0 then 1 else t[5], if t[4] == 0 then 1 else t[4]));
    days * 86400 + Seconds(t)
  }

  /** The date and the time of day as a card keeps them; the year is cut to 16 bits. */
  function TodOf(c: Date, secs: int): (r: Tod)
    requires 0 <= secs < 86400
  {
    [0, secs % 60, secs / 60 % 60, secs / 3600, c.day % 256, c.month % 256] + Le16Bytes(c.year % 0x1_0000)
  }

  /** The day a second falls on. */
  function DayOf(t: int): (days: int)
    ensures 0 <= t - days * 86400 < 86400
  {
    if t >= 0 then t / 86400 else -((-t + 86399) / 86400)
  }

  function UnixToTod(t: int): Tod {
    TodOf(CivilFromDays(DayOf(t)), t - DayOf(t) * 86400)
  }

  /** A date of the calendar with a time of day, the unused byte zero. */
  predicate IsTod(t: Tod) {
    t[0] == 0 && t[1] < 60 && t[2] < 60 && t[3] < 24 && IsDate(TodDate(t))
  }

  lemma DaySeconds(days: int, secs: int)
    requires 0 <= secs < 86400
    ensures DayOf(days * 86400 + secs) == days
  {
  }

  lemma Quotient(q: int, r: int, n: int)
    requires n in {60, 3600} && 0 <= r < n
    ensures (q * n + r) / n == q && (q * n + r) % n == r
  {
  }

  /** Hours, minutes and seconds come back from the count of seconds. */
  lemma TimeParts(h: int, m: int, s: int)
    requires 0 <= h < 24 && 0 <= m < 60 && 0 <= s < 60
    ensures var x := h * 3600 + m * 60 + s; 0 <= x < 86400 && x / 3600 == h && x / 60 % 60 == m && x % 60 == s
  {
    Quotient(h, m * 60 + s, 3600);
    Quotient(h * 60 + m, s, 60);
    Quotient(h, m, 60);
  }

  lemma PairBytes(a: u8, b: u8)
    ensures Le16Bytes(a as int + 256 * b as int) == [a, b]
  {
  }

  lemma YearBytes(t: Tod)
    ensures Le16(t, 6) < 0x1_0000 && Le16Bytes(Le16(t, 6)) == t[6..]
  {
    PairBytes(t[6], t[7]);
  }

  lemma TodOfDate(t: Tod)
    requires IsTod(t)
    ensures 0 <= Seconds(t) < 86400 && TodOf(TodDate(t), Seconds(t)) == t
  {
    TimeParts(t[3], t[2], t[1]);
    YearBytes(t);
    assert t == [t[0], t[1], t[2], t[3], t[4], t[5]] + t[6..];
  }

  lemma UnixAt(days: int, secs: int)
    requires 0 <= secs < 86400
    ensures UnixToTod(days * 86400 + secs) == TodOf(CivilFromDays(days), secs)
  {
    DaySeconds(days, secs);
  }

  /** A date that converts comes back from its count of seconds. */
  lemma TodInverse(t: Tod)
    requires IsTod(t)
    ensures UnixToTod(TodToUnix(t)) == t
  {
    hide CivilFromDays, DaysFromCivil;
    TodOfDate(t);
    CivilInverse(TodDate(t));
    UnixAt(DaysFromCivil(TodDate(t)), Seconds(t));
  }

  /** The same month and day of two years have different day numbers. */
  lemma YearsApart(y: int, z: int, m: int, d: int)
    requires DaysFromCivil(Date(y, m, d)) == DaysFromCivil(Date(z, m, d))
    ensures y == z
  {
    hide MonthStart;
    var off := if m <= 2 then 1 else 0;
    var era, yoe, fra, zoe := (y - off) / 400, (y - off) % 400, (z - off) / 400, (z - off) % 400;
    var doy := MonthStart(FromMarch(m)) + d - 1;
    DaysOfParts(Date(y, m, d), era, yoe, doy);
    DaysOfParts(Date(z, m, d), fra, zoe, doy);
    assert era * 146097 + YearStart(yoe) == fra * 146097 + YearStart(zoe);
    EraOf(era, YearStart(yoe), 146097);
    EraOf(fra, YearStart(zoe), 146097);
    YearStartRises(yoe, zoe);
  }

  lemma YearStartRises(a: int, b: int)
    requires 0 <= a < 400 && 0 <= b < 400 && YearStart(a) == YearStart(b)
    ensures a == b
  {
  }

  /** What the conversion back gives has a time of day, and the month and day it was given. */
  lemma TodParts(c: Date, secs: int)
    requires IsDate(c) && 0 <= secs < 86400
    ensures var t := TodOf(c, secs);
            && t[0] == 0 && t[1] < 60 && t[2] < 60 && t[3] < 24 && t[4] == c.day && t[5] == c.month
               && Seconds(t) == secs
  {
  }

  lemma TodSeconds(t: Tod, c: Date, secs: int)
    requires IsDate(c) && 0 <= secs < 86400 && t == TodOf(c, secs)
    ensures TodToUnix(t) == DaysFromCivil(Date(Le16(t, 6), c.month, c.day)) * 86400 + secs
    ensures t[0] == 0 && t[1] < 60 && t[2] < 60 && t[3] < 24 && t[4] == c.day && t[5] == c.month
  {
    TodParts(c, secs);
  }

  lemma SameDay(x: int, a: int, b: int, secs: int)
    requires x == a * 86400 + secs == b * 86400 + secs
    ensures a == b
  {
  }

  /** What comes back, a date and a time of day, is what went in only if that was. */
  lemma TodLands(t: Tod)
    requires UnixToTod(TodToUnix(t)) == t
    ensures IsTod(t)
  {
    var x := TodToUnix(t);
    var days := DayOf(x);
    var c := CivilFromDays(days);
    DaysInverse(days);
    var secs := x - days * 86400;
    TodSeconds(t, c, secs);
    SameDay(x, DaysFromCivil(Date(Le16(t, 6), c.month, c.day)), days, secs);
    YearsApart(Le16(t, 6), c.year, c.month, c.day);
  }

  /** And only those do. */
  lemma TodConvertsIff(t: Tod)
    ensures UnixToTod(TodToUnix(t)) == t <==> IsTod(t)
  {
    if IsTod(t) {
      TodInverse(t);
    } else if UnixToTod(TodToUnix(t)) == t {
      TodLands(t);
    }
  }

  /** 31 April 2024 comes back as 1 May, and month 0 of that year as January. */
  lemma DatesTurn()
    ensures UnixToTod(TodToUnix([0, 0, 0, 0, 31, 4, 0xE8, 0x07])) == [0, 0, 0, 0, 1, 5, 0xE8, 0x07]
    ensures UnixToTod(TodToUnix([0, 0, 0, 0, 1, 0, 0xE8, 0x07])) == [0, 0, 0, 0, 1, 1, 0xE8, 0x07]
  {
    hide UnixToTod, Le16Bytes;
    var april: Tod, may: Tod := [0, 0, 0, 0, 31, 4, 0xE8, 0x07], [0, 0, 0, 0, 1, 5, 0xE8, 0x07];
    var zeroth: Tod, january: Tod := [0, 0, 0, 0, 1, 0, 0xE8, 0x07], [0, 0, 0, 0, 1, 1, 0xE8, 0x07];
    assert Le16(april, 6) == Le16(may, 6) == Le16(zeroth, 6) == Le16(january, 6) == 2024;
    assert DaysFromCivil(Date(2024, 4, 31)) == DaysFromCivil(Date(2024, 5, 1));
    TodInverse(may);
    TodInverse(january);
  }
}
