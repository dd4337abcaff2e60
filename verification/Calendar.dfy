/** The proleptic Gregorian calendar of src/time.c:33-70: `days_from_civil` and
    `civil_from_days` are inverse to each other and follow the calendar day by day. */
module Calendar {
  import opened Arithmetic

  datatype Date = Date(y: int, m: int, d: int)

  /** Division as C does it. */
  function TruncDiv(a: int, b: int): int
    requires b > 0
  {
    if a >= 0 then a / b else -((-a) / b)
  }

  /** `is_leap`; C's `%` is zero exactly when Euclid's is. */
  predicate Leap(y: int) { (y % 4 == 0 && y % 100 != 0) || y % 400 == 0 }

  function DaysInMonth(y: int, m: int): int
    requires 1 <= m <= 12
  {
    if m == 2 && Leap(y) then 29
    else [31, 28, 31, 30, 31, 30, 31, 31, 30, 31, 30, 31][m - 1]
  }

  predicate Valid(c: Date) { 1 <= c.m <= 12 && 1 <= c.d <= DaysInMonth(c.y, c.m) }

  /** Days of an era before a year, and of a year before a day of a month from March. */
  function YearStart(yoe: int): int { yoe * 365 + yoe / 4 - yoe / 100 }
  function DayOfYear(mp: int, d: int): int { (153 * mp + 2) / 5 + d - 1 }

  function DaysFromCivil(c: Date): int {
    var y := if c.m <= 2 then c.y - 1 else c.y;
    var era := TruncDiv(if y >= 0 then y else y - 399, 400);
    var yoe := y - era * 400;
    var doy := DayOfYear(c.m + (if c.m > 2 then -3 else 9), c.d);
    var doe := YearStart(yoe) + doy;
    era * 146097 + doe - 719468
  }

  function YearOfEra(doe: int): int { (doe - doe / 1460 + doe / 36524 - doe / 146096) / 365 }

  function FromDayOfYear(era: int, yoe: int, doy: int): Date {
    var y := yoe + era * 400;
    var mp := (5 * doy + 2) / 153;
    var d := doy - (153 * mp + 2) / 5 + 1;
    var m := if mp < 10 then mp + 3 else mp - 9;
    Date(if m <= 2 then y + 1 else y, m, d)
  }

  function Era(z: int): int { TruncDiv(if z >= 0 then z else z - 146096, 146097) }

  function CivilFromDays(days: int): Date {
    var z := days + 719468;
    var era := Era(z);
    var doe := z - era * 146097;
    var yoe := YearOfEra(doe);
    FromDayOfYear(era, yoe, doe - YearStart(yoe))
  }

  /** The calendar's own rule: the next day, by the length of the month. */
  function NextDay(c: Date): Date
    requires 1 <= c.m <= 12
  {
    if c.d < DaysInMonth(c.y, c.m) then Date(c.y, c.m, c.d + 1)
    else if c.m < 12 then Date(c.y, c.m + 1, 1)
    else Date(c.y + 1, 1, 1)
  }

  /** The bias of a negative dividend makes truncation round down. */
  lemma Floors(x: int, n: int)
    requires n > 0
    ensures TruncDiv(if x >= 0 then x else x - (n - 1), n) == x / n
  {
    if x < 0 {
      var q, r := x / n, x % n;
      assert n - 1 - x == n * (-q) + (n - 1 - r);
      Quotient(n - 1 - x, n, -q, n - 1 - r);
    }
  }

  /** A March-based year of an era is as long as the February it ends with. */
  predicate LongYear(yoe: int) { yoe % 4 == 3 && (yoe % 100 != 99 || yoe == 399) }

  /** The correction terms of `civil_from_days` find the year: with the day written as c
      centuries, q four-year cycles and s days, they add up to what a leap day shifts. */
  lemma YearFound(c: int, q: int, k: int, r: int)
    requires 0 <= c < 4 && 0 <= q < 25 && 0 <= k < 4
    requires 0 <= r < 365 || (r == 365 && LongYear(100 * c + 4 * q + k))
    ensures YearOfEra(36524 * c + 1461 * q + 365 * k + r) == 100 * c + 4 * q + k
  {
    var s := 365 * k + r;
    var doe := 36524 * c + 1461 * q + s;
    assert r == 365 ==> k == 3 && (q != 24 || c == 3);
    assert doe / 36524 - doe / 146096 == c;
    var e := if s >= 1460 - 24 * c - q then 1 else 0;
    assert doe / 1460 == 25 * c + q + e;
    assert (s - e) / 365 == k;
    Quotient(36500 * c + 1460 * q + s - e, 365, 100 * c + 4 * q + k, s - e - 365 * k);
  }

  lemma YearParts(yoe: int)
    requires 0 <= yoe < 400
    ensures var c, q, k := yoe / 100, yoe % 100 / 4, yoe % 4;
            0 <= c < 4 && 0 <= q < 25 && yoe == 100 * c + 4 * q + k && YearStart(yoe) == 36524 * c + 1461 * q + 365 * k
  {}

  /** Every day of an era lies in exactly one year of it. */
  lemma EraDay(yoe: int, doy: int)
    requires 0 <= yoe < 400 && 0 <= doy <= (if LongYear(yoe) then 365 else 364)
    ensures var doe := YearStart(yoe) + doy;
            0 <= doe < 146097 && YearOfEra(doe) == yoe
  {
    YearParts(yoe);
    YearFound(yoe / 100, yoe % 100 / 4, yoe % 4, doy);
  }

  /** And every day number of an era is such a day. */
  lemma EraSplit(doe: int)
    requires 0 <= doe < 146097
    ensures var yoe := YearOfEra(doe);
            0 <= yoe < 400 && 0 <= doe - YearStart(yoe) <= (if LongYear(yoe) then 365 else 364)
  {
    hide YearOfEra;
    var c := if doe / 36524 < 4 then doe / 36524 else 3;
    var x := doe - 36524 * c;
    assert 0 <= x <= 36524 && (x == 36524 ==> c == 3);
    var q := x / 1461;
    var s := x - 1461 * q;
    assert 0 <= q < 25 && 0 <= s <= 1460 && (q == 24 && s == 1460 ==> x == 36524);
    var k := if s / 365 < 4 then s / 365 else 3;
    var r := s - 365 * k;
    assert 0 <= k < 4 && 0 <= r <= 365 && (r == 365 ==> k == 3 && s == 1460);
    CenturyParts(c, q, k);
    YearFound(c, q, k, r);
  }

  lemma CenturyParts(c: int, q: int, k: int)
    requires 0 <= c < 4 && 0 <= q < 25 && 0 <= k < 4
    ensures var yoe := 100 * c + 4 * q + k;
            yoe / 100 == c && yoe % 100 / 4 == q && yoe % 4 == k && YearStart(yoe) == 36524 * c + 1461 * q + 365 * k
  {}

  /** Months counted from March: their lengths, and the fifths that space them. */
  function MonthLength(mp: int, long: bool): int
    requires 0 <= mp < 12
  {
    if mp == 11 then (if long then 29 else 28) else if mp == 1 || mp == 3 || mp == 6 || mp == 8 then 30 else 31
  }

  lemma MonthFound(mp: int, d: int, long: bool)
    requires 0 <= mp < 12 && 1 <= d <= MonthLength(mp, long)
    ensures var doy := DayOfYear(mp, d);
            (5 * doy + 2) / 153 == mp && 0 <= doy <= (if long then 365 else 364)
  {}

  lemma MonthSplit(doy: int, long: bool)
    requires 0 <= doy <= (if long then 365 else 364)
    ensures var mp := (5 * doy + 2) / 153;
            0 <= mp < 12 && 1 <= doy - DayOfYear(mp, 0) <= MonthLength(mp, long)
  {}

  lemma PlaceInEra(era: int, r: int)
    ensures (era * 400 + r) % 4 == r % 4 && (era * 400 + r) % 100 == r % 100 && (era * 400 + r) % 400 == r % 400
  {
    SameRemainder(r, 4, era * 100);
    SameRemainder(r, 100, era * 4);
    SameRemainder(r, 400, era);
    var y := era * 400 + r;
    assert y == r + 4 * (era * 100);
    assert y == r + 100 * (era * 4);
    assert y == r + 400 * era;
  }

  /** The leap rule sees only the place in the era. */
  lemma LeapInEra(era: int, yoe: int)
    requires 0 <= yoe < 400
    ensures Leap(era * 400 + yoe + 1) <==> LongYear(yoe)
  {
    PlaceInEra(era, yoe + 1);
    LeapPlace(era * 400 + yoe + 1, yoe);
  }

  lemma LeapPlace(y: int, yoe: int)
    requires 0 <= yoe < 400 && y % 4 == (yoe + 1) % 4 && y % 100 == (yoe + 1) % 100 && y % 400 == (yoe + 1) % 400
    ensures Leap(y) <==> LongYear(yoe)
  {}

  // ----- A date by era, year of the era, month from March and day -----

  /** The date with these parts. */
  function Assemble(era: int, yoe: int, mp: int, d: int): Date {
    Date(era * 400 + yoe + (if mp < 10 then 0 else 1), if mp < 10 then mp + 3 else mp - 9, d)
  }

  function DayOfEra(yoe: int, mp: int, d: int): int {
    YearStart(yoe) + DayOfYear(mp, d)
  }

  predicate InEra(yoe: int, mp: int, d: int) {
    0 <= yoe < 400 && 0 <= mp < 12 && 1 <= d <= MonthLength(mp, LongYear(yoe))
  }

  lemma MonthOfParts(era: int, yoe: int, mp: int)
    requires 0 <= yoe < 400 && 0 <= mp < 12
    ensures var c := Assemble(era, yoe, mp, 1);
            1 <= c.m <= 12 && DaysInMonth(c.y, c.m) == MonthLength(mp, LongYear(yoe))
  {
    LeapInEra(era, yoe);
  }

  lemma FromParts(era: int, yoe: int, mp: int, d: int)
    requires InEra(yoe, mp, d)
    ensures Valid(Assemble(era, yoe, mp, d))
    ensures DaysFromCivil(Assemble(era, yoe, mp, d)) == era * 146097 + DayOfEra(yoe, mp, d) - 719468
  {
    hide Valid, DaysFromCivil, Assemble, DayOfEra, MonthLength, LongYear;
    ValidParts(era, yoe, mp, d);
    EraOfYear(era, yoe);
    DayOfParts(era, yoe, mp, d);
  }

  lemma ValidParts(era: int, yoe: int, mp: int, d: int)
    requires InEra(yoe, mp, d)
    ensures Valid(Assemble(era, yoe, mp, d))
  {
    hide DaysInMonth, MonthLength, LongYear;
    MonthOfParts(era, yoe, mp);
  }

  lemma EraOfYear(era: int, yoe: int)
    requires 0 <= yoe < 400
    ensures var y := era * 400 + yoe; TruncDiv(if y >= 0 then y else y - 399, 400) == era
  {
    hide TruncDiv;
    Floors(era * 400 + yoe, 400);
    Quotient(era * 400 + yoe, 400, era, yoe);
  }

  lemma DayOfParts(era: int, yoe: int, mp: int, d: int)
    requires 0 <= yoe < 400 && 0 <= mp < 12
    requires var y := era * 400 + yoe; TruncDiv(if y >= 0 then y else y - 399, 400) == era
    ensures DaysFromCivil(Assemble(era, yoe, mp, d)) == era * 146097 + DayOfEra(yoe, mp, d) - 719468
  {
    hide TruncDiv, YearStart, DayOfYear;
  }

  lemma ToParts(c: Date) returns (era: int, yoe: int, mp: int)
    requires Valid(c)
    ensures InEra(yoe, mp, c.d) && c == Assemble(era, yoe, mp, c.d)
  {
    var y := if c.m <= 2 then c.y - 1 else c.y;
    era, yoe := y / 400, y % 400;
    mp := if c.m > 2 then c.m - 3 else c.m + 9;
    MonthOfParts(era, yoe, mp);
  }

  lemma CivilOfParts(era: int, yoe: int, mp: int, d: int)
    requires InEra(yoe, mp, d)
    ensures CivilFromDays(era * 146097 + DayOfEra(yoe, mp, d) - 719468) == Assemble(era, yoe, mp, d)
  {
    hide YearOfEra, Era, FromDayOfYear, Assemble, CivilFromDays, YearStart, DayOfYear, LongYear, MonthLength;
    MonthFound(mp, d, LongYear(yoe));
    EraDay(yoe, DayOfYear(mp, d));
    var doe := DayOfEra(yoe, mp, d);
    EraOf(era, doe);
    Unfold(era * 146097 + doe - 719468, era, doe, yoe);
    DateOfDay(era, yoe, mp, d);
  }

  lemma EraOf(era: int, doe: int)
    requires 0 <= doe < 146097
    ensures Era(era * 146097 + doe) == era
  {
    var z := era * 146097 + doe;
    Floors(z, 146097);
    Quotient(z, 146097, era, doe);
  }

  lemma Unfold(days: int, era: int, doe: int, yoe: int)
    requires Era(days + 719468) == era && days + 719468 - era * 146097 == doe && YearOfEra(doe) == yoe
    ensures CivilFromDays(days) == FromDayOfYear(era, yoe, doe - YearStart(yoe))
  {
    hide YearOfEra, Era, FromDayOfYear, YearStart;
  }

  lemma DateOfDay(era: int, yoe: int, mp: int, d: int)
    requires InEra(yoe, mp, d)
    ensures FromDayOfYear(era, yoe, DayOfYear(mp, d)) == Assemble(era, yoe, mp, d)
  {
    MonthFound(mp, d, LongYear(yoe));
  }

  /** Dates survive the trip through day numbers ... */
  lemma CivilRoundTrip(c: Date)
    requires Valid(c)
    ensures CivilFromDays(DaysFromCivil(c)) == c
  {
    hide *;
    var era, yoe, mp := ToParts(c);
    FromParts(era, yoe, mp, c.d);
    CivilOfParts(era, yoe, mp, c.d);
  }

  /** ... and day numbers survive the trip through dates, which are always valid. */
  lemma DaysRoundTrip(days: int)
    ensures Valid(CivilFromDays(days)) && DaysFromCivil(CivilFromDays(days)) == days
  {
    hide *;
    var era, yoe, mp, d := DayInParts(days);
    CivilOfParts(era, yoe, mp, d);
    FromParts(era, yoe, mp, d);
  }

  /** Every day number has parts. */
  lemma DayInParts(days: int) returns (era: int, yoe: int, mp: int, d: int)
    ensures InEra(yoe, mp, d) && days == era * 146097 + DayOfEra(yoe, mp, d) - 719468
  {
    hide YearOfEra, YearStart, LongYear, MonthLength;
    var z := days + 719468;
    var doe := z % 146097;
    era := z / 146097;
    EraSplit(doe);
    yoe := YearOfEra(doe);
    mp, d := DayOfYearParts(yoe, doe - YearStart(yoe));
  }

  lemma DayOfYearParts(yoe: int, doy: int) returns (mp: int, d: int)
    requires 0 <= yoe < 400 && 0 <= doy <= (if LongYear(yoe) then 365 else 364)
    ensures InEra(yoe, mp, d) && DayOfYear(mp, d) == doy
  {
    hide LongYear, MonthLength;
    MonthSplit(doy, LongYear(yoe));
    mp := (5 * doy + 2) / 153;
    d := doy - DayOfYear(mp, 0);
  }

  /** Day numbers follow the calendar: day 0 is 1970-01-01 and the next day is one more. */
  lemma DayByDay(c: Date)
    requires Valid(c)
    ensures Valid(NextDay(c)) && DaysFromCivil(NextDay(c)) == DaysFromCivil(c) + 1
    ensures DaysFromCivil(Date(1970, 1, 1)) == 0
  {
    hide Valid, DaysFromCivil, NextDay, Assemble, DayOfEra, InEra, NextParts;
    var era, yoe, mp := ToParts(c);
    var n := NextParts(era, yoe, mp, c.d);
    FromParts(era, yoe, mp, c.d);
    NextAssembled(era, yoe, mp, c.d);
    FromParts(n.0, n.1, n.2, n.3);
    NextNumber(era, yoe, mp, c.d);
    Epoch();
  }

  /** The day after, in parts. */
  function NextParts(era: int, yoe: int, mp: int, d: int): (int, int, int, int)
    requires InEra(yoe, mp, d)
  {
    if d < MonthLength(mp, LongYear(yoe)) then (era, yoe, mp, d + 1)
    else if mp < 11 then (era, yoe, mp + 1, 1)
    else if yoe < 399 then (era, yoe + 1, 0, 1)
    else (era + 1, 0, 0, 1)
  }

  lemma NextAssembled(era: int, yoe: int, mp: int, d: int)
    requires InEra(yoe, mp, d)
    ensures var n := NextParts(era, yoe, mp, d);
      && InEra(n.1, n.2, n.3) && 1 <= Assemble(era, yoe, mp, d).m <= 12
      && NextDay(Assemble(era, yoe, mp, d)) == Assemble(n.0, n.1, n.2, n.3)
  {
    hide LongYear, DaysInMonth;
    MonthOfParts(era, yoe, mp);
  }

  lemma NextNumber(era: int, yoe: int, mp: int, d: int)
    requires InEra(yoe, mp, d)
    ensures var n := NextParts(era, yoe, mp, d);
      n.0 * 146097 + DayOfEra(n.1, n.2, n.3) == era * 146097 + DayOfEra(yoe, mp, d) + 1
  {
    hide LongYear, YearStart;
    if d == MonthLength(mp, LongYear(yoe)) && mp == 11 { YearLength(yoe); }
  }

  /** A year of an era has 365 days, or 366 when its February is long. */
  lemma YearLength(yoe: int)
    requires 0 <= yoe < 400
    ensures var n := YearStart(yoe) + 365 + (if LongYear(yoe) then 1 else 0);
      n == if yoe < 399 then YearStart(yoe + 1) else 146097 + YearStart(0)
  {}

  lemma Epoch()
    ensures DaysFromCivil(Date(1970, 1, 1)) == 0
  {}
}
