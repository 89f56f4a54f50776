/** The date arithmetic of `chrono_today_iso`, against the calendar's own rule for the day after a date. */
module Civil {
  datatype Date = Date(year: int, month: int, day: int)

  // ---- The arithmetic ----

  /** The year starting in March that holds day `doe` of a 400-year era. */
  function YearOfEra(doe: nat): int {
    (doe - doe / 1460 + doe / 36524 - doe / 146096) / 365
  }

  /** The date of a day of a year starting in March. */
  function FromYearDay(year: int, doy: int): Date {
    var mp := (5 * doy + 2) / 153;
    var month := if mp < 10 then mp + 3 else mp - 9;
    Date(if month <= 2 then year + 1 else year, month, doy - (153 * mp + 2) / 5 + 1)
  }

  /** `chrono_today_iso`, up to its formatting. */
  function Today(days: nat): Date {
    var z := days + 719468;
    var era := z / 146097;
    var doe := z - era * 146097;
    var yoe := YearOfEra(doe);
    FromYearDay(yoe + era * 400, doe - (365 * yoe + yoe / 4 - yoe / 100))
  }

  // ---- The calendar ----

  predicate Leap(year: int) {
    year % 4 == 0 && (year % 100 != 0 || year % 400 == 0)
  }

  function DaysIn(year: int, month: int): int {
    if month == 2 then (if Leap(year) then 29 else 28)
    else if month == 4 || month == 6 || month == 9 || month == 11 then 30
    else 31
  }

  predicate Valid(d: Date) {
    1 <= d.month <= 12 && 1 <= d.day <= DaysIn(d.year, d.month)
  }

  function Tomorrow(d: Date): Date {
    if d.day < DaysIn(d.year, d.month) then d.(day := d.day + 1)
    else if d.month < 12 then Date(d.year, d.month + 1, 1)
    else Date(d.year + 1, 1, 1)
  }

  /** The date `days` days after 1970-01-01. */
  function After(days: nat): Date {
    if days == 0 then Date(1970, 1, 1) else Tomorrow(After(days - 1))
  }

  // ---- Years ----

  /** Days before the March that starts `year`. */
  function Start(year: int): int {
    365 * year + year / 4 - year / 100 + year / 400
  }

  function Length(year: int): int {
    if Leap(year + 1) then 366 else 365
  }

  lemma StartStep(year: int)
    ensures Start(year + 1) == Start(year) + Length(year)
  {
    Ticks(year);
    Nested(year + 1);
  }

  lemma Ticks(y: int)
    ensures (y + 1) / 4 == y / 4 + (if (y + 1) % 4 == 0 then 1 else 0)
    ensures (y + 1) / 100 == y / 100 + (if (y + 1) % 100 == 0 then 1 else 0)
    ensures (y + 1) / 400 == y / 400 + (if (y + 1) % 400 == 0 then 1 else 0)
  {
  }

  lemma Nested(y: int)
    ensures y % 400 == 0 ==> y % 100 == 0
    ensures y % 100 == 0 ==> y % 4 == 0
  {
    Centuries(y);
    FourYears(y);
  }

  lemma Centuries(y: int)
    ensures y % 400 == 0 ==> y % 100 == 0
  {
    var k := y / 400;
    assert y == 100 * (4 * k) + y % 400;
  }

  lemma FourYears(y: int)
    ensures y % 100 == 0 ==> y % 4 == 0
  {
    var k := y / 100;
    assert y == 4 * (25 * k) + y % 100;
  }

  lemma StartRises(y: int, z: int)
    requires y < z
    ensures Start(y) + Length(y) <= Start(z)
    decreases z - y
  {
    StartStep(y);
    if y + 1 < z {
      StartRises(y + 1, z);
    }
  }

  ghost predicate YearDay(z: int, year: int, doy: int) {
    z == Start(year) + doy && 0 <= doy < Length(year)
  }

  /** A day lies in one year only. */
  lemma YearDayUnique(z: int, y1: int, d1: int, y2: int, d2: int)
    requires YearDay(z, y1, d1) && YearDay(z, y2, d2)
    ensures y1 == y2 && d1 == d2
  {
    hide Start, Length;
    if y1 < y2 {
      StartRises(y1, y2);
    } else if y2 < y1 {
      StartRises(y2, y1);
    }
  }

  /** The division finds the year: centuries `c`, four-year blocks `q` and years `r` of the era. */
  lemma YearInBlocks(c: int, q: int, r: int, doy: int)
    requires 0 <= c < 4 && 0 <= q < 25 && 0 <= r < 4 && 0 <= doy <= 365
    requires doy == 365 ==> r == 3 && (q < 24 || c == 3)
    ensures YearOfEra(36524 * c + 1461 * q + 365 * r + doy) == 100 * c + 4 * q + r
  {
    var doe := 36524 * c + 1461 * q + 365 * r + doy;
    var last := if doe == 146096 then 1 else 0;
    assert doe / 36524 == c + last;
    assert doe / 146096 == last;
    var rest := 24 * c + q + 365 * r + doy;
    assert doe == 1460 * (25 * c + q) + rest && 0 <= rest < 2920;
    var e := if rest >= 1460 then 1 else 0;
    assert doe / 1460 == 25 * c + q + e;
    assert doe - doe / 1460 + doe / 36524 - doe / 146096 == 365 * (100 * c + 4 * q + r) + (doy - e);
    assert 0 <= doy - e <= 364;
  }

  /** Every day of an era lies in such blocks. */
  lemma Blocks(doe: nat) returns (c: int, q: int, r: int, doy: int)
    requires doe < 146097
    ensures 0 <= c < 4 && 0 <= q < 25 && 0 <= r < 4 && 0 <= doy <= 365
    ensures doy == 365 ==> r == 3 && (q < 24 || c == 3)
    ensures doe == 36524 * c + 1461 * q + 365 * r + doy
  {
    c := if doe < 109572 then doe / 36524 else 3;
    var rest := doe - 36524 * c;
    assert 0 <= rest <= 36524 && (rest == 36524 ==> c == 3);
    q := rest / 1461;
    var left := rest - 1461 * q;
    assert 0 <= left < 1461;
    r := if left < 1095 then left / 365 else 3;
    doy := left - 365 * r;
  }

  lemma BlockYear(c: int, q: int, r: int)
    requires 0 <= c < 4 && 0 <= q < 25 && 0 <= r < 4
    ensures var y := 100 * c + 4 * q + r; y / 4 == 25 * c + q && y / 100 == c && y / 400 == 0
    ensures Leap(100 * c + 4 * q + r + 1) <==> r == 3 && (q < 24 || c == 3)
  {
    var y := 100 * c + 4 * q + r;
    assert (y + 1) % 4 == 0 <==> r == 3;
    assert (y + 1) % 100 == 0 <==> q == 24 && r == 3;
    assert (y + 1) % 400 == 0 <==> c == 3 && q == 24 && r == 3;
  }

  lemma EraYear(doe: nat)
    requires doe < 146097
    ensures var yoe := YearOfEra(doe);
      0 <= yoe < 400 && YearDay(doe, yoe, doe - (365 * yoe + yoe / 4 - yoe / 100))
  {
    hide YearOfEra, Leap;
    var c, q, r, doy := Blocks(doe);
    YearInBlocks(c, q, r, doy);
    BlockYear(c, q, r);
  }

  lemma Eras(doe: int, year: int, doy: int, era: int)
    requires YearDay(doe, year, doy)
    ensures YearDay(doe + 146097 * era, year + 400 * era, doy)
  {
    Shift(year, era);
    Shift(year + 1, era);
  }

  lemma Shift(y: int, era: int)
    ensures (y + 400 * era) / 4 == y / 4 + 100 * era && (y + 400 * era) % 4 == y % 4
    ensures (y + 400 * era) / 100 == y / 100 + 4 * era && (y + 400 * era) % 100 == y % 100
    ensures (y + 400 * era) / 400 == y / 400 + era && (y + 400 * era) % 400 == y % 400
  {
  }

  lemma EraDay(doe: nat, era: int)
    requires doe < 146097
    ensures var yoe := YearOfEra(doe);
      YearDay(doe + 146097 * era, yoe + era * 400, doe - (365 * yoe + yoe / 4 - yoe / 100))
  {
    hide YearOfEra, YearDay;
    var yoe := YearOfEra(doe);
    EraYear(doe);
    Eras(doe, yoe, doe - (365 * yoe + yoe / 4 - yoe / 100), era);
  }

  lemma TodayInYear(days: nat) returns (year: int, doy: int)
    ensures YearDay(days + 719468, year, doy) && Today(days) == FromYearDay(year, doy)
  {
    hide YearOfEra, FromYearDay, YearDay;
    var z := days + 719468;
    var era, doe := z / 146097, z % 146097;
    assert doe == z - era * 146097 && doe + 146097 * era == z;
    var yoe := YearOfEra(doe);
    year, doy := yoe + era * 400, doe - (365 * yoe + yoe / 4 - yoe / 100);
    EraDay(doe, era);
  }

  // ---- Months ----

  /** Days of the month `mp` months after March, the twelfth counting its leap day. */
  function MonthLength(mp: int): int {
    if mp == 1 || mp == 3 || mp == 6 || mp == 8 then 30 else if mp == 11 then 29 else 31
  }

  lemma MonthOf(doy: int)
    requires 0 <= doy < 366
    ensures var mp := (5 * doy + 2) / 153; var day := doy - (153 * mp + 2) / 5 + 1;
      && 0 <= mp <= 11 && 1 <= day <= MonthLength(mp)
      && (day < MonthLength(mp) ==> (5 * (doy + 1) + 2) / 153 == mp)
      && (day == MonthLength(mp) && mp < 11 ==> (5 * (doy + 1) + 2) / 153 == mp + 1 && (153 * (mp + 1) + 2) / 5 == doy + 1)
      && (mp == 11 ==> day == doy - 336)
  {
    var mp := (5 * doy + 2) / 153;
    assert 153 * mp <= 5 * doy + 2 < 153 * mp + 153;
    assert mp == 0 || mp == 1 || mp == 2 || mp == 3 || mp == 4 || mp == 5 || mp == 6 || mp == 7 || mp == 8 || mp == 9 || mp == 10 || mp == 11;
  }

  lemma YearDayNext(year: int, doy: int)
    requires 0 <= doy < Length(year)
    ensures Valid(FromYearDay(year, doy))
    ensures Tomorrow(FromYearDay(year, doy)) == if doy + 1 < Length(year) then FromYearDay(year, doy + 1) else FromYearDay(year + 1, 0)
  {
    hide Leap;
    MonthOf(doy);
    assert FromYearDay(year + 1, 0) == Date(year + 1, 3, 1);
    if doy + 1 < Length(year) {
      MonthOf(doy + 1);
    }
  }

  lemma TodayNext(days: nat)
    ensures Valid(Today(days)) && Today(days + 1) == Tomorrow(Today(days))
  {
    var year, doy := TodayInYear(days);
    var year', doy' := TodayInYear(days + 1);
    YearDayNext(year, doy);
    hide Today, Tomorrow, Valid, FromYearDay, Start, Length;
    StartStep(year);
    if doy + 1 < Length(year) {
      YearDayUnique(days + 1 + 719468, year, doy + 1, year', doy');
    } else {
      LengthPositive(year + 1);
      YearDayUnique(days + 1 + 719468, year + 1, 0, year', doy');
    }
  }

  lemma LengthPositive(year: int)
    ensures Length(year) > 0
  {
  }

  lemma Epoch()
    ensures Today(0) == Date(1970, 1, 1)
  {
    assert 719468 / 146097 == 4 && 719468 - 4 * 146097 == 135080;
    assert YearOfEra(135080) == 369 && 369 / 4 == 92 && 369 / 100 == 3;
    assert FromYearDay(1969, 306) == Date(1970, 1, 1);
  }

  /** The arithmetic is the calendar: every day count gives the date that many days after 1970-01-01. */
  lemma {:induction false} TodayExact(days: nat)
    ensures Today(days) == After(days) && Valid(After(days))
  {
    if days == 0 {
      Epoch();
      hide Today, Valid, Tomorrow;
      TodayNext(0);
    } else {
      hide Today, Valid, Tomorrow;
      TodayExact(days - 1);
      TodayNext(days - 1);
      TodayNext(days);
    }
  }
}
