/** Day numbers and civil dates (`xtask/src/changelog.rs`: `civil_from_days`, `system_today`), against
    the Gregorian calendar as `xtask/src/deps.rs` states it: month lengths and leap years. */
module Calendar {
  // ---- the calendar ----------------------------------------------------------------------

  datatype Date = Date(year: int, month: int, day: int)

  predicate IsLeap(y: int) {
    y % 4 == 0 && (y % 100 != 0 || y % 400 == 0)
  }

  /** Days in a month; 0 for what is no month. */
  function DaysIn(y: int, m: int): int {
    if m in {1, 3, 5, 7, 8, 10, 12} then 31
    else if m in {4, 6, 9, 11} then 30
    else if m == 2 then if IsLeap(y) then 29 else 28
    else 0
  }

  predicate IsDate(x: Date) {
    1 <= x.month <= 12 && 1 <= x.day <= DaysIn(x.year, x.month)
  }

  /** The day after. */
  function Next(x: Date): Date {
    if x.day < DaysIn(x.year, x.month) then x.(day := x.day + 1)
    else if x.month < 12 then Date(x.year, x.month + 1, 1)
    else Date(x.year + 1, 1, 1)
  }

  // ---- the algorithm ---------------------------------------------------------------------

  /** Rust's `/` on signed integers truncates toward zero. */
  function TruncDiv(a: int, b: int): int
    requires b > 0
  {
    if a >= 0 then a / b else -((-a) / b)
  }

  function Era(z: int): int {
    TruncDiv(if z >= 0 then z else z - 146_096, 146_097)
  }

  function DayOfEra(z: int): int { z - Era(z) * 146_097 }

  function YearOfEra(doe: int): int {
    (doe - doe / 1460 + doe / 36_524 - doe / 146_096) / 365
  }

  function DayOfYear(doe: int): int {
    var yoe := YearOfEra(doe);
    doe - (365 * yoe + yoe / 4 - yoe / 100)
  }

  /** Months counted from March. */
  function MonthIndex(doy: int): int { (5 * doy + 2) / 153 }

  function FromDayOfYear(y: int, doy: int): Date {
    var mp := MonthIndex(doy);
    var d := doy - (153 * mp + 2) / 5 + 1;
    var m := if mp < 10 then mp + 3 else mp - 9;
    Date(y + (if m <= 2 then 1 else 0), m, d)
  }

  function CivilFromDays(days: int): Date {
    var z := days + 719_468;
    var doe := DayOfEra(z);
    FromDayOfYear(YearOfEra(doe) + Era(z) * 400, DayOfYear(doe))
  }

  // ---- years of an era -------------------------------------------------------------------

  /** Days of an era before its year `y`, years running from March. */
  function YearStart(y: int): int {
    365 * y + y / 4 - y / 100 + y / 400
  }

  lemma EraBounds(z: int)
    ensures 0 <= DayOfEra(z) < 146_097
  {
  }

  lemma MulAtLeast(b: int, k: int)
    requires b > 0 && k >= 1
    ensures b * k >= b
  {
  }

  lemma DivIs(a: int, b: int, q: int)
    requires b > 0 && b * q <= a < b * q + b
    ensures a / b == q
  {
    var p := a / b;
    assert b * p <= a < b * p + b;
    assert b * (p - q) == b * p - b * q && b * (q - p) == b * q - b * p;
    if p > q { MulAtLeast(b, p - q); } else if q > p { MulAtLeast(b, q - p); }
  }

  /** A day of an era as century, four-year cycle, year of the cycle and day of the year; day 365
      exists only in a leap year. */
  predicate Splits(doe: int, c: int, k: int, j: int, u: int) {
    && 0 <= c <= 3 && 0 <= k <= 24 && 0 <= j <= 3
    && 0 <= u <= (if j == 3 && (k < 24 || c == 3) then 365 else 364)
    && doe == 36_524 * c + 1461 * k + 365 * j + u
  }

  lemma SplitDay(doe: int) returns (c: int, k: int, j: int, u: int)
    requires 0 <= doe < 146_097
    ensures Splits(doe, c, k, j, u)
  {
    c := if doe == 146_096 then 3 else doe / 36_524;
    var r := doe - 36_524 * c;
    k := r / 1461;
    var t := r - 1461 * k;
    j := if t == 1460 then 3 else t / 365;
    u := t - 365 * j;
  }

  /** Dropping the leap days leaves 365 days to each year. */
  lemma SplitYear(doe: int, c: int, k: int, j: int, u: int)
    requires Splits(doe, c, k, j, u)
    ensures YearOfEra(doe) == 100 * c + 4 * k + j
  {
    var last := doe == 146_096;
    var x := if 24 * c + k + 365 * j + u >= 1460 then 1 else 0;
    DivIs(doe, 1460, 25 * c + k + x);
    DivIs(doe, 36_524, if last then 4 else c);
    DivIs(doe, 146_096, if last then 1 else 0);
    DivIs(doe - doe / 1460 + doe / 36_524 - doe / 146_096, 365, 100 * c + 4 * k + j);
  }

  lemma SplitStart(doe: int, c: int, k: int, j: int, u: int)
    requires Splits(doe, c, k, j, u)
    ensures YearStart(100 * c + 4 * k + j) == doe - u
    ensures doe < YearStart(100 * c + 4 * k + j + 1)
  {
    var y := 100 * c + 4 * k + j;
    DivIs(y, 4, 25 * c + k);
    DivIs(y, 100, c);
    DivIs(y, 400, 0);
    if j < 3 {
      DivIs(y + 1, 4, 25 * c + k);
      DivIs(y + 1, 100, c);
      DivIs(y + 1, 400, 0);
    } else if k < 24 {
      DivIs(y + 1, 4, 25 * c + k + 1);
      DivIs(y + 1, 100, c);
      DivIs(y + 1, 400, 0);
    } else {
      DivIs(y + 1, 4, 25 * c + k + 1);
      DivIs(y + 1, 100, c + 1);
      DivIs(y + 1, 400, if c == 3 then 1 else 0);
    }
  }

  lemma YearOfEraMeans(doe: int)
    requires 0 <= doe < 146_097
    ensures 0 <= YearOfEra(doe) < 400
    ensures YearStart(YearOfEra(doe)) <= doe < YearStart(YearOfEra(doe) + 1)
  {
    var c, k, j, u := SplitDay(doe);
    SplitYear(doe, c, k, j, u);
    SplitStart(doe, c, k, j, u);
  }

  lemma YearStartGrows(a: int, b: int)
    requires 0 <= a <= b <= 400
    ensures YearStart(a) + 365 * (b - a) <= YearStart(b)
    decreases b - a
  {
    if a < b {
      YearStep(a);
      YearStartGrows(a + 1, b);
    }
  }

  lemma YearOfEraUnique(doe: int, y: int)
    requires 0 <= doe < 146_097 && 0 <= y < 400 && YearStart(y) <= doe < YearStart(y + 1)
    ensures YearOfEra(doe) == y
  {
    YearOfEraMeans(doe);
    var q := YearOfEra(doe);
    if q < y { YearStartGrows(q + 1, y); } else if y < q { YearStartGrows(y + 1, q); }
  }

  // ---- months of a year ------------------------------------------------------------------

  /** Days of a March year before its month `mp`. */
  function MonthStart(mp: int): int { (153 * mp + 2) / 5 }

  lemma MonthIndexMeans(doy: int)
    requires 0 <= doy <= 365
    ensures 0 <= MonthIndex(doy) <= 11
    ensures MonthStart(MonthIndex(doy)) <= doy < MonthStart(MonthIndex(doy) + 1)
  {
  }

  /** A March year is as long as the leap rule of the year its February is in says. */
  function YearDays(y: int): int { if IsLeap(y + 1) then 366 else 365 }

  /** The length of a March year follows from the leap rule of the year its February is in. */
  lemma YearLength(era: int, yoe: int)
    requires 0 <= yoe < 400
    ensures YearStart(yoe + 1) - YearStart(yoe) == YearDays(yoe + era * 400)
  {
    var y := yoe + 1;
    ModAdd(y, era, 400);
    ModAdd(y, era * 4, 100);
    ModAdd(y, era * 100, 4);
    YearStep(yoe);
  }

  lemma ModAdd(y: int, n: int, m: int)
    requires m > 0
    ensures (y + n * m) % m == y % m
  {
    assert m * (y / m) <= y < m * (y / m) + m;
    assert m * (y / m + n) == m * (y / m) + n * m;
    DivIs(y + n * m, m, y / m + n);
  }

  lemma YearStep(yoe: int)
    requires 0 <= yoe < 400
    ensures YearStart(yoe + 1) - YearStart(yoe) == if IsLeap(yoe + 1) then 366 else 365
  {
    DivStep(yoe, 4);
    DivStep(yoe, 100);
    DivStep(yoe, 400);
    assert (yoe + 1) % 400 == 0 ==> (yoe + 1) % 100 == 0;
    assert (yoe + 1) % 100 == 0 ==> (yoe + 1) % 4 == 0;
  }

  lemma DivStep(a: int, b: int)
    requires b > 1
    ensures (a + 1) / b == a / b + if (a + 1) % b == 0 then 1 else 0
  {
    var q := (a + 1) / b;
    assert b * q <= a + 1 < b * q + b;
    if (a + 1) % b == 0 {
      assert b * (q - 1) == b * q - b;
      DivIs(a, b, q - 1);
    } else {
      DivIs(a, b, q);
    }
  }

  lemma FromDayOfYearIsDate(y: int, doy: int)
    requires 0 <= doy < YearDays(y)
    ensures IsDate(FromDayOfYear(y, doy))
  {
    MonthIndexMeans(doy);
  }

  lemma NextInYear(y: int, doy: int, after: int)
    requires after == doy + 1 && 0 <= doy && after < YearDays(y)
    ensures FromDayOfYear(y, after) == Next(FromDayOfYear(y, doy))
  {
    var mp := MonthIndex(doy);
    MonthIndexMeans(doy);
    MonthLength(y, mp);
    if doy + 1 < MonthStart(mp + 1) {
      DivIs(5 * (doy + 1) + 2, 153, mp);
    } else {
      DivIs(5 * (doy + 1) + 2, 153, mp + 1);
    }
  }

  lemma MonthLength(y: int, mp: int)
    requires 0 <= mp <= 11
    ensures var m := if mp < 10 then mp + 3 else mp - 9;
            if mp < 11 then MonthStart(mp + 1) - MonthStart(mp) == DaysIn(y, m) else m == 2 && MonthStart(mp) == 337
  {
    assert mp == 0 || mp == 1 || mp == 2 || mp == 3 || mp == 4 || mp == 5
        || mp == 6 || mp == 7 || mp == 8 || mp == 9 || mp == 10 || mp == 11;
  }

  lemma NextAcrossYear(y: int, y': int, doy: int)
    requires y' == y + 1 && doy + 1 == YearDays(y)
    ensures FromDayOfYear(y', 0) == Next(FromDayOfYear(y, doy))
  {
  }

  // ---- the main results ------------------------------------------------------------------

  /** The pieces of a day number, as the algorithm computes them. */
  lemma Pieces(days: int)
    ensures var z := days + 719_468; var doe := DayOfEra(z); var yoe := YearOfEra(doe);
            && 0 <= doe < 146_097 && 0 <= yoe < 400
            && doe == YearStart(yoe) + DayOfYear(doe)
            && 0 <= DayOfYear(doe) < YearDays(yoe + Era(z) * 400)
  {
    var z := days + 719_468;
    EraBounds(z);
    YearOfEraMeans(DayOfEra(z));
    YearLength(Era(z), YearOfEra(DayOfEra(z)));
  }

  /** Every day number names a date. */
  lemma CivilIsDate(days: int)
    ensures IsDate(CivilFromDays(days))
  {
    Pieces(days);
    var z := days + 719_468;
    FromDayOfYearIsDate(YearOfEra(DayOfEra(z)) + Era(z) * 400, DayOfYear(DayOfEra(z)));
  }

  lemma EraIs(z: int, era: int, doe: int)
    requires z == era * 146_097 + doe && 0 <= doe < 146_097
    ensures Era(z) == era && DayOfEra(z) == doe
  {
    EraBounds(z);
  }

  /** A day number is located by its era, year and day: whoever has these has its date. */
  lemma Located(days: int, era: int, yoe: int, doy: int, y: int)
    requires Locates(days, era, yoe, doy) && y == yoe + era * 400
    ensures CivilFromDays(days) == FromDayOfYear(y, doy)
  {
    var doe := YearStart(yoe) + doy;
    InEra(yoe, doy);
    EraIs(days + 719_468, era, doe);
    YearOfEraUnique(doe, yoe);
    DayOfYearIs(doe, yoe);
    CivilIs(days, era, doe, yoe, doy);
  }

  lemma InEra(yoe: int, doy: int)
    requires 0 <= yoe < 400 && 0 <= doy && YearStart(yoe) + doy < YearStart(yoe + 1)
    ensures 0 <= YearStart(yoe) + doy < 146_097
  {
    EraIsWhole();
    YearStartGrows(0, yoe);
    YearStartGrows(yoe + 1, 400);
  }

  lemma CivilIs(days: int, era: int, doe: int, yoe: int, doy: int)
    requires Era(days + 719_468) == era && DayOfEra(days + 719_468) == doe
    requires YearOfEra(doe) == yoe && DayOfYear(doe) == doy
    ensures CivilFromDays(days) == FromDayOfYear(yoe + era * 400, doy)
  {
  }

  lemma DayOfYearIs(doe: int, yoe: int)
    requires 0 <= yoe < 400 && YearOfEra(doe) == yoe
    ensures DayOfYear(doe) == doe - YearStart(yoe)
  {
  }

  /** Every day number is located somewhere. */
  lemma LocatedAt(days: int) returns (era: int, yoe: int, doy: int)
    ensures Locates(days, era, yoe, doy)
  {
    var z := days + 719_468;
    var doe := DayOfEra(z);
    era, yoe, doy := Era(z), YearOfEra(doe), DayOfYear(doe);
    Pieces(days);
    YearLength(era, yoe);
  }

  lemma NextDay(days: int, next: int)
    requires next == days + 1
    ensures CivilFromDays(next) == Next(CivilFromDays(days))
  {
    var era, yoe, doy := LocatedAt(days);
    NextLocated(days, next, era, yoe, doy);
  }

  /** The next day number names the next day. */
  lemma CivilNext(days: int)
    ensures CivilFromDays(days + 1) == Next(CivilFromDays(days))
  {
    NextDay(days, days + 1);
  }

  lemma EraIsWhole()
    ensures YearStart(0) == 0 && YearStart(400) == 146_097 && YearStart(1) == 365
  {
  }

  predicate Locates(days: int, era: int, yoe: int, doy: int) {
    && 0 <= yoe < 400 && 0 <= doy && YearStart(yoe) + doy < YearStart(yoe + 1)
    && days + 719_468 == era * 146_097 + YearStart(yoe) + doy
  }

  lemma NextLocated(days: int, next: int, era: int, yoe: int, doy: int)
    requires Locates(days, era, yoe, doy) && next == days + 1
    ensures CivilFromDays(next) == Next(CivilFromDays(days))
  {
    var y, after := yoe + era * 400, doy + 1;
    YearLength(era, yoe);
    if YearStart(yoe) + after < YearStart(yoe + 1) {
      NextSameYear(days, next, era, yoe, doy, after, y);
    } else {
      NextNewYear(days, next, era, yoe, doy, y, y + 1);
    }
  }

  lemma NextSameYear(days: int, next: int, era: int, yoe: int, doy: int, after: int, y: int)
    requires Locates(days, era, yoe, doy) && Locates(next, era, yoe, after)
    requires after == doy + 1 && y == yoe + era * 400 && after < YearDays(y)
    ensures CivilFromDays(next) == Next(CivilFromDays(days))
  {
    Located(next, era, yoe, after, y);
    Located(days, era, yoe, doy, y);
    NextInYear(y, doy, after);
  }

  lemma NextNewYear(days: int, next: int, era: int, yoe: int, doy: int, y: int, y': int)
    requires Locates(days, era, yoe, doy) && YearStart(yoe) + doy + 1 == YearStart(yoe + 1)
    requires next == days + 1 && y == yoe + era * 400 && y' == y + 1 && doy + 1 == YearDays(y)
    ensures CivilFromDays(next) == Next(CivilFromDays(days))
  {
    FirstOfYear(days, next, era, yoe, doy, y');
    Located(days, era, yoe, doy, y);
    NextAcrossYear(y, y', doy);
  }

  lemma FirstOfYear(days: int, next: int, era: int, yoe: int, doy: int, y: int)
    requires Locates(days, era, yoe, doy) && YearStart(yoe) + doy + 1 == YearStart(yoe + 1)
    requires next == days + 1 && y == yoe + era * 400 + 1
    ensures CivilFromDays(next) == FromDayOfYear(y, 0)
  {
    var yoe', era' := yoe + 1, era + 1;
    if yoe < 399 {
      NewYearLocates(days, next, era, yoe, yoe', doy);
      Located(next, era, yoe', 0, y);
    } else {
      NewEraLocates(days, next, era, era', doy);
      Located(next, era', 0, 0, y);
    }
  }

  lemma NewYearLocates(days: int, next: int, era: int, yoe: int, yoe': int, doy: int)
    requires Locates(days, era, yoe, doy) && YearStart(yoe) + doy + 1 == YearStart(yoe') && yoe < 399
    requires next == days + 1 && yoe' == yoe + 1
    ensures Locates(next, era, yoe', 0)
  {
    YearStep(yoe');
  }

  lemma NewEraLocates(days: int, next: int, era: int, era': int, doy: int)
    requires Locates(days, era, 399, doy) && YearStart(399) + doy + 1 == YearStart(400)
    requires next == days + 1 && era' == era + 1
    ensures Locates(next, era', 0, 0)
  {
    EraIsWhole();
  }

  lemma CivilEpoch()
    ensures CivilFromDays(0) == Date(1970, 1, 1)
  {
  }

  // ---- counting days, and the inverse ----------------------------------------------------

  function Leaps(y: int): int { y / 4 - y / 100 + y / 400 }

  /** Days from 1970-01-01 to the first of January of `y`. */
  function DaysBeforeYear(y: int): int {
    365 * (y - 1970) + Leaps(y - 1) - Leaps(1969)
  }

  function DaysBeforeMonth(y: int, m: int): int {
    if m <= 1 then 0 else DaysBeforeMonth(y, m - 1) + DaysIn(y, m - 1)
  }

  /** The number of a date, by counting years, months and days from 1970-01-01. */
  function DayOf(x: Date): int {
    DaysBeforeYear(x.year) + DaysBeforeMonth(x.year, x.month) + x.day - 1
  }

  predicate Before(x: Date, y: Date) {
    || x.year < y.year
    || (x.year == y.year && x.month < y.month)
    || (x.year == y.year && x.month == y.month && x.day < y.day)
  }

  function DaysInYear(y: int): int { if IsLeap(y) then 366 else 365 }

  lemma YearAfter(y: int)
    ensures DaysBeforeYear(y + 1) == DaysBeforeYear(y) + DaysInYear(y)
  {
    DivStep(y - 1, 4);
    DivStep(y - 1, 100);
    DivStep(y - 1, 400);
    ModAdd(0, 4 * (y / 400), 100);
    ModAdd(0, 25 * (y / 100), 4);
    assert y % 400 == 0 ==> y == 4 * (y / 400) * 100;
    assert y % 100 == 0 ==> y == 25 * (y / 100) * 4;
  }

  lemma YearsGrow(a: int, b: int)
    requires a <= b
    ensures DaysBeforeYear(a) <= DaysBeforeYear(b)
    decreases b - a
  {
    if a < b {
      YearAfter(a);
      YearsGrow(a + 1, b);
    }
  }

  lemma MonthsOfYear(y: int)
    ensures DaysBeforeMonth(y, 12) + 31 == DaysInYear(y)
  {
    var feb := DaysIn(y, 2);
    assert DaysBeforeMonth(y, 2) == 31;
    assert DaysBeforeMonth(y, 3) == 31 + feb;
    assert DaysBeforeMonth(y, 4) == 62 + feb;
    assert DaysBeforeMonth(y, 5) == 92 + feb;
    assert DaysBeforeMonth(y, 6) == 123 + feb;
    assert DaysBeforeMonth(y, 7) == 153 + feb;
    assert DaysBeforeMonth(y, 8) == 184 + feb;
    assert DaysBeforeMonth(y, 9) == 215 + feb;
    assert DaysBeforeMonth(y, 10) == 245 + feb;
    assert DaysBeforeMonth(y, 11) == 276 + feb;
  }

  lemma {:induction false} MonthsGrow(y: int, a: int, b: int)
    requires 1 <= a <= b <= 12
    ensures DaysBeforeMonth(y, a) <= DaysBeforeMonth(y, b)
    decreases b - a
  {
    if a < b { MonthsGrow(y, a, b - 1); }
  }

  lemma NextIsOneMore(x: Date)
    requires IsDate(x)
    ensures IsDate(Next(x)) && DayOf(Next(x)) == DayOf(x) + 1
  {
    if x.month == 12 {
      YearAfter(x.year);
      MonthsOfYear(x.year);
    }
  }

  lemma OrderOfDays(x: Date, y: Date)
    requires IsDate(x) && IsDate(y) && Before(x, y)
    ensures DayOf(x) < DayOf(y)
  {
    if x.year < y.year {
      MonthsGrow(x.year, x.month, 12);
      MonthsOfYear(x.year);
      EndOfMonth(x.year, x.month);
      YearAfter(x.year);
      YearsGrow(x.year + 1, y.year);
      MonthsGrow(y.year, 1, y.month);
    } else if x.month < y.month {
      MonthsGrow(x.year, x.month + 1, y.month);
    }
  }

  lemma EndOfMonth(y: int, m: int)
    requires 1 <= m <= 12
    ensures DaysBeforeMonth(y, m) + DaysIn(y, m) <= DaysInYear(y)
  {
    MonthsOfYear(y);
    if m < 12 { MonthsGrow(y, m + 1, 12); }
  }

  /** Counting undoes the algorithm, on every day number. */
  lemma {:induction false} CountedBack(days: int)
    ensures DayOf(CivilFromDays(days)) == days
    decreases if days < 0 then -days else days
  {
    if days > 0 {
      var d := days - 1;
      CountedBack(d);
      CountedStep(d, days);
    } else if days < 0 {
      var d := days + 1;
      CountedBack(d);
      CountedStep(days, d);
    } else {
      CountedEpoch();
    }
  }

  lemma CountedEpoch()
    ensures DayOf(CivilFromDays(0)) == 0
  {
    CivilEpoch();
    assert DayOf(Date(1970, 1, 1)) == 0;
  }

  lemma CountedStep(days: int, next: int)
    requires next == days + 1
    ensures DayOf(CivilFromDays(next)) == DayOf(CivilFromDays(days)) + 1
  {
    NextDay(days, next);
    CivilIsDate(days);
    NextIsOneMore(CivilFromDays(days));
  }

  /** And the algorithm undoes counting, on every date: the two are inverse. */
  lemma DateFound(x: Date)
    requires IsDate(x)
    ensures CivilFromDays(DayOf(x)) == x
  {
    var y := CivilFromDays(DayOf(x));
    CountedBack(DayOf(x));
    CivilIsDate(DayOf(x));
    if Before(x, y) { OrderOfDays(x, y); }
    if Before(y, x) { OrderOfDays(y, x); }
  }

  /** Day numbers and dates are ordered alike. */
  lemma SameOrder(x: Date, y: Date)
    requires IsDate(x) && IsDate(y)
    ensures Before(x, y) <==> DayOf(x) < DayOf(y)
  {
    if Before(x, y) { OrderOfDays(x, y); }
    if Before(y, x) { OrderOfDays(y, x); }
  }

  // ---- machine integers ------------------------------------------------------------------

  const I64_MAX: int := 0x7FFF_FFFF_FFFF_FFFF
  const I64_MIN: int := -0x8000_0000_0000_0000

  predicate IsI64(n: int) { I64_MIN <= n <= I64_MAX }

  /** For every day number the first addition can hold, no later step leaves its type: the signed
      ones stay in 64 bits, and no unsigned subtraction goes below zero. */
  lemma NothingOverflows(days: int)
    requires I64_MIN <= days <= I64_MAX - 719_468
    ensures var z := days + 719_468; IsI64(z) && (z < 0 ==> IsI64(z - 146_096)) && IsI64(Era(z) * 146_097)
    ensures var doe := DayOfEra(days + 719_468);
            0 <= doe - doe / 1460 && 0 <= doe - doe / 1460 + doe / 36_524 - doe / 146_096
    ensures var doe := DayOfEra(days + 719_468); var yoe := YearOfEra(doe);
            0 <= doe && 0 <= yoe <= 399 && 0 <= 365 * yoe + yoe / 4 - yoe / 100 <= doe
    ensures var doy := DayOfYear(DayOfEra(days + 719_468)); var mp := MonthIndex(doy);
            0 <= doy && 0 <= mp <= 11 && (153 * mp + 2) / 5 <= doy
    ensures IsI64(CivilFromDays(days).year)
  {
    var z := days + 719_468;
    EraSmall(z);
    Pieces(days);
    MonthIndexMeans(DayOfYear(DayOfEra(z)));
  }

  lemma EraSmall(z: int)
    requires I64_MIN <= z <= I64_MAX
    ensures I64_MIN + 146_096 <= z ==> IsI64(Era(z) * 146_097)
    ensures I64_MIN <= Era(z) * 400 - 1000 && Era(z) * 400 + 1000 <= I64_MAX
  {
    EraBounds(z);
  }
}
