/** Time and calendar arithmetic shared by the client and the server models.

    Instants are integer milliseconds since 1970-01-01T00:00 UTC (what a
    JavaScript `Date.getTime()` returns); dates are integer day numbers, day 0
    being 1970-01-01, a Thursday. Time zones are not modelled: every instant is
    read in UTC. The civil calendar is the proleptic Gregorian one, computed
    with the days-to-civil algorithm of H. Hinnant.
 */
module Calendar {
  import opened Wrappers

  const MsPerDay: int := 86400000

  /** The date an instant falls on (`datetime.date()` in UTC). */
  function DateOf(t: int): int
  {
    t / MsPerDay
  }

  /** Milliseconds elapsed since midnight of the instant's date. */
  function TimeOfDay(t: int): (r: int)
    ensures 0 <= r < MsPerDay
  {
    t % MsPerDay
  }

  /** Midnight at the start of date `d`. */
  function DayStart(d: int): int
  {
    d * MsPerDay
  }

  /** The instant on date `d` whose time of day is `tod`. */
  function At(d: int, tod: int): int
  {
    DayStart(d) + tod
  }

  lemma {:induction false} DateAndTimeOfAt(d: int, tod: int)
    requires 0 <= tod < MsPerDay
    ensures DateOf(At(d, tod)) == d && TimeOfDay(At(d, tod)) == tod
  {
    var t := At(d, tod);
    assert t == d * MsPerDay + tod;
    assert t / MsPerDay == d
    by {
      assert d * MsPerDay <= t < (d + 1) * MsPerDay;
    }
  }

  lemma {:induction false} AtOfInstant(t: int)
    ensures At(DateOf(t), TimeOfDay(t)) == t
  {
  }

  /** Instants on later dates with the same time of day are later. */
  lemma AtMonotonic(d1: int, d2: int, tod: int)
    requires d1 < d2
    ensures At(d1, tod) < At(d2, tod)
  {
  }

  datatype Weekday = MO | TU | WE | TH | FR | SA | SU

  /** Monday is 0 and Sunday is 6 (the numbering of both rrule libraries). */
  function WeekdayIndex(w: Weekday): (i: nat)
    ensures i < 7
  {
    match w
    case MO => 0
    case TU => 1
    case WE => 2
    case TH => 3
    case FR => 4
    case SA => 5
    case SU => 6
  }

  function WeekdayAt(i: nat): (w: Weekday)
    requires i < 7
    ensures WeekdayIndex(w) == i
  {
    if i == 0 then MO
    else if i == 1 then TU
    else if i == 2 then WE
    else if i == 3 then TH
    else if i == 4 then FR
    else if i == 5 then SA
    else SU
  }

  /** The three-letter code of a weekday: its English name's first three
      letters, in capitals. */
  function WeekdayCode(w: Weekday): (s: string)
    ensures |s| == 3
  {
    match w
    case MO => "MON"
    case TU => "TUE"
    case WE => "WED"
    case TH => "THU"
    case FR => "FRI"
    case SA => "SAT"
    case SU => "SUN"
  }

  /** The three-letter weekday codes both the client and the server use:
      each of the seven codes reads back as the weekday it names, and no
      other text is a code. */
  function WeekdayOfCode(code: string): (r: Option<Weekday>)
    ensures r.Some? <==> code in {"MON", "TUE", "WED", "THU", "FRI", "SAT", "SUN"}
    ensures r.Some? ==> WeekdayCode(r.value) == code
  {
    if code == "MON" then Some(MO)
    else if code == "TUE" then Some(TU)
    else if code == "WED" then Some(WE)
    else if code == "THU" then Some(TH)
    else if code == "FRI" then Some(FR)
    else if code == "SAT" then Some(SA)
    else if code == "SUN" then Some(SU)
    else None
  }

  /** Every weekday is read back from its own code. */
  lemma WeekdayCodeRoundTrip(w: Weekday)
    ensures WeekdayOfCode(WeekdayCode(w)) == Some(w)
  {
  }

  /** The weekday of date `d`; day 0 is a Thursday (index 3). */
  function WeekdayOf(d: int): (w: Weekday)
    ensures WeekdayIndex(w) == (d + 3) % 7
  {
    WeekdayAt((d + 3) % 7)
  }

  /** The weekday repeats every seven days and no sooner. */
  lemma {:induction false} WeekdayPeriodic(d: int, e: int)
    ensures WeekdayOf(d) == WeekdayOf(e) <==> (e - d) % 7 == 0
  {
    assert WeekdayOf(d) == WeekdayOf(e) <==> (d + 3) % 7 == (e + 3) % 7;
  }

  /** Number of the Monday-to-Sunday week that contains `d` (week start MO,
      the default of both rrule libraries). */
  function WeekNumber(d: int): int
  {
    (d + 3) / 7
  }

  predicate IsLeapYear(y: int)
  {
    y % 4 == 0 && (y % 100 != 0 || y % 400 == 0)
  }

  function DaysInMonth(y: int, m: int): (n: int)
    ensures 28 <= n <= 31
  {
    if m == 2 then (if IsLeapYear(y) then 29 else 28)
    else if m == 4 || m == 6 || m == 9 || m == 11 then 30
    else 31
  }

  datatype Civil = Civil(year: int, month: int, day: int)

  /** The Gregorian date of day number `d`. */
  function CivilOf(d: int): (c: Civil)
    ensures 1 <= c.month <= 12 && 1 <= c.day <= DaysInMonth(c.year, c.month)
  {
    var z := d + 719468;
    var era := z / 146097;
    var doe := z - era * 146097;
    var yoe := (doe - doe / 1460 + doe / 36524 - doe / 146096) / 365;
    var doy := doe - (365 * yoe + yoe / 4 - yoe / 100);
    var mp := (5 * doy + 2) / 153;
    var day := doy - (153 * mp + 2) / 5 + 1;
    var month := if mp < 10 then mp + 3 else mp - 9;
    var year := yoe + era * 400 + (if month <= 2 then 1 else 0);
    assert 0 <= doe < 146097;
    YearOfEra(doe);
    MonthAndDay(doy);
    assert mp == 11 && doy == 365 ==> IsLeapYear(yoe + 1 + era * 400) by {
      if mp == 11 && doy == 365 {
        LeapShift(yoe + 1, era);
      }
    }
    Civil(year, month, day)
  }

  /** Month (counted from March) and day of a day of the March-based year. */
  lemma {:induction false} MonthAndDay(doy: int)
    requires 0 <= doy <= 365
    ensures var mp := (5 * doy + 2) / 153;
            var day := doy - (153 * mp + 2) / 5 + 1;
            && 0 <= mp <= 11 && 1 <= day <= 31
            && (mp == 11 ==> day <= 28 || doy == 365)
            && (mp == 1 || mp == 3 || mp == 6 || mp == 8 ==> day <= 30)
  {
    var mp := (5 * doy + 2) / 153;
    assert 153 * mp <= 5 * doy + 2 < 153 * mp + 153;
  }

  /** The year of the era and the day of the (March-based) year that
      `CivilOf` computes from the day of the era: the day of the year is in
      range, and the 366th day occurs only before a leap year. */
  lemma {:induction false} YearOfEra(doe: int)
    requires 0 <= doe < 146097
    ensures var yoe := (doe - doe / 1460 + doe / 36524 - doe / 146096) / 365;
            var doy := doe - (365 * yoe + yoe / 4 - yoe / 100);
            && 0 <= yoe < 400 && 0 <= doy <= 365
            && (doy == 365 ==> (yoe + 1) % 4 == 0 && ((yoe + 1) % 100 != 0 || yoe == 399))
  {
    if doe == 146096 {
      assert (doe - doe / 1460 + doe / 36524 - doe / 146096) / 365 == 399;
    } else {
      // century `c`, four-year cycle `k` and day `s` within the cycle
      var c := doe / 36524;
      var r := doe % 36524;
      var k := r / 1461;
      var s := r % 1461;
      assert 0 <= c <= 3 && 0 <= r < 36524;
      assert 0 <= k <= 24 && 0 <= s <= 1460;
      YearInCycle(doe, c, k, s);
    }
  }

  lemma {:induction false} YearInCycle(doe: int, c: int, k: int, s: int)
    requires 0 <= c <= 3 && 0 <= k <= 24 && 0 <= s <= 1460 && doe < 146096
    requires doe == 36524 * c + 1461 * k + s && 1461 * k + s < 36524
    ensures var yoe := (doe - doe / 1460 + doe / 36524 - doe / 146096) / 365;
            var doy := doe - (365 * yoe + yoe / 4 - yoe / 100);
            && 0 <= yoe < 400 && 0 <= doy <= 365
            && (doy == 365 ==> (yoe + 1) % 4 == 0 && (yoe + 1) % 100 != 0)
  {
    var j := if s == 1460 then 3 else s / 365;
    assert 0 <= j <= 3 && 0 <= s - 365 * j <= 365;
    YearOfCycle(doe, c, k, s, 24 * c + k + s, j);
    var yoe := 100 * c + 4 * k + j;
    assert yoe == 4 * (25 * c + k) + j && yoe / 4 == 25 * c + k;
    assert yoe == 100 * c + (4 * k + j) && 4 * k + j <= 99 && yoe / 100 == c;
    assert doe - (365 * yoe + yoe / 4 - yoe / 100) == s - 365 * j;
    if s - 365 * j == 365 {
      assert s == 1460 && k < 24;
      assert yoe + 1 == 4 * (25 * c + k + 1);
      assert yoe + 1 == 100 * c + (4 * k + 4) && 0 < 4 * k + 4 < 100;
    }
  }

  lemma {:induction false} YearOfCycle(doe: int, c: int, k: int, s: int, u: int, j: int)
    requires 0 <= c <= 3 && 0 <= k <= 24 && 0 <= s <= 1460 && (k == 24 ==> s < 1460)
    requires doe == 1460 * (25 * c + k) + u && u == 24 * c + k + s && doe < 146096
    requires doe == 36524 * c + 1461 * k + s
    requires j == if s == 1460 then 3 else s / 365
    ensures (doe - doe / 1460 + doe / 36524 - doe / 146096) / 365 == 100 * c + 4 * k + j
  {
    assert doe / 36524 == c;
    assert doe / 146096 == 0;
    if u < 1460 {
      assert doe / 1460 == 25 * c + k;
      assert doe - doe / 1460 + doe / 36524 - doe / 146096 == 365 * (100 * c + 4 * k) + s;
    } else {
      assert doe / 1460 == 25 * c + k + 1;
      assert 1364 <= s;
      assert doe - doe / 1460 + doe / 36524 - doe / 146096 == 365 * (100 * c + 4 * k + 3) + (s - 1096);
    }
  }

  lemma {:induction false} LeapShift(y: int, era: int)
    requires 1 <= y <= 400
    requires y % 4 == 0 && (y % 100 != 0 || y == 400)
    ensures IsLeapYear(y + era * 400)
  {
    var s := y + era * 400;
    ModOf(4, y / 4 + 100 * era, 0);
    assert s == 4 * (y / 4 + 100 * era);
    if y == 400 {
      ModOf(400, era + 1, 0);
      assert s == 400 * (era + 1);
    } else {
      ModOf(100, y / 100 + 4 * era, y % 100);
      assert s == 100 * (y / 100 + 4 * era) + y % 100;
    }
  }

  lemma ModOf(m: int, q: int, r: int)
    requires m == 4 || m == 100 || m == 400
    requires 0 <= r < m
    ensures (m * q + r) % m == r
  {
    if m == 4 {
      assert (4 * q + r) % 4 == r;
    } else if m == 100 {
      assert (100 * q + r) % 100 == r;
    } else {
      assert (400 * q + r) % 400 == r;
    }
  }

  function YearOf(d: int): int { CivilOf(d).year }
  function MonthOf(d: int): int { CivilOf(d).month }
  function DayOfMonth(d: int): int { CivilOf(d).day }

  /** Months counted from year 0: consecutive months have consecutive indices. */
  function MonthIndex(d: int): int
  {
    12 * YearOf(d) + MonthOf(d) - 1
  }

  /** The number of days in the month that contains `d`. */
  function MonthLength(d: int): int
  {
    DaysInMonth(YearOf(d), MonthOf(d))
  }

  /** The first day of the month that contains `d`. */
  function MonthStart(d: int): int
  {
    d - DayOfMonth(d) + 1
  }

  lemma {:induction false} InOwnMonth(d: int)
    ensures MonthStart(d) <= d < MonthStart(d) + MonthLength(d)
  {
    var c := CivilOf(d);
    assert 1 <= c.day <= DaysInMonth(c.year, c.month);
  }

  /** The day number of a Gregorian date (inverse direction of `CivilOf`). */
  function DaysFromCivil(y: int, m: int, day: int): int
  {
    var y' := if m <= 2 then y - 1 else y;
    var era := y' / 400;
    var yoe := y' - era * 400;
    var mp := if m > 2 then m - 3 else m + 9;
    var doy := (153 * mp + 2) / 5 + day - 1;
    var doe := yoe * 365 + yoe / 4 - yoe / 100 + doy;
    era * 146097 + doe - 719468
  }

  /** The first day of the year that contains `d`, and the year's length. */
  function YearStart(d: int): int
  {
    DaysFromCivil(YearOf(d), 1, 1)
  }

  function YearLength(d: int): int
  {
    if IsLeapYear(YearOf(d)) then 366 else 365
  }
}
