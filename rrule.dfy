/** The recurrence semantics that both wrappers hand to an rrule library
    (rrule.js on the client, dateutil on the server): the subset of the RECUR
    value type of section 3.3.10 of RFC 5545 used here, that is FREQ = DAILY,
    WEEKLY, MONTHLY or YEARLY with INTERVAL, UNTIL, BYDAY (plain or with an
    ordinal such as 3TU) and BYSETPOS.

    It is written as the libraries behave, not as the RFC phrases it: DTSTART is
    produced only when it matches the rule; with no BYxxx part, WEEKLY takes
    DTSTART's weekday, MONTHLY DTSTART's day of the month (a month without that
    day is skipped) and YEARLY DTSTART's month and day; weeks start on Monday;
    every occurrence has DTSTART's time of day. An empty BYDAY list is dropped by
    both libraries without filling in the default, so it selects every day of a
    selected period.

    The occurrence stream is the list of matching days between DTSTART's date and
    UNTIL's date, scanned in order, kept when DTSTART <= occurrence <= UNTIL.
 */
module RRule {
  import opened Calendar

  datatype Freq = Yearly | Monthly | Weekly | Daily

  /** The day-selecting part of a rule, in the forms the two wrappers build. */
  datatype DayRule =
    | NoDayRule                            // no BYDAY: defaults from DTSTART
    | ByWeekdays(days: seq<Weekday>)       // BYDAY=MO,WE,...
    | ByNthWeekday(w: Weekday, n: int)     // BYDAY=3TU (rrule.js `Weekday.nth`)
    | ByWeekdaySetPos(w: Weekday, pos: int) // BYDAY=TU;BYSETPOS=3 (dateutil)

  datatype Options = Options(freq: Freq, dtstart: int, interval: int, until: int, dayRule: DayRule)

  /** Periods of the frequency: days, Monday weeks, months or years. */
  function PeriodIndex(f: Freq, d: int): int
  {
    match f
    case Daily => d
    case Weekly => WeekNumber(d)
    case Monthly => MonthIndex(d)
    case Yearly => YearOf(d)
  }

  /** First day and length of the period that contains `d`. */
  function PeriodStart(f: Freq, d: int): int
  {
    match f
    case Daily => d
    case Weekly => d - WeekdayIndex(WeekdayOf(d))
    case Monthly => MonthStart(d)
    case Yearly => YearStart(d)
  }

  function PeriodLength(f: Freq, d: int): int
  {
    match f
    case Daily => 1
    case Weekly => 7
    case Monthly => MonthLength(d)
    case Yearly => YearLength(d)
  }

  /** The period of `d` is DTSTART's period plus a multiple of INTERVAL. */
  predicate InSelectedPeriod(o: Options, d: int)
    requires o.interval >= 1
  {
    (PeriodIndex(o.freq, d) - PeriodIndex(o.freq, DateOf(o.dtstart))) % o.interval == 0
  }

  /** rrule.js `nth`: for n > 0 the n-th such weekday counted from the start of
      the month (or year), for n < 0 counted back from its end; with any other
      frequency, or n = 0, the ordinal is ignored. */
  predicate NthOfPeriod(f: Freq, d: int, n: int)
  {
    var ps := PeriodStart(f, d);
    var len := PeriodLength(f, d);
    if (f != Monthly && f != Yearly) || n == 0 then true
    else if n > 0 then (d - ps) / 7 == n - 1
    else (ps + len - 1 - d) / 7 == -n - 1
  }

  /** The days of [lo, hi) that fall on weekday `w`, in order. */
  function SameWeekdayDays(lo: int, hi: int, w: Weekday): seq<int>
    decreases hi - lo
  {
    if lo >= hi then []
    else (if WeekdayOf(lo) == w then [lo] else []) + SameWeekdayDays(lo + 1, hi, w)
  }

  /** dateutil's BYSETPOS over one period: `d` is the `pos`-th (from the end
      when negative, as a Python index) of the period's days on weekday `w`. */
  predicate SetPosSelects(ps: int, len: int, w: Weekday, pos: int, d: int)
  {
    var s := SameWeekdayDays(ps, ps + len, w);
    if pos > 0 then pos <= |s| && s[pos - 1] == d
    else if pos < 0 then -pos <= |s| && s[|s| + pos] == d
    else false
  }

  predicate DaySelected(o: Options, d: int)
  {
    var d0 := DateOf(o.dtstart);
    match o.dayRule
    case NoDayRule =>
      (match o.freq
       case Daily => true
       case Weekly => WeekdayOf(d) == WeekdayOf(d0)
       case Monthly => DayOfMonth(d) == DayOfMonth(d0)
       case Yearly => MonthOf(d) == MonthOf(d0) && DayOfMonth(d) == DayOfMonth(d0))
    case ByWeekdays(ws) => |ws| == 0 || WeekdayOf(d) in ws
    case ByNthWeekday(w, n) => WeekdayOf(d) == w && NthOfPeriod(o.freq, d, n)
    case ByWeekdaySetPos(w, pos) =>
      SetPosSelects(PeriodStart(o.freq, d), PeriodLength(o.freq, d), w, pos, d)
  }

  predicate Matches(o: Options, d: int)
    requires o.interval >= 1
  {
    InSelectedPeriod(o, d) && DaySelected(o, d)
  }

  /** The candidate instant on date `d`: DTSTART's time of day. */
  function Candidate(o: Options, d: int): int
  {
    At(d, TimeOfDay(o.dtstart))
  }

  predicate Kept(o: Options, d: int)
    requires o.interval >= 1
  {
    Matches(o, d) && o.dtstart <= Candidate(o, d) <= o.until
  }

  /** The kept days of the rule, as a function value. */
  function KeptOn(o: Options): int -> bool
    requires o.interval >= 1
  {
    d => Kept(o, d)
  }

  /** The instants at time of day `tod` on the days from `d` to `last` that
      `kept` selects, in date order. */
  function DayScan(kept: int -> bool, tod: int, d: int, last: int): seq<int>
    decreases last - d
  {
    if d > last then []
    else (if kept(d) then [At(d, tod)] else []) + DayScan(kept, tod, d + 1, last)
  }

  /** All occurrences of the rule, in increasing order. */
  function Occurrences(o: Options): seq<int>
    requires o.interval >= 1
  {
    DayScan(KeptOn(o), TimeOfDay(o.dtstart), DateOf(o.dtstart), DateOf(o.until))
  }

  /** `between(after, before, true)`: the occurrences in [after, before]. */
  function Between(xs: seq<int>, after: int, before: int): (r: seq<int>)
    ensures forall t :: t in r <==> t in xs && after <= t <= before
    ensures |r| <= |xs|
  {
    if xs == [] then []
    else (if after <= xs[0] <= before then [xs[0]] else []) + Between(xs[1..], after, before)
  }

  predicate StrictlyIncreasing(xs: seq<int>)
  {
    forall i, j :: 0 <= i < j < |xs| ==> xs[i] < xs[j]
  }

  lemma {:induction false} ScanSound(kept: int -> bool, tod: int, d: int, last: int)
    requires 0 <= tod < MsPerDay
    ensures forall t :: t in DayScan(kept, tod, d, last) ==>
      && d <= DateOf(t) <= last && kept(DateOf(t)) && t == At(DateOf(t), tod)
    decreases last - d
  {
    if d <= last {
      DateAndTimeOfAt(d, tod);
      ScanSound(kept, tod, d + 1, last);
    }
  }

  lemma {:induction false} ScanComplete(kept: int -> bool, tod: int, d: int, last: int, e: int)
    requires d <= e <= last && kept(e)
    ensures At(e, tod) in DayScan(kept, tod, d, last)
    decreases last - d
  {
    if d < e {
      ScanComplete(kept, tod, d + 1, last, e);
    }
  }

  /** Every instant the scan from `d` produces is at or after `At(d, tod)`. */
  lemma {:induction false} ScanAbove(kept: int -> bool, tod: int, d: int, last: int)
    ensures forall k :: 0 <= k < |DayScan(kept, tod, d, last)| ==> At(d, tod) <= DayScan(kept, tod, d, last)[k]
    decreases last - d
  {
    if d <= last {
      ScanAbove(kept, tod, d + 1, last);
      var rest := DayScan(kept, tod, d + 1, last);
      assert DayScan(kept, tod, d, last) == (if kept(d) then [At(d, tod)] else []) + rest;
    }
  }

  lemma {:induction false} ScanIncreasing(kept: int -> bool, tod: int, d: int, last: int)
    ensures StrictlyIncreasing(DayScan(kept, tod, d, last))
    decreases last - d
  {
    if d <= last {
      ScanAbove(kept, tod, d + 1, last);
      ScanIncreasing(kept, tod, d + 1, last);
      var rest := DayScan(kept, tod, d + 1, last);
      var xs := DayScan(kept, tod, d, last);
      if kept(d) {
        assert xs == [At(d, tod)] + rest;
        forall i, j | 0 <= i < j < |xs|
          ensures xs[i] < xs[j]
        {
          assert xs[j] == rest[j - 1];
          if i > 0 {
            assert xs[i] == rest[i - 1];
          }
        }
      } else {
        assert xs == rest;
      }
    }
  }

  lemma {:induction false} ScanAgrees(k1: int -> bool, k2: int -> bool, tod: int, d: int, last: int)
    requires forall e :: d <= e <= last ==> k1(e) == k2(e)
    ensures DayScan(k1, tod, d, last) == DayScan(k2, tod, d, last)
    decreases last - d
  {
    if d <= last {
      ScanAgrees(k1, k2, tod, d + 1, last);
    }
  }

  /** An instant is an occurrence exactly when it is DTSTART's time of day on a
      matching date and lies between DTSTART and UNTIL; the list is strictly
      increasing. */
  lemma OccurrencesCharacterized(o: Options, t: int)
    requires o.interval >= 1
    ensures t in Occurrences(o) <==>
      Matches(o, DateOf(t)) && TimeOfDay(t) == TimeOfDay(o.dtstart) && o.dtstart <= t <= o.until
    ensures StrictlyIncreasing(Occurrences(o))
  {
    var d0, last, tod := DateOf(o.dtstart), DateOf(o.until), TimeOfDay(o.dtstart);
    ScanSound(KeptOn(o), tod, d0, last);
    ScanIncreasing(KeptOn(o), tod, d0, last);
    if Matches(o, DateOf(t)) && TimeOfDay(t) == tod && o.dtstart <= t <= o.until {
      AtOfInstant(t);
      assert t == Candidate(o, DateOf(t));
      assert d0 <= DateOf(t) <= last;
      ScanComplete(KeptOn(o), tod, d0, last, DateOf(t));
    }
    if t in Occurrences(o) {
      DateAndTimeOfAt(DateOf(t), tod);
    }
  }

  /** The first day on or after `lo` that falls on weekday `w`. */
  function FirstOnOrAfter(lo: int, w: Weekday): int
  {
    lo + (WeekdayIndex(w) - (lo + 3) % 7 + 7) % 7
  }

  lemma {:induction false} FirstOnOrAfterFacts(lo: int, w: Weekday)
    ensures var f := FirstOnOrAfter(lo, w);
      lo <= f < lo + 7 && WeekdayOf(f) == w
    ensures WeekdayOf(lo) == w ==> FirstOnOrAfter(lo, w) == lo && FirstOnOrAfter(lo + 1, w) == lo + 7
    ensures WeekdayOf(lo) != w ==> FirstOnOrAfter(lo + 1, w) == FirstOnOrAfter(lo, w)
  {
    var a, b := (lo + 3) % 7, WeekdayIndex(w);
    var q := (lo + 3) / 7;
    SmallMod(b - a + 7);
    var f := FirstOnOrAfter(lo, w);
    if b >= a {
      ModOfMultiple(q, b);
      assert f + 3 == 7 * q + b;
    } else {
      ModOfMultiple(q + 1, b);
      assert f + 3 == 7 * (q + 1) + b;
    }
    WeekdayIndexInjective(WeekdayOf(f), w);
    WeekdayIndexInjective(WeekdayOf(lo), w);
    var a1 := if a == 6 then 0 else a + 1;
    if a == 6 {
      ModOfMultiple(q + 1, 0);
      assert lo + 4 == 7 * (q + 1);
    } else {
      ModOfMultiple(q, a1);
      assert lo + 4 == 7 * q + a1;
    }
    SmallMod(b - a1 + 7);
  }

  lemma SmallMod(x: int)
    requires 0 <= x < 14
    ensures x % 7 == if x >= 7 then x - 7 else x
  {
  }

  lemma ModOfMultiple(q: int, r: int)
    requires 0 <= r < 7
    ensures (7 * q + r) % 7 == r
  {
  }

  lemma WeekdayIndexInjective(v: Weekday, w: Weekday)
    ensures WeekdayIndex(v) == WeekdayIndex(w) <==> v == w
  {
  }

  lemma {:induction false} SameWeekdayDaysShape(lo: int, hi: int, w: Weekday)
    ensures var s := SameWeekdayDays(lo, hi, w);
      var f := FirstOnOrAfter(lo, w);
      && |s| == (if f >= hi then 0 else (hi - 1 - f) / 7 + 1)
      && forall k :: 0 <= k < |s| ==> s[k] == f + 7 * k
    decreases hi - lo
  {
    FirstOnOrAfterFacts(lo, w);
    if lo < hi {
      SameWeekdayDaysShape(lo + 1, hi, w);
      var s := SameWeekdayDays(lo, hi, w);
      var rest := SameWeekdayDays(lo + 1, hi, w);
      if WeekdayOf(lo) == w {
        assert s == [lo] + rest;
        forall k | 0 <= k < |s| ensures s[k] == lo + 7 * k {
          if k > 0 { assert s[k] == rest[k - 1]; }
        }
      } else {
        assert s == rest;
      }
    }
  }

  /** dateutil's BYSETPOS over the days of one weekday in a period picks the
      same day as rrule.js's ordinal weekday counted in that period. */
  lemma {:induction false} SetPosIsNth(ps: int, len: int, w: Weekday, pos: int, d: int)
    requires ps <= d < ps + len
    requires pos != 0
    ensures SetPosSelects(ps, len, w, pos, d) <==>
      && WeekdayOf(d) == w
      && (pos > 0 ==> (d - ps) / 7 == pos - 1)
      && (pos < 0 ==> (ps + len - 1 - d) / 7 == -pos - 1)
  {
    var s := SameWeekdayDays(ps, ps + len, w);
    if SetPosSelects(ps, len, w, pos, d) {
      var k := if pos > 0 then pos - 1 else |s| + pos;
      assert s[k] == d;
      WeekdayOfMember(ps, ps + len, w, k);
    }
    if WeekdayOf(d) == w {
      WeekdayDayIndex(ps, len, w, d);
    }
  }

  lemma {:induction false} WeekdayOfMember(lo: int, hi: int, w: Weekday, k: int)
    requires 0 <= k < |SameWeekdayDays(lo, hi, w)|
    ensures WeekdayOf(SameWeekdayDays(lo, hi, w)[k]) == w
  {
    var f := FirstOnOrAfter(lo, w);
    SameWeekdayDaysShape(lo, hi, w);
    FirstOnOrAfterFacts(lo, w);
    WeekdayPeriodic(f, f + 7 * k);
  }

  /** A day on weekday `w` inside the period is the element of index
      `(d - ps) / 7` of the period's days on `w`, and the element of index
      `(ps + len - 1 - d) / 7` counted from the end. */
  lemma {:induction false} WeekdayDayIndex(ps: int, len: int, w: Weekday, d: int)
    requires ps <= d < ps + len && WeekdayOf(d) == w
    ensures var s := SameWeekdayDays(ps, ps + len, w);
      var m := (d - ps) / 7;
      && m < |s| && s[m] == d && (ps + len - 1 - d) / 7 == |s| - 1 - m
      && forall k :: 0 <= k < |s| && s[k] == d ==> k == m
  {
    var hi := ps + len;
    var s := SameWeekdayDays(ps, hi, w);
    var f := FirstOnOrAfter(ps, w);
    SameWeekdayDaysShape(ps, hi, w);
    FirstOnOrAfterFacts(ps, w);
    WeekdayPeriodic(f, d);
    assert d >= f;
    var m := (d - f) / 7;
    assert d == f + 7 * m;
    assert (d - ps) / 7 == m;
    assert m < |s|;
    var last := f + 7 * (|s| - 1);
    assert hi - 7 <= last < hi;
    assert (hi - 1 - d) / 7 == |s| - 1 - m;
  }

  /** For MONTHLY, the server's BYDAY=w;BYSETPOS=n and the client's BYDAY=nw
      select the same days. */
  lemma {:induction false} MonthlySetPosIsNthWeekday(o: Options, w: Weekday, n: int, d: int)
    requires o.freq == Monthly && n != 0
    ensures DaySelected(o.(dayRule := ByWeekdaySetPos(w, n)), d)
        == DaySelected(o.(dayRule := ByNthWeekday(w, n)), d)
  {
    InOwnMonth(d);
    SetPosIsNth(MonthStart(d), MonthLength(d), w, n, d);
  }

  /** Two rules that differ at most in their day rule keep the same days
      when they select the same days. */
  lemma KeptAgrees(o1: Options, o2: Options, e: int)
    requires o1.interval >= 1 && o1 == o2.(dayRule := o1.dayRule)
    requires DaySelected(o1, e) == DaySelected(o2, e)
    ensures KeptOn(o1)(e) == KeptOn(o2)(e)
  {
    assert o1.freq == o2.freq && o1.dtstart == o2.dtstart && o1.interval == o2.interval && o1.until == o2.until;
    assert InSelectedPeriod(o1, e) == InSelectedPeriod(o2, e);
    assert Candidate(o1, e) == Candidate(o2, e);
  }

  /** Hence the two MONTHLY forms have the same occurrences. */
  lemma MonthlySetPosSameOccurrences(o: Options, w: Weekday, n: int)
    requires o.freq == Monthly && n != 0 && o.interval >= 1
    ensures Occurrences(o.(dayRule := ByWeekdaySetPos(w, n)))
        == Occurrences(o.(dayRule := ByNthWeekday(w, n)))
  {
    var o1, o2 := o.(dayRule := ByWeekdaySetPos(w, n)), o.(dayRule := ByNthWeekday(w, n));
    forall e | DateOf(o.dtstart) <= e <= DateOf(o.until)
      ensures KeptOn(o1)(e) == KeptOn(o2)(e)
    {
      MonthlySetPosIsNthWeekday(o, w, n, e);
      KeptAgrees(o1, o2, e);
    }
    ScanAgrees(KeptOn(o1), KeptOn(o2), TimeOfDay(o.dtstart), DateOf(o.dtstart), DateOf(o.until));
  }

  lemma DailyMatches(o: Options, d: int)
    requires o.freq == Daily && o.dayRule == NoDayRule && o.interval >= 1
    ensures Matches(o, d) <==> (d - DateOf(o.dtstart)) % o.interval == 0
  {
  }

  /** Distance arithmetic: a date `m` days after DTSTART's date, at DTSTART's
      time, is `m` whole days after DTSTART. */
  lemma DaysAfter(t0: int, t: int, m: int)
    requires TimeOfDay(t) == TimeOfDay(t0) && DateOf(t) == DateOf(t0) + m
    ensures t == t0 + m * MsPerDay
  {
    AtOfInstant(t);
    AtOfInstant(t0);
  }

  lemma MultipleOf(m: int, iv: int) returns (k: int)
    requires iv >= 1 && m % iv == 0
    ensures m == k * iv && (m >= 0 ==> k >= 0)
  {
    k := m / iv;
  }

  lemma DailyOccurrenceIsStep(o: Options, t: int) returns (k: nat)
    requires o.freq == Daily && o.dayRule == NoDayRule && o.interval >= 1
    requires t in Occurrences(o)
    ensures t <= o.until && t == o.dtstart + k * o.interval * MsPerDay
  {
    OccurrencesCharacterized(o, t);
    var d := DateOf(t);
    assert Matches(o, d) && TimeOfDay(t) == TimeOfDay(o.dtstart) && o.dtstart <= t <= o.until;
    DailyMatches(o, d);
    assert d >= DateOf(o.dtstart);
    var j := MultipleOf(d - DateOf(o.dtstart), o.interval);
    k := j;
    DaysAfter(o.dtstart, t, k * o.interval);
  }

  lemma MultipleMod(k: int, iv: int)
    requires iv >= 1
    ensures (k * iv) % iv == 0
  {
    var m := k * iv;
    var q, r := m / iv, m % iv;
    assert m == q * iv + r && 0 <= r < iv;
    var e := k - q;
    assert e * iv == m - q * iv;
    assert e * iv == r;
  }

  lemma DailyStepIsOccurrence(o: Options, k: nat)
    requires o.freq == Daily && o.dayRule == NoDayRule && o.interval >= 1
    requires o.dtstart + k * o.interval * MsPerDay <= o.until
    ensures o.dtstart + k * o.interval * MsPerDay in Occurrences(o)
  {
    var m := k * o.interval;
    var t := o.dtstart + m * MsPerDay;
    var d0, tod := DateOf(o.dtstart), TimeOfDay(o.dtstart);
    AtOfInstant(o.dtstart);
    assert t == At(d0 + m, tod);
    DateAndTimeOfAt(d0 + m, tod);
    MultipleMod(k, o.interval);
    DailyMatches(o, d0 + m);
    OccurrencesCharacterized(o, t);
  }

  /** DAILY with no BYDAY: the occurrences are DTSTART and every INTERVAL-th
      day after it, at DTSTART's time, up to UNTIL. */
  lemma DailyOccurrences(o: Options, t: int)
    requires o.freq == Daily && o.dayRule == NoDayRule && o.interval >= 1
    ensures t in Occurrences(o) <==>
      t <= o.until && exists k: nat {:trigger k * o.interval} :: t == o.dtstart + k * o.interval * MsPerDay
  {
    if t in Occurrences(o) {
      var k := DailyOccurrenceIsStep(o, t);
    }
    if t <= o.until && exists k: nat {:trigger k * o.interval} :: t == o.dtstart + k * o.interval * MsPerDay {
      var k: nat :| t == o.dtstart + k * o.interval * MsPerDay;
      DailyStepIsOccurrence(o, k);
    }
  }
}
