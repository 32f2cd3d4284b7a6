/** The stored entities of the server: `RecurrenceRule` and `Event`
    (event_scheduler/events/models.py), their text renderings and their
    default ordering.

    A `DateTimeField` value is an instant in milliseconds and a `DateField`
    value a day number (see module Calendar).

    The rule datatype also holds `weekdays`, `weekday` and `ordinal`. The
    schema migrations add all three as database columns, but the model class
    in models.py declares none of them, so a rule instance has no such
    attributes: the server's expansion raises when it reads them
    (module Views). The members are here for the client, which receives them
    as optional members of the rule, and for the intended server expansion.
 */
module Models {
  import opened Wrappers
  import opened Text
  import opened Calendar

  /** FREQUENCY_CHOICES: the values the `frequency` column may hold. */
  datatype Frequency = DAILY | WEEKLY | MONTHLY | YEARLY

  /** The stored code of a frequency (the first element of each choice). */
  function FrequencyCode(f: Frequency): (s: string)
    ensures |s| >= 5 && ' ' !in s
  {
    match f
    case DAILY => "DAILY"
    case WEEKLY => "WEEKLY"
    case MONTHLY => "MONTHLY"
    case YEARLY => "YEARLY"
  }

  /** The stored code back to a choice; any other text is not a choice. */
  function FrequencyOfCode(s: string): (r: Option<Frequency>)
    ensures r.Some? ==> FrequencyCode(r.value) == s
  {
    if s == "DAILY" then Some(DAILY)
    else if s == "WEEKLY" then Some(WEEKLY)
    else if s == "MONTHLY" then Some(MONTHLY)
    else if s == "YEARLY" then Some(YEARLY)
    else None
  }

  lemma FrequencyCodeRoundTrip(f: Frequency)
    ensures FrequencyOfCode(FrequencyCode(f)) == Some(f)
  {
  }

  /** A recurrence rule. `interval` is a `PositiveIntegerField` (zero is
      allowed by the column) and `endDate` is nullable. `weekdays` holds
      weekday codes such as "MON"; `weekday` ("MON" .. "SUN") and `ordinal`
      (1 .. 5 in the choices, any non-negative value in the column) describe
      a MONTHLY "n-th weekday" rule. These three are columns of the table
      only: the model class does not declare them. */
  datatype RecurrenceRule = RecurrenceRule(
    frequency: Frequency,
    interval: nat,
    endDate: Option<int>,
    weekdays: seq<string>,
    weekday: Option<string>,
    ordinal: Option<nat>)

  /** A rule created with only its frequency given: every column default. */
  function DefaultRule(f: Frequency): (r: RecurrenceRule)
    ensures r.frequency == f && r.interval == 1 && r.endDate.None?
    ensures r.weekdays == [] && r.weekday.None? && r.ordinal.None?
  {
    RecurrenceRule(f, 1, None, [], None, None)
  }

  /** An event. `id` is `None` for an instance that was never saved (the
      expanded occurrences of a recurring event). */
  datatype Event = Event(
    id: Option<nat>,
    user: nat,
    title: string,
    description: Option<string>,
    location: Option<string>,
    startTime: int,
    endTime: int,
    isRecurring: bool,
    recurrenceRule: Option<RecurrenceRule>,
    createdAt: int,
    updatedAt: int)

  /** The dates Python's `date` type can hold: years 1 to 9999. */
  predicate ValidDate(d: int)
  {
    1 <= YearOf(d) <= 9999
  }

  /** `str(date)`: YYYY-MM-DD. */
  function DateText(d: int): (s: string)
    requires ValidDate(d)
    ensures |s| >= 10 && IsDigit(s[|s| - 1]) && '(' !in s && ' ' !in s
  {
    var c := CivilOf(d);
    var y, m, dd := Padded(c.year, 4), Padded(c.month, 2), Padded(c.day, 2);
    NoCharInDigits(y, '(');
    NoCharInDigits(m, '(');
    NoCharInDigits(dd, '(');
    NoCharInDigits(y, ' ');
    NoCharInDigits(m, ' ');
    NoCharInDigits(dd, ' ');
    y + "-" + m + "-" + dd
  }

  /** `str(datetime)` of an instant read in UTC:
      YYYY-MM-DD HH:MM:SS, then .ffffff when the microseconds are not zero,
      then the offset +00:00. */
  function DateTimeText(t: int): (s: string)
    requires ValidDate(DateOf(t))
    ensures '(' !in s
  {
    var tod := TimeOfDay(t);
    var h, mi, se, ms := tod / 3600000, tod / 60000 % 60, tod / 1000 % 60, tod % 1000;
    var hh, mm, ss := Padded(h, 2), Padded(mi, 2), Padded(se, 2);
    var frac := if ms == 0 then "" else "." + Padded(ms * 1000, 6);
    NoCharInDigits(hh, '(');
    NoCharInDigits(mm, '(');
    NoCharInDigits(ss, '(');
    assert '(' !in frac by {
      if ms != 0 {
        NoCharInDigits(Padded(ms * 1000, 6), '(');
      }
    }
    DateText(DateOf(t)) + " " + hh + ":" + mm + ":" + ss + frac + "+00:00"
  }

  /** `RecurrenceRule.__str__`. */
  function RuleText(r: RecurrenceRule): (s: string)
    requires r.endDate.Some? ==> ValidDate(r.endDate.value)
  {
    FrequencyCode(r.frequency) + " every " + NatText(r.interval) + " period(s), ends " + EndsText(r)
  }

  /** The tail of a rule's rendering: an end date, or "never". */
  function EndsText(r: RecurrenceRule): (s: string)
    requires r.endDate.Some? ==> ValidDate(r.endDate.value)
    ensures |s| >= 5 && (r.endDate.None? <==> !IsDigit(s[|s| - 1]))
  {
    if r.endDate.Some? then DateText(r.endDate.value) else "never"
  }

  lemma RuleTextShape(r: RecurrenceRule)
    requires r.endDate.Some? ==> ValidDate(r.endDate.value)
    ensures var code, n, rest := FrequencyCode(r.frequency), NatText(r.interval), "period(s), ends " + EndsText(r);
      && RuleText(r) == code + [' '] + ("every " + n + [' '] + rest)
      && RuleText(r)[|code| + 7..] == n + [' '] + rest
  {
    TextShape(FrequencyCode(r.frequency), NatText(r.interval), EndsText(r));
  }

  lemma TextShape(code: string, n: string, ends: string)
    ensures var s, rest := code + " every " + n + " period(s), ends " + ends, "period(s), ends " + ends;
      && s == code + [' '] + ("every " + n + [' '] + rest)
      && s[|code| + 7..] == n + [' '] + rest
  {
    var s, rest := code + " every " + n + " period(s), ends " + ends, "period(s), ends " + ends;
    assert s == code + " every " + n + " " + rest;
    assert s == code + [' '] + ("every " + n + [' '] + rest);
  }

  /** The rendering of a rule gives back its frequency (the first word), its
      interval (the number after "every") and whether it has an end date
      (the text then ends in a digit rather than in "never"). */
  lemma RuleTextParses(r: RecurrenceRule)
    requires r.endDate.Some? ==> ValidDate(r.endDate.value)
    ensures var s := RuleText(r);
      var code := SplitHead(s, ' ');
      && FrequencyOfCode(code) == Some(r.frequency)
      && |code| + 7 <= |s|
      && ParseInt(SplitHead(s[|code| + 7..], ' ')) == Some(r.interval)
      && (r.endDate.None? <==> !IsDigit(s[|s| - 1]))
  {
    var n := NatText(r.interval);
    NoCharInDigits(n, ' ');
    ParseIntOfNatText(r.interval);
    FrequencyCodeRoundTrip(r.frequency);
    var code, ends := FrequencyCode(r.frequency), EndsText(r);
    TextSplits(code, n, ends);
    assert RuleText(r) == code + " every " + n + " period(s), ends " + ends;
  }

  /** Splitting a rendering at its spaces gives back the code and the number
      when neither contains a space; its last character is the tail's. */
  lemma TextSplits(code: string, n: string, ends: string)
    requires ' ' !in code && ' ' !in n && ends != []
    ensures var s := code + " every " + n + " period(s), ends " + ends;
      && SplitHead(s, ' ') == code && |code| + 7 <= |s|
      && SplitHead(s[|code| + 7..], ' ') == n
      && s[|s| - 1] == ends[|ends| - 1]
  {
    var rest := "period(s), ends " + ends;
    TextShape(code, n, ends);
    SplitHeadOfPrefix(code, ' ', "every " + n + [' '] + rest);
    SplitHeadOfPrefix(n, ' ', rest);
  }

  /** Hence two rules that render alike agree on frequency, interval and on
      having an end date. */
  lemma RuleTextDistinguishes(r1: RecurrenceRule, r2: RecurrenceRule)
    requires r1.endDate.Some? ==> ValidDate(r1.endDate.value)
    requires r2.endDate.Some? ==> ValidDate(r2.endDate.value)
    requires RuleText(r1) == RuleText(r2)
    ensures r1.frequency == r2.frequency && r1.interval == r2.interval
    ensures r1.endDate.None? <==> r2.endDate.None?
  {
    RuleTextParses(r1);
    RuleTextParses(r2);
  }

  /** `Event.__str__`: the title, then the start time in parentheses. */
  function EventText(e: Event): (s: string)
    requires ValidDate(DateOf(e.startTime))
  {
    e.title + " (" + DateTimeText(e.startTime) + ")"
  }

  /** The title read back from a rendering: everything before the space
      that precedes the last '('. */
  function TitleOfText(s: string): (title: string)
    ensures title <= s
  {
    match LastIndexOf(s, '(')
    case Some(i) => if i >= 1 then s[..i - 1] else []
    case None => s
  }

  /** The start time's text has no parenthesis, so the title, whatever it
      contains, is recovered from the rendering. */
  lemma EventTextTitle(e: Event)
    requires ValidDate(DateOf(e.startTime))
    ensures TitleOfText(EventText(e)) == e.title
  {
    TitleRecovered(e.title, DateTimeText(e.startTime));
  }

  lemma TitleRecovered(title: string, time: string)
    requires '(' !in time
    ensures TitleOfText(title + " (" + time + ")") == title
  {
    var tail := time + ")";
    assert title + " (" + time + ")" == (title + " ") + ['('] + tail;
    LastIndexOfSplit(title + " ", '(', tail);
  }

  /** `Meta.ordering = ["start_time"]`. */
  predicate SortedByStart(es: seq<Event>)
  {
    forall i, j :: 0 <= i < j < |es| ==> es[i].startTime <= es[j].startTime
  }

  /** Places `e` before the first event that starts later. */
  function InsertByStart(e: Event, es: seq<Event>): (r: seq<Event>)
    ensures |r| == |es| + 1 && multiset(r) == multiset(es) + multiset{e}
    ensures forall k :: 0 <= k < |r| ==> r[k] == e || r[k] in es
  {
    if es == [] || e.startTime <= es[0].startTime then [e] + es
    else
      assert es == [es[0]] + es[1..];
      [es[0]] + InsertByStart(e, es[1..])
  }

  lemma {:induction false} InsertByStartSorted(e: Event, es: seq<Event>)
    requires SortedByStart(es)
    ensures SortedByStart(InsertByStart(e, es))
  {
    if es == [] || e.startTime <= es[0].startTime {
      ConsSorted(e, es);
    } else {
      var tail := es[1..];
      assert SortedByStart(tail) by {
        forall i, j | 0 <= i < j < |tail| ensures tail[i].startTime <= tail[j].startTime {
          assert tail[i] == es[i + 1] && tail[j] == es[j + 1];
        }
      }
      forall k | 0 <= k < |tail| ensures es[0].startTime <= tail[k].startTime {
        assert tail[k] == es[k + 1];
      }
      InsertByStartSorted(e, tail);
      InsertAbove(e, tail, es[0].startTime);
      ConsSorted(es[0], InsertByStart(e, tail));
    }
  }

  /** An event that starts no later than the first of a sorted list can be
      put in front of it. */
  lemma ConsSorted(x: Event, xs: seq<Event>)
    requires SortedByStart(xs)
    requires xs != [] ==> x.startTime <= xs[0].startTime
    ensures SortedByStart([x] + xs)
  {
    var r := [x] + xs;
    forall i, j | 0 <= i < j < |r|
      ensures r[i].startTime <= r[j].startTime
    {
      assert r[j] == xs[j - 1];
      if i > 0 {
        assert r[i] == xs[i - 1];
      } else if j > 1 {
        assert xs[0].startTime <= xs[j - 1].startTime;
      }
    }
  }

  /** Inserting into events that all start at or after `lo` an event that
      starts after `lo` keeps every start at or after `lo`. */
  lemma InsertAbove(e: Event, es: seq<Event>, lo: int)
    requires lo <= e.startTime && forall i :: 0 <= i < |es| ==> lo <= es[i].startTime
    ensures forall k :: 0 <= k < |InsertByStart(e, es)| ==> lo <= InsertByStart(e, es)[k].startTime
  {
    var r := InsertByStart(e, es);
    forall k | 0 <= k < |r|
      ensures lo <= r[k].startTime
    {
      if r[k] != e {
        var m :| 0 <= m < |es| && es[m] == r[k];
      }
    }
  }

  /** The events ordered by start time (`order_by('start_time')`, and
      Python's `list.sort(key=start_time)`): sorted, and a permutation. */
  function SortByStart(es: seq<Event>): (r: seq<Event>)
    ensures SortedByStart(r) && multiset(r) == multiset(es)
  {
    if es == [] then []
    else
      assert es == [es[0]] + es[1..];
      InsertByStartSorted(es[0], SortByStart(es[1..]));
      InsertByStart(es[0], SortByStart(es[1..]))
  }
}
