/** The month calendar (event_frontend/src/components/CalendarView.tsx):
    `expandRecurringEvents`, which turns the fetched events into calendar
    entries with rrule.js, `handleSelectEvent`, which maps a clicked entry
    back to its event and opens the dialog, and the "closed" test of
    `eventPropGetter`.

    The clock (`new Date()`) is the parameter `now`; the shown month is the
    day number `shown`. Instants are read in UTC.
 */
module CalendarView {
  import opened Wrappers
  import opened Text
  import opened Calendar
  import opened RRule
  import opened Modal
  import opened UseEvents
  import Dashboard

  /** `moment(date).startOf("month")`: the first millisecond of the month. */
  function MonthFirstInstant(shown: int): (t: int)
    ensures DateOf(t) == MonthStart(shown) && TimeOfDay(t) == 0
    ensures t <= DayStart(shown)
  {
    InOwnMonth(shown);
    DateAndTimeOfAt(MonthStart(shown), 0);
    DayStart(MonthStart(shown))
  }

  /** `moment(date).endOf("month")`: the last millisecond of the month. */
  function MonthLastInstant(shown: int): (t: int)
    ensures DateOf(t) == MonthStart(shown) + MonthLength(shown) - 1
    ensures TimeOfDay(t) == MsPerDay - 1
    ensures DayStart(shown) + MsPerDay - 1 <= t
  {
    var last := MonthStart(shown) + MonthLength(shown) - 1;
    InOwnMonth(shown);
    DateAndTimeOfAt(last, MsPerDay - 1);
    At(last, MsPerDay - 1)
  }

  /** What `expandRecurringEvents` can throw: `weekdayMap[code]` is undefined
      for a code that is not one of the seven, and reading `.nth` of it is a
      TypeError. */
  datatype ExpandError = NthOfUndefined(code: string)

  /** JavaScript truthiness of the optional text and number members. */
  predicate TextTruthy(s: Option<string>)
  {
    s.Some? && s.value != ""
  }

  predicate NumberTruthy(n: Option<int>)
  {
    n.Some? && n.value != 0
  }

  /** `until`: the rule's end date (its UTC midnight, as `new Date` reads a
      date-only text) when that lies after `now`, else the end of the shown
      month. */
  function ClientUntil(r: ClientRule, now: int, monthEnd: int): (u: int)
    ensures u == monthEnd || (r.endDate.Some? && u == DayStart(r.endDate.value) && u > now)
    ensures r.endDate.Some? && DayStart(r.endDate.value) > now ==> u == DayStart(r.endDate.value)
    ensures r.endDate.None? || DayStart(r.endDate.value) <= now ==> u == monthEnd
  {
    if r.endDate.Some? && DayStart(r.endDate.value) > now then DayStart(r.endDate.value) else monthEnd
  }

  /** `interval || 1`. */
  function ClientInterval(r: ClientRule): (iv: int)
    ensures iv >= 1
    ensures r.interval >= 1 ==> iv == r.interval
    ensures r.interval == 0 ==> iv == 1
  {
    if r.interval == 0 then 1 else r.interval
  }

  /** The frequency the switch sets; any other text (YEARLY among them) has
      no `case` and leaves `freq` unset. */
  function ClientFreq(code: string): (f: Option<Freq>)
    ensures f.Some? <==> code in {"DAILY", "WEEKLY", "MONTHLY"}
    ensures f == Some(Daily) <==> code == "DAILY"
    ensures f == Some(Weekly) <==> code == "WEEKLY"
    ensures f == Some(Monthly) <==> code == "MONTHLY"
  {
    if code == "DAILY" then Some(Daily)
    else if code == "WEEKLY" then Some(Weekly)
    else if code == "MONTHLY" then Some(Monthly)
    else None
  }

  /** `.map(decode).filter(d => d !== null)`: each code `decode` knows
      becomes its weekday, in order, and the other codes are dropped. */
  function KnownWeekdays(codes: seq<string>, decode: string -> Option<Weekday>): (ws: seq<Weekday>)
    ensures |ws| <= |codes|
    ensures forall w :: w in ws <==> exists i :: 0 <= i < |codes| && decode(codes[i]) == Some(w)
    ensures (forall i :: 0 <= i < |codes| ==> decode(codes[i]).Some?) ==>
      |ws| == |codes| && forall i :: 0 <= i < |codes| ==> decode(codes[i]) == Some(ws[i])
  {
    if codes == [] then []
    else
      var init, last := codes[..|codes| - 1], codes[|codes| - 1];
      assert codes == init + [last];
      var ws0 := KnownWeekdays(init, decode);
      match decode(last)
      case Some(w) => ws0 + [w]
      case None => ws0
  }

  /** Mapping and filtering a list in two parts does each part and keeps
      them in order, so the kept weekdays keep the order of their codes. */
  lemma {:induction false} KnownWeekdaysConcat(a: seq<string>, b: seq<string>, decode: string -> Option<Weekday>)
    ensures KnownWeekdays(a + b, decode) == KnownWeekdays(a, decode) + KnownWeekdays(b, decode)
    decreases |b|
  {
    if b == [] {
      assert a + b == a;
    } else {
      var init, last := b[..|b| - 1], b[|b| - 1];
      assert (a + b)[..|a + b| - 1] == a + init && (a + b)[|a + b| - 1] == last;
      KnownWeekdaysConcat(a, init, decode);
    }
  }

  /** The WEEKLY weekdays: the codes mapped through the client's weekday
      table, unknown codes dropped. */
  function ClientWeekdays(codes: seq<string>): (ws: seq<Weekday>)
    ensures |ws| <= |codes|
    ensures forall w :: w in ws <==> exists i :: 0 <= i < |codes| && WeekdayOfCode(codes[i]) == Some(w)
    ensures (forall i :: 0 <= i < |codes| ==> WeekdayOfCode(codes[i]).Some?) ==>
      |ws| == |codes| && forall i :: 0 <= i < |codes| ==> WeekdayOfCode(codes[i]) == Some(ws[i])
  {
    KnownWeekdays(codes, WeekdayOfCode)
  }

  /** The day part of the options: BYDAY from `weekdays` for WEEKLY when that
      member is present; the n-th weekday for MONTHLY when both `weekday` and
      `ordinal` are truthy; nothing otherwise. Only the MONTHLY lookup can
      throw, and it does exactly for an unknown code. */
  function ClientDayRule(r: ClientRule): (d: Result<DayRule, ExpandError>)
    ensures d.Err? <==> r.frequency == "MONTHLY" && TextTruthy(r.weekday) && NumberTruthy(r.ordinal)
                         && WeekdayOfCode(r.weekday.value).None?
    ensures d.Ok? && d.value.ByNthWeekday? ==>
      && r.frequency == "MONTHLY" && r.weekday.Some? && Some(d.value.n) == r.ordinal
      && Some(d.value.w) == WeekdayOfCode(r.weekday.value)
    ensures d.Ok? && d.value.ByWeekdays? ==> r.frequency == "WEEKLY" && r.weekdays.Some?
    ensures d.Ok? ==> !d.value.ByWeekdaySetPos?
    ensures r.frequency == "WEEKLY" && r.weekdays.Some? ==> d == Ok(ByWeekdays(ClientWeekdays(r.weekdays.value)))
    ensures r.frequency == "MONTHLY" && TextTruthy(r.weekday) && NumberTruthy(r.ordinal)
            && WeekdayOfCode(r.weekday.value).Some? ==>
      d == Ok(ByNthWeekday(WeekdayOfCode(r.weekday.value).value, r.ordinal.value))
    ensures !(r.frequency == "WEEKLY" && r.weekdays.Some?)
            && !(r.frequency == "MONTHLY" && TextTruthy(r.weekday) && NumberTruthy(r.ordinal)) ==>
      d == Ok(NoDayRule)
  {
    if r.frequency == "WEEKLY" then
      if r.weekdays.Some? then Ok(ByWeekdays(ClientWeekdays(r.weekdays.value))) else Ok(NoDayRule)
    else if r.frequency == "MONTHLY" && TextTruthy(r.weekday) && NumberTruthy(r.ordinal) then
      match WeekdayOfCode(r.weekday.value)
      case None => Err(NthOfUndefined(r.weekday.value))
      case Some(w) => Ok(ByNthWeekday(w, r.ordinal.value))
    else Ok(NoDayRule)
  }

  /** What the `RRule` is built from: full options when the switch set a
      frequency; otherwise only `dtstart`, `until` and `interval`, whose
      series the library chooses and this model leaves abstract. */
  datatype Series =
    | Library(o: Options)
    | FreqUnset(dtstart: int, until: int, interval: int)

  /** The `ruleOptions` built for event `e` with rule `r`. */
  function ClientSeries(e: Event, r: ClientRule, now: int, monthEnd: int): (s: Result<Series, ExpandError>)
    ensures s.Ok? <==> ClientDayRule(r).Ok?
    ensures s.Ok? ==> (s.value.Library? <==> ClientFreq(r.frequency).Some?)
    ensures s.Ok? && s.value.Library? ==>
      var o := s.value.o;
      && Some(o.freq) == ClientFreq(r.frequency) && o.dtstart == e.startTime && o.interval == ClientInterval(r)
      && o.until == ClientUntil(r, now, monthEnd) && Ok(o.dayRule) == ClientDayRule(r)
  {
    match ClientDayRule(r)
    case Err(x) => Err(x)
    case Ok(dr) =>
      var until, interval := ClientUntil(r, now, monthEnd), ClientInterval(r);
      match ClientFreq(r.frequency)
      case Some(f) => Ok(Library(Options(f, e.startTime, interval, until, dr)))
      case None => Ok(FreqUnset(e.startTime, until, interval))
  }

  /** The occurrences of a series; `unset` stands for the library's series
      when no frequency is given. */
  function SeriesOccurrences(s: Series, unset: (int, int, int) -> seq<int>): seq<int>
    requires s.Library? ==> s.o.interval >= 1
  {
    match s
    case Library(o) => Occurrences(o)
    case FreqUnset(dtstart, until, interval) => unset(dtstart, until, interval)
  }

  /** A calendar entry's id: the event's own id, or the text
      "<event id>-<occurrence instant>". */
  datatype EntryId = NumId(n: nat) | TextId(s: string)

  datatype Entry = Entry(id: EntryId, title: string, start: int, end: int, originalEvent: Event)

  /** The entry for one occurrence: it lasts as long as the event does. */
  function OccurrenceEntry(e: Event, t: int): Entry
  {
    Entry(TextId(NatText(e.id) + "-" + IntText(t)), e.title, t, t + (e.endTime - e.startTime), e)
  }

  /** The entry of an event that is not expanded: its own id and times. */
  function PlainEntry(e: Event): Entry
  {
    Entry(NumId(e.id), e.title, e.startTime, e.endTime, e)
  }

  /** The entries of a list of occurrences, one each, in order. */
  function OccurrenceEntries(e: Event, ts: seq<int>): (r: seq<Entry>)
    ensures |r| == |ts|
  {
    if ts == [] then [] else OccurrenceEntries(e, ts[..|ts| - 1]) + [OccurrenceEntry(e, ts[|ts| - 1])]
  }

  lemma {:induction false} OccurrenceEntriesAt(e: Event, ts: seq<int>)
    ensures forall i :: 0 <= i < |ts| ==> OccurrenceEntries(e, ts)[i] == OccurrenceEntry(e, ts[i])
  {
    if ts != [] {
      var n := |ts| - 1;
      var init := ts[..n];
      OccurrenceEntriesAt(e, init);
      var r, ri := OccurrenceEntries(e, ts), OccurrenceEntries(e, init);
      assert r == ri + [OccurrenceEntry(e, ts[n])];
      forall i | 0 <= i < |ts|
        ensures r[i] == OccurrenceEntry(e, ts[i])
      {
        if i < n {
          assert r[i] == ri[i] && init[i] == ts[i];
        } else {
          assert r[i] == OccurrenceEntry(e, ts[n]);
        }
      }
    }
  }

  /** The shown month's first and last instants, the clock, and the abstract
      series of a rule without frequency. */
  datatype View = View(lo: int, hi: int, now: int, unset: (int, int, int) -> seq<int>)

  /** The entries of one event: a recurring event with a rule gives one entry
      per occurrence inside the shown month; any other event gives its own
      entry, wherever it lies. */
  function EventEntries(e: Event, v: View): (r: Result<seq<Entry>, ExpandError>)
    ensures r.Err? <==> e.isRecurring && e.recurrenceRule.Some? && ClientDayRule(e.recurrenceRule.value).Err?
    ensures !(e.isRecurring && e.recurrenceRule.Some?) ==> r == Ok([PlainEntry(e)])
  {
    if e.isRecurring && e.recurrenceRule.Some? then
      match ClientSeries(e, e.recurrenceRule.value, v.now, v.hi)
      case Err(x) => Err(x)
      case Ok(sr) => Ok(OccurrenceEntries(e, Between(SeriesOccurrences(sr, v.unset), v.lo, v.hi)))
    else Ok([PlainEntry(e)])
  }

  /** The per-event entries of a view, as a function value. */
  function EntriesIn(v: View): Event -> Result<seq<Entry>, ExpandError>
  {
    e => EventEntries(e, v)
  }

  /** The entries `f` gives for the events, in order; the first error ends
      the expansion. */
  function ConcatEntries(events: seq<Event>, f: Event -> Result<seq<Entry>, ExpandError>): (r: Result<seq<Entry>, ExpandError>)
    ensures r.Ok? <==> forall i :: 0 <= i < |events| ==> f(events[i]).Ok?
  {
    if events == [] then Ok([])
    else
      assert forall i :: 0 <= i < |events| - 1 ==> events[..|events| - 1][i] == events[i];
      match ConcatEntries(events[..|events| - 1], f)
      case Err(x) => Err(x)
      case Ok(es) =>
        match f(events[|events| - 1])
        case Err(x) => Err(x)
        case Ok(more) => Ok(es + more)
  }

  /** The entries of all events in order; the first error thrown ends it. */
  function Expansion(events: seq<Event>, v: View): (r: Result<seq<Entry>, ExpandError>)
    ensures r.Ok? <==> forall i :: 0 <= i < |events| ==> EventEntries(events[i], v).Ok?
  {
    ConcatEntries(events, EntriesIn(v))
  }

  lemma {:induction false} ConcatErrStays(events: seq<Event>, k: nat, f: Event -> Result<seq<Entry>, ExpandError>)
    requires k <= |events| && ConcatEntries(events[..k], f).Err?
    ensures ConcatEntries(events, f) == ConcatEntries(events[..k], f)
    decreases |events| - k
  {
    if k < |events| {
      assert events[..k + 1][..k] == events[..k];
      ConcatErrStays(events, k + 1, f);
    } else {
      assert events[..k] == events;
    }
  }

  /** One more event: the expansion of a longer prefix. */
  lemma ConcatStep(events: seq<Event>, i: nat, f: Event -> Result<seq<Entry>, ExpandError>)
    requires i < |events| && ConcatEntries(events[..i], f).Ok?
    ensures ConcatEntries(events[..i + 1], f) ==
      match f(events[i])
      case Err(x) => Err(x)
      case Ok(more) => Ok(ConcatEntries(events[..i], f).value + more)
  {
    assert events[..i + 1][..i] == events[..i];
  }

  lemma {:induction false} ConcatMembers(events: seq<Event>, f: Event -> Result<seq<Entry>, ExpandError>, x: Entry)
    requires ConcatEntries(events, f).Ok?
    ensures x in ConcatEntries(events, f).value <==>
      exists i :: 0 <= i < |events| && f(events[i]).Ok? && x in f(events[i]).value
  {
    if events != [] {
      var n := |events| - 1;
      var init := events[..n];
      ConcatMembers(init, f, x);
      var es := ConcatEntries(init, f).value;
      var more := f(events[n]).value;
      assert ConcatEntries(events, f).value == es + more;
      if x in es {
        var i :| 0 <= i < |init| && f(init[i]).Ok? && x in f(init[i]).value;
        assert init[i] == events[i];
      } else if x in more {
      } else {
        forall i | 0 <= i < |events| && f(events[i]).Ok?
          ensures x !in f(events[i]).value
        {
          if i < n {
            assert init[i] == events[i];
          }
        }
      }
    }
  }

  /** The inner `occurrences.forEach`: one entry pushed per occurrence. */
  lemma OccurrenceEntriesStep(e: Event, ts: seq<int>, j: int)
    requires 0 <= j < |ts|
    ensures OccurrenceEntries(e, ts[..j + 1]) == OccurrenceEntries(e, ts[..j]) + [OccurrenceEntry(e, ts[j])]
  {
    assert ts[..j + 1][..j] == ts[..j];
  }

  method PushOccurrences(expanded: seq<Entry>, e: Event, occurrences: seq<int>) returns (r: seq<Entry>)
    ensures r == expanded + OccurrenceEntries(e, occurrences)
  {
    r := expanded;
    var j := 0;
    while j < |occurrences|
      invariant 0 <= j <= |occurrences|
      invariant r == expanded + OccurrenceEntries(e, occurrences[..j])
    {
      var t := occurrences[j];
      var duration := e.endTime - e.startTime;
      var entry := Entry(TextId(NatText(e.id) + "-" + IntText(t)), e.title, t, t + duration, e);
      assert entry == OccurrenceEntry(e, t);
      OccurrenceEntriesStep(e, occurrences, j);
      r := r + [entry];
      j := j + 1;
    }
    assert occurrences[..j] == occurrences;
  }

  /** `expandRecurringEvents(events)` for the month of `shown`. */
  method ExpandRecurringEvents(events: seq<Event>, shown: int, now: int, unset: (int, int, int) -> seq<int>)
    returns (r: Result<seq<Entry>, ExpandError>)
    ensures r == Expansion(events, View(MonthFirstInstant(shown), MonthLastInstant(shown), now, unset))
  {
    var lo, hi := MonthFirstInstant(shown), MonthLastInstant(shown);
    ghost var v := View(lo, hi, now, unset);
    var expanded: seq<Entry> := [];
    for i := 0 to |events|
      invariant Expansion(events[..i], v) == Ok(expanded)
    {
      var e := events[i];
      ConcatStep(events, i, EntriesIn(v));
      if e.isRecurring && e.recurrenceRule.Some? {
        var series := ClientSeries(e, e.recurrenceRule.value, now, hi);
        if series.Err? {
          ConcatErrStays(events, i + 1, EntriesIn(v));
          return Err(series.error);
        }
        var occurrences := Between(SeriesOccurrences(series.value, unset), lo, hi);
        expanded := PushOccurrences(expanded, e, occurrences);
      } else {
        expanded := expanded + [PlainEntry(e)];
      }
    }
    assert events[..|events|] == events;
    return Ok(expanded);
  }

  /** A successful expansion holds exactly the entries of the events. */
  lemma ExpansionMembers(events: seq<Event>, v: View, x: Entry)
    requires Expansion(events, v).Ok?
    ensures x in Expansion(events, v).value <==>
      exists i :: 0 <= i < |events| && EventEntries(events[i], v).Ok? && x in EventEntries(events[i], v).value
  {
    ConcatMembers(events, EntriesIn(v), x);
  }

  lemma {:induction false} OccurrenceEntriesMembers(e: Event, ts: seq<int>, x: Entry)
    ensures x in OccurrenceEntries(e, ts) <==> x.start in ts && x == OccurrenceEntry(e, x.start)
  {
    var r := OccurrenceEntries(e, ts);
    OccurrenceEntriesAt(e, ts);
    if x in r {
      var i :| 0 <= i < |r| && r[i] == x;
      assert x == OccurrenceEntry(e, ts[i]);
    }
    if x.start in ts && x == OccurrenceEntry(e, x.start) {
      var i :| 0 <= i < |ts| && ts[i] == x.start;
      assert r[i] == x;
    }
  }

  /** An event that is not recurring, or has no rule, gives exactly one entry
      with its own id, title, start and end, whatever month is shown. */
  lemma PlainEventOneEntry(e: Event, v: View, w: View)
    requires !(e.isRecurring && e.recurrenceRule.Some?)
    ensures EventEntries(e, v) == Ok([PlainEntry(e)]) == EventEntries(e, w)
    ensures PlainEntry(e).id == NumId(e.id) && PlainEntry(e).start == e.startTime && PlainEntry(e).end == e.endTime
  {
  }

  /** Every entry of a recurring event is the entry of one of its series'
      occurrences inside the shown month, for any frequency. */
  lemma RecurringEntriesInMonth(e: Event, v: View, x: Entry)
    requires e.isRecurring && e.recurrenceRule.Some?
    requires EventEntries(e, v).Ok? && x in EventEntries(e, v).value
    ensures x == OccurrenceEntry(e, x.start) && v.lo <= x.start <= v.hi
  {
    var sr := ClientSeries(e, e.recurrenceRule.value, v.now, v.hi).value;
    OccurrenceEntriesMembers(e, Between(SeriesOccurrences(sr, v.unset), v.lo, v.hi), x);
  }

  /** For a recurring event with DAILY, WEEKLY or MONTHLY whose options
      build, an entry is shown exactly when it is the entry of an instant at
      the event's time of day, on a date the rule selects, between the
      event's start and `until`, and inside the shown month. */
  lemma RecurringEntries(e: Event, v: View, x: Entry)
    requires e.isRecurring && e.recurrenceRule.Some?
    requires ClientSeries(e, e.recurrenceRule.value, v.now, v.hi).Ok?
    requires ClientFreq(e.recurrenceRule.value.frequency).Some?
    ensures var o := ClientSeries(e, e.recurrenceRule.value, v.now, v.hi).value.o;
      x in EventEntries(e, v).value <==>
        && x == OccurrenceEntry(e, x.start)
        && Matches(o, DateOf(x.start)) && TimeOfDay(x.start) == TimeOfDay(e.startTime)
        && e.startTime <= x.start <= o.until
        && v.lo <= x.start <= v.hi
  {
    var o := ClientSeries(e, e.recurrenceRule.value, v.now, v.hi).value.o;
    OccurrenceEntriesMembers(e, Between(Occurrences(o), v.lo, v.hi), x);
    OccurrencesCharacterized(o, x.start);
  }

  /** Every entry points back to its event and carries its title; an
      occurrence's entry lasts exactly as long as the event. */
  lemma EntryFacts(e: Event, v: View, x: Entry)
    requires EventEntries(e, v).Ok? && x in EventEntries(e, v).value
    ensures x.originalEvent == e && x.title == e.title
    ensures x.end - x.start == e.endTime - e.startTime
    ensures x.id.NumId? <==> !(e.isRecurring && e.recurrenceRule.Some?)
  {
    if e.isRecurring && e.recurrenceRule.Some? {
      RecurringEntriesInMonth(e, v, x);
    }
  }

  /** `handleSelectEvent`'s id: a text id is cut at its first '-' and read
      with `parseInt` (`None` for NaN); a numeric id is used as it is. */
  function SelectedId(id: EntryId): (r: Option<int>)
    ensures id.NumId? ==> r == Some(id.n as int)
  {
    match id
    case NumId(n) => Some(n)
    case TextId(s) => ParseInt(SplitHead(s, '-'))
  }

  /** The text id of an occurrence gives back the event's id. */
  lemma OccurrenceIdRoundTrip(e: Event, t: int)
    ensures SelectedId(OccurrenceEntry(e, t).id) == Some(e.id as int)
  {
    var n := NatText(e.id);
    NoCharInDigits(n, '-');
    assert n + "-" + IntText(t) == n + ['-'] + IntText(t);
    SplitHeadOfPrefix(n, '-', IntText(t));
    ParseIntOfNatText(e.id);
  }

  /** `allEvents.find(e => e.id === eventId)`: the first event with that id. */
  function FindById(events: seq<Event>, id: Option<int>): (r: Option<Event>)
    ensures r.None? <==> forall i :: 0 <= i < |events| ==> id != Some(events[i].id as int)
    ensures r.Some? ==> exists i :: (0 <= i < |events| && events[i] == r.value && id == Some(events[i].id as int) &&
      forall j :: 0 <= j < i ==> id != Some(events[j].id as int))
  {
    if events == [] then None
    else if id == Some(events[0].id as int) then
      Some(events[0])
    else
      var r := FindById(events[1..], id);
      if r.Some? then
        var i :| (0 <= i < |events[1..]| && events[1..][i] == r.value && id == Some(events[1..][i].id as int) &&
          forall j :: 0 <= j < i ==> id != Some(events[1..][j].id as int));
        assert events[i + 1] == r.value;
        assert forall j :: 1 <= j < i + 1 ==> events[j] == events[1..][j - 1];
        r
      else r
  }

  predicate UniqueIds(events: seq<Event>)
  {
    forall i, j :: 0 <= i < j < |events| ==> events[i].id != events[j].id
  }

  /** Selecting any entry of the calendar finds the event it was made from,
      when the fetched events have distinct ids. */
  lemma SelectFindsOriginal(events: seq<Event>, v: View, x: Entry)
    requires UniqueIds(events)
    requires Expansion(events, v).Ok? && x in Expansion(events, v).value
    ensures FindById(events, SelectedId(x.id)) == Some(x.originalEvent)
  {
    ExpansionMembers(events, v, x);
    var i :| 0 <= i < |events| && EventEntries(events[i], v).Ok? && x in EventEntries(events[i], v).value;
    var e := events[i];
    EntryFacts(e, v, x);
    if e.isRecurring && e.recurrenceRule.Some? {
      RecurringEntriesInMonth(e, v, x);
      OccurrenceIdRoundTrip(e, x.start);
    }
    assert SelectedId(x.id) == Some(e.id as int);
    var r := FindById(events, SelectedId(x.id));
    assert r.Some?;
    var k :| 0 <= k < |events| && events[k] == r.value && SelectedId(x.id) == Some(events[k].id as int);
    assert k == i;
  }

  /** `handleSelectEvent`: opens the dialog on the event found, and leaves
      the store untouched when none is found. */
  method HandleSelectEvent(store: ModalStore, allEvents: seq<Event>, entry: Entry)
    modifies store
    ensures FindById(allEvents, SelectedId(entry.id)).Some? ==>
      store.State() == Opened(FindById(allEvents, SelectedId(entry.id)))
    ensures FindById(allEvents, SelectedId(entry.id)).None? ==> store.State() == old(store.State())
  {
    var eventId := SelectedId(entry.id);
    var selected := FindById(allEvents, eventId);
    if selected.Some? {
      store.OpenModal(selected);
    }
  }

  /** `eventPropGetter`'s test: a recurring event with an end date is closed
      once that date's midnight has passed; any other event once its end
      time has. */
  function IsClosed(e: Event, now: int): (closed: bool)
    ensures e.isRecurring && e.recurrenceRule.Some? && e.recurrenceRule.value.endDate.Some? ==>
      (closed <==> DayStart(e.recurrenceRule.value.endDate.value) < now)
    ensures !(e.isRecurring && e.recurrenceRule.Some? && e.recurrenceRule.value.endDate.Some?) ==>
      (closed <==> Dashboard.IsPast(now, e))
  {
    if e.isRecurring && e.recurrenceRule.Some? && e.recurrenceRule.value.endDate.Some?
    then DayStart(e.recurrenceRule.value.endDate.value) < now
    else e.endTime < now
  }

  /** A series shown as closed is still expanded up to the end of the shown
      month: its past end date is ignored; a series whose end date is still
      ahead is not closed and stops at that date. */
  lemma ClosedSeriesRunsToMonthEnd(e: Event, now: int, monthEnd: int)
    requires e.isRecurring && e.recurrenceRule.Some? && e.recurrenceRule.value.endDate.Some?
    ensures IsClosed(e, now) ==> ClientUntil(e.recurrenceRule.value, now, monthEnd) == monthEnd
    ensures DayStart(e.recurrenceRule.value.endDate.value) > now ==>
      !IsClosed(e, now) && ClientUntil(e.recurrenceRule.value, now, monthEnd) == DayStart(e.recurrenceRule.value.endDate.value)
  {
  }

  /** What the component shows: the loading text, or the calendar with its
      entries. */
  datatype CalendarScreen = CalendarLoading | CalendarShown(entries: seq<Entry>)

  /** Why the component cannot render: `data?.pages.flatMap` reads `flatMap`
      of `undefined` when `data` is an array (a TypeError), or the expansion
      throws. */
  datatype RenderFailure = FlatMapOfUndefined | ExpansionThrew(error: ExpandError)

  /** The view of the shown month. */
  function MonthView(shown: int, now: int, unset: (int, int, int) -> seq<int>): View
  {
    View(MonthFirstInstant(shown), MonthLastInstant(shown), now, unset)
  }

  /** The component as written, for the query `useEvents` gives. Line 17
      runs before the loading test: without data the list is empty; once the
      flat list has loaded, `data.pages` is `undefined` and the render
      throws. */
  function CalendarRender(q: Query<seq<Event>>, shown: int, now: int, unset: (int, int, int) -> seq<int>)
    : (r: Result<CalendarScreen, RenderFailure>)
    ensures r.Err? <==> q.Loaded?
    ensures r.Err? ==> r.error == FlatMapOfUndefined
    ensures r.Ok? ==> r.value == (if q.Pending? then CalendarLoading else CalendarShown([]))
  {
    match q
    case Loaded(_) => Err(FlatMapOfUndefined)
    case Pending => Ok(CalendarLoading)
    case Failed =>
      // `data` is `undefined`, so the list is `[]`, whose expansion is empty.
      Ok(CalendarShown(Expansion([], MonthView(shown, now, unset)).value))
  }

  /** The same component given the paginated data it reads: once loaded, it
      shows the entries of every fetched event, or fails with the first error
      the expansion throws. */
  function IntendedCalendarRender(q: Query<seq<Dashboard.Page>>, shown: int, now: int,
                                  unset: (int, int, int) -> seq<int>): (r: Result<CalendarScreen, RenderFailure>)
    ensures q.Loaded? ==> r == Shown(Dashboard.AllEvents(q.data), MonthView(shown, now, unset))
    ensures !q.Loaded? ==> r == (if q.Pending? then Ok(CalendarLoading) else Ok(CalendarShown([])))
  {
    match q
    case Pending => Ok(CalendarLoading)
    case Failed => Ok(CalendarShown([]))
    case Loaded(pages) => Shown(Dashboard.AllEvents(pages), MonthView(shown, now, unset))
  }

  /** The calendar for loaded events: their entries, or the first error the
      expansion throws. */
  function Shown(events: seq<Event>, v: View): (r: Result<CalendarScreen, RenderFailure>)
    ensures r.Ok? <==> forall i :: 0 <= i < |events| ==> EventEntries(events[i], v).Ok?
    ensures r.Ok? ==> r.value.CalendarShown? && r.value.entries == Expansion(events, v).value
    ensures r.Err? ==> r == Err(ExpansionThrew(Expansion(events, v).error))
  {
    var x := Expansion(events, v);
    if x.Ok? then Ok(CalendarShown(x.value)) else Err(ExpansionThrew(x.error))
  }

  /** As written, the calendar never shows an entry: it shows an empty month
      until the list loads and then throws. Given the same events as one page,
      the intended component shows every entry of every event that is not
      recurring or has no rule. */
  lemma CalendarNeverShowsEntries(q: Query<seq<Event>>, shown: int, now: int,
                                  unset: (int, int, int) -> seq<int>, e: Event)
    ensures var r := CalendarRender(q, shown, now, unset);
      r.Ok? && r.value.CalendarShown? ==> r.value.entries == []
    ensures q.Loaded? && e in q.data && !(e.isRecurring && e.recurrenceRule.Some?) &&
            IntendedCalendarRender(Loaded([Dashboard.Page(q.data)]), shown, now, unset).Ok? ==>
      PlainEntry(e) in IntendedCalendarRender(Loaded([Dashboard.Page(q.data)]), shown, now, unset).value.entries
  {
    if q.Loaded? && e in q.data && !(e.isRecurring && e.recurrenceRule.Some?) {
      var v := MonthView(shown, now, unset);
      var events := Dashboard.AllEvents([Dashboard.Page(q.data)]);
      assert events == q.data;
      if Expansion(events, v).Ok? {
        var i :| 0 <= i < |events| && events[i] == e;
        ExpansionMembers(events, v, PlainEntry(e));
      }
    }
  }
}
