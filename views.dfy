/** The event list and update views (event_scheduler/events/views.py):
    expansion of recurring events into instances over a date window, the
    windowed, sorted listing, and the extra checks of the update view.

    dateutil's `rrule` is the occurrence stream of module RRule. The rule's
    `end_date` (a date) becomes UNTIL at midnight of that date, as dateutil
    turns a date into a datetime.
 */
module Views {
  import opened Wrappers
  import opened Calendar
  import RRule
  import opened Models
  import opened Serializers

  /** `[weekday_map[day] for day in codes]`: the first unknown code raises. */
  function WeekdaysOfCodes(codes: seq<string>): (r: Result<seq<Weekday>, string>)
    ensures r.Ok? <==> forall i :: 0 <= i < |codes| ==> WeekdayOfCode(codes[i]).Some?
    ensures r.Ok? ==> |r.value| == |codes|
    ensures r.Ok? ==> forall i :: 0 <= i < |codes| ==> WeekdayOfCode(codes[i]) == Some(r.value[i])
    ensures r.Err? ==> r.error in codes && WeekdayOfCode(r.error).None?
  {
    if codes == [] then Ok([])
    else
      match WeekdayOfCode(codes[0])
      case None => Err(codes[0])
      case Some(w) =>
        match WeekdaysOfCodes(codes[1..])
        case Err(k) => Err(k)
        case Ok(ws) =>
          assert forall i :: 1 <= i < |codes| ==> codes[i] == codes[1..][i - 1];
          Ok([w] + ws)
  }

  /** `frequency_map`. */
  function LibraryFreq(f: Frequency): RRule.Freq
  {
    match f
    case DAILY => RRule.Daily
    case WEEKLY => RRule.Weekly
    case MONTHLY => RRule.Monthly
    case YEARLY => RRule.Yearly
  }

  /** What the expansion raises before its `try`, where nothing catches it:
      a `KeyError` of `weekday_map`, or an `AttributeError` for a member the
      rule does not have. */
  datatype Raise = MissingKey(key: string) | MissingAttribute(name: string)

  /** The BYDAY part of `rrule_kwargs`, as written. `RecurrenceRule`
      (models.py) declares no `weekdays` and no `weekday`, so its instances
      have no such attributes: for a WEEKLY rule the test of line 99 raises
      on `rule.weekdays`, for a MONTHLY rule the test of line 103 on
      `rule.weekday`. DAILY and YEARLY rules read neither and add no day
      part. */
  function ServerDayRule(rule: RecurrenceRule): (r: Result<RRule.DayRule, Raise>)
    ensures r.Ok? <==> rule.frequency == DAILY || rule.frequency == YEARLY
    ensures r.Ok? ==> r.value == RRule.NoDayRule
    ensures rule.frequency == WEEKLY ==> r == Err(MissingAttribute("weekdays"))
    ensures rule.frequency == MONTHLY ==> r == Err(MissingAttribute("weekday"))
  {
    match rule.frequency
    case WEEKLY => Err(MissingAttribute("weekdays"))
    case MONTHLY => Err(MissingAttribute("weekday"))
    case _ => Ok(RRule.NoDayRule)
  }

  /** The BYDAY part as the code means it, once the rule has the
      `weekdays`, `weekday` and `ordinal` members the migrations add as
      columns: the weekday list for WEEKLY when it is not empty; weekday plus
      BYSETPOS = ordinal for MONTHLY when both are set (non-empty, non-zero);
      nothing otherwise. An unknown code raises the `KeyError`. */
  function IntendedServerDayRule(rule: RecurrenceRule): (r: Result<RRule.DayRule, Raise>)
    ensures var weekly := rule.frequency == WEEKLY && |rule.weekdays| > 0;
      var monthly := rule.frequency == MONTHLY && rule.weekday.Some? && rule.weekday.value != ""
                     && rule.ordinal.Some? && rule.ordinal.value != 0;
      && (!weekly && !monthly ==> r == Ok(RRule.NoDayRule))
      && (weekly ==> (r.Ok? <==> WeekdaysOfCodes(rule.weekdays).Ok?))
      && (weekly && r.Ok? ==> r.value == RRule.ByWeekdays(WeekdaysOfCodes(rule.weekdays).value))
      && (monthly ==> (r.Ok? <==> WeekdayOfCode(rule.weekday.value).Some?))
      && (monthly && r.Ok? ==>
            r.value == RRule.ByWeekdaySetPos(WeekdayOfCode(rule.weekday.value).value, rule.ordinal.value))
      && (r.Err? ==> r.error.MissingKey? && (weekly || monthly) && (weekly ==> r.error.key in rule.weekdays)
                     && (monthly ==> r.error.key == rule.weekday.value))
  {
    if rule.frequency == WEEKLY && |rule.weekdays| > 0 then
      match WeekdaysOfCodes(rule.weekdays)
      case Err(k) => Err(MissingKey(k))
      case Ok(ws) => Ok(RRule.ByWeekdays(ws))
    else if rule.frequency == MONTHLY && rule.weekday.Some? && rule.weekday.value != ""
            && rule.ordinal.Some? && rule.ordinal.value != 0 then
      match WeekdayOfCode(rule.weekday.value)
      case None => Err(MissingKey(rule.weekday.value))
      case Some(w) => Ok(RRule.ByWeekdaySetPos(w, rule.ordinal.value))
    else Ok(RRule.NoDayRule)
  }

  /** dateutil keeps DTSTART to the whole second (`replace(microsecond=0)`):
      the start of the second that holds `t`. */
  function WholeSecond(t: int): (s: int)
    ensures s <= t < s + 1000 && s % 1000 == 0
    ensures DateOf(s) == DateOf(t)
  {
    var s := t - t % 1000;
    SecondOfDay(t);
    AtOfInstant(t);
    assert s == At(DateOf(t), TimeOfDay(t) - t % 1000);
    DateAndTimeOfAt(DateOf(t), TimeOfDay(t) - t % 1000);
    s
  }

  lemma SecondOfDay(t: int)
    ensures TimeOfDay(t) % 1000 == t % 1000
  {
    var r := TimeOfDay(t);
    var k := 86400 * DateOf(t) + r / 1000;
    assert t == 1000 * k + r % 1000;
    ModThousand(t, k, r % 1000);
  }

  lemma ModThousand(t: int, k: int, s: int)
    requires t == 1000 * k + s && 0 <= s < 1000
    ensures t % 1000 == s
  {
  }

  /** The `rrule_kwargs`: DTSTART is the event's start kept to the second,
      UNTIL the rule's end date when it has one and the window's end date
      otherwise. */
  function ServerOptions(e: Event, endDate: int, dayRule: RRule.DayRule): (o: RRule.Options)
    requires e.recurrenceRule.Some?
    ensures o.freq == LibraryFreq(e.recurrenceRule.value.frequency)
    ensures o.dtstart == WholeSecond(e.startTime) && o.interval == e.recurrenceRule.value.interval
    ensures e.recurrenceRule.value.endDate.Some? ==> o.until == DayStart(e.recurrenceRule.value.endDate.value)
    ensures e.recurrenceRule.value.endDate.None? ==> o.until == DayStart(endDate)
    ensures o.dayRule == dayRule
  {
    var rule := e.recurrenceRule.value;
    RRule.Options(LibraryFreq(rule.frequency), WholeSecond(e.startTime), rule.interval,
                  DayStart(if rule.endDate.Some? then rule.endDate.value else endDate), dayRule)
  }

  /** dateutil refuses a BYSETPOS outside [-366, -1] and [1, 366] with a
      `ValueError`. */
  predicate SetPosRefused(dayRule: RRule.DayRule)
  {
    dayRule.ByWeekdaySetPos? && (dayRule.pos == 0 || dayRule.pos < -366 || dayRule.pos > 366)
  }

  /** The unsaved instance created for occurrence `t`: it lasts as long as
      the event (its stored times, not the DTSTART kept to the second). */
  function Instance(e: Event, t: int): (x: Event)
    ensures x.startTime == t && x.endTime - x.startTime == e.endTime - e.startTime
    ensures !x.isRecurring && x.recurrenceRule.None? && x.id.None?
    ensures x.user == e.user && x.title == e.title && x.description == e.description
    ensures x.location == e.location && x.createdAt == e.createdAt && x.updatedAt == e.updatedAt
  {
    Event(None, e.user, e.title, e.description, e.location, t, t + (e.endTime - e.startTime),
          false, None, e.createdAt, e.updatedAt)
  }

  predicate InDateWindow(t: int, startDate: int, endDate: int)
  {
    startDate <= DateOf(t) <= endDate
  }

  /** The instances for the occurrences `ts` whose date is in the window,
      in the order of `ts`. */
  function InstancesIn(e: Event, ts: seq<int>, startDate: int, endDate: int): seq<Event>
  {
    if ts == [] then []
    else
      var t := ts[|ts| - 1];
      InstancesIn(e, ts[..|ts| - 1], startDate, endDate)
        + (if InDateWindow(t, startDate, endDate) then [Instance(e, t)] else [])
  }

  lemma {:induction false} InstancesInMembers(e: Event, ts: seq<int>, startDate: int, endDate: int, x: Event)
    ensures x in InstancesIn(e, ts, startDate, endDate) <==>
      exists t :: t in ts && InDateWindow(t, startDate, endDate) && x == Instance(e, t)
  {
    if ts != [] {
      var init, t := ts[..|ts| - 1], ts[|ts| - 1];
      assert ts == init + [t];
      InstancesInMembers(e, init, startDate, endDate, x);
    }
  }

  lemma {:induction false} InstancesInIncreasing(e: Event, ts: seq<int>, startDate: int, endDate: int)
    requires RRule.StrictlyIncreasing(ts)
    ensures var xs := InstancesIn(e, ts, startDate, endDate);
      forall i, j :: 0 <= i < j < |xs| ==> xs[i].startTime < xs[j].startTime
  {
    if ts != [] {
      var init, t := ts[..|ts| - 1], ts[|ts| - 1];
      InstancesInIncreasing(e, init, startDate, endDate);
      var xs0 := InstancesIn(e, init, startDate, endDate);
      forall k | 0 <= k < |xs0|
        ensures xs0[k].startTime < t
      {
        InstancesInMembers(e, init, startDate, endDate, xs0[k]);
        var u :| u in init && InDateWindow(u, startDate, endDate) && xs0[k] == Instance(e, u);
        var m :| 0 <= m < |init| && init[m] == u;
        assert ts[m] == u;
      }
    }
  }

  /** The result of `expand_recurring_event`: its instances, or what it
      raises. */
  datatype Expansion = Instances(events: seq<Event>) | Threw(error: Raise)

  /** The expansion for the outcome of the day part: what that raises
      propagates; no instances when dateutil refuses the BYSETPOS (the
      `ValueError` is swallowed); otherwise one instance per occurrence whose
      date is in the window. */
  function ExpansionWith(e: Event, dayRule: Result<RRule.DayRule, Raise>, startDate: int, endDate: int): Expansion
    requires e.recurrenceRule.Some? && e.recurrenceRule.value.interval >= 1
  {
    match dayRule
    case Err(x) => Threw(x)
    case Ok(dr) =>
      if SetPosRefused(dr) then Instances([])
      else Instances(InstancesIn(e, RRule.Occurrences(ServerOptions(e, endDate, dr)), startDate, endDate))
  }

  /** `expand_recurring_event` as written. */
  function ExpansionOf(e: Event, startDate: int, endDate: int): Expansion
    requires e.recurrenceRule.Some? && e.recurrenceRule.value.interval >= 1
  {
    ExpansionWith(e, ServerDayRule(e.recurrenceRule.value), startDate, endDate)
  }

  /** `expand_recurring_event` as meant, with the weekday members present. */
  function IntendedExpansionOf(e: Event, startDate: int, endDate: int): Expansion
    requires e.recurrenceRule.Some? && e.recurrenceRule.value.interval >= 1
  {
    ExpansionWith(e, IntendedServerDayRule(e.recurrenceRule.value), startDate, endDate)
  }

  /** `expand_recurring_event`: builds the keyword arguments, then walks the
      occurrences and keeps those in the window. */
  method ExpandRecurringEvent(e: Event, startDate: int, endDate: int) returns (r: Expansion)
    requires e.recurrenceRule.Some? && e.recurrenceRule.value.interval >= 1
    ensures r == ExpansionOf(e, startDate, endDate)
  {
    var dayRule := ServerDayRule(e.recurrenceRule.value);
    if dayRule.Err? {
      return Threw(dayRule.error);
    }
    if SetPosRefused(dayRule.value) {
      return Instances([]);
    }
    var rr := RRule.Occurrences(ServerOptions(e, endDate, dayRule.value));
    var instances: seq<Event> := [];
    var i := 0;
    while i < |rr|
      invariant 0 <= i <= |rr|
      invariant instances == InstancesIn(e, rr[..i], startDate, endDate)
    {
      var dt := rr[i];
      assert rr[..i + 1][..i] == rr[..i];
      if DateOf(dt) < startDate || DateOf(dt) > endDate {
        i := i + 1;
        continue;
      }
      instances := instances + [Instance(e, dt)];
      i := i + 1;
    }
    assert rr[..|rr|] == rr;
    return Instances(instances);
  }

  /** The instances for a day part that does not raise: exactly the
      instances of the occurrences in the window, in strictly increasing
      start order. An occurrence has DTSTART's time of day, kept to the
      second, and lies between that DTSTART and UNTIL. */
  lemma InstancesCharacterized(e: Event, dayRule: RRule.DayRule, startDate: int, endDate: int, x: Event)
    requires e.recurrenceRule.Some? && e.recurrenceRule.value.interval >= 1
    ensures var o := ServerOptions(e, endDate, dayRule);
      var xs := ExpansionWith(e, Ok(dayRule), startDate, endDate).events;
      && (x in xs <==>
            && !SetPosRefused(dayRule)
            && x == Instance(e, x.startTime)
            && RRule.Matches(o, DateOf(x.startTime))
            && TimeOfDay(x.startTime) == TimeOfDay(WholeSecond(e.startTime))
            && WholeSecond(e.startTime) <= x.startTime <= o.until
            && InDateWindow(x.startTime, startDate, endDate))
      && (forall i, j :: 0 <= i < j < |xs| ==> xs[i].startTime < xs[j].startTime)
  {
    var o := ServerOptions(e, endDate, dayRule);
    if !SetPosRefused(dayRule) {
      var ts := RRule.Occurrences(o);
      InstancesInMembers(e, ts, startDate, endDate, x);
      RRule.OccurrencesCharacterized(o, x.startTime);
      InstancesInIncreasing(e, ts, startDate, endDate);
    }
  }

  /** As written, only DAILY and YEARLY rules expand. Every instance then
      starts on a date in the window, at an occurrence of the rule with no
      day part, at DTSTART's time of day kept to the second, lasts as long as
      the event, is not recurring and copies the event's owner, title,
      description, location and timestamps; every such occurrence in the
      window has its instance; instances come in strictly increasing start
      order. */
  lemma ExpansionCharacterized(e: Event, startDate: int, endDate: int, x: Event)
    requires e.recurrenceRule.Some? && e.recurrenceRule.value.interval >= 1
    requires ExpansionOf(e, startDate, endDate).Instances?
    ensures e.recurrenceRule.value.frequency == DAILY || e.recurrenceRule.value.frequency == YEARLY
    ensures var o := ServerOptions(e, endDate, RRule.NoDayRule);
      var xs := ExpansionOf(e, startDate, endDate).events;
      && (x in xs <==>
            && x == Instance(e, x.startTime)
            && RRule.Matches(o, DateOf(x.startTime))
            && TimeOfDay(x.startTime) == TimeOfDay(WholeSecond(e.startTime))
            && WholeSecond(e.startTime) <= x.startTime <= o.until
            && InDateWindow(x.startTime, startDate, endDate))
      && (forall i, j :: 0 <= i < j < |xs| ==> xs[i].startTime < xs[j].startTime)
  {
    InstancesCharacterized(e, RRule.NoDayRule, startDate, endDate, x);
  }

  /** The expansion as meant: the same characterisation, for the day part
      built from the weekday members, for every frequency. */
  lemma IntendedExpansionCharacterized(e: Event, startDate: int, endDate: int, x: Event)
    requires e.recurrenceRule.Some? && e.recurrenceRule.value.interval >= 1
    requires IntendedExpansionOf(e, startDate, endDate).Instances?
    ensures var dayRule := IntendedServerDayRule(e.recurrenceRule.value).value;
      var o := ServerOptions(e, endDate, dayRule);
      var xs := IntendedExpansionOf(e, startDate, endDate).events;
      && (x in xs <==>
            && !SetPosRefused(dayRule)
            && x == Instance(e, x.startTime)
            && RRule.Matches(o, DateOf(x.startTime))
            && TimeOfDay(x.startTime) == TimeOfDay(WholeSecond(e.startTime))
            && WholeSecond(e.startTime) <= x.startTime <= o.until
            && InDateWindow(x.startTime, startDate, endDate))
      && (forall i, j :: 0 <= i < j < |xs| ==> xs[i].startTime < xs[j].startTime)
  {
    InstancesCharacterized(e, IntendedServerDayRule(e.recurrenceRule.value).value, startDate, endDate, x);
  }

  /** A query parameter `start_date` or `end_date`: not sent, sent empty
      (falsy), not in the form YYYY-MM-DD, or a date. */
  datatype DateParam = NotGiven | Blank | Malformed | ADate(date: int)

  predicate Truthy(p: DateParam)
  {
    p.Malformed? || p.ADate?
  }

  /** The listing returned by `get_queryset`, or the exception it lets
      through from an expansion (the request then ends in status 500). */
  datatype Listing = Rows(events: seq<Event>) | Raised(error: Raise)

  /** `Event.objects.filter(user=user)`. */
  function OwnedBy(all: seq<Event>, user: nat): (r: seq<Event>)
    ensures forall x :: x in r <==> x in all && x.user == user
  {
    if all == [] then []
    else (if all[0].user == user then [all[0]] else []) + OwnedBy(all[1..], user)
  }

  predicate Expandable(e: Event)
  {
    e.isRecurring && e.recurrenceRule.Some?
  }

  /** The rules stored with the events: what `create` stores has an interval
      of at least 1. */
  predicate IntervalsPositive(es: seq<Event>)
  {
    forall e :: e in es && e.recurrenceRule.Some? ==> e.recurrenceRule.value.interval >= 1
  }

  /** Saved events have an id. */
  predicate AllSaved(es: seq<Event>)
  {
    forall e :: e in es ==> e.id.Some?
  }

  lemma PrefixMembers(es: seq<Event>, n: nat)
    requires n <= |es|
    ensures forall x :: x in es[..n] ==> x in es
  {
    forall x | x in es[..n]
      ensures x in es
    {
      var i :| 0 <= i < n && es[..n][i] == x;
      assert es[i] == x;
    }
  }

  /** Ordering the user's events keeps exactly the user's events. */
  lemma OrderedOwnedMembers(all: seq<Event>, user: nat)
    ensures forall x :: x in SortByStart(OwnedBy(all, user)) <==> x in all && x.user == user
  {
    var qs := SortByStart(OwnedBy(all, user));
    forall x
      ensures x in qs <==> x in OwnedBy(all, user)
    {
      assert x in qs <==> x in multiset(qs);
    }
  }

  /** The loop of `get_queryset` over the ordered events, as a value:
      recurring events with a rule contribute their instances, the others
      themselves when their start date is in the window. */
  function Collect(qs: seq<Event>, startDate: int, endDate: int): Listing
    requires IntervalsPositive(qs)
  {
    if qs == [] then Rows([])
    else
      var init, e := qs[..|qs| - 1], qs[|qs| - 1];
      PrefixMembers(qs, |qs| - 1);
      match Collect(init, startDate, endDate)
      case Raised(k) => Raised(k)
      case Rows(xs) =>
        if Expandable(e) then
          match ExpansionOf(e, startDate, endDate)
          case Threw(x) => Raised(x)
          case Instances(ys) => Rows(xs + ys)
        else if startDate <= DateOf(e.startTime) <= endDate then Rows(xs + [e])
        else Rows(xs)
  }

  /** `get_queryset` as a value. */
  function QuerysetOf(all: seq<Event>, user: nat, startParam: DateParam, endParam: DateParam): Listing
    requires IntervalsPositive(all)
  {
    var qs := SortByStart(OwnedBy(all, user));
    if !(Truthy(startParam) && Truthy(endParam)) then Rows(qs)
    else if startParam.Malformed? || endParam.Malformed? then Rows(qs)
    else
      OrderedOwnedMembers(all, user);
      match Collect(qs, startParam.date, endParam.date)
      case Raised(k) => Raised(k)
      case Rows(xs) => Rows(SortByStart(xs))
  }

  /** One more event through the loop. */
  lemma CollectStep(qs: seq<Event>, n: nat, startDate: int, endDate: int)
    requires n < |qs| && IntervalsPositive(qs)
    ensures IntervalsPositive(qs[..n]) && IntervalsPositive(qs[..n + 1])
    ensures Collect(qs[..n], startDate, endDate).Raised? ==>
      Collect(qs[..n + 1], startDate, endDate) == Collect(qs[..n], startDate, endDate)
    ensures Collect(qs[..n], startDate, endDate).Rows? ==>
      var xs, e := Collect(qs[..n], startDate, endDate).events, qs[n];
      Collect(qs[..n + 1], startDate, endDate) ==
        if Expandable(e) then
          (if ExpansionOf(e, startDate, endDate).Threw?
           then Raised(ExpansionOf(e, startDate, endDate).error)
           else Rows(xs + ExpansionOf(e, startDate, endDate).events))
        else if startDate <= DateOf(e.startTime) <= endDate then Rows(xs + [e])
        else Rows(xs)
  {
    PrefixMembers(qs, n);
    PrefixMembers(qs, n + 1);
    assert qs[..n + 1][..n] == qs[..n];
  }

  /** Once an expansion has raised, the loop's outcome is that error. */
  lemma {:induction false} CollectRaisedStays(qs: seq<Event>, n: nat, startDate: int, endDate: int, k: Raise)
    requires n <= |qs| && IntervalsPositive(qs)
    requires IntervalsPositive(qs[..n]) && Collect(qs[..n], startDate, endDate) == Raised(k)
    ensures Collect(qs, startDate, endDate) == Raised(k)
    decreases |qs| - n
  {
    if n < |qs| {
      CollectStep(qs, n, startDate, endDate);
      CollectRaisedStays(qs, n + 1, startDate, endDate, k);
    } else {
      assert qs[..n] == qs;
    }
  }

  /** The `for` loop of `get_queryset`: extends with the instances of each
      recurring event with a rule, appends each other event whose start date
      is in the window, and lets an expansion's exception through. */
  method CollectWindow(qs: seq<Event>, startDate: int, endDate: int) returns (r: Listing)
    requires IntervalsPositive(qs)
    ensures r == Collect(qs, startDate, endDate)
  {
    PrefixMembers(qs, 0);
    var expanded: seq<Event> := [];
    var i := 0;
    while i < |qs|
      invariant 0 <= i <= |qs|
      invariant IntervalsPositive(qs[..i])
      invariant Collect(qs[..i], startDate, endDate) == Rows(expanded)
    {
      var e := qs[i];
      CollectStep(qs, i, startDate, endDate);
      if e.isRecurring && e.recurrenceRule.Some? {
        var x := ExpandRecurringEvent(e, startDate, endDate);
        if x.Threw? {
          CollectRaisedStays(qs, i + 1, startDate, endDate, x.error);
          return Raised(x.error);
        }
        expanded := expanded + x.events;
      } else if DateOf(e.startTime) >= startDate && DateOf(e.startTime) <= endDate {
        expanded := expanded + [e];
      }
      i := i + 1;
    }
    assert qs[..|qs|] == qs;
    return Rows(expanded);
  }

  /** `get_queryset`: the user's events by start time; with both dates
      given and well-formed, the events expanded over the window and sorted
      by start time. */
  method GetQueryset(all: seq<Event>, user: nat, startParam: DateParam, endParam: DateParam) returns (r: Listing)
    requires IntervalsPositive(all)
    ensures r == QuerysetOf(all, user, startParam, endParam)
  {
    var queryset := SortByStart(OwnedBy(all, user));
    if !(Truthy(startParam) && Truthy(endParam)) {
      return Rows(queryset);
    }
    if startParam.Malformed? || endParam.Malformed? {
      return Rows(queryset);
    }
    OrderedOwnedMembers(all, user);
    var expanded := CollectWindow(queryset, startParam.date, endParam.date);
    if expanded.Raised? {
      return expanded;
    }
    return Rows(SortByStart(expanded.events));
  }

  /** What the loop collects: a row with an id is a non-expandable event of
      the list starting in the window; a row without one is an instance of
      an expandable event of the list. */
  lemma {:induction false} CollectMembers(qs: seq<Event>, startDate: int, endDate: int, x: Event)
    requires IntervalsPositive(qs) && AllSaved(qs)
    requires Collect(qs, startDate, endDate).Rows?
    ensures var xs := Collect(qs, startDate, endDate).events;
      && (x.id.Some? ==> (x in xs <==> x in qs && !Expandable(x) && startDate <= DateOf(x.startTime) <= endDate))
      && (x in xs && x.id.None? ==>
            exists e :: e in qs && Expandable(e) && e.recurrenceRule.value.interval >= 1
                        && ExpansionOf(e, startDate, endDate).Instances?
                        && x in ExpansionOf(e, startDate, endDate).events)
  {
    if qs != [] {
      var n := |qs| - 1;
      var init, e := qs[..n], qs[n];
      assert qs == init + [e];
      CollectStep(qs, n, startDate, endDate);
      assert qs[..n + 1] == qs;
      PrefixMembers(qs, n);
      CollectMembers(init, startDate, endDate, x);
      if Expandable(e) && ExpansionOf(e, startDate, endDate).Instances? && x.id.Some? {
        var dr := ServerDayRule(e.recurrenceRule.value).value;
        if !SetPosRefused(dr) {
          InstancesInMembers(e, RRule.Occurrences(ServerOptions(e, endDate, dr)), startDate, endDate, x);
        }
      }
    }
  }

  /** A recurring event whose rule is WEEKLY or MONTHLY: its expansion reads
      a member the rule does not have. */
  predicate ReadsMissingMember(e: Event)
  {
    Expandable(e) && (e.recurrenceRule.value.frequency == WEEKLY || e.recurrenceRule.value.frequency == MONTHLY)
  }

  /** What a listing raises, when it raises, is an `AttributeError` for a
      weekday member. */
  predicate RaisesMissingMember(l: Listing)
  {
    l.Raised? ==> l.error == MissingAttribute("weekdays") || l.error == MissingAttribute("weekday")
  }

  /** The loop over a list with one more event at its end raises exactly
      when the loop over the shorter list does or the new event reads a
      missing member. */
  lemma CollectLastRaises(qs: seq<Event>, startDate: int, endDate: int)
    requires qs != [] && IntervalsPositive(qs)
    ensures IntervalsPositive(qs[..|qs| - 1])
    ensures var before, after := Collect(qs[..|qs| - 1], startDate, endDate), Collect(qs, startDate, endDate);
      && (after.Raised? <==> before.Raised? || ReadsMissingMember(qs[|qs| - 1]))
      && (RaisesMissingMember(before) ==> RaisesMissingMember(after))
  {
    PrefixMembers(qs, |qs| - 1);
  }

  /** As written, the loop raises exactly when the list holds a recurring
      WEEKLY or MONTHLY event with a rule, and what it raises is the
      `AttributeError` for `weekdays` or for `weekday`. */
  lemma {:induction false} CollectRaisesOnDayRule(qs: seq<Event>, startDate: int, endDate: int)
    requires IntervalsPositive(qs)
    ensures Collect(qs, startDate, endDate).Raised? <==> exists e :: e in qs && ReadsMissingMember(e)
    ensures RaisesMissingMember(Collect(qs, startDate, endDate))
  {
    if qs != [] {
      var n := |qs| - 1;
      CollectLastRaises(qs, startDate, endDate);
      CollectRaisesOnDayRule(qs[..n], startDate, endDate);
      assert forall e :: e in qs <==> e in qs[..n] || e == qs[n] by {
        assert qs == qs[..n] + [qs[n]];
      }
    }
  }

  /** With both dates, the listing raises exactly when the user owns a
      recurring WEEKLY or MONTHLY event with a rule; the request then ends in
      a server error instead of a listing. */
  lemma WindowedListingRaises(all: seq<Event>, user: nat, startDate: int, endDate: int)
    requires IntervalsPositive(all)
    ensures QuerysetOf(all, user, ADate(startDate), ADate(endDate)).Raised? <==>
      exists e :: e in all && e.user == user && ReadsMissingMember(e)
    ensures RaisesMissingMember(QuerysetOf(all, user, ADate(startDate), ADate(endDate)))
  {
    OrderedOwnedMembers(all, user);
    CollectRaisesOnDayRule(SortByStart(OwnedBy(all, user)), startDate, endDate);
  }

  /** Without both dates, or with one that does not parse, the listing is
      the user's events ordered by start time, unexpanded. */
  lemma UnwindowedListing(all: seq<Event>, user: nat, startParam: DateParam, endParam: DateParam)
    requires IntervalsPositive(all)
    requires !(startParam.ADate? && endParam.ADate?)
    ensures QuerysetOf(all, user, startParam, endParam).Rows?
    ensures var rows := QuerysetOf(all, user, startParam, endParam).events;
      && SortedByStart(rows)
      && multiset(rows) == multiset(OwnedBy(all, user))
  {
  }

  /** The rows of a windowed listing are those the loop collected, sorted. */
  lemma WindowedRows(all: seq<Event>, user: nat, startDate: int, endDate: int, x: Event)
    requires IntervalsPositive(all)
    requires QuerysetOf(all, user, ADate(startDate), ADate(endDate)).Rows?
    ensures var qs := SortByStart(OwnedBy(all, user));
      && IntervalsPositive(qs)
      && Collect(qs, startDate, endDate).Rows?
      && var rows := QuerysetOf(all, user, ADate(startDate), ADate(endDate)).events;
      && SortedByStart(rows)
      && (x in rows <==> x in Collect(qs, startDate, endDate).events)
  {
    OrderedOwnedMembers(all, user);
    var qs := SortByStart(OwnedBy(all, user));
    var rows := SortByStart(Collect(qs, startDate, endDate).events);
    assert x in rows <==> x in multiset(rows);
  }

  /** With a window: the rows are sorted by start time; a saved event (one
      with an id) is listed exactly when it belongs to the user, is not
      expanded and starts on a date in the window; every other row is an
      instance of one of the user's expandable events, in the window. */
  lemma WindowedListing(all: seq<Event>, user: nat, startDate: int, endDate: int, x: Event)
    requires IntervalsPositive(all) && AllSaved(all)
    requires QuerysetOf(all, user, ADate(startDate), ADate(endDate)).Rows?
    ensures var rows := QuerysetOf(all, user, ADate(startDate), ADate(endDate)).events;
      && SortedByStart(rows)
      && (x.id.Some? ==>
            (x in rows <==> x in all && x.user == user && !Expandable(x)
                            && startDate <= DateOf(x.startTime) <= endDate))
      && (x in rows && x.id.None? ==>
            exists e :: e in all && e.user == user && Expandable(e) && e.recurrenceRule.value.interval >= 1
                        && ExpansionOf(e, startDate, endDate).Instances?
                        && x in ExpansionOf(e, startDate, endDate).events
                        && InDateWindow(x.startTime, startDate, endDate))
  {
    var qs := SortByStart(OwnedBy(all, user));
    WindowedRows(all, user, startDate, endDate, x);
    OrderedOwnedMembers(all, user);
    CollectMembers(qs, startDate, endDate, x);
    var rows := QuerysetOf(all, user, ADate(startDate), ADate(endDate)).events;
    if x in rows && x.id.None? {
      var e :| e in qs && Expandable(e) && e.recurrenceRule.value.interval >= 1
               && ExpansionOf(e, startDate, endDate).Instances?
               && x in ExpansionOf(e, startDate, endDate).events;
      ExpansionCharacterized(e, startDate, endDate, x);
    }
  }

  /** Why `update` answers 400 after the serializer accepted the data. */
  datatype UpdateProblem = TimesOutOfOrder | RecurringWithoutRule

  datatype UpdateOutcome =
    | Rejected(failure: Failure)
    | BadRequest(problem: UpdateProblem)
    | Accepted(startTime: int, endTime: int, isRecurring: bool, hasRule: bool)

  /** `EventRetrieveUpdateView.update`: the serializer's whole validation
      (which raises on failure), then the time order and the recurring-rule
      checks on the validated values, each falling back to the stored
      event's. A sent rule counts only when it is true: null and an empty
      rule object count as sent and absent. */
  function Update(instance: Event, input: EventInput, now: int, partial: bool): (r: UpdateOutcome)
    ensures r.Rejected? <==> ValidateEvent(input, now, partial).Err?
    ensures r.Rejected? ==> r.failure == ValidateEvent(input, now, partial).error
    ensures r.Accepted? ==> var f := input.fields;
      && r.startTime == (if f.startTime.Given? then f.startTime.value else instance.startTime)
      && r.endTime == (if f.endTime.Given? then f.endTime.value else instance.endTime)
      && r.isRecurring == (if f.isRecurring.Given? then f.isRecurring.value else instance.isRecurring)
      && r.hasRule == (if input.rule.Absent? then instance.recurrenceRule.Some?
                       else HasRule(ValidateEvent(input, now, partial).value))
      && r.startTime < r.endTime && (r.isRecurring ==> r.hasRule)
  {
    match ValidateEvent(input, now, partial)
    case Err(f) => Rejected(f)
    case Ok(data) =>
      var f := data.fields;
      var start := if f.startTime.Some? then f.startTime.value else instance.startTime;
      var end := if f.endTime.Some? then f.endTime.value else instance.endTime;
      if end <= start then BadRequest(TimesOutOfOrder)
      else
        var recurring := if f.isRecurring.Some? then f.isRecurring.value else instance.isRecurring;
        var hasRule := if data.rule.Absent? then instance.recurrenceRule.Some? else HasRule(data);
        if recurring && !hasRule then BadRequest(RecurringWithoutRule)
        else Accepted(start, end, recurring, hasRule)
  }

  /** `validate` reads both times, so data it accepts always has both, with
      the end after the start: the update's own time check never fires. */
  lemma UpdateTimeCheckUnreachable(instance: Event, input: EventInput, now: int, partial: bool)
    ensures Update(instance, input, now, partial) != BadRequest(TimesOutOfOrder)
  {
  }

  /** The recurring-rule check does fire: a partial update that leaves out
      `is_recurring` and sends the rule as null or as an empty object passes
      `validate` (which reads a missing `is_recurring` as false and such a
      rule as none), while the stored event is recurring. */
  lemma UpdateRuleCheckFires(instance: Event, input: EventInput, now: int)
    requires instance.isRecurring
    requires input.fields.isRecurring.Absent?
    requires input.rule.Null? || input.rule == Given(RawRule(Absent, Absent, Absent))
    requires FieldProblems(input.fields, true) == []
    requires input.fields.startTime.Given? && input.fields.endTime.Given?
    requires now <= input.fields.startTime.value < input.fields.endTime.value
    ensures Update(instance, input, now, true) == BadRequest(RecurringWithoutRule)
  {
    if input.rule.Given? {
      EmptyRuleIsNoRule(input, now);
    }
  }
}
