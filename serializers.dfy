/** Validation of incoming event data and creation of events
    (event_scheduler/events/serializers.py).

    Validation runs in two stages, as in Django REST framework. First every
    field is validated on its own and every failing field is reported: the
    event's text fields as `CharField`s built from the model columns, the
    times, `is_recurring`, and the nested rule serializer's fields. Only when
    no field fails does the object-level `validate` run its checks in a fixed
    order and report the first that fails. A partial request (an update sent
    with PATCH) may leave out any field, a full one may not leave out a field
    without default. A key sent as JSON `null` is rejected unless its column
    allows null (`description`, `location`, the rule's `end_date` and the
    rule itself do). "Now" is a parameter (the instant `timezone.now()`
    returns); today is its date.
 */
module Serializers {
  import opened Wrappers
  import opened Text
  import opened Calendar
  import opened Models

  /** A key of the request body: left out, sent as null, or sent. */
  datatype Field<+T> = Absent | Null | Given(value: T)

  /** The value a sent key holds; a left-out or null key holds none. */
  function ValueOf<T>(f: Field<T>): (r: Option<T>)
    ensures r.Some? <==> f.Given?
    ensures r.Some? ==> r.value == f.value
  {
    if f.Given? then Some(f.value) else None
  }

  /** The event fields DRF validates one by one (`title`, `description`,
      `location`, `start_time`, `end_time`, `is_recurring`). */
  datatype FieldKey = Title | Description | Location | StartTime | EndTime | IsRecurring

  /** The reasons a request is rejected with status 400. */
  datatype Problem =
    | FieldRequired(key: FieldKey)  // left out of a full request
    | FieldNull(key: FieldKey)      // null sent for a column without null
    | FieldBlank(key: FieldKey)     // empty or all white space
    | FieldTooLong(key: FieldKey)   // over the column's `max_length`
    | FieldHasNul(key: FieldKey)    // contains the character U+0000
    | FrequencyRequired      // the rule's `frequency` is missing
    | FrequencyNull          // the rule's `frequency` is null
    | FrequencyNotAChoice    // not one of FREQUENCY_CHOICES
    | IntervalNull           // the rule's `interval` is null
    | IntervalBelowMinimum   // the column's validator: at least 0
    | IntervalAboveMaximum   // the column's validator: at most MaxInterval
    | IntervalNotPositive    // validate_interval
    | EndDateInPast          // validate_end_date
    | StartInPast
    | EndNotAfterStart
    | RuleRequired
    | RuleNotAllowed
    | EndDateBeforeStart

  /** The largest value of a `PositiveIntegerField` column (Django's
      default integer field range). */
  const MaxInterval := 2147483647

  /** A rejected request: the problems reported, or a `KeyError` raised by
      `validate` when a partial update leaves out a time it reads. */
  datatype Failure = Invalid(problems: seq<Problem>) | KeyError(key: FieldKey)

  /** The rule as sent: the three fields RecurrenceRuleSerializer exposes
      (`weekdays`, `weekday` and `ordinal` are not among them, so a rule that
      sends only those sends none of its fields). */
  datatype RawRule = RawRule(frequency: Field<string>, interval: Field<int>, endDate: Field<int>)

  /** The rule after field validation: the keys it holds. Only a partial
      request can leave out its frequency; only `end_date` can be null. */
  datatype RuleData = RuleData(frequency: Option<Frequency>, interval: Option<int>, endDate: Field<int>)

  /** The plain fields of an event request. */
  datatype EventFields = EventFields(
    title: Field<string>,
    description: Field<string>,
    location: Field<string>,
    startTime: Field<int>,
    endTime: Field<int>,
    isRecurring: Field<bool>)

  /** The plain fields after field validation; `None` is a key left out,
      and only `description` and `location` can still be null. */
  datatype ValidFields = ValidFields(
    title: Option<string>,
    description: Field<string>,
    location: Field<string>,
    startTime: Option<int>,
    endTime: Option<int>,
    isRecurring: Option<bool>)

  datatype EventInput = EventInput(fields: EventFields, rule: Field<RawRule>)
  datatype EventData = EventData(fields: ValidFields, rule: Field<RuleData>)

  /** `validate_end_date`, called with the sent date or, for a null one,
      with `None`: a date before today is rejected. */
  function ValidateEndDate(value: Option<int>, today: int): (r: Result<Option<int>, Problem>)
    ensures r.Err? <==> value.Some? && value.value < today
    ensures r.Ok? ==> r.value == value
    ensures r.Err? ==> r.error == EndDateInPast
  {
    if value.Some? && value.value < today then Err(EndDateInPast) else Ok(value)
  }

  /** `validate_interval`: zero and negative intervals are rejected. */
  function ValidateInterval(value: int): (r: Result<int, Problem>)
    ensures r.Ok? <==> value >= 1
    ensures r.Ok? ==> r.value == value
    ensures r.Err? ==> r.error == IntervalNotPositive
  {
    if value <= 0 then Err(IntervalNotPositive) else Ok(value)
  }

  function FrequencyProblem(f: Field<string>, partial: bool): seq<Problem>
  {
    match f
    case Absent => if partial then [] else [FrequencyRequired]
    case Null => [FrequencyNull]
    case Given(s) => if FrequencyOfCode(s).None? then [FrequencyNotAChoice] else []
  }

  /** The interval field: the column's range (0 to MaxInterval) is checked
      first, then `validate_interval`; a left-out interval is not validated
      at all, a null one is refused before any validator runs. */
  function IntervalProblem(i: Field<int>): seq<Problem>
  {
    match i
    case Absent => []
    case Null => [IntervalNull]
    case Given(v) =>
      if v < 0 then [IntervalBelowMinimum]
      else if v > MaxInterval then [IntervalAboveMaximum]
      else if ValidateInterval(v).Err? then [ValidateInterval(v).error]
      else []
  }

  function EndDateProblem(d: Field<int>, today: int): seq<Problem>
  {
    if d.Absent? then []
    else if ValidateEndDate(ValueOf(d), today).Err? then [ValidateEndDate(ValueOf(d), today).error]
    else []
  }

  /** RecurrenceRuleSerializer's field validation: each field in declaration
      order, every failing field reported. A partial request passes a
      left-out frequency over. */
  function ValidateRuleFields(raw: RawRule, today: int, partial: bool): (r: Result<RuleData, seq<Problem>>)
    ensures r.Err? ==> |r.error| >= 1
  {
    var problems := FrequencyProblem(raw.frequency, partial) + IntervalProblem(raw.interval)
      + EndDateProblem(raw.endDate, today);
    if problems == [] then
      var f := if raw.frequency.Given? then FrequencyOfCode(raw.frequency.value) else None;
      Ok(RuleData(f, ValueOf(raw.interval), raw.endDate))
    else Err(problems)
  }

  /** What the rule fields accept, stated independently of the order of the
      checks: a known frequency (which only a partial request may leave out),
      an interval (when sent) from 1 to MaxInterval, an end date (when sent)
      not before today; only the end date may be null. */
  lemma RuleFieldsAccepted(raw: RawRule, today: int, partial: bool)
    ensures var r := ValidateRuleFields(raw, today, partial);
      && (r.Ok? <==>
            && (raw.frequency.Absent? ==> partial)
            && !raw.frequency.Null? && !raw.interval.Null?
            && (raw.frequency.Given? ==> FrequencyOfCode(raw.frequency.value).Some?)
            && (raw.interval.Given? ==> 1 <= raw.interval.value <= MaxInterval)
            && (raw.endDate.Given? ==> raw.endDate.value >= today))
      && (r.Ok? ==> r.value.interval == ValueOf(raw.interval) && r.value.endDate == raw.endDate
                    && (r.value.frequency.Some? <==> raw.frequency.Given?)
                    && (r.value.frequency.Some? ==> FrequencyCode(r.value.frequency.value) == raw.frequency.value))
  {
    var a, b, c := FrequencyProblem(raw.frequency, partial), IntervalProblem(raw.interval), EndDateProblem(raw.endDate, today);
    assert a + b + c == [] <==> a == [] && b == [] && c == [];
  }

  /** A rejection of the rule fields names exactly the failing fields, each
      with its reason. */
  lemma RuleProblemsReported(raw: RawRule, today: int, partial: bool)
    ensures var r := ValidateRuleFields(raw, today, partial);
      r.Err? ==>
        && (IntervalNotPositive in r.error <==> raw.interval == Given(0))
        && (IntervalBelowMinimum in r.error <==> raw.interval.Given? && raw.interval.value < 0)
        && (IntervalAboveMaximum in r.error <==> raw.interval.Given? && raw.interval.value > MaxInterval)
        && (IntervalNull in r.error <==> raw.interval.Null?)
        && (EndDateInPast in r.error <==> raw.endDate.Given? && raw.endDate.value < today)
        && (FrequencyRequired in r.error <==> raw.frequency.Absent? && !partial)
        && (FrequencyNull in r.error <==> raw.frequency.Null?)
        && (FrequencyNotAChoice in r.error <==>
              raw.frequency.Given? && FrequencyOfCode(raw.frequency.value).None?)
  {
    var ps := FrequencyProblem(raw.frequency, partial) + IntervalProblem(raw.interval) + EndDateProblem(raw.endDate, today);
    assert ValidateRuleFields(raw, today, partial).Err? ==> ValidateRuleFields(raw, today, partial).error == ps;
    ProblemNames(raw, today, partial);
  }

  lemma ProblemNames(raw: RawRule, today: int, partial: bool)
    ensures forall p :: p in FrequencyProblem(raw.frequency, partial) + IntervalProblem(raw.interval) + EndDateProblem(raw.endDate, today) <==>
      || (p == FrequencyRequired && raw.frequency.Absent? && !partial)
      || (p == FrequencyNull && raw.frequency.Null?)
      || (p == FrequencyNotAChoice && raw.frequency.Given? && FrequencyOfCode(raw.frequency.value).None?)
      || (p == IntervalNotPositive && raw.interval == Given(0))
      || (p == IntervalBelowMinimum && raw.interval.Given? && raw.interval.value < 0)
      || (p == IntervalAboveMaximum && raw.interval.Given? && raw.interval.value > MaxInterval)
      || (p == IntervalNull && raw.interval.Null?)
      || (p == EndDateInPast && raw.endDate.Given? && raw.endDate.value < today)
  {
    var a, b, c := FrequencyProblem(raw.frequency, partial), IntervalProblem(raw.interval), EndDateProblem(raw.endDate, today);
    FrequencyProblemNames(raw.frequency, partial);
    IntervalProblemNames(raw.interval);
    assert forall p :: p in c <==> p == EndDateInPast && raw.endDate.Given? && raw.endDate.value < today;
    assert forall p :: p in a + b + c <==> p in a || p in b || p in c;
  }

  lemma FrequencyProblemNames(f: Field<string>, partial: bool)
    ensures forall p :: p in FrequencyProblem(f, partial) <==>
      || (p == FrequencyRequired && f.Absent? && !partial)
      || (p == FrequencyNull && f.Null?)
      || (p == FrequencyNotAChoice && f.Given? && FrequencyOfCode(f.value).None?)
  {
  }

  lemma IntervalProblemNames(i: Field<int>)
    ensures forall p :: p in IntervalProblem(i) <==>
      || (p == IntervalNotPositive && i == Given(0))
      || (p == IntervalBelowMinimum && i.Given? && i.value < 0)
      || (p == IntervalAboveMaximum && i.Given? && i.value > MaxInterval)
      || (p == IntervalNull && i.Null?)
  {
  }

  /** DRF's `CharField` on a sent text: the text is stripped; an empty
      result is blank, which only a column with `blank=True` allows; any
      other result must not be longer than the column's `max_length` and must
      not contain U+0000. */
  function TextProblems(key: FieldKey, s: string, allowBlank: bool, maxLength: Option<nat>): (r: seq<Problem>)
    ensures r == [] <==>
      && (allowBlank || Strip(s) != [])
      && (maxLength.Some? ==> |Strip(s)| <= maxLength.value)
      && '\0' !in Strip(s)
    ensures FieldBlank(key) in r <==> !allowBlank && Strip(s) == []
    ensures forall p :: p in r ==> (p.FieldBlank? || p.FieldTooLong? || p.FieldHasNul?) && p.key == key
  {
    var v := Strip(s);
    if v == [] then (if allowBlank then [] else [FieldBlank(key)])
    else (if maxLength.Some? && |v| > maxLength.value then [FieldTooLong(key)] else [])
         + (if '\0' in v then [FieldHasNul(key)] else [])
  }

  /** A problem that names one of the event's own fields. */
  predicate Keyed(p: Problem)
  {
    p.FieldRequired? || p.FieldNull? || p.FieldBlank? || p.FieldTooLong? || p.FieldHasNul?
  }

  /** A field whose column does not allow null: null is refused, and a
      full request must send it unless the column has a default. */
  function PresenceProblem<T>(key: FieldKey, v: Field<T>, required: bool, partial: bool): (r: seq<Problem>)
    ensures r == [] <==> !v.Null? && (v.Absent? && required ==> partial)
    ensures FieldRequired(key) in r <==> v.Absent? && required && !partial
    ensures FieldNull(key) in r <==> v.Null?
    ensures forall p :: p in r ==> Keyed(p) && p.key == key
  {
    match v
    case Absent => if required && !partial then [FieldRequired(key)] else []
    case Null => [FieldNull(key)]
    case Given(_) => []
  }

  /** The event's own fields in declaration order: `title` (required, not
      blank, at most 255 characters), `description` (blank and null
      allowed), `location` (blank and null allowed, at most 200),
      `start_time` and `end_time` (required); `is_recurring` has a default
      and is never required. */
  function FieldProblems(f: EventFields, partial: bool): seq<Problem>
  {
    TitleProblems(f, partial) + DescriptionProblems(f) + LocationProblems(f)
      + PresenceProblem(StartTime, f.startTime, true, partial)
      + PresenceProblem(EndTime, f.endTime, true, partial)
      + PresenceProblem(IsRecurring, f.isRecurring, false, partial)
  }

  function TitleProblems(f: EventFields, partial: bool): (r: seq<Problem>)
    ensures FieldRequired(Title) in r <==> f.title.Absent? && !partial
    ensures FieldNull(Title) in r <==> f.title.Null?
    ensures FieldBlank(Title) in r <==> f.title.Given? && Strip(f.title.value) == []
    ensures forall p :: p in r ==> Keyed(p) && p.key == Title
  {
    if f.title.Given? then TextProblems(Title, f.title.value, false, Some(255))
    else PresenceProblem(Title, f.title, true, partial)
  }

  function DescriptionProblems(f: EventFields): (r: seq<Problem>)
    ensures forall p :: p in r ==> Keyed(p) && p.key == Description
  {
    if f.description.Given? then TextProblems(Description, f.description.value, true, None) else []
  }

  function LocationProblems(f: EventFields): (r: seq<Problem>)
    ensures forall p :: p in r ==> Keyed(p) && p.key == Location
  {
    if f.location.Given? then TextProblems(Location, f.location.value, true, Some(200)) else []
  }

  /** A sent text stripped; a left-out or null one unchanged. */
  function StripField(f: Field<string>): (r: Field<string>)
    ensures r.Given? <==> f.Given?
    ensures r.Null? <==> f.Null?
    ensures r.Given? ==> r.value == Strip(f.value)
  {
    if f.Given? then Given(Strip(f.value)) else f
  }

  /** The fields as `validate` receives them: the sent texts stripped. */
  function CleanFields(f: EventFields): ValidFields
  {
    ValidFields(
      if f.title.Given? then Some(Strip(f.title.value)) else None,
      StripField(f.description), StripField(f.location),
      ValueOf(f.startTime), ValueOf(f.endTime), ValueOf(f.isRecurring))
  }

  /** What the event's fields accept, stated field by field. */
  lemma EventFieldsAccepted(f: EventFields, partial: bool)
    ensures FieldProblems(f, partial) == [] <==>
      && (f.title.Absent? ==> partial)
      && !f.title.Null? && !f.startTime.Null? && !f.endTime.Null? && !f.isRecurring.Null?
      && (f.title.Given? ==> var v := Strip(f.title.value); v != [] && |v| <= 255 && '\0' !in v)
      && (f.description.Given? ==> '\0' !in Strip(f.description.value))
      && (f.location.Given? ==> var v := Strip(f.location.value); |v| <= 200 && '\0' !in v)
      && (!partial ==> f.startTime.Given? && f.endTime.Given?)
  {
    var t, d, l := TitleProblems(f, partial), DescriptionProblems(f), LocationProblems(f);
    var st, et, ir := PresenceProblem(StartTime, f.startTime, true, partial),
      PresenceProblem(EndTime, f.endTime, true, partial), PresenceProblem(IsRecurring, f.isRecurring, false, partial);
    assert |FieldProblems(f, partial)| == |t| + |d| + |l| + |st| + |et| + |ir|;
  }

  /** A missing title is reported exactly when a full request leaves it
      out, a null one exactly when it is null, a blank one exactly when it
      strips to nothing. */
  lemma TitleReported(f: EventFields, partial: bool)
    ensures FieldRequired(Title) in FieldProblems(f, partial) <==> f.title.Absent? && !partial
    ensures FieldNull(Title) in FieldProblems(f, partial) <==> f.title.Null?
    ensures FieldBlank(Title) in FieldProblems(f, partial) <==> f.title.Given? && Strip(f.title.value) == []
  {
    var t, d, l := TitleProblems(f, partial), DescriptionProblems(f), LocationProblems(f);
    var st, et, ir := PresenceProblem(StartTime, f.startTime, true, partial),
      PresenceProblem(EndTime, f.endTime, true, partial), PresenceProblem(IsRecurring, f.isRecurring, false, partial);
    InConcat(t, d);
    InConcat(t + d, l);
    InConcat(t + d + l, st);
    InConcat(t + d + l + st, et);
    InConcat(t + d + l + st + et, ir);
  }

  /** A missing time is reported exactly when a full request leaves it out;
      a null time or `is_recurring` exactly when it is null; a left-out
      `is_recurring` never. */
  lemma TimesReported(f: EventFields, partial: bool)
    ensures FieldRequired(StartTime) in FieldProblems(f, partial) <==> f.startTime.Absent? && !partial
    ensures FieldRequired(EndTime) in FieldProblems(f, partial) <==> f.endTime.Absent? && !partial
    ensures FieldNull(StartTime) in FieldProblems(f, partial) <==> f.startTime.Null?
    ensures FieldNull(EndTime) in FieldProblems(f, partial) <==> f.endTime.Null?
    ensures FieldNull(IsRecurring) in FieldProblems(f, partial) <==> f.isRecurring.Null?
    ensures FieldRequired(IsRecurring) !in FieldProblems(f, partial)
  {
    var texts := TitleProblems(f, partial) + DescriptionProblems(f) + LocationProblems(f);
    var st, et, ir := PresenceProblem(StartTime, f.startTime, true, partial),
      PresenceProblem(EndTime, f.endTime, true, partial), PresenceProblem(IsRecurring, f.isRecurring, false, partial);
    assert FieldProblems(f, partial) == texts + st + et + ir;
    InConcat(texts + st + et, ir);
    InConcat(texts + st, et);
    InConcat(texts, st);
    InConcat(TitleProblems(f, partial), DescriptionProblems(f));
    InConcat(TitleProblems(f, partial) + DescriptionProblems(f), LocationProblems(f));
    assert forall p :: p in texts ==> Keyed(p) && p.key in {Title, Description, Location};
  }

  lemma InConcat<T>(a: seq<T>, b: seq<T>)
    ensures forall x :: x in a + b <==> x in a || x in b
  {
  }

  /** Python's truth value of the validated rule: a rule holding none of its
      three keys (an empty object sent in a partial update) is an empty,
      false dictionary. */
  predicate RuleTruthy(rd: RuleData)
  {
    rd.frequency.Some? || rd.interval.Some? || !rd.endDate.Absent?
  }

  /** `data.get('recurrence_rule')` is true: a rule was sent and holds a key. */
  predicate HasRule(data: EventData)
  {
    data.rule.Given? && RuleTruthy(data.rule.value)
  }

  /** `EventSerializer.validate`, its checks in the order of the source. */
  function Validate(data: EventData, now: int): (r: Result<EventData, Failure>)
    ensures r.Ok? ==> r.value == data
    ensures r.Err? && r.error.Invalid? ==> |r.error.problems| == 1
    ensures r.Err? && r.error.KeyError? ==> data.fields.startTime.None? || data.fields.endTime.None?
  {
    var f := data.fields;
    if f.startTime.None? then Err(KeyError(StartTime))
    else if f.startTime.value < now then Err(Invalid([StartInPast]))
    else if f.endTime.None? then Err(KeyError(EndTime))
    else if f.endTime.value <= f.startTime.value then Err(Invalid([EndNotAfterStart]))
    else
      var recurring := f.isRecurring == Some(true);
      var hasRule := HasRule(data);
      if recurring && !hasRule then Err(Invalid([RuleRequired]))
      else if !recurring && hasRule then Err(Invalid([RuleNotAllowed]))
      else if recurring && hasRule && data.rule.value.endDate.Given?
              && data.rule.value.endDate.value < DateOf(f.startTime.value) then
        Err(Invalid([EndDateBeforeStart]))
      else Ok(data)
  }

  /** The data `validate` accepts, stated as one condition: both times sent,
      start not in the past, end after start, a non-empty rule exactly when
      the event is recurring (`is_recurring` left out counts as false), and a
      rule end date not before the start date (an equal date passes, a null
      one is not checked). */
  predicate Consistent(data: EventData, now: int)
  {
    var f := data.fields;
    && f.startTime.Some? && f.endTime.Some?
    && now <= f.startTime.value < f.endTime.value
    && ((f.isRecurring == Some(true)) <==> HasRule(data))
    && (HasRule(data) && data.rule.value.endDate.Given? ==>
          data.rule.value.endDate.value >= DateOf(f.startTime.value))
  }

  lemma ValidateAcceptsConsistent(data: EventData, now: int)
    ensures Validate(data, now).Ok? <==> Consistent(data, now)
  {
  }

  /** The checks run in a fixed order, so each problem is reported exactly
      when every earlier check passed and this one failed. */
  lemma ValidateReportsFirstFailure(data: EventData, now: int)
    ensures var f, r := data.fields, Validate(data, now);
      && (r == Err(KeyError(StartTime)) <==> f.startTime.None?)
      && (r == Err(Invalid([StartInPast])) <==> f.startTime.Some? && f.startTime.value < now)
      && (r == Err(KeyError(EndTime)) <==>
            f.startTime.Some? && f.startTime.value >= now && f.endTime.None?)
      && (r == Err(Invalid([EndNotAfterStart])) <==>
            f.startTime.Some? && f.startTime.value >= now && f.endTime.Some?
            && f.endTime.value <= f.startTime.value)
      && (r == Err(Invalid([RuleRequired])) <==>
            f.startTime.Some? && f.endTime.Some? && now <= f.startTime.value < f.endTime.value
            && f.isRecurring == Some(true) && !HasRule(data))
      && (r == Err(Invalid([RuleNotAllowed])) <==>
            f.startTime.Some? && f.endTime.Some? && now <= f.startTime.value < f.endTime.value
            && f.isRecurring != Some(true) && HasRule(data))
      && (r == Err(Invalid([EndDateBeforeStart])) <==>
            f.startTime.Some? && f.endTime.Some? && now <= f.startTime.value < f.endTime.value
            && f.isRecurring == Some(true) && HasRule(data) && data.rule.value.endDate.Given?
            && data.rule.value.endDate.value < DateOf(f.startTime.value))
  {
  }

  /** The whole serializer: the event's fields and the nested rule's
      fields are validated together, every failing field reported; only when
      none fails does `validate` run, on the stripped texts. */
  function ValidateEvent(input: EventInput, now: int, partial: bool): (r: Result<EventData, Failure>)
    ensures r.Ok? ==> FieldProblems(input.fields, partial) == [] && r.value.fields == CleanFields(input.fields)
    ensures r.Ok? ==> Consistent(r.value, now)
    ensures r.Ok? ==> (r.value.rule.Given? <==> input.rule.Given?) && (r.value.rule.Null? <==> input.rule.Null?)
    ensures r.Ok? && input.rule.Given? ==>
      ValidateRuleFields(input.rule.value, DateOf(now), partial) == Ok(r.value.rule.value)
    ensures FieldProblems(input.fields, partial) != [] ==>
      r.Err? && r.error.Invalid? && FieldProblems(input.fields, partial) <= r.error.problems
    ensures input.rule.Given? && ValidateRuleFields(input.rule.value, DateOf(now), partial).Err? ==>
      r == Err(Invalid(FieldProblems(input.fields, partial) + ValidateRuleFields(input.rule.value, DateOf(now), partial).error))
    ensures !partial ==> !(r.Err? && r.error.KeyError?)
  {
    var fieldProblems := FieldProblems(input.fields, partial);
    var clean := CleanFields(input.fields);
    assert fieldProblems == [] && !partial ==> clean.startTime.Some? && clean.endTime.Some? by {
      EventFieldsAccepted(input.fields, partial);
    }
    match input.rule
    case Absent =>
      if fieldProblems != [] then Err(Invalid(fieldProblems))
      else
        var data := EventData(clean, Absent);
        ValidateAcceptsConsistent(data, now);
        Validate(data, now)
    case Null =>
      if fieldProblems != [] then Err(Invalid(fieldProblems))
      else
        var data := EventData(clean, Null);
        ValidateAcceptsConsistent(data, now);
        Validate(data, now)
    case Given(raw) =>
      var rule := ValidateRuleFields(raw, DateOf(now), partial);
      var problems := fieldProblems + (if rule.Err? then rule.error else []);
      if problems != [] then Err(Invalid(problems))
      else
        var data := EventData(clean, Given(rule.value));
        ValidateAcceptsConsistent(data, now);
        Validate(data, now)
  }

  /** A rule object that sends none of its three keys (`{}`, or only keys
      the serializer does not declare): a full request reports its missing
      frequency; a partial one validates it to an empty rule, which
      `validate` treats as no rule at all. */
  lemma EmptyRuleIsNoRule(input: EventInput, now: int)
    requires input.rule == Given(RawRule(Absent, Absent, Absent))
    requires FieldProblems(input.fields, true) == []
    requires input.fields.startTime.Given? && input.fields.endTime.Given?
    requires now <= input.fields.startTime.value < input.fields.endTime.value
    ensures input.fields.isRecurring == Given(true) ==>
      ValidateEvent(input, now, true) == Err(Invalid([RuleRequired]))
    ensures input.fields.isRecurring != Given(true) ==>
      ValidateEvent(input, now, true).Ok? && !HasRule(ValidateEvent(input, now, true).value)
    ensures ValidateEvent(input, now, false) ==
      Err(Invalid(FieldProblems(input.fields, false) + [FrequencyRequired]))
  {
    var rd := RuleData(None, None, Absent);
    assert ValidateRuleFields(input.rule.value, DateOf(now), true) == Ok(rd);
    assert FrequencyProblem(Absent, false) + IntervalProblem(Absent) + EndDateProblem(Absent, DateOf(now))
      == [FrequencyRequired];
    assert !HasRule(EventData(CleanFields(input.fields), Given(rd)));
  }

  /** A full request that the serializer accepts with a rule always has a
      non-empty one, since its frequency is required. */
  lemma FullRuleIsRule(input: EventInput, now: int)
    requires ValidateEvent(input, now, false).Ok?
    ensures var data := ValidateEvent(input, now, false).value;
      data.rule.Given? ==> data.rule.value.frequency.Some? && HasRule(data)
  {
    if input.rule.Given? {
      RuleFieldsAccepted(input.rule.value, DateOf(now), false);
    }
  }

  /** A title the serializer accepts is stripped, not blank and at most 255
      characters long; a location at most 200. */
  lemma AcceptedTextsStripped(input: EventInput, now: int, partial: bool)
    requires ValidateEvent(input, now, partial).Ok?
    ensures var f := ValidateEvent(input, now, partial).value.fields;
      && (f.title.Some? ==> var t := f.title.value;
            && 1 <= |t| <= 255 && Strip(t) == t && !IsSpace(t[0]) && !IsSpace(t[|t| - 1]) && '\0' !in t)
      && (f.location.Given? ==> |f.location.value| <= 200 && Strip(f.location.value) == f.location.value)
      && (f.title.None? ==> partial)
  {
    EventFieldsAccepted(input.fields, partial);
    var f := input.fields;
    if f.title.Given? { StripIdempotent(f.title.value); }
    if f.location.Given? { StripIdempotent(f.location.value); }
  }

  /** A partial update that leaves out `start_time` passes field validation
      but makes `validate` raise a `KeyError`; a full request reports the
      missing field instead. */
  lemma MissingStartTime(input: EventInput, now: int)
    requires input.fields.startTime.Absent?
    requires FieldProblems(input.fields, true) == []
    requires input.rule.Given? ==> ValidateRuleFields(input.rule.value, DateOf(now), true).Ok?
    ensures ValidateEvent(input, now, true) == Err(KeyError(StartTime))
    ensures ValidateEvent(input, now, false).Err? && ValidateEvent(input, now, false).error.Invalid?
    ensures FieldRequired(StartTime) in ValidateEvent(input, now, false).error.problems
  {
    EventFieldsAccepted(input.fields, false);
    TimesReported(input.fields, false);
  }

  /** The rule `create` stores: the validated fields, the column defaults
      for the rest. */
  function RuleOfData(rd: RuleData): (r: RecurrenceRule)
    requires rd.frequency.Some?
    requires rd.interval.Some? ==> rd.interval.value >= 0
    ensures r.frequency == rd.frequency.value && r.endDate == ValueOf(rd.endDate)
    ensures r.interval == (if rd.interval.Some? then rd.interval.value else 1)
    ensures r.weekdays == [] && r.weekday.None? && r.ordinal.None?
  {
    var base := DefaultRule(rd.frequency.value);
    base.(interval := if rd.interval.Some? then rd.interval.value else 1, endDate := ValueOf(rd.endDate))
  }

  /** `create` (with `perform_create` supplying the owner): a rule is created
      and attached only when the validated rule data is true (which, with a
      frequency, it is whenever it was sent); `created_at` and `updated_at`
      are the creation instant; a left-out or null description or location
      is stored as null. What it is given is what a full request's
      validation returns: a title, both times and, with a rule, its
      frequency. */
  function Create(data: EventData, user: nat, id: nat, now: int): (e: Event)
    requires data.fields.title.Some? && data.fields.startTime.Some? && data.fields.endTime.Some?
    requires data.rule.Given? ==> data.rule.value.frequency.Some?
    requires data.rule.Given? && data.rule.value.interval.Some? ==> data.rule.value.interval.value >= 0
    ensures e.recurrenceRule.Some? <==> HasRule(data)
    ensures e.recurrenceRule.Some? <==> data.rule.Given?
    ensures data.rule.Given? ==> e.recurrenceRule == Some(RuleOfData(data.rule.value))
    ensures e.isRecurring <==> data.fields.isRecurring == Some(true)
    ensures e.id == Some(id) && e.user == user && e.title == data.fields.title.value
    ensures e.description == ValueOf(data.fields.description) && e.location == ValueOf(data.fields.location)
    ensures e.startTime == data.fields.startTime.value && e.endTime == data.fields.endTime.value
    ensures e.createdAt == now && e.updatedAt == now
  {
    var f := data.fields;
    var rule := if HasRule(data) then Some(RuleOfData(data.rule.value)) else None;
    Event(Some(id), user, f.title.value, ValueOf(f.description), ValueOf(f.location),
          f.startTime.value, f.endTime.value, f.isRecurring == Some(true), rule, now, now)
  }

  /** The invariant of every event created through the serializer. */
  predicate WellFormed(e: Event)
  {
    && e.startTime < e.endTime
    && (e.isRecurring <==> e.recurrenceRule.Some?)
    && (e.recurrenceRule.Some? ==>
          && 1 <= e.recurrenceRule.value.interval <= MaxInterval
          && (e.recurrenceRule.value.endDate.Some? ==>
                e.recurrenceRule.value.endDate.value >= DateOf(e.startTime)))
  }

  /** A full request the serializer accepts creates a well-formed event with
      a non-blank title that does not start in the past. */
  lemma CreatedEventWellFormed(input: EventInput, user: nat, id: nat, now: int)
    requires ValidateEvent(input, now, false).Ok?
    ensures var data := ValidateEvent(input, now, false).value;
      && data.fields.title.Some? && data.fields.startTime.Some? && data.fields.endTime.Some?
      && (data.rule.Given? ==> data.rule.value.frequency.Some?)
      && (data.rule.Given? && data.rule.value.interval.Some? ==>
            1 <= data.rule.value.interval.value <= MaxInterval)
      && WellFormed(Create(data, user, id, now))
      && Create(data, user, id, now).startTime >= now
      && 1 <= |Create(data, user, id, now).title| <= 255
  {
    var data := ValidateEvent(input, now, false).value;
    EventFieldsAccepted(input.fields, false);
    AcceptedTextsStripped(input, now, false);
    FullRuleIsRule(input, now);
    if input.rule.Given? {
      RuleFieldsAccepted(input.rule.value, DateOf(now), false);
    }
  }
}
