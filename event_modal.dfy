/** The event form (event_frontend/src/components/EventModal.tsx): its
    initial contents, the change handlers, the weekday toggle and the payload
    `handleSubmit` sends.

    The form state is a JavaScript object, modelled as a map from member
    names to JSON-like values; reading an absent member gives `undefined`.
    Sending the payload, the toasts and the time texts' formatting are not
    modelled: the two texts of an instant or a date are parameters.
 */
module EventModal {
  import opened Wrappers
  import opened Text
  import opened Modal

  /** A JavaScript value as the form holds it. */
  datatype Json =
    | JUndefined
    | JNull
    | JBool(b: bool)
    | JNum(n: int)
    | JStr(s: string)
    | JList(items: seq<Json>)
    | JObj(fields: map<string, Json>)

  /** JavaScript truthiness. */
  predicate Truthy(j: Json)
  {
    match j
    case JUndefined => false
    case JNull => false
    case JBool(b) => b
    case JNum(n) => n != 0
    case JStr(s) => s != ""
    case JList(_) => true
    case JObj(_) => true
  }

  /** `o[k]`: `undefined` for an absent member. */
  function Get(o: map<string, Json>, k: string): (j: Json)
    ensures k !in o ==> j == JUndefined
    ensures k in o ==> j == o[k]
  {
    if k in o then o[k] else JUndefined
  }

  /** `a || b`. */
  function Or(a: Json, b: Json): (j: Json)
    ensures Truthy(a) ==> j == a
    ensures !Truthy(a) ==> j == b
  {
    if Truthy(a) then a else b
  }

  const RuleKey: string := "recurrence_rule"

  /** `formData.recurrence_rule`'s members (none when it is not an object). */
  function RuleOf(form: map<string, Json>): map<string, Json>
  {
    match Get(form, RuleKey)
    case JObj(fields) => fields
    case _ => map[]
  }

  function Texts(ss: seq<string>): (js: seq<Json>)
    ensures |js| == |ss| && forall i :: 0 <= i < |ss| ==> js[i] == JStr(ss[i])
  {
    seq(|ss|, i requires 0 <= i < |ss| => JStr(ss[i]))
  }

  /** The state `useState` starts with, for the event being edited (or none,
      for a new event). `timeText` renders an instant for the time inputs,
      `dateText` a date for the end-date input. */
  function InitialForm(selected: Option<Event>, timeText: int -> string, dateText: int -> string): (f: map<string, Json>)
    ensures f.Keys == {"title", "description", "location", "start_time", "end_time", "is_recurring", "recurrence_rule"}
    ensures selected.None? ==>
      && f["title"] == JStr("") && f["description"] == JStr("") && f["location"] == JStr("")
      && f["start_time"] == JStr("") && f["end_time"] == JStr("")
      && f["is_recurring"] == JBool(false)
      && RuleOf(f) == map["frequency" := JStr("WEEKLY"), "interval" := JNum(1), "end_date" := JStr(""),
                          "weekdays" := JList([]), "weekday" := JStr(""), "ordinal" := JNull]
    ensures selected.Some? ==> f["title"] == JStr(selected.value.title) && f["is_recurring"] == JBool(selected.value.isRecurring)
  {
    var e := if selected.Some? then Some(selected.value) else None;
    var title := Or(if e.Some? then JStr(e.value.title) else JUndefined, JStr(""));
    var description := Or(if e.Some? && e.value.description.Some? then JStr(e.value.description.value) else JUndefined, JStr(""));
    var location := Or(if e.Some? && e.value.location.Some? then JStr(e.value.location.value) else JUndefined, JStr(""));
    var start := if e.Some? then JStr(timeText(e.value.startTime)) else JStr("");
    var end := if e.Some? then JStr(timeText(e.value.endTime)) else JStr("");
    var recurring := Or(if e.Some? then JBool(e.value.isRecurring) else JUndefined, JBool(false));
    var rule: Option<ClientRule> := if e.Some? then e.value.recurrenceRule else None;
    Form(title, description, location, start, end, recurring, JObj(InitialRule(rule, dateText)))
  }

  /** The form object with the seven members it is created with. */
  function Form(title: Json, description: Json, location: Json, start: Json, end: Json,
                recurring: Json, rule: Json): (f: map<string, Json>)
    ensures f.Keys == {"title", "description", "location", "start_time", "end_time", "is_recurring", "recurrence_rule"}
    ensures f["title"] == title && f["start_time"] == start && f["end_time"] == end
    ensures f["is_recurring"] == recurring && f["recurrence_rule"] == rule
  {
    map["title" := title, "description" := description, "location" := location,
        "start_time" := start, "end_time" := end, "is_recurring" := recurring,
        "recurrence_rule" := rule]
  }

  /** The initial `recurrence_rule` member: each of the rule's values, or its
      default when the rule or the value is missing or falsy. */
  function InitialRule(rule: Option<ClientRule>, dateText: int -> string): (m: map<string, Json>)
    ensures m.Keys == {"frequency", "interval", "end_date", "weekdays", "weekday", "ordinal"}
    ensures rule.None? ==>
      m == map["frequency" := JStr("WEEKLY"), "interval" := JNum(1), "end_date" := JStr(""),
               "weekdays" := JList([]), "weekday" := JStr(""), "ordinal" := JNull]
    ensures rule.Some? && rule.value.frequency != "" ==> m["frequency"] == JStr(rule.value.frequency)
    ensures rule.Some? && rule.value.interval >= 1 ==> m["interval"] == JNum(rule.value.interval)
    ensures rule.Some? && rule.value.weekdays.Some? ==> m["weekdays"] == JList(Texts(rule.value.weekdays.value))
  {
    map[
      "frequency" := Or(if rule.Some? then JStr(rule.value.frequency) else JUndefined, JStr("WEEKLY")),
      "interval" := Or(if rule.Some? then JNum(rule.value.interval) else JUndefined, JNum(1)),
      "end_date" := Or(if rule.Some? && rule.value.endDate.Some? then JStr(dateText(rule.value.endDate.value)) else JUndefined, JStr("")),
      "weekdays" := Or(if rule.Some? && rule.value.weekdays.Some? then JList(Texts(rule.value.weekdays.value)) else JUndefined, JList([])),
      "weekday" := Or(if rule.Some? && rule.value.weekday.Some? then JStr(rule.value.weekday.value) else JUndefined, JStr("")),
      "ordinal" := Or(if rule.Some? && rule.value.ordinal.Some? then JNum(rule.value.ordinal.value) else JUndefined, JNull)]
  }

  /** The `recurrence_rule` member of the payload. Not recurring: `null`.
      Recurring: frequency, interval and `end_date || null`; then `weekdays`
      for WEEKLY, or `weekday` and `ordinal` for MONTHLY when both are
      truthy. */
  function PayloadRule(form: map<string, Json>): (j: Json)
    ensures !Truthy(Get(form, "is_recurring")) <==> j == JNull
    ensures j != JNull ==> (j.JObj? &&
      var r, p := RuleOf(form), j.fields;
      && {"frequency", "interval", "end_date"} <= p.Keys
      && p["frequency"] == Get(r, "frequency") && p["interval"] == Get(r, "interval")
      && (p["end_date"] == JNull <==> !Truthy(Get(r, "end_date")))
      && (p["end_date"] != JNull ==> p["end_date"] == Get(r, "end_date"))
      && ("weekdays" in p <==> Get(r, "frequency") == JStr("WEEKLY"))
      && ("weekdays" in p ==> p["weekdays"] == Get(r, "weekdays"))
      && ("weekday" in p <==> "ordinal" in p)
      && ("weekday" in p <==>
           Get(r, "frequency") == JStr("MONTHLY") && Truthy(Get(r, "weekday")) && Truthy(Get(r, "ordinal")))
      && ("weekday" in p ==> p["weekday"] == Get(r, "weekday") && p["ordinal"] == Get(r, "ordinal"))
      && p.Keys <= {"frequency", "interval", "end_date", "weekdays", "weekday", "ordinal"})
  {
    if !Truthy(Get(form, "is_recurring")) then JNull
    else
      var r := RuleOf(form);
      var base := map["frequency" := Get(r, "frequency"), "interval" := Get(r, "interval"),
                      "end_date" := Or(Get(r, "end_date"), JNull)];
      if Get(r, "frequency") == JStr("WEEKLY") then JObj(base["weekdays" := Get(r, "weekdays")])
      else if Get(r, "frequency") == JStr("MONTHLY") && Truthy(Get(r, "weekday")) && Truthy(Get(r, "ordinal")) then
        JObj(base["weekday" := Get(r, "weekday")]["ordinal" := Get(r, "ordinal")])
      else JObj(base)
  }

  /** `handleSubmit`'s data: the form with its `recurrence_rule` replaced. */
  method HandleSubmit(form: map<string, Json>) returns (data: map<string, Json>)
    ensures data.Keys == form.Keys + {RuleKey}
    ensures data[RuleKey] == PayloadRule(form)
    ensures forall k :: k in form && k != RuleKey ==> data[k] == form[k]
  {
    var recurrenceRule := JNull;
    if Truthy(Get(form, "is_recurring")) {
      var r := RuleOf(form);
      var fields := map["frequency" := Get(r, "frequency"), "interval" := Get(r, "interval"),
                        "end_date" := Or(Get(r, "end_date"), JNull)];
      if Get(r, "frequency") == JStr("WEEKLY") {
        fields := fields["weekdays" := Get(r, "weekdays")];
      } else if Get(r, "frequency") == JStr("MONTHLY") {
        if Truthy(Get(r, "weekday")) && Truthy(Get(r, "ordinal")) {
          fields := fields["weekday" := Get(r, "weekday")];
          fields := fields["ordinal" := Get(r, "ordinal")];
        }
      }
      recurrenceRule := JObj(fields);
    }
    data := form[RuleKey := recurrenceRule];
  }

  /** A form opened on an event and submitted unchanged sends back the
      event's frequency and interval, and for WEEKLY its weekday codes. */
  lemma UnchangedFormResubmitsRule(e: Event, timeText: int -> string, dateText: int -> string)
    requires e.isRecurring && e.recurrenceRule.Some?
    requires e.recurrenceRule.value.frequency != "" && e.recurrenceRule.value.interval >= 1
    ensures var p := PayloadRule(InitialForm(Some(e), timeText, dateText));
      var r := e.recurrenceRule.value;
      && p.JObj? && p.fields["frequency"] == JStr(r.frequency) && p.fields["interval"] == JNum(r.interval)
      && (r.frequency == "WEEKLY" && r.weekdays.Some? ==> p.fields["weekdays"] == JList(Texts(r.weekdays.value)))
  {
    var f := InitialForm(Some(e), timeText, dateText);
    assert Get(f, "is_recurring") == JBool(true);
  }

  const RulePrefix: string := "recurrence_rule."

  predicate IsRuleField(name: string)
  {
    |name| >= |RulePrefix| && name[..|RulePrefix|] == RulePrefix
  }

  /** `handleChange`: a "recurrence_rule.K" input sets member K of the rule
      (K is the text up to the next '.'); any other input sets the member it
      is named after. The value is the input's text. */
  function HandleChange(form: map<string, Json>, name: string, value: string): map<string, Json>
  {
    if IsRuleField(name) then
      var key := SplitHead(name[|RulePrefix|..], '.');
      form[RuleKey := JObj(RuleOf(form)[key := JStr(value)])]
    else form[name := JStr(value)]
  }

  /** A change of rule member `key` updates that member only. */
  lemma {:induction false} ChangeRuleMember(form: map<string, Json>, key: string, rest: string, value: string)
    requires '.' !in key
    ensures var name := if rest == "" then RulePrefix + key else RulePrefix + key + "." + rest;
      var f := HandleChange(form, name, value);
      && f.Keys == form.Keys + {RuleKey}
      && (forall k :: k in form && k != RuleKey ==> f[k] == form[k])
      && RuleOf(f) == RuleOf(form)[key := JStr(value)]
  {
    var name := if rest == "" then RulePrefix + key else RulePrefix + key + "." + rest;
    assert name[..|RulePrefix|] == RulePrefix;
    if rest == "" {
      assert name[|RulePrefix|..] == key;
      SplitHeadOfKey(key);
    } else {
      assert name[|RulePrefix|..] == key + ['.'] + rest;
      SplitHeadOfPrefix(key, '.', rest);
    }
  }

  lemma {:induction false} SplitHeadOfKey(key: string)
    requires '.' !in key
    ensures SplitHead(key, '.') == key
  {
    if key != [] {
      SplitHeadOfKey(key[1..]);
    }
  }

  /** Any other input updates its own member only. */
  lemma ChangeTopLevel(form: map<string, Json>, name: string, value: string)
    requires !IsRuleField(name)
    ensures var f := HandleChange(form, name, value);
      && f.Keys == form.Keys + {name} && f[name] == JStr(value)
      && forall k :: k in form && k != name ==> f[k] == form[k]
  {
  }

  /** `handleCheckbox`: only `is_recurring` changes. */
  function HandleCheckbox(form: map<string, Json>, checked: bool): (f: map<string, Json>)
    ensures f.Keys == form.Keys + {"is_recurring"} && f["is_recurring"] == JBool(checked)
    ensures forall k :: k in form && k != "is_recurring" ==> f[k] == form[k]
  {
    form["is_recurring" := JBool(checked)]
  }

  /** `list.filter(x => x !== day)`. */
  function Without<T(==)>(days: seq<T>, day: T): (r: seq<T>)
    ensures |r| <= |days|
  {
    if days == [] then []
    else (if days[0] == day then [] else [days[0]]) + Without(days[1..], day)
  }

  /** The filtered list holds every element but `day`, and no `day`. */
  lemma {:induction false} WithoutMembers<T>(days: seq<T>, day: T)
    ensures day !in Without(days, day)
    ensures forall x :: x != day ==> (x in Without(days, day) <==> x in days)
  {
    if days != [] {
      WithoutMembers(days[1..], day);
      assert days == [days[0]] + days[1..];
    }
  }

  /** Filtering keeps the order of what it keeps. */
  lemma {:induction false} WithoutConcat<T>(a: seq<T>, b: seq<T>, day: T)
    ensures Without(a + b, day) == Without(a, day) + Without(b, day)
  {
    if a != [] {
      assert (a + b)[1..] == a[1..] + b;
      WithoutConcat(a[1..], b, day);
    } else {
      assert a + b == b;
    }
  }

  lemma {:induction false} WithoutAbsent<T>(days: seq<T>, day: T)
    requires day !in days
    ensures Without(days, day) == days
  {
    if days != [] {
      WithoutAbsent(days[1..], day);
      assert days == [days[0]] + days[1..];
    }
  }

  /** `formData.recurrence_rule.weekdays || []`, for a list value. */
  function CurrentWeekdays(form: map<string, Json>): seq<Json>
  {
    match Get(RuleOf(form), "weekdays")
    case JList(items) => items
    case _ => []
  }

  /** The new list of `handleWeekdayToggle`: a present day is removed
      everywhere it occurs, an absent one appended at the end. */
  function Toggle(days: seq<Json>, day: string): (r: seq<Json>)
    ensures JStr(day) in days ==> JStr(day) !in r && forall x :: x != JStr(day) ==> (x in r <==> x in days)
    ensures JStr(day) !in days ==> r == days + [JStr(day)]
  {
    WithoutMembers(days, JStr(day));
    if JStr(day) in days then Without(days, JStr(day)) else days + [JStr(day)]
  }

  /** Toggling an absent day twice restores the list; toggling a present day
      twice moves it, once, to the end. */
  lemma ToggleTwice(days: seq<Json>, day: string)
    ensures JStr(day) !in days ==> Toggle(Toggle(days, day), day) == days
    ensures JStr(day) in days ==> Toggle(Toggle(days, day), day) == Without(days, JStr(day)) + [JStr(day)]
  {
    if JStr(day) !in days {
      WithoutConcat(days, [JStr(day)], JStr(day));
      WithoutAbsent(days, JStr(day));
    }
  }

  /** `handleWeekdayToggle(day)`: the rule's `weekdays` replaced by the
      toggled list; nothing else changes. */
  function HandleWeekdayToggle(form: map<string, Json>, day: string): (f: map<string, Json>)
    ensures f.Keys == form.Keys + {RuleKey}
    ensures forall k :: k in form && k != RuleKey ==> f[k] == form[k]
    ensures RuleOf(f) == RuleOf(form)["weekdays" := JList(Toggle(CurrentWeekdays(form), day))]
  {
    form[RuleKey := JObj(RuleOf(form)["weekdays" := JList(Toggle(CurrentWeekdays(form), day))])]
  }
}
