# Event scheduler: a Dafny model

This project models the core logic of an event scheduler. The scheduler has
two halves: a Django REST server (`event_scheduler/events`) and a React client
(`event_frontend/src`), with each part modelled in its own source file's terms.

The server side covers:

- **Models** (`models.dfy`): the stored rule and event, their `__str__`
  renderings and the default ordering by start time.
- **Serializers** (`serializers.dfy`):
  - the field validation of the event's own fields (required, null, blank,
    `max_length`, white space stripped; a `partial` flag for PATCH) and of
    the nested rule serializer (the interval's range 0..2147483647 among
    them). Every key is left out, sent as `null`, or sent with a value;
  - the ordered checks of `EventSerializer.validate`, which judge the
    validated rule by Python truthiness: an empty rule object counts as none;
  - `create`, which attaches a rule only when the validated rule data is true.
- **Views** (`views.dfy`):
  - `expand_recurring_event`: the keyword arguments it builds for dateutil's
    `rrule`, the window filter, the duration copied to each instance and the
    swallowed `ValueError`. As written, reading the rule's weekday members
    raises an `AttributeError` for every WEEKLY and MONTHLY rule (see
    "Findings"); the intended day part, with the `KeyError` for an unknown
    weekday code, is modelled beside it;
  - `get_queryset`: the loop over the user's ordered events, the fallback to
    the unexpanded list, and the final sort;
  - `EventRetrieveUpdateView.update`: the serializer's validation of the
    request (partial for PATCH), then its own extra checks.

The client side covers:

- **CalendarView** (`calendar_view.dfy`):
  - `expandRecurringEvents`: the `ruleOptions` it builds for rrule.js
    (`until`, `interval || 1`, weekday mapping and filtering, the n-th
    weekday), the month window, and the entries it pushes;
  - the id parsing of `handleSelectEvent`;
  - the "closed" test of `eventPropGetter`;
  - what the component renders for each state of the events query.
- **Modal and auth stores** (`modal_store.dfy`, `auth_store.dfy`): the
  zustand stores as classes whose methods are specified by functions on
  their state. `localStorage` is a `map<string, string>`.
- **Auth and events hooks** (`use_auth.dfy`, `use_events.dfy`):
  - `login`, `logout` and `refreshToken` as step sequences over the store and
    the storage;
  - `fetchEvents` and its one-refresh, one-retry policy.
- **EventModal** (`event_modal.dfy`): the initial form, the change
  handlers, the weekday toggle and the payload of `handleSubmit`.
- **Dashboard** (`dashboard.dfy`): the total, upcoming, ongoing and past
  counts, the three listed upcoming events, and what the component renders
  for each state of the events query.

Both halves hand date generation to an rrule library. Module RRule
(`rrule.dfy`) stands in for it. It covers the part of the RECUR value type
(section 3.3.10 of RFC 5545) that the code uses:

- FREQ, INTERVAL, UNTIL, BYDAY (also with an ordinal) and BYSETPOS;
- DTSTART is produced only when it matches the rule;
- weeks start on Monday;
- a month without DTSTART's day is skipped.

The occurrences are characterised pointwise. An instant is an occurrence
exactly when all of these hold:

- its date matches the rule;
- it has DTSTART's time of day;
- it lies between DTSTART and UNTIL.

The stream is strictly increasing. Instants are integer milliseconds in UTC,
and dates are day numbers (see `calendar.dfy`). Calendar dates are computed
with Hinnant's days-to-civil algorithm. `text.dfy` holds decimal rendering and
JavaScript's `parseInt`.

Inputs that come from outside the code are parameters:

- the clock (`now`);
- the shown month;
- the server's replies and the database contents;
- the formatting of times as text.

Two details of the schema differ from what the code reads:

- **Weekday columns.** The schema migrations add `weekdays`, `weekday` and
  `ordinal` as columns of the rule table, but the model class in `models.py`
  declares none of them. A rule instance therefore has no such attributes,
  and the expansion raises when it reads them (`Views.ServerDayRule`). The
  rule datatype carries the three members for the client, whose type
  declares them as optional members, and for the intended expansion
  (`Views.IntendedServerDayRule`).
- **Rule serializer fields.** The serializer exposes only `frequency`,
  `interval` and `end_date` (`serializers.py:15`). A created rule therefore
  never has weekday data (`Serializers.RuleOfData`).

## Model

| member | source | states |
|---|---|---|
| Models.FrequencyOfCode | event_scheduler/events/models.py:9-19 | a text maps to a choice only when it is that choice's stored code |
| Models.FrequencyCodeRoundTrip | event_scheduler/events/models.py:9-19 | each of DAILY, WEEKLY, MONTHLY, YEARLY is read back from its code |
| Models.DefaultRule | event_scheduler/events/models.py:20-28 | a rule given only its frequency has interval 1, no end date and no weekday data |
| Models.RuleTextParses | event_scheduler/events/models.py:30-31 | in "{frequency} every {interval} period(s), ends {end_date or 'never'}" the first word reads back as the frequency and the number after "every" as the interval; the text ends in a digit exactly when there is an end date |
| Models.RuleTextDistinguishes | event_scheduler/events/models.py:30-31 | two rules that render alike agree on frequency, interval and whether they end |
| Models.EventTextTitle | event_scheduler/events/models.py:83-84 | the title is recovered from "{title} ({start_time})" whatever it contains, because the time text holds no parenthesis |
| Models.SortByStart | event_scheduler/events/models.py:86-87 | the result is ordered by start time and is a permutation of the input |
| Models.InsertByStartSorted | event_scheduler/events/models.py:86-87 | inserting by start time keeps a list ordered by start time |
| Serializers.ValidateEndDate | event_scheduler/events/serializers.py:30-32 | rejected exactly when a date is given and lies before today; a null date passes unchanged |
| Serializers.ValidateInterval | event_scheduler/events/serializers.py:47-48 | accepted exactly when the interval is at least 1, and then unchanged |
| Serializers.RuleFieldsAccepted | event_scheduler/events/serializers.py:15-49 | the rule fields pass exactly when the frequency is a choice (left out only in a partial request), a sent interval lies from 1 to 2147483647 and a sent end date is not before today; null is refused for frequency and interval only; the accepted rule carries the sent frequency, interval and end date |
| Serializers.RuleProblemsReported | event_scheduler/events/serializers.py:15-49 | a rejection of the rule fields names exactly the failing fields, each with its reason: frequency required, null or not a choice; interval null, below 0, above the maximum or not positive; end date in the past |
| Serializers.TextProblems | event_scheduler/events/models.py:46-60 | a sent text passes exactly when, stripped, it is not blank (where blank is not allowed), within `max_length` and free of U+0000; blank is reported exactly when not allowed and the text strips to nothing |
| Serializers.TitleProblems | event_scheduler/events/models.py:46-49 | a left-out title is reported exactly on a full request, a null one always, a blank one exactly when it strips to nothing; every problem names the title |
| Serializers.EventFieldsAccepted | event_scheduler/events/models.py:46-70 | the event fields pass exactly when the title is sent (or the request is partial) and is non-blank and at most 255 characters, the location at most 200, no text holds U+0000, none of title, times and `is_recurring` is null, and a full request sends both times |
| Serializers.TitleReported | event_scheduler/events/models.py:46-49 | among all field problems, a missing title is reported exactly when a full request leaves it out, a null one exactly when null is sent, a blank one exactly when it strips to nothing |
| Serializers.TimesReported | event_scheduler/events/models.py:61-70 | among all field problems, a missing start or end time is reported exactly when a full request leaves it out; a null time or `is_recurring` exactly when null is sent; a left-out `is_recurring` never |
| Serializers.AcceptedTextsStripped | event_scheduler/events/models.py:46-60 | an accepted title is stripped, non-blank and 1..255 characters long; an accepted location is stripped and at most 200 long; only a partial request may leave the title out |
| Serializers.MissingStartTime | event_scheduler/events/serializers.py:58-80 | leaving out `start_time` gives the `KeyError` of line 80 on a partial update and a "required" problem on a full request |
| Serializers.PresenceProblem | event_scheduler/events/models.py:61-70 | a column without null refuses a null value always and a left-out one exactly in a full request when it has no default; every problem names the field |
| Serializers.EmptyRuleIsNoRule | event_scheduler/events/serializers.py:86-92 | a rule object sending none of `frequency`, `interval`, `end_date`: a full request reports the missing frequency; a partial one with `is_recurring` true is refused as lacking a rule, otherwise accepted with no true rule |
| Serializers.FullRuleIsRule | event_scheduler/events/serializers.py:86-92 | a rule accepted in a full request always has its frequency and so is true |
| Text.Strip | event_scheduler/events/models.py:46-60 | `str.strip()`: empty exactly for an all-white-space text, otherwise starting and ending with a non-space; a text without white space at its ends is unchanged |
| Text.StripSlice | event_scheduler/events/models.py:46-60 | `str.strip()` removes only white space, and only at the two ends: the result is a slice of the text with nothing but white space before and after it |
| Text.StripIdempotent | event_scheduler/events/models.py:46-60 | stripping a stripped text changes nothing |
| Serializers.Validate | event_scheduler/events/serializers.py:80-103 | accepted data is returned unchanged; a rejection reports exactly one problem; a `KeyError` only when a time is missing |
| Serializers.ValidateAcceptsConsistent | event_scheduler/events/serializers.py:80-103 | accepted exactly when both times are sent, now <= start < end, the rule is true (sent and holding at least one key) exactly when recurring (a missing `is_recurring` counts as false), and a sent rule end date is not before the start date (equal passes, null is not checked) |
| Serializers.ValidateReportsFirstFailure | event_scheduler/events/serializers.py:80-101 | each of the start, end, rule-required, rule-not-allowed and end-date-before-start problems is reported exactly when every earlier check passed and this one failed, with the rule judged by its truth value |
| Serializers.ValidateEvent | event_scheduler/events/serializers.py:52-103 | every field problem is reported, followed by the rule's; only without any does `validate` run, on the stripped texts, and accepted data satisfies `Consistent`; the validated rule is what the rule fields return; the result has a rule exactly when one was sent; a full request never meets the `KeyError` |
| Serializers.RuleOfData | event_scheduler/events/serializers.py:115-119 | the stored rule has the validated frequency, the sent end date (none when left out or null), the sent interval or the default 1, and no weekday data |
| Serializers.Create | event_scheduler/events/serializers.py:115-121 | the event has a rule exactly when the validated rule data is true, which with its required frequency is exactly when rule data was sent; it copies every sent field (a left-out or null description or location is stored as null), the owner and the creation time |
| Serializers.CreatedEventWellFormed | event_scheduler/events/serializers.py:65-121 | an accepted full request creates an event with start < end, a rule exactly when recurring, an interval from 1 to 2147483647, an end date not before the start date, and a start not in the past |
| Calendar.WeekdayOfCode | event_scheduler/events/views.py:80-88 | a code has a weekday exactly when it is one of MON..SUN, and then it is that weekday's own code |
| Calendar.WeekdayCodeRoundTrip | event_scheduler/events/views.py:80-88 | every weekday is read back from its three-letter code |
| Views.WeekdaysOfCodes | event_scheduler/events/views.py:100 | succeeds exactly when every code is known, mapping codes to weekdays position by position; otherwise raises on an unknown code of the list |
| Views.ServerDayRule | event_scheduler/events/views.py:98-105 | as written: every WEEKLY rule raises the `AttributeError` for `weekdays` and every MONTHLY rule the one for `weekday`, since the model declares neither; DAILY and YEARLY rules get no day part |
| Views.IntendedServerDayRule | event_scheduler/events/views.py:98-105 | as meant: WEEKLY with a non-empty list gives BYDAY from the list; MONTHLY with truthy weekday and ordinal gives BYDAY plus BYSETPOS; otherwise no day part; an unknown code raises the `KeyError` naming it |
| Views.WholeSecond | event_scheduler/events/views.py:93 | dateutil keeps DTSTART to the whole second: the start of the second that holds the instant, on the same date |
| Views.ServerOptions | event_scheduler/events/views.py:90-96 | DTSTART is the event's start kept to the whole second and the interval is the rule's; UNTIL is the rule's end date (at midnight) when set, otherwise the window's end date |
| Views.Instance | event_scheduler/events/views.py:110-127 | an instance starts at the occurrence, lasts as long as the event, is not recurring, is unsaved and copies owner, title, description, location and timestamps |
| Views.InstancesInMembers | event_scheduler/events/views.py:113-128 | the kept instances are exactly those of occurrences whose date is in the window |
| Views.InstancesInIncreasing | event_scheduler/events/views.py:113-128 | instances of an increasing occurrence stream come in strictly increasing start order |
| Views.ExpandRecurringEvent | event_scheduler/events/views.py:69-131 | the loop's result equals the expansion: the error raised before the `try`, no instances when the library refuses the options, or the window's instances |
| Views.ExpansionCharacterized | event_scheduler/events/views.py:98-131 | as written only DAILY and YEARLY rules expand; then an instance is produced exactly when it is at a matching date, at the time of day of the start kept to the second, between that DTSTART and UNTIL and inside the window, and instances come in increasing start order |
| Views.InstancesCharacterized | event_scheduler/events/views.py:107-131 | for a day part that does not raise: an instance exactly for each occurrence in the window, copying the event at that start, in increasing start order |
| Views.IntendedExpansionCharacterized | event_scheduler/events/views.py:98-131 | as meant, the same characterisation for every frequency, with the day part built from the weekday columns |
| Views.OwnedBy | event_scheduler/events/views.py:42 | exactly the events of the user |
| Views.OrderedOwnedMembers | event_scheduler/events/views.py:42 | ordering the user's events keeps exactly the user's events |
| Views.CollectRaisedStays | event_scheduler/events/views.py:57-60 | once an expansion raises, the whole listing raises that error |
| Views.CollectWindow | event_scheduler/events/views.py:56-62 | the loop's result equals the collected listing over all events |
| Views.CollectMembers | event_scheduler/events/views.py:57-62 | a saved row is exactly a non-expanded event starting in the window; an unsaved row is an instance of an expanded event |
| Views.CollectRaisesOnDayRule | event_scheduler/events/views.py:57-60 | the loop raises exactly when the list holds a recurring WEEKLY or MONTHLY event with a rule, and what it raises is the `AttributeError` for `weekdays` or `weekday` |
| Views.WindowedListingRaises | event_scheduler/events/views.py:48-60 | with both dates the listing raises exactly when the user owns such an event, so the request ends in a server error |
| Views.GetQueryset | event_scheduler/events/views.py:35-67 | the method's result equals the listing of the user's events for the parameters |
| Views.UnwindowedListing | event_scheduler/events/views.py:42-67 | without both dates, or with a malformed one, the rows are the user's events ordered by start time, unexpanded |
| Views.WindowedRows | event_scheduler/events/views.py:64-66 | the windowed rows are the collected rows, sorted by start time |
| Views.WindowedListing | event_scheduler/events/views.py:48-66 | the windowed rows are sorted; a saved event is listed exactly when it is the user's, not expanded and starts in the window; every other row is an in-window instance of one of the user's expanded events |
| Views.Update | event_scheduler/events/views.py:157-190 | the update is rejected exactly when the serializer (partial or full) rejects the request, with its failure; an accepted update uses each validated value or else the stored one, counts a sent rule only when it is true, has start < end, and has a rule when recurring |
| Views.UpdateTimeCheckUnreachable | event_scheduler/events/views.py:166-174 | the update's own time check never fires, because validate already requires both times in order |
| Views.UpdateRuleCheckFires | event_scheduler/events/views.py:178-186 | a stored recurring event updated by PATCH without `is_recurring` and with a null or empty rule object passes the serializer and is refused with 400 |
| RRule.OccurrencesCharacterized | event_scheduler/events/views.py:108-113 | an instant is an occurrence exactly when its date matches, it has DTSTART's time of day and it lies in [DTSTART, UNTIL]; the stream is strictly increasing |
| RRule.Between | event_frontend/src/components/CalendarView.tsx:91 | `between(after, before, true)` keeps exactly the occurrences in the closed interval |
| RRule.MonthlySetPosSameOccurrences | event_scheduler/events/views.py:103-105 | MONTHLY BYDAY=w;BYSETPOS=n (server) and BYDAY=nw (client) give the same occurrences |
| RRule.DailyOccurrences | event_scheduler/events/views.py:91-96 | DAILY occurrences are exactly DTSTART plus a whole multiple of INTERVAL days, up to UNTIL |
| CalendarView.MonthFirstInstant | event_frontend/src/components/CalendarView.tsx:22 | midnight of the first day of the shown month |
| CalendarView.MonthLastInstant | event_frontend/src/components/CalendarView.tsx:23 | the last millisecond of the shown month's last day |
| CalendarView.ClientInterval | event_frontend/src/components/CalendarView.tsx:34 | `interval || 1`: an interval of 0 becomes 1, any other interval is kept, so the result is at least 1 |
| CalendarView.ClientUntil | event_frontend/src/components/CalendarView.tsx:29-33 | the rule's end date (its midnight) when that lies after now, and the end of the shown month otherwise |
| CalendarView.ClientFreq | event_frontend/src/components/CalendarView.tsx:37-88 | DAILY, WEEKLY and MONTHLY set their frequency; any other code (YEARLY among them) leaves it unset |
| CalendarView.KnownWeekdays | event_frontend/src/components/CalendarView.tsx:44-65 | the weekdays are exactly those of known codes; with only known codes, one per code, position by position |
| CalendarView.KnownWeekdaysConcat | event_frontend/src/components/CalendarView.tsx:44-65 | mapping and filtering two lists in a row is doing each in turn, so the kept weekdays keep the order of their codes |
| CalendarView.ClientWeekdays | event_frontend/src/components/CalendarView.tsx:43-65 | the WEEKLY list with unknown codes dropped |
| CalendarView.ClientDayRule | event_frontend/src/components/CalendarView.tsx:37-88 | WEEKLY with a weekday list gives BYDAY from the list, unknown codes dropped; MONTHLY with truthy weekday and ordinal gives the n-th weekday for a known code and throws exactly for an unknown one; anything else gives no day part |
| CalendarView.ClientSeries | event_frontend/src/components/CalendarView.tsx:27-88 | the options carry the frequency, the event's start, `interval \|\| 1`, the chosen `until` and the day part |
| CalendarView.EventEntries | event_frontend/src/components/CalendarView.tsx:25-113 | throws exactly when a recurring event with a rule has a day part that throws; an event that is not recurring or has no rule gives exactly its own entry |
| CalendarView.OccurrenceEntriesAt | event_frontend/src/components/CalendarView.tsx:93-105 | the i-th entry is the entry of the i-th occurrence |
| CalendarView.PushOccurrences | event_frontend/src/components/CalendarView.tsx:93-105 | the loop appends one entry per occurrence, in order |
| CalendarView.ExpandRecurringEvents | event_frontend/src/components/CalendarView.tsx:20-118 | the loop's result equals the expansion of all events for the shown month, the first thrown error ending it |
| CalendarView.ConcatMembers | event_frontend/src/components/CalendarView.tsx:25-115 | a successful concatenation holds exactly the entries of the events |
| CalendarView.ConcatEntries | event_frontend/src/components/CalendarView.tsx:25-115 | concatenating the events' entries in order succeeds exactly when every event's succeeds |
| CalendarView.Expansion | event_frontend/src/components/CalendarView.tsx:25-115 | the expansion succeeds exactly when every event's entries do |
| CalendarView.ExpansionMembers | event_frontend/src/components/CalendarView.tsx:25-115 | an entry is shown exactly when it is an entry of one of the events |
| CalendarView.OccurrenceEntriesMembers | event_frontend/src/components/CalendarView.tsx:93-105 | an entry is produced exactly when it is the entry of one of the occurrences |
| CalendarView.PlainEventOneEntry | event_frontend/src/components/CalendarView.tsx:106-113 | a non-recurring or rule-less event gives one entry, with its own id, start and end, in every month |
| CalendarView.RecurringEntriesInMonth | event_frontend/src/components/CalendarView.tsx:90-105 | every recurring entry is an occurrence's entry inside the shown month, for any frequency |
| CalendarView.RecurringEntries | event_frontend/src/components/CalendarView.tsx:90-105 | for DAILY, WEEKLY and MONTHLY an entry is shown exactly when its date matches, it has the event's time of day, lies between start and `until` and inside the month |
| CalendarView.EntryFacts | event_frontend/src/components/CalendarView.tsx:94-113 | each entry points to its event, carries its title and lasts as long as the event; the id is numeric exactly for unexpanded events |
| CalendarView.SelectedId | event_frontend/src/components/CalendarView.tsx:126-129 | a numeric id is used as it is; a text id is parsed up to its first '-' |
| CalendarView.OccurrenceIdRoundTrip | event_frontend/src/components/CalendarView.tsx:99 | parsing "{id}-{ms}" up to the first '-' gives back the event's id, for negative instants as well |
| Text.ParseInt | event_frontend/src/components/CalendarView.tsx:128 | `parseInt` gives a number exactly when a digit comes first, after at most one sign |
| Text.ParseIntValue | event_frontend/src/components/CalendarView.tsx:128 | `parseInt` of a text that starts with a run of digits is the value of that whole run, whatever non-digit text follows |
| Text.ParseIntOfIntText | event_frontend/src/components/CalendarView.tsx:128 | `parseInt(String(i) + rest)` is `i` for every integer `i`, negative ones included, when `rest` does not start with a digit |
| CalendarView.FindById | event_frontend/src/components/CalendarView.tsx:130 | the first event with the id, or none exactly when no event has it |
| CalendarView.SelectFindsOriginal | event_frontend/src/components/CalendarView.tsx:122-131 | with distinct event ids, selecting any shown entry finds the event it was made from |
| CalendarView.HandleSelectEvent | event_frontend/src/components/CalendarView.tsx:122-132 | opens the dialog on the event found; leaves the store unchanged when none is |
| CalendarView.ClosedSeriesRunsToMonthEnd | event_frontend/src/components/CalendarView.tsx:147-151 | a series shown closed is still expanded to the end of the month; a series whose end date is ahead is not closed and stops at that date |
| CalendarView.IsClosed | event_frontend/src/components/CalendarView.tsx:142-151 | a recurring event with an end date is closed exactly when that date's midnight has passed; any other event exactly when its end time has |
| CalendarView.CalendarRender | event_frontend/src/components/CalendarView.tsx:12-17 | as written: the loading text while pending, an empty month after a failed request, and a TypeError from `flatMap` of `undefined` exactly once the flat list has loaded |
| CalendarView.IntendedCalendarRender | event_frontend/src/components/CalendarView.tsx:17-166 | given the pages it reads: the loading text while pending, an empty month after a failed request, and once loaded the calendar of every fetched event |
| CalendarView.Shown | event_frontend/src/components/CalendarView.tsx:20-115 | the calendar succeeds exactly when every event's entries do, and then shows the expansion of all events; otherwise it fails with the error the expansion throws |
| CalendarView.CalendarNeverShowsEntries | event_frontend/src/components/CalendarView.tsx:17 | as written no entry is ever shown; given the same events as one page, every event that is not a series is shown |
| Modal.InitialModal | event_frontend/src/store/modalStore.ts:29-30 | closed, nothing selected |
| Modal.Opened | event_frontend/src/store/modalStore.ts:31 | open, and the selection is the given event (possibly null) |
| Modal.ModalStore.constructor | event_frontend/src/store/modalStore.ts:28-30 | the store starts in the initial state |
| Modal.ModalStore.OpenModal | event_frontend/src/store/modalStore.ts:31 | the new state is the opened state, whatever came before |
| Modal.ModalStore.CloseModal | event_frontend/src/store/modalStore.ts:32 | the new state is the initial one whatever came before: closed, nothing selected; closing twice is closing once |
| Auth.Initial | event_frontend/src/store/authStore.ts:14-16 | the tokens are the stored ones; authenticated exactly when a non-empty access token is stored |
| Auth.WithTokens | event_frontend/src/store/authStore.ts:17-22 | both tokens replaced, authenticated exactly when the access token is non-empty, storage untouched |
| Auth.WithAuthenticated | event_frontend/src/store/authStore.ts:23 | only the flag changes |
| Auth.WithoutTokens | event_frontend/src/store/authStore.ts:25-26 | both token keys gone, every other item kept |
| Auth.LoggedOut | event_frontend/src/store/authStore.ts:24-28 | both keys removed, both tokens null, not authenticated |
| Auth.LoggedOutMirrors | event_frontend/src/store/authStore.ts:24-28 | logout leaves store and storage in agreement, and is idempotent |
| Auth.SetTokensAloneDiverges | event_frontend/src/store/authStore.ts:17-22 | `setTokens` alone breaks agreement with the storage when the access token is not the stored one |
| Auth.AuthStore.constructor | event_frontend/src/store/authStore.ts:13-16 | the store starts in the state read from the storage |
| Auth.AuthStore.SetTokens | event_frontend/src/store/authStore.ts:17-22 | the new state is the old one with the tokens set |
| Auth.AuthStore.SetAuthenticated | event_frontend/src/store/authStore.ts:23 | the new state is the old one with the flag set |
| Auth.AuthStore.Logout | event_frontend/src/store/authStore.ts:24-28 | the new state is the logged-out state |
| Auth.StoredTokensMirror | event_frontend/src/hooks/useAuth.ts:36-38 | storing both tokens and then setting them keeps store and storage in agreement |
| UseAuth.FetchCurrentUser | event_frontend/src/hooks/useAuth.ts:19-27 | the reply's body, or its error rethrown |
| UseAuth.Login | event_frontend/src/hooks/useAuth.ts:29-50 | the result and the new state are those of the login sequence: tokens stored and set after a token reply, nothing changed after a failed one |
| UseAuth.LoginNeverResolves | event_frontend/src/hooks/useAuth.ts:29-50 | login always rejects (with `setUser`'s TypeError when both replies succeed); after a token reply the store agrees with the storage; after a failed one nothing changed |
| UseAuth.LogoutsAgree | event_frontend/src/hooks/useAuth.ts:52-58 | the hook's logout leaves exactly the store's logged-out state |
| UseAuth.Logout | event_frontend/src/hooks/useAuth.ts:52-58 | clears storage and store, then throws `setUser`'s TypeError |
| UseAuth.RefreshToken | event_frontend/src/hooks/useAuth.ts:60-80 | the new state and the result are the refresh outcome of the old state: every path reaches the `catch` |
| UseAuth.RefreshEndsLoggedOut | event_frontend/src/hooks/useAuth.ts:60-80 | whatever the replies, the refresh ends logged out, with store and storage in agreement, and rejects with `setUser`'s TypeError, never "Session expired" |
| UseAuth.RefreshNeverSucceeds | event_frontend/src/hooks/useAuth.ts:60-80 | where the intended refresh resolves with the new token, the code as written rejects and logs out |
| UseAuth.IntendedLoginResolves | event_frontend/src/hooks/useAuth.ts:29-50 | the intended login with both replies resolves true, keeps the user, is authenticated and stores both tokens |
| UseAuth.IntendedRefreshOutcomes | event_frontend/src/hooks/useAuth.ts:60-80 | the intended refresh succeeds exactly with a stored refresh token and both replies, replacing only the access token; otherwise it logs out with "Session expired" |
| UseEvents.FetchEvents | event_frontend/src/hooks/useEvents.ts:21-37 | the result and the requests sent are those of the retry policy |
| UseEvents.RetryOnce | event_frontend/src/hooks/useEvents.ts:25-35 | one or two GETs; two exactly after a 401 and a successful refresh, the second carrying the new token; success, a non-401 error or a refresh failure is returned as is |
| UseEvents.UnauthorizedEndsSession | event_frontend/src/hooks/useEvents.ts:28-29 | with the hook's own refresh, a 401 is never retried: the call rejects with the TypeError and the session is logged out |
| UseEvents.UnauthorizedRetriedWhenRefreshWorks | event_frontend/src/hooks/useEvents.ts:28-33 | with the intended refresh, a 401 leads to exactly one retry with the new token |
| EventModal.InitialForm | event_frontend/src/components/EventModal.tsx:30-49 | the form's seven members; a new event starts with empty title, description, location and times, not recurring, with frequency WEEKLY, interval 1 and no weekdays |
| EventModal.InitialRule | event_frontend/src/components/EventModal.tsx:41-48 | the rule's six members; without a rule the defaults; otherwise its non-empty frequency, positive interval and weekdays |
| EventModal.PayloadRule | event_frontend/src/components/EventModal.tsx:110-131 | null exactly when not recurring; otherwise frequency, interval and `end_date \|\| null`, weekdays only for WEEKLY, weekday and ordinal only for MONTHLY with both truthy |
| EventModal.HandleSubmit | event_frontend/src/components/EventModal.tsx:106-138 | the payload is the form with only `recurrence_rule` replaced |
| EventModal.UnchangedFormResubmitsRule | event_frontend/src/components/EventModal.tsx:30-138 | a form opened on a recurring event and submitted unchanged sends its frequency, interval and WEEKLY weekdays back |
| EventModal.ChangeRuleMember | event_frontend/src/components/EventModal.tsx:144-149 | "recurrence_rule.K" sets rule member K only |
| EventModal.ChangeTopLevel | event_frontend/src/components/EventModal.tsx:150-151 | any other name sets that member only |
| EventModal.HandleCheckbox | event_frontend/src/components/EventModal.tsx:155-157 | only `is_recurring` changes |
| EventModal.WithoutMembers | event_frontend/src/components/EventModal.tsx:162 | the filtered list has no copy of the day and keeps every other element |
| EventModal.WithoutConcat | event_frontend/src/components/EventModal.tsx:162 | filtering keeps the order of the kept elements |
| EventModal.Toggle | event_frontend/src/components/EventModal.tsx:159-163 | a present day is removed everywhere; an absent one is appended at the end |
| EventModal.ToggleTwice | event_frontend/src/components/EventModal.tsx:159-163 | toggling an absent day twice restores the list; a present day ends up once, at the end |
| EventModal.HandleWeekdayToggle | event_frontend/src/components/EventModal.tsx:159-172 | only the rule's weekdays change, to the toggled list |
| Dashboard.AllEvents | event_frontend/src/components/Dashboard.tsx:26-29 | the flattened list has one element per result over all pages, and exactly their elements |
| Dashboard.AllEventsAppend | event_frontend/src/components/Dashboard.tsx:26 | a further page's results come after those of the earlier pages, so page order and result order are kept |
| Dashboard.FilterMembers | event_frontend/src/components/Dashboard.tsx:30-40 | exactly the elements satisfying the test, each as often as in the input |
| Dashboard.FilterConcat | event_frontend/src/components/Dashboard.tsx:30-40 | filtering two lists in a row is filtering each in turn, so the kept events keep their order |
| Dashboard.CountsPartitionTotal | event_frontend/src/components/Dashboard.tsx:29-40 | for events not ending before they start, each event is exactly one of upcoming, past and ongoing, so the counts sum to the total |
| Dashboard.Listed | event_frontend/src/components/Dashboard.tsx:104 | a prefix of the upcoming events, of length min(3, n) |
| Dashboard.ListedIsFirstUpcoming | event_frontend/src/components/Dashboard.tsx:30-104 | the listed events are the first three of the fetched list that start after now (fewer when there are fewer), in fetched order |
| Dashboard.DashboardStats | event_frontend/src/components/Dashboard.tsx:26-40 | for the fetched pages: the total is the number of results, the three counts are those of the filters, and the listed events are the first three upcoming ones in fetched order |
| Dashboard.CardsAddUp | event_frontend/src/components/Dashboard.tsx:61-88 | with well-formed events, the upcoming, ongoing and past cards add up to the total card |
| Dashboard.Render | event_frontend/src/components/Dashboard.tsx:11-26 | as written: without an access token destructuring `null` throws; otherwise the loading and error texts, and a TypeError from `flatMap` of `undefined` exactly once the flat list has loaded |
| Dashboard.IntendedRender | event_frontend/src/components/Dashboard.tsx:11-40 | given the pages it reads: fails exactly without an access token, and once loaded shows the statistics of the pages |
| Dashboard.StatsNeverShown | event_frontend/src/components/Dashboard.tsx:26 | as written the statistics are never shown; given the same events as one page, the intended component shows them with every event counted |

## Left out

- HTTP and persistence are not modelled: axios, the api client's interceptor,
  react-query, DRF's generic views, pagination, and database saves and
  deletes. Replies and stored events are parameters.
- Time zones and text formatting are not modelled.
  - Every instant is read in UTC.
  - The ISO texts of the form are the parameters `timeText` and `dateText`.
  - `new Date` of a date-only text and dateutil's date `until` are both
    taken as UTC midnight.
- Aware and naive datetimes are not modelled. `until` is always a date (the
  rule's end date or the window's end), which dateutil turns into a naive
  datetime. With `USE_TZ` on, `start_time` is aware, so the `rrule(...)` call
  of views.py:109 raises a `ValueError` for every recurring event, the view
  swallows it, and every expansion is empty. The model treats both as UTC
  instants and expands them.
- Views.ExpandRecurringEvent: requires an interval of at least 1. `create`
  rejects interval 0, but the column allows it. With interval 0, dateutil
  does not end, and that case is excluded (`Views.IntervalsPositive`).
- The server modules are modelled as if they load. As written, views.py:14
  imports `UserSerializer`, which serializers.py does not define. Importing
  views.py, and through it urls.py:3, raises an `ImportError`, so no route
  of the server is reachable.
- The event form's request is modelled as if it is sent. As written,
  EventModal.tsx:56-57 interpolates `apiClient`, which the file never
  imports. Every `mutationFn` call throws a `ReferenceError` before any
  request, `onError` shows "An error occurred.", and nothing is saved.
  `EventModal.HandleSubmit` states the payload the form would send.
- Request values of the wrong JSON type are not modelled: a string where an
  integer is expected, an unparsable date or time, a non-boolean
  `is_recurring`. A sent value has its column's type; left-out and `null`
  keys are modelled.
- The writable nested update of `recurrence_rule` is not modelled: DRF refuses
  its default save.
- The rule serializer does not expose `weekdays`, `weekday` or `ordinal`, so
  a rule created through the API has no weekday data.
  - The expansion still reads those members, and raises as written.
  - They are modelled as the migrations declare them: an ordinal of 1..5 in
    the choices, the seven weekday codes.
- Client events whose frequency is not DAILY, WEEKLY or MONTHLY (YEARLY among
  them) get a series that rrule.js chooses. It is the abstract parameter
  `unset`.
- The order of events with equal start times after Python's stable sort is
  not modelled. `Models.SortByStart` states only sortedness and permutation.
- `useEvents` resolves with a flat list, while CalendarView and Dashboard read
  `data.pages`. Once the list has loaded, `data.pages` is `undefined`, so
  `flatMap` throws a TypeError on every render and neither component shows
  events (see "Findings"). The statistics and the calendar entries are
  modelled for the pages the components expect (`Dashboard.DashboardStats`,
  `CalendarView.Expansion`).
- Not modelled in Dashboard:
  - the query itself: its state (pending, failed, loaded) is a parameter;
  - the greeting: `user` is `undefined` when the access token is a string;
  - the date format.
- JavaScript details of the form are not modelled:
  - spreads of non-object values;
  - `JSON.stringify` dropping `undefined` members of the payload.
- Concurrency is not modelled: concurrent refreshes, stale responses, and the
  render-time `fetchNextPage` of CalendarView.
- EventModal.InitialRule: for an event with a rule, states the frequency,
  interval and weekdays members. For `end_date`, `weekday` and `ordinal` it
  states only that the members exist.
- A missing rule interval: `interval` is always a number. The server always sends
  it, because the column is not null and defaults to 1. So the `|| 1` fallback
  is modelled for 0 only, and not for a missing interval.
- Text.ParseInt: does not skip leading white space as `parseInt` does. The
  ids it reads begin with a digit.
- Models.DateTimeText: states only that the rendering has no '('. That is the
  property the title round trip needs.

## Findings

| source | as written | input that shows it | evidently intended | confidence | as-written member | corrected member |
|---|---|---|---|---|---|---|
| event_frontend/src/hooks/useAuth.ts:17 | `setUser` is read from the auth store, which has no such member, and `login` calls it after the user request | both the token request and the user request succeed | the user is kept, the flag is set and `login` resolves to `true` | high; not executed | UseAuth.LoginNeverResolves | UseAuth.IntendedLoginResolves |
| event_frontend/src/hooks/useAuth.ts:73 | `refreshToken` calls the missing `setUser`, and its `catch` calls `logout`, which throws again before "Session expired" | a stored refresh token and successful refresh and user requests | only the access token is replaced, the user is kept and the new token is returned | high; not executed | UseAuth.RefreshNeverSucceeds | UseAuth.IntendedRefreshOutcomes |
| event_scheduler/events/views.py:99 | `rule.weekdays` (line 99) and `rule.weekday` (line 103) are read on a `RecurrenceRule` whose model class declares neither, before the `try`, so the `AttributeError` ends the request | a user with a stored WEEKLY recurring event requests the list with `start_date=2025-06-01&end_date=2025-06-30` | WEEKLY rules expand on their weekday list and MONTHLY rules on the n-th weekday | high; not executed | Views.WindowedListingRaises | Views.IntendedExpansionCharacterized |
| event_frontend/src/components/Dashboard.tsx:26 | `data?.pages.flatMap` reads `pages` of the flat list `useEvents` resolves with, so `flatMap` of `undefined` throws | whenever Dashboard is rendered for a logged-in user whose event list has loaded (App.tsx mounts only CalendarView, so the route in this tree does not reach it) | the cards show the total, upcoming, ongoing and past counts and the first three upcoming events | high; not executed | Dashboard.StatsNeverShown | Dashboard.IntendedRender |
| event_frontend/src/components/CalendarView.tsx:17 | the same read of `data.pages` on the flat list throws once the list has loaded | any user whose event list has loaded | the month shows the entries of every fetched event | high; not executed | CalendarView.CalendarNeverShowsEntries | CalendarView.IntendedCalendarRender |
