/** The dashboard (event_frontend/src/components/Dashboard.tsx): the fetched
    pages flattened, the total, the upcoming, past and ongoing events, the
    first three upcoming events listed, and what the component renders.

    The component reads `data.pages`, the shape of a paginated query, but
    `useEvents` resolves with a flat list (module UseEvents). `Render` models
    the component as written, for that list; `IntendedRender` the same
    component given the pages it expects. The clock (`new Date()`) is the
    parameter `now`.
 */
module Dashboard {
  import opened Wrappers
  import opened Modal
  import opened UseEvents

  /** One page of the paginated list: its `results`. */
  datatype Page = Page(results: seq<Event>)

  /** The number of results over all pages. */
  function ResultCount(pages: seq<Page>): nat
  {
    if pages == [] then 0 else |pages[0].results| + ResultCount(pages[1..])
  }

  /** `data.pages.flatMap(page => page.results)`: every page's results, in
      page order. */
  function AllEvents(pages: seq<Page>): (es: seq<Event>)
    ensures |es| == ResultCount(pages)
    ensures forall e :: e in es <==> exists i :: 0 <= i < |pages| && e in pages[i].results
  {
    if pages == [] then []
    else
      var rest := AllEvents(pages[1..]);
      assert forall i :: 1 <= i < |pages| ==> pages[i] == pages[1..][i - 1];
      pages[0].results + rest
  }

  /** A further page adds its results after those of the earlier pages, so
      the flattened list keeps page order and, within a page, result order. */
  lemma {:induction false} AllEventsAppend(pages: seq<Page>, pg: Page)
    ensures AllEvents(pages + [pg]) == AllEvents(pages) + pg.results
  {
    if pages == [] {
      assert [pg][1..] == [];
    } else {
      assert (pages + [pg])[1..] == pages[1..] + [pg];
      AllEventsAppend(pages[1..], pg);
    }
  }

  /** `list.filter(p)`: the elements satisfying `p`, in order. */
  function Filter(es: seq<Event>, p: Event -> bool): (r: seq<Event>)
    ensures |r| <= |es|
  {
    if es == [] then []
    else (if p(es[0]) then [es[0]] else []) + Filter(es[1..], p)
  }

  /** The filtered list holds exactly the elements satisfying the test, each
      as often as the input does. */
  lemma {:induction false} FilterMembers(es: seq<Event>, p: Event -> bool)
    ensures forall e :: e in Filter(es, p) <==> e in es && p(e)
    ensures forall e :: p(e) ==> multiset(Filter(es, p))[e] == multiset(es)[e]
  {
    if es != [] {
      assert es == [es[0]] + es[1..];
      FilterMembers(es[1..], p);
    }
  }

  /** Filtering a list in two parts filters each part and keeps them in
      order: the kept elements keep their relative order. */
  lemma {:induction false} FilterConcat(a: seq<Event>, b: seq<Event>, p: Event -> bool)
    ensures Filter(a + b, p) == Filter(a, p) + Filter(b, p)
  {
    if a == [] {
      assert a + b == b;
      assert Filter(a, p) == [];
    } else {
      var head := if p(a[0]) then [a[0]] else [];
      assert (a + b)[0] == a[0] && (a + b)[1..] == a[1..] + b;
      assert Filter(a + b, p) == head + Filter(a[1..] + b, p);
      FilterConcat(a[1..], b, p);
      assert Filter(a, p) == head + Filter(a[1..], p);
      assert head + (Filter(a[1..], p) + Filter(b, p)) == (head + Filter(a[1..], p)) + Filter(b, p);
    }
  }

  predicate IsUpcoming(now: int, e: Event) { e.startTime > now }

  predicate IsPast(now: int, e: Event) { e.endTime < now }

  predicate IsOngoing(now: int, e: Event) { e.startTime <= now && e.endTime >= now }

  function Upcoming(es: seq<Event>, now: int): seq<Event> { Filter(es, e => IsUpcoming(now, e)) }

  function Past(es: seq<Event>, now: int): seq<Event> { Filter(es, e => IsPast(now, e)) }

  function Ongoing(es: seq<Event>, now: int): seq<Event> { Filter(es, e => IsOngoing(now, e)) }

  predicate StartsBeforeEnd(es: seq<Event>)
  {
    forall i :: 0 <= i < |es| ==> es[i].startTime <= es[i].endTime
  }

  /** For events that do not end before they start, each event is in exactly
      one of the three lists, so the three counts add up to the total. */
  lemma {:induction false} CountsPartitionTotal(es: seq<Event>, now: int)
    requires StartsBeforeEnd(es)
    ensures |Upcoming(es, now)| + |Past(es, now)| + |Ongoing(es, now)| == |es|
    ensures forall e :: e in es ==>
      (if IsUpcoming(now, e) then 1 else 0) + (if IsPast(now, e) then 1 else 0) + (if IsOngoing(now, e) then 1 else 0) == 1
  {
    if es != [] {
      assert StartsBeforeEnd(es[1..]) by {
        forall i | 0 <= i < |es[1..]| ensures es[1..][i].startTime <= es[1..][i].endTime {
          assert es[1..][i] == es[i + 1];
        }
      }
      CountsPartitionTotal(es[1..], now);
      forall e | e in es
        ensures (if IsUpcoming(now, e) then 1 else 0) + (if IsPast(now, e) then 1 else 0) + (if IsOngoing(now, e) then 1 else 0) == 1
      {
        var i :| 0 <= i < |es| && es[i] == e;
      }
    }
  }

  /** `upcomingEvents.slice(0, 3)`: the first three upcoming events, or all
      of them when there are fewer. */
  function Listed(es: seq<Event>, now: int): (r: seq<Event>)
    ensures var up := Upcoming(es, now);
      && |r| == (if |up| < 3 then |up| else 3)
      && r <= up
  {
    var up := Upcoming(es, now);
    if |up| < 3 then up else up[..3]
  }

  /** Reading the fetched list from the front and keeping each event that
      starts after `now` until `k` are kept. */
  function FirstUpcoming(es: seq<Event>, now: int, k: nat): seq<Event>
  {
    if k == 0 || es == [] then []
    else if IsUpcoming(now, es[0]) then [es[0]] + FirstUpcoming(es[1..], now, k - 1)
    else FirstUpcoming(es[1..], now, k)
  }

  /** The first `k` elements of `s`, or all of them when there are fewer. */
  function Take(s: seq<Event>, k: nat): (r: seq<Event>)
    ensures |r| == (if |s| < k then |s| else k) && r <= s
  {
    if |s| < k then s else s[..k]
  }

  lemma {:induction false} FilterPrefixIsFirst(es: seq<Event>, now: int, k: nat)
    ensures FirstUpcoming(es, now, k) == Take(Upcoming(es, now), k)
  {
    if k != 0 && es != [] {
      UpcomingCons(es, now);
      if IsUpcoming(now, es[0]) {
        FilterPrefixIsFirst(es[1..], now, k - 1);
        TakeCons(es[0], Upcoming(es[1..], now), k);
      } else {
        FilterPrefixIsFirst(es[1..], now, k);
      }
    }
  }

  lemma UpcomingCons(es: seq<Event>, now: int)
    requires es != []
    ensures Upcoming(es, now) == (if IsUpcoming(now, es[0]) then [es[0]] else []) + Upcoming(es[1..], now)
  {
  }

  lemma TakeCons(x: Event, r: seq<Event>, k: nat)
    requires k >= 1
    ensures Take([x] + r, k) == [x] + Take(r, k - 1)
  {
  }

  /** The listed events are the first three events of the fetched list that
      start after `now` (fewer when there are fewer), in the fetched order. */
  lemma ListedIsFirstUpcoming(es: seq<Event>, now: int)
    ensures Listed(es, now) == FirstUpcoming(es, now, 3)
  {
    FilterPrefixIsFirst(es, now, 3);
  }

  /** The numbers on the four cards and the listed events. */
  datatype Stats = Stats(total: nat, upcoming: nat, ongoing: nat, past: nat, listed: seq<Event>)

  /** The statistics of Dashboard.tsx:26-40 and 104 for the fetched pages. */
  function DashboardStats(pages: seq<Page>, now: int): (s: Stats)
    ensures var es := AllEvents(pages);
      && s.total == ResultCount(pages)
      && s.upcoming == |Upcoming(es, now)| && s.past == |Past(es, now)| && s.ongoing == |Ongoing(es, now)|
      && s.listed == FirstUpcoming(es, now, 3)
  {
    var es := AllEvents(pages);
    ListedIsFirstUpcoming(es, now);
    Stats(|es|, |Upcoming(es, now)|, |Ongoing(es, now)|, |Past(es, now)|, Listed(es, now))
  }

  /** With well-formed events, the upcoming, ongoing and past cards add up to
      the total card. */
  lemma CardsAddUp(pages: seq<Page>, now: int)
    requires StartsBeforeEnd(AllEvents(pages))
    ensures var s := DashboardStats(pages, now); s.upcoming + s.ongoing + s.past == s.total
  {
    CountsPartitionTotal(AllEvents(pages), now);
  }

  /** What the component shows: the loading text, the error text, or the
      cards and the listed events. */
  datatype Screen = LoadingScreen | ErrorScreen | StatsScreen(stats: Stats)

  /** The TypeErrors the render can throw: `const { user } = accessToken`
      destructures `null` when there is no access token, and
      `data?.pages.flatMap` reads `flatMap` of `undefined` when `data` is an
      array. */
  datatype RenderError = DestructureNull | FlatMapOfUndefined

  /** The component as written, for the query `useEvents` gives: the
      destructuring of line 11 comes first; then the loading and error
      texts; once the list has loaded, `data.pages` is `undefined` and line 26
      throws. */
  function Render(accessToken: Option<string>, q: Query<seq<Event>>, now: int): (r: Result<Screen, RenderError>)
    ensures accessToken.None? ==> r == Err(DestructureNull)
    ensures accessToken.Some? ==> (r == Err(FlatMapOfUndefined) <==> q.Loaded?)
    ensures accessToken.Some? && q.Pending? ==> r == Ok(LoadingScreen)
    ensures accessToken.Some? && q.Failed? ==> r == Ok(ErrorScreen)
  {
    if accessToken.None? then Err(DestructureNull)
    else
      match q
      case Pending => Ok(LoadingScreen)
      case Failed => Ok(ErrorScreen)
      case Loaded(_) => Err(FlatMapOfUndefined)
  }

  /** The same component given the paginated data it reads. */
  function IntendedRender(accessToken: Option<string>, q: Query<seq<Page>>, now: int): (r: Result<Screen, RenderError>)
    ensures r.Err? <==> accessToken.None?
    ensures accessToken.Some? && q.Loaded? ==> r == Ok(StatsScreen(DashboardStats(q.data, now)))
  {
    if accessToken.None? then Err(DestructureNull)
    else
      match q
      case Pending => Ok(LoadingScreen)
      case Failed => Ok(ErrorScreen)
      case Loaded(pages) => Ok(StatsScreen(DashboardStats(pages, now)))
  }

  /** As written, the statistics are never shown: every render either waits,
      reports an error or throws. Given the same events as one page, the
      intended component shows them, with every event counted. */
  lemma StatsNeverShown(accessToken: Option<string>, q: Query<seq<Event>>, now: int)
    ensures !(Render(accessToken, q, now).Ok? && Render(accessToken, q, now).value.StatsScreen?)
    ensures accessToken.Some? && q.Loaded? ==>
      && Render(accessToken, q, now) == Err(FlatMapOfUndefined)
      && IntendedRender(accessToken, Loaded([Page(q.data)]), now).Ok?
      && IntendedRender(accessToken, Loaded([Page(q.data)]), now).value.stats.total == |q.data|
  {
  }
}
