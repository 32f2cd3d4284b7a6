/** Fetching the event list (event_frontend/src/hooks/useEvents.ts):
    `fetchEvents` retries once, with a refreshed token, after a 401.

    The replies to the two possible GET requests and the outcome of the
    `refreshToken` it is given are parameters; the requests it sends are
    returned as a trace.
 */
module UseEvents {
  import opened Wrappers
  import opened Modal
  import opened Auth
  import opened UseAuth

  /** A `GET /events/`; `authorization` is the header the call itself sets
      (the client's interceptor is not part of this model). */
  datatype Request = GetEvents(authorization: Option<string>)

  /** The state `useQuery` reports for a query whose data has type `T`:
      still loading (`isLoading`), failed (`isError`, no data), or resolved
      with its data. For `useEvents` the data is the flat list
      `fetchEvents` resolves with. */
  datatype Query<T> = Pending | Failed | Loaded(data: T)

  /** `err.response?.status === 401`. */
  predicate Unauthorized(x: Thrown)
  {
    x.HttpError? && x.status == 401
  }

  /** What `fetchEvents` settles with and the requests it sends, given the
      reply to the first GET, the outcome of calling `refreshToken` and the
      reply to the retry. */
  function FetchOutcome(first: Result<seq<Event>, Thrown>, refreshed: Result<string, Thrown>,
                        retry: Result<seq<Event>, Thrown>): (Result<seq<Event>, Thrown>, seq<Request>)
  {
    match first
    case Ok(events) => (Ok(events), [GetEvents(None)])
    case Err(x) =>
      if !Unauthorized(x) then (Err(x), [GetEvents(None)])
      else
        match refreshed
        case Err(y) => (Err(y), [GetEvents(None)])
        case Ok(token) => (retry, [GetEvents(None), GetEvents(Some("Bearer " + token))])
  }

  /** `fetchEvents(refreshToken)`; `refreshed` is what the call of
      `refreshToken` settles with, and is only used after a 401. */
  method FetchEvents(first: Result<seq<Event>, Thrown>, refreshed: Result<string, Thrown>,
                     retry: Result<seq<Event>, Thrown>)
    returns (r: Result<seq<Event>, Thrown>, requests: seq<Request>)
    ensures (r, requests) == FetchOutcome(first, refreshed, retry)
  {
    requests := [GetEvents(None)];
    if first.Ok? {
      return Ok(first.value), requests;
    }
    if !Unauthorized(first.error) {
      return Err(first.error), requests;
    }
    if refreshed.Err? {
      return Err(refreshed.error), requests;
    }
    var newToken := refreshed.value;
    requests := requests + [GetEvents(Some("Bearer " + newToken))];
    assert requests == [GetEvents(None), GetEvents(Some("Bearer " + newToken))];
    // The retry's rejection propagates; its success gives its results.
    return retry, requests;
  }

  /** The retry policy: one GET, or two; a second only after a 401 and a
      successful refresh, and it carries the new token; the first reply's
      events, a non-401 error, a refresh failure or the retry's outcome is
      what the call settles with. */
  lemma RetryOnce(first: Result<seq<Event>, Thrown>, refreshed: Result<string, Thrown>,
                  retry: Result<seq<Event>, Thrown>)
    ensures var (r, reqs) := FetchOutcome(first, refreshed, retry);
      && 1 <= |reqs| <= 2 && reqs[0] == GetEvents(None)
      && (|reqs| == 2 <==> first.Err? && Unauthorized(first.error) && refreshed.Ok?)
      && (|reqs| == 2 ==> reqs[1] == GetEvents(Some("Bearer " + refreshed.value)) && r == retry)
      && (first.Ok? ==> r == first)
      && (first.Err? && !Unauthorized(first.error) ==> r == first)
      && (first.Err? && Unauthorized(first.error) && refreshed.Err? ==> r == Err(refreshed.error))
  {
  }

  /** With the hook's own `refreshToken` (module UseAuth), a 401 always ends
      the call: the retry is never sent, the call rejects with the TypeError,
      and the session is logged out. */
  lemma UnauthorizedEndsSession(s: AuthState, first: Result<seq<Event>, Thrown>,
                                refreshReply: Result<string, Thrown>, retry: Result<seq<Event>, Thrown>)
    requires first.Err? && Unauthorized(first.error)
    ensures var (after, refreshed) := RefreshOutcome(s, refreshReply);
      && FetchOutcome(first, refreshed, retry) == (Err(SetUserMissing), [GetEvents(None)])
      && after == LoggedOut(s)
  {
    RefreshEndsLoggedOut(s, refreshReply);
  }

  /** With the intended refresh, a 401 followed by a successful refresh
      sends the retry with the new access token. */
  lemma UnauthorizedRetriedWhenRefreshWorks(s: IntendedState, first: Result<seq<Event>, Thrown>,
                                            refreshReply: Result<string, Thrown>, userReply: Result<UserData, Thrown>,
                                            retry: Result<seq<Event>, Thrown>)
    requires first.Err? && Unauthorized(first.error)
    requires Truthy(Lookup(s.auth.items, RefreshKey)) && refreshReply.Ok? && userReply.Ok?
    ensures var refreshed := IntendedRefresh(s, refreshReply, userReply).1;
      FetchOutcome(first, refreshed, retry) ==
        (retry, [GetEvents(None), GetEvents(Some("Bearer " + refreshReply.value))])
  {
  }
}
