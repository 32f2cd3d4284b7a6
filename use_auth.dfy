/** The authentication hook (event_frontend/src/hooks/useAuth.ts): `login`,
    `logout`, `refreshToken` and `fetchCurrentUser`.

    The server's replies are parameters: `Ok` carries a response body, `Err`
    the error axios rejects with. The hook takes `setUser` from the store,
    but the store (module Auth) has no such member: the value is `undefined`,
    and each call `setUser(...)` throws a TypeError. The methods model the code
    as it stands; the functions named `Intended...` state what the code is
    evidently meant to do, for a store that keeps the user.
 */
module UseAuth {
  import opened Wrappers
  import opened Auth

  /** What the hook's promises can reject with. */
  datatype Thrown =
    | HttpError(status: int)     // a response with an error status
    | NoResponse                 // a request that got no response
    | NotAFunction(name: string) // TypeError: calling an undefined member
    | Failure(message: string)   // `new Error(message)`

  datatype TokenPair = TokenPair(access: string, refresh: string)

  datatype UserData = UserData(id: nat, username: string, email: string)

  /** The rejection every call of `setUser` produces. */
  const SetUserMissing: Thrown := NotAFunction("setUser")

  /** `fetchCurrentUser`: the reply's body, or its error rethrown. */
  method FetchCurrentUser(reply: Result<UserData, Thrown>) returns (r: Result<UserData, Thrown>)
    ensures r == reply
  {
    if reply.Err? {
      return Err(reply.error);
    }
    return Ok(reply.value);
  }

  /** The state `login` leaves: unchanged when the token request fails;
      otherwise both tokens stored and handed to `setTokens`. */
  function LoginState(s: AuthState, tokenReply: Result<TokenPair, Thrown>): AuthState
  {
    match tokenReply
    case Err(_) => s
    case Ok(p) =>
      var stored := s.(items := s.items[AccessKey := p.access][RefreshKey := p.refresh]);
      WithTokens(stored, Some(p.access), Some(p.refresh))
  }

  /** What `login` settles with: the first error met, which is `setUser`'s
      TypeError when both requests succeed. */
  function LoginResult(tokenReply: Result<TokenPair, Thrown>, userReply: Result<UserData, Thrown>): Result<bool, Thrown>
  {
    if tokenReply.Err? then Err(tokenReply.error)
    else if userReply.Err? then Err(userReply.error)
    else Err(SetUserMissing)
  }

  method Login(store: AuthStore, tokenReply: Result<TokenPair, Thrown>, userReply: Result<UserData, Thrown>)
    returns (r: Result<bool, Thrown>)
    modifies store, store.storage
    ensures r == LoginResult(tokenReply, userReply)
    ensures store.State() == LoginState(old(store.State()), tokenReply)
  {
    if tokenReply.Err? {
      return Err(tokenReply.error);
    }
    var access, refresh := tokenReply.value.access, tokenReply.value.refresh;
    store.storage.SetItem(AccessKey, access);
    store.storage.SetItem(RefreshKey, refresh);
    store.SetTokens(Some(access), Some(refresh));
    var userData := FetchCurrentUser(userReply);
    if userData.Err? {
      return Err(userData.error);
    }
    // `setUser(userData)`: `setUser` is undefined, so the call throws and
    // neither `setAuthenticated(true)` nor `return true` is reached.
    return Err(SetUserMissing);
  }

  /** `login` never resolves; yet once the tokens are issued the store is
      authenticated (by `setTokens`) for a non-empty access token and agrees
      with the storage. */
  lemma LoginNeverResolves(s: AuthState, tokenReply: Result<TokenPair, Thrown>, userReply: Result<UserData, Thrown>)
    ensures LoginResult(tokenReply, userReply).Err?
    ensures tokenReply.Ok? && userReply.Ok? ==> LoginResult(tokenReply, userReply) == Err(SetUserMissing)
    ensures tokenReply.Ok? ==>
      && Mirrors(LoginState(s, tokenReply))
      && (LoginState(s, tokenReply).isAuthenticated <==> tokenReply.value.access != "")
    ensures tokenReply.Err? ==> LoginState(s, tokenReply) == s
  {
    if tokenReply.Ok? {
      StoredTokensMirror(s, tokenReply.value.access, tokenReply.value.refresh);
    }
  }

  /** The hook's `logout`: the store's state after `logout` of the store, then
      `setAuthenticated(false)`; the final `setUser(null)` throws. */
  function LogoutState(s: AuthState): AuthState
  {
    WithAuthenticated(WithTokens(s.(items := WithoutTokens(s.items)), None, None), false)
  }

  /** The hook's logout leaves exactly the state of the store's own logout. */
  lemma LogoutsAgree(s: AuthState)
    ensures LogoutState(s) == LoggedOut(s)
    ensures Mirrors(LogoutState(s))
  {
    LoggedOutMirrors(s);
  }

  /** `logout()`: always throws, after clearing; the result is the error. */
  method Logout(store: AuthStore) returns (thrown: Thrown)
    modifies store, store.storage
    ensures thrown == SetUserMissing
    ensures store.State() == LogoutState(old(store.State()))
  {
    store.storage.RemoveItem(AccessKey);
    store.storage.RemoveItem(RefreshKey);
    store.SetTokens(None, None);
    store.SetAuthenticated(false);
    // `setUser(null)`: `setUser` is undefined.
    thrown := SetUserMissing;
  }

  /** The state `refreshToken()` is in when control reaches its `catch`.
      With a truthy stored refresh token and a refresh reply, the new access
      token has been stored and handed to `setTokens` together with the old
      refresh token; otherwise (the `throw` for a missing token, or a failed
      refresh request) nothing has changed. */
  function RefreshTried(s: AuthState, refreshReply: Result<string, Thrown>): AuthState
  {
    var refresh := Lookup(s.items, RefreshKey);
    if Truthy(refresh) && refreshReply.Ok? then
      var access := refreshReply.value;
      WithTokens(s.(items := s.items[AccessKey := access]), Some(access), refresh)
    else s
  }

  /** What `refreshToken()` ends with. Every path reaches the `catch`: no
      refresh token, a failed refresh request, a failed user request, or
      `setUser`'s TypeError. There `logout()` clears the store and throws
      before `new Error("Session expired")` is reached, so the promise rejects
      with that TypeError. */
  function RefreshOutcome(s: AuthState, refreshReply: Result<string, Thrown>): (AuthState, Result<string, Thrown>)
  {
    (LogoutState(RefreshTried(s, refreshReply)), Err(SetUserMissing))
  }

  /** Whatever the replies, `refreshToken()` leaves the store logged out, in
      agreement with the storage, and never resolves: a stored access token
      written on the way is removed again with the rest. */
  lemma RefreshEndsLoggedOut(s: AuthState, refreshReply: Result<string, Thrown>)
    ensures RefreshOutcome(s, refreshReply) == (LoggedOut(s), Err(SetUserMissing))
    ensures Mirrors(RefreshOutcome(s, refreshReply).0)
  {
    var t := RefreshTried(s, refreshReply);
    assert WithoutTokens(t.items) == WithoutTokens(s.items);
    LogoutsAgree(t);
  }

  method RefreshToken(store: AuthStore, refreshReply: Result<string, Thrown>, userReply: Result<UserData, Thrown>)
    returns (r: Result<string, Thrown>)
    modifies store, store.storage
    ensures (store.State(), r) == RefreshOutcome(old(store.State()), refreshReply)
  {
    var refresh := store.storage.GetItem(RefreshKey);
    if Truthy(refresh) && refreshReply.Ok? {
      var access := refreshReply.value;
      store.storage.SetItem(AccessKey, access);
      store.SetTokens(Some(access), refresh);
      var userData := FetchCurrentUser(userReply);
      // Whether the user request fails or `setUser(userData)` throws, control
      // reaches the `catch`.
    }
    // The `catch`: `logout()` throws, so "Session expired" is never thrown.
    var thrown := Logout(store);
    return Err(thrown);
  }

  // --- The evident intent: a store that keeps the current user. ---

  /** The store's state together with the user it is meant to keep. */
  datatype IntendedState = IntendedState(auth: AuthState, user: Option<UserData>)

  /** `login` as meant: with both replies it stores the tokens, keeps the
      user, sets the flag and resolves to `true`; an error is rethrown after
      whatever was done before it. */
  function IntendedLogin(s: IntendedState, tokenReply: Result<TokenPair, Thrown>, userReply: Result<UserData, Thrown>)
    : (IntendedState, Result<bool, Thrown>)
  {
    match tokenReply
    case Err(x) => (s, Err(x))
    case Ok(p) =>
      var withTokens := LoginState(s.auth, tokenReply);
      match userReply
      case Err(x) => (s.(auth := withTokens), Err(x))
      case Ok(u) => (IntendedState(WithAuthenticated(withTokens, true), Some(u)), Ok(true))
  }

  lemma IntendedLoginResolves(s: IntendedState, p: TokenPair, u: UserData)
    ensures var (t, r) := IntendedLogin(s, Ok(p), Ok(u));
      && r == Ok(true) && t.user == Some(u) && t.auth.isAuthenticated
      && t.auth.accessToken == Some(p.access) && t.auth.refreshToken == Some(p.refresh)
      && Lookup(t.auth.items, AccessKey) == Some(p.access) && Lookup(t.auth.items, RefreshKey) == Some(p.refresh)
  {
  }

  /** `logout` as meant: the store's logout, and no user. */
  function IntendedLogout(s: IntendedState): IntendedState
  {
    IntendedState(LogoutState(s.auth), None)
  }

  /** `refreshToken` as meant: with a stored refresh token and both replies it
      replaces only the access token, keeps the user and resolves to the new
      token; otherwise it logs out and rejects with "Session expired". */
  function IntendedRefresh(s: IntendedState, refreshReply: Result<string, Thrown>, userReply: Result<UserData, Thrown>)
    : (IntendedState, Result<string, Thrown>)
  {
    var refresh := Lookup(s.auth.items, RefreshKey);
    if Truthy(refresh) && refreshReply.Ok? && userReply.Ok? then
      var access := refreshReply.value;
      var stored := s.auth.(items := s.auth.items[AccessKey := access]);
      (IntendedState(WithTokens(stored, Some(access), refresh), Some(userReply.value)), Ok(access))
    else (IntendedLogout(s), Err(Failure("Session expired")))
  }

  lemma IntendedRefreshOutcomes(s: IntendedState, refreshReply: Result<string, Thrown>, userReply: Result<UserData, Thrown>)
    requires Mirrors(s.auth)
    ensures var (t, r) := IntendedRefresh(s, refreshReply, userReply);
      && Mirrors(t.auth)
      && (r.Ok? <==> Truthy(s.auth.refreshToken) && refreshReply.Ok? && userReply.Ok?)
      && (r.Ok? ==> r.value == refreshReply.value && t.auth.accessToken == Some(r.value)
                    && t.auth.refreshToken == s.auth.refreshToken && t.user == Some(userReply.value))
      && (r.Err? ==> r == Err(Failure("Session expired")) && t == IntendedLogout(s))
  {
    LogoutsAgree(s.auth);
  }

  /** Where the intended refresh resolves with the new token, the code as
      written rejects with the TypeError instead, and logs the user out. */
  lemma RefreshNeverSucceeds(s: IntendedState, refreshReply: Result<string, Thrown>, userReply: Result<UserData, Thrown>)
    requires Truthy(Lookup(s.auth.items, RefreshKey)) && refreshReply.Ok? && userReply.Ok?
    ensures IntendedRefresh(s, refreshReply, userReply).1 == Ok(refreshReply.value)
    ensures RefreshOutcome(s.auth, refreshReply) == (LoggedOut(s.auth), Err(SetUserMissing))
  {
    RefreshEndsLoggedOut(s.auth, refreshReply);
  }
}
