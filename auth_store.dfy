/** The authentication store (event_frontend/src/store/authStore.ts) and the
    browser's `localStorage` it is initialised from.

    The store's actions are the methods of `AuthStore`; each is specified by a
    function on `AuthState`, the value of the store's and the storage's
    contents together, so that properties of sequences of actions are lemmas
    about those functions.
 */
module Auth {
  import opened Wrappers

  const AccessKey: string := "access_token"
  const RefreshKey: string := "refresh_token"

  /** `localStorage.getItem(key)`: `None` is `null`. */
  function Lookup(items: map<string, string>, key: string): (r: Option<string>)
    ensures r.Some? <==> key in items
    ensures r.Some? ==> r.value == items[key]
  {
    if key in items then Some(items[key]) else None
  }

  /** JavaScript's `!!` of a token: present and not empty. */
  predicate Truthy(s: Option<string>)
  {
    s.Some? && s.value != ""
  }

  /** The browser's `localStorage`. */
  class Storage {
    var items: map<string, string>

    constructor(items0: map<string, string>)
      ensures items == items0
    {
      items := items0;
    }

    function GetItem(key: string): (r: Option<string>)
      reads this
      ensures r == Lookup(items, key)
    {
      if key in items then Some(items[key]) else None
    }

    method SetItem(key: string, value: string)
      modifies this
      ensures items == old(items)[key := value]
    {
      items := items[key := value];
    }

    method RemoveItem(key: string)
      modifies this
      ensures items == old(items) - {key}
    {
      items := items - {key};
    }
  }

  /** The storage's items and the store's three members. */
  datatype AuthState = AuthState(
    items: map<string, string>,
    accessToken: Option<string>,
    refreshToken: Option<string>,
    isAuthenticated: bool)

  /** The store agrees with the storage: it holds the stored tokens and is
      authenticated exactly when it holds a non-empty access token. */
  predicate Mirrors(s: AuthState)
  {
    && s.accessToken == Lookup(s.items, AccessKey)
    && s.refreshToken == Lookup(s.items, RefreshKey)
    && s.isAuthenticated == Truthy(s.accessToken)
  }

  /** The store as created: both tokens read from the storage, authenticated
      when a non-empty access token is stored. */
  function Initial(items: map<string, string>): (s: AuthState)
    ensures s.items == items && Mirrors(s)
  {
    var access := Lookup(items, AccessKey);
    AuthState(items, access, Lookup(items, RefreshKey), Truthy(access))
  }

  /** `setTokens(access, refresh)`: both tokens replaced, authenticated
      exactly when the new access token is non-empty; the storage is not
      touched. */
  function WithTokens(s: AuthState, access: Option<string>, refresh: Option<string>): (t: AuthState)
    ensures t.items == s.items && t.accessToken == access && t.refreshToken == refresh
    ensures t.isAuthenticated <==> Truthy(access)
  {
    AuthState(s.items, access, refresh, Truthy(access))
  }

  /** `setAuthenticated(value)`: only the flag changes. */
  function WithAuthenticated(s: AuthState, value: bool): (t: AuthState)
    ensures t.items == s.items && t.accessToken == s.accessToken && t.refreshToken == s.refreshToken
    ensures t.isAuthenticated == value
  {
    s.(isAuthenticated := value)
  }

  /** The storage without the two token keys; every other item is kept. */
  function WithoutTokens(items: map<string, string>): (m: map<string, string>)
    ensures AccessKey !in m && RefreshKey !in m
    ensures forall k :: k != AccessKey && k != RefreshKey ==> (k in m <==> k in items)
    ensures forall k :: k in m ==> m[k] == items[k]
  {
    items - {AccessKey} - {RefreshKey}
  }

  /** The store's `logout()`: both keys removed from the storage, both tokens
      cleared, not authenticated. */
  function LoggedOut(s: AuthState): (t: AuthState)
    ensures t.items == WithoutTokens(s.items)
    ensures t.accessToken.None? && t.refreshToken.None? && !t.isAuthenticated
  {
    AuthState(WithoutTokens(s.items), None, None, false)
  }

  /** Logging out leaves the store in agreement with the storage, from any
      state, and a second logout changes nothing. */
  lemma LoggedOutMirrors(s: AuthState)
    ensures Mirrors(LoggedOut(s))
    ensures LoggedOut(LoggedOut(s)) == LoggedOut(s)
  {
    var m := WithoutTokens(s.items);
    assert WithoutTokens(m) == m;
  }

  /** Storing a token pair and then handing it to `setTokens` (the order of
      the login and refresh paths) keeps the store in agreement with the
      storage, whatever the state was before. */
  lemma StoredTokensMirror(s: AuthState, access: string, refresh: string)
    ensures var stored := s.(items := s.items[AccessKey := access][RefreshKey := refresh]);
      Mirrors(WithTokens(stored, Some(access), Some(refresh)))
  {
  }

  /** `setTokens` alone does not write the storage: it breaks the agreement
      whenever the tokens it is given are not the stored ones. */
  lemma SetTokensAloneDiverges(s: AuthState, access: Option<string>, refresh: Option<string>)
    requires access != Lookup(s.items, AccessKey)
    ensures !Mirrors(WithTokens(s, access, refresh))
  {
  }

  class AuthStore {
    var accessToken: Option<string>
    var refreshToken: Option<string>
    var isAuthenticated: bool
    const storage: Storage

    function State(): AuthState
      reads this, storage
    {
      AuthState(storage.items, accessToken, refreshToken, isAuthenticated)
    }

    constructor(storage: Storage)
      ensures this.storage == storage
      ensures State() == Initial(storage.items)
    {
      this.storage := storage;
      var access := storage.GetItem(AccessKey);
      accessToken := access;
      refreshToken := storage.GetItem(RefreshKey);
      isAuthenticated := Truthy(access);
    }

    method SetTokens(access: Option<string>, refresh: Option<string>)
      modifies this
      ensures State() == WithTokens(old(State()), access, refresh)
    {
      accessToken := access;
      refreshToken := refresh;
      isAuthenticated := Truthy(access);
    }

    method SetAuthenticated(value: bool)
      modifies this
      ensures State() == WithAuthenticated(old(State()), value)
    {
      isAuthenticated := value;
    }

    method Logout()
      modifies this, storage
      ensures State() == LoggedOut(old(State()))
    {
      storage.RemoveItem(AccessKey);
      storage.RemoveItem(RefreshKey);
      accessToken := None;
      refreshToken := None;
      isAuthenticated := false;
    }
  }
}
