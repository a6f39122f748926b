/**
 * The browser-side session: the signed-in user, the token and the `loading`
 * flag of the auth store, mirrored into the browser's key/value storage under
 * the keys 'token' and 'user'. The storage is a map; the API calls the store
 * makes are inputs that either deliver a reply or fail with an error text.
 */
module Session {
  import opened Wrappers
  import opened Json

  const TokenKey: string := "token"
  const UserKey: string := "user"
  /** Where logging out sends the browser. */
  const LoginPath: string := "/auth/login"

  /** A stored string or ref that is present and not empty, i.e. truthy. */
  predicate Present(s: Option<string>) {
    s.Some? && s.value != ""
  }

  /** `localStorage.getItem(key)`: the stored string, or `null`. */
  function Lookup(storage: map<string, string>, key: string): (r: Option<string>)
    ensures r.Some? <==> key in storage
    ensures r.Some? ==> r.value == storage[key]
  {
    if key in storage then Some(storage[key]) else None
  }

  /** The refs and the storage of a session. */
  datatype SessionState = SessionState(token: Option<string>, user: Option<Value>, storage: map<string, string>)

  /**
   * What `restoreAuth` leaves: with both keys present and non-empty, the
   * stored token and the parsed user, or the cleared session when the user
   * text does not parse; otherwise the session as it was.
   */
  function Restored(token: Option<string>, user: Option<Value>, storage: map<string, string>): (r: SessionState)
    ensures r.storage == storage || r.storage == storage - {TokenKey, UserKey}
  {
    var savedToken, savedUser := Lookup(storage, TokenKey), Lookup(storage, UserKey);
    if Present(savedToken) && Present(savedUser) then
      var parsed := Parse(savedUser.value);
      if parsed.Some? then SessionState(savedToken, parsed, storage)
      else SessionState(None, None, storage - {TokenKey, UserKey})
    else SessionState(token, user, storage)
  }

  /** Restoring from a saved token and a user text that parses yields exactly those. */
  lemma RestoreSaved(token: Option<string>, user: Option<Value>, storage: map<string, string>)
    requires TokenKey in storage && UserKey in storage
    requires storage[TokenKey] != "" && storage[UserKey] != ""
    ensures Parse(storage[UserKey]).Some? ==>
      Restored(token, user, storage) == SessionState(Some(storage[TokenKey]), Parse(storage[UserKey]), storage)
    ensures Parse(storage[UserKey]).None? ==>
      Restored(token, user, storage) == SessionState(None, None, storage - {TokenKey, UserKey})
  {
  }

  /** Without both keys present and non-empty, restoring changes nothing. */
  lemma RestoreNothing(token: Option<string>, user: Option<Value>, storage: map<string, string>)
    requires !Present(Lookup(storage, TokenKey)) || !Present(Lookup(storage, UserKey))
    ensures Restored(token, user, storage) == SessionState(token, user, storage)
  {
  }

  /** Restoring twice is restoring once. */
  lemma RestoreIdempotent(token: Option<string>, user: Option<Value>, storage: map<string, string>)
    ensures var once := Restored(token, user, storage);
      Restored(once.token, once.user, once.storage) == once
  {
    var once := Restored(token, user, storage);
    if Present(Lookup(storage, TokenKey)) && Present(Lookup(storage, UserKey)) && Parse(storage[UserKey]).None? {
      assert TokenKey !in once.storage;
    }
  }

  /** The reply of a login or registration call: the user object and the token. */
  datatype SignInReply = SignInReply(user: Value, token: string)

  class AuthStore {
    var user: Option<Value>
    var token: Option<string>
    var loading: bool
    var storage: map<string, string>
    /** Every value `loading` has been given, in order. */
    ghost var loadingTrace: seq<bool>

    /** The token ref mirrors the stored 'token' key. */
    ghost predicate Valid()
      reads this
    {
      token == Lookup(storage, TokenKey)
    }

    /** `isAuthenticated`: `!!token && !!user`. */
    predicate IsAuthenticated()
      reads this
    {
      Present(token) && user.Some? && Truthy(user.value)
    }

    /** `user?.grade`. */
    function UserGrade(): (r: Option<Value>)
      reads this
      ensures user.None? ==> r.None?
    {
      if user.Some? then Get(user.value, "grade") else None
    }

    /** `user?.name`. */
    function UserName(): (r: Option<Value>)
      reads this
      ensures user.None? ==> r.None?
    {
      if user.Some? then Get(user.value, "name") else None
    }

    /** The store as created: the token read from storage, no user, then `restoreAuth`. */
    constructor(saved: map<string, string>)
      ensures Valid() && !loading && loadingTrace == []
      ensures SessionState(token, user, storage) == Restored(Lookup(saved, TokenKey), None, saved)
    {
      user := None;
      token := Lookup(saved, TokenKey);
      loading := false;
      storage := saved;
      loadingTrace := [];
      new;
      RestoreAuth();
    }

    /** `setAuth`: both refs and both storage keys set. */
    method SetAuth(userData: Value, authToken: string)
      modifies this
      ensures Valid()
      ensures user == Some(userData) && token == Some(authToken)
      ensures storage == old(storage)[TokenKey := authToken][UserKey := Stringify(userData)]
      ensures loading == old(loading) && loadingTrace == old(loadingTrace)
      ensures IsAuthenticated() <==> authToken != "" && Truthy(userData)
    {
      user := Some(userData);
      token := Some(authToken);
      storage := storage[TokenKey := authToken];
      storage := storage[UserKey := Stringify(userData)];
    }

    /** `clearAuth`: both refs nulled and both keys removed; doing it twice is doing it once. */
    method ClearAuth()
      modifies this
      ensures Valid() && !IsAuthenticated()
      ensures user == None && token == None && storage == old(storage) - {TokenKey, UserKey}
      ensures loading == old(loading) && loadingTrace == old(loadingTrace)
    {
      user := None;
      token := None;
      storage := storage - {TokenKey, UserKey};
    }

    /** `restoreAuth`, whose outcome `Restored` describes. */
    method RestoreAuth()
      requires Valid()
      modifies this
      ensures Valid()
      ensures loading == old(loading) && loadingTrace == old(loadingTrace)
      ensures Restored(old(token), old(user), old(storage)) == SessionState(token, user, storage)
    {
      var savedToken := Lookup(storage, TokenKey);
      var savedUser := Lookup(storage, UserKey);
      if Present(savedToken) && Present(savedUser) {
        RestoreSaved(token, user, storage);
        Adopt(savedToken.value, savedUser.value);
      } else {
        RestoreNothing(token, user, storage);
      }
    }

    /** The `try` block of `restoreAuth`: take the token, parse the user, clear everything if that throws. */
    method Adopt(savedToken: string, savedUser: string)
      requires Lookup(storage, TokenKey) == Some(savedToken)
      modifies this
      ensures Valid()
      ensures loading == old(loading) && loadingTrace == old(loadingTrace)
      ensures Parse(savedUser).Some? ==>
        token == Some(savedToken) && user == Parse(savedUser) && storage == old(storage)
      ensures Parse(savedUser).None? ==>
        token == None && user == None && storage == old(storage) - {TokenKey, UserKey}
    {
      token := Some(savedToken);
      var parsed := Parse(savedUser);
      if parsed.None? {
        ClearAuth();
      } else {
        user := parsed;
      }
    }

    /**
     * `fetchProfile`: nothing without a token; a profile replaces the user
     * and its stored copy; a failed call clears the session and is rethrown.
     */
    method FetchProfile(reply: Result<Value, string>) returns (thrown: Option<string>)
      requires Valid()
      modifies this
      ensures Valid()
      ensures loading == old(loading) && loadingTrace == old(loadingTrace)
      ensures !Present(old(token)) ==>
        thrown == None && user == old(user) && token == old(token) && storage == old(storage)
      ensures Present(old(token)) && reply.Ok? ==>
        thrown == None && user == Some(reply.value) && token == old(token) &&
        storage == old(storage)[UserKey := Stringify(reply.value)]
      ensures Present(old(token)) && reply.Err? ==>
        thrown == Some(reply.error) && user == None && token == None && storage == old(storage) - {TokenKey, UserKey}
    {
      thrown := None;
      if !Present(token) {
        return;
      }
      if reply.Err? {
        ClearAuth();
        thrown := Some(reply.error);
        return;
      }
      user := Some(reply.value);
      storage := storage[UserKey := Stringify(reply.value)];
    }

    /** `login` and `register`: `loading` raised, the session set from a reply, `loading` lowered on both paths. */
    method SignIn(reply: Result<SignInReply, string>) returns (thrown: Option<string>)
      modifies this
      ensures Valid() || reply.Err?
      ensures !loading && loadingTrace == old(loadingTrace) + [true, false]
      ensures reply.Ok? ==>
        thrown == None && user == Some(reply.value.user) && token == Some(reply.value.token) &&
        storage == old(storage)[TokenKey := reply.value.token][UserKey := Stringify(reply.value.user)]
      ensures reply.Err? ==>
        thrown == Some(reply.error) && user == old(user) && token == old(token) && storage == old(storage)
    {
      loading := true;
      loadingTrace := loadingTrace + [true];
      thrown := None;
      if reply.Ok? {
        SetAuth(reply.value.user, reply.value.token);
      } else {
        thrown := Some(reply.error);
      }
      loading := false;
      loadingTrace := loadingTrace + [false];
    }

    /** `updateProfile`: the returned user replaces the session's user and its stored copy. */
    method UpdateProfile(reply: Result<Value, string>) returns (thrown: Option<string>)
      requires Valid()
      modifies this
      ensures Valid()
      ensures !loading && loadingTrace == old(loadingTrace) + [true, false]
      ensures token == old(token)
      ensures reply.Ok? ==>
        thrown == None && user == Some(reply.value) && storage == old(storage)[UserKey := Stringify(reply.value)]
      ensures reply.Err? ==> thrown == Some(reply.error) && user == old(user) && storage == old(storage)
    {
      loading := true;
      loadingTrace := loadingTrace + [true];
      thrown := None;
      if reply.Ok? {
        user := Some(reply.value);
        storage := storage[UserKey := Stringify(reply.value)];
      } else {
        thrown := Some(reply.error);
      }
      loading := false;
      loadingTrace := loadingTrace + [false];
    }

    /** `changePassword`: only `loading` moves, up and back down. */
    method ChangePassword(reply: Result<(), string>) returns (thrown: Option<string>)
      requires Valid()
      modifies this
      ensures Valid()
      ensures !loading && loadingTrace == old(loadingTrace) + [true, false]
      ensures user == old(user) && token == old(token) && storage == old(storage)
      ensures thrown.Some? <==> reply.Err?
    {
      loading := true;
      loadingTrace := loadingTrace + [true];
      thrown := if reply.Err? then Some(reply.error) else None;
      loading := false;
      loadingTrace := loadingTrace + [false];
    }

    /** `logout`: the session cleared; the browser is sent to the login page. */
    method Logout() returns (target: string)
      modifies this
      ensures Valid() && !IsAuthenticated() && target == LoginPath
      ensures user == None && token == None && storage == old(storage) - {TokenKey, UserKey}
      ensures loading == old(loading) && loadingTrace == old(loadingTrace)
    {
      ClearAuth();
      target := LoginPath;
    }
  }

  /** A session saved by `setAuth` and then restored, as on the next page load, has the same user and token. */
  method SavedSessionRestores(saved: map<string, string>, userData: Value, authToken: string)
    returns (restored: AuthStore)
    requires authToken != ""
    ensures restored.user == Some(userData) && restored.token == Some(authToken)
  {
    var first := new AuthStore(saved);
    first.SetAuth(userData, authToken);
    ParseStringify(userData);
    StringifyNotEmpty(userData);
    restored := new AuthStore(first.storage);
  }

  /** The text of a value is never empty, so a stored user always counts as present. */
  lemma StringifyNotEmpty(v: Value)
    ensures Stringify(v) != ""
  {
    StringifyStart(v);
  }

  /** Clearing twice leaves what clearing once leaves. */
  method ClearTwice(s: AuthStore)
    modifies s
    ensures s.user == None && s.token == None && s.storage == old(s.storage) - {TokenKey, UserKey}
  {
    s.ClearAuth();
    s.ClearAuth();
    assert s.storage - {TokenKey, UserKey} == s.storage;
  }
}
