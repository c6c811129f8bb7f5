/** The mobile app's session: who is signed in and with which token, kept
    in memory and mirrored in secure storage under "token" and "user". */
module AuthContext {
  import opened Wrappers
  import opened Mobile

  datatype AuthState = AuthState(user: Option<AppUser>, token: Option<string>, isLoading: bool)

  /** Once loading is over, a token is held exactly when a user is. */
  predicate Settled(s: AuthState) {
    !s.isLoading && (s.token.Some? <==> s.user.Some?)
  }

  /** The state `restoreToken` settles on: the stored pair when both are
      present and the user record parses, otherwise signed out. `parse`
      stands for `JSON.parse`, None when it throws; `storageFails` for a
      rejected `getItemAsync`. */
  function Restored(token: Option<string>, userString: Option<string>,
                    parse: string -> Option<AppUser>, storageFails: bool): (s: AuthState)
    ensures Settled(s)
    ensures s.token.Some? <==> !storageFails && Truthy(token) && Truthy(userString) && parse(userString.value).Some?
    ensures s.token.Some? ==> s.token == token && s.user == parse(userString.value)
  {
    if !storageFails && Truthy(token) && Truthy(userString) && parse(userString.value).Some? then
      AuthState(parse(userString.value), token, false)
    else
      AuthState(None, None, false)
  }

  /** The state `refreshUser` leads to: when a token is stored and `/users/me`
      answers with a user, that user replaces the one in memory; otherwise,
      and when reading or writing storage fails (the catch block), nothing
      changes. The token and the loading flag are never touched. */
  function Refreshed(s: AuthState, storedToken: Option<string>, me: Reply<Option<AppUser>>, storageFails: bool): (r: AuthState)
    ensures r.token == s.token && r.isLoading == s.isLoading
    ensures r.user == if !storageFails && Truthy(storedToken) && me.Ok? && me.body.Some? then me.body else s.user
    ensures storageFails ==> r == s
    ensures Settled(s) && s.token.Some? ==> Settled(r)
  {
    if !storageFails && Truthy(storedToken) && me.Ok? && me.body.Some? then s.(user := me.body) else s
  }

  /** The session provider: its state and the storage it mirrors into. */
  class Session {
    var state: AuthState
    const store: SecureStore

    /** The provider's initial state, before `restoreToken` has run. */
    constructor (store: SecureStore)
      ensures state == AuthState(None, None, true) && this.store == store
    {
      state := AuthState(None, None, true);
      this.store := store;
    }

    method RestoreToken(parse: string -> Option<AppUser>, storageFails: bool)
      modifies this
      ensures state == Restored(store.GetItem(TokenKey), store.GetItem(UserKey), parse, storageFails)
      ensures Settled(state)
    {
      if storageFails {
        state := AuthState(None, None, false);
        return;
      }
      var token := store.GetItem(TokenKey);
      var userString := store.GetItem(UserKey);
      if Truthy(token) && Truthy(userString) {
        var user := parse(userString.value);
        if user.Some? {
          state := AuthState(user, token, false);
        } else {
          state := AuthState(None, None, false);
        }
      } else {
        state := AuthState(None, None, false);
      }
    }

    /** Store the pair, then publish it. `stringify` is `JSON.stringify`. */
    method SignIn(token: string, user: AppUser, stringify: AppUser -> string)
      modifies this, store
      ensures store.items == old(store.items)[TokenKey := token][UserKey := stringify(user)]
      ensures state == AuthState(Some(user), Some(token), false)
      ensures Settled(state)
    {
      store.SetItem(TokenKey, token);
      store.SetItem(UserKey, stringify(user));
      state := AuthState(Some(user), Some(token), false);
    }

    method SignOut()
      modifies this, store
      ensures store.items == old(store.items) - {TokenKey, UserKey}
      ensures state == AuthState(None, None, false)
      ensures Settled(state)
    {
      store.DeleteItem(TokenKey);
      store.DeleteItem(UserKey);
      state := AuthState(None, None, false);
    }

    /** `me` is the reply's `data.data.user`: None when the reply has no
        user; an error reply is caught and changes nothing. */
    method RefreshUser(me: Reply<Option<AppUser>>, stringify: AppUser -> string, storageFails: bool)
      modifies this, store
      ensures state == Refreshed(old(state), old(store.GetItem(TokenKey)), me, storageFails)
      ensures store.items == if !storageFails && Truthy(old(store.GetItem(TokenKey))) && me.Ok? && me.body.Some?
                             then old(store.items)[UserKey := stringify(me.body.value)]
                             else old(store.items)
    {
      if storageFails {
        return;
      }
      var token := store.GetItem(TokenKey);
      if !Truthy(token) {
        return;
      }
      if me.Ok? && me.body.Some? {
        store.SetItem(UserKey, stringify(me.body.value));
        state := state.(user := me.body);
      }
    }
  }

  /** Signing in and then restoring (as on the next app start) gives back
      the same session, provided the stored user record parses back. */
  lemma SignInThenRestore(token: string, user: AppUser, items: map<string, string>,
                          stringify: AppUser -> string, parse: string -> Option<AppUser>)
    requires token != "" && stringify(user) != ""
    requires parse(stringify(user)) == Some(user)
    ensures var stored := items[TokenKey := token][UserKey := stringify(user)];
      Restored(Lookup(stored, TokenKey), Lookup(stored, UserKey), parse, false) == AuthState(Some(user), Some(token), false)
  {
    var stored := items[TokenKey := token][UserKey := stringify(user)];
    assert TokenKey != UserKey;
    assert stored[TokenKey] == token;
  }

  /** After signing out, the next app start finds nothing and stays
      signed out, whatever else the storage holds. */
  lemma SignOutThenRestore(items: map<string, string>, parse: string -> Option<AppUser>)
    ensures var stored := items - {TokenKey, UserKey};
      Restored(Lookup(stored, TokenKey), Lookup(stored, UserKey), parse, false) == AuthState(None, None, false)
  {
  }
}
