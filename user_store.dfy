/**
 * The client session store of frontend/src/store/userStore.ts: the
 * logged-in user, the authentication flag derived from it, and the browser
 * storage it shares with the rest of the client. The store is persisted:
 * every change of its state is written under the key "user-storage", and a
 * new store (a page reload) starts from what that key holds.
 */
module Session {
  import opened Wrappers

  /** The user record the store keeps. */
  datatype StoreUser = StoreUser(id: nat, username: string, email: string)

  /**
   * A value of the browser storage: plain text (the JWT tokens), or the
   * store's persisted state, standing for the JSON text that encodes it.
   */
  datatype Stored =
    | Text(text: string)
    | PersistedSession(user: Option<StoreUser>, isAuthenticated: bool)

  const AccessTokenKey: string := "accessToken"
  const RefreshTokenKey: string := "refreshToken"
  /** The storage key of the persisted store state. */
  const PersistKey: string := "user-storage"

  /** The three keys the store touches are distinct. */
  lemma StoreKeysDistinct()
    ensures PersistKey != AccessTokenKey && PersistKey != RefreshTokenKey && AccessTokenKey != RefreshTokenKey
  {
    assert PersistKey[0] != AccessTokenKey[0];
    assert PersistKey[0] != RefreshTokenKey[0];
    assert AccessTokenKey[0] != RefreshTokenKey[0];
  }

  /** The browser storage with both token keys removed and every other key kept. */
  function WithoutTokens(storage: map<string, Stored>): (r: map<string, Stored>)
    ensures AccessTokenKey !in r && RefreshTokenKey !in r
    ensures r.Keys <= storage.Keys
    ensures forall k :: k in storage && k != AccessTokenKey && k != RefreshTokenKey ==> k in r && r[k] == storage[k]
  {
    storage - {AccessTokenKey, RefreshTokenKey}
  }

  /** Removing the tokens a second time changes nothing. */
  lemma WithoutTokensIdempotent(storage: map<string, Stored>)
    ensures WithoutTokens(WithoutTokens(storage)) == WithoutTokens(storage)
  {
  }

  /** A storage that holds no token is left as it is. */
  lemma WithoutTokensNoTokens(storage: map<string, Stored>)
    requires AccessTokenKey !in storage && RefreshTokenKey !in storage
    ensures WithoutTokens(storage) == storage
  {
  }

  /**
   * The state a new store rehydrates from the storage: the persisted state
   * when the key holds one, otherwise nobody logged in.
   */
  function Rehydrated(storage: map<string, Stored>): (r: (Option<StoreUser>, bool))
    ensures PersistKey in storage && storage[PersistKey].PersistedSession? ==>
              r == (storage[PersistKey].user, storage[PersistKey].isAuthenticated)
    ensures !(PersistKey in storage && storage[PersistKey].PersistedSession?) ==> r == (None, false)
  {
    if PersistKey in storage && storage[PersistKey].PersistedSession? then
      (storage[PersistKey].user, storage[PersistKey].isAuthenticated)
    else
      (None, false)
  }

  /** A persisted state the store itself wrote keeps the flag equal to whether a user is present. */
  predicate PersistedConsistent(storage: map<string, Stored>)
  {
    PersistKey in storage && storage[PersistKey].PersistedSession? ==>
      (storage[PersistKey].isAuthenticated <==> storage[PersistKey].user.Some?)
  }

  class UserStore {
    var user: Option<StoreUser>
    var isAuthenticated: bool
    /** The browser's localStorage, which the store shares with the rest of the client. */
    var storage: map<string, Stored>

    /** The flag says exactly whether a user is present. */
    ghost predicate Valid()
      reads this
    {
      isAuthenticated <==> user.Some?
    }

    /** The storage holds exactly the store's current state under the persist key. */
    predicate Persisted()
      reads this
    {
      PersistKey in storage && storage[PersistKey] == PersistedSession(user, isAuthenticated)
    }

    /**
     * The store as created on page load: the state is rehydrated from the
     * persist key, so a user logged in before the reload is still logged
     * in; rehydrating writes nothing.
     */
    constructor(initialStorage: map<string, Stored>)
      ensures PersistedConsistent(initialStorage) ==> Valid()
      ensures (user, isAuthenticated) == Rehydrated(initialStorage) && storage == initialStorage
    {
      var restored := Rehydrated(initialStorage);
      user := restored.0;
      isAuthenticated := restored.1;
      storage := initialStorage;
    }

    /**
     * setUser: the user is replaced and the flag follows it; the persist
     * layer writes the new state under its key and every other key is kept.
     */
    method SetUser(u: Option<StoreUser>)
      modifies this
      ensures Valid() && Persisted()
      ensures user == u && isAuthenticated == u.Some?
      ensures storage == old(storage)[PersistKey := PersistedSession(u, u.Some?)]
    {
      user := u;
      isAuthenticated := u.Some?;
      storage := storage[PersistKey := PersistedSession(user, isAuthenticated)];
    }

    /**
     * logout: nobody is logged in, the logged-out state is persisted, and
     * both JWT keys are gone from storage; every other key is kept.
     */
    method Logout()
      modifies this
      ensures Valid() && Persisted()
      ensures user == None && !isAuthenticated
      ensures storage == WithoutTokens(old(storage)[PersistKey := PersistedSession(None, false)])
    {
      user := None;
      isAuthenticated := false;
      storage := storage[PersistKey := PersistedSession(user, isAuthenticated)];
      StoreKeysDistinct();
      storage := storage - {AccessTokenKey};
      storage := storage - {RefreshTokenKey};
    }
  }

  /**
   * The promise of the persist layer: after a login, a reload (a new store
   * over the same storage) finds the same user logged in.
   */
  method LoginSurvivesReload(initialStorage: map<string, Stored>, u: StoreUser) returns (restored: Option<StoreUser>, authenticated: bool)
    ensures restored == Some(u) && authenticated
  {
    var store := new UserStore(initialStorage);
    store.SetUser(Some(u));
    var reloaded := new UserStore(store.storage);
    restored := reloaded.user;
    authenticated := reloaded.isAuthenticated;
  }

  /**
   * Logging in then out leaves an unauthenticated store whose storage holds
   * no token, and a reload after it finds nobody logged in.
   */
  method LoginThenLogout(initialStorage: map<string, Stored>, u: StoreUser)
    returns (authenticated: bool, tokensLeft: bool, authenticatedAfterReload: bool)
    ensures !authenticated && !tokensLeft && !authenticatedAfterReload
  {
    var store := new UserStore(initialStorage);
    store.SetUser(Some(u));
    assert store.isAuthenticated;
    store.Logout();
    authenticated := store.isAuthenticated;
    tokensLeft := AccessTokenKey in store.storage || RefreshTokenKey in store.storage;
    var reloaded := new UserStore(store.storage);
    authenticatedAfterReload := reloaded.isAuthenticated;
  }
}
