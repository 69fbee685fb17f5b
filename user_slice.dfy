/** The client's user store (client/src/store/userSlice.ts): the signed-in user, the request
    flags and messages, and the browser storage entry the store writes and removes. */
module UserSlice {
  import opened Wrappers
  import opened Text
  import opened Models
  import Js
  import UserJson

  /** The storage key of the saved user. */
  const UserKey: string := "user"
  const AuthFailedMessage: string := "Failed to authenticate user"
  const FetchFailedMessage: string := "Failed to create/fetch user"

  /** The body `fetchOrCreateUser` posts: the user name without surrounding white space. */
  function RequestUsername(username: string): (r: string)
    ensures IsTrimmed(r)
  {
    Trim(username)
  }

  /** Names that differ only in surrounding white space are posted alike. */
  lemma RequestUsernameIgnoresPadding(username: string)
    ensures RequestUsername(RequestUsername(username)) == RequestUsername(username)
  {
    TrimIdempotent(username);
  }

  /** What `fetchOrCreateUser` resolves with: the response body when the response is ok,
      otherwise the error it throws. */
  function FetchOrCreateOutcome(ok: bool, body: User): (r: Result<User, string>)
    ensures r.Ok? <==> ok
    ensures r.Ok? ==> r.value == body
    ensures r.Err? ==> r.error == FetchFailedMessage
  {
    if ok then Ok(body) else Err(FetchFailedMessage)
  }

  class UserStore {
    var user: Option<User>
    var isAuthenticated: bool
    var loading: bool
    var error: Option<string>
    var successMessage: Option<string>
    /** The browser's `localStorage`, which outlives the store. */
    var storage: map<string, string>

    /** `initialState`, over whatever the browser has stored. */
    constructor (saved: map<string, string>)
      ensures user == None && !isAuthenticated && !loading && error == None && successMessage == None
      ensures storage == saved
    {
      user, isAuthenticated, loading, error, successMessage := None, false, false, None, None;
      storage := saved;
    }

    /** `logout`: signs out and removes the saved user; `loading` and other stored keys stay. */
    method Logout()
      modifies this
      ensures user == None && !isAuthenticated && error == None && successMessage == None
      ensures loading == old(loading) && storage == old(storage) - {UserKey}
    {
      user, isAuthenticated, error, successMessage := None, false, None, None;
      storage := storage - {UserKey};
    }

    /** `loadUserFromStorage`. */
    method LoadUserFromStorage(payload: User)
      modifies this
      ensures user == Some(payload) && isAuthenticated
      ensures loading == old(loading) && error == old(error) && successMessage == old(successMessage)
      ensures storage == old(storage)
    {
      user, isAuthenticated := Some(payload), true;
    }

    /** `clearError`. */
    method ClearError()
      modifies this
      ensures error == None
      ensures user == old(user) && isAuthenticated == old(isAuthenticated) && loading == old(loading)
      ensures successMessage == old(successMessage) && storage == old(storage)
    {
      error := None;
    }

    /** `clearSuccessMessage`. */
    method ClearSuccessMessage()
      modifies this
      ensures successMessage == None
      ensures user == old(user) && isAuthenticated == old(isAuthenticated) && loading == old(loading)
      ensures error == old(error) && storage == old(storage)
    {
      successMessage := None;
    }

    /** `fetchOrCreateUser.pending`. */
    method Pending()
      modifies this
      ensures loading && error == None && successMessage == None
      ensures user == old(user) && isAuthenticated == old(isAuthenticated) && storage == old(storage)
    {
      loading, error, successMessage := true, None, None;
    }

    /** `fetchOrCreateUser.fulfilled`: signs the user in, shows the server's greeting if it is
        not empty, and saves the user without the greeting; the saved text reads back as that
        user. */
    method Fulfilled(payload: User)
      modifies this
      ensures !loading && user == Some(payload) && isAuthenticated && error == None
      ensures successMessage == Js.NonEmpty(payload.message)
      ensures storage == old(storage)[UserKey := UserJson.Encode(payload)]
      ensures UserJson.Decode(storage[UserKey]) == Some(payload.(message := None))
    {
      loading, user, isAuthenticated, error := false, Some(payload), true, None;
      successMessage := Js.NonEmpty(payload.message);
      storage := storage[UserKey := UserJson.Encode(payload)];
      UserJson.DecodeEncode(payload);
    }

    /** `fetchOrCreateUser.rejected`: the error's message, or a fixed text when it is empty. */
    method Rejected(message: Option<string>)
      modifies this
      ensures !loading && error == Some(Js.OrElse(message, AuthFailedMessage)) && successMessage == None
      ensures user == old(user) && isAuthenticated == old(isAuthenticated) && storage == old(storage)
    {
      loading := false;
      error := Some(Js.OrElse(message, AuthFailedMessage));
      successMessage := None;
    }

    /** The store's reaction to one outcome of `fetchOrCreateUser`. */
    method Settle(outcome: Result<User, string>)
      modifies this
      ensures outcome.Ok? ==> user == Some(outcome.value) && isAuthenticated && error == None
      ensures outcome.Ok? ==> storage == old(storage)[UserKey := UserJson.Encode(outcome.value)]
      ensures outcome.Err? ==> error == Some(Js.OrElse(Some(outcome.error), AuthFailedMessage))
      ensures outcome.Err? ==> user == old(user) && isAuthenticated == old(isAuthenticated)
      ensures outcome.Err? ==> storage == old(storage)
      ensures !loading
    {
      if outcome.Ok? {
        Fulfilled(outcome.value);
      } else {
        Rejected(Some(outcome.error));
      }
    }
  }

  /** Signing in and then out leaves nobody signed in and no saved user, whatever was stored. */
  method SignInThenOut(saved: map<string, string>, payload: User) returns (signedIn: bool, hasSaved: bool, other: map<string, string>)
    ensures !signedIn && !hasSaved
    ensures other == saved - {UserKey}
  {
    var store := new UserStore(saved);
    store.Pending();
    store.Fulfilled(payload);
    store.Logout();
    signedIn := store.isAuthenticated || store.user.Some?;
    hasSaved := UserKey in store.storage;
    other := store.storage;
  }

  /** A failed request shows the thunk's own message and signs nobody in. */
  method FailedSignIn(body: User) returns (error: Option<string>, signedIn: bool)
    ensures error == Some(FetchFailedMessage) && !signedIn
  {
    var store := new UserStore(map[]);
    store.Pending();
    store.Settle(FetchOrCreateOutcome(false, body));
    error := store.error;
    signedIn := store.isAuthenticated;
  }
}
