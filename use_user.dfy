/** The `useUser` hook (client/src/hooks/useUser.ts): it restores a saved user into the store
    when nobody is signed in, and exposes the store's user state. */
module UseUser {
  import opened Wrappers
  import opened Models
  import UserJson
  import opened UserSlice

  /** What the hook returns. */
  datatype UserView = UserView(user: Option<User>, isAuthenticated: bool, loading: bool,
                               error: Option<string>, successMessage: Option<string>)

  function View(s: UserStore): (v: UserView)
    reads s
    ensures v.user == s.user && v.isAuthenticated == s.isAuthenticated && v.loading == s.loading
    ensures v.error == s.error && v.successMessage == s.successMessage
  {
    UserView(s.user, s.isAuthenticated, s.loading, s.error, s.successMessage)
  }

  /** The saved text, when there is one that is not empty (the hook's `if (savedUser)`). */
  function SavedText(storage: map<string, string>): (r: Option<string>)
    ensures r.Some? <==> UserKey in storage && storage[UserKey] != []
    ensures r.Some? ==> r.value == storage[UserKey]
  {
    if UserKey in storage && storage[UserKey] != [] then Some(storage[UserKey]) else None
  }

  /** The hook's effect. Signed in, or nothing saved: nothing changes. Saved text that reads as
      a user: that user is loaded. Saved text that does not: it is removed. */
  method RestoreUser(s: UserStore)
    modifies s
    ensures old(s.isAuthenticated) || SavedText(old(s.storage)).None? ==>
              s.user == old(s.user) && s.isAuthenticated == old(s.isAuthenticated) && s.storage == old(s.storage)
    ensures !old(s.isAuthenticated) && SavedText(old(s.storage)).Some? ==>
              var u := UserJson.Decode(SavedText(old(s.storage)).value);
              (u.Some? ==> s.user == u && s.isAuthenticated && s.storage == old(s.storage)) &&
              (u.None? ==> s.user == old(s.user) && !s.isAuthenticated && s.storage == old(s.storage) - {UserKey})
    ensures s.loading == old(s.loading) && s.error == old(s.error) && s.successMessage == old(s.successMessage)
  {
    if !s.isAuthenticated {
      var saved := SavedText(s.storage);
      if saved.Some? {
        var u := UserJson.Decode(saved.value);
        if u.Some? {
          s.LoadUserFromStorage(u.value);
        } else {
          s.storage := s.storage - {UserKey};
        }
      }
    }
  }

  /** After a sign-in, a new store over the same browser storage restores the same user,
      without the greeting. */
  method ReloadRestoresUser(payload: User) returns (v: UserView)
    ensures v.user == Some(payload.(message := None)) && v.isAuthenticated
    ensures v.error == None && v.successMessage == None && !v.loading
  {
    var first := new UserStore(map[]);
    first.Pending();
    first.Fulfilled(payload);
    var second := new UserStore(first.storage);
    RestoreUser(second);
    v := View(second);
  }

  /** Saved text that is not a user record is dropped and nobody is signed in. */
  method CorruptSavedUser(text: string) returns (v: UserView, remaining: map<string, string>)
    requires text != [] && UserJson.Decode(text).None?
    ensures v.user == None && !v.isAuthenticated && UserKey !in remaining
  {
    var s := new UserStore(map[UserKey := text]);
    RestoreUser(s);
    v := View(s);
    remaining := s.storage;
  }
}
