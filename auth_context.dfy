/** The auth provider of context/AuthContext.tsx: the signed-in user and a loading
    flag, set around each call into the store; the boolean results of login and
    signup say whether the store call succeeded. */
module AuthContext {
  import opened Types
  import opened Collections
  import opened Text
  import opened Db
  import opened Api

  class AuthProvider {
    const api: Store
    var user: Option<User>
    var isLoading: bool

    /** The provider mounts signed out, loading. */
    constructor (api: Store)
      ensures this.api == api && user == None && isLoading
    {
      this.api := api;
      user := None;
      isLoading := true;
    }

    /** `initAuth`: seed the store first, then take the stored session as the user;
        loading ends. */
    method InitAuth()
      modifies this`user, this`isLoading, api`users, api`products
      ensures api.users == Some(SeedUsers(Read(old(api.users), []), api.admin))
      ensures api.products == Some(SeedProducts(Read(old(api.products), []), api.catalog))
      ensures user == api.session
      ensures !isLoading
    {
      api.InitializeDatabase();
      var currentUser := api.Me();
      user := currentUser;
      isLoading := false;
    }

    /** `login`: true, with the store's user signed in, exactly when some stored user
        has the normalised contact and the password; false leaves the user alone. */
    method Login(contact: string, password: string) returns (ok: bool)
      modifies this`user, this`isLoading, api`session
      ensures var us := Read(api.users, []); var c := NormalizeContact(contact);
        && (ok <==> exists i :: 0 <= i < |us| && Lower(us[i].contact) == c && us[i].password == Some(password))
        && (ok ==> user == FindByCredentials(us, c, password) && user == api.session)
        && (!ok ==> user == old(user) && api.session == old(api.session))
      ensures !isLoading
    {
      isLoading := true;
      var result := api.Login(contact, password);
      if result.Ok? {
        user := Some(result.value);
        ok := true;
      } else {
        ok := false;
      }
      isLoading := false;
    }

    /** `signup`: false, leaving the user alone, when the normalised contact is
        taken; otherwise true with the new user signed in. */
    method Signup(name: string, contact: string, password: string, now: nat) returns (ok: bool)
      modifies this`user, this`isLoading, api`users, api`session
      ensures var us := Read(old(api.users), []); var c := NormalizeContact(contact);
        && (!ok <==> exists i :: 0 <= i < |us| && Lower(us[i].contact) == c)
        && (!ok ==> user == old(user) && api.users == old(api.users) && api.session == old(api.session))
        && (ok ==> user == Some(NewUser(name, contact, password, now)) && user == api.session
                   && api.users == Some(us + [NewUser(name, contact, password, now)]))
      ensures !isLoading
      ensures old(api.ContactsUnique()) ==> api.ContactsUnique()
    {
      isLoading := true;
      var result := api.Signup(name, contact, password, now);
      if result.Ok? {
        user := Some(result.value);
        ok := true;
      } else {
        ok := false;
      }
      isLoading := false;
    }

    /** `logout`: the stored session is removed and the user cleared; doing it again
        changes nothing. */
    method Logout()
      modifies this`user, api`session
      ensures user == None && api.session == None
    {
      api.Logout();
      user := None;
    }

    /** `deleteProfile`: nothing when signed out; otherwise the signed-in user's id is
        removed from the stored users, the session removed and the user cleared. */
    method DeleteProfile()
      modifies this`user, api`users, api`session
      ensures old(user).None? ==>
        user == None && api.users == old(api.users) && api.session == old(api.session)
      ensures old(user).Some? ==>
        && api.users == Some(WithoutUser(Read(old(api.users), []), old(user).value.id))
        && api.session == None && user == None
      ensures user == api.session || old(user).None?
      ensures old(api.ContactsUnique()) ==> api.ContactsUnique()
    {
      if user.None? {
        return;
      }
      api.DeleteAccount(user.value.id);
      user := None;
    }
  }
}
