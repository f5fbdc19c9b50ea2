/**
 * The authentication store: `userName`, `userEmail` and the `isAuth` flag, each setter
 * overwriting one field through `set((state) => ({ ...state, field }))`.
 */
module AuthStore {

  datatype State = State(userName: string, userEmail: string, isAuth: bool)

  /** The state the store is created with: no user, not authenticated. */
  const Initial := State("", "", false)

  /** The updater of `addAuth`: authenticated, name and email kept. */
  function Authenticated(s: State): (r: State)
    ensures r.isAuth && r.userName == s.userName && r.userEmail == s.userEmail
  {
    s.(isAuth := true)
  }

  /** The updater of `removeAuth`: not authenticated, name and email kept. */
  function Unauthenticated(s: State): (r: State)
    ensures !r.isAuth && r.userName == s.userName && r.userEmail == s.userEmail
  {
    s.(isAuth := false)
  }

  /** The updater of `setUserName`. */
  function WithUserName(s: State, name: string): (r: State)
    ensures r.userName == name && r.userEmail == s.userEmail && r.isAuth == s.isAuth
  {
    s.(userName := name)
  }

  /** The updater of `setUserEmail`. */
  function WithUserEmail(s: State, email: string): (r: State)
    ensures r.userEmail == email && r.userName == s.userName && r.isAuth == s.isAuth
  {
    s.(userEmail := email)
  }

  /** `addAuth` and `removeAuth` are idempotent, and the later of the two decides the flag. */
  lemma AuthFlagIdempotent(s: State)
    ensures Authenticated(Authenticated(s)) == Authenticated(s)
    ensures Unauthenticated(Unauthenticated(s)) == Unauthenticated(s)
    ensures Authenticated(Unauthenticated(s)) == Authenticated(s)
    ensures Unauthenticated(Authenticated(s)) == Unauthenticated(s)
  {
  }

  /** Setters of different fields commute. */
  lemma SettersCommute(s: State, name: string, email: string)
    ensures WithUserName(WithUserEmail(s, email), name) == WithUserEmail(WithUserName(s, name), email)
    ensures Authenticated(WithUserName(s, name)) == WithUserName(Authenticated(s), name)
    ensures Authenticated(WithUserEmail(s, email)) == WithUserEmail(Authenticated(s), email)
    ensures Unauthenticated(WithUserName(s, name)) == WithUserName(Unauthenticated(s), name)
    ensures Unauthenticated(WithUserEmail(s, email)) == WithUserEmail(Unauthenticated(s), email)
  {
  }

  class Store {
    var userName: string
    var userEmail: string
    var isAuth: bool

    function Current(): State
      reads this
    {
      State(userName, userEmail, isAuth)
    }

    constructor ()
      ensures Current() == Initial
    {
      userName, userEmail, isAuth := "", "", false;
    }

    method AddAuth()
      modifies this
      ensures Current() == Authenticated(old(Current()))
    {
      isAuth := true;
    }

    method RemoveAuth()
      modifies this
      ensures Current() == Unauthenticated(old(Current()))
    {
      isAuth := false;
    }

    method SetUserName(name: string)
      modifies this
      ensures Current() == WithUserName(old(Current()), name)
    {
      userName := name;
    }

    method SetUserEmail(email: string)
      modifies this
      ensures Current() == WithUserEmail(old(Current()), email)
    {
      userEmail := email;
    }
  }
}
