/** The login form's submit handler. */
module Login {
  import opened Wrappers
  import opened Feedback
  import AuthStore

  /** The payload of the login request. */
  datatype Credentials = Credentials(username: string, password: string)

  /** The error fields consulted, in order, when login fails; `email` is not among them. */
  const ErrorKeys: seq<string> := ["username", "password"]

  /**
   * The local checks: both fields non-empty, then no user logged in already. Empty fields
   * are reported before the logged-in refusal.
   */
  function CheckLogin(username: string, password: string, isAuth: bool): (r: Checked<Credentials>)
    ensures r == Rejected(DataError) <==> username == "" || password == ""
    ensures r == Rejected(AppInUse) <==> username != "" && password != "" && isAuth
    ensures r.Accepted? <==> username != "" && password != "" && !isAuth
    ensures r.Accepted? ==> r.value == Credentials(username, password)
  {
    if !(username != "" && password != "") then Rejected(DataError)
    else if isAuth then Rejected(AppInUse)
    else Accepted(Credentials(username, password))
  }

  /** Whatever the reply's email error says, the login error description is the same. */
  lemma EmailErrorNeverShown(errors: FieldErrors, message: string)
    ensures FirstError(errors["email" := message], ErrorKeys) == FirstError(errors, ErrorKeys)
  {
    FirstErrorReadsOnlyKeys(errors["email" := message], errors, ErrorKeys);
  }

  /**
   * `onSubmit`: a refused form sends nothing; on status 200 the store becomes authenticated
   * with the returned user's name and email; any other success status changes nothing; a
   * failure shows the username message, else the password message.
   */
  method OnSubmit(auth: AuthStore.Store, username: string, password: string, reply: Reply<User>)
      returns (call: Option<Credentials>, outcome: Outcome)
    modifies auth
    ensures var checked := CheckLogin(username, password, old(auth.isAuth));
            && (checked.Rejected? ==> call == None && outcome == Invalid(checked.error))
            && (checked.Accepted? ==> call == Some(checked.value))
    ensures call.Some? && reply.Responded? && reply.status == 200 ==>
              auth.Current() == AuthStore.State(reply.body.username, reply.body.email, true) && outcome == Succeeded
    ensures call.Some? && reply.Responded? && reply.status != 200 ==> outcome == Ignored
    ensures call.Some? && reply.Failed? ==> outcome == ServerError(FirstError(reply.errors, ErrorKeys))
    ensures !(call.Some? && reply.Responded? && reply.status == 200) ==> auth.Current() == old(auth.Current())
  {
    var credentials := Credentials(username, password);
    if !(credentials.username != "" && credentials.password != "") {
      return None, Invalid(DataError);
    }
    if auth.isAuth {
      return None, Invalid(AppInUse);
    }
    call := Some(credentials);
    match reply {
      case Responded(status, user) =>
        if status == 200 {
          auth.AddAuth();
          auth.SetUserName(user.username);
          auth.SetUserEmail(user.email);
          outcome := Succeeded;
        } else {
          outcome := Ignored;
        }
      case Failed(errors) =>
        var errorDescription := "";
        if Present(errors, "username") {
          errorDescription := errorDescription + errors["username"];
        } else if Present(errors, "password") {
          errorDescription := errorDescription + errors["password"];
        }
        outcome := ServerError(errorDescription);
    }
  }
}
