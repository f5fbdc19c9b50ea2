/** The registration form's submit handler. */
module Register {
  import opened Wrappers
  import opened Feedback
  import AuthStore

  /** The payload of the registration request. */
  datatype Credentials = Credentials(username: string, email: string, password: string)

  /** The error fields consulted, in order, when registration fails. */
  const ErrorKeys: seq<string> := ["username", "email", "password"]

  /**
   * The local checks: every field must be non-empty (nothing is trimmed); only then is a
   * confirmation that differs from the password refused.
   */
  function CheckRegistration(username: string, email: string, password: string, password2: string): (r: Checked<Credentials>)
    ensures r == Rejected(DataError) <==> username == "" || email == "" || password == "" || password2 == ""
    ensures r == Rejected(PasswordMismatch) <==>
              username != "" && email != "" && password != "" && password2 != "" && password != password2
    ensures r.Accepted? <==> username != "" && email != "" && password != "" && password2 != "" && password == password2
    ensures r.Accepted? ==> r.value == Credentials(username, email, password)
  {
    if !(username != "" && email != "" && password != "" && password2 != "") then Rejected(DataError)
    else if password != password2 then Rejected(PasswordMismatch)
    else Accepted(Credentials(username, email, password))
  }

  /**
   * `onSubmit`: a refused form sends nothing; on status 201 the store takes the returned
   * user's name and email and becomes authenticated; any other success status changes
   * nothing; a failure shows the first of the username, email and password messages.
   */
  method OnSubmit(auth: AuthStore.Store, username: string, email: string, password: string, password2: string,
                  reply: Reply<User>) returns (call: Option<Credentials>, outcome: Outcome)
    modifies auth
    ensures var checked := CheckRegistration(username, email, password, password2);
            && (checked.Rejected? ==> call == None && outcome == Invalid(checked.error))
            && (checked.Accepted? ==> call == Some(checked.value))
    ensures call.Some? && reply.Responded? && reply.status == 201 ==>
              auth.Current() == AuthStore.State(reply.body.username, reply.body.email, true) && outcome == Succeeded
    ensures call.Some? && reply.Responded? && reply.status != 201 ==> outcome == Ignored
    ensures call.Some? && reply.Failed? ==> outcome == ServerError(FirstError(reply.errors, ErrorKeys))
    ensures !(call.Some? && reply.Responded? && reply.status == 201) ==> auth.Current() == old(auth.Current())
  {
    var errorDescription := "";
    var credentials := Credentials(username, email, password);
    if !(credentials.username != "" && credentials.email != "" && credentials.password != "" && password2 != "") {
      return None, Invalid(DataError);
    }
    if credentials.password != password2 {
      return None, Invalid(PasswordMismatch);
    }
    call := Some(credentials);
    match reply {
      case Responded(status, user) =>
        if status == 201 {
          auth.SetUserName(user.username);
          auth.SetUserEmail(user.email);
          auth.AddAuth();
          outcome := Succeeded;
        } else {
          outcome := Ignored;
        }
      case Failed(errors) =>
        if Present(errors, "username") {
          errorDescription := errorDescription + errors["username"];
        } else if Present(errors, "email") {
          errorDescription := errorDescription + errors["email"];
        } else if Present(errors, "password") {
          errorDescription := errorDescription + errors["password"];
        }
        FirstOfThree(errors, "username", "email", "password");
        outcome := ServerError(errorDescription);
    }
  }
}
