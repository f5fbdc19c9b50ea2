/** The profile form's submit handler: a partial update of name, email and password. */
module UpdateProfile {
  import opened Wrappers
  import opened Feedback
  import AuthStore

  /** The error fields consulted, in order, when the update fails. */
  const ErrorKeys: seq<string> := ["username", "email", "password"]

  /**
   * The `updates` object, built field by field: a non-empty name or email is sent as is; a
   * non-empty password must equal its confirmation and is then sent; a confirmation alone
   * is neither an error nor sent. A mismatch is reported before an empty update.
   */
  method CollectUpdates(name: string, email: string, password: string, password2: string)
      returns (r: Checked<map<string, string>>)
    ensures r == Rejected(PasswordMismatch) <==> password != "" && password != password2
    ensures r == Rejected(DataError) <==> !(password != "" && password != password2) && name == "" && email == "" && password == ""
    ensures r.Accepted? <==> !(password != "" && password != password2) && !(name == "" && email == "" && password == "")
    ensures r.Accepted? ==>
              && r.value.Keys <= {"username", "email", "password"}
              && ("username" in r.value <==> name != "")
              && ("email" in r.value <==> email != "")
              && ("password" in r.value <==> password != "")
              && ("username" in r.value ==> r.value["username"] == name)
              && ("email" in r.value ==> r.value["email"] == email)
              && ("password" in r.value ==> r.value["password"] == password && password == password2)
  {
    var updates: map<string, string> := map[];
    if name != "" {
      updates := updates["username" := name];
    }
    if email != "" {
      updates := updates["email" := email];
    }
    if password != "" {
      if password != password2 {
        return Rejected(PasswordMismatch);
      }
      updates := updates["password" := password];
    }
    assert "username" in updates <==> name != "";
    assert "email" in updates <==> email != "";
    assert "password" in updates <==> password != "";
    if |updates| == 0 {
      return Rejected(DataError);
    }
    r := Accepted(updates);
  }

  /** The body of a successful update; the empty string stands for a field the reply leaves out. */
  datatype Profile = Profile(username: string, email: string)

  /**
   * `onSubmit`: a refused form sends nothing; on status 200 the store takes the returned
   * username and email, each only when the reply carries it; a failure shows the first of
   * the username, email and password messages and leaves the store as it was.
   */
  method OnSubmit(auth: AuthStore.Store, name: string, email: string, password: string, password2: string,
                  reply: Reply<Profile>) returns (call: Option<map<string, string>>, outcome: Outcome)
    modifies auth
    ensures call.None? <==> outcome.Invalid?
    ensures outcome == Invalid(PasswordMismatch) <==> password != "" && password != password2
    ensures outcome == Invalid(DataError) <==> !(password != "" && password != password2) && name == "" && email == "" && password == ""
    ensures call.Some? ==> call.value.Keys <= {"username", "email", "password"} && |call.value| > 0
    ensures call.Some? <==> !(password != "" && password != password2) && !(name == "" && email == "" && password == "")
    ensures call.Some? ==>
              && ("username" in call.value <==> name != "")
              && ("email" in call.value <==> email != "")
              && ("password" in call.value <==> password != "")
              && ("username" in call.value ==> call.value["username"] == name)
              && ("email" in call.value ==> call.value["email"] == email)
              && ("password" in call.value ==> call.value["password"] == password && password == password2)
    ensures call.Some? && reply.Responded? && reply.status == 200 ==>
              && auth.userName == (if reply.body.username != "" then reply.body.username else old(auth.userName))
              && auth.userEmail == (if reply.body.email != "" then reply.body.email else old(auth.userEmail))
              && auth.isAuth == old(auth.isAuth)
              && outcome == Succeeded
    ensures call.Some? && reply.Responded? && reply.status != 200 ==> outcome == Ignored
    ensures call.Some? && reply.Failed? ==> outcome == ServerError(FirstError(reply.errors, ErrorKeys))
    ensures !(call.Some? && reply.Responded? && reply.status == 200) ==> auth.Current() == old(auth.Current())
  {
    var errorDescription := "";
    var updates := CollectUpdates(name, email, password, password2);
    if updates.Rejected? {
      return None, Invalid(updates.error);
    }
    call := Some(updates.value);
    match reply {
      case Responded(status, body) =>
        if status == 200 {
          if body.username != "" {
            auth.SetUserName(body.username);
          }
          if body.email != "" {
            auth.SetUserEmail(body.email);
          }
          outcome := Succeeded;
        } else {
          outcome := Ignored;
        }
      case Failed(errors) =>
        if Present(errors, "username") {
          errorDescription := errorDescription + errors["username"];
        } else if Present(errors, "email") {
          errorDescription := errorDescription + errors["email"];
        } else if Present(errors, "password") {
          errorDescription := errorDescription + errors["password"];
        }
        FirstOfThree(errors, "username", "email", "password");
        outcome := ServerError(errorDescription);
    }
  }
}
