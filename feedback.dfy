/**
 * What the forms tell the user: local rejections, the server's field-level error messages,
 * the replies the service returns, and the outcome of one submission.
 */
module Feedback {

  /** The reasons a form is refused before any request leaves the client. */
  datatype FormError =
    | DataError         // a required field is empty
    | PasswordMismatch  // "Confirm Password" differs from "Password"
    | AppInUse          // a user is already logged in
    | DateError         // the due date lies before today

  /** A form's verdict: the request payload, or the reason it was refused. */
  datatype Checked<T> = Accepted(value: T) | Rejected(error: FormError)

  /** The `errors` object of a failed response: field name to message. */
  type FieldErrors = map<string, string>

  /** The user record the service returns on registration and login. */
  datatype User = User(username: string, email: string)

  /**
   * An HTTP status the client's requests resolve with: axios, with its default status check,
   * rejects every status outside 200 to 299, and those arrive as `Failed`.
   */
  type SuccessStatus = s: int | 200 <= s < 300 witness 200

  /**
   * A settled request: either a response with its success status and body, or a failure
   * carrying the server's field errors.
   */
  datatype Reply<T> = Responded(status: SuccessStatus, body: T) | Failed(errors: FieldErrors)

  /** What a submission ended in, as far as the user is told. */
  datatype Outcome =
    | Invalid(error: FormError)      // refused locally, no request sent
    | Succeeded                      // expected status: store updated, success toast
    | Ignored                        // another success status: nothing happens
    | ServerError(description: string)  // error toast with this description

  /** JavaScript truthiness of `errors[key]`: the field is there and is not the empty string. */
  predicate Present(errors: FieldErrors, key: string) {
    key in errors && errors[key] != ""
  }

  /**
   * The error description a form shows: the message of the first key in `keys` that is
   * present in `errors`, or the empty string when none is.
   */
  function FirstError(errors: FieldErrors, keys: seq<string>): (r: string)
    ensures r == "" <==> forall i :: 0 <= i < |keys| ==> !Present(errors, keys[i])
    ensures r != "" ==> exists i :: 0 <= i < |keys| && Present(errors, keys[i]) && r == errors[keys[i]]
                                    && forall j :: 0 <= j < i ==> !Present(errors, keys[j])
  {
    if keys == [] then ""
    else if Present(errors, keys[0]) then errors[keys[0]]
    else
      var r := FirstError(errors, keys[1..]);
      assert forall i :: 1 <= i < |keys| ==> keys[i] == keys[1..][i - 1];
      if r != "" then
        var i :| 0 <= i < |keys| - 1 && Present(errors, keys[1..][i]) && r == errors[keys[1..][i]]
                 && forall j :: 0 <= j < i ==> !Present(errors, keys[1..][j]);
        assert Present(errors, keys[i + 1]) && forall j :: 0 <= j < i + 1 ==> !Present(errors, keys[j]);
        r
      else r
  }

  /** One step of the search: the first key decides when it is present, the rest otherwise. */
  lemma FirstErrorStep(errors: FieldErrors, keys: seq<string>)
    requires keys != []
    ensures FirstError(errors, keys) == if Present(errors, keys[0]) then errors[keys[0]] else FirstError(errors, keys[1..])
  {
  }

  /** The search over three keys, unfolded: the first present of `a`, `b`, `c`, else nothing. */
  lemma FirstOfThree(errors: FieldErrors, a: string, b: string, c: string)
    ensures FirstError(errors, [a, b, c]) ==
              if Present(errors, a) then errors[a]
              else if Present(errors, b) then errors[b]
              else if Present(errors, c) then errors[c]
              else ""
  {
    assert [a, b, c][1..] == [b, c] && [b, c][1..] == [c];
    FirstErrorStep(errors, [a, b, c]);
    FirstErrorStep(errors, [b, c]);
    FirstErrorStep(errors, [c]);
  }

  /** The description depends only on the listed keys: any other field of `errors` is never consulted. */
  lemma {:induction false} FirstErrorReadsOnlyKeys(e1: FieldErrors, e2: FieldErrors, keys: seq<string>)
    requires forall i :: 0 <= i < |keys| ==> (keys[i] in e1 <==> keys[i] in e2)
    requires forall i :: 0 <= i < |keys| && keys[i] in e1 ==> e1[keys[i]] == e2[keys[i]]
    ensures FirstError(e1, keys) == FirstError(e2, keys)
  {
    if keys != [] && !Present(e1, keys[0]) {
      FirstErrorReadsOnlyKeys(e1, e2, keys[1..]);
    }
  }
}
