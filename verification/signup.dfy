/** The sign-up form's submit handler: client-side checks, then the server's answer. */
module Signup {
  import opened Wrappers
  import opened JsText

  /** What `signupUser` resolves to: `data.token`, `data.user` (kept as its JSON text) and `data.message`. */
  datatype SignupReply = SignupReply(token: Option<string>, user: Option<string>, message: Option<string>)

  /** The submit's effect: an error shown on the form, or `login(user, token)`. */
  datatype SignupOutcome = ShowError(error: string) | LogIn(user: Option<string>, token: string)

  const FirstNameRequired: string := "First name is required."
  const PasswordTooShort: string := "Password must be at least 6 characters long."
  const SignupFailed: string := "Failed to sign up."

  /** The minimum password length, counted in UTF-16 code units as `password.length` does. */
  const MinPasswordLength: nat := 6

  /** JavaScript truthiness of an optional string. */
  predicate Truthy(s: Option<string>) {
    s.Some? && |s.value| > 0
  }

  /** The client-side checks, in order; None when the form may be sent. */
  function Validate(firstName: string, password: string): (r: Option<string>)
    ensures r.None? <==> Trim(firstName) != "" && Utf16Length(password) >= MinPasswordLength
    ensures Trim(firstName) == "" ==> r == Some(FirstNameRequired)
    ensures Trim(firstName) != "" && Utf16Length(password) < MinPasswordLength ==> r == Some(PasswordTooShort)
  {
    if Trim(firstName) == "" then Some(FirstNameRequired)
    else if Utf16Length(password) < MinPasswordLength then Some(PasswordTooShort)
    else None
  }

  /**
   * `handleSubmit`: a failed check shows its message; otherwise the untrimmed first name, the
   * email and the password go to `signup`, and a truthy token logs in while anything else shows
   * the reply's message or a fixed fallback.
   */
  function Submit(firstName: string, email: string, password: string,
                  signup: (string, string, string) -> SignupReply): (r: SignupOutcome)
    ensures Validate(firstName, password).Some? ==> r == ShowError(Validate(firstName, password).value)
    ensures r.LogIn? <==> Validate(firstName, password).None? && Truthy(signup(firstName, email, password).token)
    ensures r.LogIn? ==> r.token == signup(firstName, email, password).token.value
    ensures r.LogIn? ==> r.user == signup(firstName, email, password).user
    ensures r.ShowError? && Validate(firstName, password).None? ==>
      var reply := signup(firstName, email, password);
      r.error == if Truthy(reply.message) then reply.message.value else SignupFailed
  {
    match Validate(firstName, password)
    case Some(message) => ShowError(message)
    case None =>
      var reply := signup(firstName, email, password);
      if Truthy(reply.token) then LogIn(reply.user, reply.token.value)
      else ShowError(if Truthy(reply.message) then reply.message.value else SignupFailed)
  }

  /** A form that fails a check never reaches the server: the outcome does not depend on it. */
  lemma InvalidFormSendsNothing(firstName: string, email: string, password: string,
                                signup1: (string, string, string) -> SignupReply,
                                signup2: (string, string, string) -> SignupReply)
    requires Validate(firstName, password).Some?
    ensures Submit(firstName, email, password, signup1) == Submit(firstName, email, password, signup2)
  {
  }

  /** Every outcome shows a non-empty message or logs in with a non-empty token. */
  lemma OutcomeIsNeverBlank(firstName: string, email: string, password: string,
                            signup: (string, string, string) -> SignupReply)
    ensures match Submit(firstName, email, password, signup)
      case ShowError(e) => |e| > 0
      case LogIn(_, token) => |token| > 0
  {
  }

  /** The boundary: five code units are refused, six are accepted. */
  lemma PasswordBoundary(firstName: string)
    requires Trim(firstName) != ""
    ensures Validate(firstName, "12345") == Some(PasswordTooShort)
    ensures Validate(firstName, "123456") == None
  {
    assert Utf16Length("12345") == 5 by {
      assert "12345"[1..] == "2345";
      assert "2345"[1..] == "345";
      assert "345"[1..] == "45";
      assert "45"[1..] == "5";
    }
    assert Utf16Length("123456") == 6 by {
      assert "123456"[1..] == "23456";
      assert "23456"[1..] == "3456";
      assert "3456"[1..] == "456";
      assert "456"[1..] == "56";
      assert "56"[1..] == "6";
    }
  }
}
