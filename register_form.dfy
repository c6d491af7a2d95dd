/**
 * The registration form (`src/components/forms/RegisterForm.tsx`): three checks
 * in order on the four fields, then `authApi.register` with name, email and
 * password, and a redirect to the login page on success.
 */
module RegisterForm {
  import opened Wrappers
  import opened Js
  import opened FormRequests
  import opened Store
  import opened AuthUtils
  import RegisterRoute

  const FieldsRequired: string := "All fields are required."
  const PasswordsDiffer: string := "Passwords do not match."
  const PasswordShort: string := "Password must be at least 6 characters long."
  /** `authApi.register`'s message when the refusal carries no `error`. */
  const RegistrationFailed: string := "Registration failed"
  /** The message for a thrown value that is not an `Error`. */
  const TryAgain: string := "Registration failed. Please try again."
  const AfterRegistration: string := "/login?registered=true"

  /** The client-side checks of `handleSubmit`, in order: the message, or `None` to go on. */
  function RegisterCheck(name: string, email: string, password: string, confirmPassword: string): (r: Option<string>)
    ensures r == None <==> name != "" && email != "" && password != "" && password == confirmPassword && |password| >= 6
    ensures r == Some(FieldsRequired) <==> name == "" || email == "" || password == "" || confirmPassword == ""
    ensures r == Some(PasswordsDiffer) <==>
      name != "" && email != "" && password != "" && confirmPassword != "" && password != confirmPassword
    ensures r == Some(PasswordShort) <==>
      name != "" && email != "" && password != "" && password == confirmPassword && |password| < 6
  {
    if name == "" || email == "" || password == "" || confirmPassword == "" then Some(FieldsRequired)
    else if password != confirmPassword then Some(PasswordsDiffer)
    else if |password| < 6 then Some(PasswordShort)
    else None
  }

  /** The `RegisterData` sent: there is no place in it for the confirmation. */
  datatype RegisterData = RegisterData(name: string, email: string, password: string)

  /** The JSON body the route receives for `data`. */
  function AsRequestBody(data: RegisterData): RegisterRoute.RegisterBody {
    RegisterRoute.RegisterJson(Some(data.name), Some(data.email), Some(data.password))
  }

  /**
   * What the form lets through, the route's own checks accept up to the email: the
   * route can only refuse it for its email format or an email already taken, so the
   * form's lack of an email check leaves that check to the route alone.
   */
  lemma RouteRefusesOnlyForEmail(name: string, email: string, password: string, users: map<int, User>)
    requires UsersWellFormed(users)
    requires RegisterCheck(name, email, password, password) == None
    ensures var c := RegisterRoute.CheckRegistration(AsRequestBody(RegisterData(name, email, password)), users);
      && (c.Accept? <==> ValidateEmail(email) && FindUserByEmail(users, email).None?)
      && (c.Reject? ==> c.response.error in {RegisterRoute.InvalidEmail, RegisterRoute.EmailTaken})
      && (c.Accept? ==> c == RegisterRoute.Accept(name, email, password))
  {
    var c := RegisterRoute.CheckRegistration(AsRequestBody(RegisterData(name, email, password)), users);
    if c.Reject? {
      assert ValidatePassword(password) == None;
    }
  }

  /** The form itself sends an address the route's pattern refuses. */
  lemma NoClientEmailCheck()
    ensures RegisterCheck("Ada", "ada", "secret", "secret") == None
    ensures !ValidateEmail("ada")
  {
    assert "ada"[1] != '@' && "ada"[2] != '@';
  }

  class Form {
    var name: string
    var email: string
    var password: string
    var confirmPassword: string
    /** The message shown; `""` shows none. */
    var error: string
    var loading: bool
    /** The bodies handed to `authApi.register`, in order. */
    var sent: seq<RegisterData>
    /** The paths `router.push` was given, in order. */
    var pushed: seq<string>

    constructor ()
      ensures name == "" && email == "" && password == "" && confirmPassword == ""
      ensures error == "" && !loading && sent == [] && pushed == []
    {
      name, email, password, confirmPassword := "", "", "", "";
      error, loading := "", false;
      sent, pushed := [], [];
    }

    /**
     * The synchronous start of `handleSubmit`: the error is cleared, then the
     * checks run; passing them sets `loading`.
     */
    method Validate() returns (proceed: bool)
      modifies this
      ensures proceed <==> RegisterCheck(name, email, password, confirmPassword) == None
      ensures error == RegisterCheck(name, email, password, confirmPassword).GetOr("")
      ensures loading == (proceed || old(loading))
      ensures name == old(name) && email == old(email) && password == old(password)
      ensures confirmPassword == old(confirmPassword) && sent == old(sent) && pushed == old(pushed)
    {
      error := "";
      var check := RegisterCheck(name, email, password, confirmPassword);
      if check.Some? {
        error := check.value;
        return false;
      }
      loading := true;
      return true;
    }

    /**
     * The `try` block of `handleSubmit` and its `finally`: the request, the
     * redirect or the message, and `loading` cleared.
     */
    method Send(answer: Answer)
      modifies this
      ensures sent == old(sent) + [RegisterData(name, email, password)]
      ensures answer.AnswerOk? ==> pushed == old(pushed) + [AfterRegistration] && error == old(error)
      ensures !answer.AnswerOk? ==>
        pushed == old(pushed) && error == FailureMessage(answer, RegistrationFailed, TryAgain)
      ensures !loading
      ensures name == old(name) && email == old(email) && password == old(password)
      ensures confirmPassword == old(confirmPassword)
    {
      sent := sent + [RegisterData(name, email, password)];
      if answer.AnswerOk? {
        pushed := pushed + [AfterRegistration];
      } else {
        error := FailureMessage(answer, RegistrationFailed, TryAgain);
      }
      loading := false;
    }

    /** `handleSubmit`: nothing is sent unless every check passes. */
    method Submit(answer: Answer)
      modifies this
      ensures var check := RegisterCheck(name, email, password, confirmPassword);
        && (check.Some? ==> error == check.value && sent == old(sent) && pushed == old(pushed) && loading == old(loading))
        && (check.None? ==> sent == old(sent) + [RegisterData(name, email, password)] && !loading)
        && (check.None? && answer.AnswerOk? ==> pushed == old(pushed) + [AfterRegistration] && error == "")
        && (check.None? && !answer.AnswerOk? ==>
              pushed == old(pushed) && error == FailureMessage(answer, RegistrationFailed, TryAgain))
      ensures name == old(name) && email == old(email) && password == old(password)
      ensures confirmPassword == old(confirmPassword)
    {
      var proceed := Validate();
      if proceed {
        Send(answer);
      }
    }
  }
}
