/**
 * The new-project form (`src/app/dashboard/projects/components/NewProjectForm.tsx`):
 * checks the name and posts the project with a trimmed name and an optional
 * trimmed description.
 */
module NewProjectForm {
  import opened Wrappers
  import opened Js
  import opened FormRequests
  import opened LocalStorage
  import AuthUtils

  const NameRequired: string := "Project name is required"
  const CreateFailed: string := "Failed to create project"

  /** The check of `handleSubmit`: the message, or `None` to go on. */
  function ProjectCheck(name: string): Option<string> {
    if Trim(name) == "" then Some(NameRequired) else None
  }

  /** A name is refused exactly when it is blank. */
  lemma ProjectCheckBlank(name: string)
    ensures ProjectCheck(name) == Some(NameRequired) <==> IsBlank(name)
    ensures ProjectCheck(name) == None <==> !IsBlank(name)
  {
    TrimBlank(name);
  }

  /** The body posted: `description` is `null` when blank. */
  datatype NewProject = NewProject(name: string, description: Option<string>)

  function ProjectBodyOf(name: string, description: string): NewProject {
    var d := Trim(description);
    NewProject(Trim(name), if d == "" then None else Some(d))
  }

  /**
   * For a name the check lets through, the body's name is non-empty and has no
   * surrounding whitespace, and the description is left out exactly when blank.
   */
  lemma ProjectBodyShape(name: string, description: string)
    requires ProjectCheck(name) == None
    ensures var b := ProjectBodyOf(name, description);
      && b.name != "" && !IsWhitespace(b.name[0]) && !IsWhitespace(b.name[|b.name| - 1])
      && (b.description == None <==> IsBlank(description))
      && (b.description.Some? ==> b.description.value == Trim(description))
  {
    TrimBlank(name);
    TrimBlank(description);
  }

  /** Entering a posted body's own values again posts the same body. */
  lemma ProjectBodyStable(name: string, description: string)
    ensures var b := ProjectBodyOf(name, description);
      ProjectBodyOf(b.name, b.description.GetOr("")) == b
  {
    TrimIdempotent(name);
    TrimIdempotent(description);
    assert Trim("") == "";
  }

  class Form {
    var name: string
    var description: string
    var loading: bool
    var error: Option<string>
    /** The bodies posted to `/api/projects`, in order. */
    var sent: seq<NewProject>
    /** How many times `onSuccess` was called. */
    var successes: nat

    constructor ()
      ensures name == "" && description == "" && !loading && error == None && sent == [] && successes == 0
    {
      name, description := "", "";
      loading, error := false, None;
      sent, successes := [], 0;
    }

    /**
     * The synchronous start of `handleSubmit`: the error is cleared, then the name
     * is checked; passing sets `loading`.
     */
    method Validate() returns (proceed: bool)
      modifies this
      ensures proceed <==> ProjectCheck(name) == None
      ensures error == ProjectCheck(name)
      ensures loading == (proceed || old(loading))
      ensures unchanged(this`name, this`description, this`sent, this`successes)
    {
      error := None;
      var check := ProjectCheck(name);
      if check.Some? {
        error := check;
        return false;
      }
      loading := true;
      return true;
    }

    /**
     * The `try` block of `handleSubmit` and its `finally`: no request without a
     * token; `loading` is cleared on every path.
     */
    method Send(window: Storage?, answer: Answer)
      modifies this
      ensures !loading
      ensures !Truthy(AuthUtils.GetStoredToken(window)) ==>
        error == Some(NoAuthToken) && sent == old(sent) && successes == old(successes)
      ensures Truthy(AuthUtils.GetStoredToken(window)) ==> sent == old(sent) + [ProjectBodyOf(name, description)]
      ensures Truthy(AuthUtils.GetStoredToken(window)) && answer.AnswerOk? ==>
        successes == old(successes) + 1 && error == old(error)
      ensures Truthy(AuthUtils.GetStoredToken(window)) && !answer.AnswerOk? ==>
        successes == old(successes) && error == Some(FailureMessage(answer, CreateFailed, CreateFailed))
      ensures unchanged(this`name, this`description)
    {
      var token := AuthUtils.GetStoredToken(window);
      if !Truthy(token) {
        error := Some(NoAuthToken);
        loading := false;
        return;
      }
      sent := sent + [ProjectBodyOf(name, description)];
      if answer.AnswerOk? {
        successes := successes + 1;
      } else {
        error := Some(FailureMessage(answer, CreateFailed, CreateFailed));
      }
      loading := false;
    }

    /** `handleSubmit`: a request goes out only for a non-blank name and a stored token. */
    method Submit(window: Storage?, answer: Answer)
      modifies this
      ensures var check := ProjectCheck(name);
        var token := Truthy(AuthUtils.GetStoredToken(window));
        && (check.Some? ==> error == check && sent == old(sent) && successes == old(successes) && loading == old(loading))
        && (check.None? ==> !loading)
        && (check.None? && !token ==> error == Some(NoAuthToken) && sent == old(sent))
        && (check.None? && token ==> sent == old(sent) + [ProjectBodyOf(name, description)])
        && (check.None? && token && answer.AnswerOk? ==> successes == old(successes) + 1 && error == None)
        && (check.None? && token && !answer.AnswerOk? ==>
              error == Some(FailureMessage(answer, CreateFailed, CreateFailed)))
        && successes == old(successes) + (if check.None? && token && answer.AnswerOk? then 1 else 0)
      ensures unchanged(this`name, this`description)
    {
      var proceed := Validate();
      if proceed {
        Send(window, answer);
      }
    }
  }
}
