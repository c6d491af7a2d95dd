/**
 * What a form sees of its `fetch`: an ok response, a refusal whose JSON body may
 * carry an `error` string, or a thrown value. The forms turn the last two into the
 * message they show.
 */
module FormRequests {
  import opened Wrappers
  import opened Js

  const NoAuthToken: string := "No auth token found"

  /**
   * `AnswerThrows(Some(m))` is an `Error` whose `message` is `m` (what a failed
   * `fetch` or an unreadable body rejects with); `AnswerThrows(None)` is any other
   * thrown value.
   */
  datatype Answer =
    | AnswerOk
    | AnswerNotOk(error: Option<string>)
    | AnswerThrows(thrown: Option<string>)

  /**
   * The message shown for a failed request: `new Error(errorData.error || fallback)`
   * on a refusal, caught as `err instanceof Error ? err.message : otherwise`.
   */
  function FailureMessage(answer: Answer, fallback: string, otherwise: string): (m: string)
    requires !answer.AnswerOk?
    ensures answer.AnswerNotOk? ==> (m == fallback <==> !Truthy(answer.error) || answer.error.value == fallback)
    ensures answer.AnswerNotOk? && Truthy(answer.error) ==> m == answer.error.value
    ensures answer.AnswerThrows? ==> m == answer.thrown.GetOr(otherwise)
  {
    match answer
    case AnswerNotOk(error) => if Truthy(error) then error.value else fallback
    case AnswerThrows(thrown) => if thrown.Some? then thrown.value else otherwise
  }
}
