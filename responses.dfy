/** The success value the API returns from a send (`EmailResponse`). */
module Responses {

  /** `{success, message, error}` as the API sends it; `error` is "" when
      absent. */
  datatype EmailResponse = EmailResponse(success: bool, message: string, error: string) {

    /** `IsSuccessful`: whether the API reported the email as queued. */
    predicate IsSuccessful() {
      success
    }

    /** `HasError`: whether the response carries an error text. */
    predicate HasError() {
      error != ""
    }
  }

  /** `NewEmailResponse`: a response without an error text. */
  function NewEmailResponse(success: bool, message: string): (r: EmailResponse)
    ensures r.IsSuccessful() == success && r.message == message
    ensures !r.HasError()
  {
    EmailResponse(success, message, "")
  }

  /** `NewEmailResponseWithError`: all three fields as given. */
  function NewEmailResponseWithError(success: bool, message: string, errorMsg: string): (r: EmailResponse)
    ensures r.IsSuccessful() == success && r.message == message && r.error == errorMsg
    ensures r.HasError() <==> errorMsg != ""
  {
    EmailResponse(success, message, errorMsg)
  }
}
