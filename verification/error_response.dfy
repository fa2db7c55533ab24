/** The error body the server sends with a failed request. */
module ErrorBodies {
  import opened Wrappers

  /** The two optional fields of the error body. */
  datatype ErrorResponse = ErrorResponse(message: Option<string>, detail: Option<string>)

  /**
   * getErrorMessage: "message: <m>" if there is a message; then, if there is a
   * detail, ", " when something was already written and "detail: <d>".
   */
  function ErrorMessage(e: ErrorResponse): (r: string)
    ensures e.message.None? && e.detail.None? ==> r == ""
    ensures e.message.Some? && e.detail.None? ==> r == "message: " + e.message.value
    ensures e.message.None? && e.detail.Some? ==> r == "detail: " + e.detail.value
    ensures e.message.Some? && e.detail.Some? ==> r == "message: " + e.message.value + ", detail: " + e.detail.value
    ensures r == "" <==> e.message.None? && e.detail.None?
  {
    var sb := if e.message.Some? then "message: " + e.message.value else "";
    if e.detail.Some? then
      var sb := if |sb| != 0 then sb + ", " else sb;
      sb + "detail: " + e.detail.value
    else sb
  }
}
