/**
 * The feedback every component shows: a `message` string with an `isError`
 * flag, shown as a banner only while the message is non-empty, and the
 * `Error: ${errorData.error || fallback}` text written after a failed response.
 */
module Feedback {
  import opened Js

  /** The coloured box `{message && <div ...>}` renders. */
  datatype Banner = Banner(text: string, isError: bool)

  function BannerOf(message: string, isError: bool): (b: Option<Banner>)
    ensures b.Some? <==> message != ""
    ensures b.Some? ==> b.value.text == message && b.value.isError == isError
  {
    if message != "" then Some(Banner(message, isError)) else None
  }

  /** The message after a failed response: the server's error text, or the fallback when it has none. */
  function ErrorText(serverError: Option<string>, fallback: string): (text: string)
    ensures Truthy(serverError) ==> text == "Error: " + serverError.value
    ensures !Truthy(serverError) ==> text == "Error: " + fallback
  {
    "Error: " + OrElse(serverError, fallback)
  }
}
