/**
 * What a controller handler produces: the view or redirect it returns, the flash attribute it
 * sets for the next page, and the service call it issued. Handlers read the session's user
 * attribute (null when nobody is logged in) and ask the privilege check about that user.
 */
module Web {
  import opened Wrappers
  import opened Database

  /** The one flash attribute a handler may set: "success" or "error", with its text. */
  datatype Flash = NoFlash | Success(text: string) | Failure(text: string)

  /**
   * A handler's result: its view name or "redirect:" target, its flash, and the service call it
   * issued (of the controller's own request type `C`); or an exception the handler does not catch.
   */
  datatype Response<C> = Response(target: string, flash: Flash, call: Option<C>) | Unhandled(message: string)

  /** Every handler's first step when the session carries no user. */
  function ToLogin<C>(): Response<C> {
    Response("redirect:/login", NoFlash, None)
  }

  /** A denied privilege check: a redirect carrying the error code, no flash, no call. */
  function Denied<C>(target: string): Response<C> {
    Response(target, NoFlash, None)
  }

  /** The flash a handler sets around one service call: its success text, or `failed` followed by the message. */
  function Reported(outcome: Outcome, success: string, failed: string): Flash {
    match outcome
    case Completed => Success(success)
    case Threw(message) => Failure(failed + message)
  }
}
