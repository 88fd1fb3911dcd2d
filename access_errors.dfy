/** The alert shown when capture access fails, chosen by the error's name. */
module AccessErrors {

  const DENIED := "Access to camera and microphone was denied."
  const NOT_FOUND := "No camera or microphone found."
  const OVERCONSTRAINED := "The resolution requested is not supported by your camera."
  const GENERIC := "An error occurred while accessing media devices."

  /** Message for an error name; every name gets exactly one of the four
      messages, and each specific message belongs to exactly one name. */
  function HandleMediaAccessError(name: string): (message: string)
    ensures message in {DENIED, NOT_FOUND, OVERCONSTRAINED, GENERIC}
    ensures message == DENIED <==> name == "NotAllowedError"
    ensures message == NOT_FOUND <==> name == "NotFoundError"
    ensures message == OVERCONSTRAINED <==> name == "OverconstrainedError"
    ensures message == GENERIC <==> name !in {"NotAllowedError", "NotFoundError", "OverconstrainedError"}
  {
    if name == "NotAllowedError" then DENIED
    else if name == "NotFoundError" then NOT_FOUND
    else if name == "OverconstrainedError" then OVERCONSTRAINED
    else GENERIC
  }
}
