/** The requests that the test engine broadcasts to its clients. */
module Messages {
  const REQ_ACTION_REQUEST := "action_request"
  const REQ_ACTION_TYPE_SHUTDOWN := "shutdown"

  /** The body of a request; a shutdown names no action. */
  datatype Request = Request(requestType: string, actionName: string, instanceId: string)

  /** A dictionary with one key, or one with none or several. */
  datatype Message = Single(key: string, body: Request) | Other
}
