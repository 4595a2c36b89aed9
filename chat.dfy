/** The two decisions the chat proxy makes around its upstream call: which
    system prompt it forwards, and how a failed upstream reply becomes the
    service's own 500 reply. The HTTP call itself is not modelled. */
module ChatRelay {
  import opened JsValue

  /** The system prompt used when the caller supplies none. */
  const DefaultSystem: string := "You are COCO, a helpful AI assistant for social media content creation."
  /** The message used when a failed upstream reply carries none. */
  const FallbackError: string := "API request failed"
  /** The `error` field of the service's own failure reply. */
  const FailureTitle: string := "Failed to get AI response"
  /** The HTTP status of that reply. */
  const FailureStatus: nat := 500

  /** The system prompt forwarded upstream, given the body's `system` value:
      `system || DefaultSystem`. */
  function SystemPrompt(system: Val): (r: Val)
    ensures Truthy(r)
    ensures r == system <==> Truthy(system)
    ensures !Truthy(system) ==> r == Str(DefaultSystem)
  {
    Or(system, Str(DefaultSystem))
  }

  /** The `error` property of an upstream reply body: absent or null (where
      `?.` stops), or present with a `message` property (Missing if absent). */
  datatype ErrorField = NoErrorObject | ErrorObject(message: Val)

  /** An upstream reply body: its `error` property and the rest, opaque. */
  datatype UpstreamData = UpstreamData(error: ErrorField, rest: seq<(string, Val)>)

  /** The message of the error thrown on a failed upstream reply:
      `data.error?.message || FallbackError`. */
  function UpstreamErrorMessage(error: ErrorField): (r: Val)
    ensures Truthy(r)
    ensures error.ErrorObject? && Truthy(error.message) ==> r == error.message
    ensures !(error.ErrorObject? && Truthy(error.message)) ==> r == Str(FallbackError)
  {
    var chained := match error
      case NoErrorObject => Missing
      case ErrorObject(m) => m;
    Or(chained, Str(FallbackError))
  }

  /** What the chat endpoint sends back: the upstream body itself, or a
      failure envelope `{ error, message }` with its status. */
  datatype ChatReply = PassThrough(data: UpstreamData) | Failed(status: nat, error: string, message: Val)

  /** The reply to the caller, given whether the upstream status was a
      success (`response.ok`) and the parsed upstream body. */
  function ChatReplyFor(ok: bool, data: UpstreamData): (r: ChatReply)
    ensures r.PassThrough? <==> ok
    ensures ok ==> r.data == data
    ensures !ok ==> r.status == FailureStatus && r.error == FailureTitle
    ensures !ok ==> r.message == UpstreamErrorMessage(data.error) && Truthy(r.message)
  {
    if ok then PassThrough(data)
    else Failed(FailureStatus, FailureTitle, UpstreamErrorMessage(data.error))
  }
}
