/**
 * The `/webhook` endpoint as a response-code decision: 401 for a bad
 * signature, 400 without an event type or payload, 200 "processed" or
 * "ignored" after the handler ran, and 500 with an error notification when
 * something raised.
 */
module App {
  import opened Wrappers
  import opened Text
  import opened Records
  import opened WebhookHandler

  /**
   * What `request.json` gives: it raises (not JSON), a falsy value, a truthy
   * value that is not an object (a non-empty list, a string, a number,
   * `true`), or an object.
   */
  datatype Json = NotJson | Falsy | NonObject | Object(payload: Payload)

  /** The parts of a delivery the endpoint reads. */
  datatype Delivery = Delivery(signature: Option<string>, event: Option<string>, body: Bytes, json: Json)

  /** An HTTP status and the JSON message sent with it. */
  datatype Response = Response(status: int, message: string)

  const InvalidSignature: Response := Response(401, "Invalid signature")
  const NoEventType: Response := Response(400, "No event type")
  const NoPayload: Response := Response(400, "No payload")
  const Processed: Response := Response(200, "processed")
  const Ignored: Response := Response(200, "ignored")
  const InternalError: Response := Response(500, "Internal server error")

  /** The notification sent when the endpoint catches an exception. */
  function ErrorNotice(d: Delivery): Effect {
    NotifyError("Webhook Processing Error", d.event)
  }

  /** The endpoint's decision before any handler runs. */
  datatype Gate = Respond(response: Response, log: seq<Effect>) | Dispatch(event: string, payload: Payload)

  /**
   * The checks `webhook()` makes, in order: signature, event type, payload.
   * A raise while verifying or while reading the JSON body ends in 500. A
   * truthy body that is not an object is handed on, but every handler's
   * first `payload.get` raises inside its own `try` (and an unknown event
   * type has no handler), so it is answered "ignored" without effects.
   */
  function Admit(d: Delivery, secret: string, hexHmac: HexHmac): (r: Gate)
    ensures VerifySignature(d.signature, secret, d.body, hexHmac) == Some(false) <==> r == Respond(InvalidSignature, [])
    ensures r.Respond? && r.response.status == 400 <==>
      VerifySignature(d.signature, secret, d.body, hexHmac) == Some(true) && (!Truthy(d.event) || d.json.Falsy?)
    ensures r.Respond? && r.response.status == 400 ==> r.log == []
    ensures r.Respond? && r.response == InternalError <==>
      VerifySignature(d.signature, secret, d.body, hexHmac).None?
      || (VerifySignature(d.signature, secret, d.body, hexHmac) == Some(true) && Truthy(d.event) && d.json.NotJson?)
    ensures r.Respond? && r.response == InternalError ==> r.log == [ErrorNotice(d)]
    ensures VerifySignature(d.signature, secret, d.body, hexHmac) == Some(true) && Truthy(d.event) && d.json.NonObject? ==>
      r == Respond(Ignored, [])
    ensures r.Dispatch? <==>
      VerifySignature(d.signature, secret, d.body, hexHmac) == Some(true) && Truthy(d.event) && d.json.Object?
    ensures r.Dispatch? ==> r.event == d.event.value && r.payload == d.json.payload
  {
    match VerifySignature(d.signature, secret, d.body, hexHmac)
    case None => Respond(InternalError, [ErrorNotice(d)])
    case Some(false) => Respond(InvalidSignature, [])
    case Some(true) =>
      if !Truthy(d.event) then Respond(NoEventType, [])
      else
        match d.json
        case NotJson => Respond(InternalError, [ErrorNotice(d)])
        case Falsy => Respond(NoPayload, [])
        case NonObject => Respond(Ignored, [])
        case Object(p) => Dispatch(d.event.value, p)
  }

  /**
   * A rejected signature decides the response before the event type or the
   * payload is looked at: any two deliveries with the same signature and
   * body get the same 401.
   */
  lemma SignatureFirst(d: Delivery, d': Delivery, secret: string, hexHmac: HexHmac)
    requires d.signature == d'.signature && d.body == d'.body
    requires Admit(d, secret, hexHmac).Respond? && Admit(d, secret, hexHmac).response == InvalidSignature
    ensures Admit(d', secret, hexHmac) == Respond(InvalidSignature, [])
  {
  }

  /** A delivery without a signature header is refused with 401, whatever else it carries. */
  lemma UnsignedIsRefused(d: Delivery, secret: string, hexHmac: HexHmac)
    requires d.signature.None?
    ensures Admit(d, secret, hexHmac) == Respond(InvalidSignature, [])
  {
  }

  /**
   * `webhook()`: admit the delivery, then run the handler for its event type;
   * a truthy handler result is "processed", anything else "ignored". The
   * handlers catch their own exceptions, so nothing raises past them.
   */
  method Webhook(d: Delivery, secret: string, hexHmac: HexHmac, w: World)
    returns (response: Response, log: seq<Effect>)
    ensures Admit(d, secret, hexHmac).Respond? ==>
      response == Admit(d, secret, hexHmac).response && log == Admit(d, secret, hexHmac).log
    ensures Admit(d, secret, hexHmac).Dispatch? ==> response == Processed || response == Ignored
    ensures response.status == 401 ==> log == []
    ensures Admit(d, secret, hexHmac).Dispatch? && HandlerFor(d.event.value).None? ==> response == Ignored && log == []
    ensures Admit(d, secret, hexHmac).Dispatch? && d.event.value == "issues" ==>
      (response == Processed <==> HandleIssues(d.json.payload)) && log == []
    ensures Admit(d, secret, hexHmac).Dispatch? && d.event.value == "pull_request" ==>
      (response == Processed <==> HandlePullRequest(d.json.payload, w).0 == Some(true))
      && log == HandlePullRequest(d.json.payload, w).1
    ensures Admit(d, secret, hexHmac).Dispatch? && d.event.value == "issue_comment" ==>
      (response == Processed <==> IssueCommentResult(d.json.payload, w))
  {
    match Admit(d, secret, hexHmac)
    case Respond(r, effects) =>
      response, log := r, effects;
    case Dispatch(event, payload) =>
      var handled;
      handled, log := HandleEvent(event, payload, w);
      response := if handled == Some(true) then Processed else Ignored;
  }
}
