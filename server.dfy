/**
 * The relay's `/apply` route: the bearer-token gate in front of it and the
 * handler that creates the contact, then the application, in the ATS.
 *
 * The two outbound ATS calls are abstracted: the caller hands in what each
 * call comes to (`AtsReplies`), and the handler reports the calls it issued,
 * in order, as a trace. The handler is specified as a state machine over the
 * named stages Received, ContactRequested, ContactCreated,
 * ApplicationRequested, Completed and Failed; `HandleApply` is the handler's
 * own straight-line code, proved to agree with it.
 */
module Server {
  import opened Wrappers
  import opened JsText
  import opened Payloads
  import opened Transformers

  /** The text of a caught error, `String(error)`; never empty. */
  type ErrorText = s: JsString | |s| > 0 witness [0x45]

  const UNAUTHORIZED: JsString := Ascii("Unauthorized")
  const SUBMITTED: JsString := Ascii("Application submitted successfully")
  const SUBMIT_FAILED: JsString := Ascii("Failed to submit application")

  /** A JSON response body: `{message}` or `{message, error}`. */
  datatype Json = Message(message: JsString) | MessageAndError(message: JsString, error: ErrorText)

  datatype Response = Response(status: nat, body: Json)

  /**
   * The parsed request body: a submission the transformer can read, or one on
   * which it throws (for example a missing `name`), with the error it throws.
   */
  datatype RequestBody = Submission(input: JobBoardPayload) | Unusable(error: ErrorText)

  /**
   * What one outbound ATS call came to: a response whose `data.id` is `id`,
   * or an error thrown by the call or by reading `data.id` (a `null` `data`).
   */
  datatype AtsOutcome = Created(id: JsString) | Threw(error: ErrorText)

  /** The outcomes of the contact call and of the application call, should each be issued. */
  datatype AtsReplies = AtsReplies(contact: AtsOutcome, application: AtsOutcome)

  /** An outbound ATS call with its JSON body. */
  datatype Call = PostContact(contact: ContactPayload) | PostApplication(application: ApplicationPayload)

  /** The `Authorization` header that admits a request: `Bearer ${JOBBOARD_API_KEY}`. */
  function ExpectedToken(secret: Option<JsString>): (token: JsString)
    ensures |token| >= 7 && token[..7] == Ascii("Bearer ")
    ensures secret.Some? ==> token[7..] == secret.value
    ensures secret.None? ==> token[7..] == Ascii("undefined")
  {
    // an unset variable is rendered as `undefined` by the template literal
    Ascii("Bearer ") + match secret
      case Some(key) => key
      case None => Ascii("undefined")
  }

  /**
   * The middleware's gate: a missing or empty header, or one that differs
   * from the expected token, is turned away with 401; only exact equality
   * lets the request through to the handler.
   */
  function Authenticate(header: Option<JsString>, secret: Option<JsString>): (admitted: bool)
    ensures admitted <==> header == Some(ExpectedToken(secret))
  {
    !(header.None? || header.value == [] || header.value != ExpectedToken(secret))
  }

  /** The gate compares against the rendered text, so with no secret configured `Bearer undefined` is admitted. */
  lemma UnsetSecretAdmitsUndefined()
    ensures Authenticate(Some(Ascii("Bearer undefined")), None)
    ensures !Authenticate(Some(Ascii("Bearer ")), None)
  {
    assert Ascii("Bearer undefined") == Ascii("Bearer ") + Ascii("undefined");
    assert |Ascii("Bearer ")| != |ExpectedToken(None)|;
  }

  /** A stage of one request's submission. */
  datatype Stage =
    | Received(body: RequestBody)
    | ContactRequested(jobid: JsString, contact: ContactPayload)
    | ContactCreated(jobid: JsString, contactId: JsString)
    | ApplicationRequested(application: ApplicationPayload)
    | Completed
    | Failed(error: ErrorText)
  {
    predicate Terminal() {
      Completed? || Failed?
    }

    /** The number of steps left at most; it falls with every step. */
    function Rank(): nat {
      match this
      case Received(_) => 4
      case ContactRequested(_, _) => 3
      case ContactCreated(_, _) => 2
      case ApplicationRequested(_) => 1
      case Completed => 0
      case Failed(_) => 0
    }

    /** The call issued on entering this stage. */
    function Issued(): seq<Call> {
      match this
      case ContactRequested(_, contact) => [PostContact(contact)]
      case ApplicationRequested(application) => [PostApplication(application)]
      case _ => []
    }
  }

  /** A request in flight: its stage and the ATS calls issued so far. */
  datatype Machine = Machine(stage: Stage, trace: seq<Call>)

  /**
   * One step of the submission. Each step moves closer to the end, and the
   * only calls issued are the contact call on entering ContactRequested and
   * the application call on entering ApplicationRequested.
   */
  function Step(m: Machine, replies: AtsReplies, now: nat): (next: Machine)
    requires !m.stage.Terminal()
    ensures next.stage.Rank() < m.stage.Rank()
    ensures next.trace == m.trace + next.stage.Issued()
  {
    match m.stage
    case Received(body) =>
      (match body
       case Unusable(error) => Machine(Failed(error), m.trace)
       case Submission(input) =>
         var contact := TransformInputToContact(input);
         Machine(ContactRequested(input.jobid, contact), m.trace + [PostContact(contact)]))
    case ContactRequested(jobid, _) =>
      (match replies.contact
       case Created(id) => Machine(ContactCreated(jobid, id), m.trace)
       case Threw(error) => Machine(Failed(error), m.trace))
    case ContactCreated(jobid, contactId) =>
      var application := CreateApplicationPayload(jobid, contactId, now);
      Machine(ApplicationRequested(application), m.trace + [PostApplication(application)])
    case ApplicationRequested(_) =>
      (match replies.application
       case Created(_) => Machine(Completed, m.trace)
       case Threw(error) => Machine(Failed(error), m.trace))
  }

  /** Steps until Completed or Failed; calls are only ever appended to the trace. */
  function Run(m: Machine, replies: AtsReplies, now: nat): (final: Machine)
    ensures final.stage.Terminal()
    ensures m.trace <= final.trace
    decreases m.stage.Rank()
  {
    if m.stage.Terminal() then m else Run(Step(m, replies, now), replies, now)
  }

  /** The single response a finished request gets: 200, or 500 with the error's text. */
  function Respond(stage: Stage): (response: Response)
    requires stage.Terminal()
    ensures response.status == 200 <==> stage.Completed?
    ensures response.status == 200 || response.status == 500
  {
    if stage.Completed? then Response(200, Message(SUBMITTED))
    else Response(500, MessageAndError(SUBMIT_FAILED, stage.error))
  }

  /**
   * The handler's response and the calls it issued, from a fresh Received
   * stage: exactly one response, 200 or 500.
   */
  function Handle(body: RequestBody, replies: AtsReplies, now: nat): (outcome: (Response, seq<Call>))
    ensures outcome.0.status == 200 || outcome.0.status == 500
    ensures outcome.0.status == 200 ==> outcome.0.body == Message(SUBMITTED)
    ensures outcome.0.status == 500 ==> outcome.0.body.MessageAndError? && outcome.0.body.message == SUBMIT_FAILED
  {
    var final := Run(Machine(Received(body), []), replies, now);
    (Respond(final.stage), final.trace)
  }

  /** A body the transformer throws on gets 500 and no ATS call is issued. */
  lemma HandleUnusable(error: ErrorText, replies: AtsReplies, now: nat)
    ensures Handle(Unusable(error), replies, now) == (Response(500, MessageAndError(SUBMIT_FAILED, error)), [])
  {
    var m0 := Machine(Received(Unusable(error)), []);
    assert Run(m0, replies, now) == Run(Machine(Failed(error), []), replies, now);
  }

  /** A failed contact call gets 500 with its error; the trace holds the contact call and nothing after it. */
  lemma HandleContactFails(input: JobBoardPayload, replies: AtsReplies, now: nat)
    requires replies.contact.Threw?
    ensures Handle(Submission(input), replies, now)
         == (Response(500, MessageAndError(SUBMIT_FAILED, replies.contact.error)),
             [PostContact(TransformInputToContact(input))])
  {
    var contact := TransformInputToContact(input);
    var m0 := Machine(Received(Submission(input)), []);
    var m1 := Machine(ContactRequested(input.jobid, contact), [PostContact(contact)]);
    var m2 := Machine(Failed(replies.contact.error), [PostContact(contact)]);
    assert Step(m0, replies, now) == m1;
    assert Step(m1, replies, now) == m2;
    assert Run(m0, replies, now) == Run(m1, replies, now) == m2;
  }

  /** A created contact brings a submission to ContactCreated, with only the contact call issued. */
  lemma RunToContactCreated(input: JobBoardPayload, replies: AtsReplies, now: nat)
    requires replies.contact.Created?
    ensures Run(Machine(Received(Submission(input)), []), replies, now)
         == Run(Machine(ContactCreated(input.jobid, replies.contact.id),
                        [PostContact(TransformInputToContact(input))]), replies, now)
  {
    var contact := TransformInputToContact(input);
    var m0 := Machine(Received(Submission(input)), []);
    var m1 := Machine(ContactRequested(input.jobid, contact), [PostContact(contact)]);
    assert Step(m0, replies, now) == m1;
    assert Step(m1, replies, now) == Machine(ContactCreated(input.jobid, replies.contact.id), [PostContact(contact)]);
  }

  /**
   * A created contact brings a submission to ApplicationRequested, with the
   * contact call and the application call for that contact's id issued.
   */
  lemma RunToApplication(input: JobBoardPayload, replies: AtsReplies, now: nat)
    requires replies.contact.Created?
    ensures var application := CreateApplicationPayload(input.jobid, replies.contact.id, now);
      Run(Machine(Received(Submission(input)), []), replies, now)
        == Run(Machine(ApplicationRequested(application),
                       [PostContact(TransformInputToContact(input)), PostApplication(application)]), replies, now)
  {
    var contact := TransformInputToContact(input);
    var application := CreateApplicationPayload(input.jobid, replies.contact.id, now);
    var m2 := Machine(ContactCreated(input.jobid, replies.contact.id), [PostContact(contact)]);
    RunToContactCreated(input, replies, now);
    assert Step(m2, replies, now) == Machine(ApplicationRequested(application), [PostContact(contact), PostApplication(application)]);
  }

  /**
   * A created contact followed by a failed application call gets 500; the
   * trace is the contact call then the application call, and nothing undoes
   * the contact.
   */
  lemma HandleApplicationFails(input: JobBoardPayload, replies: AtsReplies, now: nat)
    requires replies.contact.Created? && replies.application.Threw?
    ensures Handle(Submission(input), replies, now)
         == (Response(500, MessageAndError(SUBMIT_FAILED, replies.application.error)),
             [PostContact(TransformInputToContact(input)),
              PostApplication(CreateApplicationPayload(input.jobid, replies.contact.id, now))])
  {
    var application := CreateApplicationPayload(input.jobid, replies.contact.id, now);
    var m3 := Machine(ApplicationRequested(application), [PostContact(TransformInputToContact(input)), PostApplication(application)]);
    RunToApplication(input, replies, now);
    assert Step(m3, replies, now) == Machine(Failed(replies.application.error), m3.trace);
    assert Run(m3, replies, now) == Machine(Failed(replies.application.error), m3.trace);
  }

  /** Two successful calls get 200 with the confirmation; the trace is exactly contact call, application call. */
  lemma HandleSucceeds(input: JobBoardPayload, replies: AtsReplies, now: nat)
    requires replies.contact.Created? && replies.application.Created?
    ensures Handle(Submission(input), replies, now)
         == (Response(200, Message(SUBMITTED)),
             [PostContact(TransformInputToContact(input)),
              PostApplication(CreateApplicationPayload(input.jobid, replies.contact.id, now))])
  {
    var application := CreateApplicationPayload(input.jobid, replies.contact.id, now);
    var m3 := Machine(ApplicationRequested(application), [PostContact(TransformInputToContact(input)), PostApplication(application)]);
    RunToApplication(input, replies, now);
    assert Step(m3, replies, now) == Machine(Completed, m3.trace);
    assert Run(m3, replies, now) == Machine(Completed, m3.trace);
  }

  /**
   * The ordering guarantee: an application call is issued only as the second
   * call, after a contact call that succeeded; it carries that call's
   * `data.id` as `contactId` and the submission's `jobid` as `jobId`. The
   * request succeeds exactly when both calls do.
   */
  lemma ApplicationOnlyAfterContact(body: RequestBody, replies: AtsReplies, now: nat)
    ensures var (response, trace) := Handle(body, replies, now);
      && |trace| <= 2
      && (response.status == 200 <==> body.Submission? && replies.contact.Created? && replies.application.Created?)
      && forall i :: 0 <= i < |trace| && trace[i].PostApplication? ==>
           && i == 1 && trace[0].PostContact?
           && body.Submission? && replies.contact.Created?
           && trace[i].application.contactId == replies.contact.id
           && trace[i].application.jobId == body.input.jobid
  {
    match body
    case Unusable(error) => HandleUnusable(error, replies, now);
    case Submission(input) =>
      if replies.contact.Threw? {
        HandleContactFails(input, replies, now);
      } else if replies.application.Threw? {
        HandleApplicationFails(input, replies, now);
      } else {
        HandleSucceeds(input, replies, now);
      }
  }

  /**
   * The `/apply` handler as written: transform, post the contact, take its
   * `data.id`, build and post the application, answer 200; whatever throws on
   * the way is caught and answered with 500.
   */
  method HandleApply(body: RequestBody, replies: AtsReplies, now: nat) returns (response: Response, trace: seq<Call>)
    ensures (response, trace) == Handle(body, replies, now)
  {
    trace := [];
    if body.Unusable? {
      HandleUnusable(body.error, replies, now);
      return Response(500, MessageAndError(SUBMIT_FAILED, body.error)), trace;
    }
    var inputData := body.input;
    assert body == Submission(inputData);
    var contactData := TransformInputToContact(inputData);
    trace := trace + [PostContact(contactData)];
    assert trace == [PostContact(contactData)];
    var contactResponse := replies.contact;
    if contactResponse.Threw? {
      HandleContactFails(inputData, replies, now);
      return Response(500, MessageAndError(SUBMIT_FAILED, contactResponse.error)), trace;
    }
    var contactId := contactResponse.id;
    var applicationData := CreateApplicationPayload(inputData.jobid, contactId, now);
    trace := trace + [PostApplication(applicationData)];
    assert trace == [PostContact(contactData), PostApplication(applicationData)];
    if replies.application.Threw? {
      HandleApplicationFails(inputData, replies, now);
      return Response(500, MessageAndError(SUBMIT_FAILED, replies.application.error)), trace;
    }
    HandleSucceeds(inputData, replies, now);
    response := Response(200, Message(SUBMITTED));
  }

  /**
   * `POST /apply`: the gate, then the handler. A request the gate turns away
   * gets 401 `Unauthorized` and issues no ATS call; an admitted one gets the
   * handler's outcome.
   */
  method ApplyRoute(header: Option<JsString>, secret: Option<JsString>, body: RequestBody, replies: AtsReplies, now: nat)
    returns (response: Response, trace: seq<Call>)
    ensures header != Some(ExpectedToken(secret)) ==> response == Response(401, Message(UNAUTHORIZED)) && trace == []
    ensures header == Some(ExpectedToken(secret)) ==> (response, trace) == Handle(body, replies, now)
  {
    if !Authenticate(header, secret) {
      return Response(401, Message(UNAUTHORIZED)), [];
    }
    response, trace := HandleApply(body, replies, now);
  }
}
