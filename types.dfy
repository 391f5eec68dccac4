/**
 * The three records the relay passes around. Field names follow the code:
 * the job board sends `jobid`, the application record sent to the ATS
 * carries `jobId`.
 */
module Payloads {
  import opened JsText

  /** The job-board submission, as the `/apply` request body. */
  datatype JobBoardPayload = JobBoardPayload(
    jobid: JsString,
    name: JsString,
    email: JsString,
    phone: JsString,
    city: JsString,
    motivation: JsString,
    cv: JsString)

  /** The ATS contact record built from a submission. */
  datatype ContactPayload = ContactPayload(
    firstName: JsString,
    lastName: JsString,
    email: JsString,
    phone: JsString,
    city: JsString,
    motivation: JsString,
    cv: JsString)

  /** The ATS application record linking a job to a created contact; `timestamp` is in microseconds. */
  datatype ApplicationPayload = ApplicationPayload(
    jobId: JsString,
    timestamp: nat,
    contactId: JsString)
}
