# Job-board → ATS relay, modelled in Dafny

This project models the core of a small webhook relay. A job board posts an
application to `POST /apply`. A bearer-token gate checks the request first.
The handler then reshapes the job-board record into an ATS contact record,
creates the contact in the Applicant Tracking System (ATS), takes the
contact's id from the response, builds an application record for it and
creates the application. It answers 200 on success and 500 on any failure.

Modules (one file each):

- `wrappers.dfy` — `Wrappers`: the `Option` type.
- `text.dfy` — `JsText`: JavaScript strings as sequences of UTF-16 code units,
  with `split(' ')`, `join(' ')` and `slice(start)`. Proved: joining a split
  gives back the string, and splitting the join of a non-empty list of
  space-free pieces gives back the list.
- `base64.dfy` — `Base64`: the latin1 (`'binary'`) conversion of a string to
  bytes. Also the base64 encoding of section 4 of RFC 4648, plus a strict
  decoder. Proved: decode(encode(b)) = b, every decodable text re-encodes to
  itself, encodings are well formed, and their length is 4·⌈n/3⌉.
- `types.dfy` — `Payloads`: the job-board, contact and application records.
  The inbound field is `jobid` and the outbound one is `jobId`, as in the code.
- `transformers.dfy` — `Transformers`: `transformInputToContact` and
  `createApplicationPayload`, with the clock given as a parameter.
- `server.dfy` — `Server`: the `authenticate` middleware and the `/apply`
  handler. The handler is specified as a state machine (Received →
  ContactRequested → ContactCreated → ApplicationRequested → Completed |
  Failed) that records the ATS calls it issues as a trace. `HandleApply` is
  the handler's straight-line code, proved equal to that state machine.
  `ApplyRoute` is the gate followed by the handler.

Notes on what the code does:

- The name is split on the single space character `' '` (src/transformers.ts:4).
  Empty pieces are kept, so a last name keeps repeated spaces.
- The 200 body is only `{message}` (src/server.ts:48). The application call's
  response is not passed on.
- The handler posts to the ATS directly (src/server.ts:33, 42). It does not use
  the stub-or-production client in `src/services.ts`.

The gate compares the header with the rendered text `Bearer ${JOBBOARD_API_KEY}`.
The secret is therefore modelled as an optional string. When it is unset, the
expected header is the literal text `Bearer undefined`, and
`UnsetSecretAdmitsUndefined` states that this header is admitted.

## Model

| member | source | states |
|---|---|---|
| `JsText.SliceFrom` | src/transformers.ts:6 | `slice(start)` gives the code units from `start` on, or the empty string when `start` is past the end |
| `JsText.Split` | src/transformers.ts:4 | `split(' ')` always gives at least one piece, and no piece contains a space |
| `JsText.Join` | src/transformers.ts:5 | `join(' ')` of no pieces is the empty string. The first piece starts the result, and when there are more pieces a space follows it. With `Split`, `JoinSplit` and `SplitJoin` make the two inverse |
| `JsText.JoinSplit` | src/transformers.ts:4-5 | `split(' ')` followed by `join(' ')` gives back the original string |
| `JsText.SplitJoin` | src/transformers.ts:4-5 | for a non-empty list of space-free pieces, `join(' ')` followed by `split(' ')` gives back the list |
| `Base64.Latin1Bytes` | src/transformers.ts:7 | `Buffer.from(s, 'binary')` gives one byte per code unit. Code units below 256 are kept as they are; any other code unit is congruent to its byte modulo 256 |
| `Base64.Encode` | src/transformers.ts:7 | the base64 text of n bytes has length 4·⌈n/3⌉ |
| `Base64.Rfc4648Vectors` | src/transformers.ts:7 | the encoder gives the one-group test vectors of section 10 of RFC 4648 ("" → "", "f" → "Zg==", "fo" → "Zm8=", "foo" → "Zm9v"), and bytes FF FE FD give "//79", the last two alphabet characters |
| `Base64.Rfc4648Foob` | src/transformers.ts:7 | the RFC 4648 section 10 vector "foob" → "Zm9vYg==": a full group, then one byte padded with `==` |
| `Base64.Rfc4648Fooba` | src/transformers.ts:7 | the RFC 4648 section 10 vector "fooba" → "Zm9vYmE=": a full group, then two bytes padded with `=` |
| `Base64.Rfc4648Foobar` | src/transformers.ts:7 | the RFC 4648 section 10 vector "foobar" → "Zm9vYmFy": two full groups, no padding |
| `Base64.EncodeWellFormed` | src/transformers.ts:7 | every encoding has whole 4-character quanta of alphabet characters, with at most two `=` and only at the very end |
| `Base64.DecodeEncode` | src/transformers.ts:7 | decoding the encoding of any bytes gives those bytes back |
| `Base64.EncodeDecode` | src/transformers.ts:7 | any text that decodes re-encodes to itself, so the decoder accepts only canonical encodings |
| `Transformers.NormalizePhone` | src/transformers.ts:6 | the phone is `+31` followed by the input minus its first code unit. An empty input gives exactly `+31`, and the length is 3 + max(0, n − 1) |
| `Transformers.EncodeCv` | src/transformers.ts:7 | the contact's CV is well-formed base64 of length 4·⌈n/3⌉ that decodes to the latin1 bytes of the input CV |
| `Transformers.TransformInputToContact` | src/transformers.ts:3-17 | the contact copies `email`, `city` and `motivation` unchanged. Its first and last name are `SplitName` of the name, its phone is `NormalizePhone` of the phone and its CV is `EncodeCv` of the CV, so each field carries the promise stated on that member's row |
| `Transformers.SplitName` | src/transformers.ts:4-5 | the first name is a space-free prefix of the name, followed by a space whenever it is shorter than the name: it is the text before the first space |
| `Transformers.ContactName` | src/transformers.ts:4-5 | `firstName` holds no space. If the name has a space, then name = firstName + " " + lastName; otherwise firstName = name and lastName = "" |
| `Transformers.SplitNameOfParts` | src/transformers.ts:4-5 | conversely, a space-free first name joined by one space to any last name splits back into the same first and last name |
| `Transformers.CvRoundTrip` | src/transformers.ts:7 | when every code unit of the CV is below 256, the contact's base64 CV decodes to exactly the submitted CV |
| `Transformers.CreateApplicationPayload` | src/transformers.ts:20-25 | the record carries the given `jobId` and `contactId` unchanged. Its timestamp is a multiple of 1000 and equals the clock reading (ms) times 1000 |
| `Transformers.TimestampMonotone` | src/transformers.ts:23 | a later clock reading never gives an earlier timestamp |
| `Server.Authenticate` | src/server.ts:17-23 | a request passes exactly when the header is present and equal to `Bearer ` + secret. A missing, empty or different header is turned away |
| `Server.ExpectedToken` | src/server.ts:19 | the admitting header is `Bearer ` followed by the secret, or by the text `undefined` when no secret is configured |
| `Server.UnsetSecretAdmitsUndefined` | src/server.ts:19 | with no secret configured, the header `Bearer undefined` is admitted and `Bearer ` alone is not |
| `Server.Step` | src/server.ts:25-53 | every step of the handler moves closer to the end. The only calls issued are the contact call on entering ContactRequested and the application call on entering ApplicationRequested |
| `Server.Run` | src/server.ts:25-53 | the handler always reaches Completed or Failed, and calls are only ever appended to the trace |
| `Server.Respond` | src/server.ts:48-51 | a finished request gets exactly one response, 200 or 500, and it is 200 exactly when the stage is Completed |
| `Server.Handle` | src/server.ts:25-53 | the handler gives exactly one response: 200 `Application submitted successfully`, or 500 `Failed to submit application` with an error text. The lemmas below fix the response and the call trace in every case, and `HandleApply` and `ApplyRoute` are proved equal to it |
| `Server.HandleUnusable` | src/server.ts:26-30 | when transforming the body throws, the response is 500 `Failed to submit application` with the error text, and no ATS call is issued |
| `Server.HandleContactFails` | src/server.ts:33-38 | when the contact call fails, the response is 500 with that error, and the trace is only the contact call (no application call) |
| `Server.HandleApplicationFails` | src/server.ts:33-51 | when the contact is created but the application call fails, the response is 500. The trace is the contact call then the application call, with nothing undone |
| `Server.HandleSucceeds` | src/server.ts:33-48 | when both calls succeed, the response is 200 `Application submitted successfully`, and the trace is exactly [contact call, application call] |
| `Server.ApplicationOnlyAfterContact` | src/server.ts:33-46 | an application call is only ever the second call, after a successful contact call. Its `contactId` is that call's `data.id` and its `jobId` is the inbound `jobid`. The request gets 200 exactly when both calls succeed |
| `Server.HandleApply` | src/server.ts:25-53 | the handler's straight-line code issues the same calls and gives the same response as the state machine |
| `Server.ApplyRoute` | src/server.ts:17-25 | a request whose header is not exactly the expected token gets 401 `Unauthorized`, and no ATS call is issued. An admitted request gets the handler's outcome |

## Left out

- `src/services.ts` (the ATS client with a stub mode): `src/server.ts` does not call it. It depends on `axios`, `uuidv4()` and `NODE_ENV`. The stub's fresh-identifier behaviour is therefore not modelled.
- The outbound HTTP calls are modelled only by what they come to: a response carrying `data.id`, or a thrown error. URLs, the `ATS_API_KEY` header, timeouts and status codes are not modelled. The `./urls` module is not part of this model.
- A contact response whose `data` is `null` makes reading `data.id` throw (src/server.ts:38). The model covers this as a failed contact call (`Threw`).
- A contact response whose `data.id` is missing or not a string is not modelled. The code would pass `undefined` or the non-string value on as `contactId` (src/server.ts:38, 41). The model takes `data.id` to be a string.
- Which malformed request bodies make the transformer throw is not modelled (for example a missing `name`, `phone` or `cv`). The model is told whether the body is usable or throws, and with which error text.
- Request bodies that are malformed but do not throw are not modelled. A missing or non-string `jobid`, `email`, `city` or `motivation` is copied through as it is (src/transformers.ts:12,14,15; src/server.ts:41), and JSON drops the undefined ones. The model's records hold strings only.
- The formatting of `String(error)` is not modelled. It is an arbitrary non-empty text.
- `Date.now()` is not modelled. It is the `now` parameter, an unbounded natural number of milliseconds.
- Transformers.CreateApplicationPayload: the timestamp is exact. JavaScript `number` precision for `now * 1000` is not modelled.
- The Express and body-parser setup, `dotenv`, reading `process.env`, `app.listen` and `console.error` are not modelled (they are server plumbing and logging).
- Response bodies are modelled as their JSON fields. JSON serialisation is not modelled.
