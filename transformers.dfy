/**
 * The payload transformer: turns a job-board submission into an ATS contact
 * record and builds the ATS application record for a created contact. Both
 * are total; the clock the application record reads is passed in as `now`
 * (milliseconds since the epoch).
 */
module Transformers {
  import opened Wrappers
  import opened JsText
  import opened Base64
  import opened Payloads

  /** The Dutch country code that replaces the leading trunk digit. */
  const COUNTRY_PREFIX: JsString := Ascii("+31")

  /** Milliseconds to microseconds. */
  const MICROS_PER_MILLI: nat := 1000

  /**
   * `[firstName, ...lastNameParts] = name.split(' ')` and
   * `lastName = lastNameParts.join(' ')`.
   */
  function SplitName(name: JsString): (names: (JsString, JsString))
    ensures SPACE !in names.0 && names.0 <= name
    ensures |names.0| < |name| ==> name[|names.0|] == SPACE
  {
    var parts := Split(name);
    JoinSplit(name);
    assert |parts| > 1 ==> Join(parts) == parts[0] + [SPACE] + Join(parts[1..]);
    (parts[0], Join(parts[1..]))
  }

  /**
   * `+31` followed by the phone number without its first code unit; the
   * empty number becomes just `+31`. No validation of the number's format.
   */
  function NormalizePhone(phone: JsString): (normalized: JsString)
    ensures |normalized| == |COUNTRY_PREFIX| + (if phone == [] then 0 else |phone| - 1)
    ensures normalized[..|COUNTRY_PREFIX|] == COUNTRY_PREFIX
    ensures phone == [] ==> normalized == COUNTRY_PREFIX
    ensures phone != [] ==> normalized[|COUNTRY_PREFIX|..] == phone[1..]
  {
    COUNTRY_PREFIX + SliceFrom(phone, 1)
  }

  /**
   * `Buffer.from(cv, 'binary').toString('base64')`: the base64 text of the
   * low bytes of the CV's code units, which decodes back to those bytes.
   */
  function EncodeCv(cv: JsString): (encoded: JsString)
    ensures |encoded| == 4 * ((|cv| + 2) / 3)
    ensures WellFormed(encoded)
    ensures Decode(encoded) == Some(Latin1Bytes(cv))
  {
    EncodeWellFormed(Latin1Bytes(cv));
    DecodeEncode(Latin1Bytes(cv));
    Encode(Latin1Bytes(cv))
  }

  /**
   * The contact record for a submission: email, city and motivation are copied
   * unchanged, and the name, phone and CV fields are those whose promises
   * `SplitName`, `NormalizePhone` and `EncodeCv` state.
   */
  function TransformInputToContact(input: JobBoardPayload): (contact: ContactPayload)
    ensures contact.email == input.email
    ensures contact.city == input.city
    ensures contact.motivation == input.motivation
    ensures (contact.firstName, contact.lastName) == SplitName(input.name)
    ensures contact.phone == NormalizePhone(input.phone)
    ensures contact.cv == EncodeCv(input.cv)
  {
    var (firstName, lastName) := SplitName(input.name);
    ContactPayload(
      firstName,
      lastName,
      input.email,
      NormalizePhone(input.phone),
      input.city,
      input.motivation,
      EncodeCv(input.cv))
  }

  /**
   * The application record for a created contact, stamped with the clock
   * reading `now` (milliseconds) converted to microseconds.
   */
  function CreateApplicationPayload(jobId: JsString, contactId: JsString, now: nat): (application: ApplicationPayload)
    ensures application.jobId == jobId && application.contactId == contactId
    ensures application.timestamp % MICROS_PER_MILLI == 0
    ensures application.timestamp / MICROS_PER_MILLI == now
  {
    ApplicationPayload(jobId, now * MICROS_PER_MILLI, contactId)
  }

  /**
   * The first name is the text before the first space and holds no space;
   * the last name is everything after that space, inner and repeated spaces
   * included, so first name, space and last name give back the full name.
   * A name without a space is all first name.
   */
  lemma {:induction false} ContactName(input: JobBoardPayload)
    ensures var contact := TransformInputToContact(input);
      && SPACE !in contact.firstName
      && (SPACE in input.name ==> input.name == contact.firstName + [SPACE] + contact.lastName)
      && (SPACE !in input.name ==> contact.firstName == input.name && contact.lastName == [])
  {
    var parts := Split(input.name);
    JoinSplit(input.name);
    if |parts| == 1 {
      assert parts[1..] == [];
    } else {
      assert input.name == parts[0] + [SPACE] + Join(parts[1..]);
      assert input.name[|parts[0]|] == SPACE;
    }
  }

  /** Conversely, a space-free first name joined to any last name splits back into the two. */
  lemma SplitNameOfParts(firstName: JsString, lastName: JsString)
    requires SPACE !in firstName
    ensures SplitName(firstName + [SPACE] + lastName) == (firstName, lastName)
  {
    var name := firstName + [SPACE] + lastName;
    assert name == firstName + ([SPACE] + lastName);
    SplitPrefix(firstName, [SPACE] + lastName);
    assert Split([SPACE] + lastName) == [[]] + Split(lastName);
    assert firstName + [] == firstName;
    assert Split(name)[1..] == Split(lastName);
    JoinSplit(lastName);
  }

  /**
   * When every code unit of the CV is in the latin1 range, the contact's
   * base64 CV decodes back to exactly the submitted CV.
   */
  lemma CvRoundTrip(input: JobBoardPayload)
    requires forall i :: 0 <= i < |input.cv| ==> input.cv[i] < 0x100
    ensures Decode(TransformInputToContact(input).cv).Some?
    ensures Decode(TransformInputToContact(input).cv).value == input.cv
  {
    var bytes := Latin1Bytes(input.cv);
    assert forall i :: 0 <= i < |bytes| ==> bytes[i] == input.cv[i];
  }

  /** A later clock reading never gives an earlier timestamp. */
  lemma TimestampMonotone(jobId: JsString, contactId: JsString, now: nat, later: nat)
    requires now <= later
    ensures CreateApplicationPayload(jobId, contactId, now).timestamp
         <= CreateApplicationPayload(jobId, contactId, later).timestamp
  {
  }
}
