/** The RSVP form, components/RSVPForm.tsx: the plus-one cap, the guest
    count and names, the checks made before sending, the body sent to the
    RSVP route, the submit button's state, and the pre-filling from a stored
    RSVP. Requests are parameters; timers and rendering are not modelled. */
module RsvpForm {
  import opened Optional
  import opened Strings
  import opened Js
  import opened Types
  import RsvpRoute

  // ---------------------------------------------------------------------
  // Plus-ones

  /** The guest's location-specific cap; any location other than Lagos and
      London reads the Portugal one. */
  function LocationCap(guest: Guest, location: Location): Option<int> {
    match location
    case Lagos => guest.allowedPlusOnesLagos
    case London => guest.allowedPlusOnesLondon
    case Portugal => guest.allowedPlusOnesPortugal
  }

  /** `allowedPlusOnes`: the location's cap, else the guest's global one. */
  function AllowedPlusOnes(guest: Option<Guest>, location: Location): Option<int> {
    if guest.None? then None
    else if LocationCap(guest.value, location).Some? then LocationCap(guest.value, location)
    else guest.value.allowedPlusOnes
  }

  /** `maxPlusOnes`: the cap when it is a positive number, else zero. */
  function MaxPlusOnes(guest: Option<Guest>, location: Location): (m: nat)
    ensures m > 0 <==> AllowedPlusOnes(guest, location).Some? && AllowedPlusOnes(guest, location).value > 0
    ensures m > 0 ==> AllowedPlusOnes(guest, location) == Some(m)
  {
    var cap := AllowedPlusOnes(guest, location);
    if cap.Some? && cap.value > 0 then cap.value else 0
  }

  /** For a guest as the store's mapper builds it, a location-specific cap
      wins, the global cap is the fallback, and no cap at all (or no guest)
      means no plus-ones. */
  lemma MaxPlusOnesOfStoredGuest(guest: Guest, location: Location)
    requires PositiveOrAbsentCaps(guest)
    ensures LocationCap(guest, location).Some? ==> MaxPlusOnes(Some(guest), location) == LocationCap(guest, location).value
    ensures LocationCap(guest, location).None? ==> MaxPlusOnes(Some(guest), location) == guest.allowedPlusOnes.GetOr(0)
    ensures MaxPlusOnes(None, location) == 0
  {
  }

  /** What the guest mapper guarantees of the caps. */
  predicate PositiveOrAbsentCaps(guest: Guest) {
    && (guest.allowedPlusOnes.None? || guest.allowedPlusOnes.value > 0)
    && (guest.allowedPlusOnesLagos.None? || guest.allowedPlusOnesLagos.value > 0)
    && (guest.allowedPlusOnesLondon.None? || guest.allowedPlusOnesLondon.value > 0)
    && (guest.allowedPlusOnesPortugal.None? || guest.allowedPlusOnesPortugal.value > 0)
  }

  /** The "Number of Guests" options: 0 to the cap, inclusive. */
  function CountChoices(max: nat): (choices: seq<nat>)
    ensures |choices| == max + 1
    ensures forall i :: 0 <= i < |choices| ==> choices[i] == i
  {
    seq(max + 1, i requires 0 <= i <= max => i)
  }

  /** `parseInt(e.target.value, 10) || 0` on the chosen option's value. */
  function CountOfOption(value: string): int {
    var parsed := ParseInt(value);
    if parsed.None? then 0 else parsed.value
  }

  /** Choosing an option yields that option's number. */
  lemma CountOfChoice(max: nat, i: nat)
    requires i < |CountChoices(max)|
    ensures CountOfOption(IntToString(CountChoices(max)[i])) == i
  {
    ParseIntOfIntString(i);
  }

  /** The names list after choosing `count` guests: the old name at each
      position that had one, blank elsewhere. */
  function ResizeNames(names: seq<string>, count: nat): (r: seq<string>)
    ensures |r| == count
    ensures forall i :: 0 <= i < count ==> r[i] == (if i < |names| then names[i] else "")
  {
    seq(count, i requires 0 <= i < count => if i < |names| && names[i] != "" then names[i] else "")
  }

  /** Lowering the count and raising it again loses the names beyond the
      lower count, and nothing else. */
  lemma ResizeDownUp(names: seq<string>, low: nat, high: nat)
    requires low <= high
    ensures ResizeNames(ResizeNames(names, low), high) == ResizeNames(names[..if low <= |names| then low else |names|], high)
  {
  }

  /** Raising the count keeps every name typed so far. */
  lemma ResizeUpKeeps(names: seq<string>, count: nat)
    requires |names| <= count
    ensures ResizeNames(names, count)[..|names|] == names
  {
  }

  // ---------------------------------------------------------------------
  // The form's data and the checks made before sending

  datatype FormData = FormData(
    name: string,
    phoneNumber: string,
    attending: Option<bool>,
    dietaryRestrictions: string,
    visaRequired: bool,
    accommodationNeeded: bool,
    plusOneCount: nat,
    plusOneNames: seq<string>)

  const EMPTY_FORM := FormData("", "", None, "", false, false, 0, [])

  /** The select's `onChange`. */
  function ChooseCount(form: FormData, count: nat): (r: FormData)
    ensures r.plusOneCount == count && |r.plusOneNames| == count
  {
    form.(plusOneCount := count, plusOneNames := ResizeNames(form.plusOneNames, count))
  }

  const ATTENDING_MESSAGE := "Please select whether you will be attending (Yes or No)"
  const DIETARY_MESSAGE := "Please provide information about food allergies or dietary restrictions"
  const NAMES_MESSAGE := "Please provide names for all guests"

  /** A blank name among the first `plusOneCount` names. */
  predicate BlankGuestName(form: FormData) {
    form.plusOneCount > 0
    && exists i :: 0 <= i < |form.plusOneNames| && i < form.plusOneCount && Trim(form.plusOneNames[i]) == ""
  }

  /** Portugal's dietary field, required on the full form. */
  predicate DietaryMissing(form: FormData, location: Location, simple: bool) {
    location == Portugal && !simple && Trim(form.dietaryRestrictions) == ""
  }

  /** `handleSubmit`'s checks, in order: attendance, then the dietary field,
      then the guest names. */
  function ValidationError(form: FormData, location: Location, simple: bool): (error: Option<string>)
    ensures error.None? <==>
      form.attending.Some? && !DietaryMissing(form, location, simple) && (simple || !BlankGuestName(form))
    ensures form.attending.None? ==> error == Some(ATTENDING_MESSAGE)
    ensures form.attending.Some? && DietaryMissing(form, location, simple) ==> error == Some(DIETARY_MESSAGE)
  {
    if form.attending.None? then Some(ATTENDING_MESSAGE)
    else if DietaryMissing(form, location, simple) then Some(DIETARY_MESSAGE)
    else if !simple && BlankGuestName(form) then Some(NAMES_MESSAGE)
    else None
  }

  /** The submit button's `disabled`. */
  predicate SubmitDisabled(form: FormData, location: Location, simple: bool, submitting: bool) {
    || submitting
    || form.attending.None?
    || (!simple &&
         (|| form.name == ""
          || (location == Lagos && form.phoneNumber == "")
          || DietaryMissing(form, location, simple)
          || BlankGuestName(form)))
  }

  /** A form whose button is enabled passes every check `handleSubmit`
      makes. */
  lemma EnabledFormValidates(form: FormData, location: Location, simple: bool)
    requires !SubmitDisabled(form, location, simple, false)
    ensures ValidationError(form, location, simple) == None
  {
  }

  /** The checks do not cover everything the button does: a full Lagos form
      without a phone number passes them. */
  lemma ChecksOmitPhone(name: string)
    ensures var form := FormData(name, "", Some(true), "", false, false, 0, []);
      ValidationError(form, Lagos, false) == None && SubmitDisabled(form, Lagos, false, false)
  {
  }

  // ---------------------------------------------------------------------
  // The request

  /** `existingRSVPId ? "PUT" : "POST"` */
  datatype Verb = Put | Post

  function VerbFor(existingId: Option<string>): Verb {
    if existingId.Some? && existingId.value != "" then Put else Post
  }

  /** `names.filter(name => name.trim() !== "")` */
  function NonBlank(names: seq<string>): (r: seq<string>)
    ensures |r| <= |names|
    ensures forall n :: n in r ==> Trim(n) != ""
    ensures forall i :: 0 <= i < |names| && Trim(names[i]) != "" ==> names[i] in r
  {
    if names == [] then []
    else (if Trim(names[0]) != "" then [names[0]] else []) + NonBlank(names[1..])
  }

  function AttendingValue(attending: Option<bool>): Json {
    if attending.Some? then Bool(attending.value) else Null
  }

  /** The keys of the body `handleSubmit` sends. */
  const PAYLOAD_KEYS: set<string> := {"id", "invite_code", "location", "name", "phone_number", "guests", "attending",
    "dietary_restrictions", "visa_required", "accommodation_needed", "plus_one_names"}

  /** The value `handleSubmit` gives a key of its body; None where it is
      undefined. */
  function PayloadEntry(form: FormData, location: Location, inviteCode: Option<string>, existingId: Option<string>, key: string)
    : Option<Json>
  {
    if key == "id" then (if existingId.Some? then Some(Str(existingId.value)) else None)
    else if key == "invite_code" then (if inviteCode.Some? then Some(Str(inviteCode.value)) else None)
    else if key == "location" then Some(Str(location.Name()))
    else if key == "name" then Some(Str(form.name))
    else if key == "phone_number" then (if location == Lagos then Some(Str(form.phoneNumber)) else None)
    else if key == "guests" then Some(Num(form.plusOneCount + 1))
    else if key == "attending" then Some(AttendingValue(form.attending))
    else if key == "dietary_restrictions" then Some(Str(form.dietaryRestrictions))
    else if key == "visa_required" then Some(Bool(form.visaRequired))
    else if key == "accommodation_needed" then Some(Bool(form.accommodationNeeded))
    else if key == "plus_one_names" then
      (if form.plusOneCount > 0 then Some(Arr(RsvpRoute.Strs(NonBlank(form.plusOneNames)))) else None)
    else None
  }

  /** The parsed body the route receives: `JSON.stringify` leaves out the
      keys whose value is undefined. */
  function Payload(form: FormData, location: Location, inviteCode: Option<string>, existingId: Option<string>)
    : map<string, Json>
  {
    map key | key in PAYLOAD_KEYS && PayloadEntry(form, location, inviteCode, existingId, key).Some?
      :: PayloadEntry(form, location, inviteCode, existingId, key).value
  }

  /** The guest count sent is the plus-ones plus one. */
  lemma PayloadGuests(form: FormData, location: Location, inviteCode: Option<string>, existingId: Option<string>)
    ensures Get(Payload(form, location, inviteCode, existingId), "guests") == Num(form.plusOneCount + 1)
  {
  }

  /** The phone number is sent for Lagos only. */
  lemma PayloadPhone(form: FormData, location: Location, inviteCode: Option<string>, existingId: Option<string>)
    ensures Get(Payload(form, location, inviteCode, existingId), "phone_number")
      == (if location == Lagos then Str(form.phoneNumber) else Undefined)
  {
  }

  /** The plus-one names are sent, blanks removed, only when guests were
      chosen. */
  lemma PayloadNames(form: FormData, location: Location, inviteCode: Option<string>, existingId: Option<string>)
    ensures Get(Payload(form, location, inviteCode, existingId), "plus_one_names")
      == (if form.plusOneCount > 0 then Arr(RsvpRoute.Strs(NonBlank(form.plusOneNames))) else Undefined)
  {
  }

  /** The dietary text and the two flags are sent as entered. */
  lemma PayloadAnswers(form: FormData, location: Location, inviteCode: Option<string>, existingId: Option<string>)
    ensures Get(Payload(form, location, inviteCode, existingId), "dietary_restrictions") == Str(form.dietaryRestrictions)
    ensures Get(Payload(form, location, inviteCode, existingId), "visa_required") == Bool(form.visaRequired)
    ensures Get(Payload(form, location, inviteCode, existingId), "accommodation_needed") == Bool(form.accommodationNeeded)
  {
  }

  /** Attendance is sent as chosen. */
  lemma PayloadAttending(form: FormData, location: Location, inviteCode: Option<string>, existingId: Option<string>)
    ensures Get(Payload(form, location, inviteCode, existingId), "attending") == AttendingValue(form.attending)
  {
  }

  /** The location and the name are always sent. */
  lemma PayloadLocationAndName(form: FormData, location: Location, inviteCode: Option<string>, existingId: Option<string>)
    ensures Get(Payload(form, location, inviteCode, existingId), "location") == Str(location.Name())
    ensures Get(Payload(form, location, inviteCode, existingId), "name") == Str(form.name)
  {
  }

  /** The route reads the sent body back as the form meant it: the guest
      count is the plus-ones plus one, attendance is the choice made, and
      the plus-one names are the non-blank ones (none when there are none).
      The phone number the form sends with Lagos is dropped: the RSVP passed
      on to the store never has one. */
  lemma PayloadAsRead(form: FormData, location: Location, inviteCode: Option<string>, existingId: Option<string>, id: Json)
    requires form.attending.Some?
    ensures var body := Payload(form, location, inviteCode, existingId);
      var built := RsvpRoute.RsvpFromBodyAsWritten(body, id);
      && built.Ok?
      && built.value.guests == Num(form.plusOneCount + 1)
      && built.value.attending == Bool(form.attending.value)
      && built.value.location == Str(location.Name())
      && built.value.name == Str(form.name)
      && Get(body, "phone_number") == (if location == Lagos then Str(form.phoneNumber) else Undefined)
      && built.value.phoneNumber == Undefined
      && built.value.plusOneNames ==
           (if form.plusOneCount > 0 && NonBlank(form.plusOneNames) != [] then Some(NonBlank(form.plusOneNames)) else None)
  {
    var names := NonBlank(form.plusOneNames);
    RsvpRoute.FilterNamesIdempotent(names);
    PayloadGuests(form, location, inviteCode, existingId);
    RsvpRoute.GuestCountOfNumber(form.plusOneCount + 1);
    PayloadAttending(form, location, inviteCode, existingId);
    PayloadLocationAndName(form, location, inviteCode, existingId);
    PayloadPhone(form, location, inviteCode, existingId);
    PayloadNames(form, location, inviteCode, existingId);
  }

  /** The route's "Location and name are required" check fails a body sent
      by the form exactly when the name is empty. */
  lemma PayloadRequiredFields(form: FormData, location: Location, inviteCode: Option<string>, existingId: Option<string>)
    ensures RsvpRoute.MissingRequired(Payload(form, location, inviteCode, existingId)) <==> form.name == ""
  {
    PayloadLocationAndName(form, location, inviteCode, existingId);
  }

  /** A full form whose button is enabled sends a body the route saves:
      its names pass the filter and its required fields are there. */
  lemma EnabledFullFormIsSaved(form: FormData, location: Location, inviteCode: Option<string>, existingId: Option<string>)
    requires !SubmitDisabled(form, location, false, false)
    ensures var body := Payload(form, location, inviteCode, existingId);
      RsvpRoute.NamesAccepted(body) && !RsvpRoute.MissingRequired(body)
  {
    PayloadAsRead(form, location, inviteCode, existingId, Undefined);
    PayloadRequiredFields(form, location, inviteCode, existingId);
  }

  // ---------------------------------------------------------------------
  // Submitting

  /** What came of the request: an OK reply, a reply with another status
      and a body that parsed (`Some`) or did not, or a failed `fetch`. */
  datatype SubmitReply = Accepted | Rejected(body: Option<map<string, Json>>) | NetworkFailure(message: string)

  const FAILED_MESSAGE := "Failed to submit RSVP"
  const SOMETHING_WRONG := "Something went wrong. Please try again."

  /** The error shown after a failed request: the reply's `error` (or
      "Failed to submit RSVP") becomes the message of the thrown `Error`,
      and an empty message gives way to "Something went wrong". */
  function FailureMessage(reply: SubmitReply): (message: string)
    requires !reply.Accepted?
    ensures message != ""
    ensures reply.Rejected? && !Truthy(if reply.body.Some? then Get(reply.body.value, "error") else Undefined)
      ==> message == FAILED_MESSAGE
  {
    var thrown :=
      match reply
      case Rejected(body) =>
        ToJsString(Or(if body.Some? then Get(body.value, "error") else Str(FAILED_MESSAGE), Str(FAILED_MESSAGE)))
      case NetworkFailure(m) => m;
    if thrown == "" then SOMETHING_WRONG else thrown
  }

  /** The form's state. */
  class Form {
    var data: FormData
    var existingId: Option<string>
    var submitting: bool
    var success: bool
    var error: string

    constructor()
      ensures data == EMPTY_FORM && existingId == None && !submitting && !success && error == ""
    {
      data, existingId, submitting, success, error := EMPTY_FORM, None, false, false, "";
    }

    /** `handleSubmit`, with the reply to its request as a parameter. A form
        that fails a check sends nothing and shows the check's message;
        otherwise the body is sent with PUT when an RSVP id is known and POST
        when not, and the form shows success or the failure's message. */
    method Submit(location: Location, simple: bool, inviteCode: Option<string>, reply: SubmitReply)
      returns (request: Option<(Verb, map<string, Json>)>)
      modifies this
      ensures data == old(data) && existingId == old(existingId)
      ensures ValidationError(data, location, simple).Some? ==>
        && request.None?
        && error == ValidationError(data, location, simple).value
        && submitting == old(submitting) && success == old(success)
      ensures ValidationError(data, location, simple).None? ==>
        && request == Some((VerbFor(existingId), Payload(data, location, inviteCode, existingId)))
        && !submitting
        && success == (reply.Accepted? || old(success))
        && error == (if reply.Accepted? then "" else FailureMessage(reply))
    {
      error := "";
      request := None;
      var invalid := ValidationError(data, location, simple);
      if invalid.Some? {
        error := invalid.value;
        return;
      }
      submitting := true;
      request := Some((VerbFor(existingId), Payload(data, location, inviteCode, existingId)));
      if reply.Accepted? {
        success := true;
      } else {
        error := FailureMessage(reply);
      }
      submitting := false;
    }
  }

  // ---------------------------------------------------------------------
  // Pre-filling from a stored RSVP

  /** `v || fallback` for a text field. */
  function TextOr(v: Json, fallback: string): string {
    if v.Str? && v.s != "" then v.s else fallback
  }

  /** The form filled from a stored RSVP: `rsvp.name || guest?.name || ""`,
      `rsvp.attending ?? null`, one guest per stored name, and the other
      fields or their empty values. */
  function Prefill(rsvp: Rsvp, guestName: Option<string>): (form: FormData)
    ensures form.plusOneCount == |form.plusOneNames|
    ensures form.plusOneNames == rsvp.plusOneNames.GetOr([])
  {
    var names := rsvp.plusOneNames.GetOr([]);
    FormData(
      TextOr(rsvp.name, TextOr(if guestName.Some? then Str(guestName.value) else Undefined, "")),
      TextOr(rsvp.phoneNumber, ""),
      if rsvp.attending.Bool? then Some(rsvp.attending.b) else None,
      TextOr(rsvp.dietaryRestrictions, ""),
      rsvp.visaRequired == Bool(true),
      rsvp.accommodationNeeded == Bool(true),
      |names|,
      names)
  }

  /** The RSVP the route builds from what the form sent fills the form
      again with the same answers: the name when there was one, attendance,
      the dietary text, the two flags, and the non-blank guest names with
      their count. */
  lemma PrefillOfSubmitted(form: FormData, location: Location, inviteCode: Option<string>, existingId: Option<string>,
                           id: Json, guestName: Option<string>)
    requires form.attending.Some? && form.name != ""
    ensures var built := RsvpRoute.RsvpFromBodyAsWritten(Payload(form, location, inviteCode, existingId), id);
      var again := Prefill(built.value, guestName);
      && built.Ok?
      && again.name == form.name
      && again.attending == form.attending
      && again.dietaryRestrictions == form.dietaryRestrictions
      && again.visaRequired == form.visaRequired
      && again.accommodationNeeded == form.accommodationNeeded
      && again.plusOneNames == (if form.plusOneCount > 0 then NonBlank(form.plusOneNames) else [])
      && again.plusOneCount == |again.plusOneNames|
  {
    PayloadAsRead(form, location, inviteCode, existingId, id);
    PayloadAnswers(form, location, inviteCode, existingId);
  }
}
