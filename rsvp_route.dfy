/** The handlers of app/api/rsvp/route.ts: read one RSVP, update one by id,
    and submit one, updating the existing RSVP of the same invite code and
    location instead of creating a second. */
module RsvpRoute {
  import opened Optional
  import opened Strings
  import opened Js
  import opened Types
  import opened Airtable

  /** The message of the TypeError the name filter throws on a truthy
      element that is not a string. */
  const TRIM_TYPE_ERROR := "name.trim is not a function"
  const REQUIRED_MESSAGE := "Location and name are required"
  const ID_REQUIRED_MESSAGE := "RSVP ID is required for update"
  const QUERY_REQUIRED_MESSAGE := "invite_code and location are required"

  /** The handlers' JSON responses. */
  datatype Response =
    | Found(rsvp: Option<Rsvp>)
    | Saved(updated: Option<bool>)
    | ErrorResponse(status: int, error: string)

  /** `error?.message || fallback` */
  function ErrorText(message: string, fallback: string): string {
    if message == "" then fallback else message
  }

  // ---------------------------------------------------------------------
  // The RSVP built from a request body

  /** `parseInt(v, 10) || 1`: the guest count, never zero. */
  function GuestCount(v: Json): (n: int)
    ensures n != 0
  {
    var parsed := ParseInt(ToJsString(v));
    if parsed.None? || parsed.value == 0 then 1 else parsed.value
  }

  /** A count sent as a number is kept, except that zero becomes one. */
  lemma GuestCountOfNumber(n: int)
    ensures GuestCount(Num(n)) == (if n == 0 then 1 else n)
  {
    ParseIntOfIntString(n);
  }

  /** A count sent as decimal text is read as its value, except that zero
      becomes one. */
  lemma GuestCountOfText(n: int)
    ensures GuestCount(Str(IntToString(n))) == (if n == 0 then 1 else n)
  {
    ParseIntOfIntString(n);
  }

  /** A missing count is one. */
  lemma GuestCountOfMissing()
    ensures GuestCount(Undefined) == 1
  {
    NoDigitRunAfterLetter("undefined");
  }

  /** `items.filter(name => name && name.trim() !== '')`: falsy elements and
      blank strings are dropped, other strings kept as they are; any other
      truthy element makes the filter throw. */
  function FilterNames(items: seq<Json>): (r: Result<seq<string>>)
    ensures r.Ok? <==> forall i :: 0 <= i < |items| ==> !Truthy(items[i]) || items[i].Str?
    ensures r.Err? ==> r.message == TRIM_TYPE_ERROR
    ensures r.Ok? ==> |r.value| <= |items| && forall n :: n in r.value ==> Trim(n) != ""
    ensures r.Ok? ==> forall i :: 0 <= i < |items| && items[i].Str? && Trim(items[i].s) != "" ==> items[i].s in r.value
  {
    if items == [] then Ok([])
    else
      var head := items[0];
      if Truthy(head) && !head.Str? then Err(TRIM_TYPE_ERROR)
      else
        var rest := FilterNames(items[1..]);
        if rest.Err? then rest
        else if head.Str? && Trim(head.s) != "" then Ok([head.s] + rest.value)
        else rest
  }

  /** The strings as JSON values. */
  function Strs(names: seq<string>): (r: seq<Json>)
    ensures |r| == |names| && forall i :: 0 <= i < |names| ==> r[i] == Str(names[i])
  {
    seq(|names|, i requires 0 <= i < |names| => Str(names[i]))
  }

  /** Filtering what the filter kept keeps all of it, in order. */
  lemma {:induction false} FilterNamesIdempotent(names: seq<string>)
    requires forall n :: n in names ==> Trim(n) != ""
    ensures FilterNames(Strs(names)) == Ok(names)
  {
    if names != [] {
      var items := Strs(names);
      assert items[1..] == Strs(names[1..]);
      FilterNamesIdempotent(names[1..]);
      assert names[0] in names;
      assert items[0] == Str(names[0]) && Trim(names[0]) != "";
      assert FilterNames(items) == Ok([names[0]] + names[1..]);
      assert names == [names[0]] + names[1..];
    }
  }

  /** The plus-one names of a body: a non-empty array is filtered, anything
      else gives none. */
  function PlusOneNames(v: Json): Result<Option<seq<string>>> {
    if v.Arr? && |v.items| > 0 then
      match FilterNames(v.items)
      case Ok(names) => Ok(Some(names))
      case Err(message) => Err(message)
    else Ok(None)
  }

  /** Whether building an RSVP from the body gets past the name filter. */
  predicate NamesAccepted(body: map<string, Json>) {
    PlusOneNames(Get(body, "plus_one_names")).Ok?
  }

  /** The RSVP the handlers build from a body, as written: `phone_number` is
      never copied. */
  function RsvpFromBodyAsWritten(body: map<string, Json>, id: Json): (r: Result<Rsvp>)
    ensures r.Ok? <==> NamesAccepted(body)
    ensures r.Err? ==> r.message == TRIM_TYPE_ERROR
    ensures r.Ok? ==> r.value.phoneNumber == Undefined
  {
    match PlusOneNames(Get(body, "plus_one_names"))
    case Err(message) => Err(message)
    case Ok(names) =>
      Ok(Rsvp(
        id,
        Or(Get(body, "invite_code"), Undefined),
        Get(body, "location"),
        Get(body, "name"),
        Undefined,
        Num(GuestCount(Get(body, "guests"))),
        Bool(Get(body, "attending") != Bool(false)),
        Or(Get(body, "dietary_restrictions"), Undefined),
        Or(Get(body, "visa_required"), Bool(false)),
        Or(Get(body, "accommodation_needed"), Bool(false)),
        Undefined,
        names))
  }

  /** The RSVP built from a body with the phone number the form sends copied
      in; everything else as written. */
  function RsvpFromBody(body: map<string, Json>, id: Json): (r: Result<Rsvp>)
    ensures r.Ok? <==> NamesAccepted(body)
    ensures r.Err? ==> r.message == TRIM_TYPE_ERROR
    ensures r.Ok? ==> r.value.phoneNumber == Get(body, "phone_number")
  {
    match RsvpFromBodyAsWritten(body, id)
    case Err(message) => Err(message)
    case Ok(rsvp) => Ok(rsvp.(phoneNumber := Get(body, "phone_number")))
  }

  /** What the RSVP the handlers build keeps of the body: the id given,
      location and name as sent, no phone number, a non-zero guest count,
      attendance unless `false` was sent, defined visa and accommodation
      flags, the invite code when truthy, and only non-blank plus-one names. */
  lemma RsvpFromBodyKeepsBody(body: map<string, Json>, id: Json)
    requires NamesAccepted(body)
    ensures var rsvp := RsvpFromBodyAsWritten(body, id).value;
      && rsvp.id == id
      && rsvp.location == Get(body, "location") && rsvp.name == Get(body, "name")
      && rsvp.phoneNumber == Undefined
      && rsvp.guests.Num? && rsvp.guests.n != 0
      && (rsvp.attending == Bool(false) <==> Get(body, "attending") == Bool(false))
      && rsvp.visaRequired != Undefined && rsvp.accommodationNeeded != Undefined
      && (Truthy(rsvp.inviteCode) <==> Truthy(Get(body, "invite_code")))
      && (rsvp.plusOneNames.Some? ==> forall n :: n in rsvp.plusOneNames.value ==> Trim(n) != "")
  {
  }

  /** An RSVP's phone number is sent on create and on update exactly when it
      is defined. */
  lemma PhoneSentWhenDefined(rsvp: Rsvp, today: string)
    ensures PhoneNumberField in Sent(CreateFields(rsvp, today)) <==> rsvp.phoneNumber != Undefined
    ensures PhoneNumberField in Sent(UpdateFields(rsvp, today)) <==> rsvp.phoneNumber != Undefined
    ensures PhoneNumberField in Sent(CreateFields(rsvp, today)) ==>
      Sent(CreateFields(rsvp, today))[PhoneNumberField] == rsvp.phoneNumber
    ensures PhoneNumberField in Sent(UpdateFields(rsvp, today)) ==>
      Sent(UpdateFields(rsvp, today))[PhoneNumberField] == rsvp.phoneNumber
  {
    assert CreateFields(rsvp, today)[PhoneNumberField] == rsvp.phoneNumber;
    assert UpdateFields(rsvp, today)[PhoneNumberField] == rsvp.phoneNumber;
  }

  /** As written, no submission stores a phone number: the field is dropped
      from every create and every update. */
  lemma PhoneNeverStoredAsWritten(body: map<string, Json>, id: Json, today: string)
    requires RsvpFromBodyAsWritten(body, id).Ok?
    ensures PhoneNumberField !in Sent(CreateFields(RsvpFromBodyAsWritten(body, id).value, today))
    ensures PhoneNumberField !in Sent(UpdateFields(RsvpFromBodyAsWritten(body, id).value, today))
  {
    PhoneSentWhenDefined(RsvpFromBodyAsWritten(body, id).value, today);
  }

  /** With the phone number copied, a phone number the form sends reaches the
      store on create and on update. */
  lemma PhoneStored(body: map<string, Json>, id: Json, today: string)
    requires RsvpFromBody(body, id).Ok?
    requires Get(body, "phone_number") != Undefined
    ensures var sent := Sent(CreateFields(RsvpFromBody(body, id).value, today));
      PhoneNumberField in sent && sent[PhoneNumberField] == Get(body, "phone_number")
    ensures var sent := Sent(UpdateFields(RsvpFromBody(body, id).value, today));
      PhoneNumberField in sent && sent[PhoneNumberField] == Get(body, "phone_number")
  {
    PhoneSentWhenDefined(RsvpFromBody(body, id).value, today);
  }

  /** The names a guest submits come back from the store trimmed, as long as
      none holds a comma. */
  lemma {:induction false} SubmittedNamesReadBack(names: seq<string>)
    requires names != []
    requires forall n :: n in names ==> ',' !in n && Trim(n) != ""
    ensures ReadPlusOneNames(Text(JoinNames(names))) == Some(TrimAll(names))
  {
    var text := JoinNames(names);
    var pieces := [names[0]] + PadTail(names, " ");
    assert [','] + " " == ", ";
    assert "" + text == text && "" + names[0] == names[0];
    SplitOfPaddedJoin("", names, ',', " ");
    assert Split(text, ',') == pieces;
    var trimmed := TrimAll(names);
    forall i | 0 <= i < |pieces| ensures Trim(pieces[i]) == trimmed[i] && trimmed[i] != "" {
      assert names[i] in names;
      if i > 0 {
        assert pieces[i] == [' '] + names[i];
        TrimAfterBlank(names[i]);
      }
    }
    CleanNamesOfTrimmed(pieces, trimmed);
    assert ParseNames(text) == trimmed;
    assert names[0] in names;
    assert names[0] != "";
    assert |text| >= |names[0]|;
  }

  function TrimAll(names: seq<string>): (r: seq<string>)
    ensures |r| == |names| && forall i :: 0 <= i < |names| ==> r[i] == Trim(names[i])
  {
    seq(|names|, i requires 0 <= i < |names| => Trim(names[i]))
  }

  // Kinds of request in a stretch of the store's log.

  predicate OnlyLookups(log: seq<Request>) {
    forall i :: 0 <= i < |log| ==> log[i].FindRsvps?
  }

  predicate OnlyPatches(log: seq<Request>) {
    forall i :: 0 <= i < |log| ==> log[i].PatchRsvp?
  }

  predicate OnlyPosts(log: seq<Request>) {
    forall i :: 0 <= i < |log| ==> log[i].PostRsvp?
  }

  predicate NoPosts(log: seq<Request>) {
    forall i :: 0 <= i < |log| ==> !log[i].PostRsvp?
  }

  predicate NoPatches(log: seq<Request>) {
    forall i :: 0 <= i < |log| ==> !log[i].PatchRsvp?
  }

  predicate NoWrites(log: seq<Request>) {
    forall i :: 0 <= i < |log| ==> !log[i].IsWrite()
  }

  /** What a log gained over two steps is what it gained in each. */
  lemma Extension(first: seq<Request>, second: seq<Request>, third: seq<Request>)
    requires |first| <= |second| && second[..|first|] == first
    requires |second| <= |third| && third[..|second|] == second
    ensures third[|first|..] == second[|first|..] + third[|second|..]
  {
    assert third == second + third[|second|..];
  }

  /** A lookup followed by updates creates nothing; a lookup followed by
      creates patches nothing; a lookup alone writes nothing. */
  lemma LookupThen(lookup: seq<Request>, writes: seq<Request>)
    requires OnlyLookups(lookup)
    ensures OnlyPatches(writes) ==> NoPosts(lookup + writes)
    ensures OnlyPosts(writes) ==> NoPatches(lookup + writes)
    ensures writes == [] ==> NoWrites(lookup + writes)
  {
  }

  /** Whether a body lacks what every save needs. */
  predicate MissingRequired(body: map<string, Json>) {
    !Truthy(Get(body, "location")) || !Truthy(Get(body, "name"))
  }

  // ---------------------------------------------------------------------
  // Handlers

  /** `GET`: both query parameters are required; the stored RSVP, or null. */
  method Read(base: Base, inviteCode: Option<string>, location: Option<string>) returns (response: Response)
    modifies base
    ensures inviteCode.None? || inviteCode.value == "" || location.None? || location.value == "" ==>
      response == ErrorResponse(400, QUERY_REQUIRED_MESSAGE) && base.log == old(base.log)
    ensures inviteCode.Some? && inviteCode.value != "" && location.Some? && location.value != "" ==>
      var reply := base.rsvpsFor(UpperTrim(inviteCode.value), location.value);
      && base.log == old(base.log) + [FindRsvps(UpperTrim(inviteCode.value), location.value)]
      && response == Found(if RecordsFound(reply) then Some(ToRsvp(reply.records[0])) else None)
  {
    if inviteCode.None? || inviteCode.value == "" || location.None? || location.value == "" {
      return ErrorResponse(400, QUERY_REQUIRED_MESSAGE);
    }
    var rsvp := GetRsvpByCodeAndLocation(base, inviteCode.value, location.value);
    response := Found(rsvp);
  }

  /** Update the RSVP `id` from a body: the shared tail of `PUT` and of a
      `POST` that found an existing RSVP. */
  method UpdateFromBody(base: Base, body: map<string, Json>, id: Json, today: string, fallback: string)
    returns (response: Response)
    modifies base
    ensures RsvpFromBodyAsWritten(body, id).Err? ==>
      response == ErrorResponse(500, TRIM_TYPE_ERROR) && base.log == old(base.log)
    ensures RsvpFromBodyAsWritten(body, id).Ok? && MissingRequired(body) ==>
      response == ErrorResponse(400, REQUIRED_MESSAGE) && base.log == old(base.log)
    ensures RsvpFromBodyAsWritten(body, id).Ok? && !MissingRequired(body) ==>
      var patch := PatchRsvp(ToJsString(id), Sent(UpdateFields(RsvpFromBodyAsWritten(body, id).value, today)));
      && base.log == old(base.log) + [patch]
      && (response.Saved? <==> base.writeFailure(patch).None?)
      && (response.ErrorResponse? ==> response.status == 500)
    ensures response.Saved? ==> response.updated.None?
  {
    var built := RsvpFromBodyAsWritten(body, id);
    if built.Err? {
      return ErrorResponse(500, ErrorText(built.message, fallback));
    }
    if MissingRequired(body) {
      return ErrorResponse(400, REQUIRED_MESSAGE);
    }
    var error := UpdateRsvp(base, ToJsString(id), built.value, today);
    if error.Some? {
      return ErrorResponse(500, ErrorText(error.value, fallback));
    }
    response := Saved(None);
  }

  /** `PUT`: update the RSVP named by the body's id. */
  method Update(base: Base, body: map<string, Json>, today: string) returns (response: Response)
    modifies base
    ensures !Truthy(Get(body, "id")) ==>
      response == ErrorResponse(400, ID_REQUIRED_MESSAGE) && base.log == old(base.log)
    ensures var id := Get(body, "id");
      Truthy(id) && (RsvpFromBodyAsWritten(body, id).Err? || MissingRequired(body)) ==>
        response.ErrorResponse? && base.log == old(base.log)
    ensures var id := Get(body, "id");
      Truthy(id) && RsvpFromBodyAsWritten(body, id).Ok? && !MissingRequired(body) ==>
        var patch := PatchRsvp(ToJsString(id), Sent(UpdateFields(RsvpFromBodyAsWritten(body, id).value, today)));
        && base.log == old(base.log) + [patch]
        && (response.Saved? <==> base.writeFailure(patch).None?)
    ensures response.Saved? ==> response == Saved(None)
  {
    var id := Get(body, "id");
    if !Truthy(id) {
      return ErrorResponse(400, ID_REQUIRED_MESSAGE);
    }
    response := UpdateFromBody(base, body, id, today, "Failed to update RSVP");
  }

  /** The id of the RSVP a submission updates: the first stored RSVP for the
      body's (trimmed, upper-cased) invite code and location, when it has an
      id. A code that is not a string finds nothing. */
  function ExistingId(base: Base, body: map<string, Json>): Option<string> {
    var code := Get(body, "invite_code");
    var location := Get(body, "location");
    if Truthy(code) && Truthy(location) && code.Str? then
      var reply := base.rsvpsFor(UpperTrim(code.s), ToJsString(location));
      if RecordsFound(reply) && reply.records[0].id != "" then Some(reply.records[0].id) else None
    else None
  }

  /** The lookup `POST` makes first: only for a truthy string invite code
      and a truthy location (a code of another type makes the lookup throw
      before any request, and the lookup answers null). */
  method FindExisting(base: Base, body: map<string, Json>) returns (id: Option<string>)
    modifies base
    ensures id == ExistingId(base, body)
    ensures |old(base.log)| <= |base.log| && base.log[..|old(base.log)|] == old(base.log)
    ensures OnlyLookups(base.log[|old(base.log)|..])
  {
    var code := Get(body, "invite_code");
    var location := Get(body, "location");
    if Truthy(code) && Truthy(location) && code.Str? {
      var existing := GetRsvpByCodeAndLocation(base, code.s, ToJsString(location));
      if existing.Some? && Truthy(existing.value.id) {
        return Some(existing.value.id.s);
      }
    }
    return None;
  }

  /** `POST`: a submission for an invite code and location that already has
      an RSVP updates that RSVP; otherwise a new RSVP is created. */
  method Submit(base: Base, body: map<string, Json>, today: string)
    returns (response: Response, ghost existing: Option<string>, ghost lookup: seq<Request>, ghost written: seq<Request>)
    modifies base
    ensures existing == ExistingId(base, body)
    ensures base.log == old(base.log) + lookup + written
    ensures OnlyLookups(lookup)
    ensures SavedAfterLookup(base, body, today, existing, response, written)
    ensures response == ErrorResponse(400, REQUIRED_MESSAGE) <==>
      NamesAccepted(body) && MissingRequired(body)
  {
    var id := FindExisting(base, body);
    existing := id;
    lookup := base.log[|old(base.log)|..];
    response, written := SaveAfterLookup(base, body, id, today);
  }

  /** What `POST` writes once the lookup has answered `existing`: an update
      of that RSVP (patches only: the patch of the built RSVP) or the
      creation of a new one (posts only, starting with the post of the built
      RSVP); it is saved exactly when the store accepts the last of them,
      and nothing is written when it answers 400. */
  ghost predicate SavedAfterLookup(base: Base, body: map<string, Json>, today: string, existing: Option<string>,
                                   response: Response, written: seq<Request>)
  {
    && (existing.Some? ==> OnlyPatches(written))
    && (existing.None? ==> OnlyPosts(written))
    && (response.Saved? ==> response.updated == Some(existing.Some?) && written != [])
    && (existing.Some? && response.Saved? ==>
          && RsvpFromBodyAsWritten(body, Str(existing.value)).Ok?
          && written == [PatchRsvp(existing.value, Sent(UpdateFields(RsvpFromBodyAsWritten(body, Str(existing.value)).value, today)))])
    && (existing.Some? && RsvpFromBodyAsWritten(body, Str(existing.value)).Ok? && !MissingRequired(body) ==>
          var patch := PatchRsvp(existing.value, Sent(UpdateFields(RsvpFromBodyAsWritten(body, Str(existing.value)).value, today)));
          && written == [patch]
          && (response.Saved? <==> base.writeFailure(patch).None?))
    && (existing.None? && RsvpFromBodyAsWritten(body, Undefined).Ok? && !MissingRequired(body) ==>
          && written != [] && written[0] == PostRsvp(Sent(CreateFields(RsvpFromBodyAsWritten(body, Undefined).value, today)))
          && (response.Saved? <==> base.writeFailure(written[|written| - 1]).None?))
    && (response == ErrorResponse(400, REQUIRED_MESSAGE) ==> written == [])
  }

  /** The part of `POST` after the lookup. */
  method SaveAfterLookup(base: Base, body: map<string, Json>, existing: Option<string>, today: string)
    returns (response: Response, ghost written: seq<Request>)
    modifies base
    ensures base.log == old(base.log) + written
    ensures SavedAfterLookup(base, body, today, existing, response, written)
    ensures response == ErrorResponse(400, REQUIRED_MESSAGE) <==>
      NamesAccepted(body) && MissingRequired(body)
  {
    if existing.Some? {
      response := UpdateExisting(base, body, existing.value, today);
      written := base.log[|old(base.log)|..];
    } else {
      response, written := CreateFromBody(base, body, today);
    }
  }

  /** The updating tail of `POST`. */
  method UpdateExisting(base: Base, body: map<string, Json>, id: string, today: string) returns (response: Response)
    modifies base
    ensures RsvpFromBodyAsWritten(body, Str(id)).Err? || MissingRequired(body) ==>
      response.ErrorResponse? && base.log == old(base.log)
    ensures RsvpFromBodyAsWritten(body, Str(id)).Ok? && !MissingRequired(body) ==>
      var patch := PatchRsvp(id, Sent(UpdateFields(RsvpFromBodyAsWritten(body, Str(id)).value, today)));
      && base.log == old(base.log) + [patch]
      && response != ErrorResponse(400, REQUIRED_MESSAGE)
      && (response.Saved? <==> base.writeFailure(patch).None?)
    ensures response == ErrorResponse(400, REQUIRED_MESSAGE) <==> NamesAccepted(body) && MissingRequired(body)
    ensures response.Saved? ==> response == Saved(Some(true))
  {
    response := UpdateFromBody(base, body, Str(id), today, "Failed to create RSVP");
    assert ToJsString(Str(id)) == id;
    if response.Saved? {
      response := Saved(Some(true));
    }
  }

  /** The creating tail of `POST`. */
  method CreateFromBody(base: Base, body: map<string, Json>, today: string)
    returns (response: Response, ghost written: seq<Request>)
    modifies base
    ensures base.log == old(base.log) + written
    ensures OnlyPosts(written)
    ensures RsvpFromBodyAsWritten(body, Undefined).Err? || MissingRequired(body) ==>
      response.ErrorResponse? && written == []
    ensures RsvpFromBodyAsWritten(body, Undefined).Ok? && !MissingRequired(body) ==>
      && written != []
      && written[0] == PostRsvp(Sent(CreateFields(RsvpFromBodyAsWritten(body, Undefined).value, today)))
      && response != ErrorResponse(400, REQUIRED_MESSAGE)
      && (response.Saved? <==> base.writeFailure(written[|written| - 1]).None?)
    ensures response == ErrorResponse(400, REQUIRED_MESSAGE) <==>
      NamesAccepted(body) && MissingRequired(body)
    ensures response.Saved? ==> response == Saved(Some(false))
  {
    written := [];
    var built := RsvpFromBodyAsWritten(body, Undefined);
    if built.Err? {
      return ErrorResponse(500, ErrorText(built.message, "Failed to create RSVP")), written;
    }
    if MissingRequired(body) {
      return ErrorResponse(400, REQUIRED_MESSAGE), written;
    }
    var error;
    ghost var retried;
    error, retried, written := CreateRsvp(base, built.value, today);
    if error.Some? {
      return ErrorResponse(500, ErrorText(error.value, "Failed to create RSVP")), written;
    }
    response := Saved(Some(false));
  }
}
