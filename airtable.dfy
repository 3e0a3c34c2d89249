/** The record-store client of lib/airtable.ts. The HTTP requests themselves
    are an oracle: a `Base` answers each query with records or a failure, says
    whether each write fails, and logs every request it receives. Everything
    the client decides before and after a request is modelled: the record
    mappers, the `plus_one_names` text codec, the defensive re-check of a
    fetched invite code, the RSVP field maps and the error classification. */
module Airtable {
  import opened Optional
  import opened Strings
  import opened Js
  import opened Types

  // ---------------------------------------------------------------------
  // Records and requests

  /** The fields of a guest record (`AirtableGuestRecord`); the plus-one caps
      are read as untyped values. */
  datatype GuestFields = GuestFields(
    inviteCode: Option<string>,
    name: string,
    email: Option<string>,
    allowedLocations: Option<seq<string>>,
    codeGeneratedAt: Option<string>,
    allowedPlusOnes: Json,
    allowedPlusOnesLagos: Json,
    allowedPlusOnesLondon: Json,
    allowedPlusOnesPortugal: Json)

  datatype GuestRecord = GuestRecord(id: string, fields: GuestFields)

  /** `plus_one_names` as stored: absent, comma-separated text, or a list. */
  datatype NamesField = NoNames | Text(text: string) | List(names: seq<string>)

  /** An RSVP record (`AirtableRSVPRecord`): scalar fields by name, and the
      plus-one names. */
  datatype RsvpRecord = RsvpRecord(id: string, fields: map<string, Json>, plusOneNames: NamesField)

  /** A failed request as `airtableRequest` sees it: the HTTP status and the
      message taken from the response body. */
  datatype Failure = Failure(status: int, message: string)

  datatype Reply<T> = Records(records: seq<T>) | Failed(failure: Failure)

  datatype Request =
    | FindGuests(code: string)
    | FindRsvps(code: string, location: string)
    | PatchGuest(recordId: string, guestFields: map<string, Json>)
    | PatchRsvp(recordId: string, fields: map<RsvpField, Json>)
    | PostRsvp(fields: map<RsvpField, Json>)
  {
    predicate IsWrite() {
      PatchGuest? || PatchRsvp? || PostRsvp?
    }
  }

  // ---------------------------------------------------------------------
  // Error classification (`airtableRequest`)

  const FIELD_NAME_PREFIX := "Unknown field name: \""
  const NOT_FOUND_MESSAGE := "Record not found in Airtable. " + "Please check the record ID."
  const AUTHENTICATION_MESSAGE := "Airtable authentication failed. " + "Please check your " + "Personal Access Token."

  /** The error `airtableRequest` throws for a failed request. */
  datatype StoreError =
    | UnknownField(field: string)
    | RecordNotFound
    | AuthenticationFailed
    | ApiError(detail: string)
  {
    function Message(): string {
      match this
      case UnknownField(f) => UnknownFieldMessage(f)
      case RecordNotFound => NOT_FOUND_MESSAGE
      case AuthenticationFailed => AUTHENTICATION_MESSAGE
      case ApiError(d) => "Airtable API error: " + d
    }
  }

  function UnknownFieldMessage(field: string): string {
    "Airtable field \"" + field + "\" not found. " + "Please check your Airtable table schema " + "and ensure all required fields exist."
  }

  /** The length of the run of characters other than `"` at the start of `s`. */
  function UnquotedRun(s: string): (k: nat)
    ensures k <= |s| && '"' !in s[..k]
    ensures k < |s| ==> s[k] == '"'
  {
    if s != [] && s[0] != '"' then
      var k := 1 + UnquotedRun(s[1..]);
      assert s[..k] == [s[0]] + s[1..][..k - 1];
      k
    else 0
  }

  /** The capture of the leftmost match of `/Unknown field name: "([^"]+)"/`. */
  function UnknownFieldName(message: string): (r: Option<string>)
    ensures r.Some? ==> r.value != [] && '"' !in r.value
    ensures r.Some? ==> Contains(message, FIELD_NAME_PREFIX + r.value + "\"")
    decreases |message|
  {
    if message == [] then None
    else if StartsWith(message, FIELD_NAME_PREFIX)
         && 0 < UnquotedRun(message[|FIELD_NAME_PREFIX|..]) < |message| - |FIELD_NAME_PREFIX| then
      var rest := message[|FIELD_NAME_PREFIX|..];
      var name := rest[..UnquotedRun(rest)];
      assert message[..|FIELD_NAME_PREFIX| + |name| + 1] == FIELD_NAME_PREFIX + name + "\"";
      ContainsAt(message, FIELD_NAME_PREFIX + name + "\"", 0);
      Some(name)
    else
      UnknownFieldName(message[1..])
  }

  /** The precedence of `airtableRequest`'s error branches: a recognised unknown
      field first, then a missing record, then failed authentication, and any
      other failure as a generic API error carrying the message. */
  function Classify(f: Failure): (e: StoreError)
    ensures e.UnknownField? <==>
      Contains(f.message, "UNKNOWN_FIELD_NAME") && UnknownFieldName(f.message).Some?
    ensures e.UnknownField? ==> Some(e.field) == UnknownFieldName(f.message)
    ensures e.RecordNotFound? <==>
      !e.UnknownField? && (Contains(f.message, "NOT_FOUND") || f.status == 404)
    ensures e.AuthenticationFailed? <==>
      !e.UnknownField? && !e.RecordNotFound?
      && (f.status == 401 || Contains(f.message, "AUTHENTICATION_REQUIRED"))
    ensures e.ApiError? ==> e.detail == f.message
  {
    var field := UnknownFieldName(f.message);
    if Contains(f.message, "UNKNOWN_FIELD_NAME") && field.Some? then UnknownField(field.value)
    else if Contains(f.message, "NOT_FOUND") || f.status == 404 then RecordNotFound
    else if f.status == 401 || Contains(f.message, "AUTHENTICATION_REQUIRED") then AuthenticationFailed
    else ApiError(f.message)
  }

  lemma ContainsHasChars(s: string, sub: string, c: char)
    requires Contains(s, sub) && c in sub
    ensures c in s
  {
    var i := ContainsWhere(s, sub);
    assert c in s[i..i + |sub|];
  }

  lemma {:induction false} ContainsSkipsPrefix(a: string, b: string, sub: string)
    requires sub != [] && sub[0] !in a
    requires Contains(a + b, sub)
    ensures Contains(b, sub)
    decreases |a|
  {
    if a != [] {
      assert (a + b)[0] == a[0] && a[0] in a;
      assert !StartsWith(a + b, sub) by {
        if |sub| <= |a + b| {
          assert (a + b)[..|sub|][0] != sub[0];
        }
      }
      assert (a + b)[1..] == a[1..] + b;
      assert forall c :: c in a[1..] ==> c in a;
      ContainsSkipsPrefix(a[1..], b, sub);
    } else {
      assert a + b == b;
    }
  }

  /** `error.message.includes(word)` for a thrown store error, written so
      that the two fixed messages (which contain none of the words the
      callers look for, see `MentionsIsIncludes`) answer without a search. */
  predicate Mentions(e: StoreError, word: string) {
    match e
    case UnknownField(f) => Contains(UnknownFieldMessage(f), word)
    case ApiError(d) => Contains("Airtable API error: " + d, word)
    case _ => false
  }

  /** `Mentions` is `includes` on the message for every word with an
      underscore or a `v`, which neither fixed message has. */
  lemma MentionsIsIncludes(e: StoreError, word: string)
    requires '_' in word || 'v' in word
    ensures Mentions(e, word) <==> Contains(e.Message(), word)
  {
    if e.RecordNotFound? || e.AuthenticationFailed? {
      var c := if '_' in word then '_' else 'v';
      FixedMessagesLack(c);
      if Contains(e.Message(), word) {
        ContainsHasChars(e.Message(), word, c);
      }
    }
  }

  lemma FixedMessagesLack(c: char)
    requires c == '_' || c == 'v'
    ensures c !in NOT_FOUND_MESSAGE && c !in AUTHENTICATION_MESSAGE
  {
    NotFoundMessageLacks(c);
    AuthenticationMessageLacks(c);
  }

  lemma NotFoundMessageLacks(c: char)
    requires c == '_' || c == 'v'
    ensures c !in NOT_FOUND_MESSAGE
  {
    assert c !in "Record not found in Airtable. ";
    assert c !in "Please check the record ID.";
  }

  lemma AuthenticationMessageLacks(c: char)
    requires c == '_' || c == 'v'
    ensures c !in AUTHENTICATION_MESSAGE
  {
    assert c !in "Airtable authentication failed. ";
    assert c !in "Please check your " && c !in "Personal Access Token.";
  }

  /** A message without an underscore cannot mention an error code such as
      NOT_FOUND. */
  lemma NoCodeWithoutUnderscore(m: string)
    requires '_' !in m
    ensures !Contains(m, "NOT_FOUND")
  {
    if Contains(m, "NOT_FOUND") {
      assert '_' == "NOT_FOUND"[3];
      ContainsHasChars(m, "NOT_FOUND", '_');
    }
  }

  /** Unless the unknown-field branch names a field, the message of a
      classified error never contains "NOT_FOUND": a missing record is
      reported in words. So `createGuestCode`'s own NOT_FOUND branch is never
      taken for such an error. */
  lemma {:induction false} ClassifiedMessageOmitsNotFoundCode(f: Failure)
    requires !Classify(f).UnknownField?
    ensures !Contains(Classify(f).Message(), "NOT_FOUND")
  {
    var e := Classify(f);
    if e.ApiError? {
      if Contains("Airtable API error: " + f.message, "NOT_FOUND") {
        ContainsSkipsPrefix("Airtable API error: ", f.message, "NOT_FOUND");
      }
    } else if e.RecordNotFound? {
      NotFoundMessageLacks('_');
      NoCodeWithoutUnderscore(NOT_FOUND_MESSAGE);
    } else {
      AuthenticationMessageLacks('_');
      NoCodeWithoutUnderscore(AUTHENTICATION_MESSAGE);
    }
  }

  // ---------------------------------------------------------------------
  // The store as an oracle

  /** The record store. Its answers are fixed functions of the request; `log`
      records every request in order. */
  class Base {
    const guestsWithCode: string -> Reply<GuestRecord>
    const rsvpsFor: (string, string) -> Reply<RsvpRecord>
    const writeFailure: Request -> Option<Failure>
    var log: seq<Request>

    constructor(
      guestsWithCode: string -> Reply<GuestRecord>,
      rsvpsFor: (string, string) -> Reply<RsvpRecord>,
      writeFailure: Request -> Option<Failure>)
      ensures this.guestsWithCode == guestsWithCode
      ensures this.rsvpsFor == rsvpsFor
      ensures this.writeFailure == writeFailure
      ensures log == []
    {
      this.guestsWithCode := guestsWithCode;
      this.rsvpsFor := rsvpsFor;
      this.writeFailure := writeFailure;
      log := [];
    }

    /** GET on the guests table with `filterByFormula={invite_code}="code"`. */
    method QueryGuests(code: string) returns (reply: Reply<GuestRecord>)
      modifies this
      ensures reply == guestsWithCode(code)
      ensures log == old(log) + [FindGuests(code)]
    {
      reply := guestsWithCode(code);
      log := log + [FindGuests(code)];
    }

    /** GET on the RSVPs table filtered by invite code and location. */
    method QueryRsvps(code: string, location: string) returns (reply: Reply<RsvpRecord>)
      modifies this
      ensures reply == rsvpsFor(code, location)
      ensures log == old(log) + [FindRsvps(code, location)]
    {
      reply := rsvpsFor(code, location);
      log := log + [FindRsvps(code, location)];
    }

    /** A PATCH or POST; a failure comes back as the error `airtableRequest`
        throws. */
    method Send(request: Request) returns (error: Option<StoreError>)
      requires request.IsWrite()
      modifies this
      ensures error.None? <==> writeFailure(request).None?
      ensures error.Some? ==> error.value == Classify(writeFailure(request).value)
      ensures log == old(log) + [request]
    {
      log := log + [request];
      match writeFailure(request)
      case None => error := None;
      case Some(f) => error := Some(Classify(f));
    }
  }

  /** The message of the error a write throws, if it fails. */
  function Thrown(outcome: Option<Failure>): Option<string> {
    if outcome.None? then None else Some(Classify(outcome.value).Message())
  }

  /** What `JSON.stringify` sends of a field map: undefined values are
      dropped. */
  function Sent<K(!new)>(fields: map<K, Json>): (r: map<K, Json>)
    ensures forall k :: k in r <==> k in fields && fields[k] != Undefined
    ensures forall k :: k in r ==> r[k] == fields[k]
  {
    map k | k in fields && fields[k] != Undefined :: fields[k]
  }

  // ---------------------------------------------------------------------
  // Guests

  /** `normalizeAllowedPlusOnes`: a positive number is kept, anything else
      becomes undefined. */
  function NormalizeAllowedPlusOnes(value: Json): (r: Option<int>)
    ensures r.Some? <==> value.Num? && value.n > 0
    ensures r.Some? ==> value == Num(r.value)
  {
    match value
    case Num(n) => if n > 0 then Some(n) else None
    case _ => None
  }

  predicate PositiveOrAbsent(cap: Option<int>) {
    cap.None? || cap.value > 0
  }

  /** The guest mapper shared by `fetchGuestByCode` and `getAllGuests`. */
  function ToGuest(record: GuestRecord): (g: Guest)
    ensures g.id == record.id && g.name == record.fields.name
    ensures g.inviteCode == record.fields.inviteCode.GetOr("")
    ensures g.allowedLocations == record.fields.allowedLocations.GetOr([])
    ensures PositiveOrAbsent(g.allowedPlusOnes) && PositiveOrAbsent(g.allowedPlusOnesLagos)
    ensures PositiveOrAbsent(g.allowedPlusOnesLondon) && PositiveOrAbsent(g.allowedPlusOnesPortugal)
    ensures g.allowedPlusOnes.Some? ==> record.fields.allowedPlusOnes == Num(g.allowedPlusOnes.value)
  {
    var f := record.fields;
    Guest(
      record.id,
      f.inviteCode.GetOr(""),
      f.name,
      f.email,
      f.allowedLocations.GetOr([]),
      f.codeGeneratedAt,
      NormalizeAllowedPlusOnes(f.allowedPlusOnes),
      NormalizeAllowedPlusOnes(f.allowedPlusOnesLagos),
      NormalizeAllowedPlusOnes(f.allowedPlusOnesLondon),
      NormalizeAllowedPlusOnes(f.allowedPlusOnesPortugal))
  }

  /** What `fetchGuestByCode` makes of the store's answer to its query for
      the normalised `code`: the first record, only if its own invite code
      upper-cased is that code; nothing for no records or a failed request. */
  function GuestFromReply(code: string, reply: Reply<GuestRecord>): (g: Option<Guest>)
    ensures g.Some? <==>
      reply.Records? && |reply.records| > 0
      && Upper(reply.records[0].fields.inviteCode.GetOr("")) == code
    ensures g.Some? ==> g.value == ToGuest(reply.records[0])
    ensures g.Some? ==> Upper(g.value.inviteCode) == code
  {
    match reply
    case Failed(_) => None
    case Records(rs) =>
      if |rs| == 0 then None
      else if Upper(rs[0].fields.inviteCode.GetOr("")) != code then None
      else Some(ToGuest(rs[0]))
  }

  /** `fetchGuestByCode`: normalise, query, re-check. Request errors give
      null. */
  method FetchGuestByCode(base: Base, code: string) returns (g: Option<Guest>)
    modifies base
    ensures base.log == old(base.log) + [FindGuests(UpperTrim(code))]
    ensures g == GuestFromReply(UpperTrim(code), base.guestsWithCode(UpperTrim(code)))
  {
    var normalized := UpperTrim(code);
    var reply := base.QueryGuests(normalized);
    g := GuestFromReply(normalized, reply);
  }

  /** The answer `checkCodeExists` gives for a reply: some record matched. A
      failed request counts as "does not exist". */
  function RecordsFound<T>(reply: Reply<T>): (found: bool)
    ensures found <==> reply.Records? && reply.records != []
    ensures reply.Failed? ==> !found
  {
    reply.Records? && |reply.records| > 0
  }

  /** `checkCodeExists` */
  method CheckCodeExists(base: Base, code: string) returns (found: bool)
    modifies base
    ensures base.log == old(base.log) + [FindGuests(UpperTrim(code))]
    ensures found == RecordsFound(base.guestsWithCode(UpperTrim(code)))
  {
    var normalized := UpperTrim(code);
    var reply := base.QueryGuests(normalized);
    found := RecordsFound(reply);
  }

  function GuestNotFoundMessage(recordId: string): string {
    "Guest record with ID \"" + recordId + "\" not found in Airtable"
  }

  /** The first and the retried PATCH of `createGuestCode`. */
  function CodeAndDatePatch(recordId: string, code: string, today: string): Request {
    PatchGuest(recordId, map["invite_code" := Str(code), "code_generated_at" := Str(today)])
  }

  function CodeOnlyPatch(recordId: string, code: string): Request {
    PatchGuest(recordId, map["invite_code" := Str(code)])
  }

  /** Whether `createGuestCode` retries without the date after this error. */
  predicate RejectsDate(e: StoreError) {
    Mentions(e, "code_generated_at") || Mentions(e, "cannot accept the provided value")
  }

  /** `createGuestCode` as written: PATCH the guest's invite code and issue
      date; on an error whose message contains NOT_FOUND, report the record
      id; on an error about the date, PATCH the code alone. The guest's
      current code is never read, so an existing code is overwritten. Because
      the store client has already reworded a missing record's error, the
      NOT_FOUND test only fires for an unknown-field error (see
      `ClassifiedMessageOmitsNotFoundCode`). */
  method CreateGuestCodeAsWritten(base: Base, recordId: string, code: string, today: string)
    returns (error: Option<string>)
    modifies base
    ensures var first := CodeAndDatePatch(recordId, code, today);
      var outcome := base.writeFailure(first);
      if outcome.None? then
        error.None? && base.log == old(base.log) + [first]
      else if Mentions(Classify(outcome.value), "NOT_FOUND") then
        error == Some(GuestNotFoundMessage(recordId)) && base.log == old(base.log) + [first]
      else if RejectsDate(Classify(outcome.value)) then
        base.log == old(base.log) + [first, CodeOnlyPatch(recordId, code)]
        && error == Thrown(base.writeFailure(CodeOnlyPatch(recordId, code)))
      else
        error == Thrown(outcome) && base.log == old(base.log) + [first]
    ensures forall r :: r in base.log[|old(base.log)|..] ==>
      (r.PatchGuest? && r.recordId == recordId && r.guestFields["invite_code"] == Str(code))
  {
    var failed := base.Send(CodeAndDatePatch(recordId, code, today));
    if failed.None? {
      return None;
    }
    if Mentions(failed.value, "NOT_FOUND") {
      return Some(GuestNotFoundMessage(recordId));
    }
    if RejectsDate(failed.value) {
      var retryFailed := base.Send(CodeOnlyPatch(recordId, code));
      return if retryFailed.None? then None else Some(retryFailed.value.Message());
    }
    return Some(failed.value.Message());
  }

  /** A missing record answered with status 404: the client rewords it, and
      the reworded message does not contain NOT_FOUND, so the code as written
      reports the generic store message instead of the record id. */
  lemma MissingGuestRecordNotRecognised(f: Failure)
    requires f.status == 404 && !Contains(f.message, "UNKNOWN_FIELD_NAME")
    ensures Classify(f) == RecordNotFound
    ensures !Contains(Classify(f).Message(), "NOT_FOUND")
  {
    ClassifiedMessageOmitsNotFoundCode(f);
  }

  /** `createGuestCode` with its record-not-found test recognising the
      client's own missing-record error as well. */
  method CreateGuestCode(base: Base, recordId: string, code: string, today: string)
    returns (error: Option<string>)
    modifies base
    ensures var first := CodeAndDatePatch(recordId, code, today);
      var outcome := base.writeFailure(first);
      if outcome.None? then
        error.None? && base.log == old(base.log) + [first]
      else if Classify(outcome.value).RecordNotFound? || Mentions(Classify(outcome.value), "NOT_FOUND") then
        error == Some(GuestNotFoundMessage(recordId)) && base.log == old(base.log) + [first]
      else if RejectsDate(Classify(outcome.value)) then
        base.log == old(base.log) + [first, CodeOnlyPatch(recordId, code)]
        && error == Thrown(base.writeFailure(CodeOnlyPatch(recordId, code)))
      else
        error == Thrown(outcome) && base.log == old(base.log) + [first]
    ensures var outcome := base.writeFailure(CodeAndDatePatch(recordId, code, today));
      outcome.Some? && outcome.value.status == 404 && !Classify(outcome.value).UnknownField? ==>
        error == Some(GuestNotFoundMessage(recordId))
    ensures forall r :: r in base.log[|old(base.log)|..] ==>
      (r.PatchGuest? && r.recordId == recordId && r.guestFields["invite_code"] == Str(code))
  {
    var failed := base.Send(CodeAndDatePatch(recordId, code, today));
    if failed.None? {
      return None;
    }
    if failed.value.RecordNotFound? || Mentions(failed.value, "NOT_FOUND") {
      return Some(GuestNotFoundMessage(recordId));
    }
    if RejectsDate(failed.value) {
      var retryFailed := base.Send(CodeOnlyPatch(recordId, code));
      return if retryFailed.None? then None else Some(retryFailed.value.Message());
    }
    return Some(failed.value.Message());
  }

  // ---------------------------------------------------------------------
  // plus_one_names: stored as text joined by ", ", read back by splitting on
  // "," and trimming, dropping empty pieces.

  function JoinNames(names: seq<string>): string {
    Join(names, ", ")
  }

  /** Trim every piece and drop the empty ones. */
  function CleanNames(pieces: seq<string>): (names: seq<string>)
    ensures |names| <= |pieces|
    ensures forall n :: n in names ==> n != "" && IsTrimmed(n)
  {
    if pieces == [] then []
    else
      var t := Trim(pieces[0]);
      (if t == "" then [] else [t]) + CleanNames(pieces[1..])
  }

  function ParseNames(text: string): (names: seq<string>)
    ensures forall n :: n in names ==> n != "" && IsTrimmed(n)
  {
    CleanNames(Split(text, ','))
  }

  /** The mappers' reading of `plus_one_names`: text is parsed, a list is
      passed through unchanged, and absent or empty text gives nothing. */
  function ReadPlusOneNames(field: NamesField): (r: Option<seq<string>>)
    ensures field.List? ==> r == Some(field.names)
    ensures field.Text? && field.text != "" ==> r.Some? && r.value == ParseNames(field.text)
    ensures (field.NoNames? || field == Text("")) ==> r.None?
  {
    match field
    case NoNames => None
    case Text(s) => if s == "" then None else Some(ParseNames(s))
    case List(names) => Some(names)
  }

  lemma {:induction false} CleanNamesOfTrimmed(pieces: seq<string>, names: seq<string>)
    requires |pieces| == |names|
    requires forall i :: 0 <= i < |pieces| ==> Trim(pieces[i]) == names[i] && names[i] != ""
    ensures CleanNames(pieces) == names
  {
    if pieces != [] {
      CleanNamesOfTrimmed(pieces[1..], names[1..]);
      assert names == [names[0]] + names[1..];
    }
  }

  /** Reading back the pieces of a stored list, each but the first preceded
      by the blank of the ", " separator, gives the names again. */
  lemma PaddedPiecesClean(names: seq<string>)
    requires names != []
    requires forall n :: n in names ==> n != "" && IsTrimmed(n)
    ensures CleanNames([names[0]] + PadTail(names, " ")) == names
  {
    var pieces := [names[0]] + PadTail(names, " ");
    forall i | 0 <= i < |pieces| ensures Trim(pieces[i]) == names[i] && names[i] != "" {
      assert names[i] in names;
      if i > 0 {
        assert pieces[i] == [' '] + names[i];
        TrimAfterBlank(names[i]);
      }
      TrimmedIsFixed(names[i]);
    }
    CleanNamesOfTrimmed(pieces, names);
  }

  /** Names that are non-empty, free of commas and not padded with white space
      survive being stored and read back. */
  lemma PlusOneNamesRoundTrip(names: seq<string>)
    requires names != []
    requires forall n :: n in names ==> n != "" && ',' !in n && IsTrimmed(n)
    ensures ParseNames(JoinNames(names)) == names
    ensures ReadPlusOneNames(Text(JoinNames(names))) == Some(names)
  {
    SplitOfPaddedJoin("", names, ',', " ");
    assert "" + JoinNames(names) == JoinNames(names);
    assert [','] + " " == ", ";
    PaddedPiecesClean(names);
    assert names[0] in names;
    assert |JoinNames(names)| >= |names[0]|;
  }

  /** The RSVP mapper shared by the three RSVP readers. */
  function ToRsvp(record: RsvpRecord): Rsvp {
    var f := record.fields;
    Rsvp(
      Str(record.id),
      Get(f, "invite_code"),
      Get(f, "location"),
      Get(f, "name"),
      Or(Get(f, "phone_number"), Str("")),
      Get(f, "guests"),
      Get(f, "attending"),
      Get(f, "dietary_restrictions"),
      Get(f, "visa_required"),
      Get(f, "accommodation_needed"),
      Get(f, "submitted_at"),
      ReadPlusOneNames(record.plusOneNames))
  }

  /** Whether a record holds what a request sent: every column but the
      plus-one names is present exactly when sent, with the value sent, and
      the names are the text sent (a null clears them). */
  ghost predicate Stores(record: RsvpRecord, sent: map<RsvpField, Json>) {
    && (forall k: RsvpField :: k != PlusOneNamesField ==>
          (k.Column() in record.fields <==> k in sent) && (k in sent ==> record.fields[k.Column()] == sent[k]))
    && record.plusOneNames ==
         (if PlusOneNamesField in sent && sent[PlusOneNamesField].Str? then Text(sent[PlusOneNamesField].s) else NoNames)
  }

  /** The value a request sent for `k`, undefined when it sent none. */
  function SentValue(sent: map<RsvpField, Json>, k: RsvpField): Json {
    if k in sent then sent[k] else Undefined
  }

  /** A stored column reads as the value the request's fields gave it. */
  lemma ReadSentColumn(record: RsvpRecord, fields: map<RsvpField, Json>, k: RsvpField)
    requires Stores(record, Sent(fields)) && k != PlusOneNamesField
    ensures Get(record.fields, k.Column()) == SentValue(fields, k)
  {
    SentValueOfSent(fields, k);
  }

  /** Dropping the undefined fields changes no field's value. */
  lemma SentValueOfSent(fields: map<RsvpField, Json>, k: RsvpField)
    ensures SentValue(Sent(fields), k) == SentValue(fields, k)
  {
  }

  /** The fields `createRSVP`'s first attempt always carries: the RSVP's
      own location, name, phone number, count, attendance and flags
      (dropped later when undefined). */
  lemma CreateFieldValuesAlways(rsvp: Rsvp, today: string)
    ensures var c := CreateFields(rsvp, today);
      && SentValue(c, LocationField) == rsvp.location
      && SentValue(c, NameField) == rsvp.name
      && SentValue(c, PhoneNumberField) == rsvp.phoneNumber
      && SentValue(c, GuestsField) == rsvp.guests
      && SentValue(c, AttendingField) == rsvp.attending
      && SentValue(c, VisaField) == rsvp.visaRequired
      && SentValue(c, AccommodationField) == rsvp.accommodationNeeded
  {
  }

  /** The fields `createRSVP`'s first attempt carries only at times: the
      invite code and the dietary text when truthy, the plus-one names joined
      when there are some; and today's date. */
  lemma CreateFieldValuesWhenSet(rsvp: Rsvp, today: string)
    ensures var c := CreateFields(rsvp, today);
      && SentValue(c, InviteCodeField) == (if Truthy(rsvp.inviteCode) then rsvp.inviteCode else Undefined)
      && SentValue(c, DietaryField) == (if Truthy(rsvp.dietaryRestrictions) then rsvp.dietaryRestrictions else Undefined)
      && SentValue(c, SubmittedAtField) == Str(today)
      && SentValue(c, PlusOneNamesField) == (if HasNames(rsvp) then Str(JoinNames(rsvp.plusOneNames.value)) else Undefined)
  {
  }

  /** The mapper reads every column of a record holding a request as the
      value the request's fields gave it, the phone number as "" when that is
      not truthy. */
  lemma MapperReadsSent(record: RsvpRecord, fields: map<RsvpField, Json>)
    requires Stores(record, Sent(fields))
    ensures var back := ToRsvp(record);
      && back.location == SentValue(fields, LocationField) && back.name == SentValue(fields, NameField)
      && back.phoneNumber == Or(SentValue(fields, PhoneNumberField), Str(""))
      && back.guests == SentValue(fields, GuestsField) && back.attending == SentValue(fields, AttendingField)
      && back.inviteCode == SentValue(fields, InviteCodeField)
      && back.dietaryRestrictions == SentValue(fields, DietaryField)
      && back.visaRequired == SentValue(fields, VisaField)
      && back.accommodationNeeded == SentValue(fields, AccommodationField)
      && back.submittedAt == SentValue(fields, SubmittedAtField)
  {
    ReadSentColumn(record, fields, LocationField);
    ReadSentColumn(record, fields, NameField);
    ReadSentColumn(record, fields, PhoneNumberField);
    ReadSentColumn(record, fields, GuestsField);
    ReadSentColumn(record, fields, AttendingField);
    ReadSentColumn(record, fields, InviteCodeField);
    ReadSentColumn(record, fields, DietaryField);
    ReadSentColumn(record, fields, VisaField);
    ReadSentColumn(record, fields, AccommodationField);
    ReadSentColumn(record, fields, SubmittedAtField);
  }

  /** A record holding the create request holds the joined plus-one names
      when there are some, and none otherwise. */
  lemma ReadCreatedNames(rsvp: Rsvp, today: string, record: RsvpRecord)
    requires Stores(record, Sent(CreateFields(rsvp, today)))
    ensures HasNames(rsvp) ==> record.plusOneNames == Text(JoinNames(rsvp.plusOneNames.value))
    ensures !HasNames(rsvp) ==> record.plusOneNames == NoNames
  {
    CreateFieldValuesWhenSet(rsvp, today);
    SentValueOfSent(CreateFields(rsvp, today), PlusOneNamesField);
  }

  /** A record holding what `createRSVP` first sent reads back through the
      mapper as the RSVP written: the location, name, guest count, attendance
      and flags unchanged, the phone number or "", the invite code and the
      dietary text when truthy, the date of the write, and the plus-one names
      when they are comma-free and trimmed. */
  lemma StoredRsvpReadsBack(rsvp: Rsvp, today: string, record: RsvpRecord)
    requires Stores(record, Sent(CreateFields(rsvp, today)))
    ensures var back := ToRsvp(record);
      && back.id == Str(record.id)
      && back.location == rsvp.location && back.name == rsvp.name
      && back.guests == rsvp.guests && back.attending == rsvp.attending
      && back.visaRequired == rsvp.visaRequired && back.accommodationNeeded == rsvp.accommodationNeeded
      && back.phoneNumber == Or(rsvp.phoneNumber, Str(""))
      && back.inviteCode == (if Truthy(rsvp.inviteCode) then rsvp.inviteCode else Undefined)
      && back.dietaryRestrictions == (if Truthy(rsvp.dietaryRestrictions) then rsvp.dietaryRestrictions else Undefined)
      && back.submittedAt == Str(today)
      && (!HasNames(rsvp) ==> back.plusOneNames.None?)
      && (HasNames(rsvp) && (forall n :: n in rsvp.plusOneNames.value ==> n != "" && ',' !in n && IsTrimmed(n)) ==>
            back.plusOneNames == rsvp.plusOneNames)
  {
    MapperReadsSent(record, CreateFields(rsvp, today));
    CreateFieldValuesAlways(rsvp, today);
    CreateFieldValuesWhenSet(rsvp, today);
    ReadCreatedNames(rsvp, today, record);
    if HasNames(rsvp) && forall n :: n in rsvp.plusOneNames.value ==> n != "" && ',' !in n && IsTrimmed(n) {
      PlusOneNamesRoundTrip(rsvp.plusOneNames.value);
    }
  }

  /** `getRSVPByCodeAndLocation`: the first matching record, if any; a failed
      request gives nothing. */
  method GetRsvpByCodeAndLocation(base: Base, inviteCode: string, location: string)
    returns (r: Option<Rsvp>)
    modifies base
    ensures base.log == old(base.log) + [FindRsvps(UpperTrim(inviteCode), location)]
    ensures var reply := base.rsvpsFor(UpperTrim(inviteCode), location);
      r == if RecordsFound(reply) then Some(ToRsvp(reply.records[0])) else None
  {
    var reply := base.QueryRsvps(UpperTrim(inviteCode), location);
    if reply.Records? && |reply.records| > 0 {
      r := Some(ToRsvp(reply.records[0]));
    } else {
      r := None;
    }
  }

  // ---------------------------------------------------------------------
  // RSVP field maps

  /** The columns of the RSVP table that the client writes. */
  datatype RsvpField =
    | LocationField | NameField | PhoneNumberField | GuestsField | AttendingField | InviteCodeField
    | DietaryField | VisaField | AccommodationField | PlusOneNamesField | SubmittedAtField
  {
    function Column(): string {
      match this
      case LocationField => "location"
      case NameField => "name"
      case PhoneNumberField => "phone_number"
      case GuestsField => "guests"
      case AttendingField => "attending"
      case InviteCodeField => "invite_code"
      case DietaryField => "dietary_restrictions"
      case VisaField => "visa_required"
      case AccommodationField => "accommodation_needed"
      case PlusOneNamesField => "plus_one_names"
      case SubmittedAtField => "submitted_at"
    }
  }

  predicate HasNames(rsvp: Rsvp) {
    rsvp.plusOneNames.Some? && |rsvp.plusOneNames.value| > 0
  }

  /** `if (present) fields[key] = value`: the conditional assignments the
      field maps are built from. */
  function SetIf(fields: map<RsvpField, Json>, present: bool, key: RsvpField, value: Json): map<RsvpField, Json> {
    if present then fields[key := value] else fields
  }

  /** The field map of an RSVP without the date: location, name, the phone
      number (with `phone`), guest count and attendance always; then the
      invite code when truthy, the dietary restrictions when truthy, the visa
      and accommodation flags when defined, and the plus-one names when there
      are some. With `clear`, absent dietary restrictions and plus-one names
      are sent as null instead of left out. */
  function WriteFields(rsvp: Rsvp, phone: bool, clear: bool): map<RsvpField, Json> {
    var f := if phone then
        map[LocationField := rsvp.location, NameField := rsvp.name, PhoneNumberField := rsvp.phoneNumber,
            GuestsField := rsvp.guests, AttendingField := rsvp.attending]
      else
        map[LocationField := rsvp.location, NameField := rsvp.name, GuestsField := rsvp.guests, AttendingField := rsvp.attending];
    var f := SetIf(f, Truthy(rsvp.inviteCode), InviteCodeField, rsvp.inviteCode);
    var f := SetIf(f, clear || Truthy(rsvp.dietaryRestrictions), DietaryField,
                   if Truthy(rsvp.dietaryRestrictions) then rsvp.dietaryRestrictions else Null);
    var f := SetIf(f, rsvp.visaRequired != Undefined, VisaField, rsvp.visaRequired);
    var f := SetIf(f, rsvp.accommodationNeeded != Undefined, AccommodationField, rsvp.accommodationNeeded);
    SetIf(f, clear || HasNames(rsvp), PlusOneNamesField, if HasNames(rsvp) then Str(JoinNames(rsvp.plusOneNames.value)) else Null)
  }

  /** The fields `updateRSVP` sends: dietary restrictions and plus-one names
      are cleared (null) when there are none. */
  function UpdateFields(rsvp: Rsvp, today: string): map<RsvpField, Json> {
    WriteFields(rsvp, true, true)[SubmittedAtField := Str(today)]
  }

  /** The fields of `createRSVP`'s retry after a `submitted_at` error:
      dietary restrictions and plus-one names only when there are some, and
      neither phone number nor date. */
  function CreateFieldsWithoutDate(rsvp: Rsvp): map<RsvpField, Json> {
    WriteFields(rsvp, false, false)
  }

  /** The fields of `createRSVP`'s first attempt: the phone number and the
      date as well. */
  function CreateFields(rsvp: Rsvp, today: string): map<RsvpField, Json> {
    WriteFields(rsvp, true, false)[SubmittedAtField := Str(today)]
  }

  /** Update and create send the same fields with the same values, apart
      from the dietary restrictions and the plus-one names. */
  lemma UpdateAgreesWithCreate(rsvp: Rsvp, today: string)
    ensures var u := UpdateFields(rsvp, today);
      var c := CreateFields(rsvp, today);
      forall k :: k != DietaryField && k != PlusOneNamesField ==>
        (k in u <==> k in c) && (k in u ==> u[k] == c[k])
  {
  }

  /** Where create leaves the dietary restrictions and the plus-one names
      out, update writes null; where create sends them, update sends the same
      value. */
  lemma UpdateClearsWhatCreateOmits(rsvp: Rsvp, today: string)
    ensures var u := UpdateFields(rsvp, today);
      var c := CreateFields(rsvp, today);
      && DietaryField in u && PlusOneNamesField in u
      && (Truthy(rsvp.dietaryRestrictions) <==> DietaryField in c)
      && (HasNames(rsvp) <==> PlusOneNamesField in c)
      && (!Truthy(rsvp.dietaryRestrictions) ==> u[DietaryField] == Null)
      && (!HasNames(rsvp) ==> u[PlusOneNamesField] == Null)
      && (DietaryField in c ==> u[DietaryField] == c[DietaryField])
      && (PlusOneNamesField in c ==> u[PlusOneNamesField] == c[PlusOneNamesField])
  {
  }

  /** Every first-attempt write and every update carries location, name,
      phone number, guest count, attendance and the date. */
  lemma FieldMapsCarryRequiredFields(rsvp: Rsvp, today: string)
    ensures var required := {LocationField, NameField, PhoneNumberField, GuestsField, AttendingField, SubmittedAtField};
      && required <= UpdateFields(rsvp, today).Keys
      && required <= CreateFields(rsvp, today).Keys
      && UpdateFields(rsvp, today)[SubmittedAtField] == Str(today)
      && CreateFields(rsvp, today)[SubmittedAtField] == Str(today)
  {
  }

  /** The retry after a `submitted_at` error sends the first attempt's fields
      except the phone number and the date. */
  lemma RetryDropsPhoneAndDate(rsvp: Rsvp, today: string)
    ensures CreateFieldsWithoutDate(rsvp).Keys == CreateFields(rsvp, today).Keys - {SubmittedAtField, PhoneNumberField}
  {
  }

  /** The field map of `updateRSVP`, built by successive assignments. */
  method BuildUpdateFields(rsvp: Rsvp, today: string) returns (fields: map<RsvpField, Json>)
    ensures fields == UpdateFields(rsvp, today)
  {
    fields := map[LocationField := rsvp.location, NameField := rsvp.name, PhoneNumberField := rsvp.phoneNumber,
                  GuestsField := rsvp.guests, AttendingField := rsvp.attending];
    if Truthy(rsvp.inviteCode) {
      fields := fields[InviteCodeField := rsvp.inviteCode];
    }
    if Truthy(rsvp.dietaryRestrictions) {
      fields := fields[DietaryField := rsvp.dietaryRestrictions];
    } else {
      fields := fields[DietaryField := Null];
    }
    if rsvp.visaRequired != Undefined {
      fields := fields[VisaField := rsvp.visaRequired];
    }
    if rsvp.accommodationNeeded != Undefined {
      fields := fields[AccommodationField := rsvp.accommodationNeeded];
    }
    if HasNames(rsvp) {
      fields := fields[PlusOneNamesField := Str(JoinNames(rsvp.plusOneNames.value))];
    } else {
      fields := fields[PlusOneNamesField := Null];
    }
    fields := fields[SubmittedAtField := Str(today)];
  }

  /** The field map of `createRSVP`'s first attempt. */
  method BuildCreateFields(rsvp: Rsvp, today: string) returns (fields: map<RsvpField, Json>)
    ensures fields == CreateFields(rsvp, today)
  {
    fields := map[LocationField := rsvp.location, NameField := rsvp.name, PhoneNumberField := rsvp.phoneNumber,
                  GuestsField := rsvp.guests, AttendingField := rsvp.attending];
    if Truthy(rsvp.inviteCode) {
      fields := fields[InviteCodeField := rsvp.inviteCode];
    }
    if Truthy(rsvp.dietaryRestrictions) {
      fields := fields[DietaryField := rsvp.dietaryRestrictions];
    }
    if rsvp.visaRequired != Undefined {
      fields := fields[VisaField := rsvp.visaRequired];
    }
    if rsvp.accommodationNeeded != Undefined {
      fields := fields[AccommodationField := rsvp.accommodationNeeded];
    }
    if HasNames(rsvp) {
      fields := fields[PlusOneNamesField := Str(JoinNames(rsvp.plusOneNames.value))];
    }
    fields := fields[SubmittedAtField := Str(today)];
  }

  /** The field map of `createRSVP`'s retry, built afresh without the phone
      number and the date. */
  method BuildRetryFields(rsvp: Rsvp) returns (fields: map<RsvpField, Json>)
    ensures fields == CreateFieldsWithoutDate(rsvp)
  {
    fields := map[LocationField := rsvp.location, NameField := rsvp.name,
                  GuestsField := rsvp.guests, AttendingField := rsvp.attending];
    if Truthy(rsvp.inviteCode) {
      fields := fields[InviteCodeField := rsvp.inviteCode];
    }
    if Truthy(rsvp.dietaryRestrictions) {
      fields := fields[DietaryField := rsvp.dietaryRestrictions];
    }
    if rsvp.visaRequired != Undefined {
      fields := fields[VisaField := rsvp.visaRequired];
    }
    if rsvp.accommodationNeeded != Undefined {
      fields := fields[AccommodationField := rsvp.accommodationNeeded];
    }
    if HasNames(rsvp) {
      fields := fields[PlusOneNamesField := Str(JoinNames(rsvp.plusOneNames.value))];
    }
  }

  /** `updateRSVP`: PATCH the record with the update field map. */
  method UpdateRsvp(base: Base, rsvpId: string, rsvp: Rsvp, today: string)
    returns (error: Option<string>)
    modifies base
    ensures base.log == old(base.log) + [PatchRsvp(rsvpId, Sent(UpdateFields(rsvp, today)))]
    ensures error == Thrown(base.writeFailure(PatchRsvp(rsvpId, Sent(UpdateFields(rsvp, today)))))
  {
    var fields := BuildUpdateFields(rsvp, today);
    var failed := base.Send(PatchRsvp(rsvpId, Sent(fields)));
    error := if failed.None? then None else Some(failed.value.Message());
  }

  /** `createRSVP`: POST the field map; when the error mentions
      `submitted_at`, POST again without the date (and without the phone
      number). */
  method CreateRsvp(base: Base, rsvp: Rsvp, today: string)
    returns (error: Option<string>, ghost retried: bool, ghost written: seq<Request>)
    modifies base
    ensures retried == RetriesWithoutDate(base.writeFailure(PostRsvp(Sent(CreateFields(rsvp, today)))))
    ensures written == if retried then [PostRsvp(Sent(CreateFields(rsvp, today))), PostRsvp(Sent(CreateFieldsWithoutDate(rsvp)))]
                       else [PostRsvp(Sent(CreateFields(rsvp, today)))]
    ensures base.log == old(base.log) + written
    ensures error == Thrown(base.writeFailure(written[|written| - 1]))
  {
    var fields := BuildCreateFields(rsvp, today);
    var failed := base.Send(PostRsvp(Sent(fields)));
    retried := failed.Some? && Mentions(failed.value, "submitted_at");
    written := [PostRsvp(Sent(fields))];
    if failed.Some? && Mentions(failed.value, "submitted_at") {
      var retryFields := BuildRetryFields(rsvp);
      var retryFailed := base.Send(PostRsvp(Sent(retryFields)));
      written := written + [PostRsvp(Sent(retryFields))];
      error := if retryFailed.None? then None else Some(retryFailed.value.Message());
    } else {
      error := if failed.None? then None else Some(failed.value.Message());
    }
  }

  /** Whether a failed first attempt of `createRSVP` is retried: its message
      mentions `submitted_at`. */
  predicate RetriesWithoutDate(outcome: Option<Failure>) {
    outcome.Some? && Mentions(Classify(outcome.value), "submitted_at")
  }
}
