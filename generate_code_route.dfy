/** The handlers of app/api/generate-code/route.ts: an admin check, then a
    fresh code from the generator, stored on the guest (POST) or only
    returned (GET), with the invitation link. */
module GenerateCodeRoute {
  import opened Optional
  import opened Strings
  import opened Js
  import opened Airtable
  import opened CodeGeneration

  const DEFAULT_SITE_URL := "http://localhost:3000"

  /** The handlers' JSON responses. */
  datatype Response =
    | CodeResponse(code: string, uniqueLink: string)
    | ErrorResponse(status: int, error: string)
  {
    function Status(): int {
      if CodeResponse? then 200 else status
    }
  }

  /** The admin check: with a non-empty `ADMIN_PASSWORD`, the Authorization
      header must be exactly "Bearer " followed by it; without one there is no
      check. */
  predicate Authorized(adminPassword: Option<string>, authHeader: Option<string>) {
    adminPassword.None? || adminPassword.value == "" || authHeader == Some("Bearer " + adminPassword.value)
  }

  /** With a password set, the only accepted header is one whose text after
      the 7-character "Bearer " prefix is the password. */
  lemma AuthorizedReadsBearer(password: string, header: string)
    requires password != ""
    ensures Authorized(Some(password), Some(header)) <==>
      |header| >= 7 && header[..7] == "Bearer " && header[7..] == password
    ensures !Authorized(Some(password), None)
  {
    if |header| >= 7 && header[..7] == "Bearer " && header[7..] == password {
      assert header == header[..7] + header[7..];
    }
  }

  /** The invitation link: the site address (or the local default) with the
      code as its `code` query parameter. */
  function UniqueLink(siteUrl: Option<string>, code: string): (link: string)
    ensures var site := if siteUrl.Some? && siteUrl.value != "" then siteUrl.value else DEFAULT_SITE_URL;
      && |link| == |site| + 6 + |code|
      && link[..|site|] == site
      && link[|site|..|site| + 6] == "?code="
      && link[|site| + 6..] == code
  {
    var site := if siteUrl.Some? && siteUrl.value != "" then siteUrl.value else DEFAULT_SITE_URL;
    site + "?code=" + code
  }

  /** `POST`: refuse without authorisation or without a record id; otherwise
      generate a code and only then store it on the guest, overwriting any
      code it had. `attempts` is the number of candidates drawn. The code is
      returned exactly when a candidate among the first ten is free and the
      store accepts the last patch that sets it. */
  method Post(source: CodeSource, base: Base, adminPassword: Option<string>, authHeader: Option<string>,
              body: map<string, Json>, siteUrl: Option<string>, today: string)
    returns (response: Response, ghost attempts: nat, ghost queried: seq<Request>, ghost written: seq<Request>)
    requires source.Sound()
    modifies source, base
    ensures base.log == old(base.log) + queried + written
    ensures AllLookups(queried)
    ensures source.drawn == old(source.drawn) + attempts
    ensures queried == Queries(source.draw, old(source.drawn), attempts)
    ensures !Authorized(adminPassword, authHeader) ==>
      response == ErrorResponse(401, "Unauthorized") && attempts == 0 && written == []
    ensures Authorized(adminPassword, authHeader) && !Truthy(Js.Get(body, "recordId")) ==>
      response == ErrorResponse(400, "recordId is required") && attempts == 0 && written == []
    ensures Authorized(adminPassword, authHeader) && Truthy(Js.Get(body, "recordId")) ==>
      1 <= attempts <= DEFAULT_MAX_ATTEMPTS
    ensures Authorized(adminPassword, authHeader) && Truthy(Js.Get(body, "recordId"))
            && AllTaken(base, source.draw, old(source.drawn), 10) ==>
      response == ErrorResponse(500, ExhaustedMessage(10)) && attempts == 10 && written == []
    ensures Authorized(adminPassword, authHeader) && Truthy(Js.Get(body, "recordId"))
            && !AllTaken(base, source.draw, old(source.drawn), 10) ==>
      var code := source.draw(old(source.drawn) + attempts - 1);
      && AllTaken(base, source.draw, old(source.drawn), attempts - 1)
      && IsGeneratedCode(code)
      && !Taken(base, code)
      && written != []
      && written[0] == CodeAndDatePatch(ToJsString(Js.Get(body, "recordId")), code, today)
      && (forall i :: 0 <= i < |written| ==> SetsCodeTo(written[i], ToJsString(Js.Get(body, "recordId")), code))
      && (response.CodeResponse? <==> base.writeFailure(written[|written| - 1]).None?)
      && (response.CodeResponse? ==> response.code == code)
      && (response.ErrorResponse? ==> response.status == 500)
    ensures forall i :: 0 <= i < |written| ==> SetsCode(written[i], ToJsString(Js.Get(body, "recordId")))
    ensures response.CodeResponse? ==>
      && IsGeneratedCode(response.code)
      && !Taken(base, response.code)
      && response.uniqueLink == UniqueLink(siteUrl, response.code)
      && written != []
      && forall i :: 0 <= i < |written| ==> SetsCodeTo(written[i], ToJsString(Js.Get(body, "recordId")), response.code)
    ensures response.ErrorResponse? ==> response.status in {400, 401, 500} && response.error != ""
  {
    attempts, queried, written := 0, [], [];
    if !Authorized(adminPassword, authHeader) {
      return ErrorResponse(401, "Unauthorized"), attempts, queried, written;
    }
    var recordId := Js.Get(body, "recordId");
    if !Truthy(recordId) {
      return ErrorResponse(400, "recordId is required"), attempts, queried, written;
    }
    var generation;
    generation, attempts := GenerateUniqueCode(source, base, DEFAULT_MAX_ATTEMPTS);
    queried := Queries(source.draw, old(source.drawn), attempts);
    QueriesAreLookups(source.draw, old(source.drawn), attempts);
    assert generation.Generated? ==> !AllTaken(base, source.draw, old(source.drawn), 10) by {
      if generation.Generated? && AllTaken(base, source.draw, old(source.drawn), 10) {
        AllTakenEach(base, source.draw, old(source.drawn), 10, old(source.drawn) + attempts - 1);
      }
    }
    if generation.Exhausted? {
      return ErrorResponse(500, generation.message), attempts, queried, written;
    }
    var code := generation.code;
    var error;
    error, written := StoreCode(base, ToJsString(recordId), code, today);
    if error.Some? {
      return ErrorResponse(500, if error.value == "" then "Failed to generate code" else error.value), attempts, queried, written;
    }
    response := CodeResponse(code, UniqueLink(siteUrl, code));
  }

  /** Requests that only look guests up. */
  predicate AllLookups(log: seq<Request>) {
    forall i :: 0 <= i < |log| ==> log[i].FindGuests?
  }

  /** A patch of the given guest record that sets its invite code. */
  predicate SetsCode(r: Request, recordId: string) {
    r.PatchGuest? && r.recordId == recordId && "invite_code" in r.guestFields
  }

  /** A patch of the given guest record that sets its invite code to `code`. */
  predicate SetsCodeTo(r: Request, recordId: string, code: string) {
    SetsCode(r, recordId) && r.guestFields["invite_code"] == Str(code)
  }

  /** `createGuestCode` as the POST handler sees it: the patch of the code
      and date, followed by the patch of the code alone when the store
      refuses the first for its date; it fails exactly when the store
      refuses the last patch sent. */
  method StoreCode(base: Base, recordId: string, code: string, today: string)
    returns (error: Option<string>, ghost written: seq<Request>)
    modifies base
    ensures base.log == old(base.log) + written
    ensures var first := CodeAndDatePatch(recordId, code, today);
      var outcome := base.writeFailure(first);
      written == if outcome.Some? && !Mentions(Classify(outcome.value), "NOT_FOUND") && RejectsDate(Classify(outcome.value))
                 then [first, CodeOnlyPatch(recordId, code)] else [first]
    ensures error.None? <==> base.writeFailure(written[|written| - 1]).None?
    ensures forall i :: 0 <= i < |written| ==> SetsCodeTo(written[i], recordId, code)
  {
    error := CreateGuestCodeAsWritten(base, recordId, code, today);
    written := base.log[|old(base.log)|..];
    forall i | 0 <= i < |written|
      ensures SetsCodeTo(written[i], recordId, code)
    {
      assert written[i] in base.log[|old(base.log)|..];
    }
  }

  /** The existence queries of the generator are lookups. */
  lemma {:induction false} QueriesAreLookups(draw: nat -> string, start: nat, count: nat)
    ensures AllLookups(Queries(draw, start, count))
    decreases count
  {
    if count > 0 {
      QueriesAreLookups(draw, start, count - 1);
    }
  }

  /** `GET`: generate and return a code for a guest not yet in the store;
      nothing is written. Any failure is reported as one fixed message. */
  method Get(source: CodeSource, base: Base, adminPassword: Option<string>, authHeader: Option<string>,
             siteUrl: Option<string>)
    returns (response: Response)
    requires source.Sound()
    modifies source, base
    ensures !Authorized(adminPassword, authHeader) ==> response == ErrorResponse(401, "Unauthorized")
    ensures |old(base.log)| <= |base.log|
    ensures AllLookups(base.log[|old(base.log)|..])
    ensures response.CodeResponse? ==>
      IsGeneratedCode(response.code) && !Taken(base, response.code)
      && response.uniqueLink == UniqueLink(siteUrl, response.code)
    ensures response.ErrorResponse? ==>
      response == ErrorResponse(401, "Unauthorized") || response == ErrorResponse(500, "Failed to generate code")
  {
    if !Authorized(adminPassword, authHeader) {
      return ErrorResponse(401, "Unauthorized");
    }
    var generation;
    ghost var attempts;
    generation, attempts := GenerateUniqueCode(source, base, DEFAULT_MAX_ATTEMPTS);
    QueriesAreLookups(source.draw, old(source.drawn), attempts);
    if generation.Exhausted? {
      return ErrorResponse(500, "Failed to generate code");
    }
    response := CodeResponse(generation.code, UniqueLink(siteUrl, generation.code));
  }
}
