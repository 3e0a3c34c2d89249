/** The POST handler of app/api/validate-code/route.ts: check the body, find
    the client address, validate, and map the outcome to a status. */
module ValidateCodeRoute {
  import opened Optional
  import opened Strings
  import opened Js
  import opened Types
  import opened Airtable
  import opened CodeValidation

  /** The handler's JSON responses. */
  datatype Response =
    | GuestResponse(guest: Guest)
    | ErrorResponse(status: int, error: string)
  {
    function Status(): int {
      if GuestResponse? then 200 else status
    }
  }

  /** The client address: the text before the first comma of
      `x-forwarded-for` when that header is non-empty, else `x-real-ip` when
      non-empty, else "unknown". Nothing is trimmed. */
  function ClientIp(forwarded: Option<string>, realIp: Option<string>): (ip: string)
    ensures forwarded.Some? && forwarded.value != "" ==>
      var f := forwarded.value;
      && |ip| <= |f| && ip == f[..|ip|] && ',' !in ip
      && (|ip| < |f| ==> f[|ip|] == ',')
    ensures (forwarded.None? || forwarded.value == "") && realIp.Some? && realIp.value != "" ==> ip == realIp.value
    ensures (forwarded.None? || forwarded.value == "") && (realIp.None? || realIp.value == "") ==> ip == "unknown"
  {
    if forwarded.Some? && forwarded.value != "" then
      SplitFirstPiece(forwarded.value, ',');
      Split(forwarded.value, ',')[0]
    else if realIp.Some? && realIp.value != "" then realIp.value
    else "unknown"
  }

  /** The status of a thrown error: 429 for the rate-limit message, else
      500. */
  function ErrorStatus(message: string): int {
    if Contains(message, "Too many validation attempts") then 429 else 500
  }

  /** The limiter's refusal is always answered with 429. */
  lemma RateLimitMessageGives429()
    ensures ErrorStatus(RATE_LIMIT_MESSAGE) == 429
  {
    assert RATE_LIMIT_MESSAGE[..28] == "Too many validation attempts";
    ContainsAt(RATE_LIMIT_MESSAGE, "Too many validation attempts", 0);
  }

  /** `POST`: a missing, empty or non-string code is refused before anything
      is charged or looked up; otherwise the trimmed, upper-cased code is
      validated for the client address, with the clock read as `now` at the
      limit check and as `chargedAt` at a charge. */
  method Post(limiter: RateLimiter, base: Base, body: map<string, Json>,
              forwarded: Option<string>, realIp: Option<string>, now: int, chargedAt: int)
    returns (response: Response)
    modifies limiter, base
    ensures var code := Get(body, "code");
      !code.Str? || code.s == "" ==>
        && response == ErrorResponse(400, "Code is required")
        && limiter.store == old(limiter.store) && base.log == old(base.log)
    ensures var code := Get(body, "code");
      code.Str? && code.s != "" ==>
        var ip := ClientIp(forwarded, realIp);
        var normalized := UpperTrim(code.s);
        && (!Allows(old(limiter.store), ip, now, limiter.maxAttempts) ==>
              response == ErrorResponse(429, RATE_LIMIT_MESSAGE))
        && (response.GuestResponse? ==> Upper(response.guest.inviteCode) == normalized)
        && (response.ErrorResponse? ==> response.status in {404, 429})
        && (response == ErrorResponse(404, "Invalid code") <==>
              Allows(old(limiter.store), ip, now, limiter.maxAttempts) && !response.GuestResponse?)
  {
    var code := Get(body, "code");
    if !code.Str? || code.s == "" {
      return ErrorResponse(400, "Code is required");
    }
    var ip := ClientIp(forwarded, realIp);
    var normalized := UpperTrim(code.s);
    var outcome := ValidateCode(limiter, base, normalized, ip, now, chargedAt);
    UpperTrimTwice(code.s);
    match outcome {
      case Valid(guest) =>
        response := GuestResponse(guest);
      case Invalid =>
        response := ErrorResponse(404, "Invalid code");
      case Blocked(message) =>
        RateLimitMessageGives429();
        response := ErrorResponse(ErrorStatus(message), message);
    }
  }
}
