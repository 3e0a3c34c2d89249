/** The per-IP rate limiter and the invite-code validation of
    lib/code-validation.ts. The limiter's process-wide map is the `store` of a
    `RateLimiter`; every reading of the clock is an explicit instant passed
    in. */
module CodeValidation {
  import opened Optional
  import opened Strings
  import opened Types
  import opened Airtable

  /** The limits when the environment does not override them. */
  const DEFAULT_MAX_ATTEMPTS := 10
  const DEFAULT_WINDOW_MS := 900000

  const RATE_LIMIT_MESSAGE := "Too many validation attempts. Please try again later."
  const KEY_PREFIX := "rate_limit:"

  /** `RateLimitEntry` */
  datatype Entry = Entry(count: int, resetAt: int)

  /** `getRateLimitKey` */
  function RateLimitKey(ip: string): string {
    KEY_PREFIX + ip
  }

  /** Distinct addresses get distinct entries. */
  lemma RateLimitKeyInjective(a: string, b: string)
    requires RateLimitKey(a) == RateLimitKey(b)
    ensures a == b
  {
    assert a == RateLimitKey(a)[|KEY_PREFIX|..];
    assert b == RateLimitKey(b)[|KEY_PREFIX|..];
  }

  // ---------------------------------------------------------------------
  // The limiter's behaviour as functions of the store

  /** An entry is live until its reset time has passed: expiry is strict. */
  predicate Live(e: Entry, now: int) {
    e.resetAt >= now
  }

  /** What `cleanupExpiredEntries` leaves: the live entries. */
  function Sweep(store: map<string, Entry>, now: int): map<string, Entry> {
    map k | k in store && Live(store[k], now) :: store[k]
  }

  /** Whether `checkRateLimit` lets a request from `ip` through. */
  function Allows(store: map<string, Entry>, ip: string, now: int, maxAttempts: int): bool {
    var swept := Sweep(store, now);
    var key := RateLimitKey(ip);
    key !in swept || swept[key].count < maxAttempts
  }

  /** The store `checkRateLimit` leaves: swept, with a fresh zero entry for
      `ip` when it had no live one. */
  function AfterCheck(store: map<string, Entry>, ip: string, now: int, windowMs: int): map<string, Entry> {
    var swept := Sweep(store, now);
    var key := RateLimitKey(ip);
    if key !in swept then swept[key := Entry(0, now + windowMs)] else swept
  }

  /** The store `recordAttempt` leaves: swept, with `ip`'s live entry
      incremented in place, or a fresh entry of one attempt. */
  function AfterRecord(store: map<string, Entry>, ip: string, now: int, windowMs: int): map<string, Entry> {
    var swept := Sweep(store, now);
    var key := RateLimitKey(ip);
    if key !in swept then swept[key := Entry(1, now + windowMs)]
    else swept[key := Entry(swept[key].count + 1, swept[key].resetAt)]
  }

  /** The sweep removes exactly the expired entries and keeps the others as
      they are; an entry whose reset time is now is kept. */
  lemma SweepKeepsExactlyLive(store: map<string, Entry>, now: int)
    ensures forall k :: k in Sweep(store, now) <==> k in store && store[k].resetAt >= now
    ensures forall k :: k in Sweep(store, now) ==> Sweep(store, now)[k] == store[k]
    ensures Sweep(Sweep(store, now), now) == Sweep(store, now)
  {
  }

  /** A request is refused exactly when a live entry has used up its
      attempts. */
  lemma AllowsExactly(store: map<string, Entry>, ip: string, now: int, maxAttempts: int)
    ensures var key := RateLimitKey(ip);
      !Allows(store, ip, now, maxAttempts) <==>
        key in store && store[key].resetAt >= now && store[key].count >= maxAttempts
  {
  }

  /** With no live entry, the check lets the request through and starts a
      window with no attempts counted. */
  lemma CheckStartsWindow(store: map<string, Entry>, ip: string, now: int, maxAttempts: int, windowMs: int)
    requires var key := RateLimitKey(ip); key !in store || store[key].resetAt < now
    ensures Allows(store, ip, now, maxAttempts)
    ensures AfterCheck(store, ip, now, windowMs)[RateLimitKey(ip)] == Entry(0, now + windowMs)
  {
  }

  /** A live entry, even one whose reset time is exactly now, is neither
      swept nor reset by the check. */
  lemma CheckKeepsLiveEntry(store: map<string, Entry>, ip: string, now: int, windowMs: int)
    requires RateLimitKey(ip) in store && store[RateLimitKey(ip)].resetAt >= now
    ensures AfterCheck(store, ip, now, windowMs)[RateLimitKey(ip)] == store[RateLimitKey(ip)]
  {
  }

  /** Repeating the check at the same instant gives the same answer and
      changes nothing more, as long as at least one attempt is allowed. */
  lemma CheckRepeatable(store: map<string, Entry>, ip: string, now: int, maxAttempts: int, windowMs: int)
    requires maxAttempts >= 1
    ensures var after := AfterCheck(store, ip, now, windowMs);
      && Allows(after, ip, now, maxAttempts) == Allows(store, ip, now, maxAttempts)
      && AfterCheck(after, ip, now, windowMs) == after
  {
    var key := RateLimitKey(ip);
    var after := AfterCheck(store, ip, now, windowMs);
    if key in store && Live(store[key], now) {
      assert after == Sweep(store, now);
    } else if windowMs >= 0 {
      assert after[key] == Entry(0, now + windowMs);
      assert Sweep(after, now) == after;
    } else {
      assert Sweep(after, now) == Sweep(store, now);
    }
  }

  /** Recording an attempt starts a window of one attempt when there is no
      live entry, and otherwise adds exactly one to the count and keeps the
      reset time. */
  lemma RecordCounts(store: map<string, Entry>, ip: string, now: int, windowMs: int)
    ensures var key := RateLimitKey(ip);
      var after := AfterRecord(store, ip, now, windowMs);
      && key in after
      && (key in store && store[key].resetAt >= now ==>
            after[key] == Entry(store[key].count + 1, store[key].resetAt))
      && (key !in store || store[key].resetAt < now ==> after[key] == Entry(1, now + windowMs))
  {
  }

  /** Check and record touch only `ip`'s entry: every other live entry is
      kept unchanged, and every other expired entry is removed. */
  lemma OtherAddressesUntouched(store: map<string, Entry>, ip: string, now: int, windowMs: int, k: string)
    requires k != RateLimitKey(ip)
    ensures k in AfterCheck(store, ip, now, windowMs) <==> k in store && Live(store[k], now)
    ensures k in AfterRecord(store, ip, now, windowMs) <==> k in store && Live(store[k], now)
    ensures k in store && Live(store[k], now) ==>
      AfterCheck(store, ip, now, windowMs)[k] == store[k] && AfterRecord(store, ip, now, windowMs)[k] == store[k]
  {
  }

  // ---------------------------------------------------------------------
  // The limiter

  /** The module-level `rateLimitStore` with the two limits read from the
      environment. */
  class RateLimiter {
    const maxAttempts: int
    const windowMs: int
    var store: map<string, Entry>

    constructor(maxAttempts: int, windowMs: int)
      ensures this.maxAttempts == maxAttempts && this.windowMs == windowMs
      ensures store == map[]
    {
      this.maxAttempts := maxAttempts;
      this.windowMs := windowMs;
      store := map[];
    }

    /** `cleanupExpiredEntries`: walk a snapshot of the keys, deleting every
        entry whose reset time has passed. */
    method CleanupExpiredEntries(now: int)
      modifies this
      ensures store == Sweep(old(store), now)
    {
      var pending := store.Keys;
      while pending != {}
        invariant pending <= old(store).Keys
        invariant forall k :: k in store <==> k in old(store) && (k in pending || Live(old(store)[k], now))
        invariant forall k :: k in store ==> store[k] == old(store)[k]
        decreases pending
      {
        var key :| key in pending;
        if store[key].resetAt < now {
          store := store - {key};
        }
        pending := pending - {key};
      }
    }

    /** `checkRateLimit` */
    method CheckRateLimit(ip: string, now: int) returns (allowed: bool)
      modifies this
      ensures allowed == Allows(old(store), ip, now, maxAttempts)
      ensures store == AfterCheck(old(store), ip, now, windowMs)
    {
      CleanupExpiredEntries(now);
      var key := RateLimitKey(ip);
      if key !in store || store[key].resetAt < now {
        store := store[key := Entry(0, now + windowMs)];
        return true;
      }
      if store[key].count >= maxAttempts {
        return false;
      }
      return true;
    }

    /** `recordAttempt` */
    method RecordAttempt(ip: string, now: int)
      modifies this
      ensures store == AfterRecord(old(store), ip, now, windowMs)
    {
      CleanupExpiredEntries(now);
      var key := RateLimitKey(ip);
      if key !in store || store[key].resetAt < now {
        store := store[key := Entry(1, now + windowMs)];
      } else {
        store := store[key := Entry(store[key].count + 1, store[key].resetAt)];
      }
    }
  }

  // ---------------------------------------------------------------------
  // Validation

  /** A character of the class `[A-Z2-9]`. */
  predicate IsFormatChar(c: char) {
    'A' <= c <= 'Z' || '2' <= c <= '9'
  }

  /** `/^[A-Z2-9]{8}$/.test(s)` */
  predicate IsValidFormat(s: string) {
    |s| == 8 && forall i :: 0 <= i < |s| ==> IsFormatChar(s[i])
  }

  /** What `validateCode` resolves to or throws. */
  datatype Outcome = Valid(guest: Guest) | Invalid | Blocked(message: string)

  /** The limiter's store after a validation that failed: checked at `now`,
      and charged at `chargedAt` when the check let it through. */
  function AfterFailure(store: map<string, Entry>, ip: string, now: int, chargedAt: int, maxAttempts: int, windowMs: int): map<string, Entry> {
    var checked := AfterCheck(store, ip, now, windowMs);
    if Allows(store, ip, now, maxAttempts) then AfterRecord(checked, ip, chargedAt, windowMs) else checked
  }

  /** `validateCode`: check the limit, normalise, check the format, look the
      code up. Only a bad format or a failed lookup is charged; a refused
      request is neither normalised nor looked up. The check reads the clock
      as `now`; the charge reads it again, after the lookup, as `chargedAt`. */
  method ValidateCode(limiter: RateLimiter, base: Base, code: string, ip: string, now: int, chargedAt: int)
    returns (outcome: Outcome)
    modifies limiter, base
    ensures var allowed := Allows(old(limiter.store), ip, now, limiter.maxAttempts);
      var checked := AfterCheck(old(limiter.store), ip, now, limiter.windowMs);
      var charged := AfterRecord(checked, ip, chargedAt, limiter.windowMs);
      var normalized := UpperTrim(code);
      if !allowed then
        outcome == Blocked(RATE_LIMIT_MESSAGE) && limiter.store == checked && base.log == old(base.log)
      else if !IsValidFormat(normalized) then
        outcome == Invalid && limiter.store == charged && base.log == old(base.log)
      else
        var found := GuestFromReply(normalized, base.guestsWithCode(normalized));
        && base.log == old(base.log) + [FindGuests(normalized)]
        && (found.None? ==> outcome == Invalid && limiter.store == charged)
        && (found.Some? ==> outcome == Valid(found.value) && limiter.store == checked)
    ensures !outcome.Valid? ==>
      limiter.store == AfterFailure(old(limiter.store), ip, now, chargedAt, limiter.maxAttempts, limiter.windowMs)
    ensures outcome.Valid? ==> Upper(outcome.guest.inviteCode) == UpperTrim(code)
  {
    var allowed := limiter.CheckRateLimit(ip, now);
    if !allowed {
      return Blocked(RATE_LIMIT_MESSAGE);
    }
    var normalized := UpperTrim(code);
    if !IsValidFormat(normalized) {
      limiter.RecordAttempt(ip, chargedAt);
      return Invalid;
    }
    var guest := FetchGuestByCode(base, normalized);
    UpperTrimTwice(code);
    if guest.None? {
      limiter.RecordAttempt(ip, chargedAt);
      return Invalid;
    }
    return Valid(guest.value);
  }

  // ---------------------------------------------------------------------
  // Failures accumulate

  /** The two clock readings of a failed validation: at the limit check and
      at the charge. */
  datatype Instants = Instants(check: int, charge: int)

  /** The store after a run of failed validations from `ip` at the given
      instants. */
  function AfterFailures(store: map<string, Entry>, ip: string, failures: seq<Instants>, maxAttempts: int, windowMs: int): map<string, Entry>
    decreases |failures|
  {
    if failures == [] then store
    else
      var last := failures[|failures| - 1];
      AfterFailure(AfterFailures(store, ip, failures[..|failures| - 1], maxAttempts, windowMs),
                   ip, last.check, last.charge, maxAttempts, windowMs)
  }

  /** Every failure is charged no earlier than it is checked, and before the
      next one is checked. */
  predicate InOrder(failures: seq<Instants>) {
    && (forall i :: 0 <= i < |failures| ==> failures[i].check <= failures[i].charge)
    && (forall i, j :: 0 <= i < j < |failures| ==> failures[i].charge <= failures[j].check)
  }

  /** Failures that begin without a live entry and stay within one window
      are all counted, up to the limit. */
  lemma {:induction false} FailuresAccumulate(store: map<string, Entry>, ip: string, failures: seq<Instants>, maxAttempts: int, windowMs: int)
    requires failures != [] && |failures| <= maxAttempts
    requires InOrder(failures)
    requires failures[|failures| - 1].charge <= failures[0].check + windowMs
    requires var key := RateLimitKey(ip); key !in store || store[key].resetAt < failures[0].check
    ensures var after := AfterFailures(store, ip, failures, maxAttempts, windowMs);
      RateLimitKey(ip) in after && after[RateLimitKey(ip)] == Entry(|failures|, failures[0].check + windowMs)
    decreases |failures|
  {
    var key := RateLimitKey(ip);
    var n := |failures|;
    var last := failures[n - 1];
    var prefix := failures[..n - 1];
    var before := AfterFailures(store, ip, prefix, maxAttempts, windowMs);
    if n == 1 {
      assert before == store;
      CheckStartsWindow(store, ip, last.check, maxAttempts, windowMs);
      RecordCounts(AfterCheck(store, ip, last.check, windowMs), ip, last.charge, windowMs);
    } else {
      assert prefix[0] == failures[0] && prefix[|prefix| - 1] == failures[n - 2];
      assert failures[n - 2].charge <= last.check <= last.charge;
      FailuresAccumulate(store, ip, prefix, maxAttempts, windowMs);
      assert before[key] == Entry(n - 1, failures[0].check + windowMs);
      assert Allows(before, ip, last.check, maxAttempts);
      CheckKeepsLiveEntry(before, ip, last.check, windowMs);
      RecordCounts(AfterCheck(before, ip, last.check, windowMs), ip, last.charge, windowMs);
    }
  }

  /** After `maxAttempts` failures within one window, the next validation
      from the same address within that window is refused. */
  lemma BlockedAfterMaxFailures(store: map<string, Entry>, ip: string, failures: seq<Instants>, maxAttempts: int, windowMs: int, next: int)
    requires |failures| == maxAttempts >= 1
    requires InOrder(failures)
    requires failures[|failures| - 1].charge <= next <= failures[0].check + windowMs
    requires var key := RateLimitKey(ip); key !in store || store[key].resetAt < failures[0].check
    ensures !Allows(AfterFailures(store, ip, failures, maxAttempts, windowMs), ip, next, maxAttempts)
  {
    FailuresAccumulate(store, ip, failures, maxAttempts, windowMs);
    AllowsExactly(AfterFailures(store, ip, failures, maxAttempts, windowMs), ip, next, maxAttempts);
  }
}
