# Wedding invitations and RSVPs: a Dafny model

This project models the core of a wedding website. Guests open the site with
an eight-character invite code. The code decides which of the three
celebrations (Lagos, London, Portugal) they see, and for which of them they can
RSVP with plus-ones. Guests and RSVPs live in an Airtable base.

The model covers these parts:

- the invite-code subsystem:
  - a per-address rate limiter;
  - the validation of a code against the store;
  - the generation of fresh codes, checked for uniqueness;
- the store client's record mappers, field maps and error classification;
- the three API routes:
  - `validate-code`, which checks a code and answers with the guest;
  - `generate-code`, admin only, which makes a code and writes it to a guest record;
  - `rsvp`, which reads, updates, or creates-or-updates an RSVP;
- the pure rules of the pages and components:
  - the code input's sanitiser and submit rule;
  - the home page's dispatch;
  - the RSVP form's plus-one cap, checks and request body;
  - the admin page's CSV export and location filter;
  - the multi-location tabs and their address;
  - the other-locations links;
  - the countdown's day/hour/minute/second split.

One module per source file:

| module | file | source |
|---|---|---|
| `CodeValidation` | code_validation.dfy | lib/code-validation.ts |
| `CodeGeneration` | code_generation.dfy | lib/code-generation.ts |
| `Airtable` | airtable.dfy | lib/airtable.ts |
| `ValidateCodeRoute` | validate_code_route.dfy | app/api/validate-code/route.ts |
| `GenerateCodeRoute` | generate_code_route.dfy | app/api/generate-code/route.ts |
| `RsvpRoute` | rsvp_route.dfy | app/api/rsvp/route.ts |
| `CodeInput` | code_input.dfy | components/CodeInput.tsx |
| `HomePage` | home_page.dfy | app/page.tsx |
| `RsvpForm` | rsvp_form.dfy | components/RSVPForm.tsx |
| `AdminPage` | admin_page.dfy | app/admin/page.tsx |
| `MultiLocationContent` | multi_location_content.dfy | components/MultiLocationContent.tsx |
| `LocationNav` | location_nav.dfy | components/LocationNav.tsx |
| `Countdown` | countdown.dfy | components/Countdown.tsx |
| `Types` | types.dfy | types/rsvp.ts |

Supporting modules model the JavaScript built-ins the code relies on:

- `Strings`: ASCII `toUpperCase` and `trim`, `split` and `join`, `includes`, and decimal text.
- `Js`: JSON values, truthiness, `||`, `String(v)` and `parseInt(v, 10)`.
- `Url`: UTF-8, `encodeURIComponent`, `URLSearchParams` serialisation and the decoding of a query string.
- `Optional`: `Option` and `Result`.

Effects take the form of their source:

- The rate limiter is a class whose `store` map is reassigned.
- The code generator is a class that hands out a fixed stream of candidates.
- The store is a class `Airtable.Base`. It holds the lookups' answers and which writes fail, as oracles, and a `log` of every request sent. Each effectful operation states the requests it adds to that log.
- The routes and the form's submit are methods over these classes.
- Everything else is functions.

Facts about the code that the model keeps:

- The code alphabet has 32 symbols: A to Z without I and O, and 2 to 9.
- The format check `[A-Z2-9]{8}` accepts the letters I and O, which the generator never produces.
- A failing guest lookup during validation resolves to "not found" and is charged as a failed attempt. It is not propagated as an error.
- Validation reads the clock twice: at the limit check, and again when it charges a failure after the lookup.
- The RSVP routes build the RSVP without the body's `phone_number`, so the handlers never send a phone number to the store (see Findings).
- The generate-code `POST` stores the code through `createGuestCode` as written, whose NOT_FOUND test misses the client's reworded missing-record error (see Findings).

## Model

| member | source | states |
|---|---|---|
| `CodeValidation.RateLimitKeyInjective` | lib/code-validation.ts:14-16 | two addresses with the same limiter key are the same address, so each address has its own entry |
| `CodeValidation.SweepKeepsExactlyLive` | lib/code-validation.ts:18-26 | the sweep keeps exactly the entries whose reset time is not before now (expiry is strict), keeps them unchanged, and sweeping twice is sweeping once |
| `CodeValidation.RateLimiter.constructor` | lib/code-validation.ts:9-12 | a limiter starts with an empty store and the given bound and window |
| `CodeValidation.RateLimiter.CleanupExpiredEntries` | lib/code-validation.ts:18-26 | the loop over the entries leaves the store equal to the sweep of the old store |
| `CodeValidation.RateLimiter.CheckRateLimit` | lib/code-validation.ts:28-49 | the answer and the new store are those of the check function on the old store |
| `CodeValidation.AllowsExactly` | lib/code-validation.ts:44-46 | the check refuses exactly when a live entry for the address has reached the maximum |
| `CodeValidation.CheckStartsWindow` | lib/code-validation.ts:35-42 | with no live entry the check lets the request through and leaves an entry of count 0 reset at now + window |
| `CodeValidation.CheckKeepsLiveEntry` | lib/code-validation.ts:31-46 | a live entry, including one whose reset time is exactly now, is left as it was |
| `CodeValidation.CheckRepeatable` | lib/code-validation.ts:28-49 | checking again at the same instant gives the same answer and changes nothing more |
| `CodeValidation.RateLimiter.RecordAttempt` | lib/code-validation.ts:51-66 | the new store is the record function of the old store |
| `CodeValidation.RecordCounts` | lib/code-validation.ts:58-65 | recording starts a window of one attempt when no entry is live, and otherwise adds exactly one and keeps the reset time |
| `CodeValidation.OtherAddressesUntouched` | lib/code-validation.ts:14-26 | check and record keep every other live entry unchanged and drop every other expired one |
| `CodeValidation.ValidateCode` | lib/code-validation.ts:68-126 | order is check, normalise, format test, lookup: a refused address gets the rate-limit error with nothing charged and nothing looked up; a malformed code is charged once with no lookup; a lookup miss is charged once, at the clock's second reading; a found guest is returned uncharged and its code matches the normalised code |
| `CodeValidation.FailuresAccumulate` | lib/code-validation.ts:51-66 | up to the maximum failures, each checked and then charged inside one window, leave an entry counting exactly those failures, reset at the first check + window |
| `CodeValidation.BlockedAfterMaxFailures` | lib/code-validation.ts:28-66 | after the maximum number of failures inside one window, the next check in that window refuses |
| `CodeGeneration.AlphabetAvoidsLookalikes` | lib/code-generation.ts:4-5 | the alphabet has 32 symbols, all upper-case letters other than I and O or digits 2 to 9, so 0, 1, I and O never appear |
| `CodeGeneration.AlphabetByRange` | lib/code-generation.ts:5 | a character is in the alphabet exactly when it is such a letter or digit |
| `CodeGeneration.GeneratedCodeIsWellFormed` | lib/code-generation.ts:5-12 | every generated code passes the validation's `[A-Z2-9]{8}` test |
| `CodeGeneration.GeneratedCodeIsNormal` | lib/code-generation.ts:5-12 | a generated code is unchanged by upper-casing and trimming |
| `CodeGeneration.CodeSource.constructor` | lib/code-generation.ts:8-12 | the candidate stream starts at its first candidate |
| `CodeGeneration.CodeSource.Next` | lib/code-generation.ts:10-12 | each call hands out the next candidate, eight symbols of the alphabet |
| `CodeGeneration.CheckGeneratedCode` | lib/code-generation.ts:21 | one lookup of the candidate; it is taken exactly when the store found a record for it |
| `CodeGeneration.AllTakenEach` | lib/code-generation.ts:17-30 | every candidate of a run reported taken is taken |
| `CodeGeneration.GenerateUniqueCode` | lib/code-generation.ts:14-34 | returns the first candidate not taken, after exactly as many draws and lookups as candidates tried; when all are taken it fails with "Failed to generate unique code after N attempts" after exactly N draws and lookups, or none when N is not positive |
| `Airtable.UnquotedRun` | lib/airtable.ts:64-71 | the text up to the first double quote, and nothing past it |
| `Airtable.UnknownFieldName` | lib/airtable.ts:64-71 | a field name is read only when the message names it between the quotes of `Unknown field name: "…"`, and it is non-empty and quote-free |
| `Airtable.Classify` | lib/airtable.ts:45-93 | precedence of the error kinds: unknown field with a name read, then NOT_FOUND or 404, then 401 or AUTHENTICATION_REQUIRED, else an API error carrying the message |
| `Airtable.MentionsIsIncludes` | lib/airtable.ts:283-295 | the model's test for a word in a classified error agrees with `includes` on the error's message |
| `Airtable.FixedMessagesLack` | lib/airtable.ts:74-88 | the reworded not-found and authentication messages contain neither `_` nor `v` |
| `Airtable.NotFoundMessageLacks` | lib/airtable.ts:74-78 | the reworded not-found message contains neither `_` nor `v` |
| `Airtable.AuthenticationMessageLacks` | lib/airtable.ts:81-88 | the reworded authentication message contains neither `_` nor `v` |
| `Airtable.NoCodeWithoutUnderscore` | lib/airtable.ts:74-78 | text without `_` never contains NOT_FOUND |
| `Airtable.ClassifiedMessageOmitsNotFoundCode` | lib/airtable.ts:45-93 | apart from an unknown-field error, no classified error's message contains NOT_FOUND |
| `Airtable.Base.constructor` | lib/airtable.ts:22-93 | a store with the given lookup answers and write failures, and no requests sent yet |
| `Airtable.Base.QueryGuests` | lib/airtable.ts:114-128 | a guest lookup by code answers with the store's reply and is logged |
| `Airtable.Base.QueryRsvps` | lib/airtable.ts:527-539 | an RSVP lookup by code and location answers with the store's reply and is logged |
| `Airtable.Base.Send` | lib/airtable.ts:45-93 | a write is logged; it fails exactly when the store fails it, and then with the classified error |
| `Airtable.Sent` | lib/airtable.ts:374-379 | what `JSON.stringify` sends of a field map: exactly the fields that are not undefined, with their values |
| `Airtable.NormalizeAllowedPlusOnes` | lib/airtable.ts:162-166 | a cap is kept exactly when it is a positive number, and then unchanged |
| `Airtable.ToGuest` | lib/airtable.ts:168-187 | the guest keeps the record's id and name, an absent code becomes "", absent locations become [], and every cap is either absent or positive |
| `Airtable.GuestFromReply` | lib/airtable.ts:133-149 | a guest comes back exactly when there is a first record whose upper-cased code equals the normalised code, and it is that record's guest |
| `Airtable.FetchGuestByCode` | lib/airtable.ts:104-217 | one lookup for the trimmed, upper-cased code; its reply decides the guest, and a failed request gives none |
| `Airtable.RecordsFound` | lib/airtable.ts:231-238 | a lookup found something exactly when it returned at least one record; a failed request finds nothing |
| `Airtable.CheckCodeExists` | lib/airtable.ts:219-239 | one lookup for the normalised code; the code exists exactly when a record came back, and any failure counts as absent |
| `Airtable.CreateGuestCodeAsWritten` | lib/airtable.ts:241-330 | patches the guest's code and date; on an error mentioning NOT_FOUND reports the record id; on a date error patches the code alone; any other error is rethrown; every request it sends patches that record's code to the new code |
| `Airtable.MissingGuestRecordNotRecognised` | lib/airtable.ts:283-287 | a 404 from the store is classified as a missing record whose message lacks NOT_FOUND, so the record-id report never fires for it |
| `Airtable.CreateGuestCode` | lib/airtable.ts:241-330 | as written, but a missing record (404) is reported with the record id; every request it sends patches that record's code to the new code |
| `Airtable.CleanNames` | lib/airtable.ts:561-570 | trimming and dropping empties never lengthens the list, and every name left is non-empty and trimmed |
| `Airtable.ParseNames` | lib/airtable.ts:561-570 | parsing stored names never yields an empty or space-padded name |
| `Airtable.ReadPlusOneNames` | lib/airtable.ts:561-570 | a list is passed through unchanged, non-empty text is parsed, and absent or empty text gives nothing |
| `Airtable.CleanNamesOfTrimmed` | lib/airtable.ts:563-567 | pieces that trim to the given non-empty names clean to exactly those names |
| `Airtable.PaddedPiecesClean` | lib/airtable.ts:561-570 | the pieces of a `", "`-joined list clean back to the list |
| `Airtable.PlusOneNamesRoundTrip` | lib/airtable.ts:561-570 | names joined with `", "` and read back give the same non-empty list, when no name is empty, holds a comma or is space-padded |
| `Airtable.CreateFieldValuesAlways` | lib/airtable.ts:388-413 | the first create request carries the RSVP's own location, name, phone, count, attendance and flags |
| `Airtable.CreateFieldValuesWhenSet` | lib/airtable.ts:398-427 | the first create request carries the invite code and dietary text only when truthy, the plus-one names joined by ", " only when there are some, and today's date |
| `Airtable.MapperReadsSent` | lib/airtable.ts:549-570 | the mapper reads the code, location, name, count, attendance, dietary text, flags and date of a stored record as the values the request sent (undefined when not sent), and the phone as "" when it is not truthy |
| `Airtable.StoredRsvpReadsBack` | lib/airtable.ts:549-570 | a record holding what the first create request sent maps back, with the record's id, to the RSVP written: location, name, count, attendance and flags unchanged, the phone or "", the code and dietary text when truthy, the write's date, and trimmed comma-free plus-one names unchanged (none when none were sent) |
| `Airtable.GetRsvpByCodeAndLocation` | lib/airtable.ts:522-582 | one lookup for the normalised code and the location; the first record found is the answer, otherwise none |
| `Airtable.UpdateAgreesWithCreate` | lib/airtable.ts:334-427 | update and create send the same fields with the same values, apart from the dietary text and the plus-one names |
| `Airtable.UpdateClearsWhatCreateOmits` | lib/airtable.ts:346-418 | where create leaves out the dietary text or the plus-one names, update writes null; where create sends them, update sends the same value |
| `Airtable.FieldMapsCarryRequiredFields` | lib/airtable.ts:334-412 | both maps hold location, name, phone number, guests, attending and the date; the invite code only when truthy; the two flags only when defined |
| `Airtable.RetryDropsPhoneAndDate` | lib/airtable.ts:437-481 | the retry's fields are create's fields without the date and the phone number |
| `Airtable.BuildUpdateFields` | lib/airtable.ts:334-372 | the successive assignments build exactly update's field map |
| `Airtable.BuildCreateFields` | lib/airtable.ts:390-427 | the successive assignments build exactly create's field map |
| `Airtable.BuildRetryFields` | lib/airtable.ts:439-466 | the successive assignments build exactly the retry's field map |
| `Airtable.UpdateRsvp` | lib/airtable.ts:332-386 | one PATCH of the sent update fields; it throws exactly the store's error, if any |
| `Airtable.CreateRsvp` | lib/airtable.ts:388-486 | one POST of the create fields; only an error mentioning `submitted_at` brings one retry without date and phone; the last request's error is the one thrown |
| `ValidateCodeRoute.ClientIp` | app/api/validate-code/route.ts:18-19 | the untrimmed text before the first comma of a non-empty `x-forwarded-for`, else a non-empty `x-real-ip`, else "unknown" |
| `ValidateCodeRoute.RateLimitMessageGives429` | app/api/validate-code/route.ts:39-45 | the limiter's refusal message is answered with 429 |
| `ValidateCodeRoute.Post` | app/api/validate-code/route.ts:4-52 | for a body that parses to a JSON object: a missing, empty or non-string code gives 400 "Code is required" with nothing charged or looked up; a refused address gives 429; a guest answer's code matches the normalised code; every other outcome is 404 "Invalid code" |
| `GenerateCodeRoute.AuthorizedReadsBearer` | app/api/generate-code/route.ts:16-19 | with a password set, the only header accepted is "Bearer " followed by the password, and a missing header is refused |
| `GenerateCodeRoute.UniqueLink` | app/api/generate-code/route.ts:47-48 | the link is the site address (default `http://localhost:3000`), then `?code=`, then the code |
| `GenerateCodeRoute.Post` | app/api/generate-code/route.ts:5-65 | 401 before anything when unauthorised; 400 when `recordId` is missing, before any generation; otherwise the lookups are exactly those of the 1 to 10 candidates drawn; when all ten are taken, 500 with the exhaustion message and no write; otherwise the writes start with the code-and-date PATCH of the first free candidate (every earlier candidate was taken) and all set that record's code to it, and the code is returned with its link exactly when the store accepts the last PATCH, else 500 |
| `GenerateCodeRoute.StoreCode` | app/api/generate-code/route.ts:44 | storing sends the code-and-date PATCH, then the code-only PATCH exactly when the first is refused for its date and not for NOT_FOUND; every write sets the record's code to the generated code; it fails exactly when the store refuses the last PATCH |
| `GenerateCodeRoute.QueriesAreLookups` | lib/code-generation.ts:17-30 | the uniqueness loop sends lookups only |
| `GenerateCodeRoute.Get` | app/api/generate-code/route.ts:67-93 | 401 when unauthorised; otherwise only lookups are sent and no record is written; a success is a fresh well-formed code with its link; the only errors are 401 and 500 |
| `RsvpRoute.GuestCount` | app/api/rsvp/route.ts:51 | the guest count is never zero |
| `RsvpRoute.GuestCountOfNumber` | app/api/rsvp/route.ts:51 | a number is kept, except that 0 becomes 1 |
| `RsvpRoute.GuestCountOfText` | app/api/rsvp/route.ts:51 | the decimal text of a number reads as that number, except that 0 becomes 1 |
| `RsvpRoute.GuestCountOfMissing` | app/api/rsvp/route.ts:51 | a missing count becomes 1 |
| `RsvpRoute.FilterNames` | app/api/rsvp/route.ts:56-58 | fails exactly when a truthy element is not text (its `trim` throws); otherwise keeps, untrimmed, exactly the elements that are non-blank text |
| `RsvpRoute.FilterNamesIdempotent` | app/api/rsvp/route.ts:56-58 | a list of non-blank names passes the filter unchanged |
| `RsvpRoute.RsvpFromBodyAsWritten` | app/api/rsvp/route.ts:46-59 | the RSVP is built exactly when the names pass the filter, and it never carries a phone number |
| `RsvpRoute.PhoneNeverStoredAsWritten` | app/api/rsvp/route.ts:46-59 | as written, neither the update nor the create request ever carries a phone number |
| `RsvpRoute.RsvpFromBody` | app/api/rsvp/route.ts:46-59 | as written, but the phone number is carried over from the body |
| `RsvpRoute.RsvpFromBodyKeepsBody` | app/api/rsvp/route.ts:46-59 | the RSVP the handlers build keeps the id, location and name, and has no phone number; its count is a non-zero number; it is not attending only when the body says `false`; the flags are defined; the code is truthy when the body's is; kept names are non-blank |
| `RsvpRoute.PhoneSentWhenDefined` | lib/airtable.ts:390-396 | both requests carry the phone number exactly when the RSVP has one, and then that value |
| `RsvpRoute.PhoneStored` | app/api/rsvp/route.ts:46-59 | a phone number in the body reaches both the update and the create request |
| `RsvpRoute.SubmittedNamesReadBack` | app/api/rsvp/route.ts:56-58 | comma-free non-blank names stored by the route read back as the same names, trimmed |
| `RsvpRoute.TrimAll` | lib/airtable.ts:565 | each name trimmed, in order |
| `RsvpRoute.Read` | app/api/rsvp/route.ts:5-33 | a missing or empty code or location gives 400 with no request; otherwise one lookup, whose first record is the answer, or null |
| `RsvpRoute.UpdateFromBody` | app/api/rsvp/route.ts:46-71 | a name filter failure gives 500 and a missing location or name gives 400, both with no write; otherwise exactly one PATCH of the RSVP built as written (without phone number), saved exactly when the store accepts it |
| `RsvpRoute.Update` | app/api/rsvp/route.ts:35-80 | a missing id gives 400 before anything else; otherwise as `UpdateFromBody` for that id |
| `RsvpRoute.FindExisting` | app/api/rsvp/route.ts:86-93 | the existing RSVP's id for a truthy code and location, found with lookups only |
| `RsvpRoute.Submit` | app/api/rsvp/route.ts:82-157 | lookups first; then an existing RSVP is updated with exactly the PATCH of the RSVP built as written, saved (`updated: true`) exactly when the store accepts it; otherwise one is created, POSTs only starting with the create request, saved (`updated: false`) exactly when the store accepts the last POST; 400 exactly when the names pass and location or name is missing, with no write |
| `RsvpRoute.SaveAfterLookup` | app/api/rsvp/route.ts:93-148 | after the lookup: the PATCH of the found id, saved exactly when accepted, or the POSTs of a new RSVP, saved exactly when the last is accepted; the same 400 rule |
| `RsvpRoute.UpdateExisting` | app/api/rsvp/route.ts:95-119 | a missing location or name writes nothing; otherwise one PATCH of the found id with the RSVP built as written, saved exactly when the store accepts it; a success says `updated: true` |
| `RsvpRoute.CreateFromBody` | app/api/rsvp/route.ts:123-148 | writes are POSTs only, none when the body is refused; otherwise the first is the create request of the RSVP built as written, and it is saved exactly when the store accepts the last POST; a success says `updated: false` |
| `CodeInput.KeepFormatChars` | components/CodeInput.tsx:93 | removal keeps only `[A-Z2-9]` characters and never lengthens the text |
| `CodeInput.KeepFormatCharsAppend` | components/CodeInput.tsx:93 | removal works character by character, so it distributes over concatenation |
| `CodeInput.KeepFormatCharsOfFormat` | components/CodeInput.tsx:93 | text of `[A-Z2-9]` characters is kept whole |
| `CodeInput.Sanitize` | components/CodeInput.tsx:89-96 | the input box holds at most 8 characters, all from `[A-Z2-9]` |
| `CodeInput.FormatIsUpper` | components/CodeInput.tsx:92 | `[A-Z2-9]` text is unchanged by upper-casing |
| `CodeInput.SanitizeIdempotent` | components/CodeInput.tsx:89-96 | sanitising a sanitised code changes nothing |
| `CodeInput.SanitizeOfValidCode` | components/CodeInput.tsx:89-96 | a well-formed code passes the sanitiser unchanged |
| `CodeInput.SanitizeTyped` | components/CodeInput.tsx:89-96 | typing a character into a short box appends its upper-case form when that is a code character, and otherwise changes nothing |
| `CodeInput.HintMeansDisabled` | components/CodeInput.tsx:104-112 | whenever the length hint shows, submit is disabled |
| `CodeInput.EnabledSubmitIsWellFormed` | components/CodeInput.tsx:89-112 | an enabled submit sends a code that is already normalised and passes the format test |
| `CodeInput.Outcome` | components/CodeInput.tsx:30-73 | the page navigates exactly when the reply is OK with a truthy guest; every error shown is non-empty |
| `CodeInput.RejectionMessages` | components/CodeInput.tsx:30-53 | a refusal shows the server's error, else "Too many attempts…" for 429, else "Invalid code…" |
| `CodeInput.CodeForm.constructor` | components/CodeInput.tsx:7-9 | the box starts empty, with no error and not loading |
| `CodeInput.CodeForm.Change` | components/CodeInput.tsx:89-97 | typing sets the box to the sanitised input and clears the error |
| `CodeInput.CodeForm.Submit` | components/CodeInput.tsx:12-74 | the box keeps its code; a navigation goes to `/?code=` and the normalised code; an error is shown and loading stops otherwise |
| `CodeInput.AcceptedCodeNavigates` | components/CodeInput.tsx:61-62 | an accepted code from an enabled submit navigates to `/?code=` followed by the code as typed |
| `HomePage.Render` | app/page.tsx:39-89 | Lagos with the simple RSVP exactly when there is no code or guest; the multi-location view exactly for more than one allowed location, opening on the location parameter; London or Portugal exactly for that single location; Lagos otherwise |
| `HomePage.SingleLocationPage` | app/page.tsx:66-88 | one Lagos location, no location, or an unknown one all render Lagos content for the guest |
| `HomePage.MultiOpensOnAllowedLocation` | app/page.tsx:54-63 | the multi-location view opens on one of the guest's allowed locations |
| `HomePage.CodeSectionIffSimplePage` | app/page.tsx:107-114 | with a code parameter, the code section shows exactly when the simple Lagos page renders; the invalid-code message exactly when the code is non-empty and no guest was found |
| `HomePage.NormalizeCode` | app/page.tsx:93 | a code parameter is present exactly when one was given, upper-cased and trimmed |
| `HomePage.GetGuest` | app/page.tsx:15-37 | a well-formed normalised code is looked up once, a malformed one not at all and gives no guest |
| `HomePage.Home` | app/page.tsx:91-140 | the guest is looked up only for a well-formed code; the page shows the code section, the message and the content as those rules decide |
| `HomePage.InvitationBelongsToGuest` | app/page.tsx:97-99 | any invited content is rendered for the guest whose code is the one in the address |
| `RsvpForm.MaxPlusOnes` | components/RSVPForm.tsx:21-40 | the cap is positive exactly when the applicable cap is a positive number, and then equals it |
| `RsvpForm.MaxPlusOnesOfStoredGuest` | components/RSVPForm.tsx:21-40 | the location's own cap wins when present, else the global cap, else 0; no guest means 0 |
| `RsvpForm.CountChoices` | components/RSVPForm.tsx:403 | the choices are exactly 0 to the cap, in order |
| `RsvpForm.CountOfChoice` | components/RSVPForm.tsx:390-403 | each choice reads back as its own count |
| `RsvpForm.ResizeNames` | components/RSVPForm.tsx:390-397 | choosing n gives n names, the i-th being the old i-th name or "" |
| `RsvpForm.ResizeDownUp` | components/RSVPForm.tsx:390-397 | shrinking then growing loses the names past the smaller count |
| `RsvpForm.ResizeUpKeeps` | components/RSVPForm.tsx:390-397 | growing keeps every name already entered |
| `RsvpForm.ChooseCount` | components/RSVPForm.tsx:389-398 | after a choice the count and the number of name boxes agree |
| `RsvpForm.ValidationError` | components/RSVPForm.tsx:133-161 | no error exactly when attendance is set, the Portugal dietary field is filled when needed, and no required guest name is blank; attendance is checked first, then the dietary text |
| `RsvpForm.EnabledFormValidates` | components/RSVPForm.tsx:481-494 | a form whose button is enabled passes every check |
| `RsvpForm.ChecksOmitPhone` | components/RSVPForm.tsx:481-494 | a full Lagos form without a phone number passes the checks although the button is disabled |
| `RsvpForm.NonBlank` | components/RSVPForm.tsx:183 | keeps exactly the non-blank names, untrimmed |
| `RsvpForm.PayloadGuests` | components/RSVPForm.tsx:176 | the guest count sent is the plus-one count plus one |
| `RsvpForm.PayloadPhone` | components/RSVPForm.tsx:174-175 | the phone number is sent for Lagos only |
| `RsvpForm.PayloadNames` | components/RSVPForm.tsx:181-184 | plus-one names are sent only when the count is positive, without blanks |
| `RsvpForm.PayloadAnswers` | components/RSVPForm.tsx:178-180 | the dietary text and the two flags are sent as entered |
| `RsvpForm.PayloadAttending` | components/RSVPForm.tsx:177 | attendance is sent as chosen |
| `RsvpForm.PayloadLocationAndName` | components/RSVPForm.tsx:172-173 | the location's name and the name entered are sent |
| `RsvpForm.PayloadAsRead` | components/RSVPForm.tsx:169-185 | what the form sends, the route reads back as the same count, attendance, location, name and non-blank names; the form sends a phone number with Lagos only, and the route drops it |
| `RsvpForm.PayloadRequiredFields` | components/RSVPForm.tsx:172-173 | the route refuses a form's body for missing fields exactly when the name is empty |
| `RsvpForm.EnabledFullFormIsSaved` | components/RSVPForm.tsx:481-494 | a full form with its button enabled sends a body the route accepts |
| `RsvpForm.FailureMessage` | components/RSVPForm.tsx:188-193 | a failure always shows a non-empty message, "Failed to submit RSVP" when the reply has no error |
| `RsvpForm.Form.constructor` | components/RSVPForm.tsx:60-74 | the form starts empty, with no RSVP id, not submitting and no error |
| `RsvpForm.Form.Submit` | components/RSVPForm.tsx:129-195 | a failed check sends nothing and shows its message; otherwise the body goes by PUT when an RSVP id is known and POST when not, and the form shows success or the failure's message |
| `RsvpForm.Prefill` | components/RSVPForm.tsx:94-103 | the count of plus-ones is the number of stored names |
| `RsvpForm.PrefillOfSubmitted` | components/RSVPForm.tsx:94-103 | the RSVP built from what the form sent fills the form again with the same name, answers and non-blank guest names |
| `AdminPage.DoubleQuotes` | app/admin/page.tsx:170 | doubling quotes never shortens the text |
| `AdminPage.DoubleQuotesOfPlain` | app/admin/page.tsx:170 | text without quotes is unchanged |
| `AdminPage.CellText` | app/admin/page.tsx:168-170 | a list is joined with `"; "`; a falsy value gives ""; anything else its `String` form |
| `AdminPage.Cells` | app/admin/page.tsx:167-171 | one cell per header, in the header order, each that header's value's cell |
| `AdminPage.Lines` | app/admin/page.tsx:167-171 | one line per row, in order, each following the first row's key order |
| `AdminPage.ExportToCsv` | app/admin/page.tsx:161-172 | no export exactly when there is no data |
| `AdminPage.ReadQuoted` | app/admin/page.tsx:170 | reading one quoted field of RFC 4180 (section 2, items 5-7) consumes input |
| `AdminPage.ReadQuotedOfDoubled` | app/admin/page.tsx:170 | a quoted field with its quotes doubled reads back as the original text |
| `AdminPage.QuotedCells` | app/admin/page.tsx:170 | one quoted, quote-doubled cell per text |
| `AdminPage.ReadRecordOfQuoted` | app/admin/page.tsx:170-171 | a line of such cells joined with commas reads back as the texts |
| `AdminPage.Texts` | app/admin/page.tsx:167-170 | the text of each header's value, in header order |
| `AdminPage.LineReadsBack` | app/admin/page.tsx:167-171 | a row's line reads back as its cell texts when no list element holds a quote |
| `AdminPage.HeaderReadsBack` | app/admin/page.tsx:166 | the header line splits back into the keys when no key holds a comma |
| `AdminPage.ExportLines` | app/admin/page.tsx:165-172 | the export splits on LF into the header line followed by one line per row, when no key or line holds a newline |
| `AdminPage.LocationQuery` | app/admin/page.tsx:60-63 | "" exactly for all locations, otherwise `?location=` and the encoded location |
| `AdminPage.LocationQueryReadsBack` | app/admin/page.tsx:60-63 | the query reads back as a single `location` parameter holding the location's name |
| `AdminPage.GeneratedCodeHidesButton` | app/admin/page.tsx:277 | a guest holding a generated code is not offered Generate Code |
| `MultiLocationContent.InitialLocation` | components/MultiLocationContent.tsx:33-42 | the location parameter when it names a location the guest may see, otherwise the first allowed location; always an allowed one when any are allowed |
| `MultiLocationContent.InitialLocationFallsBack` | components/MultiLocationContent.tsx:41 | an unknown or disallowed parameter falls back to the first allowed location |
| `MultiLocationContent.ActiveContent` | components/MultiLocationContent.tsx:59-68 | content is rendered exactly for a known location's name, and it is that location's |
| `MultiLocationContent.UrlParams` | components/MultiLocationContent.tsx:50-56 | the `code` parameter first when a non-empty code is given, and always `location` last with the active location |
| `MultiLocationContent.AddressReadsBack` | components/MultiLocationContent.tsx:50-56 | the address's query reads back as exactly those parameters |
| `LocationNav.OtherLocations` | components/LocationNav.tsx:28-30 | a location is listed exactly when it is allowed and not the current one |
| `LocationNav.OtherLocationsAppend` | components/LocationNav.tsx:28-30 | the filter keeps the original order |
| `LocationNav.OtherLocationsCount` | components/LocationNav.tsx:28-30 | with distinct locations, one fewer than allowed when the current one is allowed, otherwise all |
| `LocationNav.Links` | components/LocationNav.tsx:42-45 | one link per other location, in order, with its address |
| `LocationNav.Nav` | components/LocationNav.tsx:23-34 | links are shown exactly when more than one location is allowed and one of them is not current; never empty and never to the current location |
| `LocationNav.NavLinksEveryOther` | components/LocationNav.tsx:28-45 | every allowed location other than the current one gets its link |
| `LocationNav.HrefIsTabAddress` | components/LocationNav.tsx:43-45 | for plain code and location text, a link's address is the address the tabs write |
| `LocationNav.ValidCodeLinkIsTabAddress` | components/LocationNav.tsx:43-45 | for a well-formed code and a known location, a link's address is the tabs' address |
| `Countdown.CalculateTimeLeft` | components/Countdown.tsx:47-61 | zeros when the difference is not positive; otherwise whole days, hours under 24, minutes and seconds under 60, adding up to the difference less its part of a second |
| `Countdown.Reconstruction` | components/Countdown.tsx:48-55 | the four parts add back up to the difference rounded down to the second |
| `Countdown.DisplayIsUnique` | components/Countdown.tsx:48-55 | any in-range split within a second of the difference is the one computed |
| `Countdown.CountsDown` | components/Countdown.tsx:47-61 | a smaller difference never shows more time left |
| `Strings.UpperTrimTwice` | lib/code-validation.ts:90 | normalising an already normalised code changes nothing |
| `Js.ParseIntOfIntString` | app/api/rsvp/route.ts:51 | `parseInt` of a number's decimal text gives the number |
| `Url.FormEncodeRoundTrip` | components/MultiLocationContent.tsx:51-56 | the form encoding of `URLSearchParams` decodes to the text's UTF-8 |
| `Url.UriEncodeRoundTrip` | app/admin/page.tsx:60-63 | `encodeURIComponent` decodes to the text's UTF-8 |
| `Url.ReadQueryString` | components/MultiLocationContent.tsx:51-56 | a serialised parameter list reads back as the same names and values |
| `Url.QueryStringOfSafePair` | components/MultiLocationContent.tsx:51-56 | two parameters of plain text serialise as `a=b&c=d` |
| `Url.QueryStringOfSafeParam` | components/MultiLocationContent.tsx:51-56 | one parameter of plain text serialises as `a=b` |

## Left out

- The network: `airtableRequest`'s `fetch`, headers and JSON parsing are replaced by the store oracle `Airtable.Base`. The module-load environment check and all logging are left out.
- `nanoid` randomness is replaced by a supplied stream of candidate codes.
- Clocks: `Date.now()` and the date stamps (`toISOString().split("T")[0]`) are parameters. So is Countdown's millisecond difference. The local-midnight `setHours(0,0,0,0)` is not part of this model.
- Concurrency: requests that interleave on the shared rate-limit map are not modelled. Calls are sequential.
- Unicode: `toUpperCase` and `trim` are modelled on ASCII (space, tab, LF, VT, FF, CR). UTF-8 is modelled per code point, with no surrogate pairs.
- JavaScript numbers are integers here. Fractions, NaN and Infinity are left out.
- React state, effects, timers, router navigation, `sessionStorage`, clipboard and `Blob` downloads are left out. The component state that the rules read is modelled as plain fields or parameters.
- The RSVP form's fetch of an existing RSVP (components/RSVPForm.tsx:77-127) and the re-fetch after submitting are left out, apart from the prefill rule `RsvpForm.Prefill`.
- The admin page's login and load functions, and the admin guests and RSVPs routes, are left out. They forward store reads behind the same password check as the generate-code route.
- `getAllGuests`, `getAllRSVPs` and `getRSVPsByLocation` are left out. They are list reads using the same mappers.
- Static pages are left out: the header, hero, gallery, registry, layout, single-location sync and the three location pages.
- The filter formulas and their URL encoding are left out. A lookup is keyed by the normalised code (and location) it asks for.
- `Airtable.MentionsIsIncludes`: the model tests the words that matter through the error kind. It agrees with `includes` on the message only for words holding `_` or `v`, which covers every word the code tests.
- `CodeValidation.ValidateCode`: `cleanupExpiredEntries` reads the clock itself at the start of each check and each charge. The model gives it the same instant as that check or charge, because nothing is awaited between them.
- `ValidateCodeRoute.Post`: the body is taken already parsed as a JSON object. A request body that is not JSON, or is `null`, makes the source throw while parsing or destructuring it, and it then answers 500 with that error's message. This path is not modelled.
- `GenerateCodeRoute.Post`: the body is taken already parsed as a JSON object. A request body that is not JSON, or is `null`, makes the source answer 500 with the parse or destructuring error's message. This path is not modelled.
- `RsvpRoute.Update`: the body is taken already parsed as a JSON object. A request body that is not JSON, or is `null`, makes the source answer 500 with that error's message. This path is not modelled.
- `RsvpRoute.Submit`: the body is taken already parsed as a JSON object. A request body that is not JSON, or is `null`, makes the source answer 500 with that error's message. This path is not modelled.
- `ValidateCodeRoute.Post`: a guest answer is stated only to match the normalised code, not to be the store's exact record. `CodeValidation.ValidateCode` states the full outcome.
- `GenerateCodeRoute.Get`: the stream of draws is not stated, only that the requests are lookups and the result is fresh.
- `AdminPage.LineReadsBack`: read-back needs list elements free of quotes, because such elements are written without doubling.
- `AdminPage.ExportLines`: read-back needs cells free of newlines, because the export does not treat them specially.
- Objects nested inside JSON values have no fields in the model. The code only ever applies `String` or truthiness to them.
- `HomePage.NormalizeCode`: `toUpperCase().trim()` is modelled as trimming the upper-cased text, which is the same on ASCII.

## Findings

| source | as written | input that shows it | evidently intended | confidence | as-written member | corrected member |
|---|---|---|---|---|---|---|
| lib/airtable.ts:283-287 | `createGuestCode` reports a missing guest record only when the error message contains NOT_FOUND. The store client has already reworded a 404 to "Record not found in Airtable…", which does not contain it. | `recordId` of a deleted guest: the PATCH answers 404 and the route returns the generic store message, not "Guest record with ID … not found" | a 404 on the PATCH is reported with the record id | not executed | `Airtable.CreateGuestCodeAsWritten`, `Airtable.MissingGuestRecordNotRecognised` | `Airtable.CreateGuestCode` |
| app/api/rsvp/route.ts:46-59 | the route builds the RSVP without `phone_number`, so the phone number the form sends for Lagos is never stored, although both field maps write it | a Lagos RSVP body with `phone_number: "+234…"`: the PATCH or POST carries no phone number | the body's phone number is stored | not executed | `RsvpRoute.RsvpFromBodyAsWritten`, `RsvpRoute.PhoneNeverStoredAsWritten` | `RsvpRoute.RsvpFromBody`, `RsvpRoute.PhoneStored` |
