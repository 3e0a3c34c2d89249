/** The invite-code entry form, components/CodeInput.tsx: the keystroke
    sanitiser, the submit and hint rules, and what a submission does with
    the validation endpoint's reply. The request itself is a parameter. */
module CodeInput {
  import opened Optional
  import opened Strings
  import opened Js
  import CodeValidation

  /** The input's `maxLength` and the `.slice(0, 8)` bound. */
  const MAX_LENGTH := 8

  /** `.replace(/[^A-Z2-9]/g, "")`: the characters of `s` that the code
      format allows, in order. */
  function KeepFormatChars(s: string): (r: string)
    ensures |r| <= |s|
    ensures forall i :: 0 <= i < |r| ==> CodeValidation.IsFormatChar(r[i])
  {
    if s == [] then []
    else (if CodeValidation.IsFormatChar(s[0]) then [s[0]] else []) + KeepFormatChars(s[1..])
  }

  /** The filter works piece by piece: filtering a concatenation
      concatenates the filtered pieces. */
  lemma {:induction false} KeepFormatCharsAppend(a: string, b: string)
    ensures KeepFormatChars(a + b) == KeepFormatChars(a) + KeepFormatChars(b)
    decreases |a|
  {
    if a != [] {
      var head := if CodeValidation.IsFormatChar(a[0]) then [a[0]] else [];
      assert (a + b)[0] == a[0] && (a + b)[1..] == a[1..] + b;
      KeepFormatCharsAppend(a[1..], b);
      assert KeepFormatChars(a + b) == head + (KeepFormatChars(a[1..]) + KeepFormatChars(b));
    } else {
      assert a + b == b;
    }
  }

  /** A string made only of allowed characters passes the filter whole. */
  lemma {:induction false} KeepFormatCharsOfFormat(s: string)
    requires forall i :: 0 <= i < |s| ==> CodeValidation.IsFormatChar(s[i])
    ensures KeepFormatChars(s) == s
    decreases |s|
  {
    if s != [] {
      KeepFormatCharsOfFormat(s[1..]);
    }
  }

  /** The `onChange` handler's value: upper-cased, filtered, cut to eight. */
  function Sanitize(input: string): (code: string)
    ensures |code| <= MAX_LENGTH
    ensures forall i :: 0 <= i < |code| ==> CodeValidation.IsFormatChar(code[i])
  {
    var kept := KeepFormatChars(Upper(input));
    if |kept| <= MAX_LENGTH then kept else kept[..MAX_LENGTH]
  }

  /** Allowed characters are their own upper case. */
  lemma FormatIsUpper(s: string)
    requires forall i :: 0 <= i < |s| ==> CodeValidation.IsFormatChar(s[i])
    ensures Upper(s) == s
  {
    forall i | 0 <= i < |s| ensures UpperChar(s[i]) == s[i] {
      assert CodeValidation.IsFormatChar(s[i]);
    }
  }

  /** Sanitising what the field already shows changes nothing. */
  lemma SanitizeIdempotent(input: string)
    ensures Sanitize(Sanitize(input)) == Sanitize(input)
  {
    var code := Sanitize(input);
    FormatIsUpper(code);
    KeepFormatCharsOfFormat(code);
  }

  /** A well-formed code, typed or pasted, is shown exactly as it is. */
  lemma SanitizeOfValidCode(code: string)
    requires CodeValidation.IsValidFormat(code)
    ensures Sanitize(code) == code
  {
    FormatIsUpper(code);
    KeepFormatCharsOfFormat(code);
  }

  /** Typing one more character into a field holding fewer than eight
      appends that character upper-cased when the format allows it, and
      otherwise leaves the field as it was. */
  lemma SanitizeTyped(shown: string, typed: char)
    requires |shown| < MAX_LENGTH
    requires forall i :: 0 <= i < |shown| ==> CodeValidation.IsFormatChar(shown[i])
    ensures CodeValidation.IsFormatChar(UpperChar(typed)) ==> Sanitize(shown + [typed]) == shown + [UpperChar(typed)]
    ensures !CodeValidation.IsFormatChar(UpperChar(typed)) ==> Sanitize(shown + [typed]) == shown
  {
    FormatIsUpper(shown);
    assert Upper(shown + [typed]) == shown + [UpperChar(typed)];
    KeepFormatCharsAppend(shown, [UpperChar(typed)]);
    KeepFormatCharsOfFormat(shown);
    assert KeepFormatChars([UpperChar(typed)])
      == (if CodeValidation.IsFormatChar(UpperChar(typed)) then [UpperChar(typed)] else []) + KeepFormatChars([]);
  }

  /** The button's `disabled` attribute. */
  predicate SubmitDisabled(loading: bool, code: string) {
    loading || |code| != MAX_LENGTH
  }

  /** The "Code must be 8 characters (n/8)" hint. */
  predicate LengthHintShown(error: Json, code: string) {
    !Truthy(error) && 0 < |code| < MAX_LENGTH
  }

  /** While the hint is up, the form cannot be submitted. */
  lemma HintMeansDisabled(error: Json, loading: bool, code: string)
    requires LengthHintShown(error, code)
    ensures SubmitDisabled(loading, code)
  {
  }

  /** When the button is enabled, the field holds a code that the server's
      normalisation leaves as it is and whose format it accepts. */
  lemma EnabledSubmitIsWellFormed(input: string)
    requires !SubmitDisabled(false, Sanitize(input))
    ensures UpperTrim(Sanitize(input)) == Sanitize(input)
    ensures CodeValidation.IsValidFormat(Sanitize(input))
  {
    var code := Sanitize(input);
    FormatIsUpper(code);
    assert !IsSpace(code[0]) && !IsSpace(code[|code| - 1]) by {
      assert CodeValidation.IsFormatChar(code[0]) && CodeValidation.IsFormatChar(code[|code| - 1]);
    }
    TrimmedIsFixed(code);
  }

  /** What `fetch("/api/validate-code")` delivers: a status with a body
      that parsed (`Some`) or did not, or a network failure. */
  datatype Reply = Reply(status: int, body: Option<map<string, Json>>) | NetworkFailure

  /** `response.ok` */
  predicate IsOk(status: int) {
    200 <= status <= 299
  }

  /** Where a submission ends: a navigation, or an error shown on the form. */
  datatype Submission = Navigate(url: string) | ShowError(message: Json)

  const TOO_MANY_ATTEMPTS := "Too many attempts. Please try again later."
  const INVALID_CODE := "Invalid code. Please check and try again."
  const INVALID_RESPONSE := "Invalid response from server. Please try again."
  const SOMETHING_WRONG := "Something went wrong. Please try again."

  /** `errorData.error || fallback`, where an unparsable body reads as `{}`. */
  function ErrorOr(body: Option<map<string, Json>>, fallback: string): Json {
    Or(if body.Some? then Get(body.value, "error") else Undefined, Str(fallback))
  }

  /** The outcome of `handleSubmit` for the submitted `normalized` code. */
  function Outcome(reply: Reply, normalized: string): (s: Submission)
    ensures s.ShowError? ==> Truthy(s.message)
    ensures s.Navigate? <==> reply.Reply? && IsOk(reply.status) && reply.body.Some? && Truthy(Get(reply.body.value, "guest"))
  {
    match reply
    case NetworkFailure => ShowError(Str(SOMETHING_WRONG))
    case Reply(status, body) =>
      if status == 429 then ShowError(ErrorOr(body, TOO_MANY_ATTEMPTS))
      else if !IsOk(status) then ShowError(ErrorOr(body, INVALID_CODE))
      else if body.None? then ShowError(Str(SOMETHING_WRONG))
      else if Truthy(Get(body.value, "guest")) then Navigate("/?code=" + normalized)
      else ShowError(Str(INVALID_RESPONSE))
  }

  /** A rejected code shows the server's message when it sent one, and the
      status's own fallback otherwise. */
  lemma RejectionMessages(status: int, body: map<string, Json>)
    requires !IsOk(status)
    ensures Truthy(Get(body, "error")) ==> Outcome(Reply(status, Some(body)), "") == ShowError(body["error"])
    ensures !Truthy(Get(body, "error")) && status == 429 ==> Outcome(Reply(status, Some(body)), "") == ShowError(Str(TOO_MANY_ATTEMPTS))
    ensures !Truthy(Get(body, "error")) && status != 429 ==> Outcome(Reply(status, Some(body)), "") == ShowError(Str(INVALID_CODE))
  {
  }

  /** The form's state. */
  class CodeForm {
    var code: string
    var error: Json
    var loading: bool

    constructor()
      ensures code == "" && error == Str("") && !loading
    {
      code, error, loading := "", Str(""), false;
    }

    /** `onChange` */
    method Change(input: string)
      modifies this
      ensures code == Sanitize(input) && error == Str("") && loading == old(loading)
    {
      code := Sanitize(input);
      error := Str("");
    }

    /** `handleSubmit`, with the reply to its request as a parameter. The
        form stays busy when it navigates away; otherwise it shows the
        outcome's message and becomes ready again. */
    method Submit(reply: Reply) returns (navigation: Option<string>)
      modifies this
      ensures code == old(code)
      ensures Outcome(reply, UpperTrim(old(code))).Navigate? ==>
        navigation == Some(Outcome(reply, UpperTrim(old(code))).url) && loading && error == Str("")
      ensures Outcome(reply, UpperTrim(old(code))).ShowError? ==>
        navigation == None && !loading && error == Outcome(reply, UpperTrim(old(code))).message
    {
      error := Str("");
      loading := true;
      var normalized := UpperTrim(code);
      navigation := None;
      if reply.NetworkFailure? {
        error := Str(SOMETHING_WRONG);
        loading := false;
        return;
      }
      if reply.status == 429 {
        error := ErrorOr(reply.body, TOO_MANY_ATTEMPTS);
        loading := false;
        return;
      }
      if !IsOk(reply.status) {
        error := ErrorOr(reply.body, INVALID_CODE);
        loading := false;
        return;
      }
      if reply.body.None? {
        error := Str(SOMETHING_WRONG);
        loading := false;
        return;
      }
      if Truthy(Get(reply.body.value, "guest")) {
        navigation := Some("/?code=" + normalized);
      } else {
        error := Str(INVALID_RESPONSE);
        loading := false;
      }
    }
  }

  /** A submission from an enabled form that the server accepts navigates
      to the invitation page for exactly the code the field shows. */
  lemma AcceptedCodeNavigates(input: string, body: map<string, Json>, status: int)
    requires !SubmitDisabled(false, Sanitize(input))
    requires IsOk(status) && Truthy(Get(body, "guest"))
    ensures Outcome(Reply(status, Some(body)), UpperTrim(Sanitize(input))) == Navigate("/?code=" + Sanitize(input))
  {
    EnabledSubmitIsWellFormed(input);
  }
}
