/** The invitation page, app/page.tsx: how the `code` query parameter is
    normalised and checked before the guest is looked up, which content is
    rendered for the result, and when the code-entry section and its
    "Invalid code" message show. */
module HomePage {
  import opened Optional
  import opened Strings
  import opened Types
  import opened Airtable
  import CodeValidation
  import MultiLocationContent

  /** The content `ContentRenderer` returns. */
  datatype Content =
    | LagosSimple
    | LagosFor(code: string, guest: Guest)
    | LondonFor(code: string, guest: Guest)
    | PortugalFor(code: string, guest: Guest)
    | Multi(allowed: seq<string>, code: string, guest: Guest, initial: Option<string>)

  /** `!code || !guest`: no invitation to show. */
  predicate Uninvited(code: Option<string>, guest: Option<Guest>) {
    code.None? || code.value == "" || guest.None?
  }

  /** `ContentRenderer`: the simple Lagos page without an invitation; the
      tabbed view for several allowed locations; else the page of the first
      allowed location, where Lagos, any other value and an empty list all
      give Lagos. */
  function Render(code: Option<string>, locationParam: Option<string>, guest: Option<Guest>): (content: Content)
    ensures content.LagosSimple? <==> Uninvited(code, guest)
    ensures content.Multi? <==> !Uninvited(code, guest) && |guest.value.allowedLocations| > 1
    ensures content.LondonFor? <==> !Uninvited(code, guest) && guest.value.allowedLocations == ["London"]
    ensures content.PortugalFor? <==> !Uninvited(code, guest) && guest.value.allowedLocations == ["Portugal"]
    ensures !content.LagosSimple? ==> content.code == code.value && content.guest == guest.value
    ensures content.Multi? ==> content.allowed == guest.value.allowedLocations && content.initial == locationParam
  {
    if Uninvited(code, guest) then LagosSimple
    else
      var allowed := guest.value.allowedLocations;
      if |allowed| > 1 then Multi(allowed, code.value, guest.value, locationParam)
      else if allowed == ["London"] then LondonFor(code.value, guest.value)
      else if allowed == ["Portugal"] then PortugalFor(code.value, guest.value)
      else LagosFor(code.value, guest.value)
  }

  /** A guest with a single location sees that location's page, and one
      with no location, or one that is not a location name, sees Lagos. */
  lemma SingleLocationPage(code: string, locationParam: Option<string>, guest: Guest)
    requires code != "" && |guest.allowedLocations| <= 1
    ensures guest.allowedLocations == ["Lagos"] ==> Render(Some(code), locationParam, Some(guest)) == LagosFor(code, guest)
    ensures guest.allowedLocations == [] ==> Render(Some(code), locationParam, Some(guest)) == LagosFor(code, guest)
    ensures guest.allowedLocations != [] && !IsLocationName(guest.allowedLocations[0]) ==>
      Render(Some(code), locationParam, Some(guest)) == LagosFor(code, guest)
  {
  }

  /** The tabbed view opens on the `location` parameter when it names an
      allowed location, and on one of the guest's locations in any case. */
  lemma MultiOpensOnAllowedLocation(code: Option<string>, locationParam: Option<string>, guest: Option<Guest>)
    requires Render(code, locationParam, guest).Multi?
    ensures var c := Render(code, locationParam, guest);
      var tab := MultiLocationContent.InitialLocation(c.allowed, c.initial);
      && tab.Some? && tab.value in guest.value.allowedLocations
      && (locationParam.Some? && IsLocationName(locationParam.value) && locationParam.value in guest.value.allowedLocations
          ==> tab == locationParam)
  {
    var c := Render(code, locationParam, guest);
    if locationParam.Some? && IsLocationName(locationParam.value) {
      assert locationParam.value != "";
    }
  }

  /** The code-entry section: shown when a `code` parameter was given and
      either it is empty or no guest was found. */
  predicate CodeSectionShown(code: Option<string>, guest: Option<Guest>) {
    code.Some? && (code.value == "" || guest.None?)
  }

  /** The "Invalid code" message inside that section. */
  predicate InvalidMessageShown(code: Option<string>, guest: Option<Guest>) {
    CodeSectionShown(code, guest) && code.value != "" && guest.None?
  }

  /** With a `code` parameter present, the entry section shows exactly when
      the simple Lagos page is rendered; and the message shows exactly when
      a non-empty code found no guest. */
  lemma CodeSectionIffSimplePage(code: Option<string>, locationParam: Option<string>, guest: Option<Guest>)
    requires code.Some?
    ensures CodeSectionShown(code, guest) <==> Render(code, locationParam, guest) == LagosSimple
    ensures InvalidMessageShown(code, guest) <==> code.value != "" && guest.None?
  {
  }

  /** `params.code?.toUpperCase().trim()` */
  function NormalizeCode(param: Option<string>): (code: Option<string>)
    ensures code.Some? <==> param.Some?
    ensures code.Some? ==> IsUpper(code.value) && IsTrimmed(code.value)
  {
    if param.Some? then Some(UpperTrim(param.value)) else None
  }

  /** `getGuest`: normalise again, and look the guest up only for a code of
      the invite-code format. */
  method GetGuest(base: Base, code: string) returns (guest: Option<Guest>)
    modifies base
    ensures CodeValidation.IsValidFormat(UpperTrim(code)) ==>
      base.log == old(base.log) + [FindGuests(UpperTrim(code))]
      && guest == GuestFromReply(UpperTrim(code), base.guestsWithCode(UpperTrim(code)))
    ensures !CodeValidation.IsValidFormat(UpperTrim(code)) ==> base.log == old(base.log) && guest == None
  {
    var normalized := UpperTrim(code);
    if !CodeValidation.IsValidFormat(normalized) {
      return None;
    }
    guest := FetchGuestByCode(base, normalized);
    UpperTrimTwice(code);
  }

  /** What the page shows. */
  datatype Page = Page(section: bool, invalidMessage: bool, content: Content)

  /** `Home`: the store is asked about the code at most once, and only
      when the normalised code has the invite-code format; the page follows
      from what it answers. */
  method Home(base: Base, codeParam: Option<string>, locationParam: Option<string>)
    returns (page: Page, guest: Option<Guest>)
    modifies base
    ensures var code := NormalizeCode(codeParam);
      && (code.Some? && CodeValidation.IsValidFormat(code.value) ==>
            base.log == old(base.log) + [FindGuests(code.value)]
            && guest == GuestFromReply(code.value, base.guestsWithCode(code.value)))
      && (!(code.Some? && CodeValidation.IsValidFormat(code.value)) ==> base.log == old(base.log) && guest == None)
      && page == Page(CodeSectionShown(code, guest), InvalidMessageShown(code, guest), Render(code, locationParam, guest))
  {
    var code := NormalizeCode(codeParam);
    guest := None;
    if code.Some? && code.value != "" && CodeValidation.IsValidFormat(code.value) {
      guest := GetGuest(base, code.value);
      UpperTrimTwice(codeParam.value);
    }
    page := Page(CodeSectionShown(code, guest), InvalidMessageShown(code, guest), Render(code, locationParam, guest));
  }

  /** An invitation is only ever shown to the guest whose own invite code,
      upper-cased, is the normalised `code` parameter. */
  lemma InvitationBelongsToGuest(base: Base, codeParam: Option<string>, locationParam: Option<string>, guest: Option<Guest>)
    requires var code := NormalizeCode(codeParam);
      code.Some? && CodeValidation.IsValidFormat(code.value)
      && guest == GuestFromReply(code.value, base.guestsWithCode(code.value))
    ensures var content := Render(NormalizeCode(codeParam), locationParam, guest);
      !content.LagosSimple? ==> Upper(content.guest.inviteCode) == content.code == UpperTrim(codeParam.value)
  {
  }
}
