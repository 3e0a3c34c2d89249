/** The tabbed view for guests invited to several locations,
    components/MultiLocationContent.tsx: which location it opens on, whether
    the tabs show, and the query the address bar is given for the active
    location. */
module MultiLocationContent {
  import opened Optional
  import opened Types
  import opened Url

  /** `getInitialLocation`: the requested location when it is a location
      name the guest may see, else the first allowed one (none when the list
      is empty). */
  function InitialLocation(allowed: seq<string>, initial: Option<string>): (chosen: Option<string>)
    ensures chosen.Some? ==> chosen.value in allowed
    ensures allowed != [] ==> chosen.Some?
    ensures initial.Some? && initial.value != "" && IsLocationName(initial.value) && initial.value in allowed
      ==> chosen == initial
  {
    if initial.Some? && initial.value != "" && IsLocationName(initial.value) && initial.value in allowed then initial
    else if allowed == [] then None
    else Some(allowed[0])
  }

  /** Any other request, or none, opens the first allowed location. */
  lemma InitialLocationFallsBack(allowed: seq<string>, initial: Option<string>)
    requires allowed != []
    requires initial.None? || !IsLocationName(initial.value) || initial.value !in allowed
    ensures InitialLocation(allowed, initial) == Some(allowed[0])
  {
  }

  /** The tab bar is rendered only for more than one location. */
  predicate TabsShown(allowed: seq<string>) {
    |allowed| > 1
  }

  /** The content rendered for the active location: that location's page,
      or nothing for a string that is not a location name. */
  function ActiveContent(active: string): (shown: Option<Location>)
    ensures shown.Some? <==> IsLocationName(active)
    ensures shown.Some? ==> shown.value.Name() == active
  {
    if active == "Lagos" then Some(Lagos)
    else if active == "London" then Some(London)
    else if active == "Portugal" then Some(Portugal)
    else None
  }

  /** The parameters the effect puts in the address bar: the current `code`
      when it is non-empty, then the active location. */
  function UrlParams(code: Option<string>, active: string): (params: seq<Param>)
    ensures 1 <= |params| <= 2
    ensures params[|params| - 1] == Param("location", active)
    ensures |params| == 2 <==> code.Some? && code.value != ""
    ensures |params| == 2 ==> params[0] == Param("code", code.value)
  {
    (if code.Some? && code.value != "" then [Param("code", code.value)] else []) + [Param("location", active)]
  }

  /** The address `router.replace` is given. */
  function Address(code: Option<string>, active: string): string {
    "/?" + QueryString(UrlParams(code, active))
  }

  /** The address's query reads back as exactly those parameters, byte for
      byte. */
  lemma AddressReadsBack(code: Option<string>, active: string)
    ensures ReadQuery(QueryString(UrlParams(code, active))) == Raw(UrlParams(code, active))
  {
    ReadQueryString(UrlParams(code, active));
  }
}
