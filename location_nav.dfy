/** The "Other Locations" links, components/LocationNav.tsx: which
    locations are linked and the address of each link. */
module LocationNav {
  import opened Optional
  import opened Url
  import opened Strings
  import opened Types
  import MultiLocationContent
  import CodeValidation

  /** `allowedLocations.filter(loc => loc !== currentLocation)` */
  function OtherLocations(allowed: seq<string>, current: string): (others: seq<string>)
    ensures |others| <= |allowed|
    ensures forall loc :: loc in others <==> loc in allowed && loc != current
  {
    if allowed == [] then []
    else (if allowed[0] != current then [allowed[0]] else []) + OtherLocations(allowed[1..], current)
  }

  /** The filter keeps the allowed list's order: filtering a concatenation
      concatenates the filtered pieces. */
  lemma {:induction false} OtherLocationsAppend(a: seq<string>, b: seq<string>, current: string)
    ensures OtherLocations(a + b, current) == OtherLocations(a, current) + OtherLocations(b, current)
    decreases |a|
  {
    if a != [] {
      assert (a + b)[0] == a[0] && (a + b)[1..] == a[1..] + b;
      OtherLocationsAppend(a[1..], b, current);
    } else {
      assert a + b == b;
    }
  }

  /** Without repeats in the allowed list, exactly the current location is
      dropped: one fewer link when it is allowed, none fewer otherwise. */
  lemma {:induction false} OtherLocationsCount(allowed: seq<string>, current: string)
    requires forall i, j :: 0 <= i < j < |allowed| ==> allowed[i] != allowed[j]
    ensures |OtherLocations(allowed, current)| == if current in allowed then |allowed| - 1 else |allowed|
  {
    if allowed != [] {
      OtherLocationsCount(allowed[1..], current);
      assert current in allowed[1..] ==> allowed[0] != current by {
        if current in allowed[1..] {
          var k :| 0 <= k < |allowed[1..]| && allowed[1..][k] == current;
          assert allowed[k + 1] == current;
        }
      }
      assert current in allowed <==> allowed[0] == current || current in allowed[1..] by {
        assert allowed == [allowed[0]] + allowed[1..];
      }
    }
  }

  /** The `href` of the link to `location`: the code comes along when it is
      truthy. Neither part is encoded. */
  function Href(code: Option<string>, location: string): string {
    if code.Some? && code.value != "" then "/?" + "code" + "=" + code.value + "&" + "location" + "=" + location
    else "/?" + "location" + "=" + location
  }

  /** A link as rendered: its target location and its address. */
  datatype Link = Link(location: string, href: string)

  /** The links, one per other location, in order. */
  function Links(others: seq<string>, code: Option<string>): (links: seq<Link>)
    ensures |links| == |others|
    ensures forall i :: 0 <= i < |others| ==> links[i] == Link(others[i], Href(code, others[i]))
    ensures forall link :: link in links ==> link.location in others
  {
    seq(|others|, i requires 0 <= i < |others| => Link(others[i], Href(code, others[i])))
  }

  /** What the component renders: nothing (`None`) for at most one allowed
      location or when no other location is left, else the links. */
  function Nav(current: string, allowed: seq<string>, code: Option<string>): (shown: Option<seq<Link>>)
    ensures shown.Some? <==> |allowed| > 1 && exists loc :: loc in allowed && loc != current
    ensures shown.Some? ==> shown.value != [] && forall link :: link in shown.value ==> link.location != current
  {
    if |allowed| <= 1 then None
    else
      var others := OtherLocations(allowed, current);
      if others == [] then None
      else
        assert others[0] in others;
        Some(Links(others, code))
  }

  /** The link to every allowed location other than the current one is
      there. */
  lemma NavLinksEveryOther(current: string, allowed: seq<string>, code: Option<string>, location: string)
    requires |allowed| > 1 && location in allowed && location != current
    ensures Nav(current, allowed, code).Some?
    ensures Link(location, Href(code, location)) in Nav(current, allowed, code).value
  {
    var others := OtherLocations(allowed, current);
    var i :| 0 <= i < |others| && others[i] == location;
    assert Nav(current, allowed, code).value[i] == Link(location, Href(code, location));
  }

  lemma RegroupParam(s1: string, s2: string, s3: string, s4: string)
    ensures s1 + s2 + s3 + s4 == s1 + (s2 + s3 + s4)
  {
  }

  lemma Regroup(s1: string, s2: string, s3: string, s4: string, s5: string, s6: string, s7: string, s8: string)
    ensures s1 + s2 + s3 + s4 + s5 + s6 + s7 + s8 == s1 + (s2 + s3 + s4 + s5 + s6 + s7 + s8)
  {
  }

  lemma ParameterNamesAreSafe()
    ensures AllFormSafe("code") && AllFormSafe("location")
  {
  }

  /** For a code and a location made of characters that need no encoding
      (every generated code and every location name), the link's address is
      the one the tabbed view puts in the address bar for that location. */
  lemma HrefIsTabAddress(code: Option<string>, location: string)
    requires code.Some? ==> AllFormSafe(code.value)
    requires AllFormSafe(location)
    ensures Href(code, location) == MultiLocationContent.Address(code, location)
  {
    ParameterNamesAreSafe();
    var params := MultiLocationContent.UrlParams(code, location);
    if code.Some? && code.value != "" {
      assert params == [Param("code", code.value), Param("location", location)];
      QueryStringOfSafePair("code", code.value, "location", location);
      Regroup("/?", "code", "=", code.value, "&", "location", "=", location);
    } else {
      assert params == [Param("location", location)];
      QueryStringOfSafeParam("location", location);
      RegroupParam("/?", "location", "=", location);
    }
  }

  /** On an invitation page, where the code has the invite-code format and
      the locations are location names, following a link lands on the same
      address as choosing that location's tab. */
  lemma ValidCodeLinkIsTabAddress(code: string, location: Location)
    requires CodeValidation.IsValidFormat(code)
    ensures Href(Some(code), location.Name()) == MultiLocationContent.Address(Some(code), location.Name())
  {
    assert AllFormSafe(code) by {
      forall i | 0 <= i < |code| ensures FormSafe(code[i]) {
        assert CodeValidation.IsFormatChar(code[i]);
      }
    }
    assert AllFormSafe(location.Name()) by {
      match location
      case Lagos =>
      case London =>
      case Portugal =>
    }
    HrefIsTabAddress(Some(code), location.Name());
  }
}
