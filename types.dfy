/** The entities of types/rsvp.ts. */
module Types {
  import opened Optional
  import opened Js

  /** The three event locations. */
  datatype Location = Lagos | London | Portugal {
    function Name(): string {
      match this
      case Lagos => "Lagos"
      case London => "London"
      case Portugal => "Portugal"
    }
  }

  /** `["Lagos", "London", "Portugal"].includes(s)` */
  predicate IsLocationName(s: string) {
    s == "Lagos" || s == "London" || s == "Portugal"
  }

  /** A guest as the record mappers build it. The allowed locations are the
      strings the store holds: the mappers cast them to `Location[]` without
      checking them. `allowed_plus_ones*` hold only positive numbers. */
  datatype Guest = Guest(
    id: string,
    inviteCode: string,
    name: string,
    email: Option<string>,
    allowedLocations: seq<string>,
    codeGeneratedAt: Option<string>,
    allowedPlusOnes: Option<int>,
    allowedPlusOnesLagos: Option<int>,
    allowedPlusOnesLondon: Option<int>,
    allowedPlusOnesPortugal: Option<int>)

  /** An RSVP. The route handlers copy most fields straight from the request
      body, so those are kept as the JSON values they are; the plus-one names
      are the one field whose shape the code depends on. */
  datatype Rsvp = Rsvp(
    id: Json,
    inviteCode: Json,
    location: Json,
    name: Json,
    phoneNumber: Json,
    guests: Json,
    attending: Json,
    dietaryRestrictions: Json,
    visaRequired: Json,
    accommodationNeeded: Json,
    submittedAt: Json,
    plusOneNames: Option<seq<string>>)
}
