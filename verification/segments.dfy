/** The two segment rules of the marketplace. A promo lists segment tags;
    only `new_users` and `frequent_buyers` are recognised, mapping to the user
    types `new` and `frequent`. The reservation check and the notification
    dispatcher apply the mapping differently when neither tag is listed: the
    first rejects everybody, the second builds an empty query that selects
    every user. Both behaviours are kept. */
module Segments {
  import opened Models

  const NewUsersTag: string := "new_users"
  const FrequentBuyersTag: string := "frequent_buyers"

  /** The user types the recognised tags of `segments` point at. */
  function TargetedTypes(segments: seq<string>): set<string> {
    (if NewUsersTag in segments then {NewType} else {})
    + (if FrequentBuyersTag in segments then {FrequentType} else {})
  }

  /** The reservation-time eligibility test. */
  function IsUserEligible(segments: seq<string>, userType: string): (eligible: bool)
    ensures eligible <==> userType in TargetedTypes(segments)
  {
    if NewUsersTag in segments && userType == NewType then true
    else if FrequentBuyersTag in segments && userType == FrequentType then true
    else false
  }

  // ---------------------------------------------------------------------
  // The dispatcher's query object

  /** A user filter as the dispatcher assembles it: `MatchAll` is the empty
      query (no condition), `TypeIs` an equality on the user type, `AnyOf`
      a disjunction. */
  datatype Query = MatchAll | TypeIs(userType: string) | AnyOf(left: Query, right: Query)

  /** Disjunction of query objects; an empty operand yields the other one
      unchanged, as combining with an empty query does. */
  function Or(a: Query, b: Query): Query {
    if a == MatchAll then b else if b == MatchAll then a else AnyOf(a, b)
  }

  /** Whether a user of the given type passes the filter. */
  function Matches(q: Query, userType: string): bool {
    match q
    case MatchAll => true
    case TypeIs(t) => userType == t
    case AnyOf(l, r) => Matches(l, userType) || Matches(r, userType)
  }

  /** The dispatcher's filter: start from the empty query and add one
      disjunct per recognised tag. The result selects exactly the targeted
      types, or everybody when no tag is recognised. */
  function SegmentQuery(segments: seq<string>): (q: Query)
    ensures forall t :: Matches(q, t) <==>
      (TargetedTypes(segments) == {} || t in TargetedTypes(segments))
  {
    var q0 := MatchAll;
    var q1 := if NewUsersTag in segments then Or(q0, TypeIs(NewType)) else q0;
    var q2 := if FrequentBuyersTag in segments then Or(q1, TypeIs(FrequentType)) else q1;
    q2
  }

  /** When a recognised tag is listed, both rules agree. */
  lemma RulesAgreeOnRecognisedTags(segments: seq<string>, userType: string)
    requires NewUsersTag in segments || FrequentBuyersTag in segments
    ensures Matches(SegmentQuery(segments), userType) <==> IsUserEligible(segments, userType)
  {
    assert TargetedTypes(segments) != {} by {
      if NewUsersTag in segments {
        assert NewType in TargetedTypes(segments);
      } else {
        assert FrequentType in TargetedTypes(segments);
      }
    }
  }

  /** When no recognised tag is listed the rules diverge: the dispatcher
      selects every user while the reservation check admits nobody. */
  lemma RulesDivergeWithoutRecognisedTags(segments: seq<string>, userType: string)
    requires NewUsersTag !in segments && FrequentBuyersTag !in segments
    ensures Matches(SegmentQuery(segments), userType)
    ensures !IsUserEligible(segments, userType)
  {
  }

  /** A `regular` user is never eligible to reserve, and is selected by the
      dispatcher only through the empty query. */
  lemma RegularNeverTargeted(segments: seq<string>)
    ensures !IsUserEligible(segments, RegularType)
    ensures Matches(SegmentQuery(segments), RegularType) <==>
      (NewUsersTag !in segments && FrequentBuyersTag !in segments)
  {
  }
}
