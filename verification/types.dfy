/**
 The record types shared by every page (src/types/index.ts), with the three
 closed enumerations `user_type`, `compensation_type` and `status` as datatypes.

 In the source the enumerations are string-literal unions; here each one is a
 datatype together with its wire spelling and a parser for it, so that "the
 field is exactly one of these strings" becomes a round-trip property.
 */
module Types {

  /** An optional value: an absent TypeScript property, `null` or `undefined`. */
  datatype Option<+T> = None | Some(value: T)

  /** `user_type: 'founder' | 'developer'` */
  datatype UserType = Founder | Developer

  /** `compensation_type: 'equity' | 'monetary' | 'both'` */
  datatype CompensationType = Equity | Monetary | Both

  /** `status: 'pending' | 'approved' | 'rejected'` */
  datatype Status = Pending | Approved | Rejected

  /**
   An amount the source obtains with `parseFloat` (an equity percentage or a
   monthly sum). Floating point is not modelled: the amount is identified by
   the non-empty text it was parsed from.
   */
  datatype Amount = Amount(text: string)

  /** A row of the `users` table. */
  datatype User = User(
    id: string,
    email: string,
    full_name: string,
    user_type: UserType,
    background: Option<string>,
    expertise: Option<string>,
    github_username: Option<string>,
    linkedin_url: Option<string>,
    whatsapp_number: Option<string>,
    created_at: string)

  /** `user?.user_type === 'founder'`: a signed-in founder. */
  predicate IsFounder(user: Option<User>)
  {
    user.Some? && user.value.user_type == Founder
  }

  /** A row of the `startup_ideas` table. */
  datatype StartupIdea = StartupIdea(
    id: string,
    founder_id: string,
    title: string,
    description: string,
    required_skills: seq<string>,
    compensation_type: CompensationType,
    equity_percentage: Option<Amount>,
    monetary_compensation: Option<Amount>,
    terms_and_conditions: Option<string>,
    has_nda: bool,
    created_at: string)

  /** A row of the `applications` table. */
  datatype Application = Application(
    id: string,
    idea_id: string,
    developer_id: string,
    note: Option<string>,
    status: Status,
    created_at: string)

  // ---------------------------------------------------------------------
  // Wire spellings of the enumerations and their parsers
  // ---------------------------------------------------------------------

  function UserTypeText(t: UserType): string
  {
    match t
    case Founder => "founder"
    case Developer => "developer"
  }

  /** Reads a `user_type` string; anything outside the union is rejected. */
  function ParseUserType(s: string): (r: Option<UserType>)
    ensures r.Some? <==> s == "founder" || s == "developer"
    ensures r.Some? ==> UserTypeText(r.value) == s
  {
    if s == "founder" then Some(Founder)
    else if s == "developer" then Some(Developer)
    else None
  }

  function CompensationTypeText(c: CompensationType): string
  {
    match c
    case Equity => "equity"
    case Monetary => "monetary"
    case Both => "both"
  }

  /** Reads a `compensation_type` string; anything outside the union is rejected. */
  function ParseCompensationType(s: string): (r: Option<CompensationType>)
    ensures r.Some? <==> s == "equity" || s == "monetary" || s == "both"
    ensures r.Some? ==> CompensationTypeText(r.value) == s
  {
    if s == "equity" then Some(Equity)
    else if s == "monetary" then Some(Monetary)
    else if s == "both" then Some(Both)
    else None
  }

  function StatusText(s: Status): string
  {
    match s
    case Pending => "pending"
    case Approved => "approved"
    case Rejected => "rejected"
  }

  /** Reads a `status` string; anything outside the union is rejected. */
  function ParseStatus(s: string): (r: Option<Status>)
    ensures r.Some? <==> s == "pending" || s == "approved" || s == "rejected"
    ensures r.Some? ==> StatusText(r.value) == s
  {
    if s == "pending" then Some(Pending)
    else if s == "approved" then Some(Approved)
    else if s == "rejected" then Some(Rejected)
    else None
  }

  /** Every user type has exactly one spelling, and the parser reads it back. */
  lemma UserTypeRoundTrip(t: UserType)
    ensures ParseUserType(UserTypeText(t)) == Some(t)
    ensures forall u: UserType :: UserTypeText(u) == UserTypeText(t) ==> u == t
  {
  }

  /** Every compensation type has exactly one spelling, and the parser reads it back. */
  lemma CompensationTypeRoundTrip(c: CompensationType)
    ensures ParseCompensationType(CompensationTypeText(c)) == Some(c)
    ensures forall d: CompensationType :: CompensationTypeText(d) == CompensationTypeText(c) ==> d == c
  {
  }

  /** Every status has exactly one spelling, and the parser reads it back. */
  lemma StatusRoundTrip(s: Status)
    ensures ParseStatus(StatusText(s)) == Some(s)
    ensures forall t: Status :: StatusText(t) == StatusText(s) ==> t == s
  {
  }
}
