/** The records the store keeps, what callers pass to create them (`Insert*`) and the partial
    payloads of the update operations (`Partial<Insert*>`). A field that a payload leaves out is
    `None`; a nullable field that a payload sets is `Some(None)` (null) or `Some(Some(v))`.
    Dates are instants on an abstract clock (`int`); money is a whole number of currency units. */
module Schema {
  import opened Wrappers

  datatype Position = Position(
    id: int, title: string, company: string, location: string, description: string,
    salaryMin: int, salaryMax: int,
    status: string,     // "Open" or "Closed"
    dateAdded: int)

  datatype PositionInput = PositionInput(
    title: string, company: string, location: string, description: string,
    salaryMin: int, salaryMax: int, status: string, dateAdded: Option<int>)

  datatype PositionPatch = PositionPatch(
    title: Option<string>, company: Option<string>, location: Option<string>,
    description: Option<string>, salaryMin: Option<int>, salaryMax: Option<int>,
    status: Option<string>, dateAdded: Option<int>)

  datatype Candidate = Candidate(
    id: int, fullName: string, email: string, phone: string, currentRole: string,
    skills: string,     // comma-separated tags
    experience: int, salaryExpectation: Option<int>, notes: Option<string>,
    availability: string,
    status: string)     // "Looking" or "Placed"

  datatype CandidateInput = CandidateInput(
    fullName: string, email: string, phone: string, currentRole: string, skills: string,
    experience: int, salaryExpectation: Option<int>, notes: Option<string>,
    availability: string, status: string)

  datatype CandidatePatch = CandidatePatch(
    fullName: Option<string>, email: Option<string>, phone: Option<string>,
    currentRole: Option<string>, skills: Option<string>, experience: Option<int>,
    salaryExpectation: Option<Option<int>>, notes: Option<Option<string>>,
    availability: Option<string>, status: Option<string>)

  /** The payload that changes nothing but a candidate's status. */
  function StatusOnly(status: string): CandidatePatch {
    CandidatePatch(None, None, None, None, None, None, None, None, None, Some(status))
  }

  datatype Referral = Referral(
    id: int, candidateId: int, positionId: int, referralDate: int,
    status: string,     // "Referred", "Interviewing", "Hired" or "Rejected"
    notes: Option<string>, feeEarned: Option<int>,
    mode: string,       // "Placement" or "Outsource"
    feeType: string,    // "OneTime" or "Monthly"
    feeMonths: Option<int>)

  datatype ReferralInput = ReferralInput(
    candidateId: int, positionId: int, referralDate: Option<int>, status: string,
    notes: Option<string>, feeEarned: Option<int>, mode: Option<string>,
    feeType: Option<string>, feeMonths: Option<int>)

  datatype ReferralPatch = ReferralPatch(
    candidateId: Option<int>, positionId: Option<int>, referralDate: Option<int>,
    status: Option<string>, notes: Option<Option<string>>, feeEarned: Option<Option<int>>,
    mode: Option<string>, feeType: Option<string>, feeMonths: Option<Option<int>>)

  /** A referral joined with the records it points at; either may be missing. */
  datatype ReferralWithDetails = ReferralWithDetails(
    referral: Referral, candidate: Option<Candidate>, position: Option<Position>)

  /** An audit-log entry; `kind` is the source's `type` tag (`position_added`, ...). */
  datatype Activity = Activity(
    id: int, kind: string, description: string, timestamp: int,
    relatedId: Option<int>, relatedType: Option<string>)

  datatype ActivityInput = ActivityInput(
    kind: string, description: string, timestamp: Option<int>,
    relatedId: Option<int>, relatedType: Option<string>)

  datatype User = User(
    id: int, name: string, email: string, password: Option<string>,
    provider: string, providerId: Option<string>, role: string,
    lastLogin: Option<int>, createdAt: int)

  datatype UserInput = UserInput(
    name: string, email: string, password: Option<string>,
    provider: string, providerId: Option<string>, role: string)

  datatype MonthlyChange = MonthlyChange(
    openPositions: int, activeCandidates: int, referralsMade: int, feesEarned: int)

  datatype DashboardStats = DashboardStats(
    openPositions: int, activeCandidates: int, referralsMade: int, feesEarned: int,
    monthlyChange: MonthlyChange)
}
