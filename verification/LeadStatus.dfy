/** The status graph of a lead and who may drive it. */
module LeadStatus {
  import opened Common

  datatype Status =
    | Created | KycUploaded | CreditChecked | Approved | Declined | BankHandoff | Funded | FundingRejected

  datatype Role = Applicant | LoanOfficer | Underwriter | Admin | System

  datatype Error = NotFound | BadRequest | Forbidden

  function AllowedTransitions(from: Status): seq<Status> {
    match from
    case Created => [KycUploaded]
    case KycUploaded => [CreditChecked]
    case CreditChecked => [Approved, Declined]
    case Approved => [BankHandoff]
    case Declined => []
    case BankHandoff => [Funded, FundingRejected]
    case Funded => []
    case FundingRejected => []
  }

  /** The roles listed for a manual transition; an absent entry is empty. */
  function ManualTransitionRoles(from: Status, to: Status): seq<Role> {
    match (from, to)
    case (KycUploaded, CreditChecked) => [LoanOfficer, Underwriter, Admin]
    case (CreditChecked, Approved) => [Underwriter, Admin]
    case (CreditChecked, Declined) => [Underwriter, Admin]
    case (Approved, BankHandoff) => [LoanOfficer, Underwriter, Admin]
    case (BankHandoff, Funded) => [System, Admin]
    case (BankHandoff, FundingRejected) => [System, Admin]
    case _ => []
  }

  predicate IsTerminal(s: Status) {
    |AllowedTransitions(s)| == 0
  }

  predicate IsEdge(from: Status, to: Status) {
    to in AllowedTransitions(from)
  }

  /** `assertManualTransitionAllowed`: the graph is checked before the role. */
  function CheckManualTransition(from: Status, to: Status, role: Role): Option<Error> {
    if !IsEdge(from, to) then Some(BadRequest)
    else if role !in ManualTransitionRoles(from, to) then Some(Forbidden)
    else None
  }

  function Rank(s: Status): nat {
    match s
    case Created => 0
    case KycUploaded => 1
    case CreditChecked => 2
    case Approved => 3
    case Declined => 3
    case BankHandoff => 4
    case Funded => 5
    case FundingRejected => 5
  }

  /** Each edge climbs exactly one rank, so the graph has no cycle; the automatic edge is
      the only one no role may drive; and every manual edge leaves a status of known rank. */
  lemma EdgesClimb(from: Status, to: Status)
    requires IsEdge(from, to)
    ensures Rank(to) == Rank(from) + 1 && !IsTerminal(from)
    ensures ManualTransitionRoles(from, to) == [] <==> (from == Created && to == KycUploaded)
  {
  }

  /** Each status but the first can be entered from one status only. */
  lemma OneWayIn(from: Status, other: Status, to: Status)
    requires IsEdge(from, to) && IsEdge(other, to)
    ensures from == other
  {
  }
}
