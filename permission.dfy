/**
 * The two permission classes: a request passes `IsEmployer` (`IsEmployee`)
 * when its user is logged in and has that role.
 */
module Permission {
  import opened Models

  /** The user a request carries: anonymous, or a logged-in user with a role. */
  datatype Requester = Anonymous | Member(id: UserId, role: Role)

  predicate IsAuthenticated(r: Requester) {
    r.Member?
  }

  predicate IsEmployer(r: Requester) {
    IsAuthenticated(r) && r.role == Employer
  }

  predicate IsEmployee(r: Requester) {
    IsAuthenticated(r) && r.role == Employee
  }

  /** A logged-in user passes exactly the check for the role it holds. */
  lemma MemberPassesOwnRole(id: UserId, role: Role)
    ensures IsEmployer(Member(id, role)) <==> role == Employer
    ensures IsEmployee(Member(id, role)) <==> role == Employee
  {
  }

  /** No requester passes both checks. */
  lemma RolesExclusive(r: Requester)
    ensures !(IsEmployer(r) && IsEmployee(r))
  {
  }

  /** An anonymous requester passes neither check. */
  lemma AnonymousPassesNeither()
    ensures !IsEmployer(Anonymous) && !IsEmployee(Anonymous)
  {
  }
}
