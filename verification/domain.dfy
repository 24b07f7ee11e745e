/**
  The loan aggregate and the records attached to it: the lifecycle states,
  the loan itself, its approval, its investments, its disbursement and the
  investors. Amounts are whole minor units; identifiers and instants are
  opaque values supplied from outside (UUIDs and the wall clock).
 */
module Domain {

  type Id = string

  /** An instant; only ever copied, never compared or computed with. */
  type Timestamp = int

  /** A money amount in minor units. */
  type Amount = int

  datatype Option<+T> = None | Some(value: T)

  /** The lifecycle of a loan, in its only order: proposed, approved, invested, disbursed. */
  datatype LoanState = Proposed | Approved | Invested | Disbursed

  /** The string a state is stored and reported as. */
  function Name(s: LoanState): string
  {
    match s
    case Proposed => "proposed"
    case Approved => "approved"
    case Invested => "invested"
    case Disbursed => "disbursed"
  }

  /** Distinct states are stored as distinct strings, so comparing names compares states. */
  lemma NameInjective(s: LoanState, t: LoanState)
    ensures Name(s) == Name(t) <==> s == t
  {
  }

  /** The position of a state in the lifecycle order. */
  function Rank(s: LoanState): (r: nat)
    ensures r <= 3
    ensures r == 0 <==> s == Proposed
    ensures r == 3 <==> s == Disbursed
  {
    match s
    case Proposed => 0
    case Approved => 1
    case Invested => 2
    case Disbursed => 3
  }

  /** The state of every new loan. */
  const Initial: LoanState := Proposed

  /** The state that directly follows `s`, if any. */
  function Next(s: LoanState): (r: Option<LoanState>)
    ensures r.None? <==> s == Disbursed
    ensures r.Some? ==> Rank(r.value) == Rank(s) + 1
  {
    match s
    case Proposed => Some(Approved)
    case Approved => Some(Invested)
    case Invested => Some(Disbursed)
    case Disbursed => None
  }

  /** A state change allowed by the lifecycle: stay, or move exactly one step forward. */
  predicate StepsForward(before: LoanState, after: LoanState)
  {
    after == before || Next(before) == Some(after)
  }

  /** The order is a total order on the four states, and Initial is its least element. */
  lemma RankOrder(s: LoanState, t: LoanState)
    ensures Rank(s) == Rank(t) ==> s == t
    ensures Rank(Initial) <= Rank(s)
    ensures StepsForward(s, t) ==> Rank(s) <= Rank(t) <= Rank(s) + 1
    ensures StepsForward(s, t) && StepsForward(t, s) ==> s == t
  {
  }

  datatype Approval = Approval(
    id: Id,
    loanId: Id,
    pictureUrl: string,
    employeeId: string,
    approvalDate: Timestamp,
    createdAt: Timestamp)

  datatype Investor = Investor(
    id: Id,
    name: string,
    email: string,
    createdAt: Timestamp)

  datatype Investment = Investment(
    id: Id,
    loanId: Id,
    investorId: Id,
    amount: Amount,
    createdAt: Timestamp)

  datatype Disbursement = Disbursement(
    id: Id,
    loanId: Id,
    agreementUrl: string,
    employeeId: string,
    disbursementDate: Timestamp,
    createdAt: Timestamp)

  /**
    The loan aggregate: its own columns, then at most one approval, the
    ordered list of its investments and at most one disbursement.
    Rate and return on investment are carried, never computed with.
   */
  datatype Loan = Loan(
    id: Id,
    borrowerId: string,
    principal: Amount,
    rate: int,
    roi: int,
    agreementLetterUrl: string,
    state: LoanState,
    createdAt: Timestamp,
    updatedAt: Timestamp,
    approval: Option<Approval>,
    investments: seq<Investment>,
    disbursement: Option<Disbursement>)

  /** Failures reported by the store and by the loan operations. */
  datatype Error =
    | NotFound                                          // the loan or investor does not exist
    | ConstraintViolation                               // a primary-key, unique or foreign-key constraint refused a write
    | InvalidAmount                                     // a contribution that is not positive
    | InvalidState(current: LoanState, required: LoanState)
    | AlreadyApproved
    | AlreadyFunded
    | AlreadyDisbursed
    | OverFunding(total: Amount, amount: Amount, principal: Amount)

  datatype Result<+T> = Ok(value: T) | Err(error: Error)

  /** The result of a write that returns nothing but a possible error. */
  datatype Outcome = Pass | Fail(error: Error)
}
