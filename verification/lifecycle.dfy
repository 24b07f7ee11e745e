/**
  The loan lifecycle as transitions on the whole store: creating, approving,
  investing in and disbursing a loan, each a function from the tables before
  the call to the result and the tables after it. The guards are checked in
  the order the loan service checks them; a failed guard writes nothing,
  except that an investor created before the over-funding check stays.

  `Consistent` is the invariant these transitions keep: states agree with the
  approval and disbursement records, the ledger never exceeds a principal, and
  an invested or disbursed loan is funded exactly.
 */
module Lifecycle {
  import opened Domain
  import opened Ledger
  import opened Repository

  /** The result of an operation and the store after it. */
  datatype Step = Step(result: Result<Loan>, db: Db)

  /** How an investment names its investor: an existing one, or one created for it. */
  datatype Resolved = Resolved(investor: Investor, created: bool)

  // ----------------------------------------------------------------------
  // The invariant
  // ----------------------------------------------------------------------

  /** No two investors share a non-empty email. */
  ghost predicate UniqueEmails(investors: map<Id, Investor>)
  {
    forall a, b :: a in investors && b in investors && a != b && investors[a].email != "" ==>
      investors[a].email != investors[b].email
  }

  /** The records of loan `id` agree with its state, and its ledger respects its principal. */
  ghost predicate LoanConsistent(db: Db, id: Id)
    requires id in db.loans
  {
    var state := db.loans[id].state;
    var principal := db.loans[id].principal;
    var rows := ForLoan(db.investments, id);
    && (state == Proposed <==> id !in db.approvals)
    && (state == Disbursed <==> id in db.disbursements)
    && (state == Proposed ==> rows == [])
    && (rows == [] || Sum(rows) <= principal)
    && (state == Approved ==> rows == [] || Sum(rows) < principal)
    && (state == Invested || state == Disbursed ==> rows != [] && Sum(rows) == principal)
  }

  ghost predicate Consistent(db: Db)
  {
    && WellFormed(db)
    && AllPositive(db.investments)
    && (forall i :: 0 <= i < |db.investments| ==> db.investments[i].investorId in db.investors)
    && UniqueEmails(db.investors)
    && (forall id :: id in db.loans ==> LoanConsistent(db, id))
  }

  // ----------------------------------------------------------------------
  // The operations
  // ----------------------------------------------------------------------

  /** Stores `input` as a new proposed loan under the fresh id `newId`. */
  function Create(db: Db, input: Loan, newId: Id, now: Timestamp): (s: Step)
    ensures s.result.Err? ==> s.db == db
    ensures s.result.Ok? ==> s.db.loans.Keys == db.loans.Keys + {newId} && newId !in db.loans
  {
    var loan := input.(id := newId, state := Initial, createdAt := now, updatedAt := now);
    if newId in db.loans then Step(Err(ConstraintViolation), db)
    else Step(Ok(loan), db.(loans := db.loans[newId := Row(loan)]))
  }

  /** Records the approval of a proposed loan and moves it to approved. */
  function Approve(db: Db, loanId: Id, pictureUrl: string, employeeId: string,
                   approvalDate: Timestamp, approvalId: Id, now: Timestamp): (s: Step)
    ensures s.result.Err? ==> s.db == db
  {
    if loanId !in db.loans then Step(Err(NotFound), db)
    else
      var loan := Preloaded(db, loanId);
      if loan.state != Proposed then Step(Err(InvalidState(loan.state, Proposed)), db)
      else if loan.approval.Some? then Step(Err(AlreadyApproved), db)
      else
        var approval := Approval(approvalId, loan.id, pictureUrl, employeeId, approvalDate, now);
        var approved := loan.(state := Approved, updatedAt := now);
        Step(Ok(approved.(approval := Some(approval))),
             db.(approvals := db.approvals[loan.id := approval],
                 loans := db.loans[loan.id := Row(approved)]))
  }

  /**
    The investor an investment is made by: the one named by `investorId` when
    it is given, else an existing investor with the (non-empty) email, else a
    new investor with the given name and email.
   */
  ghost function ResolveInvestor(investors: map<Id, Investor>, investorId: Id, name: string,
                                 email: string, newInvestorId: Id, now: Timestamp): (r: Result<Resolved>)
    ensures r.Ok? && !r.value.created ==> r.value.investor in investors.Values
    ensures r.Ok? && r.value.created ==> r.value.investor.id == newInvestorId && newInvestorId !in investors
    ensures r.Err? ==> r.error in {NotFound, ConstraintViolation}
  {
    if investorId != "" then
      if investorId in investors then Ok(Resolved(investors[investorId], false)) else Err(NotFound)
    else
      var found := if email != "" then FindByEmail(investors, email) else None;
      if found.Some? then Ok(Resolved(found.value, false))
      else if newInvestorId in investors then Err(ConstraintViolation)
      else Ok(Resolved(Investor(newInvestorId, name, email, now), true))
  }

  /**
    Records one contribution to an approved loan, refusing one that would take
    the loan's total past its principal, and moves the loan to invested when
    the total reaches the principal exactly.
   */
  ghost function Invest(db: Db, loanId: Id, investorId: Id, investorName: string, investorEmail: string,
                        amount: Amount, newInvestorId: Id, investmentId: Id, now: Timestamp): (s: Step)
    ensures s.result.Err? ==>
              && s.db.loans == db.loans && s.db.investments == db.investments
              && s.db.approvals == db.approvals && s.db.disbursements == db.disbursements
              && db.investors.Keys <= s.db.investors.Keys
    ensures s.result.Ok? ==> |s.db.investments| == |db.investments| + 1
  {
    if amount <= 0 then Step(Err(InvalidAmount), db)
    else if loanId !in db.loans then Step(Err(NotFound), db)
    else
      var loan := Preloaded(db, loanId);
      if loan.state == Invested then Step(Err(AlreadyFunded), db)
      else if loan.state != Approved then Step(Err(InvalidState(loan.state, Approved)), db)
      else
        match ResolveInvestor(db.investors, investorId, investorName, investorEmail, newInvestorId, now)
        case Err(e) => Step(Err(e), db)
        case Ok(res) =>
          var db1 := if res.created then db.(investors := db.investors[res.investor.id := res.investor]) else db;
          var total := TotalInvested(db1.investments, loan.id);
          if total + amount > loan.principal then
            Step(Err(OverFunding(total, amount, loan.principal)), db1)
          else
            var row := Investment(investmentId, loan.id, res.investor.id, amount, now);
            var funded := total + amount == loan.principal;
            var after := if funded then loan.(state := Invested, updatedAt := now) else loan;
            var db2 := db1.(investments := db1.investments + [row]);
            var db3 := if funded then db2.(loans := db2.loans[loan.id := Row(after)]) else db2;
            Step(Ok(after.(investments := after.investments + [row])), db3)
  }

  /** Records the disbursement of an invested loan and moves it to disbursed. */
  function Disburse(db: Db, loanId: Id, agreementUrl: string, employeeId: string,
                    disbursementDate: Timestamp, disbursementId: Id, now: Timestamp): (s: Step)
    ensures s.result.Err? ==> s.db == db
  {
    if loanId !in db.loans then Step(Err(NotFound), db)
    else
      var loan := Preloaded(db, loanId);
      if loan.state != Invested then Step(Err(InvalidState(loan.state, Invested)), db)
      else if loan.disbursement.Some? then Step(Err(AlreadyDisbursed), db)
      else
        var disbursement := Disbursement(disbursementId, loan.id, agreementUrl, employeeId, disbursementDate, now);
        var disbursed := loan.(state := Disbursed, updatedAt := now);
        Step(Ok(disbursed.(disbursement := Some(disbursement))),
             db.(disbursements := db.disbursements[loan.id := disbursement],
                 loans := db.loans[loan.id := Row(disbursed)]))
  }

  /** A request to the loan service, with the fresh ids and the instant it is given. */
  datatype Op =
    | CreateLoan(input: Loan, newId: Id, now: Timestamp)
    | ApproveLoan(loanId: Id, pictureUrl: string, employeeId: string, approvalDate: Timestamp,
                  approvalId: Id, now: Timestamp)
    | InvestInLoan(loanId: Id, investorId: Id, investorName: string, investorEmail: string,
                   amount: Amount, newInvestorId: Id, investmentId: Id, now: Timestamp)
    | DisburseLoan(loanId: Id, agreementUrl: string, employeeId: string, disbursementDate: Timestamp,
                   disbursementId: Id, now: Timestamp)

  ghost function Apply(db: Db, op: Op): Step
  {
    match op
    case CreateLoan(input, newId, now) => Create(db, input, newId, now)
    case ApproveLoan(loanId, pictureUrl, employeeId, date, approvalId, now) =>
      Approve(db, loanId, pictureUrl, employeeId, date, approvalId, now)
    case InvestInLoan(loanId, investorId, name, email, amount, newInvestorId, investmentId, now) =>
      Invest(db, loanId, investorId, name, email, amount, newInvestorId, investmentId, now)
    case DisburseLoan(loanId, agreementUrl, employeeId, date, disbursementId, now) =>
      Disburse(db, loanId, agreementUrl, employeeId, date, disbursementId, now)
  }

  /** The store after the requests `ops`, one after the other. */
  ghost function Run(db: Db, ops: seq<Op>): Db
    decreases |ops|
  {
    if ops == [] then db else Run(Apply(db, ops[0]).db, ops[1..])
  }

  /**
    What a reader of one loan aggregate can rely on: it has an approval
    exactly when it is past proposed and a disbursement exactly when it is
    disbursed, both belong to it, its investments are its own and never
    total more than its principal, and an invested or disbursed loan is
    funded exactly.
   */
  ghost predicate AggregateConsistent(loan: Loan)
  {
    && (loan.approval.Some? <==> loan.state != Proposed)
    && (loan.disbursement.Some? <==> loan.state == Disbursed)
    && (loan.approval.Some? ==> loan.approval.value.loanId == loan.id)
    && (loan.disbursement.Some? ==> loan.disbursement.value.loanId == loan.id)
    && (forall i :: 0 <= i < |loan.investments| ==> loan.investments[i].loanId == loan.id)
    && (loan.investments == [] || Sum(loan.investments) <= loan.principal)
    && (loan.state == Invested || loan.state == Disbursed ==>
          loan.investments != [] && Sum(loan.investments) == loan.principal)
  }

  /** Every loan of `before` is still there in `after`, in the same or the next state. */
  ghost predicate MovesForward(before: Db, after: Db)
  {
    forall id :: id in before.loans ==>
      id in after.loans && StepsForward(before.loans[id].state, after.loans[id].state)
  }
}
