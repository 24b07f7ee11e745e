/**
  What the loan lifecycle promises, proved about the transitions of module
  Lifecycle: every operation keeps the store consistent and moves each loan at
  most one state forward; the ledger total of a loan never passes its
  principal; each operation fails exactly on its documented guards and then
  writes nothing; the loan an operation returns is the loan a fresh read
  would return.
 */
module LifecycleProperties {
  import opened Domain
  import opened Ledger
  import opened Repository
  import opened Lifecycle

  // ----------------------------------------------------------------------
  // Helpers about the store
  // ----------------------------------------------------------------------

  /** Reading a stored loan gives back its own columns under its own id. */
  lemma PreloadedRow(db: Db, id: Id)
    requires WellFormed(db) && id in db.loans
    ensures Preloaded(db, id).id == id
    ensures Row(Preloaded(db, id)) == db.loans[id]
    ensures Preloaded(db, id).state == db.loans[id].state
    ensures Preloaded(db, id).principal == db.loans[id].principal
  {
  }

  /** A loan that is not stored has no investment rows, since every row refers to a stored loan. */
  lemma UnknownLoanHasNoRows(db: Db, id: Id)
    requires WellFormed(db) && id !in db.loans
    ensures ForLoan(db.investments, id) == []
  {
    NoRowsNoTotal(db.investments, id);
  }

  /** Adding an investor whose email is empty or not yet used keeps emails unique. */
  lemma AddInvestorKeepsEmailsUnique(investors: map<Id, Investor>, inv: Investor)
    requires UniqueEmails(investors)
    requires inv.id !in investors
    requires inv.email == "" || forall id :: id in investors ==> investors[id].email != inv.email
    ensures UniqueEmails(investors[inv.id := inv])
  {
  }

  /** Replacing tables of a consistent store that no loan's invariant reads from keeps the loans consistent. */
  lemma LoansUnchangedConsistent(db: Db, db': Db)
    requires forall id :: id in db.loans ==> LoanConsistent(db, id)
    requires db'.loans == db.loans && db'.approvals == db.approvals
    requires db'.disbursements == db.disbursements && db'.investments == db.investments
    ensures forall id :: id in db'.loans ==> LoanConsistent(db', id)
  {
    forall id | id in db'.loans
      ensures LoanConsistent(db', id)
    {
      assert LoanConsistent(db, id);
    }
  }

  /** A loan whose row, ledger rows and attached records are as they were stays consistent. */
  lemma SameLoanView(db: Db, db': Db, id: Id)
    requires id in db.loans && id in db'.loans && LoanConsistent(db, id)
    requires db'.loans[id] == db.loans[id]
    requires ForLoan(db'.investments, id) == ForLoan(db.investments, id)
    requires id in db'.approvals <==> id in db.approvals
    requires id in db'.disbursements <==> id in db.disbursements
    ensures LoanConsistent(db', id)
  {
  }

  // ----------------------------------------------------------------------
  // Every operation keeps the store consistent
  // ----------------------------------------------------------------------

  lemma CreatePreservesConsistency(db: Db, input: Loan, newId: Id, now: Timestamp)
    requires Consistent(db)
    ensures Consistent(Create(db, input, newId, now).db)
  {
    var s := Create(db, input, newId, now);
    if newId !in db.loans {
      var loan := input.(id := newId, state := Initial, createdAt := now, updatedAt := now);
      var db' := db.(loans := db.loans[newId := Row(loan)]);
      assert s.db == db';
      assert WellFormed(db');
      UnknownLoanHasNoRows(db, newId);
      assert newId !in db.approvals && newId !in db.disbursements;
      assert LoanConsistent(db', newId);
      forall id | id in db'.loans && id != newId
        ensures LoanConsistent(db', id)
      {
        assert LoanConsistent(db, id);
      }
      assert Consistent(db');
    }
  }

  lemma ApprovePreservesConsistency(db: Db, loanId: Id, pictureUrl: string, employeeId: string,
                                    approvalDate: Timestamp, approvalId: Id, now: Timestamp)
    requires Consistent(db)
    ensures Consistent(Approve(db, loanId, pictureUrl, employeeId, approvalDate, approvalId, now).db)
  {
    var s := Approve(db, loanId, pictureUrl, employeeId, approvalDate, approvalId, now);
    if loanId in db.loans && db.loans[loanId].state == Proposed {
      PreloadedRow(db, loanId);
      var loan := Preloaded(db, loanId);
      assert LoanConsistent(db, loanId);
      var a := Approval(approvalId, loanId, pictureUrl, employeeId, approvalDate, now);
      var db' := db.(approvals := db.approvals[loanId := a],
                     loans := db.loans[loanId := Row(loan.(state := Approved, updatedAt := now))]);
      assert s.db == db';
      assert WellFormed(db');
      assert LoanConsistent(db', loanId);
      forall id | id in db'.loans && id != loanId
        ensures LoanConsistent(db', id)
      {
        assert LoanConsistent(db, id);
      }
      assert Consistent(db');
    }
  }

  lemma DisbursePreservesConsistency(db: Db, loanId: Id, agreementUrl: string, employeeId: string,
                                     disbursementDate: Timestamp, disbursementId: Id, now: Timestamp)
    requires Consistent(db)
    ensures Consistent(Disburse(db, loanId, agreementUrl, employeeId, disbursementDate, disbursementId, now).db)
  {
    var s := Disburse(db, loanId, agreementUrl, employeeId, disbursementDate, disbursementId, now);
    if loanId in db.loans && db.loans[loanId].state == Invested {
      PreloadedRow(db, loanId);
      var loan := Preloaded(db, loanId);
      assert LoanConsistent(db, loanId);
      var d := Disbursement(disbursementId, loanId, agreementUrl, employeeId, disbursementDate, now);
      var db' := db.(disbursements := db.disbursements[loanId := d],
                     loans := db.loans[loanId := Row(loan.(state := Disbursed, updatedAt := now))]);
      assert s.db == db';
      assert WellFormed(db');
      assert LoanConsistent(db', loanId);
      forall id | id in db'.loans && id != loanId
        ensures LoanConsistent(db', id)
      {
        assert LoanConsistent(db, id);
      }
      assert Consistent(db');
    }
  }

  /** The investor an investment resolves to exists afterwards, and creating one keeps emails unique. */
  lemma ResolvedInvestorStored(db: Db, investorId: Id, name: string, email: string,
                               newInvestorId: Id, now: Timestamp)
    requires Consistent(db)
    requires ResolveInvestor(db.investors, investorId, name, email, newInvestorId, now).Ok?
    ensures var res := ResolveInvestor(db.investors, investorId, name, email, newInvestorId, now).value;
            var investors := if res.created then db.investors[res.investor.id := res.investor] else db.investors;
            && res.investor.id in investors
            && investors[res.investor.id] == res.investor
            && UniqueEmails(investors)
            && (res.created ==> res.investor.id !in db.investors)
  {
    var res := ResolveInvestor(db.investors, investorId, name, email, newInvestorId, now).value;
    if !res.created && investorId == "" {
      var k :| k in db.investors && db.investors[k] == res.investor;
      assert db.investors[k].id == k;
    }
    if res.created {
      AddInvestorKeepsEmailsUnique(db.investors, res.investor);
    }
  }

  /**
    Appending a positive row for an approved loan that keeps its total within
    the principal, and promoting the loan to invested exactly when the total
    reaches the principal, keeps the store consistent.
   */
  lemma RecordInvestmentPreservesConsistency(db: Db, row: Investment, now: Timestamp)
    requires Consistent(db)
    requires row.loanId in db.loans && db.loans[row.loanId].state == Approved
    requires row.amount > 0 && row.investorId in db.investors
    requires TotalInvested(db.investments, row.loanId) + row.amount <= db.loans[row.loanId].principal
    ensures var loanId := row.loanId;
            var loan := db.loans[loanId];
            var funded := TotalInvested(db.investments, loanId) + row.amount == loan.principal;
            var db2 := db.(investments := db.investments + [row]);
            var db3 := if funded then db2.(loans := db2.loans[loanId := loan.(state := Invested, updatedAt := now)]) else db2;
            Consistent(db3)
  {
    var loanId := row.loanId;
    var loan := db.loans[loanId];
    var total := TotalInvested(db.investments, loanId);
    var funded := total + row.amount == loan.principal;
    var db2 := db.(investments := db.investments + [row]);
    var db3 := if funded then db2.(loans := db2.loans[loanId := loan.(state := Invested, updatedAt := now)]) else db2;
    assert WellFormed(db3);
    assert AllPositive(db3.investments);
    assert forall i :: 0 <= i < |db3.investments| ==> db3.investments[i].investorId in db3.investors by {
      forall i | 0 <= i < |db3.investments|
        ensures db3.investments[i].investorId in db3.investors
      {
        if i < |db.investments| {
          assert db3.investments[i] == db.investments[i];
        }
      }
    }
    assert LoanConsistent(db, loanId);
    ForLoanAppend(db.investments, row, loanId);
    SumAppend(ForLoan(db.investments, loanId), row);
    assert ForLoan(db3.investments, loanId) != [];
    assert Sum(ForLoan(db3.investments, loanId)) == total + row.amount;
    assert LoanConsistent(db3, loanId);
    forall id | id in db3.loans && id != loanId
      ensures LoanConsistent(db3, id)
    {
      ForLoanAppend(db.investments, row, id);
      assert ForLoan(db3.investments, id) == ForLoan(db.investments, id) + [];
      SameLoanView(db, db3, id);
    }
    assert Consistent(db3);
  }

  lemma InvestPreservesConsistency(db: Db, loanId: Id, investorId: Id, name: string, email: string,
                                   amount: Amount, newInvestorId: Id, investmentId: Id, now: Timestamp)
    requires Consistent(db)
    ensures Consistent(Invest(db, loanId, investorId, name, email, amount, newInvestorId, investmentId, now).db)
  {
    if amount <= 0 || loanId !in db.loans || db.loans[loanId].state != Approved
       || ResolveInvestor(db.investors, investorId, name, email, newInvestorId, now).Err? {
      return;
    }
    InvestAfterResolution(db, loanId, investorId, name, email, amount, newInvestorId, investmentId, now);
  }

  /** The store after an investment that passed its guards on the amount, the state and the investor. */
  lemma InvestStore(db: Db, loanId: Id, investorId: Id, name: string, email: string,
                    amount: Amount, newInvestorId: Id, investmentId: Id, now: Timestamp)
    requires WellFormed(db)
    requires amount > 0 && loanId in db.loans && db.loans[loanId].state == Approved
    requires ResolveInvestor(db.investors, investorId, name, email, newInvestorId, now).Ok?
    ensures var res := ResolveInvestor(db.investors, investorId, name, email, newInvestorId, now).value;
            var db1 := if res.created then db.(investors := db.investors[res.investor.id := res.investor]) else db;
            var loan := db.loans[loanId];
            var total := TotalInvested(db.investments, loanId);
            var row := Investment(investmentId, loanId, res.investor.id, amount, now);
            var db2 := db1.(investments := db1.investments + [row]);
            Invest(db, loanId, investorId, name, email, amount, newInvestorId, investmentId, now).db ==
              if total + amount > loan.principal then db1
              else if total + amount == loan.principal then db2.(loans := db2.loans[loanId := loan.(state := Invested, updatedAt := now)])
              else db2
  {
    PreloadedRow(db, loanId);
  }

  /** Storing the investor an investment resolves to keeps the store consistent. */
  lemma ResolvedStoreConsistent(db: Db, investorId: Id, name: string, email: string,
                                newInvestorId: Id, now: Timestamp)
    requires Consistent(db)
    requires ResolveInvestor(db.investors, investorId, name, email, newInvestorId, now).Ok?
    ensures var res := ResolveInvestor(db.investors, investorId, name, email, newInvestorId, now).value;
            var db1 := if res.created then db.(investors := db.investors[res.investor.id := res.investor]) else db;
            Consistent(db1) && res.investor.id in db1.investors
  {
    var res := ResolveInvestor(db.investors, investorId, name, email, newInvestorId, now).value;
    ResolvedInvestorStored(db, investorId, name, email, newInvestorId, now);
    if res.created {
      var db1 := db.(investors := db.investors[res.investor.id := res.investor]);
      LoansUnchangedConsistent(db, db1);
      assert WellFormed(db1);
      assert forall i :: 0 <= i < |db1.investments| ==> db1.investments[i].investorId in db1.investors;
    }
  }

  /** The part of InvestPreservesConsistency after the guards on the amount, the state and the investor. */
  lemma InvestAfterResolution(db: Db, loanId: Id, investorId: Id, name: string, email: string,
                              amount: Amount, newInvestorId: Id, investmentId: Id, now: Timestamp)
    requires Consistent(db)
    requires amount > 0 && loanId in db.loans && db.loans[loanId].state == Approved
    requires ResolveInvestor(db.investors, investorId, name, email, newInvestorId, now).Ok?
    ensures Consistent(Invest(db, loanId, investorId, name, email, amount, newInvestorId, investmentId, now).db)
  {
    InvestStore(db, loanId, investorId, name, email, amount, newInvestorId, investmentId, now);
    ResolvedStoreConsistent(db, investorId, name, email, newInvestorId, now);
    var res := ResolveInvestor(db.investors, investorId, name, email, newInvestorId, now).value;
    var db1 := if res.created then db.(investors := db.investors[res.investor.id := res.investor]) else db;
    var total := TotalInvested(db.investments, loanId);
    if total + amount <= db.loans[loanId].principal {
      var row := Investment(investmentId, loanId, res.investor.id, amount, now);
      RecordInvestmentPreservesConsistency(db1, row, now);
    }
  }

  /** Whatever the request, a consistent store stays consistent. */
  lemma ApplyPreservesConsistency(db: Db, op: Op)
    requires Consistent(db)
    ensures Consistent(Apply(db, op).db)
  {
    match op
    case CreateLoan(input, newId, now) =>
      CreatePreservesConsistency(db, input, newId, now);
    case ApproveLoan(loanId, pictureUrl, employeeId, date, approvalId, now) =>
      ApprovePreservesConsistency(db, loanId, pictureUrl, employeeId, date, approvalId, now);
    case InvestInLoan(loanId, investorId, name, email, amount, newInvestorId, investmentId, now) =>
      InvestPreservesConsistency(db, loanId, investorId, name, email, amount, newInvestorId, investmentId, now);
    case DisburseLoan(loanId, agreementUrl, employeeId, date, disbursementId, now) =>
      DisbursePreservesConsistency(db, loanId, agreementUrl, employeeId, date, disbursementId, now);
  }

  // ----------------------------------------------------------------------
  // States move forward only, one step at a time
  // ----------------------------------------------------------------------

  lemma ApplyMovesForward(db: Db, op: Op)
    requires WellFormed(db)
    ensures MovesForward(db, Apply(db, op).db)
  {
    var db' := Apply(db, op).db;
    match op
    case CreateLoan(input, newId, now) =>
    case ApproveLoan(loanId, pictureUrl, employeeId, date, approvalId, now) =>
      if loanId in db.loans {
        PreloadedRow(db, loanId);
      }
    case InvestInLoan(loanId, investorId, name, email, amount, newInvestorId, investmentId, now) =>
      if amount > 0 && loanId in db.loans && db.loans[loanId].state == Approved
         && ResolveInvestor(db.investors, investorId, name, email, newInvestorId, now).Ok? {
        InvestStore(db, loanId, investorId, name, email, amount, newInvestorId, investmentId, now);
      }
    case DisburseLoan(loanId, agreementUrl, employeeId, date, disbursementId, now) =>
      if loanId in db.loans {
        PreloadedRow(db, loanId);
      }
  }

  /**
    Along any sequence of requests from a consistent store, the store stays
    consistent, no loan disappears and no loan's state ever moves backwards.
   */
  lemma {:induction false} RunKeepsInvariants(db: Db, ops: seq<Op>)
    requires Consistent(db)
    ensures Consistent(Run(db, ops))
    ensures forall id :: id in db.loans ==>
      id in Run(db, ops).loans && Rank(db.loans[id].state) <= Rank(Run(db, ops).loans[id].state)
    decreases |ops|
  {
    if ops != [] {
      var next := Apply(db, ops[0]).db;
      ApplyPreservesConsistency(db, ops[0]);
      ApplyMovesForward(db, ops[0]);
      RunKeepsInvariants(next, ops[1..]);
    }
  }

  // ----------------------------------------------------------------------
  // The ledger
  // ----------------------------------------------------------------------

  /**
    In a consistent store the total invested in a loan never exceeds its
    principal (a loan with no investments has total 0), an invested or
    disbursed loan is funded exactly, and an approved loan is not.
   */
  lemma FundingCap(db: Db, id: Id)
    requires Consistent(db) && id in db.loans
    ensures ForLoan(db.investments, id) == [] <==> TotalInvested(db.investments, id) == 0
    ensures TotalInvested(db.investments, id) == 0 || TotalInvested(db.investments, id) <= db.loans[id].principal
    ensures db.loans[id].state in {Invested, Disbursed} ==> TotalInvested(db.investments, id) == db.loans[id].principal > 0
    ensures db.loans[id].state == Approved ==> TotalInvested(db.investments, id) != db.loans[id].principal || db.loans[id].principal == 0
  {
    assert LoanConsistent(db, id);
    ForLoanPositive(db.investments, id);
    SumPositive(ForLoan(db.investments, id));
  }

  // ----------------------------------------------------------------------
  // Each operation: its failures, its writes, the loan it returns
  // ----------------------------------------------------------------------

  /**
    Creating a loan ignores the id and state the input carries: the new loan
    is proposed, has the fresh id and the given instant, keeps every other
    field, and is added to the loans table. It fails only when the id is
    already taken, and then writes nothing.
   */
  lemma CreateOutcome(db: Db, input: Loan, newId: Id, now: Timestamp)
    requires WellFormed(db)
    ensures var s := Create(db, input, newId, now);
            && (s.result.Ok? <==> newId !in db.loans)
            && (s.result.Err? ==> s.result.error == ConstraintViolation && s.db == db)
            && (s.result.Ok? ==>
                  var loan := s.result.value;
                  && loan.id == newId && loan.state == Initial
                  && loan.createdAt == now && loan.updatedAt == now
                  && loan.borrowerId == input.borrowerId && loan.principal == input.principal
                  && loan.rate == input.rate && loan.roi == input.roi
                  && loan.agreementLetterUrl == input.agreementLetterUrl
                  && s.db == db.(loans := db.loans[newId := Row(loan)])
                  && (IsRow(input) ==> Preloaded(s.db, newId) == loan))
  {
    var s := Create(db, input, newId, now);
    if s.result.Ok? {
      UnknownLoanHasNoRows(db, newId);
    }
  }

  /**
    Approving fails on a missing loan (NotFound) and on a loan that is not
    proposed (InvalidState naming its state), and then writes nothing. In a
    consistent store a proposed loan never has an approval, so the
    AlreadyApproved guard never fires. On success exactly one approval with
    the given details is added, the loan becomes approved, and the loan
    returned is the one a fresh read returns.
   */
  lemma ApproveOutcome(db: Db, loanId: Id, pictureUrl: string, employeeId: string,
                       approvalDate: Timestamp, approvalId: Id, now: Timestamp)
    requires Consistent(db)
    ensures var s := Approve(db, loanId, pictureUrl, employeeId, approvalDate, approvalId, now);
            && (s.result.Ok? <==> loanId in db.loans && db.loans[loanId].state == Proposed)
            && (loanId !in db.loans ==> s.result == Err(NotFound))
            && (loanId in db.loans && db.loans[loanId].state != Proposed ==>
                  s.result == Err(InvalidState(db.loans[loanId].state, Proposed)))
            && s.result != Err(AlreadyApproved)
            && (s.result.Err? ==> s.db == db)
            && (s.result.Ok? ==>
                  var approval := Approval(approvalId, loanId, pictureUrl, employeeId, approvalDate, now);
                  && loanId !in db.approvals
                  && s.db.approvals == db.approvals[loanId := approval]
                  && |s.db.approvals| == |db.approvals| + 1
                  && s.db.loans == db.loans[loanId := db.loans[loanId].(state := Approved, updatedAt := now)]
                  && s.db.investments == db.investments && s.db.investors == db.investors
                  && s.db.disbursements == db.disbursements
                  && s.result.value.approval == Some(approval)
                  && s.result.value == Preloaded(s.db, loanId))
  {
    if loanId in db.loans {
      PreloadedRow(db, loanId);
      assert LoanConsistent(db, loanId);
    }
  }

  /**
    Disbursing fails on a missing loan (NotFound) and on a loan that is not
    invested (InvalidState naming its state), and then writes nothing. In a
    consistent store an invested loan never has a disbursement, so the
    AlreadyDisbursed guard never fires. On success exactly one disbursement
    with the given details is added, the loan becomes disbursed, and the loan
    returned is the one a fresh read returns.
   */
  lemma DisburseOutcome(db: Db, loanId: Id, agreementUrl: string, employeeId: string,
                        disbursementDate: Timestamp, disbursementId: Id, now: Timestamp)
    requires Consistent(db)
    ensures var s := Disburse(db, loanId, agreementUrl, employeeId, disbursementDate, disbursementId, now);
            && (s.result.Ok? <==> loanId in db.loans && db.loans[loanId].state == Invested)
            && (loanId !in db.loans ==> s.result == Err(NotFound))
            && (loanId in db.loans && db.loans[loanId].state != Invested ==>
                  s.result == Err(InvalidState(db.loans[loanId].state, Invested)))
            && s.result != Err(AlreadyDisbursed)
            && (s.result.Err? ==> s.db == db)
            && (s.result.Ok? ==>
                  var disbursement := Disbursement(disbursementId, loanId, agreementUrl, employeeId, disbursementDate, now);
                  && loanId !in db.disbursements
                  && s.db.disbursements == db.disbursements[loanId := disbursement]
                  && |s.db.disbursements| == |db.disbursements| + 1
                  && s.db.loans == db.loans[loanId := db.loans[loanId].(state := Disbursed, updatedAt := now)]
                  && s.db.investments == db.investments && s.db.investors == db.investors
                  && s.db.approvals == db.approvals
                  && s.result.value.disbursement == Some(disbursement)
                  && s.result.value == Preloaded(s.db, loanId))
  {
    if loanId in db.loans {
      PreloadedRow(db, loanId);
      assert LoanConsistent(db, loanId);
    }
  }

  /**
    The guard order of approval on any store, consistent or not: the state
    is checked before the existing approval, so a loan that is no longer
    proposed is refused with InvalidState even when it has an approval, and
    only a proposed loan that already has one is refused with AlreadyApproved.
   */
  lemma ApproveGuardOrder(db: Db, loanId: Id, pictureUrl: string, employeeId: string,
                          approvalDate: Timestamp, approvalId: Id, now: Timestamp)
    requires loanId in db.loans
    ensures var s := Approve(db, loanId, pictureUrl, employeeId, approvalDate, approvalId, now);
            && (db.loans[loanId].state != Proposed ==>
                  s == Step(Err(InvalidState(db.loans[loanId].state, Proposed)), db))
            && (db.loans[loanId].state == Proposed && loanId in db.approvals ==>
                  s == Step(Err(AlreadyApproved), db))
  {
  }

  /** The guard order of disbursement on any store, as for approval. */
  lemma DisburseGuardOrder(db: Db, loanId: Id, agreementUrl: string, employeeId: string,
                           disbursementDate: Timestamp, disbursementId: Id, now: Timestamp)
    requires loanId in db.loans
    ensures var s := Disburse(db, loanId, agreementUrl, employeeId, disbursementDate, disbursementId, now);
            && (db.loans[loanId].state != Invested ==>
                  s == Step(Err(InvalidState(db.loans[loanId].state, Invested)), db))
            && (db.loans[loanId].state == Invested && loanId in db.disbursements ==>
                  s == Step(Err(AlreadyDisbursed), db))
  {
  }

  /**
    A second approval of a loan just approved is refused, because the loan
    is no longer proposed, and writes nothing; likewise a second disbursement.
   */
  lemma SecondApprovalRefused(db: Db, loanId: Id, pictureUrl: string, employeeId: string,
                              approvalDate: Timestamp, approvalId: Id, now: Timestamp,
                              pictureUrl2: string, employeeId2: string,
                              approvalDate2: Timestamp, approvalId2: Id, now2: Timestamp)
    requires Consistent(db)
    requires Approve(db, loanId, pictureUrl, employeeId, approvalDate, approvalId, now).result.Ok?
    ensures var db1 := Approve(db, loanId, pictureUrl, employeeId, approvalDate, approvalId, now).db;
            Approve(db1, loanId, pictureUrl2, employeeId2, approvalDate2, approvalId2, now2)
              == Step(Err(InvalidState(Approved, Proposed)), db1)
  {
    ApproveOutcome(db, loanId, pictureUrl, employeeId, approvalDate, approvalId, now);
    ApprovePreservesConsistency(db, loanId, pictureUrl, employeeId, approvalDate, approvalId, now);
    var db1 := Approve(db, loanId, pictureUrl, employeeId, approvalDate, approvalId, now).db;
    ApproveOutcome(db1, loanId, pictureUrl2, employeeId2, approvalDate2, approvalId2, now2);
  }

  lemma SecondDisbursementRefused(db: Db, loanId: Id, agreementUrl: string, employeeId: string,
                                  disbursementDate: Timestamp, disbursementId: Id, now: Timestamp,
                                  agreementUrl2: string, employeeId2: string,
                                  disbursementDate2: Timestamp, disbursementId2: Id, now2: Timestamp)
    requires Consistent(db)
    requires Disburse(db, loanId, agreementUrl, employeeId, disbursementDate, disbursementId, now).result.Ok?
    ensures var db1 := Disburse(db, loanId, agreementUrl, employeeId, disbursementDate, disbursementId, now).db;
            Disburse(db1, loanId, agreementUrl2, employeeId2, disbursementDate2, disbursementId2, now2)
              == Step(Err(InvalidState(Disbursed, Invested)), db1)
  {
    DisburseOutcome(db, loanId, agreementUrl, employeeId, disbursementDate, disbursementId, now);
    DisbursePreservesConsistency(db, loanId, agreementUrl, employeeId, disbursementDate, disbursementId, now);
    var db1 := Disburse(db, loanId, agreementUrl, employeeId, disbursementDate, disbursementId, now).db;
    DisburseOutcome(db1, loanId, agreementUrl2, employeeId2, disbursementDate2, disbursementId2, now2);
  }

  /**
    The guards of an investment, in the order they are checked: a
    non-positive amount before anything is read, then a missing loan, then a
    fully funded loan, then any other state but approved. Each writes nothing.
   */
  lemma InvestGuards(db: Db, loanId: Id, investorId: Id, name: string, email: string,
                     amount: Amount, newInvestorId: Id, investmentId: Id, now: Timestamp)
    ensures var s := Invest(db, loanId, investorId, name, email, amount, newInvestorId, investmentId, now);
            && (amount <= 0 ==> s == Step(Err(InvalidAmount), db))
            && (amount > 0 && loanId !in db.loans ==> s == Step(Err(NotFound), db))
            && (amount > 0 && loanId in db.loans && db.loans[loanId].state == Invested ==>
                  s == Step(Err(AlreadyFunded), db))
            && (amount > 0 && loanId in db.loans && db.loans[loanId].state in {Proposed, Disbursed} ==>
                  s == Step(Err(InvalidState(db.loans[loanId].state, Approved)), db))
            && (s.result.Ok? ==> amount > 0 && loanId in db.loans && db.loans[loanId].state == Approved)
  {
  }

  /**
    Which investor an investment to an approved loan is made by: a given
    investor id must name an existing investor (else NotFound, nothing
    written); with no id, an investor with the same non-empty email is
    reused; otherwise exactly one new investor with the given name and
    email is added, and it stays even when the investment is then refused.
    A fresh investor id that is already taken is refused (ConstraintViolation)
    and nothing is written.
   */
  lemma InvestResolvesInvestor(db: Db, loanId: Id, investorId: Id, name: string, email: string,
                               amount: Amount, newInvestorId: Id, investmentId: Id, now: Timestamp)
    requires Consistent(db)
    requires amount > 0 && loanId in db.loans && db.loans[loanId].state == Approved
    ensures var s := Invest(db, loanId, investorId, name, email, amount, newInvestorId, investmentId, now);
            && (investorId != "" && investorId !in db.investors ==> s == Step(Err(NotFound), db))
            && (investorId != "" && investorId in db.investors ==>
                  s.db.investors == db.investors
                  && (s.result.Ok? ==> Last(s.db.investments).investorId == investorId))
            && (investorId == "" && email != "" && FindByEmail(db.investors, email).Some? ==>
                  s.db.investors == db.investors
                  && (s.result.Ok? ==> db.investors[Last(s.db.investments).investorId].email == email))
            && (investorId == "" && (email == "" || FindByEmail(db.investors, email).None?) && newInvestorId !in db.investors ==>
                  s.db.investors == db.investors[newInvestorId := Investor(newInvestorId, name, email, now)]
                  && (s.result.Ok? ==> Last(s.db.investments).investorId == newInvestorId))
            && (investorId == "" && (email == "" || FindByEmail(db.investors, email).None?) && newInvestorId in db.investors ==>
                  s == Step(Err(ConstraintViolation), db))
  {
    var s := Invest(db, loanId, investorId, name, email, amount, newInvestorId, investmentId, now);
    var r := ResolveInvestor(db.investors, investorId, name, email, newInvestorId, now);
    if r.Ok? {
      InvestStore(db, loanId, investorId, name, email, amount, newInvestorId, investmentId, now);
      ResolvedInvestorStored(db, investorId, name, email, newInvestorId, now);
    }
  }

  /**
    Over-funding: when the loan's current total plus the amount would pass
    the principal, the investment is refused with the total, the amount and
    the principal, and no investment row and no loan changes (an investor
    created for it stays).
   */
  lemma OverFundingRefused(db: Db, loanId: Id, investorId: Id, name: string, email: string,
                           amount: Amount, newInvestorId: Id, investmentId: Id, now: Timestamp)
    requires Consistent(db)
    requires amount > 0 && loanId in db.loans && db.loans[loanId].state == Approved
    requires ResolveInvestor(db.investors, investorId, name, email, newInvestorId, now).Ok?
    requires TotalInvested(db.investments, loanId) + amount > db.loans[loanId].principal
    ensures var s := Invest(db, loanId, investorId, name, email, amount, newInvestorId, investmentId, now);
            && s.result == Err(OverFunding(TotalInvested(db.investments, loanId), amount, db.loans[loanId].principal))
            && s.db.investments == db.investments && s.db.loans == db.loans
            && s.db.approvals == db.approvals && s.db.disbursements == db.disbursements
  {
    InvestStore(db, loanId, investorId, name, email, amount, newInvestorId, investmentId, now);
    PreloadedRow(db, loanId);
  }

  /**
    A successful investment appends exactly one row, for this loan, by the
    resolved investor, with the given amount; the loan's total grows by that
    amount and stays within the principal; the loan becomes invested exactly
    when the new total equals the principal and otherwise stays approved; and
    the loan returned lists the earlier investments followed by the new one,
    as a fresh read would.
   */
  lemma InvestRecords(db: Db, loanId: Id, investorId: Id, name: string, email: string,
                      amount: Amount, newInvestorId: Id, investmentId: Id, now: Timestamp)
    requires Consistent(db)
    requires Invest(db, loanId, investorId, name, email, amount, newInvestorId, investmentId, now).result.Ok?
    ensures var s := Invest(db, loanId, investorId, name, email, amount, newInvestorId, investmentId, now);
            var row := Last(s.db.investments);
            var newTotal := TotalInvested(s.db.investments, loanId);
            && loanId in db.loans && loanId in s.db.loans
            && s.db.investments == db.investments + [row]
            && row == Investment(investmentId, loanId, row.investorId, amount, now)
            && row.investorId in s.db.investors
            && newTotal == TotalInvested(db.investments, loanId) + amount
            && newTotal <= db.loans[loanId].principal
            && (s.db.loans[loanId].state == Invested <==> newTotal == db.loans[loanId].principal)
            && (s.db.loans[loanId].state == Approved <==> newTotal != db.loans[loanId].principal)
            && s.result.value.investments == Preloaded(db, loanId).investments + [row]
            && s.result.value == Preloaded(s.db, loanId)
  {
    InvestGuards(db, loanId, investorId, name, email, amount, newInvestorId, investmentId, now);
    InvestStore(db, loanId, investorId, name, email, amount, newInvestorId, investmentId, now);
    ResolvedInvestorStored(db, investorId, name, email, newInvestorId, now);
    PreloadedRow(db, loanId);
    var s := Invest(db, loanId, investorId, name, email, amount, newInvestorId, investmentId, now);
    var row := Last(s.db.investments);
    TotalAppend(db.investments, row, loanId);
    ForLoanAppend(db.investments, row, loanId);
  }

  /**
    Investor resolution by email is stable: two successful investments that
    name no investor id and give the same non-empty email are made by the
    same investor, and the second one creates no investor.
   */
  lemma SameEmailSameInvestor(db: Db, email: string,
                              loan1: Id, name1: string, amount1: Amount, newInvestor1: Id, investment1: Id, now1: Timestamp,
                              loan2: Id, name2: string, amount2: Amount, newInvestor2: Id, investment2: Id, now2: Timestamp)
    requires Consistent(db) && email != ""
    requires Invest(db, loan1, "", name1, email, amount1, newInvestor1, investment1, now1).result.Ok?
    requires var db1 := Invest(db, loan1, "", name1, email, amount1, newInvestor1, investment1, now1).db;
             Invest(db1, loan2, "", name2, email, amount2, newInvestor2, investment2, now2).result.Ok?
    ensures var s1 := Invest(db, loan1, "", name1, email, amount1, newInvestor1, investment1, now1);
            var s2 := Invest(s1.db, loan2, "", name2, email, amount2, newInvestor2, investment2, now2);
            && s1.db.investments != [] && s2.db.investments != []
            && Last(s2.db.investments).investorId == Last(s1.db.investments).investorId
            && s2.db.investors == s1.db.investors
  {
    var s1 := Invest(db, loan1, "", name1, email, amount1, newInvestor1, investment1, now1);
    InvestByEmail(db, loan1, name1, email, amount1, newInvestor1, investment1, now1);
    var first := Last(s1.db.investments).investorId;
    var s2 := Invest(s1.db, loan2, "", name2, email, amount2, newInvestor2, investment2, now2);
    InvestByEmail(s1.db, loan2, name2, email, amount2, newInvestor2, investment2, now2);
    var second := Last(s2.db.investments).investorId;
    assert s2.db.investors == s1.db.investors by {
      InvestGuards(s1.db, loan2, "", name2, email, amount2, newInvestor2, investment2, now2);
      InvestResolvesInvestor(s1.db, loan2, "", name2, email, amount2, newInvestor2, investment2, now2);
    }
    assert s1.db.investors[second].email == email && s1.db.investors[first].email == email;
  }

  /** A successful investment by email is made by an investor with that email, and keeps the store consistent. */
  lemma InvestByEmail(db: Db, loanId: Id, name: string, email: string,
                      amount: Amount, newInvestorId: Id, investmentId: Id, now: Timestamp)
    requires Consistent(db) && email != ""
    requires Invest(db, loanId, "", name, email, amount, newInvestorId, investmentId, now).result.Ok?
    ensures var s := Invest(db, loanId, "", name, email, amount, newInvestorId, investmentId, now);
            && Consistent(s.db)
            && s.db.investments != []
            && Last(s.db.investments).investorId in s.db.investors
            && s.db.investors[Last(s.db.investments).investorId].email == email
            && FindByEmail(s.db.investors, email).Some?
  {
    InvestGuards(db, loanId, "", name, email, amount, newInvestorId, investmentId, now);
    InvestRecords(db, loanId, "", name, email, amount, newInvestorId, investmentId, now);
    InvestResolvesInvestor(db, loanId, "", name, email, amount, newInvestorId, investmentId, now);
    InvestPreservesConsistency(db, loanId, "", name, email, amount, newInvestorId, investmentId, now);
  }

  /**
    Exact-equality promotion: an approved loan of principal 1000 with no
    investments stays approved after 400, becomes invested after a further
    600, and refuses a further 700 as over-funding, keeping its total at 400.
   */
  lemma ExactFundingScenario(db: Db, loanId: Id, investorId: Id, now: Timestamp,
                             row1: Id, row2: Id, row3: Id)
    requires Consistent(db) && loanId in db.loans && db.loans[loanId].state == Approved
    requires db.loans[loanId].principal == 1000 && ForLoan(db.investments, loanId) == []
    requires investorId != "" && investorId in db.investors
    ensures var s1 := Invest(db, loanId, investorId, "", "", 400, "", row1, now);
            var s2 := Invest(s1.db, loanId, investorId, "", "", 600, "", row2, now);
            var s3 := Invest(s1.db, loanId, investorId, "", "", 700, "", row3, now);
            && s1.result.Ok? && s1.db.loans[loanId].state == Approved
            && s2.result.Ok? && s2.db.loans[loanId].state == Invested
            && TotalInvested(s2.db.investments, loanId) == 1000
            && s3.result == Err(OverFunding(400, 700, 1000))
            && TotalInvested(s3.db.investments, loanId) == 400
            && s3.db.loans[loanId].state == Approved
  {
    var s1 := Invest(db, loanId, investorId, "", "", 400, "", row1, now);
    InvestStore(db, loanId, investorId, "", "", 400, "", row1, now);
    TotalAppend(db.investments, Investment(row1, loanId, investorId, 400, now), loanId);
    InvestPreservesConsistency(db, loanId, investorId, "", "", 400, "", row1, now);
    assert TotalInvested(s1.db.investments, loanId) == 400;
    var s2 := Invest(s1.db, loanId, investorId, "", "", 600, "", row2, now);
    InvestStore(s1.db, loanId, investorId, "", "", 600, "", row2, now);
    TotalAppend(s1.db.investments, Investment(row2, loanId, investorId, 600, now), loanId);
    OverFundingRefused(s1.db, loanId, investorId, "", "", 700, "", row3, now);
  }

  /**
    The whole lifecycle from an empty store: create a loan of principal
    5,000,000, approve it, receive 2,500,000 from each of two new investors
    (the loan is then invested, with two investments, one approval and no
    disbursement), and disburse it (one disbursement, state disbursed).
   */
  lemma LifecycleScenario(input: Loan, loanId: Id, approvalId: Id, investor1: Id, investor2: Id,
                          row1: Id, row2: Id, disbursementId: Id, now: Timestamp)
    requires input.principal == 5_000_000
    requires investor1 != investor2
    ensures var s0 := Create(Empty, input, loanId, now);
            var s1 := Approve(s0.db, loanId, "proof.jpg", "EMP001", now, approvalId, now);
            var s2 := Invest(s1.db, loanId, "", "first", "", 2_500_000, investor1, row1, now);
            var s3 := Invest(s2.db, loanId, "", "second", "", 2_500_000, investor2, row2, now);
            var s4 := Disburse(s3.db, loanId, "agreement.pdf", "EMP002", now, disbursementId, now);
            && s0.result.Ok? && s1.result.Ok? && s2.result.Ok? && s3.result.Ok?
            && s2.db.loans[loanId].state == Approved
            && s3.db.loans[loanId].state == Invested
            && |s3.db.investments| == 2 && |s3.db.approvals| == 1 && |s3.db.disbursements| == 0
            && s3.db.investments[0].investorId != s3.db.investments[1].investorId
            && s4.result.Ok? && s4.db.loans[loanId].state == Disbursed && |s4.db.disbursements| == 1
  {
    assert Consistent(Empty);
    var s0 := Create(Empty, input, loanId, now);
    CreatePreservesConsistency(Empty, input, loanId, now);
    var s1 := Approve(s0.db, loanId, "proof.jpg", "EMP001", now, approvalId, now);
    ApproveOutcome(s0.db, loanId, "proof.jpg", "EMP001", now, approvalId, now);
    ApprovePreservesConsistency(s0.db, loanId, "proof.jpg", "EMP001", now, approvalId, now);
    assert s1.db.investments == [];
    var s2 := Invest(s1.db, loanId, "", "first", "", 2_500_000, investor1, row1, now);
    InvestStore(s1.db, loanId, "", "first", "", 2_500_000, investor1, row1, now);
    var inv1 := Investment(row1, loanId, investor1, 2_500_000, now);
    TotalAppend([], inv1, loanId);
    assert [] + [inv1] == [inv1];
    InvestPreservesConsistency(s1.db, loanId, "", "first", "", 2_500_000, investor1, row1, now);
    var s3 := Invest(s2.db, loanId, "", "second", "", 2_500_000, investor2, row2, now);
    InvestStore(s2.db, loanId, "", "second", "", 2_500_000, investor2, row2, now);
    TotalAppend([inv1], Investment(row2, loanId, investor2, 2_500_000, now), loanId);
    InvestPreservesConsistency(s2.db, loanId, "", "second", "", 2_500_000, investor2, row2, now);
    DisburseOutcome(s3.db, loanId, "agreement.pdf", "EMP002", now, disbursementId, now);
  }

  // ----------------------------------------------------------------------
  // Reads
  // ----------------------------------------------------------------------

  /** Every loan read from a consistent store is a consistent aggregate. */
  lemma PreloadedConsistent(db: Db, id: Id)
    requires Consistent(db) && id in db.loans
    ensures AggregateConsistent(Preloaded(db, id))
  {
    PreloadedRow(db, id);
    assert LoanConsistent(db, id);
  }

  /**
    With unique emails, any investor found by a non-empty email is the one
    the specification's lookup picks.
   */
  lemma EmailMatchIsUnique(investors: map<Id, Investor>, email: string, inv: Investor)
    requires UniqueEmails(investors) && email != ""
    requires inv.id in investors && investors[inv.id] == inv && inv.email == email
    ensures FindByEmail(investors, email) == Some(inv)
  {
    var found := FindByEmail(investors, email).value;
    var k :| k in investors && investors[k] == found;
    assert investors[k].email == investors[inv.id].email;
  }
}
