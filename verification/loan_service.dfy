/**
  The loan service: the entry points callers use. Each operation loads the
  loan through the store, checks its state, writes its records through the
  store in the order the service writes them, and returns the updated loan.
  Each method is proved to have exactly the effect of the matching
  transition of module Lifecycle, so it keeps the store consistent.
 */
module Service {
  import opened Domain
  import opened Ledger
  import opened Repository
  import opened Lifecycle
  import LifecycleProperties

  class LoanService {
    const repo: LoanStore

    ghost predicate Valid()
      reads repo
    {
      Consistent(repo.Snapshot())
    }

    constructor (repo: LoanStore)
      requires Consistent(repo.Snapshot())
      ensures this.repo == repo && Valid()
    {
      this.repo := repo;
    }

    /** Stores `input` as a new proposed loan with the fresh id `newId`. */
    method CreateLoan(input: Loan, newId: Id, now: Timestamp) returns (r: Result<Loan>)
      requires Valid()
      modifies repo
      ensures Valid()
      ensures Step(r, repo.Snapshot()) == Create(old(repo.Snapshot()), input, newId, now)
    {
      ghost var before := repo.Snapshot();
      var loan := input.(id := newId, state := Initial, createdAt := now, updatedAt := now);
      var o := repo.CreateLoan(loan);
      match o {
        case Fail(e) => return Err(e);
        case Pass =>
      }
      r := Ok(loan);
      LifecycleProperties.CreatePreservesConsistency(before, input, newId, now);
    }

    /** Approves a proposed loan, recording who approved it, when, and the proof picture. */
    method ApproveLoan(loanId: Id, pictureUrl: string, employeeId: string, approvalDate: Timestamp,
                       approvalId: Id, now: Timestamp) returns (r: Result<Loan>)
      requires Valid()
      modifies repo
      ensures Valid()
      ensures Step(r, repo.Snapshot())
           == Approve(old(repo.Snapshot()), loanId, pictureUrl, employeeId, approvalDate, approvalId, now)
    {
      ghost var before := repo.Snapshot();
      LifecycleProperties.ApprovePreservesConsistency(before, loanId, pictureUrl, employeeId, approvalDate, approvalId, now);
      var got := repo.GetLoanByID(loanId);
      var loan: Loan;
      match got {
        case Err(e) => return Err(e);
        case Ok(l) => loan := l;
      }
      if loan.state != Proposed {
        return Err(InvalidState(loan.state, Proposed));
      }
      if loan.approval.Some? {
        return Err(AlreadyApproved);
      }
      var approval := Approval(approvalId, loan.id, pictureUrl, employeeId, approvalDate, now);
      loan := loan.(state := Approved, updatedAt := now);
      var o := repo.CreateApproval(approval);
      match o {
        case Fail(e) => return Err(e);
        case Pass =>
      }
      o := repo.UpdateLoan(loan);
      match o {
        case Fail(e) => return Err(e);
        case Pass =>
      }
      r := Ok(loan.(approval := Some(approval)));
    }

    /**
      Records a contribution of `amount` to an approved loan by the investor
      named by `investorId`, or found by `investorEmail`, or created from
      `investorName` and `investorEmail`.
     */
    method InvestInLoan(loanId: Id, investorId: Id, investorName: string, investorEmail: string,
                        amount: Amount, newInvestorId: Id, investmentId: Id, now: Timestamp)
      returns (r: Result<Loan>)
      requires Valid()
      modifies repo
      ensures Valid()
      ensures Step(r, repo.Snapshot())
           == Invest(old(repo.Snapshot()), loanId, investorId, investorName, investorEmail,
                     amount, newInvestorId, investmentId, now)
    {
      ghost var before := repo.Snapshot();
      LifecycleProperties.InvestPreservesConsistency(before, loanId, investorId, investorName, investorEmail,
                                                     amount, newInvestorId, investmentId, now);
      if amount <= 0 {
        return Err(InvalidAmount);
      }
      var got := repo.GetLoanByID(loanId);
      var loan: Loan;
      match got {
        case Err(e) => return Err(e);
        case Ok(l) => loan := l;
      }
      if loan.state == Invested {
        return Err(AlreadyFunded);
      }
      if loan.state != Approved {
        return Err(InvalidState(loan.state, Approved));
      }

      var investor: Investor;
      if investorId != "" {
        var found := repo.GetInvestorByID(investorId);
        match found {
          case Err(e) => return Err(e);
          case Ok(inv) => investor := inv;
        }
      } else {
        var existing: Option<Investor> := None;
        if investorEmail != "" {
          existing := repo.FindInvestorByEmail(investorEmail);
          if existing.Some? {
            LifecycleProperties.EmailMatchIsUnique(before.investors, investorEmail, existing.value);
          }
        }
        if existing.Some? {
          investor := existing.value;
        } else {
          investor := Investor(newInvestorId, investorName, investorEmail, now);
          var o := repo.CreateInvestor(investor);
          match o {
            case Fail(e) => return Err(e);
            case Pass =>
          }
        }
      }

      var total := repo.GetTotalInvested(loan.id);
      if total + amount > loan.principal {
        return Err(OverFunding(total, amount, loan.principal));
      }
      var row := Investment(investmentId, loan.id, investor.id, amount, now);
      var o := repo.CreateInvestment(row);
      match o {
        case Fail(e) => return Err(e);
        case Pass =>
      }
      var newTotal := total + amount;
      if newTotal == loan.principal {
        loan := loan.(state := Invested, updatedAt := now);
        o := repo.UpdateLoan(loan);
        match o {
          case Fail(e) => return Err(e);
          case Pass =>
        }
      }
      r := Ok(loan.(investments := loan.investments + [row]));
    }

    /** Disburses an invested loan, recording the signed agreement, who handed it over and when. */
    method DisburseLoan(loanId: Id, agreementUrl: string, employeeId: string, disbursementDate: Timestamp,
                        disbursementId: Id, now: Timestamp) returns (r: Result<Loan>)
      requires Valid()
      modifies repo
      ensures Valid()
      ensures Step(r, repo.Snapshot())
           == Disburse(old(repo.Snapshot()), loanId, agreementUrl, employeeId, disbursementDate, disbursementId, now)
    {
      ghost var before := repo.Snapshot();
      LifecycleProperties.DisbursePreservesConsistency(before, loanId, agreementUrl, employeeId, disbursementDate, disbursementId, now);
      var got := repo.GetLoanByID(loanId);
      var loan: Loan;
      match got {
        case Err(e) => return Err(e);
        case Ok(l) => loan := l;
      }
      if loan.state != Invested {
        return Err(InvalidState(loan.state, Invested));
      }
      if loan.disbursement.Some? {
        return Err(AlreadyDisbursed);
      }
      var disbursement := Disbursement(disbursementId, loan.id, agreementUrl, employeeId, disbursementDate, now);
      loan := loan.(state := Disbursed, updatedAt := now);
      var o := repo.CreateDisbursement(disbursement);
      match o {
        case Fail(e) => return Err(e);
        case Pass =>
      }
      o := repo.UpdateLoan(loan);
      match o {
        case Fail(e) => return Err(e);
        case Pass =>
      }
      r := Ok(loan.(disbursement := Some(disbursement)));
    }

    /** Every loan with its records, each exactly once; each is a consistent aggregate. */
    method ListLoans() returns (r: seq<Loan>)
      requires Valid()
      ensures |r| == |repo.loans|
      ensures forall i :: 0 <= i < |r| ==> r[i].id in repo.loans && r[i] == Preloaded(repo.Snapshot(), r[i].id)
      ensures forall i, j :: 0 <= i < j < |r| ==> r[i].id != r[j].id
      ensures forall id :: id in repo.loans ==> exists i :: 0 <= i < |r| && r[i].id == id
      ensures forall i :: 0 <= i < |r| ==> AggregateConsistent(r[i])
    {
      r := repo.ListLoans();
      forall i | 0 <= i < |r|
        ensures AggregateConsistent(r[i])
      {
        LifecycleProperties.PreloadedConsistent(repo.Snapshot(), r[i].id);
      }
    }

    /** The loan with its records, or NotFound; a found loan is a consistent aggregate. */
    method GetLoanByID(id: Id) returns (r: Result<Loan>)
      requires Valid()
      ensures r.Err? <==> id !in repo.loans
      ensures r.Err? ==> r.error == NotFound
      ensures r.Ok? ==> r.value == Preloaded(repo.Snapshot(), id) && r.value.id == id
      ensures r.Ok? ==> AggregateConsistent(r.value)
    {
      r := repo.GetLoanByID(id);
      if r.Ok? {
        LifecycleProperties.PreloadedConsistent(repo.Snapshot(), id);
      }
    }
  }
}
