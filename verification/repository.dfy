/**
  The persistence port of the loan service, as an in-memory store.
  The five tables are: loans (own columns only), approvals and disbursements
  (at most one per loan, so keyed by loan id), investors (keyed by id) and
  investments (an append-only list, in insertion order). Reading a loan
  assembles the aggregate from the tables, as preloading does.
 */
module Repository {
  import opened Domain
  import Ledger

  datatype Db = Db(
    loans: map<Id, Loan>,
    approvals: map<Id, Approval>,
    investors: map<Id, Investor>,
    investments: seq<Investment>,
    disbursements: map<Id, Disbursement>)

  const Empty: Db := Db(map[], map[], map[], [], map[])

  /** A loan as the loans table holds it: its own columns, no attached records. */
  predicate IsRow(loan: Loan)
  {
    loan.approval.None? && loan.investments == [] && loan.disbursement.None?
  }

  /** The columns of `loan` that the loans table stores. */
  function Row(loan: Loan): Loan
  {
    loan.(approval := None, investments := [], disbursement := None)
  }

  function Lookup<V>(m: map<Id, V>, k: Id): Option<V>
  {
    if k in m then Some(m[k]) else None
  }

  /**
    What the tables' keys and constraints guarantee: every row is stored under
    its own id, approvals and disbursements under the loan they belong to,
    and approvals, investments and disbursements refer to an existing loan.
   */
  ghost predicate WellFormed(db: Db)
  {
    && (forall id :: id in db.loans ==> db.loans[id].id == id && IsRow(db.loans[id]))
    && (forall id :: id in db.approvals ==> id in db.loans && db.approvals[id].loanId == id)
    && (forall id :: id in db.disbursements ==> id in db.loans && db.disbursements[id].loanId == id)
    && (forall id :: id in db.investors ==> db.investors[id].id == id)
    && (forall i :: 0 <= i < |db.investments| ==> db.investments[i].loanId in db.loans)
  }

  /** The loan `id` with its approval, its investments and its disbursement attached. */
  function Preloaded(db: Db, id: Id): (loan: Loan)
    requires id in db.loans
  {
    db.loans[id].(
      approval := Lookup(db.approvals, id),
      investments := Ledger.ForLoan(db.investments, id),
      disbursement := Lookup(db.disbursements, id))
  }

  /** Some investor whose email is `email`, or None when there is none. */
  ghost function FindByEmail(investors: map<Id, Investor>, email: string): (r: Option<Investor>)
    ensures r.None? <==> forall id :: id in investors ==> investors[id].email != email
    ensures r.Some? ==> r.value in investors.Values && r.value.email == email
  {
    if exists id :: id in investors && investors[id].email == email then
      var id :| id in investors && investors[id].email == email;
      Some(investors[id])
    else
      None
  }

  class LoanStore {
    var loans: map<Id, Loan>
    var approvals: map<Id, Approval>
    var investors: map<Id, Investor>
    var investments: seq<Investment>
    var disbursements: map<Id, Disbursement>

    /** The contents of all five tables. */
    function Snapshot(): Db
      reads this
    {
      Db(loans, approvals, investors, investments, disbursements)
    }

    ghost predicate Valid()
      reads this
    {
      WellFormed(Snapshot())
    }

    constructor ()
      ensures Valid() && Snapshot() == Empty
    {
      loans, approvals, investors, investments, disbursements := map[], map[], map[], [], map[];
    }

    /** Inserts a loan; its id is the primary key. */
    method CreateLoan(loan: Loan) returns (o: Outcome)
      requires Valid()
      modifies this
      ensures Valid()
      ensures o == (if loan.id in old(loans) then Fail(ConstraintViolation) else Pass)
      ensures Snapshot() == if o.Fail? then old(Snapshot())
                            else old(Snapshot()).(loans := old(loans)[loan.id := Row(loan)])
    {
      if loan.id in loans {
        return Fail(ConstraintViolation);
      }
      loans := loans[loan.id := Row(loan)];
      o := Pass;
    }

    /** The loan with its attached records, or NotFound. */
    method GetLoanByID(id: Id) returns (r: Result<Loan>)
      requires Valid()
      ensures r.Err? <==> id !in loans
      ensures r.Err? ==> r.error == NotFound
      ensures r.Ok? ==> r.value == Preloaded(Snapshot(), id) && r.value.id == id
      ensures r.Ok? ==> forall i :: 0 <= i < |r.value.investments| ==> r.value.investments[i].loanId == id
    {
      if id !in loans {
        return Err(NotFound);
      }
      r := Ok(Preloaded(Snapshot(), id));
    }

    /** Saves the loan's own columns, inserting the row when its id is new. */
    method UpdateLoan(loan: Loan) returns (o: Outcome)
      requires Valid()
      modifies this
      ensures Valid()
      ensures o == Pass
      ensures Snapshot() == old(Snapshot()).(loans := old(loans)[loan.id := Row(loan)])
    {
      loans := loans[loan.id := Row(loan)];
      o := Pass;
    }

    /** Every loan with its attached records, each exactly once. */
    method ListLoans() returns (r: seq<Loan>)
      requires Valid()
      ensures |r| == |loans|
      ensures forall i :: 0 <= i < |r| ==> r[i].id in loans && r[i] == Preloaded(Snapshot(), r[i].id)
      ensures forall i, j :: 0 <= i < j < |r| ==> r[i].id != r[j].id
      ensures forall id :: id in loans ==> exists i :: 0 <= i < |r| && r[i].id == id
    {
      var remaining := loans.Keys;
      r := [];
      while remaining != {}
        invariant remaining <= loans.Keys
        invariant |r| + |remaining| == |loans|
        invariant forall i :: 0 <= i < |r| ==>
          r[i].id in loans && r[i].id !in remaining && r[i] == Preloaded(Snapshot(), r[i].id)
        invariant forall i, j :: 0 <= i < j < |r| ==> r[i].id != r[j].id
        invariant forall id :: id in loans && id !in remaining ==> exists i :: 0 <= i < |r| && r[i].id == id
        decreases remaining
      {
        var id :| id in remaining;
        var loan := Preloaded(Snapshot(), id);
        assert loan.id == id;
        ghost var listed := r;
        r := r + [loan];
        remaining := remaining - {id};
        forall k | k in loans && k !in remaining
          ensures exists i :: 0 <= i < |r| && r[i].id == k
        {
          if k == id {
            assert r[|r| - 1].id == k;
          } else {
            var i :| 0 <= i < |listed| && listed[i].id == k;
            assert r[i].id == k;
          }
        }
      }
    }

    /** Inserts an approval; at most one per loan, and the loan must exist. */
    method CreateApproval(a: Approval) returns (o: Outcome)
      requires Valid()
      modifies this
      ensures Valid()
      ensures o == (if a.loanId in old(approvals) || a.loanId !in old(loans) then Fail(ConstraintViolation) else Pass)
      ensures Snapshot() == if o.Fail? then old(Snapshot())
                            else old(Snapshot()).(approvals := old(approvals)[a.loanId := a])
    {
      if a.loanId in approvals || a.loanId !in loans {
        return Fail(ConstraintViolation);
      }
      approvals := approvals[a.loanId := a];
      o := Pass;
    }

    /** Appends an investment row; the loan must exist. */
    method CreateInvestment(inv: Investment) returns (o: Outcome)
      requires Valid()
      modifies this
      ensures Valid()
      ensures o == (if inv.loanId !in old(loans) then Fail(ConstraintViolation) else Pass)
      ensures Snapshot() == if o.Fail? then old(Snapshot())
                            else old(Snapshot()).(investments := old(investments) + [inv])
    {
      if inv.loanId !in loans {
        return Fail(ConstraintViolation);
      }
      investments := investments + [inv];
      o := Pass;
    }

    /** An investor with this email, or None (not an error) when no investor has it. */
    method FindInvestorByEmail(email: string) returns (r: Option<Investor>)
      requires Valid()
      ensures r.None? <==> forall id :: id in investors ==> investors[id].email != email
      ensures r.Some? ==> r.value.id in investors && investors[r.value.id] == r.value && r.value.email == email
    {
      if exists id :: id in investors && investors[id].email == email {
        var id :| id in investors && investors[id].email == email;
        r := Some(investors[id]);
      } else {
        r := None;
      }
    }

    /** Inserts a disbursement; at most one per loan, and the loan must exist. */
    method CreateDisbursement(d: Disbursement) returns (o: Outcome)
      requires Valid()
      modifies this
      ensures Valid()
      ensures o == (if d.loanId in old(disbursements) || d.loanId !in old(loans) then Fail(ConstraintViolation) else Pass)
      ensures Snapshot() == if o.Fail? then old(Snapshot())
                            else old(Snapshot()).(disbursements := old(disbursements)[d.loanId := d])
    {
      if d.loanId in disbursements || d.loanId !in loans {
        return Fail(ConstraintViolation);
      }
      disbursements := disbursements[d.loanId := d];
      o := Pass;
    }

    /** The sum of the amounts of the loan's investments; 0 when it has none. */
    method GetTotalInvested(loanId: Id) returns (total: Amount)
      requires Valid()
      ensures total == Ledger.Sum(Ledger.ForLoan(investments, loanId))
      ensures (forall i :: 0 <= i < |investments| ==> investments[i].loanId != loanId) ==> total == 0
    {
      total := Ledger.TotalInvested(investments, loanId);
      if forall i :: 0 <= i < |investments| ==> investments[i].loanId != loanId {
        NoRowsNoTotal(investments, loanId);
      }
    }

    /** The investor with this id, or NotFound. */
    method GetInvestorByID(id: Id) returns (r: Result<Investor>)
      requires Valid()
      ensures r.Err? <==> id !in investors
      ensures r.Err? ==> r.error == NotFound
      ensures r.Ok? ==> r.value == investors[id] && r.value.id == id
    {
      if id !in investors {
        return Err(NotFound);
      }
      r := Ok(investors[id]);
    }

    /** Inserts an investor; its id is the primary key. */
    method CreateInvestor(inv: Investor) returns (o: Outcome)
      requires Valid()
      modifies this
      ensures Valid()
      ensures o == (if inv.id in old(investors) then Fail(ConstraintViolation) else Pass)
      ensures Snapshot() == if o.Fail? then old(Snapshot())
                            else old(Snapshot()).(investors := old(investors)[inv.id := inv])
    {
      if inv.id in investors {
        return Fail(ConstraintViolation);
      }
      investors := investors[inv.id := inv];
      o := Pass;
    }
  }

  /** A loan with no rows in the table has no rows of its own, and total 0. */
  lemma {:induction false} NoRowsNoTotal(table: seq<Investment>, loanId: Id)
    requires forall i :: 0 <= i < |table| ==> table[i].loanId != loanId
    ensures Ledger.ForLoan(table, loanId) == []
    ensures Ledger.TotalInvested(table, loanId) == 0
  {
    if table != [] {
      NoRowsNoTotal(table[1..], loanId);
    }
  }
}
