/**
  The investment ledger: the rows of the investments table, the rows that
  belong to one loan (in insertion order) and their total. The running total of
  a loan is never cached; it is always the sum over its rows.
 */
module Ledger {
  import opened Domain

  /** The sum of the amounts of `rows`. */
  function Sum(rows: seq<Investment>): Amount
  {
    if rows == [] then 0 else rows[0].amount + Sum(rows[1..])
  }

  /** The rows of `table` that belong to loan `loanId`, in insertion order. */
  function ForLoan(table: seq<Investment>, loanId: Id): (rows: seq<Investment>)
    ensures |rows| <= |table|
    ensures forall i :: 0 <= i < |rows| ==> rows[i].loanId == loanId && rows[i] in table
  {
    if table == [] then []
    else if table[0].loanId == loanId then [table[0]] + ForLoan(table[1..], loanId)
    else ForLoan(table[1..], loanId)
  }

  /** The total invested in loan `loanId`: 0 when it has no rows. */
  function TotalInvested(table: seq<Investment>, loanId: Id): Amount
  {
    Sum(ForLoan(table, loanId))
  }

  /** The most recently recorded row. */
  function Last(rows: seq<Investment>): Investment
    requires rows != []
  {
    rows[|rows| - 1]
  }

  predicate AllPositive(rows: seq<Investment>)
  {
    forall i :: 0 <= i < |rows| ==> rows[i].amount > 0
  }

  /** Appending a row adds its amount to the sum. */
  lemma {:induction false} SumAppend(rows: seq<Investment>, row: Investment)
    ensures Sum(rows + [row]) == Sum(rows) + row.amount
  {
    if rows == [] {
      assert rows + [row] == [row];
      assert [row][1..] == [];
    } else {
      assert (rows + [row])[1..] == rows[1..] + [row];
      SumAppend(rows[1..], row);
    }
  }

  /** Sums of positive amounts are 0 exactly for the empty list, and positive otherwise. */
  lemma {:induction false} SumPositive(rows: seq<Investment>)
    requires AllPositive(rows)
    ensures Sum(rows) >= 0
    ensures Sum(rows) == 0 <==> rows == []
  {
    if rows != [] {
      SumPositive(rows[1..]);
    }
  }

  /** Appending a row to the table appends it to the rows of its own loan, and to no other. */
  lemma {:induction false} ForLoanAppend(table: seq<Investment>, row: Investment, loanId: Id)
    ensures ForLoan(table + [row], loanId)
         == ForLoan(table, loanId) + (if row.loanId == loanId then [row] else [])
  {
    if table == [] {
      assert table + [row] == [row];
      assert [row][1..] == [];
    } else {
      assert (table + [row])[1..] == table[1..] + [row];
      ForLoanAppend(table[1..], row, loanId);
    }
  }

  /** Appending a row raises the total of its own loan by its amount and leaves every other total as it was. */
  lemma TotalAppend(table: seq<Investment>, row: Investment, loanId: Id)
    ensures TotalInvested(table + [row], loanId)
         == TotalInvested(table, loanId) + (if row.loanId == loanId then row.amount else 0)
  {
    ForLoanAppend(table, row, loanId);
    if row.loanId == loanId {
      SumAppend(ForLoan(table, loanId), row);
    } else {
      assert ForLoan(table, loanId) + [] == ForLoan(table, loanId);
    }
  }

  /** The rows of a loan taken from a table of positive amounts are positive too. */
  lemma ForLoanPositive(table: seq<Investment>, loanId: Id)
    requires AllPositive(table)
    ensures AllPositive(ForLoan(table, loanId))
  {
    var rows := ForLoan(table, loanId);
    forall i | 0 <= i < |rows|
      ensures rows[i].amount > 0
    {
      assert rows[i] in table;
    }
  }
}
