# Loan service: lifecycle and investment ledger

This project is a Dafny model of the core of a loan engine. A loan is proposed by a
borrower. An employee approves it. Investors then fund it through one or more
contributions. Once it is fully funded it is disbursed. The states only move forward:
proposed, approved, invested, disbursed.

The model has five modules:

- `Domain` (`domain.dfy`) defines the four states and their order, the loan aggregate
  with its records (approval, investments, disbursement, investors), and the errors.
- `Ledger` (`ledger.dfy`) defines the investments table, the rows of one loan, and
  their total. A total is never cached; it is always the sum of the rows.
- `Repository` (`repository.dfy`) is the persistence port, as an in-memory store.
  - Class `LoanStore` holds five tables. Loans hold only their own columns. Approvals
    and disbursements are keyed by loan id, because each loan has at most one.
    Investors are keyed by id. Investments are an append-only list.
  - `Preloaded` assembles a loan with its records, as the preloading read does. It
    lists the loan's investments in insertion order.
  - The store's methods are the eleven operations of the repository interface.
- `Lifecycle` (`lifecycle.dfy`) states each service operation as a function from the
  store before the call to a `Step`: the result and the store after it.
  - The guards appear in the order the service checks them.
  - The invariant `Consistent` relates each loan to its records:
    - a loan is past proposed exactly when it has an approval;
    - it is disbursed exactly when it has a disbursement;
    - its total never exceeds its principal;
    - an invested or disbursed loan is funded exactly;
    - non-empty investor emails are unique.
- `LifecycleProperties` (`lifecycle_properties.dfy`) proves:
  - every operation keeps `Consistent`;
  - states never move backwards along any sequence of requests;
  - the error cases and the exact writes of each operation;
  - the funding cap and exact-equality promotion;
  - investor resolution by id, by email or by creation.
- `Service` (`loan_service.dfy`) is class `LoanService`. Its methods call the store in
  the order the service does. Each is proved to have exactly the effect of the matching
  `Lifecycle` function, so each keeps the store consistent.

Fresh identifiers (UUIDs) and the current instant are parameters of each operation.
One instant `now` stands for all clock reads within one call.

The guard order has consequences that are easy to miss:

- A second approval of an approved loan fails with `InvalidState(Approved, Proposed)`,
  not `AlreadyApproved`, because the state is checked first.
- A second disbursement likewise fails with `InvalidState(Disbursed, Invested)`.
- `AlreadyApproved` and `AlreadyDisbursed` can only arise from a store whose records
  disagree with the loan's state. `ApproveOutcome` and `DisburseOutcome` prove they
  never arise from a consistent store.

## Model

| member | source | states |
|---|---|---|
| Domain.Name | internal/domain/loan.go:13-25 | The string each state is stored and reported as: proposed, approved, invested, disbursed |
| Domain.Rank | internal/domain/loan.go:7-25 | The four states are totally ordered; proposed is the least and disbursed the last |
| Domain.Next | internal/domain/loan.go:7-25 | Every state but disbursed has exactly one successor, one rank higher |
| Domain.NameInjective | internal/domain/loan.go:13-25 | The stored names of distinct states are distinct |
| Domain.RankOrder | internal/domain/loan.go:7-10 | A forward step never lowers the rank, raises it by at most one, and two states that each step forward to the other are equal |
| Ledger.Sum | internal/repository/loan_repository.go:96-105 | The sum of the amounts of a list of investment rows, 0 for none |
| Ledger.TotalInvested | internal/repository/loan_repository.go:94-106 | The total invested in a loan: the sum over the rows whose loan id matches, 0 when there are none |
| Ledger.ForLoan | internal/repository/loan_repository.go:94-106 | The rows of a loan, in insertion order: table rows belonging to that loan, never more than the table holds |
| Ledger.SumAppend | internal/service/loan_service.go:184 | Appending an investment adds its amount to the sum |
| Ledger.SumPositive | internal/repository/loan_repository.go:94-106 | A sum of positive amounts is non-negative, and zero exactly when there are no rows |
| Ledger.ForLoanAppend | internal/repository/loan_repository.go:78-84 | Appending a row to the table appends it to its own loan's rows and to no other loan's |
| Ledger.TotalAppend | internal/service/loan_service.go:164-185 | Recording an investment raises its own loan's total by the amount and leaves every other total unchanged |
| Ledger.ForLoanPositive | internal/service/loan_service.go:118-120 | Rows of one loan taken from a table of positive amounts are positive |
| Repository.WellFormed | internal/domain/loan.go:36-37 | What the keys and constraints guarantee: each loan and investor stored under its own id, at most one approval and one disbursement per loan, each under its loan, and every approval, investment and disbursement referring to an existing loan |
| Repository.Preloaded | internal/repository/loan_repository.go:34-47 | A stored loan with its approval, its investments and its disbursement attached |
| Repository.FindByEmail | internal/repository/loan_repository.go:131-144 | None exactly when no investor has the email; otherwise a stored investor with that email |
| Repository.NoRowsNoTotal | internal/repository/loan_repository.go:94-106 | A loan with no investment rows has an empty ledger and total 0 |
| Repository.LoanStore.constructor | internal/repository/loan_repository.go:19-24 | A new store is empty and well-formed |
| Repository.LoanStore.CreateLoan | internal/repository/loan_repository.go:26-32 | Inserts the loan's row; fails with ConstraintViolation and writes nothing when the id is taken |
| Repository.LoanStore.GetLoanByID | internal/repository/loan_repository.go:34-47 | NotFound exactly for an unknown id; otherwise the loan with its approval, its own investments (in insertion order) and its disbursement |
| Repository.LoanStore.UpdateLoan | internal/repository/loan_repository.go:49-55 | Saves the loan's own columns under its id and changes no other table |
| Repository.LoanStore.ListLoans | internal/repository/loan_repository.go:57-68 | Every stored loan exactly once, each preloaded with its records |
| Repository.LoanStore.CreateApproval | internal/repository/loan_repository.go:70-76 | Adds the approval; fails and writes nothing when the loan already has one or does not exist |
| Repository.LoanStore.CreateInvestment | internal/repository/loan_repository.go:78-84 | Appends the row; fails and writes nothing when its loan does not exist |
| Repository.LoanStore.CreateDisbursement | internal/repository/loan_repository.go:86-92 | Adds the disbursement; fails and writes nothing when the loan already has one or does not exist |
| Repository.LoanStore.GetTotalInvested | internal/repository/loan_repository.go:94-106 | The sum of the loan's rows, and 0 when it has none |
| Repository.LoanStore.CreateInvestor | internal/repository/loan_repository.go:113-119 | Adds the investor; fails and writes nothing when the id is taken |
| Repository.LoanStore.GetInvestorByID | internal/repository/loan_repository.go:121-129 | NotFound exactly for an unknown id; otherwise the stored investor |
| Repository.LoanStore.FindInvestorByEmail | internal/repository/loan_repository.go:131-144 | None (not an error) exactly when no investor has the email; otherwise a stored investor with it |
| Lifecycle.Consistent | internal/service/loan_service.go:67-236 | The invariant the service keeps: well-formed tables, positive amounts, investments by existing investors, unique non-empty emails, and each loan's state matching its approval, disbursement and total (at most the principal, exactly the principal once invested or disbursed) |
| Lifecycle.Create | internal/service/loan_service.go:54-65 | A new proposed loan with the fresh id and instant, stored as a row; ConstraintViolation when the id is taken. A failure writes nothing, and success adds exactly the new id |
| Lifecycle.Approve | internal/service/loan_service.go:73-107 | NotFound, then InvalidState(state, proposed), then AlreadyApproved; otherwise one approval stored under the loan and the loan set to approved, returning the loan with its approval. A failure writes nothing |
| Lifecycle.ResolveInvestor | internal/service/loan_service.go:134-163 | The investor named by id (NotFound if absent); else one with the non-empty email; else a new investor with the fresh id, refused with ConstraintViolation if that id is taken. A reused investor is a stored one |
| Lifecycle.Invest | internal/service/loan_service.go:117-200 | InvalidAmount, NotFound, AlreadyFunded, InvalidState(state, approved), then investor resolution, then OverFunding(total, amount, principal); otherwise one row appended and the loan set to invested when the total reaches the principal. A refusal changes no loan, row, approval or disbursement, and keeps a created investor |
| Lifecycle.Disburse | internal/service/loan_service.go:207-236 | NotFound, then InvalidState(state, invested), then AlreadyDisbursed; otherwise one disbursement stored under the loan and the loan set to disbursed, returning the loan with its disbursement. A failure writes nothing |
| LifecycleProperties.PreloadedRow | internal/repository/loan_repository.go:34-47 | A preloaded loan has the stored row's id, state and principal, and stripping its records gives the stored row |
| LifecycleProperties.UnknownLoanHasNoRows | internal/service/loan_service.go:51-65 | In a well-formed store a loan id not yet used has no investment rows, so a new loan starts with an empty ledger |
| LifecycleProperties.AddInvestorKeepsEmailsUnique | internal/service/loan_service.go:142-162 | Adding an investor whose email is empty or unused keeps non-empty emails unique |
| LifecycleProperties.LoansUnchangedConsistent | internal/service/loan_service.go:152-162 | Adding an investor alone keeps every loan consistent |
| LifecycleProperties.SameLoanView | internal/service/loan_service.go:164-199 | A loan whose row, ledger, approval and disbursement are unchanged stays consistent |
| LifecycleProperties.CreatePreservesConsistency | internal/service/loan_service.go:54-65 | Creating a loan keeps the store consistent |
| LifecycleProperties.ApprovePreservesConsistency | internal/service/loan_service.go:73-107 | Approving keeps the store consistent |
| LifecycleProperties.DisbursePreservesConsistency | internal/service/loan_service.go:207-236 | Disbursing keeps the store consistent |
| LifecycleProperties.ResolvedInvestorStored | internal/service/loan_service.go:134-163 | The investor an investment resolves to exists afterwards, under its own id; a created one is new and keeps emails unique |
| LifecycleProperties.RecordInvestmentPreservesConsistency | internal/service/loan_service.go:172-195 | Appending a positive row within the principal, and promoting the loan exactly at the principal, keeps the store consistent |
| LifecycleProperties.InvestPreservesConsistency | internal/service/loan_service.go:117-200 | Investing keeps the store consistent on every path, including refusals after an investor was created |
| LifecycleProperties.InvestStore | internal/service/loan_service.go:134-195 | The exact store after investor resolution: the investor added if created, then the row appended and the loan promoted, or nothing more on over-funding |
| LifecycleProperties.ResolvedStoreConsistent | internal/service/loan_service.go:134-163 | The store with a newly resolved investor added is still consistent |
| LifecycleProperties.InvestAfterResolution | internal/service/loan_service.go:164-199 | Once the investor is resolved, the rest of an investment keeps the store consistent |
| LifecycleProperties.ApplyPreservesConsistency | internal/service/loan_service.go:51-236 | Every service request keeps the store consistent |
| LifecycleProperties.ApplyMovesForward | internal/domain/loan.go:7-10 | No request removes a loan or moves its state other than one step forward |
| LifecycleProperties.RunKeepsInvariants | internal/domain/loan.go:7-10 | Along any sequence of requests the store stays consistent, no loan disappears and no state moves backwards |
| LifecycleProperties.FundingCap | internal/service/loan_service.go:164-171 | A loan's total never exceeds its principal; an invested or disbursed loan is funded exactly and positively; an approved loan is not yet fully funded |
| LifecycleProperties.CreateOutcome | internal/service/loan_service.go:54-65 | The new loan is proposed, with the fresh id and instant and the input's other fields; it fails only on a taken id, writing nothing |
| LifecycleProperties.ApproveOutcome | internal/service/loan_service.go:73-107 | Success exactly for a proposed loan; NotFound and InvalidState otherwise, writing nothing; on success one approval with the given details, state approved, and the result equal to a fresh read |
| LifecycleProperties.DisburseOutcome | internal/service/loan_service.go:207-236 | Success exactly for an invested loan; NotFound and InvalidState otherwise, writing nothing; on success one disbursement with the given details, state disbursed, and the result equal to a fresh read |
| LifecycleProperties.ApproveGuardOrder | internal/service/loan_service.go:78-85 | On any store, the state is checked before an existing approval; only a proposed loan that already has one gets AlreadyApproved |
| LifecycleProperties.DisburseGuardOrder | internal/service/loan_service.go:212-217 | On any store, the state is checked before an existing disbursement; only an invested loan that already has one gets AlreadyDisbursed |
| LifecycleProperties.SecondApprovalRefused | internal/service/loan_service.go:78-81 | Approving a loan just approved is refused with InvalidState(approved, proposed) and writes nothing |
| LifecycleProperties.SecondDisbursementRefused | internal/service/loan_service.go:212-214 | Disbursing a loan just disbursed is refused with InvalidState(disbursed, invested) and writes nothing |
| LifecycleProperties.InvestGuards | internal/service/loan_service.go:118-132 | The investment guards in order: non-positive amount, missing loan, fully funded loan, any other non-approved state; each writes nothing |
| LifecycleProperties.InvestResolvesInvestor | internal/service/loan_service.go:134-163 | A given investor id must exist (NotFound otherwise); with no id, an investor with the same non-empty email is reused; otherwise exactly one new investor is added and it stays |
| LifecycleProperties.OverFundingRefused | internal/service/loan_service.go:164-171 | An amount that would take the total past the principal is refused with the total, amount and principal; no row and no loan changes |
| LifecycleProperties.InvestRecords | internal/service/loan_service.go:172-199 | Success appends exactly one row; the total grows by the amount within the principal; the loan is invested exactly when the total equals the principal; the result lists the earlier investments then the new one |
| LifecycleProperties.SameEmailSameInvestor | internal/service/loan_service.go:142-151 | Two investments with no investor id and the same non-empty email are made by the same investor, and the second creates none |
| LifecycleProperties.InvestByEmail | internal/service/loan_service.go:142-163 | A successful investment by email is made by an investor with that email, who can then be found by it |
| LifecycleProperties.ExactFundingScenario | internal/service/loan_service.go:169-187 | On principal 1000, 400 leaves the loan approved, a further 600 makes it invested, and 700 instead is refused as OverFunding(400, 700, 1000) |
| LifecycleProperties.LifecycleScenario | internal/service/loan_service.go:51-236 | From an empty store a loan of 5,000,000 is created, approved, funded by two new investors and disbursed |
| LifecycleProperties.PreloadedConsistent | internal/domain/loan.go:27-49 | Every loan read from a consistent store is a consistent aggregate |
| LifecycleProperties.EmailMatchIsUnique | internal/repository/loan_repository.go:131-144 | With unique emails, any investor found by a non-empty email is the one `FindByEmail` picks |
| Service.LoanService.constructor | internal/service/loan_service.go:39-42 | The service wraps the given consistent store |
| Service.LoanService.CreateLoan | internal/service/loan_service.go:51-65 | Exactly Lifecycle.Create, and the store stays consistent |
| Service.LoanService.ApproveLoan | internal/service/loan_service.go:67-107 | Exactly Lifecycle.Approve, and the store stays consistent |
| Service.LoanService.InvestInLoan | internal/service/loan_service.go:109-200 | Exactly Lifecycle.Invest, and the store stays consistent |
| Service.LoanService.DisburseLoan | internal/service/loan_service.go:202-236 | Exactly Lifecycle.Disburse, and the store stays consistent |
| Service.LoanService.ListLoans | internal/service/loan_service.go:238-248 | Every loan exactly once, preloaded, each a consistent aggregate |
| Service.LoanService.GetLoanByID | internal/service/loan_service.go:250-258 | NotFound exactly for an unknown id; otherwise the preloaded loan, a consistent aggregate |

## Left out

- The HTTP handlers, configuration, database connection and start-up are not part of this model.
- Money, the interest rate and the return on investment are float64 in the source and `int` here.
  Amounts are whole minor units. Rounding, and an exact total that float addition would miss, are
  not modelled. Rate and return on investment are only carried, never computed with.
- UUID generation and the clock are parameters. One instant stands for each clock read in a call.
- The message printed when a loan becomes fully funded, standing in for investor emails, is not modelled.
- Contexts, cancellation and concurrent requests are not modelled. Two concurrent investments
  that both pass the over-funding check are outside the model.
- The store never fails except on the key and uniqueness constraints. Connection or other
  database errors, and the partial writes they would leave behind, are not modelled.
- `Repo()` is not a separate member. The store is the public constant field `repo` of `LoanService`.
- Repository.LoanStore.CreateLoan: stores only the loan's own columns. Records attached to the
  input are not inserted with it.
- Repository.Preloaded: the source's read attaches investments with no ordering, so their order
  on a read is unspecified. The model fixes insertion order. "Equal to a fresh read" in
  `ApproveOutcome`, `DisburseOutcome` and `InvestRecords` therefore holds only up to the order of
  the loan's investments.
- Repository.LoanStore.CreateApproval: does not refuse an approval whose own id is already taken.
  The approvals table is keyed by loan here, and the id is a fresh UUID.
- Repository.LoanStore.CreateInvestment: does not refuse an investment whose id is already taken.
  The source's primary key would fail that insert, and the service would return the error. The id
  is a fresh UUID.
- Repository.LoanStore.CreateDisbursement: does not refuse a disbursement whose own id is already
  taken. The source's primary key would fail that insert, and the service would return the error.
  The id is a fresh UUID.
- Repository.LoanStore.FindInvestorByEmail: returns some investor with the email, not the first
  by primary key. The service keeps non-empty emails unique, so at most one matches.
- The foreign key from an investment to its investor is not a store constraint here. It is part
  of the `Consistent` invariant instead.
