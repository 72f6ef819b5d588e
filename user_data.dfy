/** The per-user listings (src/handlers/user_data.rs): each reads one table through
    `query_as` into the model struct, keeps the authenticated principal's rows, orders
    them, and maps any storage or decoding failure to a 500 with an entity-specific
    message. None of them writes anything. */
module UserData {
  import opened Common
  import opened AccountModel
  import opened TransactionModel
  import opened LoanModel
  import opened LiabilityModel
  import AccountHandlers
  import TransactionHandlers
  import LoanHandlers
  import LiabilityHandlers
  import Tables

  // ---------------------------------------------------------------------------
  // Accounts: `SELECT * FROM accounts WHERE user_id = ? ORDER BY created_at DESC`

  function AccountId(a: Account): string { a.id }

  function AccountOwnedBy(principal: string): Account -> bool {
    (a: Account) => a.userId == principal
  }

  predicate AccountNewestFirst(a: Account, b: Account) {
    a.createdAt >= b.createdAt
  }

  lemma AccountNewestFirstIsOrder()
    ensures Tables.TotalPreorder(AccountNewestFirst)
  {
  }

  /** Whether some row the principal owns does not read back as an account. */
  predicate OwnsUnreadableAccount(rows: map<string, AccountHandlers.AccountRow>, principal: string) {
    exists id :: id in rows && rows[id].userId == principal && AccountHandlers.FromRow(rows[id]).None?
  }

  /** `get_user_accounts`: `fetch_all` decodes every row the principal owns, so one row
      whose type text does not decode turns the whole request into the 500 that a storage
      failure gives; otherwise exactly the principal's accounts, newest first. */
  method UserAccounts(accounts: AccountHandlers.AccountTable, principal: string, dbError: bool)
    returns (r: Reply<seq<Account>>)
    requires accounts.Valid()
    ensures r.Err? <==> dbError || OwnsUnreadableAccount(accounts.rows, principal)
    ensures r.Err? ==> r.status == Internal && r.error == "Failed to fetch accounts"
    ensures r.Ok? ==> Tables.IsListing(accounts.Accounts(), AccountId, AccountOwnedBy(principal),
                                       AccountNewestFirst, r.body)
    ensures r.Ok? ==> forall id :: id in accounts.rows && accounts.rows[id].userId == principal ==>
                        AccountHandlers.FromRow(accounts.rows[id]).Some? &&
                        AccountHandlers.FromRow(accounts.rows[id]).value in r.body
  {
    if dbError || OwnsUnreadableAccount(accounts.rows, principal) {
      return Err(Internal, "Failed to fetch accounts");
    }
    var m := accounts.Accounts();
    AccountNewestFirstIsOrder();
    var rs := Tables.SelectOrdered(m, AccountId, AccountOwnedBy(principal), AccountNewestFirst);
    r := Ok(rs);
    forall id | id in accounts.rows && accounts.rows[id].userId == principal
      ensures AccountHandlers.FromRow(accounts.rows[id]).Some? && AccountHandlers.FromRow(accounts.rows[id]).value in rs
    {
      assert id in m && AccountOwnedBy(principal)(m[id]);
    }
  }

  /** Where the program goes wrong: once `update_account` sets MobileBanking or CreditCard
      on a row, its owner's account listing is a 500 from then on. */
  lemma UnreadableUpdateBreaksListing(rows: map<string, AccountHandlers.AccountRow>, principal: string,
                                      id: string, p: UpdateAccountRequest, now: Time)
    requires id in rows && rows[id].userId == principal
    requires p.accountType.Some? && !AccountHandlers.WrittenReadable(p.accountType.value)
    ensures OwnsUnreadableAccount(rows[id := AccountHandlers.Patched(rows[id], p, now)], principal)
  {
    var q := AccountHandlers.Patched(rows[id], p, now);
    AccountHandlers.AsWrittenColumnDecodes(p.accountType.value);
    assert rows[id := q][id] == q && AccountHandlers.FromRow(q).None?;
  }

  /** With the corrected type column, no update can make a readable row unreadable. */
  lemma CorrectedUpdateKeepsRowReadable(r: AccountHandlers.AccountRow, p: UpdateAccountRequest, now: Time)
    requires AccountHandlers.FromRow(r).Some?
    ensures AccountHandlers.FromRow(AccountHandlers.Patched(r, p, now)
              .(accountType := if p.accountType.Some? then AccountHandlers.AccountTypeColumn(p.accountType.value)
                               else r.accountType)).Some?
  {
  }

  // ---------------------------------------------------------------------------
  // Transactions: `SELECT * FROM transactions WHERE user_id = ? ORDER BY date DESC`

  function TransactionId(t: Transaction): string { t.id }

  function TransactionOwnedBy(principal: string): Transaction -> bool {
    (t: Transaction) => t.userId == principal
  }

  predicate TransactionLatestFirst(a: Transaction, b: Transaction) {
    a.date >= b.date
  }

  lemma TransactionLatestFirstIsOrder()
    ensures Tables.TotalPreorder(TransactionLatestFirst)
  {
  }

  /** `get_user_transactions`: exactly the principal's transactions, latest date first. */
  method UserTransactions(transactions: TransactionHandlers.TransactionTable, principal: string, dbError: bool)
    returns (r: Reply<seq<Transaction>>)
    requires transactions.Valid()
    ensures r.Err? <==> dbError
    ensures r.Err? ==> r.status == Internal && r.error == "Failed to fetch transactions"
    ensures r.Ok? ==> Tables.IsListing(transactions.Transactions(), TransactionId, TransactionOwnedBy(principal),
                                       TransactionLatestFirst, r.body)
  {
    if dbError {
      return Err(Internal, "Failed to fetch transactions");
    }
    var m := transactions.Transactions();
    TransactionLatestFirstIsOrder();
    var rs := Tables.SelectOrdered(m, TransactionId, TransactionOwnedBy(principal), TransactionLatestFirst);
    r := Ok(rs);
  }

  // ---------------------------------------------------------------------------
  // Loans: `SELECT * FROM loans WHERE user_id = ? ORDER BY loan_date DESC`.
  // `Loan` has three fields the `loans` table has no column for, so decoding any row fails.

  /** Whether the principal owns at least one stored loan. */
  predicate OwnsSomeLoan(rows: map<string, LoanHandlers.LoanRow>, principal: string) {
    exists id :: id in rows && rows[id].userId == principal
  }

  /** `get_user_loans` as written: with no row to decode the listing is empty; as soon as
      the principal owns one loan, decoding it fails and the whole request is a 500. */
  function UserLoansAsWritten(rows: map<string, LoanHandlers.LoanRow>, principal: string, dbError: bool)
    : (r: Reply<seq<Loan>>)
    ensures r.Ok? <==> !dbError && !OwnsSomeLoan(rows, principal)
    ensures r.Ok? ==> r.body == []
    ensures r.Err? ==> r.status == Internal && r.error == "Failed to fetch loans"
  {
    if dbError || OwnsSomeLoan(rows, principal) then Err(Internal, "Failed to fetch loans") else Ok([])
  }

  /** A stored loan read with the missing columns at their defaults: not historical, no links. */
  function ReadLoan(r: LoanHandlers.LoanRow): Loan {
    Loan(r.id, r.userId, r.personName, r.amount, r.currency, r.loanDate, r.returnDate, r.isReturned,
         r.description, r.createdAt, r.updatedAt, false, None, None)
  }

  /** The loans table read back with `ReadLoan`, under the same keys. */
  function LoansRead(rows: map<string, LoanHandlers.LoanRow>): (m: map<string, Loan>)
    ensures m.Keys == rows.Keys
    ensures forall id :: id in m ==> m[id] == ReadLoan(rows[id])
  {
    map id | id in rows :: ReadLoan(rows[id])
  }

  function LoanId(l: Loan): string { l.id }

  function LoanOwnedBy(principal: string): Loan -> bool {
    (l: Loan) => l.userId == principal
  }

  predicate LatestLoanFirst(a: Loan, b: Loan) {
    a.loanDate >= b.loanDate
  }

  lemma LatestLoanFirstIsOrder()
    ensures Tables.TotalPreorder(LatestLoanFirst)
  {
  }

  /** `get_user_loans` as intended: exactly the principal's loans, latest loan date first. */
  method UserLoans(loans: LoanHandlers.LoanTable, principal: string, dbError: bool)
    returns (r: Reply<seq<Loan>>)
    requires loans.Valid()
    ensures r.Err? <==> dbError
    ensures r.Err? ==> r.status == Internal && r.error == "Failed to fetch loans"
    ensures r.Ok? ==> Tables.IsListing(LoansRead(loans.rows), LoanId, LoanOwnedBy(principal),
                                       LatestLoanFirst, r.body)
  {
    if dbError {
      return Err(Internal, "Failed to fetch loans");
    }
    var m := LoansRead(loans.rows);
    LatestLoanFirstIsOrder();
    var rs := Tables.SelectOrdered(m, LoanId, LoanOwnedBy(principal), LatestLoanFirst);
    r := Ok(rs);
  }

  /** Where the two differ: a principal who owns a loan gets a 500 from the handler as
      written, while the intended listing holds that loan. */
  lemma LoansAsWrittenLoseOwnedRows(rows: map<string, LoanHandlers.LoanRow>, principal: string,
                                    id: string, rs: seq<Loan>)
    requires id in rows && rows[id].userId == principal
    requires Tables.IsListing(LoansRead(rows), LoanId, LoanOwnedBy(principal), LatestLoanFirst, rs)
    ensures UserLoansAsWritten(rows, principal, false).Err?
    ensures ReadLoan(rows[id]) in rs
  {
    assert LoanOwnedBy(principal)(LoansRead(rows)[id]);
  }

  // ---------------------------------------------------------------------------
  // Liabilities: `SELECT * FROM liabilities WHERE user_id = ? ORDER BY due_date ASC`,
  // with the same three missing columns.

  /** Whether the principal owns at least one stored liability. */
  predicate OwnsSomeLiability(rows: map<string, LiabilityHandlers.LiabilityRow>, principal: string) {
    exists id :: id in rows && rows[id].userId == principal
  }

  /** `get_user_liabilities` as written: empty when the principal owns nothing, a 500 otherwise. */
  function UserLiabilitiesAsWritten(rows: map<string, LiabilityHandlers.LiabilityRow>, principal: string,
                                    dbError: bool): (r: Reply<seq<Liability>>)
    ensures r.Ok? <==> !dbError && !OwnsSomeLiability(rows, principal)
    ensures r.Ok? ==> r.body == []
    ensures r.Err? ==> r.status == Internal && r.error == "Failed to fetch liabilities"
  {
    if dbError || OwnsSomeLiability(rows, principal) then Err(Internal, "Failed to fetch liabilities") else Ok([])
  }

  /** A stored liability read with the missing columns at their defaults. */
  function ReadLiability(r: LiabilityHandlers.LiabilityRow): Liability {
    Liability(r.id, r.userId, r.personName, r.amount, r.currency, r.dueDate, r.isPaid, r.description,
              r.createdAt, r.updatedAt, false, None, None)
  }

  /** Storing a liability and reading it back this way gives it back, except that the
      historical flag and the links come back at their defaults. */
  lemma ReadLiabilityAfterStore(l: Liability)
    ensures ReadLiability(LiabilityHandlers.ToRow(l)) == l.(isHistoricalEntry := false, accountId := None, transactionId := None)
    ensures LiabilityHandlers.ToRow(ReadLiability(LiabilityHandlers.ToRow(l))) == LiabilityHandlers.ToRow(l)
  {
  }

  /** The liabilities table read back with `ReadLiability`, under the same keys. */
  function LiabilitiesRead(rows: map<string, LiabilityHandlers.LiabilityRow>): (m: map<string, Liability>)
    ensures m.Keys == rows.Keys
    ensures forall id :: id in m ==> m[id] == ReadLiability(rows[id])
  {
    map id | id in rows :: ReadLiability(rows[id])
  }

  function LiabilityId(l: Liability): string { l.id }

  function LiabilityOwnedBy(principal: string): Liability -> bool {
    (l: Liability) => l.userId == principal
  }

  predicate SoonestDueFirst(a: Liability, b: Liability) {
    a.dueDate <= b.dueDate
  }

  lemma SoonestDueFirstIsOrder()
    ensures Tables.TotalPreorder(SoonestDueFirst)
  {
  }

  /** `get_user_liabilities` as intended: exactly the principal's liabilities, soonest due first. */
  method UserLiabilities(liabilities: LiabilityHandlers.LiabilityTable, principal: string, dbError: bool)
    returns (r: Reply<seq<Liability>>)
    requires liabilities.Valid()
    ensures r.Err? <==> dbError
    ensures r.Err? ==> r.status == Internal && r.error == "Failed to fetch liabilities"
    ensures r.Ok? ==> Tables.IsListing(LiabilitiesRead(liabilities.rows), LiabilityId, LiabilityOwnedBy(principal),
                                       SoonestDueFirst, r.body)
  {
    if dbError {
      return Err(Internal, "Failed to fetch liabilities");
    }
    var m := LiabilitiesRead(liabilities.rows);
    SoonestDueFirstIsOrder();
    var rs := Tables.SelectOrdered(m, LiabilityId, LiabilityOwnedBy(principal), SoonestDueFirst);
    r := Ok(rs);
  }

  /** Where the two differ: a principal who owns a liability gets a 500 from the handler as
      written, while the intended listing holds that liability. */
  lemma LiabilitiesAsWrittenLoseOwnedRows(rows: map<string, LiabilityHandlers.LiabilityRow>, principal: string,
                                          id: string, rs: seq<Liability>)
    requires id in rows && rows[id].userId == principal
    requires Tables.IsListing(LiabilitiesRead(rows), LiabilityId, LiabilityOwnedBy(principal), SoonestDueFirst, rs)
    ensures UserLiabilitiesAsWritten(rows, principal, false).Err?
    ensures ReadLiability(rows[id]) in rs
  {
    assert LiabilityOwnedBy(principal)(LiabilitiesRead(rows)[id]);
  }
}
