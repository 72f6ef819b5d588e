# Personal finance backend — a Dafny model

This project models the bookkeeping core of a personal-finance REST backend written in Rust on axum, sqlx and SQLite.
Authenticated users record the following entities:

- accounts, transactions, categories
- budgets, savings goals, recurring transactions
- liabilities (money they owe) and loans (money they lent)
- a display-currency preference

Most handlers run one parameterised SQL statement against one table. Signup and signin run a lookup and then an insert. The model states each handler as one step on a Dafny class.

**Tables.** Each table is a class holding `rows: map<string, Row>`, keyed by primary key.

- Create, update and delete are methods with `modifies this`. Their postconditions give the whole new table.
- Get is a function. Listing is a method built on `Tables.SelectOrdered`.
- `Tables.SelectOrdered` is a verified selection loop. It returns exactly the rows a `WHERE` clause keeps, each once, in `ORDER BY` order.
- Rows that tie on the sort key may come back in any order, which is why listing is a method.

**Inputs from outside.** These are parameters:

- the clock (`now`) and freshly generated ids;
- storage failures (`dbError`, `insertError`);
- password hashing and checking, token minting and token verification.

**Three families of handlers.**

- **Owner-scoped tables** (budgets, savings goals, recurring transactions):
  - Every statement is filtered by the authenticated principal, so another user's row behaves exactly like a missing one.
  - A taken id on create is a 409.
- **Legacy tables** (accounts, liabilities, loans, transactions, categories):
  - Statements match on `id` alone, and every create failure is a 500.
  - Loan creation always answers 501.
  - Transaction and category updates stamp no timestamp.
  - The owner-scoped handlers add `user_id = ?` to every statement. These handlers do not, and they take no authenticated principal at all (the `/accounts` routes in src/main.rs:91-92 have no authentication layer). So any caller, authenticated or not, reaches any row, and the model follows the code.
- **Per-user pieces:**
  - the owner-filtered listings of `user_data.rs`;
  - the preference upsert;
  - the `Authorization: Bearer` extractor;
  - signup, login and signin over the `users` table.

**Entity constructors.** These are pure functions that supply the server-side defaults:

- currency "BDT";
- period and frequency "monthly";
- priority "medium";
- the boolean defaults.

They come with:

- the credit-card display arithmetic;
- the liability due-date logic;
- the enum-to-column encodings;
- the dispatch order of the permissive date parser.

## Model

| member | source | states |
|---|---|---|
| Tables.SelectOrdered | src/handlers/budget.rs:66-68 | Returns every kept row exactly once, and no other, in an order that respects the `ORDER BY` preorder; shared by every listing below |
| Tables.LeastExists | src/handlers/budget.rs:66-68 | Any non-empty set of rows has a row that sorts first under a total preorder; this is what lets the selection loop progress |
| Common.Code | src/handlers/budget.rs:52-54 | Each status is its HTTP code: 400, 401, 404, 409, 500, 501 |
| Common.CoalesceNullable | src/handlers/savings_goal.rs:170 | `COALESCE(?, col)` on a nullable column: a supplied value replaces the stored one, an absent one keeps it, so a present value is never cleared |
| Common.LowerAscii | src/handlers/account.rs:18 | Lower-casing keeps the length and maps each character on its own |
| UserModel.NewUser | src/models/user.rs:58-67 | A new user has the fresh id, the given name, email and hash, and created_at == updated_at |
| UserModel.ToResponse | src/models/user.rs:45-55 | The profile sent to clients; ResponseDropsOnlyHash proves it drops the hash and nothing else |
| UserModel.ResponseDropsOnlyHash | src/models/user.rs:45-55 | The profile sent back keeps id, name, email and both stamps; adding the hash back gives the user |
| UserModel.ResponseIndependentOfHash | src/models/user.rs:34-55 | The profile does not depend on the password hash, so the hash never leaves through a response |
| AccountModel.NewAccount | src/models/account.rs:68-81 | Uses the request id or a fresh one; currency defaults to "BDT"; user_id is the argument; created_at == updated_at |
| AccountModel.AvailableCredit | src/models/account.rs:83-94 | limit + balance for a card with a limit, 0 for a card without one, 0 for every other type |
| AccountModel.UsedAmount | src/models/account.rs:96-101 | The negated balance for a card, 0 otherwise |
| AccountModel.DisplayBalance | src/models/account.rs:103-108 | Available credit for a card, the balance otherwise |
| AccountModel.CreditCardDisplay | src/models/account.rs:83-112 | is_credit_card holds exactly for CreditCard; a non-card shows its balance and has no credit figures |
| AccountModel.IsCreditCard | src/models/account.rs:110-112 | Holds exactly for the CreditCard type, as CreditCardDisplay states |
| AccountModel.DecodeAccountType | src/models/account.rs:24-45 | The sqlx decoder accepts only its per-variant rename and returns that variant |
| AccountModel.SqlxNameRoundTrip | src/models/account.rs:24-45 | Every variant's rename decodes back to that variant |
| BudgetModel.NewBudget | src/models/budget.rs:39-51 | Uses the request id or a fresh one; currency "BDT" and period "monthly" by default; category and amount copied; user_id is the argument; created_at == updated_at |
| SavingsGoalModel.NewSavingsGoal | src/models/savings_goal.rs:57-74 | current_amount starts at 0 and is_completed false whatever the request holds; priority "medium" and currency "BDT" by default; request id or fresh id |
| RecurringTransactionModel.NewRecurringTransaction | src/models/recurring_transaction.rs:70-90 | frequency "monthly", is_active true and currency "BDT" by default; start, end and next-due dates copied; request id or fresh id |
| LiabilityModel.NewLiability | src/models/liability.rs:60-77 | is_paid and is_historical_entry default to false; currency "BDT"; request id or fresh id; created_at == updated_at |
| LiabilityModel.WholeDays | src/models/liability.rs:83-89 | A span of seconds in whole days, truncated toward zero, with the bounds that define truncation on both signs |
| LiabilityModel.DaysUntilDue | src/models/liability.rs:83-89 | 0 for a paid liability; otherwise the whole days from now to the due date |
| LiabilityModel.IsOverdue | src/models/liability.rs:79-81 | Unpaid and due strictly before now; never true of a paid liability (PaidIsSettled) |
| LiabilityModel.PaidIsSettled | src/models/liability.rs:79-85 | A paid liability is never overdue and is due in 0 days |
| LiabilityModel.OverdueAndDays | src/models/liability.rs:79-89 | For an unpaid liability the day count is negative exactly when it is at least a day late, and a negative count means overdue; less than a day late is overdue with 0 days |
| LoanModel.NewLoan | src/models/loan.rs:64-82 | is_returned and is_historical_entry default to false; currency "BDT"; return date and links copied even when absent; request id or fresh id |
| TransactionModel.NewTransaction | src/models/transaction.rs:114-128 | Always a fresh id; currency "BDT" by default; an absent date is the same instant as created_at |
| TransactionModel.DecodeTransactionType | src/models/transaction.rs:24-34 | The decoder accepts exactly the lower-cased variant names |
| TransactionModel.TypeColumnRoundTrip | src/handlers/transaction.rs:17 | The stored type is "income", "expense" or "transfer" and reads back as the variant written |
| TransactionModel.TypeColumn | src/handlers/transaction.rs:17 | The lower-cased `Debug` name the handlers bind; TypeColumnRoundTrip proves it decodes to its variant |
| TransactionModel.FirstSuccess | src/models/transaction.rs:63-94 | The first present attempt, which exists exactly when some attempt succeeds, with every earlier attempt failed |
| TransactionModel.ParseOptionalDate | src/models/transaction.rs:50-99 | Null, absent and "" give no date; a rejection names the input in its message |
| TransactionModel.ParseIsFirstSuccess | src/models/transaction.rs:63-96 | The parser rejects a non-empty string exactly when all six attempts fail, and otherwise returns the first success in the fixed order |
| TransactionModel.IntegersAreMillisFirst | src/models/transaction.rs:68-79 | An integer string is read as milliseconds when that converts; seconds are tried only after the millisecond conversion failed |
| TransactionModel.SecondsAttemptNeverDecides | src/models/transaction.rs:68-79 | Under chrono's ranges the seconds attempt only succeeds where the millisecond attempt before it already did, so the parse is the first success of the other five attempts |
| TransactionModel.DateOnlyIsMidnight | src/models/transaction.rs:88-96 | A bare date no earlier format accepts is read at midnight UTC, or rejected |
| TransactionModel.CategoryNamesDistinct | src/models/transaction.rs:134-155 | The 5 income and 8 expense names are distinct, and no name is in both lists |
| TransactionModel.IncomeCategoryNames | src/models/transaction.rs:134-142 | The income category list has five names |
| TransactionModel.ExpenseCategoryNames | src/models/transaction.rs:144-155 | The expense category list has eight names |
| CategoryModel.NewCategory | src/models/category.rs:45-55 | Always a fresh id; is_default false unless requested; name, type, icon and colour copied |
| CategoryModel.DecodeCategoryType | src/models/category.rs:17-24 | The decoder accepts exactly "income" and "expense" |
| CategoryModel.IncomeDefaults | src/models/category.rs:61-100 | Four default income presets, each of type Income and marked default |
| CategoryModel.ExpenseDefaults | src/models/category.rs:102-159 | Six default expense presets, each of type Expense and marked default |
| CategoryModel.AllDefaults | src/models/category.rs:61-165 | 10 presets, all default: 4 income ones and then 6 expense ones |
| CategoryModel.DefaultsArePresetNames | src/models/category.rs:61-159 | Whatever ids and stamps they receive, the presets are named Salary, Business, Investment, Gift, Food, Transportation, Shopping, Entertainment, Bills, Medical, in that order |
| CategoryModel.PresetsAreTransactionCategories | src/models/category.rs:61-165 | Every preset is named after a transaction category of its own type, and no two presets share a name |
| CategoryModel.TypeColumnRoundTrip | src/handlers/category.rs:17 | The stored type is "income" or "expense" and reads back as the variant written |
| CategoryModel.TypeColumn | src/handlers/category.rs:17 | The lower-cased `Debug` name the handlers bind; TypeColumnRoundTrip proves it decodes to its variant |
| BudgetHandlers.Patched | src/handlers/budget.rs:153-163 | Each supplied field replaces the stored one, each absent field is kept, updated_at becomes now; id, owner and created_at never change |
| BudgetHandlers.EmptyPatchOnlyRestamps | src/handlers/budget.rs:153-173 | An update with no fields changes only updated_at |
| BudgetHandlers.PatchIdempotent | src/handlers/budget.rs:153-163 | Applying the same update twice equals applying it once |
| BudgetHandlers.BudgetTable.Get | src/handlers/budget.rs:101-140 | A row comes back only when it exists and belongs to the principal; a foreign row is a 404 like a missing one |
| BudgetHandlers.BudgetTable.Create | src/handlers/budget.rs:14-58 | Stores the constructed budget owned by the principal and returns it; a taken id is a 409 and any other failure a 500, both leaving the table unchanged |
| BudgetHandlers.BudgetTable.List | src/handlers/budget.rs:60-99 | Exactly the principal's budgets, newest created_at first; none is still a success |
| BudgetHandlers.BudgetTable.Update | src/handlers/budget.rs:142-182 | Patches and restamps only the principal's row with that id, touching no other; otherwise a 404 and no change |
| BudgetHandlers.BudgetTable.Delete | src/handlers/budget.rs:184-214 | Removes exactly the principal's row with that id; otherwise a 404 and no change |
| SavingsGoalHandlers.Patched | src/handlers/savings_goal.rs:169-185 | Nine fields merged, current_amount and is_completed included; restamped; id, owner and created_at kept |
| SavingsGoalHandlers.NullableNeverCleared | src/handlers/savings_goal.rs:170 | description and account_id, once set, survive every update |
| SavingsGoalHandlers.SavingsGoalTable.Create | src/handlers/savings_goal.rs:14-64 | A taken id is a 409 even when another user owns it, and the table is unchanged |
| SavingsGoalHandlers.SavingsGoalTable.List | src/handlers/savings_goal.rs:66-110 | Only the principal's goals, target_date ascending |
| SavingsGoalHandlers.SavingsGoalTable.Get | src/handlers/savings_goal.rs:112-156 | Scoped by id and principal; 404 on no match |
| SavingsGoalHandlers.SavingsGoalTable.Update | src/handlers/savings_goal.rs:158-204 | Patches only an owned row; 404 and no change otherwise |
| SavingsGoalHandlers.SavingsGoalTable.Delete | src/handlers/savings_goal.rs:206-236 | Removes only an owned row; 404 and no change otherwise |
| RecurringTransactionHandlers.Patched | src/handlers/recurring_transaction.rs:182-201 | All 12 business fields merged, is_active and next_due_date included; restamped |
| RecurringTransactionHandlers.NullableNeverCleared | src/handlers/recurring_transaction.rs:183 | category, description, end_date and savings_goal_id cannot be cleared by an update |
| RecurringTransactionHandlers.RecurringTransactionTable.Create | src/handlers/recurring_transaction.rs:14-69 | Owner is the principal; a taken id is a 409 and other failures a 500 |
| RecurringTransactionHandlers.RecurringTransactionTable.List | src/handlers/recurring_transaction.rs:71-118 | The principal's rows only, newest created_at first |
| RecurringTransactionHandlers.RecurringTransactionTable.Get | src/handlers/recurring_transaction.rs:120-167 | Matches only id and principal; 404 otherwise |
| RecurringTransactionHandlers.RecurringTransactionTable.Update | src/handlers/recurring_transaction.rs:169-220 | Patches only an owned row; 404 and no change otherwise |
| RecurringTransactionHandlers.RecurringTransactionTable.Delete | src/handlers/recurring_transaction.rs:222-252 | Matches only id and principal; 404 and no change otherwise |
| AccountHandlers.AsWrittenColumnUnreadable | src/handlers/account.rs:18 | The type text the handler writes for MobileBanking and CreditCard is not accepted by the decoder |
| AccountHandlers.AsWrittenColumnOthersReadable | src/handlers/account.rs:18 | For the other five types, the written text is exactly the decoder's name |
| AccountHandlers.AsWrittenColumnDecodes | src/handlers/account.rs:18 | The written text decodes to the variant itself for the five readable types and to nothing for MobileBanking and CreditCard |
| AccountHandlers.AccountTypeColumnAsWritten | src/handlers/account.rs:18 | The type text the handlers bind: the lower-cased `Debug` name, proved readable or not by AsWrittenColumnDecodes |
| AccountHandlers.ToRow | src/handlers/account.rs:17-34 | The INSERT row: the account's columns, with the type as the handler spells it |
| AccountHandlers.CorrectedRowRoundTrip | src/models/account.rs:24-45 | With the decoder's own name as the type text, every account reads back as itself |
| AccountHandlers.MobileBankingAsWritten | src/handlers/account.rs:18 | The handler writes "mobilebanking" for MobileBanking |
| AccountHandlers.CreditCardAsWritten | src/handlers/account.rs:18 | The handler writes "creditcard" for CreditCard |
| AccountHandlers.AccountTypeColumn | src/models/account.rs:24-45 | The corrected type column, which always decodes to the variant written |
| AccountHandlers.FromRow | src/models/account.rs:7-22 | A row reads as an account exactly when its type column decodes, and then every other column is copied |
| AccountHandlers.RowRoundTrip | src/handlers/account.rs:17-34 | An inserted account reads back as itself exactly when its type is not MobileBanking or CreditCard; for those two the stored row does not read back at all. A readable row of the other five types is what writing its reading gives |
| AccountHandlers.Patched | src/handlers/account.rs:127-141 | Five fields merged and restamped; a supplied type is stored as the handler spells it; credit_limit never cleared; id, owner and created_at kept |
| AccountHandlers.PatchedReadsBack | src/handlers/account.rs:127-141 | A patched readable row reads back as the account with exactly the supplied fields replaced, except that setting MobileBanking or CreditCard makes it unreadable |
| AccountHandlers.EmptyPatchOnlyRestamps | src/handlers/account.rs:129-130 | An update with no fields only moves updated_at |
| AccountHandlers.AccountTable.Accounts | src/handlers/user_data.rs:15-20 | The table as `query_as::<Account>` decodes it: exactly the rows whose type text decodes, each as its decoding |
| AccountHandlers.AccountTable.constructor | src/services/database.rs:23-34 | The accounts table starts empty |
| AccountHandlers.AccountTable.Get | src/handlers/account.rs:84-119 | Matches on id alone, whoever owns the row; 404 when absent |
| AccountHandlers.AccountTable.Create | src/handlers/account.rs:13-46 | Any failure, a taken id included, is a 500 and changes nothing; on success the table gains the account as the handler writes it, which decodes back to that account exactly when its type is not MobileBanking or CreditCard |
| AccountHandlers.AccountTable.List | src/handlers/account.rs:48-82 | Every account whatever its owner, newest created_at first |
| AccountHandlers.AccountTable.Update | src/handlers/account.rs:121-158 | Patches and restamps the row with that id, whoever owns it, and touches no other; 404 when there is none; setting MobileBanking or CreditCard leaves the row unreadable |
| AccountHandlers.AccountTable.Delete | src/handlers/account.rs:160-185 | Removes exactly that row; 404 when absent |
| LiabilityHandlers.StoringForgetsOnlyLinks | src/handlers/liability.rs:22-35 | Two liabilities are stored as the same row exactly when they differ only in the historical flag and the two links |
| LiabilityHandlers.ToRow | src/handlers/liability.rs:22-33 | The INSERT row: every column but the historical flag and the two links, which StoringForgetsOnlyLinks shows are the only things lost |
| LiabilityHandlers.Patched | src/handlers/liability.rs:132-140 | Six fields merged and restamped; description never cleared |
| LiabilityHandlers.EmptyPatchOnlyRestamps | src/handlers/liability.rs:132-140 | An update with no fields only moves updated_at |
| LiabilityHandlers.PatchIdempotent | src/handlers/liability.rs:132-140 | Applying the same update twice equals applying it once |
| LiabilityHandlers.LinkFieldsIgnored | src/handlers/liability.rs:132-140 | The historical flag and links of an update request have no effect |
| LiabilityHandlers.LiabilityTable.Create | src/handlers/liability.rs:13-47 | Any failure is a 500 and changes nothing; on success the table gains the stored form of the liability returned |
| LiabilityHandlers.LiabilityTable.List | src/handlers/liability.rs:49-84 | Every liability, due_date ascending |
| LiabilityHandlers.LiabilityTable.Get | src/handlers/liability.rs:86-122 | Matches on id alone; 404 when absent |
| LiabilityHandlers.LiabilityTable.Update | src/handlers/liability.rs:124-162 | Patches the row with that id with no owner filter; 404 when absent |
| LiabilityHandlers.LiabilityTable.Delete | src/handlers/liability.rs:164-189 | Removes exactly that row; 404 when absent |
| LoanHandlers.Patched | src/handlers/loan.rs:109-122 | Seven fields merged, return_date and is_returned included; restamped |
| LoanHandlers.NullableNeverCleared | src/handlers/loan.rs:110 | Once set, return_date and description cannot be removed |
| LoanHandlers.PatchIdempotent | src/handlers/loan.rs:109-122 | Applying the same update twice equals applying it once |
| LoanHandlers.EmptyPatchOnlyRestamps | src/handlers/loan.rs:109-122 | An update with no fields only moves updated_at |
| LoanHandlers.LinkFieldsIgnored | src/handlers/loan.rs:109-122 | The historical flag and links of an update request have no effect |
| LoanHandlers.LoanTable.Create | src/handlers/loan.rs:13-21 | Always a 501, and the loans table is untouched |
| LoanHandlers.LoanTable.List | src/handlers/loan.rs:23-59 | Every loan, loan_date descending |
| LoanHandlers.LoanTable.Get | src/handlers/loan.rs:61-98 | Matches on id alone; 404 when absent |
| LoanHandlers.LoanTable.Update | src/handlers/loan.rs:100-140 | Patches the row with that id; 404 and no change when absent |
| LoanHandlers.LoanTable.Delete | src/handlers/loan.rs:142-167 | Removes exactly that row; 404 when absent |
| TransactionHandlers.RowRoundTrip | src/handlers/transaction.rs:17-32 | Writing a transaction and reading it back gives it back, and conversely for readable rows |
| TransactionHandlers.ToRow | src/handlers/transaction.rs:17-32 | The INSERT row, the type as the lower-cased `Debug` name; RowRoundTrip proves it reads back |
| TransactionHandlers.FromRow | src/models/transaction.rs:7-22 | A row reads as a transaction exactly when its type column decodes, and then every other column is copied |
| TransactionHandlers.Patched | src/handlers/transaction.rs:131-143 | Seven fields merged; no timestamp column changes |
| TransactionHandlers.EmptyPatchChangesNothing | src/handlers/transaction.rs:131-143 | An update with no fields leaves the row exactly as it was |
| TransactionHandlers.PatchIdempotent | src/handlers/transaction.rs:131-143 | Applying the same update twice equals applying it once |
| TransactionHandlers.NullableNeverCleared | src/handlers/transaction.rs:132 | category and description, once set, survive every update |
| TransactionHandlers.PatchedReadsBack | src/handlers/transaction.rs:128-143 | A patched row reads back as the transaction with exactly the supplied fields replaced |
| TransactionHandlers.TransactionTable.Transactions | src/handlers/user_data.rs:39-40 | The table read as transactions: same keys, and each writes back to its row |
| TransactionHandlers.TransactionTable.Create | src/handlers/transaction.rs:12-46 | Failures are 500s that change nothing; on success the stored row reads back as the transaction returned |
| TransactionHandlers.TransactionTable.List | src/handlers/transaction.rs:48-83 | Every transaction, date descending |
| TransactionHandlers.TransactionTable.Get | src/handlers/transaction.rs:85-121 | Matches on id alone; 404 when absent |
| TransactionHandlers.TransactionTable.Update | src/handlers/transaction.rs:123-161 | Patches the row with that id; 404 and no change when absent |
| TransactionHandlers.TransactionTable.Delete | src/handlers/transaction.rs:163-188 | Removes exactly that row; 404 when absent |
| CategoryHandlers.RowRoundTrip | src/handlers/category.rs:17-29 | Writing a category and reading it back gives it back, and conversely for readable rows |
| CategoryHandlers.ToRow | src/handlers/category.rs:17-29 | The INSERT row, the type as the lower-cased `Debug` name; RowRoundTrip proves it reads back |
| CategoryHandlers.FromRow | src/models/category.rs:7-15 | A row reads as a category exactly when its type column is "income" or "expense" |
| CategoryHandlers.Patched | src/handlers/category.rs:121-132 | Five fields merged; nothing stamped |
| CategoryHandlers.EmptyPatchChangesNothing | src/handlers/category.rs:123-132 | An update with no fields changes nothing |
| CategoryHandlers.PatchIdempotent | src/handlers/category.rs:123-132 | Applying the same update twice equals applying it once |
| CategoryHandlers.PatchedReadsBack | src/handlers/category.rs:121-132 | A patched row reads back as the category with the supplied fields replaced |
| CategoryHandlers.DefaultsListedFirst | src/handlers/category.rs:49 | In any listing, no non-default category precedes a default one, and within a group older comes first |
| CategoryHandlers.CategoryTable.Create | src/handlers/category.rs:12-43 | Stores the category under its fresh id; failures are 500s that change nothing |
| CategoryHandlers.CategoryTable.List | src/handlers/category.rs:45-78 | Every category, defaults first, created_at ascending within each group |
| CategoryHandlers.CategoryTable.Get | src/handlers/category.rs:80-114 | Any caller gets any category by id; 404 when absent |
| CategoryHandlers.CategoryTable.Update | src/handlers/category.rs:116-151 | Patches the row with that id; 404 and no change when absent |
| CategoryHandlers.CategoryTable.Delete | src/handlers/category.rs:153-178 | Removes exactly that row; 404 when absent |
| PreferenceHandlers.Member | src/handlers/preference.rs:59-60 | `Value::get` finds a member only in an object holding that key |
| PreferenceHandlers.ChosenCurrencyCases | src/handlers/preference.rs:59-62 | The snake-case key wins whenever present, even when not a string (then "BDT"); the camel-case key is used only when the other is absent; neither gives "BDT" |
| PreferenceHandlers.ChosenCurrency | src/handlers/preference.rs:59-62 | The currency an update stores; ChosenCurrencyCases gives each way the key lookup can go |
| PreferenceHandlers.PreferenceTable.Get | src/handlers/preference.rs:12-50 | The stored preference, or "BDT" with a null stamp exactly when none is stored; storage failure is a 500 |
| PreferenceHandlers.PreferenceTable.Update | src/handlers/preference.rs:52-93 | Upsert: the principal ends with one row holding the chosen currency stamped now, the response echoes it, a later Get returns it, and every other user's row is unchanged |
| UserData.UserAccounts | src/handlers/user_data.rs:11-33 | A 500 "Failed to fetch accounts" exactly on a storage failure or when some row the principal owns does not decode; otherwise exactly the principal's accounts, newest first, every owned row among them |
| UserData.UnreadableUpdateBreaksListing | src/handlers/account.rs:127 | As written: after an update sets MobileBanking or CreditCard on a row, its owner owns an unreadable row, so their account listing is a 500 |
| UserData.CorrectedUpdateKeepsRowReadable | src/models/account.rs:24-45 | Corrected: storing the decoder's own name, an update never makes a readable row unreadable |
| UserData.UserTransactions | src/handlers/user_data.rs:35-57 | Exactly the principal's transactions, date descending; otherwise a 500 "Failed to fetch transactions" |
| UserData.UserLoansAsWritten | src/handlers/user_data.rs:59-81 | As written: succeeds, and with the empty list, exactly when the principal owns no loan |
| UserData.UserLoans | src/handlers/user_data.rs:59-81 | Corrected: exactly the principal's loans, loan_date descending |
| UserData.ReadLoan | src/models/loan.rs:6-32 | A stored loan with the three columns the table lacks at false and none |
| UserData.LoansAsWrittenLoseOwnedRows | src/handlers/user_data.rs:63-64 | An owned loan makes the as-written handler fail, while the corrected listing contains it |
| UserData.UserLiabilitiesAsWritten | src/handlers/user_data.rs:83-105 | As written: succeeds, and with the empty list, exactly when the principal owns no liability |
| UserData.UserLiabilities | src/handlers/user_data.rs:83-105 | Corrected: exactly the principal's liabilities, due_date ascending |
| UserData.ReadLiability | src/models/liability.rs:6-30 | A stored liability with the three columns the table lacks at false and none |
| UserData.LiabilitiesAsWrittenLoseOwnedRows | src/handlers/user_data.rs:87-88 | An owned liability makes the as-written handler fail, while the corrected listing contains it |
| UserData.ReadLiabilityAfterStore | src/models/liability.rs:6-30 | A stored liability reads back with only the flag and links at their defaults |
| AuthMiddleware.Authenticate | src/middleware/auth.rs:20-61 | A missing or non-visible-ASCII header is the "Missing Authorization header" 401; success only when the header starts with "Bearer " and the verifier accepts the rest, the principal being its subject |
| AuthMiddleware.HeaderText | src/middleware/auth.rs:22-33 | The header is read as text only when present and made of visible ASCII, and then unchanged |
| AuthMiddleware.TokenOf | src/middleware/auth.rs:46 | The token is exactly what follows the "Bearer " prefix, so prefix + token is the header |
| AuthMiddleware.BearerRoundTrip | src/middleware/auth.rs:36-60 | "Bearer " + token reaches the verifier with exactly that token; any verifier failure is the "Invalid or expired token" 401 |
| AuthMiddleware.PrefixAloneVerifiesEmptyToken | src/middleware/auth.rs:46 | A header of just "Bearer " hands the verifier the empty token |
| AuthMiddleware.WrongSchemeRefused | src/middleware/auth.rs:36-43 | The prefix check is case-sensitive; any other start is the format 401 without verification |
| AuthMiddleware.OnlyTheTokenMatters | src/middleware/auth.rs:46-60 | The outcome depends on the verifier only through its answer for this token |
| AuthHandlers.ToCreateUserRequest | src/handlers/auth.rs:21-27 | A missing name becomes "User"; email and password copied |
| AuthHandlers.ToLoginRequest | src/handlers/auth.rs:29-34 | Email and password copied unchanged |
| AuthHandlers.ConversionsAgree | src/handlers/auth.rs:21-34 | Both conversions carry the same email and password, and a given name is kept |
| AuthHandlers.Trim | src/handlers/auth.rs:210 | The input is some whitespace, then the result, then some whitespace, and the result neither starts nor ends with whitespace |
| AuthHandlers.TrimStart | src/handlers/auth.rs:210 | Drops a prefix made only of whitespace and keeps the rest, which does not start with whitespace |
| AuthHandlers.TrimEnd | src/handlers/auth.rs:210 | Drops a suffix made only of whitespace and keeps the rest, which does not end with whitespace |
| AuthHandlers.NormaliseEmail | src/handlers/auth.rs:210 | The trimmed, lower-cased email: no longer than the input and without ASCII capitals |
| AuthHandlers.TrimmedIsFixed | src/handlers/auth.rs:210 | Text with no whitespace at either end is its own trim |
| AuthHandlers.NormaliseIdempotent | src/handlers/auth.rs:210 | Trimming and lower-casing twice is doing it once |
| AuthHandlers.UserTable.Login | src/handlers/auth.rs:131-204 | Success exactly when the email is stored, the password checks and a token is minted, returning that user's profile; never writes |
| AuthHandlers.LoginFailuresIndistinguishable | src/handlers/auth.rs:143-183 | An unknown email and a wrong password give the identical 401 "Invalid email or password" |
| AuthHandlers.UserTable.Signup | src/handlers/auth.rs:39-129 | An email already present exactly is a 409 and inserts nothing. For a free email, every outcome is stated. A hash failure is a 500 "Failed to hash password" with nothing stored. An insert failure or a taken id is a 500 "Failed to create user" with nothing stored. Otherwise exactly the new user is stored, and the reply is a 500 "Failed to create token" when no token can be made, else Ok with the token for the fresh id and that user minus the hash. Login then succeeds with the same credentials |
| AuthHandlers.UserTable.Signin | src/handlers/auth.rs:206-345 | Looks up the trimmed, lower-cased email. A known user gets exactly what login gives. An unknown one without a name gets a 400 and nothing is stored. For an unknown one with a name, every outcome is stated. A hash failure, or an insert failure or taken id, is its 500 with nothing stored. Otherwise exactly the new user is stored under the normalised email, and the reply is a 500 when no token can be made, else Ok with the token for the fresh id and that user's profile. Login then succeeds |

## Left out

- HTTP routing, CORS, logging, the connection pool and JSON response shaping (`row.get` into `json!`, camelCase keys) are not modelled. Responses are the entity values themselves.
- Concurrency is not modelled: each handler is one atomic step on its table.
- bcrypt hashing and checking and JWT encoding and decoding are function parameters.
- The 24-hour expiry set when a token is minted (src/utils/jwt.rs) is not part of this model.
- Dates are whole seconds since the epoch (`Time = int`). chrono's text formats are not modelled. The individual date-format recognisers are parameters.
- TransactionModel.ChronoRanges: the date recognisers are independent parameters. Only SecondsAttemptNeverDecides assumes chrono's range relation between them. Under that relation the seconds attempt (src/models/transaction.rs:75-79) is dead code. The parser model keeps it, as the source does.
- Money amounts are `real`. No f64 rounding is modelled, so AvailableCredit is an exact sum.
- The duplicate-key test on the SQLite error text is modelled as "the id is already a key of the table".
- AccountHandlers.AccountTable.Create, LiabilityHandlers.LiabilityTable.Create and TransactionHandlers.TransactionTable.Create take an `owner` and store it.
  - The handlers call one-argument constructors that the model files do not define.
  - Their INSERT statements leave out the `user_id` column, which the schema declares NOT NULL.
  - The model gives the constructor the owner it needs and does not model that the insert is rejected.
- AuthHandlers.NormaliseEmail lower-cases ASCII letters only. Rust's `to_lowercase` also maps non-ASCII letters.
- Transaction listings return the stored rows. The handler reads `category` as a non-null string, so a row with a null category fails there. That is part of the JSON shaping above.
- Category routes, transaction routes, liability routes and loan routes are commented out in src/main.rs. The model covers the handlers regardless.
- Budget, savings-goal, recurring-transaction and preference handlers are not routed in src/main.rs (imports at lines 16-24, routes at lines 80-100). src/services/database.rs:19-138 creates no `budgets`, `savings_goals`, `recurring_transactions` or `user_preferences` table. BudgetHandlers.BudgetTable, SavingsGoalHandlers.SavingsGoalTable, RecurringTransactionHandlers.RecurringTransactionTable and PreferenceHandlers.PreferenceTable assume these tables exist. The model does not capture that every statement of these handlers would fail against the schema as created.
- src/models/user_preference.rs and src/models/mod.rs contain declarations only.

## Findings

| source | as written | input that shows it | evidently intended | confidence | as-written member | corrected member |
|---|---|---|---|---|---|---|
| src/handlers/account.rs:127 | `update_account` stores the type as the lower-cased `Debug` name: "mobilebanking", "creditcard" (as `create_account` would at line 18) | update an existing account of its owner to type MobileBanking, then ask for that owner's accounts (src/handlers/user_data.rs:11-33): the row no longer decodes and the listing is a 500 | store the sqlx rename ("mobile_banking", "credit_card", src/models/account.rs:32,41) so the row decodes | medium, not executed | UserData.UnreadableUpdateBreaksListing | UserData.CorrectedUpdateKeepsRowReadable |
| src/handlers/user_data.rs:63-64 | `SELECT *` from `loans` decoded as `Loan`, whose historical flag and account/transaction links have no column in that table | a principal owning one stored loan asks for their loans | return that principal's loans, newest loan date first, with the missing fields at their defaults | medium, not executed | UserData.UserLoansAsWritten | UserData.UserLoans |
| src/handlers/user_data.rs:87-88 | `SELECT *` from `liabilities` decoded as `Liability`, with the same three missing columns | a principal owning one stored liability asks for their liabilities | return that principal's liabilities, soonest due first, with the missing fields at their defaults | medium, not executed | UserData.UserLiabilitiesAsWritten | UserData.UserLiabilities |
