/** Recurring transactions and their create and update requests
    (src/models/recurring_transaction.rs). */
module RecurringTransactionModel {
  import opened Common

  datatype RecurringTransaction = RecurringTransaction(
    id: string, userId: string, accountId: string, transactionType: string, amount: real,
    currency: string, category: Option<string>, description: Option<string>, frequency: string,
    startDate: Time, endDate: Option<Time>, nextDueDate: Time, isActive: bool,
    savingsGoalId: Option<string>, createdAt: Time, updatedAt: Time)

  datatype CreateRecurringTransactionRequest = CreateRecurringTransactionRequest(
    id: Option<string>, accountId: string, transactionType: string, amount: real,
    currency: Option<string>, category: Option<string>, description: Option<string>,
    frequency: Option<string>, startDate: Time, endDate: Option<Time>, nextDueDate: Time,
    isActive: Option<bool>, savingsGoalId: Option<string>)

  datatype UpdateRecurringTransactionRequest = UpdateRecurringTransactionRequest(
    accountId: Option<string>, transactionType: Option<string>, amount: Option<real>,
    currency: Option<string>, category: Option<string>, description: Option<string>,
    frequency: Option<string>, startDate: Option<Time>, endDate: Option<Time>,
    nextDueDate: Option<Time>, isActive: Option<bool>, savingsGoalId: Option<string>)

  const DefaultFrequency: string := "monthly"

  /** `RecurringTransaction::new`: frequency "monthly", active, currency "BDT" by default;
      the three dates are copied as sent. */
  function NewRecurringTransaction(req: CreateRecurringTransactionRequest, userId: string,
                                   freshId: string, now: Time): (t: RecurringTransaction)
    ensures t.frequency == (if req.frequency.Some? then req.frequency.value else DefaultFrequency)
    ensures t.isActive == (req.isActive.None? || req.isActive.value)
    ensures t.currency == (if req.currency.Some? then req.currency.value else DefaultCurrency)
    ensures t.startDate == req.startDate && t.endDate == req.endDate && t.nextDueDate == req.nextDueDate
    ensures t.id == (if req.id.Some? then req.id.value else freshId)
    ensures t.userId == userId && t.accountId == req.accountId && t.transactionType == req.transactionType
    ensures t.amount == req.amount && t.category == req.category && t.description == req.description
    ensures t.savingsGoalId == req.savingsGoalId
    ensures t.createdAt == now && t.updatedAt == t.createdAt
  {
    RecurringTransaction(req.id.GetOr(freshId), userId, req.accountId, req.transactionType, req.amount,
                         req.currency.GetOr(DefaultCurrency), req.category, req.description,
                         req.frequency.GetOr(DefaultFrequency), req.startDate, req.endDate,
                         req.nextDueDate, req.isActive.GetOr(true), req.savingsGoalId, now, now)
  }
}
