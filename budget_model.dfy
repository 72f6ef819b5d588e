/** Budgets and their create and update requests (src/models/budget.rs). */
module BudgetModel {
  import opened Common

  datatype Budget = Budget(id: string, userId: string, category: string, amount: real,
                           currency: string, period: string, createdAt: Time, updatedAt: Time)

  datatype CreateBudgetRequest = CreateBudgetRequest(id: Option<string>, category: string, amount: real,
                                                     currency: Option<string>, period: Option<string>)

  datatype UpdateBudgetRequest = UpdateBudgetRequest(category: Option<string>, amount: Option<real>,
                                                     currency: Option<string>, period: Option<string>)

  const DefaultPeriod: string := "monthly"

  /** `Budget::new`: client id or a fresh one, currency "BDT" and period "monthly" by default. */
  function NewBudget(req: CreateBudgetRequest, userId: string, freshId: string, now: Time): (b: Budget)
    ensures b.id == (if req.id.Some? then req.id.value else freshId)
    ensures b.currency == (if req.currency.Some? then req.currency.value else DefaultCurrency)
    ensures b.period == (if req.period.Some? then req.period.value else DefaultPeriod)
    ensures b.userId == userId && b.category == req.category && b.amount == req.amount
    ensures b.createdAt == now && b.updatedAt == b.createdAt
  {
    Budget(req.id.GetOr(freshId), userId, req.category, req.amount,
           req.currency.GetOr(DefaultCurrency), req.period.GetOr(DefaultPeriod), now, now)
  }
}
