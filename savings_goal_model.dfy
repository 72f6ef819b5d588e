/** Savings goals and their create and update requests (src/models/savings_goal.rs). */
module SavingsGoalModel {
  import opened Common

  datatype SavingsGoal = SavingsGoal(id: string, userId: string, name: string, targetAmount: real,
                                     currentAmount: real, currency: string, targetDate: Time,
                                     description: Option<string>, accountId: Option<string>,
                                     priority: string, isCompleted: bool, createdAt: Time, updatedAt: Time)

  datatype CreateSavingsGoalRequest = CreateSavingsGoalRequest(
    id: Option<string>, name: string, targetAmount: real, currency: Option<string>, targetDate: Time,
    description: Option<string>, accountId: Option<string>, priority: Option<string>)

  datatype UpdateSavingsGoalRequest = UpdateSavingsGoalRequest(
    name: Option<string>, targetAmount: Option<real>, currentAmount: Option<real>, currency: Option<string>,
    targetDate: Option<Time>, description: Option<string>, accountId: Option<string>,
    priority: Option<string>, isCompleted: Option<bool>)

  const DefaultPriority: string := "medium"

  /** `SavingsGoal::new`: nothing saved yet and not completed, whatever the request says;
      priority "medium" and currency "BDT" by default. */
  function NewSavingsGoal(req: CreateSavingsGoalRequest, userId: string, freshId: string, now: Time): (g: SavingsGoal)
    ensures g.currentAmount == 0.0 && !g.isCompleted
    ensures g.priority == (if req.priority.Some? then req.priority.value else DefaultPriority)
    ensures g.currency == (if req.currency.Some? then req.currency.value else DefaultCurrency)
    ensures g.id == (if req.id.Some? then req.id.value else freshId)
    ensures g.userId == userId && g.name == req.name && g.targetAmount == req.targetAmount
    ensures g.targetDate == req.targetDate && g.description == req.description && g.accountId == req.accountId
    ensures g.createdAt == now && g.updatedAt == g.createdAt
  {
    SavingsGoal(req.id.GetOr(freshId), userId, req.name, req.targetAmount, 0.0,
                req.currency.GetOr(DefaultCurrency), req.targetDate, req.description, req.accountId,
                req.priority.GetOr(DefaultPriority), false, now, now)
  }
}
