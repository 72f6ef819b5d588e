/** Liabilities (money owed to someone) and their due-date logic (src/models/liability.rs). */
module LiabilityModel {
  import opened Common

  datatype Liability = Liability(
    id: string, userId: string, personName: string, amount: real, currency: string, dueDate: Time,
    isPaid: bool, description: Option<string>, createdAt: Time, updatedAt: Time,
    isHistoricalEntry: bool, accountId: Option<string>, transactionId: Option<string>)

  datatype CreateLiabilityRequest = CreateLiabilityRequest(
    id: Option<string>, personName: string, amount: real, currency: Option<string>, dueDate: Time,
    isPaid: Option<bool>, description: Option<string>, isHistoricalEntry: Option<bool>,
    accountId: Option<string>, transactionId: Option<string>)

  datatype UpdateLiabilityRequest = UpdateLiabilityRequest(
    personName: Option<string>, amount: Option<real>, currency: Option<string>, dueDate: Option<Time>,
    isPaid: Option<bool>, description: Option<string>, isHistoricalEntry: Option<bool>,
    accountId: Option<string>, transactionId: Option<string>)

  const SecondsPerDay: int := 86400

  /** `Liability::new`: unpaid and not historical unless the request says so; currency "BDT" by default. */
  function NewLiability(req: CreateLiabilityRequest, userId: string, freshId: string, now: Time): (l: Liability)
    ensures l.isPaid == (req.isPaid.Some? && req.isPaid.value)
    ensures l.isHistoricalEntry == (req.isHistoricalEntry.Some? && req.isHistoricalEntry.value)
    ensures l.currency == (if req.currency.Some? then req.currency.value else DefaultCurrency)
    ensures l.id == (if req.id.Some? then req.id.value else freshId)
    ensures l.userId == userId && l.personName == req.personName && l.amount == req.amount
    ensures l.dueDate == req.dueDate && l.description == req.description
    ensures l.accountId == req.accountId && l.transactionId == req.transactionId
    ensures l.createdAt == now && l.updatedAt == l.createdAt
  {
    Liability(req.id.GetOr(freshId), userId, req.personName, req.amount, req.currency.GetOr(DefaultCurrency),
              req.dueDate, req.isPaid.GetOr(false), req.description, now, now,
              req.isHistoricalEntry.GetOr(false), req.accountId, req.transactionId)
  }

  /** Unpaid and due strictly before `now`. */
  predicate IsOverdue(l: Liability, now: Time) {
    !l.isPaid && l.dueDate < now
  }

  /** Whole days in a span of seconds, truncated toward zero (chrono's `Duration::num_days`). */
  function WholeDays(seconds: int): (d: int)
    ensures seconds >= 0 ==> d >= 0 && d * SecondsPerDay <= seconds < (d + 1) * SecondsPerDay
    ensures seconds < 0 ==> d <= 0 && (d - 1) * SecondsPerDay < seconds <= d * SecondsPerDay
  {
    if seconds >= 0 then seconds / SecondsPerDay else -((-seconds) / SecondsPerDay)
  }

  /** 0 for a paid liability; otherwise the whole days from `now` to the due date, negative once a full day late. */
  function DaysUntilDue(l: Liability, now: Time): (d: int)
    ensures l.isPaid ==> d == 0
    ensures !l.isPaid ==> d == WholeDays(l.dueDate - now)
  {
    if l.isPaid then 0 else WholeDays(l.dueDate - now)
  }

  /** A paid liability is never overdue and is due in 0 days. */
  lemma PaidIsSettled(l: Liability, now: Time)
    requires l.isPaid
    ensures !IsOverdue(l, now) && DaysUntilDue(l, now) == 0
  {
  }

  /** The count of days only turns negative a full day after the due date;
      an unpaid liability is therefore overdue whenever the count is negative,
      and a liability less than a day late is overdue with 0 days to go. */
  lemma OverdueAndDays(l: Liability, now: Time)
    requires !l.isPaid
    ensures DaysUntilDue(l, now) < 0 <==> l.dueDate <= now - SecondsPerDay
    ensures DaysUntilDue(l, now) < 0 ==> IsOverdue(l, now)
    ensures now - SecondsPerDay < l.dueDate < now ==> IsOverdue(l, now) && DaysUntilDue(l, now) == 0
  {
  }
}
