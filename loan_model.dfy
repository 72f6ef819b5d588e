/** Loans (money lent to someone) and their create and update requests (src/models/loan.rs). */
module LoanModel {
  import opened Common

  datatype Loan = Loan(
    id: string, userId: string, personName: string, amount: real, currency: string, loanDate: Time,
    returnDate: Option<Time>, isReturned: bool, description: Option<string>, createdAt: Time,
    updatedAt: Time, isHistoricalEntry: bool, accountId: Option<string>, transactionId: Option<string>)

  datatype CreateLoanRequest = CreateLoanRequest(
    id: Option<string>, personName: string, amount: real, currency: Option<string>, loanDate: Time,
    returnDate: Option<Time>, isReturned: Option<bool>, description: Option<string>,
    isHistoricalEntry: Option<bool>, accountId: Option<string>, transactionId: Option<string>)

  datatype UpdateLoanRequest = UpdateLoanRequest(
    personName: Option<string>, amount: Option<real>, currency: Option<string>, loanDate: Option<Time>,
    returnDate: Option<Time>, isReturned: Option<bool>, description: Option<string>,
    isHistoricalEntry: Option<bool>, accountId: Option<string>, transactionId: Option<string>)

  /** `Loan::new`: not returned and not historical unless the request says so; currency "BDT" by
      default; the optional links and return date are copied, absent or not. */
  function NewLoan(req: CreateLoanRequest, userId: string, freshId: string, now: Time): (l: Loan)
    ensures l.isReturned == (req.isReturned.Some? && req.isReturned.value)
    ensures l.isHistoricalEntry == (req.isHistoricalEntry.Some? && req.isHistoricalEntry.value)
    ensures l.currency == (if req.currency.Some? then req.currency.value else DefaultCurrency)
    ensures l.returnDate == req.returnDate && l.accountId == req.accountId && l.transactionId == req.transactionId
    ensures l.id == (if req.id.Some? then req.id.value else freshId)
    ensures l.userId == userId && l.personName == req.personName && l.amount == req.amount
    ensures l.loanDate == req.loanDate && l.description == req.description
    ensures l.createdAt == now && l.updatedAt == l.createdAt
  {
    Loan(req.id.GetOr(freshId), userId, req.personName, req.amount, req.currency.GetOr(DefaultCurrency),
         req.loanDate, req.returnDate, req.isReturned.GetOr(false), req.description, now, now,
         req.isHistoricalEntry.GetOr(false), req.accountId, req.transactionId)
  }
}
