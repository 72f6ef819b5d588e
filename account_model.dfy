/** Accounts, their type, and the credit-card display values (src/models/account.rs). */
module AccountModel {
  import opened Common

  datatype AccountType = Wallet | Bank | MobileBanking | Cash | Investment | Savings | CreditCard

  datatype Account = Account(id: string, userId: string, name: string, accountType: AccountType,
                             balance: real, currency: string, creditLimit: Option<real>,
                             createdAt: Time, updatedAt: Time)

  datatype CreateAccountRequest = CreateAccountRequest(id: Option<string>, name: string,
                                                       accountType: AccountType, balance: real,
                                                       currency: Option<string>, creditLimit: Option<real>)

  datatype UpdateAccountRequest = UpdateAccountRequest(name: Option<string>, accountType: Option<AccountType>,
                                                       balance: Option<real>, currency: Option<string>,
                                                       creditLimit: Option<real>)

  /** `Account::new`: the client's id if it sent one, else a fresh one; currency "BDT" by default. */
  function NewAccount(req: CreateAccountRequest, userId: string, freshId: string, now: Time): (a: Account)
    ensures req.id.Some? ==> a.id == req.id.value
    ensures req.id.None? ==> a.id == freshId
    ensures req.currency.None? ==> a.currency == DefaultCurrency
    ensures req.currency.Some? ==> a.currency == req.currency.value
    ensures a.userId == userId && a.name == req.name && a.accountType == req.accountType
    ensures a.balance == req.balance && a.creditLimit == req.creditLimit
    ensures a.createdAt == now && a.updatedAt == a.createdAt
  {
    Account(req.id.GetOr(freshId), userId, req.name, req.accountType, req.balance,
            req.currency.GetOr(DefaultCurrency), req.creditLimit, now, now)
  }

  predicate IsCreditCard(a: Account) {
    a.accountType.CreditCard?
  }

  /** Credit still available on a card: limit plus (non-positive) balance; 0 without a limit or for other types. */
  function AvailableCredit(a: Account): (r: real)
    ensures !IsCreditCard(a) ==> r == 0.0
    ensures IsCreditCard(a) && a.creditLimit.None? ==> r == 0.0
    ensures IsCreditCard(a) && a.creditLimit.Some? ==> r == a.creditLimit.value + a.balance
  {
    match a.accountType
    case CreditCard => if a.creditLimit.Some? then a.creditLimit.value + a.balance else 0.0
    case _ => 0.0
  }

  /** Amount spent on a card: the balance negated; 0 for other types. */
  function UsedAmount(a: Account): (r: real)
    ensures IsCreditCard(a) ==> r == -a.balance
    ensures !IsCreditCard(a) ==> r == 0.0
  {
    match a.accountType
    case CreditCard => -a.balance
    case _ => 0.0
  }

  /** The figure shown for an account: available credit for cards, the balance otherwise. */
  function DisplayBalance(a: Account): (r: real)
    ensures IsCreditCard(a) ==> r == AvailableCredit(a)
    ensures !IsCreditCard(a) ==> r == a.balance
  {
    match a.accountType
    case CreditCard => AvailableCredit(a)
    case _ => a.balance
  }

  /** The variant name as Rust's `Debug` prints it. */
  function DebugName(t: AccountType): string {
    match t
    case Wallet => "Wallet"
    case Bank => "Bank"
    case MobileBanking => "MobileBanking"
    case Cash => "Cash"
    case Investment => "Investment"
    case Savings => "Savings"
    case CreditCard => "CreditCard"
  }

  /** The text the `sqlx` decoder expects for each variant (the per-variant rename attributes). */
  function SqlxName(t: AccountType): string {
    match t
    case Wallet => "wallet"
    case Bank => "bank"
    case MobileBanking => "mobile_banking"
    case Cash => "cash"
    case Investment => "investment"
    case Savings => "savings"
    case CreditCard => "credit_card"
  }

  /** Decoding a stored `account_type` column into the enum, as `sqlx` does when reading an `Account`. */
  function DecodeAccountType(s: string): (r: Option<AccountType>)
    ensures r.Some? ==> SqlxName(r.value) == s
  {
    if s == "wallet" then Some(Wallet)
    else if s == "bank" then Some(Bank)
    else if s == "mobile_banking" then Some(MobileBanking)
    else if s == "cash" then Some(Cash)
    else if s == "investment" then Some(Investment)
    else if s == "savings" then Some(Savings)
    else if s == "credit_card" then Some(CreditCard)
    else None
  }

  /** The decoder reads back every name it expects. */
  lemma SqlxNameRoundTrip(t: AccountType)
    ensures DecodeAccountType(SqlxName(t)) == Some(t)
  {
  }

  lemma CreditCardDisplay(a: Account)
    ensures IsCreditCard(a) <==> a.accountType == CreditCard
    ensures !IsCreditCard(a) ==> AvailableCredit(a) == 0.0 && UsedAmount(a) == 0.0 && DisplayBalance(a) == a.balance
    ensures IsCreditCard(a) && a.creditLimit.None? ==> DisplayBalance(a) == 0.0
  {
  }
}
