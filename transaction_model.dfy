/** Transactions, the permissive date parser of the create request, and the
    fixed category name lists (src/models/transaction.rs). */
module TransactionModel {
  import opened Common

  datatype TransactionType = Income | Expense | Transfer

  datatype Transaction = Transaction(id: string, userId: string, accountId: string,
                                     transactionType: TransactionType, amount: real, currency: string,
                                     category: Option<string>, description: Option<string>,
                                     date: Time, createdAt: Time)

  datatype CreateTransactionRequest = CreateTransactionRequest(
    accountId: string, transactionType: TransactionType, amount: real, currency: Option<string>,
    category: Option<string>, description: Option<string>, date: Option<Time>)

  datatype UpdateTransactionRequest = UpdateTransactionRequest(
    accountId: Option<string>, transactionType: Option<TransactionType>, amount: Option<real>,
    currency: Option<string>, category: Option<string>, description: Option<string>, date: Option<Time>)

  /** `Transaction::new`: always a fresh id (the request cannot carry one); currency "BDT"
      by default; an absent date is the same instant as `created_at`. */
  function NewTransaction(req: CreateTransactionRequest, userId: string, freshId: string, now: Time): (t: Transaction)
    ensures t.id == freshId
    ensures t.currency == (if req.currency.Some? then req.currency.value else DefaultCurrency)
    ensures req.date.None? ==> t.date == t.createdAt
    ensures req.date.Some? ==> t.date == req.date.value
    ensures t.createdAt == now
    ensures t.userId == userId && t.accountId == req.accountId && t.transactionType == req.transactionType
    ensures t.amount == req.amount && t.category == req.category && t.description == req.description
  {
    Transaction(freshId, userId, req.accountId, req.transactionType, req.amount,
                req.currency.GetOr(DefaultCurrency), req.category, req.description, req.date.GetOr(now), now)
  }

  /** The variant name as Rust's `Debug` prints it. */
  function DebugName(t: TransactionType): string {
    match t
    case Income => "Income"
    case Expense => "Expense"
    case Transfer => "Transfer"
  }

  /** Decoding the stored `transaction_type` column (the enum's lower-case renames). */
  function DecodeTransactionType(s: string): (r: Option<TransactionType>)
    ensures r.Some? ==> LowerAscii(DebugName(r.value)) == s
  {
    if s == "income" then Some(Income)
    else if s == "expense" then Some(Expense)
    else if s == "transfer" then Some(Transfer)
    else None
  }

  /** What the handlers store in the `transaction_type` column: the lower-cased `Debug` name. */
  function TypeColumn(t: TransactionType): string {
    LowerAscii(DebugName(t))
  }

  /** The stored type is "income", "expense" or "transfer", and reads back as the variant written. */
  lemma TypeColumnRoundTrip(t: TransactionType)
    ensures TypeColumn(t) in ["income", "expense", "transfer"]
    ensures DecodeTransactionType(TypeColumn(t)) == Some(t)
  {
    var s := TypeColumn(t);
    match t
    case Income =>
      assert s == "income" by { assert |s| == 6 && forall i :: 0 <= i < 6 ==> s[i] == "income"[i]; }
    case Expense =>
      assert s == "expense" by { assert |s| == 7 && forall i :: 0 <= i < 7 ==> s[i] == "expense"[i]; }
    case Transfer =>
      assert s == "transfer" by { assert |s| == 8 && forall i :: 0 <= i < 8 ==> s[i] == "transfer"[i]; }
  }

  // ---------------------------------------------------------------------------
  // The `date` field of a create request

  /** The individual format recognisers the parser tries; each says whether its
      format accepts the text and, if so, at which instant. */
  datatype DateFormats = DateFormats(
    rfc3339: string -> Option<Time>,          // section 5.6 of RFC 3339, offset converted to UTC
    parseI64: string -> Option<int>,          // a signed decimal that fits in 64 bits
    fromMillis: int -> Option<Time>,          // milliseconds since the epoch, if representable
    fromSeconds: int -> Option<Time>,         // seconds since the epoch, if representable
    naiveFractional: string -> Option<Time>,  // "%Y-%m-%dT%H:%M:%S%.f", read as UTC
    naiveSpaced: string -> Option<Time>)      // "%Y-%m-%d %H:%M:%S", read as UTC

  datatype Decoded<+T> = Parsed(value: T) | Malformed(message: string)

  /** The millisecond attempt: an integer string whose value converts as milliseconds. */
  function FromMillisText(s: string, f: DateFormats): Option<Time> {
    match f.parseI64(s)
    case Some(n) => f.fromMillis(n)
    case None => None
  }

  /** The second attempt on integers: the same value read as seconds. */
  function FromSecondsText(s: string, f: DateFormats): Option<Time> {
    match f.parseI64(s)
    case Some(n) => f.fromSeconds(n)
    case None => None
  }

  /** The date-only attempt: midnight appended, then the spaced naive format. */
  function DateOnly(s: string, f: DateFormats): Option<Time> {
    f.naiveSpaced(s + " 00:00:00")
  }

  /** The attempts on a non-empty string, in the order the parser makes them. */
  function Attempts(s: string, f: DateFormats): (a: seq<Option<Time>>)
    ensures |a| == 6
  {
    [f.rfc3339(s), FromMillisText(s, f), FromSecondsText(s, f),
     f.naiveFractional(s), f.naiveSpaced(s), DateOnly(s, f)]
  }

  /** The first present entry, if any. */
  function FirstSuccess(a: seq<Option<Time>>): (r: Option<Time>)
    ensures r.Some? <==> exists i :: 0 <= i < |a| && a[i].Some?
    ensures r.Some? ==> exists i :: 0 <= i < |a| && a[i] == r && forall j :: 0 <= j < i ==> a[j].None?
  {
    if a == [] then None
    else if a[0].Some? then a[0]
    else
      var r := FirstSuccess(a[1..]);
      assert forall i :: 1 <= i < |a| ==> a[i] == a[1..][i - 1];
      if r.Some? then
        var k :| 0 <= k < |a[1..]| && a[1..][k] == r && forall j :: 0 <= j < k ==> a[1..][j].None?;
        assert a[k + 1] == r && forall j :: 0 <= j < k + 1 ==> a[j].None?;
        r
      else
        r
  }

  function ErrorMessage(s: string): string {
    "Unable to parse date: " + s
  }

  /** `deserialize_optional_datetime`: null/absent and "" give no date; otherwise
      the attempts run one after another and the first that succeeds decides. */
  function ParseOptionalDate(input: Option<string>, f: DateFormats): (r: Decoded<Option<Time>>)
    ensures input.None? || input.value == "" ==> r == Parsed(None)
    ensures r.Malformed? ==> input.Some? && r.message == ErrorMessage(input.value)
  {
    match input
    case None => Parsed(None)
    case Some(s) =>
      if s == [] then Parsed(None)
      else if f.rfc3339(s).Some? then Parsed(f.rfc3339(s))
      else if f.parseI64(s).Some? && f.fromMillis(f.parseI64(s).value).Some? then
        Parsed(f.fromMillis(f.parseI64(s).value))
      else if f.parseI64(s).Some? && f.fromSeconds(f.parseI64(s).value).Some? then
        Parsed(f.fromSeconds(f.parseI64(s).value))
      else if f.naiveFractional(s).Some? then Parsed(f.naiveFractional(s))
      else if f.naiveSpaced(s).Some? then Parsed(f.naiveSpaced(s))
      else if DateOnly(s, f).Some? then Parsed(DateOnly(s, f))
      else Malformed(ErrorMessage(s))
  }

  /** The parser is "first success wins" over the attempt list: a non-empty string is
      rejected exactly when every attempt fails, and otherwise yields the earliest success. */
  lemma ParseIsFirstSuccess(s: string, f: DateFormats)
    requires s != ""
    ensures ParseOptionalDate(Some(s), f).Malformed? <==> forall i :: 0 <= i < 6 ==> Attempts(s, f)[i].None?
    ensures ParseOptionalDate(Some(s), f).Parsed? ==> ParseOptionalDate(Some(s), f).value == FirstSuccess(Attempts(s, f))
  {
    var a := Attempts(s, f);
    assert a[1] == FromMillisText(s, f) && a[2] == FromSecondsText(s, f) && a[5] == DateOnly(s, f);
    // Unfold the search one attempt at a time.
    assert a[0].None? ==> FirstSuccess(a) == FirstSuccess(a[1..]);
    assert a[1].None? ==> FirstSuccess(a[1..]) == FirstSuccess(a[2..]);
    assert a[2].None? ==> FirstSuccess(a[2..]) == FirstSuccess(a[3..]);
    assert a[3].None? ==> FirstSuccess(a[3..]) == FirstSuccess(a[4..]);
    assert a[4].None? ==> FirstSuccess(a[4..]) == FirstSuccess(a[5..]);
  }

  /** An integer string is read as milliseconds whenever that conversion succeeds and
      the text is not RFC 3339; it is read as seconds only when the millisecond conversion failed. */
  lemma IntegersAreMillisFirst(s: string, f: DateFormats, n: int)
    requires s != "" && f.rfc3339(s).None? && f.parseI64(s) == Some(n)
    ensures f.fromMillis(n).Some? ==> ParseOptionalDate(Some(s), f) == Parsed(f.fromMillis(n))
    ensures f.fromMillis(n).None? && f.fromSeconds(n).Some? ==> ParseOptionalDate(Some(s), f) == Parsed(f.fromSeconds(n))
  {
  }

  /** chrono's ranges: a count of seconds covers a thousand times the span of the same
      count of milliseconds, so whatever is out of range as milliseconds is also out of
      range as seconds. */
  ghost predicate ChronoRanges(f: DateFormats) {
    forall n :: f.fromMillis(n).None? ==> f.fromSeconds(n).None?
  }

  /** Under chrono's ranges the seconds attempt never decides: whenever it would succeed
      the millisecond attempt before it has already succeeded, so the parser's answer is the
      first success of the other five attempts. */
  lemma SecondsAttemptNeverDecides(s: string, f: DateFormats)
    requires s != "" && ChronoRanges(f)
    ensures FromSecondsText(s, f).Some? ==> FromMillisText(s, f).Some?
    ensures ParseOptionalDate(Some(s), f).Parsed? ==>
            ParseOptionalDate(Some(s), f).value == FirstSuccess(Attempts(s, f)[..2] + Attempts(s, f)[3..])
  {
    ParseIsFirstSuccess(s, f);
    var a := Attempts(s, f);
    var b := a[..2] + a[3..];
    assert b == [a[0], a[1], a[3], a[4], a[5]];
    assert a[0].None? ==> FirstSuccess(a) == FirstSuccess(a[1..]) && FirstSuccess(b) == FirstSuccess(b[1..]);
    assert a[1].None? ==> FirstSuccess(a[1..]) == FirstSuccess(a[2..]) && FirstSuccess(b[1..]) == FirstSuccess(b[2..]);
    assert a[1].None? ==> a[2].None? && FirstSuccess(a[2..]) == FirstSuccess(a[3..]);
    assert b[2..] == a[3..];
  }

  /** A bare date that no earlier format accepts is read as midnight UTC of that day. */
  lemma DateOnlyIsMidnight(s: string, f: DateFormats)
    requires s != ""
    requires forall i :: 0 <= i < 5 ==> Attempts(s, f)[i].None?
    ensures ParseOptionalDate(Some(s), f) ==
            (if f.naiveSpaced(s + " 00:00:00").Some? then Parsed(f.naiveSpaced(s + " 00:00:00"))
             else Malformed("Unable to parse date: " + s))
  {
    var a := Attempts(s, f);
    assert a[0].None? && a[1].None? && a[2].None? && a[3].None? && a[4].None?;
  }

  // ---------------------------------------------------------------------------
  // The fixed category name lists

  function IncomeCategoryNames(): (r: seq<string>)
    ensures |r| == 5
  {
    ["Salary", "Business", "Investment", "Gift", "Other Income"]
  }

  function ExpenseCategoryNames(): (r: seq<string>)
    ensures |r| == 8
  {
    ["Food", "Transportation", "Shopping", "Entertainment", "Bills", "Medical", "Education", "Other Expense"]
  }

  /** Every listed name is distinct, and no name is both an income and an expense category. */
  lemma CategoryNamesDistinct()
    ensures forall i, j :: 0 <= i < j < 5 ==> IncomeCategoryNames()[i] != IncomeCategoryNames()[j]
    ensures forall i, j :: 0 <= i < j < 8 ==> ExpenseCategoryNames()[i] != ExpenseCategoryNames()[j]
    ensures forall n :: n in IncomeCategoryNames() ==> n !in ExpenseCategoryNames()
  {
  }
}
