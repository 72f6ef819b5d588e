/** The legacy `accounts` endpoints (src/handlers/account.rs): the statements
    match on `id` alone, so any caller reaches any account, and every storage
    failure, a taken id included, is a 500. */
module AccountHandlers {
  import opened Common
  import opened AccountModel
  import Tables

  /** The `account_type` column as the handler writes it: the lower-cased `Debug` name. */
  function AccountTypeColumnAsWritten(t: AccountType): string {
    LowerAscii(DebugName(t))
  }

  /** Lower-casing `s` letter by letter gives `l`. */
  lemma LowersTo(s: string, l: string)
    requires |s| == |l| && forall i :: 0 <= i < |s| ==> LowerChar(s[i]) == l[i]
    ensures LowerAscii(s) == l
  {
  }

  // The variant is a parameter rather than a literal so that the verifier
  // reasons about the lower-casing letter by letter instead of unfolding it.

  lemma MobileBankingAsWritten(t: AccountType)
    requires t == MobileBanking
    ensures AccountTypeColumnAsWritten(t) == "mobilebanking"
  {
    assert LowerChar('M') == 'm' && LowerChar('B') == 'b';
    LowersTo(DebugName(t), "mobilebanking");
  }

  lemma CreditCardAsWritten(t: AccountType)
    requires t == CreditCard
    ensures AccountTypeColumnAsWritten(t) == "creditcard"
  {
    assert LowerChar('C') == 'c';
    LowersTo(DebugName(t), "creditcard");
  }

  /** No name the decoder accepts is 13 letters long, and its only 10-letter name starts with 'i'. */
  lemma NotADecoderName(s: string)
    requires |s| == 13 || (|s| == 10 && s[0] == 'c')
    ensures DecodeAccountType(s) == None
  {
  }

  /** The two variants whose `Debug` name has an inner capital are written without the
      underscore the decoder expects, so a row holding either one does not read back. */
  lemma AsWrittenColumnUnreadable(t: AccountType)
    requires t.MobileBanking? || t.CreditCard?
    ensures DecodeAccountType(AccountTypeColumnAsWritten(t)) == None
  {
    if t.MobileBanking? {
      MobileBankingAsWritten(t);
    } else {
      CreditCardAsWritten(t);
    }
    NotADecoderName(AccountTypeColumnAsWritten(t));
  }

  /** The other five variants are written exactly as the decoder expects. */
  lemma AsWrittenColumnOthersReadable(t: AccountType)
    requires !t.MobileBanking? && !t.CreditCard?
    ensures AccountTypeColumnAsWritten(t) == SqlxName(t)
    ensures DecodeAccountType(AccountTypeColumnAsWritten(t)) == Some(t)
  {
    assert LowerChar('W') == 'w' && LowerChar('B') == 'b' && LowerChar('C') == 'c';
    assert LowerChar('I') == 'i' && LowerChar('S') == 's';
    LowersTo(DebugName(t), SqlxName(t));
    SqlxNameRoundTrip(t);
  }

  /** The variants whose as-written column text reads back. */
  predicate WrittenReadable(t: AccountType) {
    !t.MobileBanking? && !t.CreditCard?
  }

  /** What the decoder makes of each as-written column text: the variant itself for
      five of them, nothing for MobileBanking and CreditCard. */
  lemma AsWrittenColumnDecodes(t: AccountType)
    ensures DecodeAccountType(AccountTypeColumnAsWritten(t)) == (if WrittenReadable(t) then Some(t) else None)
  {
    if WrittenReadable(t) {
      AsWrittenColumnOthersReadable(t);
    } else {
      AsWrittenColumnUnreadable(t);
    }
  }

  /** The `account_type` column as it has to be written for the row to read back:
      the decoder's own name for the variant. */
  function AccountTypeColumn(t: AccountType): (s: string)
    ensures DecodeAccountType(s) == Some(t)
  {
    SqlxNameRoundTrip(t);
    SqlxName(t)
  }

  /** A stored `accounts` row; `account_type` is kept as the text in the column. */
  datatype AccountRow = AccountRow(id: string, userId: string, name: string, accountType: string,
                                   balance: real, currency: string, creditLimit: Option<real>,
                                   createdAt: Time, updatedAt: Time)

  /** The row an `INSERT` of an account writes, the type as the handler spells it. */
  function ToRow(a: Account): (r: AccountRow)
    ensures r.id == a.id && r.userId == a.userId && r.accountType == AccountTypeColumnAsWritten(a.accountType)
  {
    AccountRow(a.id, a.userId, a.name, AccountTypeColumnAsWritten(a.accountType), a.balance, a.currency,
               a.creditLimit, a.createdAt, a.updatedAt)
  }

  /** The row the corrected writer would store: the type under the decoder's own name. */
  function CorrectedRow(a: Account): AccountRow {
    ToRow(a).(accountType := AccountTypeColumn(a.accountType))
  }

  /** Reading a row back as an `Account`, which fails on an unknown type name. */
  function FromRow(r: AccountRow): (a: Option<Account>)
    ensures a.Some? <==> DecodeAccountType(r.accountType).Some?
  {
    match DecodeAccountType(r.accountType)
    case Some(t) => Some(Account(r.id, r.userId, r.name, t, r.balance, r.currency, r.creditLimit,
                                 r.createdAt, r.updatedAt))
    case None => None
  }

  /** Writing then reading gives the account back exactly when its type is one of the
      five whose written text the decoder accepts; for the other two the row is unreadable.
      Conversely, a readable row of those five types is what writing its reading gives. */
  lemma RowRoundTrip(a: Account, r: AccountRow)
    ensures FromRow(ToRow(a)) == (if WrittenReadable(a.accountType) then Some(a) else None)
    ensures FromRow(r).Some? && WrittenReadable(FromRow(r).value.accountType) ==> ToRow(FromRow(r).value) == r
  {
    AsWrittenColumnDecodes(a.accountType);
    if FromRow(r).Some? && WrittenReadable(FromRow(r).value.accountType) {
      AsWrittenColumnOthersReadable(FromRow(r).value.accountType);
    }
  }

  /** With the corrected writer every account reads back, whatever its type. */
  lemma CorrectedRowRoundTrip(a: Account)
    ensures FromRow(CorrectedRow(a)) == Some(a)
  {
  }

  /** `UPDATE accounts SET col = COALESCE(?, col), ..., updated_at = ? WHERE id = ?`;
      a supplied type is stored as the handler spells it, and `credit_limit` can be
      replaced but never cleared. */
  function Patched(r: AccountRow, p: UpdateAccountRequest, now: Time): (q: AccountRow)
    ensures q.id == r.id && q.userId == r.userId && q.createdAt == r.createdAt
    ensures q.updatedAt == now
    ensures q.name == (if p.name.Some? then p.name.value else r.name)
    ensures q.accountType == (if p.accountType.Some? then AccountTypeColumnAsWritten(p.accountType.value) else r.accountType)
    ensures q.balance == (if p.balance.Some? then p.balance.value else r.balance)
    ensures q.currency == (if p.currency.Some? then p.currency.value else r.currency)
    ensures q.creditLimit == (if p.creditLimit.Some? then p.creditLimit else r.creditLimit)
  {
    var column := if p.accountType.Some? then Some(AccountTypeColumnAsWritten(p.accountType.value)) else None;
    r.(name := p.name.GetOr(r.name), accountType := column.GetOr(r.accountType),
       balance := p.balance.GetOr(r.balance), currency := p.currency.GetOr(r.currency),
       creditLimit := CoalesceNullable(p.creditLimit, r.creditLimit), updatedAt := now)
  }

  const NoChange := UpdateAccountRequest(None, None, None, None, None)

  /** An update that supplies no field only moves `updated_at`. */
  lemma EmptyPatchOnlyRestamps(r: AccountRow, now: Time)
    ensures Patched(r, NoChange, now) == r.(updatedAt := now)
  {
  }

  /** Updating a readable row reads back as the account with the supplied fields replaced,
      unless the update sets MobileBanking or CreditCard: then the row no longer reads back. */
  lemma PatchedReadsBack(r: AccountRow, p: UpdateAccountRequest, now: Time)
    requires FromRow(r).Some?
    ensures FromRow(Patched(r, p, now)) ==
            if p.accountType.Some? && !WrittenReadable(p.accountType.value) then None else
            Some(FromRow(r).value.(name := p.name.GetOr(r.name),
                                   accountType := p.accountType.GetOr(FromRow(r).value.accountType),
                                   balance := p.balance.GetOr(r.balance),
                                   currency := p.currency.GetOr(r.currency),
                                   creditLimit := CoalesceNullable(p.creditLimit, r.creditLimit),
                                   updatedAt := now))
  {
    if p.accountType.Some? {
      AsWrittenColumnDecodes(p.accountType.value);
    }
  }

  function IdOf(r: AccountRow): string { r.id }

  function AccountId(a: Account): string { a.id }

  /** No `WHERE` clause. */
  function Everything(r: AccountRow): bool { true }

  /** `ORDER BY created_at DESC` */
  predicate NewestFirst(a: AccountRow, b: AccountRow) {
    a.createdAt >= b.createdAt
  }

  lemma NewestFirstIsOrder()
    ensures Tables.TotalPreorder(NewestFirst)
  {
  }

  /** The `accounts` table, keyed by `id`. */
  class AccountTable {
    var rows: map<string, AccountRow>

    /** Rows sit under their own id. Their type text need not read back. */
    ghost predicate Valid()
      reads this
    {
      forall id :: id in rows ==> rows[id].id == id
    }

    constructor ()
      ensures Valid() && rows == map[]
    {
      rows := map[];
    }

    /** The rows that read back as accounts, each under its id, as `query_as::<Account>`
        decodes them; the rows it cannot decode are absent. */
    function Accounts(): (m: map<string, Account>)
      requires Valid()
      reads this
      ensures forall id :: id in m <==> id in rows && FromRow(rows[id]).Some?
      ensures forall id :: id in m ==> m[id].id == id && FromRow(rows[id]) == Some(m[id])
    {
      map id | id in rows && FromRow(rows[id]).Some? :: FromRow(rows[id]).value
    }

    /** `get_account`: the row with that id, whoever owns it; 404 when there is none. */
    function Get(id: string, dbError: bool): (r: Outcome<AccountRow>)
      requires Valid()
      reads this
      ensures r.Success? <==> !dbError && id in rows
      ensures r.Success? ==> r.value == rows[id] && r.value.id == id
      ensures r.Failure? ==> r.status == (if dbError then Internal else NotFound)
    {
      if dbError then Failure(Internal)
      else if id in rows then Success(rows[id])
      else Failure(NotFound)
    }

    /** `create_account`: inserts the constructed account; any failure, a taken id
        included, is a 500 that leaves the table alone. */
    method Create(owner: string, req: CreateAccountRequest, freshId: string, now: Time, dbError: bool)
      returns (r: Outcome<Account>)
      requires Valid()
      modifies this
      ensures Valid()
      ensures var a := NewAccount(req, owner, freshId, now);
              r == (if dbError || a.id in old(rows) then Failure(Internal) else Success(a))
      ensures r.Success? ==> rows == old(rows)[r.value.id := ToRow(r.value)]
      ensures r.Failure? ==> rows == old(rows)
      ensures r.Success? ==> Get(r.value.id, false) == Success(ToRow(r.value))
      ensures r.Success? ==> (r.value.id in Accounts() <==> WrittenReadable(r.value.accountType))
      ensures r.Success? && WrittenReadable(r.value.accountType) ==> Accounts()[r.value.id] == r.value
    {
      var a := NewAccount(req, owner, freshId, now);
      if dbError || a.id in rows {
        r := Failure(Internal);
      } else {
        RowRoundTrip(a, ToRow(a));
        rows := rows[a.id := ToRow(a)];
        r := Success(a);
      }
    }

    /** `get_accounts`: every account, whoever owns it, newest first. */
    method List(dbError: bool) returns (r: Outcome<seq<AccountRow>>)
      requires Valid()
      ensures r.Failure? <==> dbError
      ensures r.Failure? ==> r.status == Internal
      ensures r.Success? ==> Tables.IsListing(rows, IdOf, Everything, NewestFirst, r.value)
    {
      if dbError {
        return Failure(Internal);
      }
      NewestFirstIsOrder();
      var rs := Tables.SelectOrdered(rows, IdOf, Everything, NewestFirst);
      r := Success(rs);
    }

    /** `update_account`: merges the supplied fields into the row with that id and
        restamps it; 404 and no change when there is none. */
    method Update(id: string, p: UpdateAccountRequest, now: Time, dbError: bool) returns (r: Outcome<string>)
      requires Valid()
      modifies this
      ensures Valid()
      ensures r.Success? <==> !dbError && id in old(rows)
      ensures r.Success? ==> r.value == "Account updated successfully"
      ensures r.Failure? ==> r.status == (if dbError then Internal else NotFound) && rows == old(rows)
      ensures r.Success? ==> rows == old(rows)[id := Patched(old(rows)[id], p, now)]
      ensures r.Success? && p.accountType.Some? && !WrittenReadable(p.accountType.value) ==> id !in Accounts()
    {
      if dbError {
        r := Failure(Internal);
      } else if id in rows {
        if p.accountType.Some? {
          AsWrittenColumnDecodes(p.accountType.value);
        }
        rows := rows[id := Patched(rows[id], p, now)];
        r := Success("Account updated successfully");
      } else {
        r := Failure(NotFound);
      }
    }

    /** `delete_account`: removes the row with that id and nothing else; 404 when there is none. */
    method Delete(id: string, dbError: bool) returns (r: Outcome<string>)
      requires Valid()
      modifies this
      ensures Valid()
      ensures r.Success? <==> !dbError && id in old(rows)
      ensures r.Success? ==> r.value == "Account deleted successfully" && rows == old(rows) - {id}
      ensures r.Failure? ==> r.status == (if dbError then Internal else NotFound) && rows == old(rows)
      ensures !dbError ==> Get(id, false) == Failure(NotFound)
    {
      if dbError {
        r := Failure(Internal);
      } else if id in rows {
        rows := rows - {id};
        r := Success("Account deleted successfully");
      } else {
        r := Failure(NotFound);
      }
    }
  }
}
