/** The legacy `transactions` endpoints (src/handlers/transaction.rs): the statements
    match on `id` alone, every storage failure is a 500, and an update changes no
    timestamp (the table has no `updated_at`). */
module TransactionHandlers {
  import opened Common
  import opened TransactionModel
  import Tables

  /** A stored `transactions` row; `transaction_type` is kept as the text in the column. */
  datatype TransactionRow = TransactionRow(id: string, userId: string, accountId: string, transactionType: string,
                                           amount: real, currency: string, category: Option<string>,
                                           description: Option<string>, date: Time, createdAt: Time)

  /** The row an `INSERT` of a transaction writes. */
  function ToRow(t: Transaction): TransactionRow {
    TransactionRow(t.id, t.userId, t.accountId, TypeColumn(t.transactionType), t.amount, t.currency,
                   t.category, t.description, t.date, t.createdAt)
  }

  /** Reading a row back as a `Transaction`, which fails on an unknown type name. */
  function FromRow(r: TransactionRow): (t: Option<Transaction>)
    ensures t.Some? <==> DecodeTransactionType(r.transactionType).Some?
  {
    match DecodeTransactionType(r.transactionType)
    case Some(k) => Some(Transaction(r.id, r.userId, r.accountId, k, r.amount, r.currency, r.category,
                                     r.description, r.date, r.createdAt))
    case None => None
  }

  /** Writing then reading gives the transaction back, and a readable row is exactly
      what writing its reading gives. */
  lemma RowRoundTrip(t: Transaction, r: TransactionRow)
    ensures FromRow(ToRow(t)) == Some(t)
    ensures FromRow(r).Some? ==> ToRow(FromRow(r).value) == r
  {
    TypeColumnRoundTrip(t.transactionType);
    if FromRow(r).Some? {
      TypeColumnRoundTrip(FromRow(r).value.transactionType);
    }
  }

  /** `UPDATE transactions SET col = COALESCE(?, col), ... WHERE id = ?`: seven fields can be
      replaced, `category` and `description` never cleared, and nothing is restamped. */
  function Patched(r: TransactionRow, p: UpdateTransactionRequest): (q: TransactionRow)
    ensures q.id == r.id && q.userId == r.userId && q.createdAt == r.createdAt
    ensures q.accountId == (if p.accountId.Some? then p.accountId.value else r.accountId)
    ensures q.transactionType == (if p.transactionType.Some? then TypeColumn(p.transactionType.value) else r.transactionType)
    ensures q.amount == (if p.amount.Some? then p.amount.value else r.amount)
    ensures q.currency == (if p.currency.Some? then p.currency.value else r.currency)
    ensures q.category == (if p.category.Some? then p.category else r.category)
    ensures q.description == (if p.description.Some? then p.description else r.description)
    ensures q.date == (if p.date.Some? then p.date.value else r.date)
  {
    var column := if p.transactionType.Some? then Some(TypeColumn(p.transactionType.value)) else None;
    r.(accountId := p.accountId.GetOr(r.accountId), transactionType := column.GetOr(r.transactionType),
       amount := p.amount.GetOr(r.amount), currency := p.currency.GetOr(r.currency),
       category := CoalesceNullable(p.category, r.category),
       description := CoalesceNullable(p.description, r.description), date := p.date.GetOr(r.date))
  }

  const NoChange := UpdateTransactionRequest(None, None, None, None, None, None, None)

  /** With no timestamp column, an update that supplies no field changes nothing at all. */
  lemma EmptyPatchChangesNothing(r: TransactionRow)
    ensures Patched(r, NoChange) == r
  {
  }

  /** Sending the same update twice leaves what sending it once did. */
  lemma PatchIdempotent(r: TransactionRow, p: UpdateTransactionRequest)
    ensures Patched(Patched(r, p), p) == Patched(r, p)
  {
  }

  /** Once a transaction has a category or a description, no update can take it away. */
  lemma NullableNeverCleared(r: TransactionRow, p: UpdateTransactionRequest)
    ensures r.category.Some? ==> Patched(r, p).category.Some?
    ensures r.description.Some? ==> Patched(r, p).description.Some?
  {
  }

  /** Updating a readable row reads back as the transaction with the supplied fields replaced. */
  lemma PatchedReadsBack(r: TransactionRow, p: UpdateTransactionRequest)
    requires FromRow(r).Some?
    ensures FromRow(Patched(r, p)) ==
            Some(FromRow(r).value.(accountId := p.accountId.GetOr(r.accountId),
                                   transactionType := p.transactionType.GetOr(FromRow(r).value.transactionType),
                                   amount := p.amount.GetOr(r.amount),
                                   currency := p.currency.GetOr(r.currency),
                                   category := CoalesceNullable(p.category, r.category),
                                   description := CoalesceNullable(p.description, r.description),
                                   date := p.date.GetOr(r.date)))
  {
    if p.transactionType.Some? {
      TypeColumnRoundTrip(p.transactionType.value);
    }
  }

  function IdOf(r: TransactionRow): string { r.id }

  /** No `WHERE` clause. */
  function Everything(r: TransactionRow): bool { true }

  /** `ORDER BY date DESC` */
  predicate LatestFirst(a: TransactionRow, b: TransactionRow) {
    a.date >= b.date
  }

  lemma LatestFirstIsOrder()
    ensures Tables.TotalPreorder(LatestFirst)
  {
  }

  /** The `transactions` table, keyed by `id`. */
  class TransactionTable {
    var rows: map<string, TransactionRow>

    /** Rows sit under their own id, and every stored type name reads back. */
    ghost predicate Valid()
      reads this
    {
      forall id :: id in rows ==> rows[id].id == id && FromRow(rows[id]).Some?
    }

    constructor ()
      ensures Valid() && rows == map[]
    {
      rows := map[];
    }

    /** The table read back as transactions, as a `query_as::<Transaction>` scan sees it. */
    function Transactions(): (m: map<string, Transaction>)
      requires Valid()
      reads this
      ensures m.Keys == rows.Keys
      ensures forall id :: id in m ==> m[id].id == id && ToRow(m[id]) == rows[id]
    {
      var m := map id | id in rows :: FromRow(rows[id]).value;
      assert forall id :: id in m ==> ToRow(m[id]) == rows[id] by {
        forall id | id in m
          ensures ToRow(m[id]) == rows[id]
        {
          RowRoundTrip(m[id], rows[id]);
        }
      }
      m
    }

    /** `get_transaction`: the row with that id, whoever owns it; 404 when there is none. */
    function Get(id: string, dbError: bool): (r: Outcome<TransactionRow>)
      requires Valid()
      reads this
      ensures r.Success? <==> !dbError && id in rows
      ensures r.Success? ==> r.value == rows[id] && r.value.id == id
      ensures r.Failure? ==> r.status == (if dbError then Internal else NotFound)
    {
      if dbError then Failure(Internal)
      else if id in rows then Success(rows[id])
      else Failure(NotFound)
    }

    /** `create_transaction`: inserts the constructed transaction under its fresh id;
        any failure is a 500 that leaves the table alone. */
    method Create(owner: string, req: CreateTransactionRequest, freshId: string, now: Time, dbError: bool)
      returns (r: Outcome<Transaction>)
      requires Valid()
      modifies this
      ensures Valid()
      ensures var t := NewTransaction(req, owner, freshId, now);
              r == (if dbError || t.id in old(rows) then Failure(Internal) else Success(t))
      ensures r.Success? ==> rows == old(rows)[r.value.id := ToRow(r.value)]
      ensures r.Failure? ==> rows == old(rows)
      ensures r.Success? ==> Get(r.value.id, false) == Success(ToRow(r.value)) &&
                             Transactions()[r.value.id] == r.value
    {
      var t := NewTransaction(req, owner, freshId, now);
      if dbError || t.id in rows {
        r := Failure(Internal);
      } else {
        RowRoundTrip(t, ToRow(t));
        rows := rows[t.id := ToRow(t)];
        r := Success(t);
      }
    }

    /** `get_transactions`: every transaction, whoever owns it, latest date first. */
    method List(dbError: bool) returns (r: Outcome<seq<TransactionRow>>)
      requires Valid()
      ensures r.Failure? <==> dbError
      ensures r.Failure? ==> r.status == Internal
      ensures r.Success? ==> Tables.IsListing(rows, IdOf, Everything, LatestFirst, r.value)
    {
      if dbError {
        return Failure(Internal);
      }
      LatestFirstIsOrder();
      var rs := Tables.SelectOrdered(rows, IdOf, Everything, LatestFirst);
      r := Success(rs);
    }

    /** `update_transaction`: merges the supplied fields into the row with that id;
        404 and no change when there is none. */
    method Update(id: string, p: UpdateTransactionRequest, dbError: bool) returns (r: Outcome<string>)
      requires Valid()
      modifies this
      ensures Valid()
      ensures r.Success? <==> !dbError && id in old(rows)
      ensures r.Success? ==> r.value == "Transaction updated successfully"
      ensures r.Failure? ==> r.status == (if dbError then Internal else NotFound) && rows == old(rows)
      ensures r.Success? ==> rows == old(rows)[id := Patched(old(rows)[id], p)]
    {
      if dbError {
        r := Failure(Internal);
      } else if id in rows {
        PatchedReadsBack(rows[id], p);
        rows := rows[id := Patched(rows[id], p)];
        r := Success("Transaction updated successfully");
      } else {
        r := Failure(NotFound);
      }
    }

    /** `delete_transaction`: removes the row with that id and nothing else; 404 when there is none. */
    method Delete(id: string, dbError: bool) returns (r: Outcome<string>)
      requires Valid()
      modifies this
      ensures Valid()
      ensures r.Success? <==> !dbError && id in old(rows)
      ensures r.Success? ==> r.value == "Transaction deleted successfully" && rows == old(rows) - {id}
      ensures r.Failure? ==> r.status == (if dbError then Internal else NotFound) && rows == old(rows)
      ensures !dbError ==> Get(id, false) == Failure(NotFound)
    {
      if dbError {
        r := Failure(Internal);
      } else if id in rows {
        rows := rows - {id};
        r := Success("Transaction deleted successfully");
      } else {
        r := Failure(NotFound);
      }
    }
  }
}
