/** The `recurring_transactions` endpoints (src/handlers/recurring_transaction.rs):
    scoped to the authenticated principal like budgets, newest first. */
module RecurringTransactionHandlers {
  import opened Common
  import opened RecurringTransactionModel
  import Tables

  /** `UPDATE recurring_transactions SET col = COALESCE(?, col), ..., updated_at = ?` over all
      twelve business columns; the nullable `category`, `description`, `end_date` and
      `savings_goal_id` can be replaced but never cleared. */
  function Patched(t: RecurringTransaction, p: UpdateRecurringTransactionRequest, now: Time): (r: RecurringTransaction)
    ensures r.id == t.id && r.userId == t.userId && r.createdAt == t.createdAt
    ensures r.updatedAt == now
    ensures r.accountId == (if p.accountId.Some? then p.accountId.value else t.accountId)
    ensures r.transactionType == (if p.transactionType.Some? then p.transactionType.value else t.transactionType)
    ensures r.amount == (if p.amount.Some? then p.amount.value else t.amount)
    ensures r.currency == (if p.currency.Some? then p.currency.value else t.currency)
    ensures r.category == (if p.category.Some? then p.category else t.category)
    ensures r.description == (if p.description.Some? then p.description else t.description)
    ensures r.frequency == (if p.frequency.Some? then p.frequency.value else t.frequency)
    ensures r.startDate == (if p.startDate.Some? then p.startDate.value else t.startDate)
    ensures r.endDate == (if p.endDate.Some? then p.endDate else t.endDate)
    ensures r.nextDueDate == (if p.nextDueDate.Some? then p.nextDueDate.value else t.nextDueDate)
    ensures r.isActive == (if p.isActive.Some? then p.isActive.value else t.isActive)
    ensures r.savingsGoalId == (if p.savingsGoalId.Some? then p.savingsGoalId else t.savingsGoalId)
  {
    t.(accountId := p.accountId.GetOr(t.accountId), transactionType := p.transactionType.GetOr(t.transactionType),
       amount := p.amount.GetOr(t.amount), currency := p.currency.GetOr(t.currency),
       category := CoalesceNullable(p.category, t.category),
       description := CoalesceNullable(p.description, t.description),
       frequency := p.frequency.GetOr(t.frequency), startDate := p.startDate.GetOr(t.startDate),
       endDate := CoalesceNullable(p.endDate, t.endDate), nextDueDate := p.nextDueDate.GetOr(t.nextDueDate),
       isActive := p.isActive.GetOr(t.isActive),
       savingsGoalId := CoalesceNullable(p.savingsGoalId, t.savingsGoalId),
       updatedAt := now)
  }

  const NoChange := UpdateRecurringTransactionRequest(None, None, None, None, None, None, None, None, None, None, None, None)

  /** An update that supplies no field only moves `updated_at`. */
  lemma EmptyPatchOnlyRestamps(t: RecurringTransaction, now: Time)
    ensures Patched(t, NoChange, now) == t.(updatedAt := now)
  {
  }

  /** Sending the same update twice leaves what sending it once did (up to the stamp). */
  lemma PatchIdempotent(t: RecurringTransaction, p: UpdateRecurringTransactionRequest, t1: Time, t2: Time)
    ensures Patched(Patched(t, p, t1), p, t2) == Patched(t, p, t2)
  {
  }

  /** Once set, an end date or a linked savings goal cannot be removed through an update. */
  lemma NullableNeverCleared(t: RecurringTransaction, p: UpdateRecurringTransactionRequest, now: Time)
    ensures t.endDate.Some? ==> Patched(t, p, now).endDate.Some?
    ensures t.savingsGoalId.Some? ==> Patched(t, p, now).savingsGoalId.Some?
    ensures t.category.Some? ==> Patched(t, p, now).category.Some?
    ensures t.description.Some? ==> Patched(t, p, now).description.Some?
  {
  }

  function IdOf(t: RecurringTransaction): string { t.id }

  /** `WHERE user_id = ?` */
  function OwnedBy(principal: string): RecurringTransaction -> bool {
    (t: RecurringTransaction) => t.userId == principal
  }

  /** `ORDER BY created_at DESC` */
  predicate NewestFirst(a: RecurringTransaction, b: RecurringTransaction) {
    a.createdAt >= b.createdAt
  }

  lemma NewestFirstIsOrder()
    ensures Tables.TotalPreorder(NewestFirst)
  {
  }

  /** The `recurring_transactions` table, keyed by `id`. */
  class RecurringTransactionTable {
    var rows: map<string, RecurringTransaction>

    ghost predicate Valid()
      reads this
    {
      forall id :: id in rows ==> rows[id].id == id
    }

    constructor ()
      ensures Valid() && rows == map[]
    {
      rows := map[];
    }

    /** `WHERE id = ? AND user_id = ?` matches a row. */
    predicate Owns(principal: string, id: string)
      reads this
    {
      id in rows && rows[id].userId == principal
    }

    /** `get_recurring_transaction`: the row only when it exists and belongs to the principal; 404 otherwise. */
    function Get(principal: string, id: string, dbError: bool): (r: Outcome<RecurringTransaction>)
      requires Valid()
      reads this
      ensures r.Success? <==> !dbError && id in rows && rows[id].userId == principal
      ensures r.Success? ==> r.value == rows[id] && r.value.id == id
      ensures r.Failure? ==> r.status == (if dbError then Internal else NotFound)
    {
      if dbError then Failure(Internal)
      else if Owns(principal, id) then Success(rows[id])
      else Failure(NotFound)
    }

    /** `create_recurring_transaction`: the row built from the request, owned by the principal whatever
        the body says; a taken id is a 409 and leaves the table alone, whoever owns it. */
    method Create(principal: string, req: CreateRecurringTransactionRequest, freshId: string, now: Time, dbError: bool)
      returns (r: Outcome<RecurringTransaction>)
      requires Valid()
      modifies this
      ensures Valid()
      ensures var t := NewRecurringTransaction(req, principal, freshId, now);
              r == (if dbError then Failure(Internal)
                    else if t.id in old(rows) then Failure(Conflict)
                    else Success(t))
      ensures r.Success? ==> rows == old(rows)[r.value.id := r.value]
      ensures r.Failure? ==> rows == old(rows)
      ensures r.Success? ==> r.value.userId == principal && Get(principal, r.value.id, false) == Success(r.value)
    {
      var t := NewRecurringTransaction(req, principal, freshId, now);
      if dbError {
        r := Failure(Internal);
      } else if t.id in rows {
        r := Failure(Conflict);
      } else {
        rows := rows[t.id := t];
        r := Success(t);
      }
    }

    /** `get_recurring_transactions`: exactly the principal's recurring transactions, newest first; none is still a success. */
    method List(principal: string, dbError: bool) returns (r: Outcome<seq<RecurringTransaction>>)
      requires Valid()
      ensures r.Failure? <==> dbError
      ensures r.Failure? ==> r.status == Internal
      ensures r.Success? ==> Tables.IsListing(rows, IdOf, OwnedBy(principal), NewestFirst, r.value)
    {
      if dbError {
        return Failure(Internal);
      }
      NewestFirstIsOrder();
      var rs := Tables.SelectOrdered(rows, IdOf, OwnedBy(principal), NewestFirst);
      r := Success(rs);
    }

    /** `update_recurring_transaction`: merges the supplied fields into the principal's row and restamps it;
        404 and no change when no owned row has that id. No other row is touched. */
    method Update(principal: string, id: string, p: UpdateRecurringTransactionRequest, now: Time, dbError: bool)
      returns (r: Outcome<string>)
      requires Valid()
      modifies this
      ensures Valid()
      ensures r.Success? <==> !dbError && old(Owns(principal, id))
      ensures r.Success? ==> r.value == "Recurring transaction updated successfully"
      ensures r.Failure? ==> r.status == (if dbError then Internal else NotFound) && rows == old(rows)
      ensures r.Success? ==> rows == old(rows)[id := Patched(old(rows)[id], p, now)]
      ensures r.Success? ==> Get(principal, id, false) == Success(Patched(old(rows)[id], p, now))
    {
      if dbError {
        r := Failure(Internal);
      } else if Owns(principal, id) {
        rows := rows[id := Patched(rows[id], p, now)];
        r := Success("Recurring transaction updated successfully");
      } else {
        r := Failure(NotFound);
      }
    }

    /** `delete_recurring_transaction`: removes the principal's row with that id and nothing else;
        404 and no change when there is none. */
    method Delete(principal: string, id: string, dbError: bool) returns (r: Outcome<string>)
      requires Valid()
      modifies this
      ensures Valid()
      ensures r.Success? <==> !dbError && old(Owns(principal, id))
      ensures r.Success? ==> r.value == "Recurring transaction deleted successfully" && rows == old(rows) - {id}
      ensures r.Failure? ==> r.status == (if dbError then Internal else NotFound) && rows == old(rows)
      ensures !dbError ==> Get(principal, id, false) == Failure(NotFound)
    {
      if dbError {
        r := Failure(Internal);
      } else if Owns(principal, id) {
        rows := rows - {id};
        r := Success("Recurring transaction deleted successfully");
      } else {
        r := Failure(NotFound);
      }
    }
  }
}
