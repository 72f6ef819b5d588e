/** The `budgets` endpoints (src/handlers/budget.rs): every statement is scoped
    to the authenticated principal, so a row owned by somebody else behaves
    exactly like a missing one. */
module BudgetHandlers {
  import opened Common
  import opened BudgetModel
  import Tables

  /** `UPDATE budgets SET col = COALESCE(?, col), ..., updated_at = ?`: each supplied
      field replaces the stored one, each absent field is kept, the row is restamped. */
  function Patched(b: Budget, p: UpdateBudgetRequest, now: Time): (r: Budget)
    ensures r.id == b.id && r.userId == b.userId && r.createdAt == b.createdAt
    ensures r.updatedAt == now
    ensures r.category == (if p.category.Some? then p.category.value else b.category)
    ensures r.amount == (if p.amount.Some? then p.amount.value else b.amount)
    ensures r.currency == (if p.currency.Some? then p.currency.value else b.currency)
    ensures r.period == (if p.period.Some? then p.period.value else b.period)
  {
    b.(category := p.category.GetOr(b.category), amount := p.amount.GetOr(b.amount),
       currency := p.currency.GetOr(b.currency), period := p.period.GetOr(b.period), updatedAt := now)
  }

  const NoChange := UpdateBudgetRequest(None, None, None, None)

  /** An update that supplies no field only moves `updated_at`. */
  lemma EmptyPatchOnlyRestamps(b: Budget, now: Time)
    ensures Patched(b, NoChange, now) == b.(updatedAt := now)
  {
  }

  /** Sending the same update twice leaves what sending it once did (up to the stamp). */
  lemma PatchIdempotent(b: Budget, p: UpdateBudgetRequest, t1: Time, t2: Time)
    ensures Patched(Patched(b, p, t1), p, t2) == Patched(b, p, t2)
  {
  }

  function IdOf(b: Budget): string { b.id }

  /** `WHERE user_id = ?` */
  function OwnedBy(principal: string): Budget -> bool {
    (b: Budget) => b.userId == principal
  }

  /** `ORDER BY created_at DESC` */
  predicate NewestFirst(a: Budget, b: Budget) {
    a.createdAt >= b.createdAt
  }

  lemma NewestFirstIsOrder()
    ensures Tables.TotalPreorder(NewestFirst)
  {
  }

  /** The `budgets` table, keyed by `id`. */
  class BudgetTable {
    var rows: map<string, Budget>

    ghost predicate Valid()
      reads this
    {
      forall id :: id in rows ==> rows[id].id == id
    }

    constructor ()
      ensures Valid() && rows == map[]
    {
      rows := map[];
    }

    /** `WHERE id = ? AND user_id = ?` matches a row. */
    predicate Owns(principal: string, id: string)
      reads this
    {
      id in rows && rows[id].userId == principal
    }

    /** `get_budget`: the row only when it exists and belongs to the principal; 404 otherwise. */
    function Get(principal: string, id: string, dbError: bool): (r: Outcome<Budget>)
      requires Valid()
      reads this
      ensures r.Success? <==> !dbError && id in rows && rows[id].userId == principal
      ensures r.Success? ==> r.value == rows[id] && r.value.id == id
      ensures r.Failure? ==> r.status == (if dbError then Internal else NotFound)
    {
      if dbError then Failure(Internal)
      else if Owns(principal, id) then Success(rows[id])
      else Failure(NotFound)
    }

    /** `create_budget`: the row built from the request, owned by the principal whatever
        the body says; a taken id is a 409 and leaves the table alone, whoever owns it. */
    method Create(principal: string, req: CreateBudgetRequest, freshId: string, now: Time, dbError: bool)
      returns (r: Outcome<Budget>)
      requires Valid()
      modifies this
      ensures Valid()
      ensures var b := NewBudget(req, principal, freshId, now);
              r == (if dbError then Failure(Internal)
                    else if b.id in old(rows) then Failure(Conflict)
                    else Success(b))
      ensures r.Success? ==> rows == old(rows)[r.value.id := r.value]
      ensures r.Failure? ==> rows == old(rows)
      ensures r.Success? ==> r.value.userId == principal && Get(principal, r.value.id, false) == Success(r.value)
    {
      var b := NewBudget(req, principal, freshId, now);
      if dbError {
        r := Failure(Internal);
      } else if b.id in rows {
        r := Failure(Conflict);
      } else {
        rows := rows[b.id := b];
        r := Success(b);
      }
    }

    /** `get_budgets`: exactly the principal's budgets, newest first; none is still a success. */
    method List(principal: string, dbError: bool) returns (r: Outcome<seq<Budget>>)
      requires Valid()
      ensures r.Failure? <==> dbError
      ensures r.Failure? ==> r.status == Internal
      ensures r.Success? ==> Tables.IsListing(rows, IdOf, OwnedBy(principal), NewestFirst, r.value)
    {
      if dbError {
        return Failure(Internal);
      }
      NewestFirstIsOrder();
      var rs := Tables.SelectOrdered(rows, IdOf, OwnedBy(principal), NewestFirst);
      r := Success(rs);
    }

    /** `update_budget`: merges the supplied fields into the principal's row and restamps it;
        404 and no change when no owned row has that id. No other row is touched. */
    method Update(principal: string, id: string, p: UpdateBudgetRequest, now: Time, dbError: bool)
      returns (r: Outcome<string>)
      requires Valid()
      modifies this
      ensures Valid()
      ensures r.Success? <==> !dbError && old(Owns(principal, id))
      ensures r.Success? ==> r.value == "Budget updated successfully"
      ensures r.Failure? ==> r.status == (if dbError then Internal else NotFound) && rows == old(rows)
      ensures r.Success? ==> rows == old(rows)[id := Patched(old(rows)[id], p, now)]
      ensures r.Success? ==> Get(principal, id, false) == Success(Patched(old(rows)[id], p, now))
    {
      if dbError {
        r := Failure(Internal);
      } else if Owns(principal, id) {
        rows := rows[id := Patched(rows[id], p, now)];
        r := Success("Budget updated successfully");
      } else {
        r := Failure(NotFound);
      }
    }

    /** `delete_budget`: removes the principal's row with that id and nothing else;
        404 and no change when there is none. */
    method Delete(principal: string, id: string, dbError: bool) returns (r: Outcome<string>)
      requires Valid()
      modifies this
      ensures Valid()
      ensures r.Success? <==> !dbError && old(Owns(principal, id))
      ensures r.Success? ==> r.value == "Budget deleted successfully" && rows == old(rows) - {id}
      ensures r.Failure? ==> r.status == (if dbError then Internal else NotFound) && rows == old(rows)
      ensures !dbError ==> Get(principal, id, false) == Failure(NotFound)
    {
      if dbError {
        r := Failure(Internal);
      } else if Owns(principal, id) {
        rows := rows - {id};
        r := Success("Budget deleted successfully");
      } else {
        r := Failure(NotFound);
      }
    }
  }
}
